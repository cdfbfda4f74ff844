# DPDK-Replay: the replay engine

This project models the replay engine of DPDK-Replay, a tool that replays a pcap capture file
onto DPDK network ports. The engine is `main_loop_producer`, and the model covers four of its
parts.

**Record loop.** The loop skips the capture's global header once. It then reads record after
record, each a fixed record header followed by `incl_len` payload bytes. It stops at the first
short read, or when it finds `do_shutdown` set at the top of an iteration.

**Fan-out.** Every record read in full is sent `nb_sys_ports * times` times.
- Send 0 puts the buffer the record was read into on port 0.
- Every later send `i` puts a fresh clone on port `i / times`.
- A refused send is retried until the sink takes it or the shutdown flag is seen.

**Pacing.** When a rate is set, the multiplier `mult` is adjusted on rate-limited records
0, 100, 200, and so on. It is clamped at 0. The engine then busy-waits until the clock allows
the bytes sent so far.

**Counters.** The engine credits `num_pkt_good_sent` with `times` and `num_bytes_good_sent`
with `(incl_len + 24) * times` per record. The 24 stands for preamble, frame check sequence
and inter-frame gap.

At the end the engine shuts down as `sig_handler(SIGINT)` does, printing the statistics. Of
`print_stats` the model keeps only the deltas and the snapshot update. The model also covers
`parse_args`, which accepts the options, and `isPowerOfTwo`, which it uses to vet the buffer
size.

## Modules

- `PowerOfTwo` (`power_of_two.dfy`) holds the bit trick of `isPowerOfTwo` on `bv32`.
- `Accounting` (`accounting.dfy`) holds the C arithmetic of the counters:
  - the byte credit is computed in `unsigned int`, so modulo 2^32;
  - the counters are `uint64_t`, so modulo 2^64;
  - `times` is converted from `int`.
- `Trace` (`trace.dfy`) reads the capture as a byte sequence.
  - `ScanFrom` gives the records the loop reads and says whether a payload read came up short.
  - `Encode` writes a capture from packets, so the reader can be checked against a writer.
- `FanOut` (`fanout.dfy`) holds the send plan of one record and its clone count.
- `RateControl` (`rate.dfy`) holds the control law, the clamp and the every-hundredth-record
  cadence, on `real`.
- `Args` (`args.dfy`) holds `parse_args`:
  - the globals it assigns are a class `Options`;
  - `ParseArgs` runs its `getopt` loop over an already tokenised option stream.
- `Replay` (`replay.dfy`) holds the class `Replayer`.
  - Its fields are the globals and loop locals `main_loop_producer` updates.
  - Ghost fields record the sends, allocations and clones, which the program does not keep.
  - What lies outside the program is a set of oracles fixed at construction: how often the
    sink refuses each send, when SIGINT arrives, the measured rate, and how long each pacing
    wait spins.

The sizes of the global and record headers come from `main.h`, which is not part of this
model. They are a `Layout` parameter; the pcap values are `PCAP` (24, 16, and `incl_len` at
offset 8).

The code does the following as written, and the model keeps it that way:
- A record with `incl_len == 0` ends the replay, because `fread` of size 0 returns 0.
- A short payload read still costs the allocation made before it.
- `buffer_size` goes through `atoi` into a `uint64_t`, then is truncated to `unsigned int` for
  `isPowerOfTwo`. So `-B -2147483648` is accepted.
- The byte credit of one record wraps at 2^32. For example, 1500-byte records with
  `times = 2818573` wrap.

## Model

| member | source | states |
|---|---|---|
| PowerOfTwo.Pow2IsPowerOfTwo | src/main_replay_no_copy.c:358-361 | every 2^k with k < 32 passes the `x != 0 && !(x & (x-1))` test |
| PowerOfTwo.Exponent | src/main_replay_no_copy.c:358-361 | every `x` that passes the test is 2^k for some k < 32, and the lemma returns that k |
| PowerOfTwo.IsPowerOfTwoIff | src/main_replay_no_copy.c:358-361 | `isPowerOfTwo(x)` holds exactly when `x` is a power of two below 2^32 |
| PowerOfTwo.IsPowerOfTwo | src/main_replay_no_copy.c:358-361 | `isPowerOfTwo` itself, `x != 0 && !(x & (x - 1))` on a 32-bit unsigned value; no contract of its own, `IsPowerOfTwoIff` characterises it |
| Accounting.ToU32 | src/main_replay_no_copy.c:198 | conversion to `unsigned int` lands below 2^32 and keeps values already in range |
| Accounting.ToU64 | src/main_replay_no_copy.c:197-198 | conversion to `uint64_t` lands below 2^64 and keeps values already in range |
| Accounting.CreditPackets | src/main_replay_no_copy.c:197 | `num_pkt_good_sent += times` stays a `uint64_t`; it is the exact sum when that fits, and otherwise the sum less 2^64 |
| Accounting.RecordBytes | src/main_replay_no_copy.c:198 | the per-record byte credit `(incl_len + 24) * times` is an `unsigned int` |
| Accounting.RecordBytesExact | src/main_replay_no_copy.c:198 | with `times >= 0` and no 32-bit overflow, the credit is exactly `(incl_len + 24) * times` |
| Accounting.RecordBytesWraps | src/main_replay_no_copy.c:198 | 1500-byte records with `times = 2818573` get a credit 2^32 short of the true wire bytes |
| Accounting.CreditBytes | src/main_replay_no_copy.c:198 | the byte counter grows by the record's credit, modulo 2^64 |
| Accounting.CreditBytesExact | src/main_replay_no_copy.c:198 | without overflow, the byte counter grows by exactly `(incl_len + 24) * times` |
| Accounting.PacketsAfter | src/main_replay_no_copy.c:197 | the packet counter after `n` records is a `uint64_t` |
| Accounting.BytesAfter | src/main_replay_no_copy.c:198 | the byte counter after records of the given lengths is a `uint64_t` |
| Accounting.PacketsAfterClosed | src/main_replay_no_copy.c:197 | after `n` records the packet counter is `n * times` modulo 2^64 |
| Accounting.PacketsAfterExact | src/main_replay_no_copy.c:197 | without overflow, the final packet count is `times` times the number of records read in full |
| Accounting.BytesAfterExact | src/main_replay_no_copy.c:198 | without overflow, the byte counter is `times` times the records' wire bytes (payload + 24 each) |
| Accounting.PacketsMonotone | src/main_replay_no_copy.c:197 | without overflow, the packet counter never decreases as records are credited |
| Accounting.BytesMonotone | src/main_replay_no_copy.c:198 | without overflow, the byte counter never decreases as records are credited |
| FanOut.Plan | src/main_replay_no_copy.c:161-175 | a record has exactly as many sends as the loop runs |
| FanOut.PlanOriginalFirst | src/main_replay_no_copy.c:164-175 | send 0 is the original buffer on port 0; every later send is a clone |
| FanOut.PortBlocks | src/main_replay_no_copy.c:161-175 | every send goes to an existing port, and port `p` gets exactly the `times` consecutive sends starting at `p * times` |
| FanOut.ClonesInPlan | src/main_replay_no_copy.c:151-170 | a record costs exactly `nb_sys_ports * times - 1` clones on top of its one buffer |
| FanOut.ClonesPerRecord | src/main_replay_no_copy.c:151-170 | the clones one record costs on top of its buffer; no contract of its own, `ClonesInPlan` ties it to the plan |
| RateControl.Adjust | src/main_replay_no_copy.c:186-189 | the new multiplier is never negative; it is the control-law sum when that is not negative, and 0 otherwise |
| RateControl.AdjustDirection | src/main_replay_no_copy.c:186-189 | a replay running ahead of its rate never shortens its wait, one behind never lengthens it, and one on target leaves it alone |
| RateControl.Adjustments | src/main_replay_no_copy.c:181 | at most one adjustment per rate-limited record |
| RateControl.AdjustmentsClosed | src/main_replay_no_copy.c:181 | `ix++ % 100 == 0` adjusts on records 0, 100, 200, ...; after `n` records, `ceil(n / 100)` adjustments have been made |
| RateControl.AdjustsAt | src/main_replay_no_copy.c:181 | the test `ix++ % 100 == 0` on the value `ix` held before the increment; no contract of its own, `AdjustmentsClosed` counts its hits |
| RateControl.MultAfter | src/main_replay_no_copy.c:179-189 | after every adjustment the multiplier is at least 0 |
| RateControl.MultNeverGrowsWhenSlow | src/main_replay_no_copy.c:186-189 | while no measured rate exceeds the target, the multiplier never rises above its start |
| Args.Assign | src/main_replay_no_copy.c:337-345 | `-f`, `-t`, `-B` and `-r` each overwrite exactly their own global (`strdup`, `atoi`, `atoi` into `uint64_t`, `atof`) and leave the other three as they were |
| Args.Apply | src/main_replay_no_copy.c:336-348 | the globals after the `getopt` loop: `buffer_size` holds a `uint64_t` value unless no `-B` was applied |
| Args.Verdict | src/main_replay_no_copy.c:336-354 | the value `parse_args` returns is 0 or -1 |
| Args.Low32 | src/main_replay_no_copy.c:351 | the truncation of `buffer_size` to the `unsigned int` parameter of `isPowerOfTwo`; no contract of its own, `Low32Of` relates it to `ToU32` |
| Args.Low32Of | src/main_replay_no_copy.c:351 | the truncated size is the 32-bit word whose value is `buffer_size` modulo 2^32 |
| Args.BufferAccepted | src/main_replay_no_copy.c:351 | the test `isPowerOfTwo(buffer_size)`; no contract of its own, `BufferAcceptedIff` characterises it |
| Args.IntMinAccepted | src/main_replay_no_copy.c:342-351 | the size 2^64 - 2^31 that `-B -2147483648` leaves passes the test, its low word being 2^31 |
| Args.VerdictIff | src/main_replay_no_copy.c:336-354 | `parse_args` returns 0 or -1. It returns 0 exactly when no unknown option appears, a file name was given, and the final buffer size passes `isPowerOfTwo` |
| Args.StopsAtUnknown | src/main_replay_no_copy.c:346 | an unknown option makes the call return -1, and no option after it is applied |
| Args.FileNameRequired | src/main_replay_no_copy.c:351-352 | without `-f` the call returns -1, whatever else is given |
| Args.BufferAcceptedIff | src/main_replay_no_copy.c:351 | a buffer size is accepted exactly when its low 32 bits are a power of two |
| Args.NegativeBufferAccepted | src/main_replay_no_copy.c:342 | `-B -2147483648` stores 2^64 - 2^31 in `buffer_size` and is accepted |
| Args.Options.constructor | src/main_replay_no_copy.c:29-35 | the globals start at no file name, `times` 1, `buffer_size` 1048576 and `rate` 0 |
| Args.Options.ParseArgs | src/main_replay_no_copy.c:330-356 | the globals end as the options up to the first unknown one leave them, and the return value is the verdict `VerdictIff` characterises |
| Trace.Le32 | src/main_replay_no_copy.c:147-148 | a header field read as a 32-bit little-endian value is below 2^32 |
| Trace.Le32RoundTrip | src/main_replay_no_copy.c:147-148 | reading back a written 32-bit length gives that length |
| Trace.Stamp | src/main_replay_no_copy.c:147-148 | a record header written with a length keeps its size and every byte outside the `incl_len` field |
| Trace.StampWellFormed | src/main_replay_no_copy.c:147-148 | a header stamped with the payload length makes a well-formed record, one the reader reads with that length |
| Trace.Records | src/main_replay_no_copy.c:116 | the records of the whole trace, read from just past the global header; no contract of its own, `CaptureRoundTrip`, `TruncatedCapture` and `EmptyRecordStops` characterise it |
| Trace.ScanFrom | src/main_replay_no_copy.c:147-155 | the first record read from any position has a non-empty payload: a zero `incl_len` ends the reading instead |
| Trace.HeaderAt | src/main_replay_no_copy.c:147-148 | a well-formed record header fits and its `incl_len` is the payload length |
| Trace.ScanPacket | src/main_replay_no_copy.c:147-155 | a stored record is read as its payload, and reading continues right after it |
| Trace.ScanStored | src/main_replay_no_copy.c:147-155 | a run of stored records is read back as their payloads, in file order |
| Trace.CaptureRoundTrip | src/main_replay_no_copy.c:116-155 | a capture written from packets with non-empty payloads is read back as those payloads, with no short read |
| Trace.TruncatedCapture | src/main_replay_no_copy.c:147-155 | a capture cut inside its last record yields the complete records before it. The stop counts as a short payload read exactly when the whole record header is present |
| Trace.EmptyRecordStops | src/main_replay_no_copy.c:154-155 | a record with `incl_len == 0` ends the reading there, as a short payload read, whatever follows |
| Replay.BytesAfterSnoc | src/main_replay_no_copy.c:198 | crediting one more record extends the byte counter by exactly its credit |
| Replay.Delta | src/main_replay_no_copy.c:220-222 | the `uint64_t` difference `print_stats` takes is below 2^64 |
| Replay.DeltaRecoversCredit | src/main_replay_no_copy.c:220-222 | that difference is what was credited since the snapshot, even across a wrap-around |
| Replay.ScannedStep | src/main_replay_no_copy.c:147-155 | a record read in full joins the records read so far, and reading resumes right after its payload |
| Replay.Replayer.constructor | src/main_replay_no_copy.c:29-42 | the replayer starts with the flag down, the counters, snapshots and loop locals at 0, and nothing sent |
| Replay.Replayer.MultStart | src/main_replay_no_copy.c:122 | `mult_start`, TSC cycles per nanosecond, is not negative |
| Replay.Replayer.LookAtShutdown | src/main_replay_no_copy.c:143-144 | a look at `do_shutdown` finds it up if it was up before or SIGINT has arrived by now. So the flag stays up exactly when some look so far found SIGINT arrived |
| Replay.Replayer.Transmit | src/main_replay_no_copy.c:165-173 | a send is retried after each refusal. It is taken only after exactly as many refusals as the sink makes. It is abandoned only with the flag up, and it gets one attempt when the flag was already up. It looks at the flag once after each refusal until it stops. A look that finds SIGINT arrived is its last, and the send is then abandoned |
| Replay.Replayer.SendPlan | src/main_replay_no_copy.c:161-175 | the sends follow the plan, legs and all, and take the sink's answers in order: send `j` is logical send `txCount + j`, and `txCount` grows by the plan's length. The record costs `nb_sys_ports * times - 1` clones. With the flag still down, every send was taken. Once a send is abandoned, every later send of the record starts with the flag up and gets one attempt |
| Replay.Replayer.SendRecord | src/main_replay_no_copy.c:161-175 | a record's sends join the log as one new entry, the earlier entries stay as they were, and the log's plan and delivery invariants are kept. The sends are numbered in the order they were started, record after record, so each send's attempts are the sink's answers to that number, and `txCount` counts all of them |
| Replay.Replayer.Pace | src/main_replay_no_copy.c:179-193 | `ix` goes up by one. On every hundredth record the multiplier takes the clamped control law on the measured rate, and otherwise stays. It stays at least 0. The wait ends early only with the flag up, and with the flag already up it ends at the first unfinished clock read. It looks at the flag once after each clock read that finds the wait not over. A look that finds SIGINT arrived is its last, and the wait then ends early |
| Replay.Replayer.PaceRecord | src/main_replay_no_copy.c:179-194 | the pacing state keeps matching the number of records replayed: `ix`, the adjustments made and the multiplier they give. The `j`-th adjustment used the rate measured at record `100 * j` |
| Replay.Replayer.Credit | src/main_replay_no_copy.c:197-198 | the counters move from the credit of the records before to that of the records with this one |
| Replay.Replayer.Advance | src/main_replay_no_copy.c:154-155 | a payload read in full joins the replayed records, and the read position moves past it |
| Replay.Replayer.ReplayRecord | src/main_replay_no_copy.c:154-198 | a record read in full is replayed once, the earlier log entries stay, and the engine's invariant is kept |
| Replay.Replayer.Deliver | src/main_replay_no_copy.c:161-198 | send, pace and credit keep counters, log, send numbering and pacing in step with the records replayed, leaving the earlier log entries as they were |
| Replay.Replayer.ShortHeaderRead | src/main_replay_no_copy.c:147-148 | a short header read ends the loop at the end of the trace, with no allocation and no credit |
| Replay.Replayer.ShortPayloadRead | src/main_replay_no_copy.c:151-155 | a short payload read, or `incl_len == 0`, ends the loop. It counts as a short payload in the trace, and its allocation is spent with no credit |
| Replay.Replayer.ReadRecord | src/main_replay_no_copy.c:147-198 | the reads of an iteration either replay the next record of the trace or end the loop through one of the short reads, never as an interruption. A flag raised during the sends still comes from a SIGINT some look found |
| Replay.Replayer.Step | src/main_replay_no_copy.c:140-200 | an iteration ends the loop as interrupted exactly when the flag was already up or SIGINT arrived before its look. It then reads nothing. Otherwise it replays the next record or stops on a short read |
| Replay.Replayer.Start | src/main_replay_no_copy.c:116-125 | the read position goes past the global header, `mult` becomes `mult_start` when a rate is set, and the loop invariant holds |
| Replay.Replayer.ReplayTrace | src/main_replay_no_copy.c:140-200 | the loop replays the trace's records in file order, all of them unless interrupted. It ends interrupted exactly when the flag is up at its exit, and at once, replaying nothing, when the flag was up on entry. The counters hold `times` packets and `(incl_len + 24) * times` bytes per record. Each record costs one allocation and the plan's clones. Every send before the last record was taken, and within a record the sends after an abandoned one found the flag up and were tried once each. The sends are numbered in the order they were started, and each adjustment used the rate measured at its record |
| Replay.Replayer.Produce | src/main_replay_no_copy.c:116-200 | from the initial state, the header skip, the setup and the record loop end as `ReplayTrace` describes. The loop ends interrupted exactly when some look at the flag found SIGINT arrived |
| Replay.Replayer.Run | src/main_replay_no_copy.c:98-204 | the whole engine ends as `ReplayTrace` describes, with the flag up and the snapshot equal to the counters. It ends interrupted exactly when some look at the flag found SIGINT arrived |
| Replay.Replayer.PrintStats | src/main_replay_no_copy.c:220-230 | the increments are the counters' `uint64_t` differences from the snapshot, and the snapshot then equals the counters |
| Replay.Replayer.Shutdown | src/main_replay_no_copy.c:256-267 | the flag goes up and the statistics print leaves the snapshot equal to the counters |

## Left out

- DPDK setup (`rte_eal_init`, the mempool, `init_port`, queue setup) is left out: it is foreign code and device I/O.
- Mbuf internals and reference counting are left out. Allocations and clones are ghost counts.
- `fopen`, `setvbuf` and the stdio buffering are left out. The trace is an in-memory byte sequence, and `fseek` and `fread` are positions in it.
- An `fopen` failure (exit 1) is not modelled.
- The clock is left out, and so is the floating-point arithmetic of `real_rate` and `deltaMillisec`. The measured rate is the `measuredRate` oracle, and doubles are `real`.
- The busy-wait against `rte_get_tsc_cycles` is left out. How many clock reads find the wait unfinished is the `spinsAt` oracle.
- `print_stats`' clock reads, Gbps/Mpps arithmetic and `printf` are left out: they are floating point and presentation.
- `alarm_routine` is left out: it is signal-driven periodic printing.
- `sig_handler`'s asynchronous delivery and its `exit(0)` are left out. SIGINT is the `interruptBy` oracle, which the loop sees at its looks at `do_shutdown`. The final `sig_handler(SIGINT)` call is `Shutdown`.
- `main` is not modelled. It is plumbing, and it ignores the result of `parse_args`, since line 69 tests the stale `ret` of line 64.
- `getopt`, `strdup`, `atoi` and `atof` are left out. Options arrive already tokenised and converted: `Int32` for `atoi`, `real` for `atof`.
- The sink is assumed to take every send after finitely many refusals (`rejections`). A sink that refuses forever while the flag stays down is not modelled.
- The unchecked NULL results of `rte_pktmbuf_alloc` and `rte_pktmbuf_clone` are not modelled, nor a payload longer than the mbuf.
- `main.h` is not part of this model. The header sizes and the `incl_len` offset are the `Layout` parameter.
- Replay.Replayer.Step: `nb_sys_ports * times` and `ix` are `int` in the source. Their overflow past 2^31 is not modelled; both are unbounded integers here.
- Accounting.PacketsAfterExact, Accounting.BytesAfterExact, Accounting.PacketsMonotone and Accounting.BytesMonotone: they hold only when the counters do not wrap. `PacketsAfterClosed` gives the wrapped packet count.
- Replay.Replayer.Transmit: which port a send uses is recorded, but the port's transmit queue is not.
