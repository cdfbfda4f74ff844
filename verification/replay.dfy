/**
 * `main_loop_producer`: the record loop that reads the trace, sends every record
 * `nb_sys_ports * times` times, paces the replay and credits the counters, together with the
 * snapshot update of `print_stats` and the final call of `sig_handler`.
 *
 * What lies outside the program is an oracle fixed when the replayer is built:
 *   - `rejections(n)`: how often `rte_eth_tx_burst` refuses logical send number `n` before
 *     taking it (the sink always takes a send in the end);
 *   - `interruptBy(n)`: whether SIGINT has arrived by the `n`-th look at `do_shutdown`;
 *   - `measuredRate(ix)`: `real_rate` as measured when rate-limited record `ix` adjusts;
 *   - `spinsAt(ix)`: how many clock reads of the pacing wait of record `ix` find the wait
 *     not yet over.
 */
module Replay {
  import opened Accounting
  import opened Trace
  import opened FanOut
  import opened RateControl

  /** One logical send: its number, its leg, how it went, and whether the flag was up before it. */
  datatype Send = Send(number: nat, leg: Leg, attempts: nat, accepted: bool, flagBefore: bool)

  /** Why the record loop stopped. */
  datatype Exit =
    | Interrupted   // `do_shutdown` was found set at the top of an iteration
    | ShortHeader   // the record header read came up short
    | ShortPayload  // the payload read came up short (or `incl_len` was 0)

  datatype Outcome = Continue | Stop(exit: Exit)

  /** Payload lengths of the records `rs`. */
  function Lengths(rs: seq<seq<byte>>): (ls: seq<nat>)
    ensures |ls| == |rs|
    ensures forall i :: 0 <= i < |rs| ==> ls[i] == |rs[i]|
  {
    seq(|rs|, i requires 0 <= i < |rs| => |rs[i]|)
  }

  /** Crediting one more record extends the byte counter by one credit. */
  lemma BytesAfterSnoc(rs: seq<seq<byte>>, p: seq<byte>, times: int)
    ensures BytesAfter(Lengths(rs + [p]), times) == CreditBytes(BytesAfter(Lengths(rs), times), |p|, times)
  {
    var ls := Lengths(rs + [p]);
    assert ls[..|ls| - 1] == Lengths(rs);
  }

  /** The difference `counter - old_counter` that `print_stats` computes in `uint64_t`. */
  function Delta(now: nat, before: nat): (d: nat)
    ensures d < TWO_64
  {
    ToU64(now - before)
  }

  /**
   * The unsigned difference recovers what was credited since the snapshot, even when the
   * counter wrapped around in between.
   */
  lemma DeltaRecoversCredit(before: nat, credit: nat)
    requires before < TWO_64 && credit < TWO_64
    ensures Delta(ToU64(before + credit), before) == credit
  {
    if before + credit >= TWO_64 {
      assert ToU64(before + credit) == before + credit - TWO_64;
      assert ToU64(credit - TWO_64) == credit;
    }
  }

  class Replayer {
    const layout: Layout
    const trace: seq<byte>
    /** `nb_sys_ports` */
    const ports: nat
    /** `times` */
    const times: int
    /** `rate`, in Gbps */
    const rate: real
    /** `rte_get_tsc_hz()` */
    const tscHz: nat
    const rejections: nat -> nat
    const interruptBy: nat -> bool
    const measuredRate: nat -> real
    const spinsAt: nat -> nat

    /** `do_shutdown` */
    var doShutdown: bool
    /** How often `do_shutdown` has been looked at. */
    var looks: nat
    /** How many logical sends have been started. */
    var txCount: nat
    /** Position of the stream `file` in the trace. */
    var pos: nat
    /** `num_pkt_good_sent`, `num_bytes_good_sent` and their snapshots `old_num_*`. */
    var pktSent: nat
    var bytesSent: nat
    var prevPktSent: nat
    var prevBytesSent: nat
    /** The locals `mult` and `ix` of the loop. */
    var mult: real
    var ix: nat

    /** The payloads sent so far, in order. */
    ghost var replayed: seq<seq<byte>>
    /** The sends of each replayed record. */
    ghost var log: seq<seq<Send>>
    /** Record header reads, `rte_pktmbuf_alloc` calls and `rte_pktmbuf_clone` calls made. */
    ghost var headerReads: nat
    ghost var allocations: nat
    ghost var clones: nat
    /** The measured rates the multiplier has been adjusted with. */
    ghost var measurements: seq<real>

    /** The globals and locals as they stand when `main_loop_producer` is entered. */
    ghost predicate Initial()
      reads this
    {
      && layout.Valid()
      && !doShutdown && looks == 0 && txCount == 0 && pos == 0
      && pktSent == 0 && bytesSent == 0 && prevPktSent == 0 && prevBytesSent == 0
      && mult == 0.0 && ix == 0
      && replayed == [] && log == [] && measurements == []
      && headerReads == 0 && allocations == 0 && clones == 0
    }

    constructor (layout: Layout, trace: seq<byte>, ports: nat, times: int, rate: real, tscHz: nat,
                 rejections: nat -> nat, interruptBy: nat -> bool,
                 measuredRate: nat -> real, spinsAt: nat -> nat)
      requires layout.Valid()
      ensures Initial()
      ensures this.layout == layout && this.trace == trace && this.ports == ports
      ensures this.times == times && this.rate == rate && this.tscHz == tscHz
      ensures this.rejections == rejections && this.interruptBy == interruptBy
      ensures this.measuredRate == measuredRate && this.spinsAt == spinsAt
    {
      this.layout, this.trace, this.ports, this.times := layout, trace, ports, times;
      this.rate, this.tscHz := rate, tscHz;
      this.rejections, this.interruptBy := rejections, interruptBy;
      this.measuredRate, this.spinsAt := measuredRate, spinsAt;
      doShutdown, looks, txCount, pos := false, 0, 0, 0;
      pktSent, bytesSent, prevPktSent, prevBytesSent := 0, 0, 0, 0;
      mult, ix := 0.0, 0;
      replayed, log, measurements := [], [], [];
      headerReads, allocations, clones := 0, 0, 0;
    }

    /** `mult_start`: TSC cycles per nanosecond. */
    function MultStart(): (m: real)
      ensures m >= 0.0
    {
      tscHz as real / 1000000000.0
    }

    /** The sends of one record, in plan order. */
    function RecordPlan(): seq<Leg> {
      Plan(ports, times)
    }

    /**
     * A send went as `rte_eth_tx_burst` and the flag let it: a taken send was refused exactly
     * `rejections` times first; an abandoned one gave up before the sink would have taken it;
     * with the flag already up, it was tried once only.
     */
    ghost predicate Delivered(s: Send) {
      && 1 <= s.attempts
      && (s.accepted ==> s.attempts == rejections(s.number) + 1)
      && (!s.accepted ==> s.attempts <= rejections(s.number))
      && (s.flagBefore ==> s.attempts == 1)
    }

    /**
     * The sends of one record follow the fan-out plan, and once one of them is abandoned every
     * later one starts with the flag up (and so gets a single attempt).
     */
    ghost predicate Follows(block: seq<Send>) {
      && |block| == |RecordPlan()|
      && (forall j :: 0 <= j < |block| ==> block[j].leg == RecordPlan()[j] && Delivered(block[j]))
      && (forall j, k :: 0 <= j < k < |block| && !block[j].accepted ==> block[k].flagBefore)
    }

    /** Every send of a record was taken by the sink before any shutdown was seen. */
    ghost predicate AllDelivered(block: seq<Send>) {
      forall j :: 0 <= j < |block| ==> block[j].accepted && !block[j].flagBefore
    }

    /** The pacing state after `n` records have been replayed. */
    ghost predicate PacedAt(n: nat)
      reads this`ix, this`mult, this`measurements
    {
      && (rate > 0.0 ==> ix == n && |measurements| == Adjustments(ix))
      && (rate <= 0.0 ==> ix == 0 && measurements == [])
      && mult == (if rate != 0.0 then MultAfter(MultStart(), measurements, rate) else 0.0)
      && forall j :: 0 <= j < |measurements| ==> measurements[j] == measuredRate(j * ADJUST_PERIOD)
    }

    /** The records replayed so far are the first ones of the trace, and `pos` is right after them. */
    ghost predicate Scanned()
      reads this`pos, this`replayed
    {
      && layout.Valid()
      && Records(layout, trace).records == replayed + ScanFrom(layout, trace, pos).records
      && Records(layout, trace).truncatedPayload == ScanFrom(layout, trace, pos).truncatedPayload
    }

    /** The counters hold the credits of the records `rs`. */
    ghost predicate CreditedFor(rs: seq<seq<byte>>)
      reads this`pktSent, this`bytesSent
    {
      && pktSent == PacketsAfter(times, |rs|)
      && bytesSent == BytesAfter(Lengths(rs), times)
    }

    /**
     * Every record sent so far went through the whole plan, with its clones, and only the
     * last one can hold a send that was abandoned or started after the flag went up.
     */
    ghost predicate Logged()
      reads this`log, this`clones
    {
      && clones == |log| * ClonesPerRecord(ports, times)
      && (forall k :: 0 <= k < |log| ==> Follows(log[k]))
      && (forall k :: 0 <= k < |log| - 1 ==> AllDelivered(log[k]))
    }

    /** While the flag is down, every send so far was taken by the sink. */
    ghost predicate Calm()
      reads this`log, this`doShutdown
    {
      !doShutdown ==> forall k :: 0 <= k < |log| ==> AllDelivered(log[k])
    }

    /** The sends are numbered in the order they were started, record after record. */
    ghost predicate Numbered()
      reads this`log, this`txCount
    {
      && txCount == |log| * |RecordPlan()|
      && forall k, j :: 0 <= k < |log| && 0 <= j < |log[k]| ==> log[k][j].number == k * |RecordPlan()| + j
    }

    /** What holds between records, apart from the read and allocation counts. */
    ghost predicate Core()
      reads this`pos, this`replayed, this`pktSent, this`bytesSent, this`log, this`clones
      reads this`doShutdown, this`ix, this`mult, this`measurements, this`txCount
    {
      && Scanned() && CreditedFor(replayed) && Logged() && Calm() && Numbered()
      && |log| == |replayed| && PacedAt(|replayed|)
    }

    /** The loop invariant: one header read and one allocation per replayed record. */
    ghost predicate Consistent()
      reads this`pos, this`replayed, this`pktSent, this`bytesSent, this`log, this`clones
      reads this`doShutdown, this`ix, this`mult, this`measurements, this`txCount
      reads this`headerReads, this`allocations
    {
      Core() && headerReads == |replayed| && allocations == |replayed|
    }

    /** The state in which the loop leaves through `exit`. */
    ghost predicate Finished(exit: Exit)
      reads this`pos, this`replayed, this`pktSent, this`bytesSent, this`log, this`clones
      reads this`doShutdown, this`ix, this`mult, this`measurements, this`txCount
      reads this`headerReads, this`allocations
    {
      && Core()
      && match exit
         case Interrupted =>
           doShutdown && headerReads == |replayed| && allocations == |replayed|
         case ShortHeader =>
           && !doShutdown && headerReads == |replayed| + 1 && allocations == |replayed|
           && ScanFrom(layout, trace, pos) == Scan([], false)
         case ShortPayload =>
           && !doShutdown && headerReads == |replayed| + 1 && allocations == |replayed| + 1
           && ScanFrom(layout, trace, pos) == Scan([], true)
    }

    /** `do_shutdown` is up exactly when one of the looks at it so far found SIGINT arrived. */
    ghost predicate Heard()
      reads this`doShutdown, this`looks
    {
      doShutdown <==> exists n :: 0 <= n < looks && interruptBy(n)
    }

    /** `if (unlikely(do_shutdown))`: a look at the flag, which SIGINT may have raised by now. */
    method LookAtShutdown()
      modifies this`doShutdown, this`looks
      ensures looks == old(looks) + 1
      ensures doShutdown == (old(doShutdown) || interruptBy(old(looks)))
      ensures old(Heard()) ==> Heard()
    {
      doShutdown := doShutdown || interruptBy(looks);
      looks := looks + 1;
    }

    /**
     * `while (rte_eth_tx_burst(port, 0, &m, 1) != 1) if (unlikely(do_shutdown)) break;`:
     * one logical send, retried after every refusal until the sink takes it or the flag is
     * found up.
     */
    method Transmit(leg: Leg) returns (ghost s: Send)
      modifies this`doShutdown, this`looks, this`txCount
      ensures txCount == old(txCount) + 1
      ensures s.number == old(txCount) && s.leg == leg && s.flagBefore == old(doShutdown)
      ensures Delivered(s)
      ensures old(doShutdown) ==> doShutdown
      ensures !s.accepted ==> doShutdown
      ensures looks == old(looks) + s.attempts - (if s.accepted then 1 else 0)
      ensures forall n :: old(looks) <= n < looks && interruptBy(n) ==> n == looks - 1 && !s.accepted
      ensures old(Heard()) ==> Heard()
    {
      var refusals := rejections(txCount);
      var attempts := 1;
      var accepted := refusals == 0;
      while !accepted
        invariant 1 <= attempts <= refusals + 1
        invariant accepted <==> attempts == refusals + 1
        invariant old(doShutdown) ==> doShutdown && attempts == 1
        invariant looks == old(looks) + attempts - 1
        invariant forall n :: old(looks) <= n < looks ==> !interruptBy(n)
        invariant old(Heard()) ==> Heard()
        modifies this`doShutdown, this`looks
        decreases refusals + 1 - attempts
      {
        LookAtShutdown();
        if doShutdown {
          break;
        }
        attempts := attempts + 1;
        accepted := attempts > refusals;
      }
      s := Send(txCount, leg, attempts, accepted, old(doShutdown));
      txCount := txCount + 1;
    }

    /**
     * The send loop of one record: send 0 puts the buffer itself on port 0, every later send
     * `i` a fresh clone on port `i / times`.
     */
    method SendRecord()
      requires Logged() && Calm() && Numbered() && !doShutdown
      modifies this`doShutdown, this`looks, this`txCount, this`clones, this`log
      ensures Logged() && Calm() && Numbered()
      ensures |log| == |old(log)| + 1 && log[..|old(log)|] == old(log)
      ensures old(Heard()) ==> Heard()
    {
      ghost var block := SendPlan();
      log := log + [block];
      assert txCount == |log| * |RecordPlan()|;
      assert clones == (|log| - 1) * ClonesPerRecord(ports, times) + ClonesPerRecord(ports, times);
      assert log[..|old(log)|] == old(log);
    }

    /** The send loop proper, returning the sends it made. */
    method SendPlan() returns (ghost block: seq<Send>)
      modifies this`doShutdown, this`looks, this`txCount, this`clones
      ensures Follows(block)
      ensures txCount == old(txCount) + |block|
      ensures forall j :: 0 <= j < |block| ==> block[j].number == old(txCount) + j
      ensures clones == old(clones) + ClonesPerRecord(ports, times)
      ensures old(doShutdown) ==> doShutdown
      ensures !doShutdown ==> AllDelivered(block)
      ensures old(Heard()) ==> Heard()
    {
      var n := SendCount(ports, times);
      ghost var plan := RecordPlan();
      block := [];
      var i := 0;
      while i < n
        invariant i <= n == |plan|
        invariant |block| == i
        invariant forall j :: 0 <= j < i ==> block[j].leg == plan[j] && Delivered(block[j])
        invariant txCount == old(txCount) + i
        invariant forall j :: 0 <= j < i ==> block[j].number == old(txCount) + j
        invariant forall j, k :: 0 <= j < k < i && !block[j].accepted ==> block[k].flagBefore
        invariant clones == old(clones) + (if i == 0 then 0 else i - 1)
        invariant old(doShutdown) ==> doShutdown
        invariant !doShutdown ==> AllDelivered(block)
        invariant old(Heard()) ==> Heard()
      {
        ghost var s;
        if i == 0 {
          s := Transmit(Leg(0, false));
        } else {
          clones := clones + 1;
          s := Transmit(Leg(i / times, true));
        }
        block := block + [s];
        i := i + 1;
      }
    }

    /**
     * The rate-limited part of an iteration: adjust the multiplier when `ix++ % 100 == 0`,
     * clamping it at 0, then wait until the clock allows the bytes sent so far, looking at
     * the flag after every clock read that finds the wait not yet over.
     */
    method Pace() returns (waited: nat)
      requires rate > 0.0 && mult >= 0.0
      modifies this`ix, this`mult, this`measurements, this`doShutdown, this`looks
      ensures ix == old(ix) + 1
      ensures AdjustsAt(old(ix)) ==> measurements == old(measurements) + [measuredRate(old(ix))]
                                     && mult == Adjust(old(mult), measuredRate(old(ix)), rate)
      ensures !AdjustsAt(old(ix)) ==> measurements == old(measurements) && mult == old(mult)
      ensures mult >= 0.0
      ensures waited <= spinsAt(old(ix)) && (waited < spinsAt(old(ix)) ==> doShutdown)
      ensures old(doShutdown) ==> doShutdown && waited == 0
      ensures looks == old(looks) + (if waited < spinsAt(old(ix)) then waited + 1 else waited)
      ensures forall n :: old(looks) <= n < looks && interruptBy(n) ==> n == looks - 1 && waited < spinsAt(old(ix))
      ensures old(Heard()) ==> Heard()
    {
      var k := ix;
      ix := ix + 1;
      if AdjustsAt(k) {
        mult := Adjust(mult, measuredRate(k), rate);
        measurements := measurements + [measuredRate(k)];
      }
      waited := 0;
      while waited < spinsAt(k)
        invariant waited <= spinsAt(k)
        invariant old(doShutdown) ==> doShutdown && waited == 0
        invariant looks == old(looks) + waited
        invariant forall n :: old(looks) <= n < looks ==> !interruptBy(n)
        invariant old(Heard()) ==> Heard()
        modifies this`doShutdown, this`looks
      {
        LookAtShutdown();
        if doShutdown {
          break;
        }
        waited := waited + 1;
      }
    }

    /** The rate-limited part of an iteration, when `rate > 0`. */
    method PaceRecord(ghost n: nat)
      requires PacedAt(n) && Calm()
      modifies this`ix, this`mult, this`measurements, this`doShutdown, this`looks
      ensures PacedAt(n + 1) && Calm()
      ensures old(Heard()) ==> Heard()
    {
      if rate > 0.0 {
        var _ := Pace();
        AdjustmentsStep(n);
        AdjustmentsClosed(n);
      }
    }

    /** `num_pkt_good_sent += times; num_bytes_good_sent += (hdr.incl_len + 24) * times;` */
    method Credit(ghost rs: seq<seq<byte>>, ghost payload: seq<byte>, len: nat)
      requires CreditedFor(rs) && len == |payload|
      modifies this`pktSent, this`bytesSent
      ensures CreditedFor(rs + [payload])
    {
      pktSent := CreditPackets(pktSent, times);
      bytesSent := CreditBytes(bytesSent, len, times);
      BytesAfterSnoc(rs, payload, times);
    }

    /** `fread(buf, hdr.incl_len, 1, file)` succeeding: the payload joins the replayed records. */
    method Advance(payload: seq<byte>, start: nat, next: nat)
      requires Scanned() && pos + layout.recordHeader <= |trace|
      requires start == pos + layout.recordHeader && next == start + InclLen(layout, trace, pos)
      requires 0 < InclLen(layout, trace, pos) && next <= |trace|
      requires payload == trace[start .. next]
      modifies this`pos, this`replayed
      ensures Scanned() && replayed == old(replayed) + [payload] && pos == next
    {
      ScannedStep(layout, trace, pos, replayed, start, next);
      replayed := replayed + [payload];
      pos := next;
    }

    /**
     * A record read in full: send it as planned, pace the replay, credit the counters.
     */
    method ReplayRecord(payload: seq<byte>, start: nat, next: nat)
      requires Core() && !doShutdown && pos + layout.recordHeader <= |trace|
      requires start == pos + layout.recordHeader && next == start + InclLen(layout, trace, pos)
      requires 0 < InclLen(layout, trace, pos) && next <= |trace|
      requires payload == trace[start .. next]
      modifies this`pos, this`replayed, this`pktSent, this`bytesSent, this`log, this`clones
      modifies this`doShutdown, this`looks, this`txCount, this`ix, this`mult, this`measurements
      ensures Core() && replayed == old(replayed) + [payload] && pos == next
      ensures log[..|old(log)|] == old(log)
      ensures old(Heard()) ==> Heard()
    {
      ghost var before := replayed;
      Advance(payload, start, next);
      Deliver(before, payload);
    }

    /** Send, pace and credit the record `payload` read after the records `rs`. */
    method Deliver(ghost rs: seq<seq<byte>>, payload: seq<byte>)
      requires CreditedFor(rs) && Logged() && Calm() && Numbered() && !doShutdown && |log| == |rs| && PacedAt(|rs|)
      modifies this`pktSent, this`bytesSent, this`log, this`clones
      modifies this`doShutdown, this`looks, this`txCount, this`ix, this`mult, this`measurements
      ensures CreditedFor(rs + [payload]) && Logged() && Calm() && Numbered() && |log| == |rs| + 1 && PacedAt(|rs| + 1)
      ensures log[..|old(log)|] == old(log)
      ensures old(Heard()) ==> Heard()
    {
      SendRecord();
      PaceRecord(|rs|);
      Credit(rs, payload, |payload|);
    }

    /** One iteration of the record loop. */
    method Step() returns (outcome: Outcome)
      requires Consistent()
      modifies this
      ensures outcome.Continue? ==> Consistent() && old(pos) < pos <= |trace|
      ensures outcome.Continue? ==> |replayed| == |old(replayed)| + 1
      ensures outcome.Stop? ==> Finished(outcome.exit) && replayed == old(replayed)
      ensures outcome == Stop(Interrupted) <==> old(doShutdown) || interruptBy(old(looks))
      ensures old(Heard()) ==> Heard()
    {
      LookAtShutdown();
      if doShutdown {
        return Stop(Interrupted);
      }
      outcome := ReadRecord();
    }

    /** The reads of an iteration, once the flag has been found down. */
    method ReadRecord() returns (outcome: Outcome)
      requires Consistent() && !doShutdown
      modifies this
      ensures outcome.Continue? ==> Consistent() && old(pos) < pos <= |trace|
      ensures outcome.Continue? ==> |replayed| == |old(replayed)| + 1
      ensures outcome.Stop? ==> Finished(outcome.exit) && replayed == old(replayed)
      ensures outcome != Stop(Interrupted)
      ensures old(Heard()) ==> Heard()
    {
      if pos + layout.recordHeader > |trace| {
        outcome := ShortHeaderRead();
        return;
      }
      var len := InclLen(layout, trace, pos);
      var start := pos + layout.recordHeader;
      if len == 0 || start + len > |trace| {
        outcome := ShortPayloadRead();
        return;
      }
      var next := start + len;
      ReplayRecord(trace[start .. next], start, next);
      headerReads, allocations := headerReads + 1, allocations + 1;
      return Continue;
    }

    /** The record header read finds fewer bytes than a header: the loop ends cleanly. */
    method ShortHeaderRead() returns (outcome: Outcome)
      requires Consistent() && !doShutdown && pos + layout.recordHeader > |trace|
      modifies this`headerReads
      ensures outcome == Stop(ShortHeader) && Finished(ShortHeader)
    {
      headerReads := headerReads + 1;
      return Stop(ShortHeader);
    }

    /** The payload read fails, or `incl_len` is zero: the loop ends after a wasted allocation. */
    method ShortPayloadRead() returns (outcome: Outcome)
      requires Consistent() && !doShutdown && pos + layout.recordHeader <= |trace|
      requires InclLen(layout, trace, pos) == 0 || pos + layout.recordHeader + InclLen(layout, trace, pos) > |trace|
      modifies this`headerReads, this`allocations
      ensures outcome == Stop(ShortPayload) && Finished(ShortPayload)
    {
      headerReads, allocations := headerReads + 1, allocations + 1;
      return Stop(ShortPayload);
    }

    /**
     * `main_loop_producer` from the `fseek` on: skip the global header, set up the rate
     * controller, run the record loop to its end, then shut down as `sig_handler(SIGINT)`
     * does, printing the statistics one last time.
     */
    method Run() returns (exit: Exit)
      requires Initial()
      modifies this
      ensures Ended(exit)
      ensures exit == Interrupted <==> exists n :: 0 <= n < looks && interruptBy(n)
      ensures doShutdown && prevPktSent == pktSent && prevBytesSent == bytesSent
    {
      exit := Produce();
      Shutdown();
    }

    /**
     * `main_loop_producer` up to the final shutdown: skip the global header, set up the rate
     * controller and run the record loop.
     */
    method Produce() returns (exit: Exit)
      requires Initial()
      modifies this
      ensures Ended(exit)
      ensures exit == Interrupted <==> exists n :: 0 <= n < looks && interruptBy(n)
    {
      Start();
      exit := ReplayTrace();
    }

    /** Before the first record: the read position past the global header, the pacing state reset. */
    method Start()
      requires Initial()
      modifies this`pos, this`mult, this`ix
      ensures Consistent()
    {
      pos := layout.fileHeader;
      if rate != 0.0 {
        mult := MultStart();
        ix := 0;
      }
    }

    /**
     * What a replay that left the record loop through `exit` has done: it replayed the first
     * records of the trace, all of them unless interrupted; the counters hold their credits;
     * every record went through the whole fan-out plan at the cost of one allocation and
     * `nb_sys_ports * times - 1` clones, its sends numbered in the order they were started;
     * every send of every record before the last was taken
     * by the sink, and those of the last one too unless interrupted; within a record, the
     * sends after an abandoned one found the flag up and were tried once each.
     */
    ghost predicate Ended(exit: Exit)
      reads this`pos, this`replayed, this`pktSent, this`bytesSent, this`log, this`clones
      reads this`ix, this`mult, this`measurements, this`headerReads, this`allocations, this`txCount
    {
      && layout.Valid()
      && var scan := Records(layout, trace);
      && replayed <= scan.records
      && (exit != Interrupted ==> replayed == scan.records)
      && (exit == ShortPayload ==> scan.truncatedPayload)
      && (exit == ShortHeader ==> !scan.truncatedPayload)
      && pktSent == PacketsAfter(times, |replayed|)
      && bytesSent == BytesAfter(Lengths(replayed), times)
      && headerReads == |replayed| + (if exit == Interrupted then 0 else 1)
      && allocations == |replayed| + (if exit == ShortPayload then 1 else 0)
      && clones == |replayed| * ClonesPerRecord(ports, times)
      && |log| == |replayed| && (forall k :: 0 <= k < |log| ==> Follows(log[k])) && Numbered()
      && (forall k :: 0 <= k < |log| - 1 ==> AllDelivered(log[k]))
      && (exit != Interrupted ==> forall k :: 0 <= k < |log| ==> AllDelivered(log[k]))
      && PacedAt(|replayed|)
    }

    /** The record loop, from the first record to the iteration that leaves it. */
    method ReplayTrace() returns (exit: Exit)
      requires Consistent()
      modifies this
      ensures Ended(exit)
      ensures exit == Interrupted <==> doShutdown
      ensures old(doShutdown) ==> exit == Interrupted && replayed == old(replayed)
      ensures old(Heard()) ==> Heard()
    {
      exit := Interrupted;
      while true
        invariant Consistent()
        invariant old(doShutdown) ==> doShutdown && replayed == old(replayed)
        invariant old(Heard()) ==> Heard()
        decreases |trace| - pos
      {
        var outcome := Step();
        if outcome.Stop? {
          exit := outcome.exit;
          break;
        }
      }
    }

    /** `print_stats`' update of the snapshot; returns the increments its rates are made of. */
    method PrintStats() returns (pkts: nat, bytes: nat)
      modifies this`prevPktSent, this`prevBytesSent
      ensures pkts == Delta(pktSent, old(prevPktSent)) && bytes == Delta(bytesSent, old(prevBytesSent))
      ensures prevPktSent == pktSent && prevBytesSent == bytesSent
    {
      pkts := Delta(pktSent, prevPktSent);
      bytes := Delta(bytesSent, prevBytesSent);
      prevPktSent := pktSent;
      prevBytesSent := bytesSent;
    }

    /** `sig_handler(SIGINT)`: raise the flag and print the statistics. */
    method Shutdown()
      modifies this`doShutdown, this`prevPktSent, this`prevBytesSent
      ensures doShutdown && prevPktSent == pktSent && prevBytesSent == bytesSent
    {
      doShutdown := true;
      var _, _ := PrintStats();
    }
  }

  /** A record read in full moves the read position past it and joins the replayed ones. */
  lemma ScannedStep(l: Layout, t: seq<byte>, pos: nat, replayed: seq<seq<byte>>, start: nat, next: nat)
    requires l.Valid()
    requires Records(l, t).records == replayed + ScanFrom(l, t, pos).records
    requires Records(l, t).truncatedPayload == ScanFrom(l, t, pos).truncatedPayload
    requires pos + l.recordHeader <= |t|
    requires start == pos + l.recordHeader && next == start + InclLen(l, t, pos)
    requires 0 < InclLen(l, t, pos) && next <= |t|
    ensures Records(l, t).records == (replayed + [t[start .. next]]) + ScanFrom(l, t, next).records
    ensures Records(l, t).truncatedPayload == ScanFrom(l, t, next).truncatedPayload
  {
    ScanStep(l, t, pos, start, next);
    assert replayed + ([t[start .. next]] + ScanFrom(l, t, next).records)
        == (replayed + [t[start .. next]]) + ScanFrom(l, t, next).records;
  }

  /** One more rate-limited record adds one adjustment exactly when it is a multiple of 100. */
  lemma AdjustmentsStep(n: nat)
    ensures Adjustments(n + 1) == Adjustments(n) + (if AdjustsAt(n) then 1 else 0)
  {
  }
}
