/**
 * The counters `num_pkt_good_sent` and `num_bytes_good_sent` and the per-record credit the
 * replay loop adds to them, with the C integer widths written out: both counters are
 * `uint64_t`, `times` is an `int`, `incl_len` an `uint32_t`, so `(incl_len + 24) * times`
 * is evaluated in `unsigned int` before it is added.
 */
module Accounting {

  const TWO_32: nat := 0x1_0000_0000
  const TWO_64: nat := 0x1_0000_0000_0000_0000

  /**
   * Wire bytes of an Ethernet frame that the capture does not hold: 8 bytes preamble and
   * start-of-frame delimiter, 4 bytes frame check sequence and 12 bytes inter-frame gap
   * (IEEE 802.3, clause 3 for the frame format and clause 4 for the gap).
   */
  const WIRE_OVERHEAD: nat := 24

  /** Conversion of an integer to `unsigned int` (reduction modulo 2^32). */
  function ToU32(x: int): (r: nat)
    ensures r < TWO_32
    ensures 0 <= x < TWO_32 ==> r == x
  {
    x % TWO_32
  }

  /** Conversion of an integer to `uint64_t` (reduction modulo 2^64). */
  function ToU64(x: int): (r: nat)
    ensures r < TWO_64
    ensures 0 <= x < TWO_64 ==> r == x
  {
    x % TWO_64
  }

  /** `num_pkt_good_sent += times`: the packet counter after one fully read record. */
  function CreditPackets(count: nat, times: int): (r: nat)
    ensures r < TWO_64
    ensures count < TWO_64 && 0 <= times && count + times < TWO_64 ==> r == count + times
    ensures count < TWO_64 ==> r == count + ToU64(times) || r == count + ToU64(times) - TWO_64
  {
    ToU64(count + ToU64(times))
  }

  /** `(hdr.incl_len + 24) * times` in `unsigned int`: the wire bytes one record is credited with. */
  function RecordBytes(inclLen: nat, times: int): (r: nat)
    ensures r < TWO_32
  {
    ToU32(ToU32(inclLen + WIRE_OVERHEAD) * ToU32(times))
  }

  /** The 32-bit credit is exact as long as the product fits in 32 bits. */
  lemma RecordBytesExact(inclLen: nat, times: int)
    requires 0 <= times && (inclLen + WIRE_OVERHEAD) * times < TWO_32
    ensures RecordBytes(inclLen, times) == (inclLen + WIRE_OVERHEAD) * times
  {
    var a := inclLen + WIRE_OVERHEAD;
    if times > 0 {
      MulMonotone(1, times, a);
      MulMonotone(1, a, times);
      assert ToU32(a) == a && ToU32(times) == times;
    }
  }

  /** `a <= b` scales by a non-negative factor. */
  lemma MulMonotone(a: int, b: int, c: nat)
    requires a <= b
    ensures a * c <= b * c
  {
    assert b * c - a * c == (b - a) * c;
  }

  /** `num_bytes_good_sent += (hdr.incl_len + 24) * times`: the byte counter after one record. */
  function CreditBytes(count: nat, inclLen: nat, times: int): (r: nat)
    ensures r < TWO_64
    ensures count < TWO_64 ==> r == count + RecordBytes(inclLen, times)
                                 || r == count + RecordBytes(inclLen, times) - TWO_64
  {
    ToU64(count + RecordBytes(inclLen, times))
  }

  /** The byte credit is exact when neither the 32-bit product nor the 64-bit counter wraps. */
  lemma CreditBytesExact(count: nat, inclLen: nat, times: int)
    requires 0 <= times && (inclLen + WIRE_OVERHEAD) * times < TWO_32
    requires count + (inclLen + WIRE_OVERHEAD) * times < TWO_64
    ensures CreditBytes(count, inclLen, times) == count + (inclLen + WIRE_OVERHEAD) * times
  {
    RecordBytesExact(inclLen, times);
  }

  /** The packet counter after `n` fully read records, starting from zero, one credit at a time. */
  function PacketsAfter(times: int, n: nat): (r: nat)
    ensures r < TWO_64
  {
    if n == 0 then 0 else CreditPackets(PacketsAfter(times, n - 1), times)
  }

  /** The byte counter after the records `recs`, starting from zero, one credit at a time. */
  function BytesAfter(lens: seq<nat>, times: int): (r: nat)
    ensures r < TWO_64
  {
    if lens == [] then 0
    else CreditBytes(BytesAfter(lens[..|lens| - 1], times), lens[|lens| - 1], times)
  }

  /** Wire bytes of records of lengths `lens` sent once: the sum of `len + 24`. */
  function WireBytes(lens: seq<nat>): nat {
    if lens == [] then 0 else WireBytes(lens[..|lens| - 1]) + lens[|lens| - 1] + WIRE_OVERHEAD
  }

  /** Adding to a value and reducing, or reducing first, agree modulo 2^64. */
  lemma ModAdd(a: int, b: int)
    ensures (a % TWO_64 + b) % TWO_64 == (a + b) % TWO_64
  {
    var q := a / TWO_64;
    assert a == q * TWO_64 + a % TWO_64;
    assert a + b == (a % TWO_64 + b) + q * TWO_64;
    ModMultiple(a % TWO_64 + b, q);
  }

  lemma ModMultiple(x: int, q: int)
    ensures (x + q * TWO_64) % TWO_64 == x % TWO_64
  {
    var r := x % TWO_64;
    var d := x / TWO_64;
    assert x + q * TWO_64 == (d + q) * TWO_64 + r;
  }

  /** Closed form of the packet counter: `n * times` in `uint64_t` arithmetic. */
  lemma {:induction false} PacketsAfterClosed(times: int, n: nat)
    ensures PacketsAfter(times, n) == (n * ToU64(times)) % TWO_64
  {
    if n > 0 {
      var t := ToU64(times);
      var prev := (n - 1) * t;
      PacketsAfterClosed(times, n - 1);
      PacketsStep(times, n);
      ModStep(prev, t, n);
    }
  }

  /** One more record adds `times` to the packet counter, reduced modulo 2^64. */
  lemma PacketsStep(times: int, n: nat)
    requires n > 0
    ensures PacketsAfter(times, n) == (PacketsAfter(times, n - 1) + ToU64(times)) % TWO_64
  {
  }

  /** One more `t` on top of `(n - 1) * t`, reduced after each addition. */
  lemma ModStep(prev: int, t: int, n: nat)
    requires n > 0 && prev == (n - 1) * t
    ensures (prev % TWO_64 + t) % TWO_64 == (n * t) % TWO_64
  {
    ModAdd(prev, t);
    assert prev + t == n * t;
  }

  /**
   * Packets are credited `times` per record, not once per port: after `n` records the packet
   * counter is exactly `n * times`, as long as that fits in 64 bits.
   */
  lemma PacketsAfterExact(times: int, n: nat)
    requires 0 <= times && n * times < TWO_64
    ensures PacketsAfter(times, n) == n * times
  {
    PacketsAfterClosed(times, n);
  }

  /**
   * Bytes are credited `(len + 24) * times` per record: when no per-record credit exceeds
   * 32 bits and the total fits in 64 bits, the counter is exactly `times` times the wire bytes.
   */
  lemma {:induction false} BytesAfterExact(lens: seq<nat>, times: int)
    requires 0 <= times
    requires forall i :: 0 <= i < |lens| ==> (lens[i] + WIRE_OVERHEAD) * times < TWO_32
    requires WireBytes(lens) * times < TWO_64
    ensures BytesAfter(lens, times) == WireBytes(lens) * times
  {
    if lens != [] {
      var init, last := lens[..|lens| - 1], lens[|lens| - 1];
      var w := WireBytes(init);
      assert WireBytes(lens) * times == w * times + (last + WIRE_OVERHEAD) * times;
      MulMonotone(0, w, times);
      MulMonotone(0, last + WIRE_OVERHEAD, times);
      assert forall i :: 0 <= i < |init| ==> init[i] == lens[i];
      BytesAfterExact(init, times);
      CreditBytesExact(w * times, last, times);
    }
  }

  /** With no wrap-around, the packet counter never decreases from one record to the next. */
  lemma PacketsMonotone(times: int, n: nat, m: nat)
    requires 0 <= times && n <= m && m * times < TWO_64
    ensures PacketsAfter(times, n) <= PacketsAfter(times, m)
  {
    MulMonotone(n, m, times);
    MulMonotone(0, n, times);
    PacketsAfterExact(times, n);
    PacketsAfterExact(times, m);
  }

  /** The wire bytes of a prefix of the records are at most those of all of them. */
  lemma {:induction false} WireBytesPrefix(lens: seq<nat>, k: nat)
    requires k <= |lens|
    ensures WireBytes(lens[..k]) <= WireBytes(lens)
  {
    if k < |lens| {
      assert lens[..|lens| - 1][..k] == lens[..k];
      WireBytesPrefix(lens[..|lens| - 1], k);
    } else {
      assert lens[..k] == lens;
    }
  }

  /**
   * With no wrap-around the byte counter never decreases: the counter after a prefix of the
   * records is at most the counter after all of them.
   */
  lemma BytesMonotone(lens: seq<nat>, k: nat, times: int)
    requires 0 <= times && k <= |lens|
    requires forall i :: 0 <= i < |lens| ==> (lens[i] + WIRE_OVERHEAD) * times < TWO_32
    requires WireBytes(lens) * times < TWO_64
    ensures BytesAfter(lens[..k], times) <= BytesAfter(lens, times)
  {
    var pre := lens[..k];
    WireBytesPrefix(lens, k);
    MulMonotone(WireBytes(pre), WireBytes(lens), times);
    assert forall i :: 0 <= i < |pre| ==> pre[i] == lens[i];
    BytesAfterExact(pre, times);
    BytesAfterExact(lens, times);
  }

  /**
   * The 32-bit evaluation of the per-record credit loses bytes once `(len + 24) * times`
   * reaches 2^32: a 1500-byte record replayed with `times = 2818573` is credited far less
   * than the 4295505252 wire bytes it stands for.
   */
  lemma RecordBytesWraps()
    ensures RecordBytes(1500, 2818573) == 1524 * 2818573 - TWO_32
  {
  }
}
