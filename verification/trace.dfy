/**
 * The capture file as the replay loop reads it: a global header skipped once, then records
 * made of a fixed-size record header and `incl_len` payload bytes (the libpcap layout,
 * sections 4 "File Header" and 5 "Packet Record" of draft-ietf-opsawg-pcap). The loop reads
 * raw structs: no magic number, version or byte order is checked, and `incl_len` is taken in
 * host order (little-endian here).
 */
module Trace {
  import opened Accounting

  /** One byte of the trace file. */
  newtype byte = x: int | 0 <= x < 0x100

  /**
   * Sizes of `struct pcap_hdr_t` and `struct pcaprec_hdr_t` and the offset of `incl_len`
   * inside the latter. The structs are declared in main.h, which is not part of this model.
   */
  datatype Layout = Layout(fileHeader: nat, recordHeader: nat, lenOffset: nat) {
    predicate Valid() {
      lenOffset + 4 <= recordHeader
    }
  }

  /** The standard layout: 24-byte file header; ts_sec, ts_usec, incl_len, orig_len records. */
  const PCAP: Layout := Layout(24, 16, 8)

  /** The little-endian unsigned number stored in the `k` bytes `b[at .. at + k]`. */
  function LeNat(b: seq<byte>, at: nat, k: nat): nat
    requires at + k <= |b|
    decreases k
  {
    if k == 0 then 0 else b[at] as nat + 0x100 * LeNat(b, at + 1, k - 1)
  }

  /** `0x100` to the power `k`: one more than the largest number `k` bytes hold. */
  function Pow256(k: nat): nat {
    if k == 0 then 1 else 0x100 * Pow256(k - 1)
  }

  lemma {:induction false} LeNatBound(b: seq<byte>, at: nat, k: nat)
    requires at + k <= |b|
    ensures LeNat(b, at, k) < Pow256(k)
    decreases k
  {
    if k > 0 {
      LeNatBound(b, at + 1, k - 1);
    }
  }

  /** The little-endian 32-bit unsigned field stored at `b[at .. at + 4]`. */
  function Le32(b: seq<byte>, at: nat): (n: nat)
    requires at + 4 <= |b|
    ensures n < TWO_32
  {
    LeNatBound(b, at, 4);
    LeNat(b, at, 4)
  }

  /** The four bytes of a little-endian 32-bit field, least significant first. */
  function Le32Bytes(n: nat): (b: seq<byte>)
    requires n < TWO_32
    ensures |b| == 4
  {
    var n1 := n / 0x100;
    var n2 := n1 / 0x100;
    var n3 := n2 / 0x100;
    [(n % 0x100) as byte, (n1 % 0x100) as byte, (n2 % 0x100) as byte, n3 as byte]
  }

  /** Writing a field and reading it back gives the value written. */
  lemma Le32RoundTrip(n: nat)
    requires n < TWO_32
    ensures Le32(Le32Bytes(n), 0) == n
  {
    var b := Le32Bytes(n);
    var n1 := n / 0x100;
    var n2 := n1 / 0x100;
    var n3 := n2 / 0x100;
    assert LeNat(b, 3, 1) == n3 by {
      assert LeNat(b, 4, 0) == 0;
    }
    assert LeNat(b, 2, 2) == n2;
    assert LeNat(b, 1, 3) == n1;
  }

  /**
   * What the record loop gets out of a trace: the payloads it reads in full, in file order,
   * and whether it stopped on a payload read after a successful header read (the point at
   * which a buffer has already been allocated).
   */
  datatype Scan = Scan(records: seq<seq<byte>>, truncatedPayload: bool)

  /** `incl_len` of the record header that starts at `pos`. */
  function InclLen(l: Layout, t: seq<byte>, pos: nat): nat
    requires l.Valid() && pos + l.recordHeader <= |t|
  {
    Le32(t, pos + l.lenOffset)
  }

  /**
   * The records read from position `pos` on. A header read that finds fewer than
   * `recordHeader` bytes ends the scan; so does a payload read that finds fewer than
   * `incl_len` bytes, and so does `incl_len == 0`, because `fread` of a zero-sized item
   * reports zero items.
   */
  function ScanFrom(l: Layout, t: seq<byte>, pos: nat): (s: Scan)
    requires l.Valid()
    ensures s.records == [] || |s.records[0]| > 0
    decreases |t| - pos
  {
    if pos + l.recordHeader > |t| then Scan([], false)
    else
      var len := InclLen(l, t, pos);
      var start := pos + l.recordHeader;
      if len == 0 || start + len > |t| then Scan([], true)
      else
        var rest := ScanFrom(l, t, start + len);
        Scan([t[start .. start + len]] + rest.records, rest.truncatedPayload)
  }

  /** The whole trace, after `fseek` past the global header (which may lie beyond the end). */
  function Records(l: Layout, t: seq<byte>): Scan
    requires l.Valid()
  {
    ScanFrom(l, t, l.fileHeader)
  }

  /** A record as it is stored: its header (holding `incl_len`) and its payload. */
  datatype Packet = Packet(header: seq<byte>, payload: seq<byte>)

  /** The header is the right size and its `incl_len` field gives the payload length. */
  predicate WellFormed(l: Layout, p: Packet)
    requires l.Valid()
  {
    |p.header| == l.recordHeader && Le32(p.header, l.lenOffset) == |p.payload|
  }

  /**
   * A record header as a capture writer fills it: the given header bytes with the `incl_len`
   * field overwritten by the little-endian encoding of `n`.
   */
  function Stamp(l: Layout, header: seq<byte>, n: nat): (h: seq<byte>)
    requires l.Valid() && |header| == l.recordHeader && n < TWO_32
    ensures |h| == l.recordHeader
    ensures h[..l.lenOffset] == header[..l.lenOffset]
    ensures h[l.lenOffset + 4..] == header[l.lenOffset + 4..]
  {
    header[..l.lenOffset] + Le32Bytes(n) + header[l.lenOffset + 4..]
  }

  /** A header stamped with the payload's length makes a well-formed record. */
  lemma StampWellFormed(l: Layout, header: seq<byte>, payload: seq<byte>)
    requires l.Valid() && |header| == l.recordHeader && |payload| < TWO_32
    ensures WellFormed(l, Packet(Stamp(l, header, |payload|), payload))
  {
    var h := Stamp(l, header, |payload|);
    assert h[l.lenOffset .. l.lenOffset + 4] == Le32Bytes(|payload|);
    Le32InSlice(h, l.lenOffset, l.lenOffset + 4, 0);
    Le32RoundTrip(|payload|);
  }

  /** Packets stored one after the other. */
  function Encode(ps: seq<Packet>): (b: seq<byte>)
  {
    if ps == [] then [] else ps[0].header + ps[0].payload + Encode(ps[1..])
  }

  function Payloads(ps: seq<Packet>): (r: seq<seq<byte>>)
    ensures |r| == |ps|
    ensures forall i :: 0 <= i < |ps| ==> r[i] == ps[i].payload
  {
    if ps == [] then [] else [ps[0].payload] + Payloads(ps[1..])
  }

  /** A record that is read in full contributes its payload, then scanning goes on after it. */
  lemma ScanStep(l: Layout, t: seq<byte>, pos: nat, start: nat, next: nat)
    requires l.Valid() && pos + l.recordHeader <= |t|
    requires start == pos + l.recordHeader && next == start + InclLen(l, t, pos)
    requires 0 < InclLen(l, t, pos) && next <= |t|
    ensures ScanFrom(l, t, pos)
            == Scan([t[start .. next]] + ScanFrom(l, t, next).records, ScanFrom(l, t, next).truncatedPayload)
  {
  }

  /** A slice of a slice. */
  lemma SliceOfSlice(u: seq<byte>, a: nat, b: nat, i: nat, j: nat, x: nat, y: nat)
    requires a <= b <= |u| && i <= j <= b - a && x == a + i && y == a + j
    ensures u[a..b][i..j] == u[x..y]
  {
    assert forall k :: 0 <= k < j - i ==> u[a..b][i..j][k] == u[x..y][k];
  }

  /** A number read inside a slice is the number read at the same place of the whole. */
  lemma {:induction false} LeNatInSlice(u: seq<byte>, lo: nat, hi: nat, at: nat, k: nat)
    requires lo <= hi <= |u| && at + k <= hi - lo
    ensures LeNat(u[lo..hi], at, k) == LeNat(u, lo + at, k)
    decreases k
  {
    if k > 0 {
      LeNatInSlice(u, lo, hi, at + 1, k - 1);
    }
  }

  lemma Le32InSlice(u: seq<byte>, lo: nat, hi: nat, at: nat)
    requires lo <= hi <= |u| && at + 4 <= hi - lo
    ensures Le32(u[lo..hi], at) == Le32(u, lo + at)
  {
    LeNatInSlice(u, lo, hi, at, 4);
  }

  /** A field lies in the same place in every extension of the bytes holding it. */
  lemma {:induction false} LeNatOfPrefix(a: seq<byte>, b: seq<byte>, at: nat, k: nat)
    requires at + k <= |a| <= |b| && a == b[..|a|]
    ensures LeNat(a, at, k) == LeNat(b, at, k)
    decreases k
  {
    if k > 0 {
      LeNatOfPrefix(a, b, at + 1, k - 1);
    }
  }

  lemma Le32OfPrefix(a: seq<byte>, b: seq<byte>, at: nat)
    requires at + 4 <= |a| <= |b| && a == b[..|a|]
    ensures Le32(a, at) == Le32(b, at)
  {
    LeNatOfPrefix(a, b, at, 4);
  }

  /** The header of a well-formed packet stored at `pos` is read as the record header there. */
  lemma HeaderAt(l: Layout, u: seq<byte>, pos: nat, p: Packet)
    requires l.Valid() && WellFormed(l, p)
    requires pos + |p.header| <= |u| && u[pos .. pos + |p.header|] == p.header
    ensures pos + l.recordHeader <= |u| && InclLen(l, u, pos) == |p.payload|
  {
    Le32InSlice(u, pos, pos + |p.header|, l.lenOffset);
  }

  /** One well-formed, non-empty packet at the scan position is read as one record. */
  lemma ScanPacket(l: Layout, u: seq<byte>, pos: nat, p: Packet, next: nat)
    requires l.Valid() && WellFormed(l, p) && |p.payload| > 0
    requires next == pos + |p.header| + |p.payload| <= |u|
    requires u[pos .. pos + |p.header|] == p.header
    requires u[pos + |p.header| .. next] == p.payload
    ensures ScanFrom(l, u, pos) == Scan([p.payload] + ScanFrom(l, u, next).records, ScanFrom(l, u, next).truncatedPayload)
  {
    HeaderAt(l, u, pos, p);
    ScanStep(l, u, pos, pos + |p.header|, next);
  }

  /** The stored form of a packet list starts with the first packet's header and payload. */
  lemma EncodeFirst(ps: seq<Packet>)
    requires ps != []
    ensures Encode(ps) == ps[0].header + ps[0].payload + Encode(ps[1..])
    ensures |Encode(ps)| == |ps[0].header| + |ps[0].payload| + |Encode(ps[1..])|
  {
  }

  /** Where a packet list is stored, its first packet is stored, then the rest of the list. */
  lemma FirstPacketAt(u: seq<byte>, pos: nat, ps: seq<Packet>, end: nat, mid: nat)
    requires ps != []
    requires end == pos + |Encode(ps)| <= |u| && u[pos .. end] == Encode(ps)
    requires mid == pos + |ps[0].header| + |ps[0].payload|
    ensures end == mid + |Encode(ps[1..])|
    ensures u[pos .. pos + |ps[0].header|] == ps[0].header
    ensures u[pos + |ps[0].header| .. mid] == ps[0].payload
    ensures u[mid .. end] == Encode(ps[1..])
  {
    var h, p, e, e' := ps[0].header, ps[0].payload, Encode(ps), Encode(ps[1..]);
    EncodeFirst(ps);
    Parts(h, p, e', e, |h|, |h| + |p|);
    SliceOfSlice(u, pos, end, 0, |h|, pos, pos + |h|);
    SliceOfSlice(u, pos, end, |h|, |h| + |p|, pos + |h|, mid);
    SliceOfSlice(u, pos, end, |h| + |p|, |e|, mid, end);
  }

  /**
   * The packets `ps` lie in `u` one after the other, header then payload, from `pos` on, and
   * the last one ends at `end`.
   */
  predicate StoredAt(u: seq<byte>, pos: nat, ps: seq<Packet>, end: nat)
    decreases |ps|
  {
    if ps == [] then pos == end
    else
      var h, p := ps[0].header, ps[0].payload;
      var mid := pos + |h| + |p|;
      && mid <= |u|
      && u[pos .. pos + |h|] == h
      && u[pos + |h| .. mid] == p
      && StoredAt(u, mid, ps[1..], end)
  }

  /** Packets the reader reads back: well-formed, and none with an empty payload. */
  predicate Replayable(l: Layout, ps: seq<Packet>)
    requires l.Valid()
  {
    forall i :: 0 <= i < |ps| ==> WellFormed(l, ps[i]) && |ps[i].payload| > 0
  }

  /** Where the stored form of a packet list is found, the packets are stored one by one. */
  lemma {:induction false} EncodeStored(u: seq<byte>, pos: nat, ps: seq<Packet>, end: nat)
    requires end == pos + |Encode(ps)| <= |u| && u[pos .. end] == Encode(ps)
    ensures StoredAt(u, pos, ps, end)
    decreases |ps|
  {
    if ps != [] {
      var mid := pos + |ps[0].header| + |ps[0].payload|;
      FirstPacketAt(u, pos, ps, end, mid);
      EncodeStored(u, mid, ps[1..], end);
    }
  }

  /**
   * Records are read back in file order: where well-formed, non-empty packets are stored one
   * after the other from `pos` to `end`, the reader yields exactly their payloads, then
   * whatever it yields from `end` on.
   */
  lemma {:induction false} ScanStored(l: Layout, u: seq<byte>, pos: nat, ps: seq<Packet>, end: nat)
    requires l.Valid() && Replayable(l, ps) && StoredAt(u, pos, ps, end)
    ensures var next := ScanFrom(l, u, end);
            ScanFrom(l, u, pos) == Scan(Payloads(ps) + next.records, next.truncatedPayload)
    decreases |ps|
  {
    var next := ScanFrom(l, u, end);
    if ps == [] {
      assert Payloads(ps) + next.records == next.records;
    } else {
      var mid := pos + |ps[0].header| + |ps[0].payload|;
      var here, after := ScanFrom(l, u, pos), ScanFrom(l, u, mid);
      ScanFirst(l, u, pos, ps, end, mid);
      StoredRest(l, u, pos, ps, end, mid);
      ScanStored(l, u, mid, ps[1..], end);
      PayloadsFirst(ps);
      Chain(here, after, next, ps[0].payload, Payloads(ps[1..]), Payloads(ps));
    }
  }

  /** The first of the stored packets is read as one record. */
  lemma ScanFirst(l: Layout, u: seq<byte>, pos: nat, ps: seq<Packet>, end: nat, mid: nat)
    requires l.Valid() && Replayable(l, ps) && StoredAt(u, pos, ps, end) && ps != []
    requires mid == pos + |ps[0].header| + |ps[0].payload|
    ensures ScanFrom(l, u, pos)
            == Scan([ps[0].payload] + ScanFrom(l, u, mid).records, ScanFrom(l, u, mid).truncatedPayload)
  {
    assert WellFormed(l, ps[0]) && |ps[0].payload| > 0;
    ScanPacket(l, u, pos, ps[0], mid);
  }

  /** After the first of the stored packets, the others are stored, and replayable too. */
  lemma StoredRest(l: Layout, u: seq<byte>, pos: nat, ps: seq<Packet>, end: nat, mid: nat)
    requires l.Valid() && Replayable(l, ps) && StoredAt(u, pos, ps, end) && ps != []
    requires mid == pos + |ps[0].header| + |ps[0].payload|
    ensures Replayable(l, ps[1..]) && StoredAt(u, mid, ps[1..], end)
  {
    assert forall i :: 0 <= i < |ps[1..]| ==> ps[1..][i] == ps[i + 1];
  }

  /** Reading one record, then a list of records, reads their concatenation. */
  lemma Chain(here: Scan, after: Scan, next: Scan, x: seq<byte>, xs: seq<seq<byte>>, all: seq<seq<byte>>)
    requires here == Scan([x] + after.records, after.truncatedPayload)
    requires after == Scan(xs + next.records, next.truncatedPayload)
    requires all == [x] + xs
    ensures here == Scan(all + next.records, next.truncatedPayload)
  {
    assert [x] + (xs + next.records) == [x] + xs + next.records;
  }

  lemma PayloadsFirst(ps: seq<Packet>)
    requires ps != []
    ensures Payloads(ps) == [ps[0].payload] + Payloads(ps[1..])
  {
  }

  /** The three parts of a concatenation are slices of it. */
  lemma Parts(a: seq<byte>, b: seq<byte>, c: seq<byte>, w: seq<byte>, i: nat, j: nat)
    requires w == a + b + c && i == |a| && j == |a| + |b|
    ensures j <= |w| && w[0 .. i] == a && w[i .. j] == b && w[j .. |w|] == c
  {
    assert forall k :: 0 <= k < i ==> w[0 .. i][k] == a[k];
    assert forall k :: 0 <= k < |b| ==> w[i .. j][k] == b[k];
    assert forall k :: 0 <= k < |c| ==> w[j .. |w|][k] == c[k];
  }

  /** The first `k` bytes of a slice are the first `k` bytes of what it equals. */
  lemma SliceHead(u: seq<byte>, at: nat, w: seq<byte>, k: nat)
    requires at <= |u| && u[at .. |u|] == w && k <= |w|
    ensures u[at .. at + k] == w[..k]
  {
    assert forall i :: 0 <= i < k ==> u[at .. at + k][i] == u[at .. |u|][i];
  }

  /** Reading the stored packets, then nothing, reads just their payloads. */
  lemma Finish(whole: Scan, xs: seq<seq<byte>>, next: Scan, truncated: bool)
    requires whole == Scan(xs + next.records, next.truncatedPayload)
    requires next == Scan([], truncated)
    ensures whole == Scan(xs, truncated)
  {
    assert xs + [] == xs;
  }

  /** Where the scan reaches the end of the trace exactly, it ends cleanly. */
  lemma ScanAtEnd(l: Layout, u: seq<byte>, end: nat)
    requires l.Valid() && end == |u|
    ensures ScanFrom(l, u, end) == Scan([], false)
  {
  }

  /**
   * A trace holding a global header and well-formed packets, and nothing else, is replayed
   * in full and in order, with no truncated record.
   */
  lemma CaptureRoundTrip(l: Layout, u: seq<byte>, global: seq<byte>, ps: seq<Packet>)
    requires l.Valid() && |global| == l.fileHeader
    requires Replayable(l, ps)
    requires u == global + Encode(ps)
    ensures Records(l, u) == Scan(Payloads(ps), false)
  {
    var start, end := l.fileHeader, l.fileHeader + |Encode(ps)|;
    Parts(global, Encode(ps), [], u, start, end);
    EncodeStored(u, start, ps, end);
    ScanStored(l, u, start, ps, end);
    ScanAtEnd(l, u, end);
    Finish(ScanFrom(l, u, start), Payloads(ps), ScanFrom(l, u, end), false);
  }

  /** The header of the record cut at the end of the trace, when all of it is there. */
  lemma CutHeader(l: Layout, u: seq<byte>, end: nat, last: Packet, cut: nat)
    requires l.Valid() && WellFormed(l, last) && l.recordHeader <= cut <= |last.header| + |last.payload|
    requires end + cut == |u| && u[end .. |u|] == (last.header + last.payload)[..cut]
    ensures end + l.recordHeader <= |u| && InclLen(l, u, end) == |last.payload|
  {
    var whole := last.header + last.payload;
    SliceHead(u, end, whole[..cut], |last.header|);
    assert whole[..cut][..|last.header|] == last.header;
    HeaderAt(l, u, end, last);
  }

  /** A record cut after `cut` of its bytes, at the very end of the trace, is not read. */
  lemma ScanCut(l: Layout, u: seq<byte>, end: nat, last: Packet, cut: nat)
    requires l.Valid() && WellFormed(l, last) && cut < |last.header| + |last.payload|
    requires end + cut == |u| && u[end .. |u|] == (last.header + last.payload)[..cut]
    ensures ScanFrom(l, u, end) == Scan([], cut >= l.recordHeader)
  {
    if cut >= l.recordHeader {
      CutHeader(l, u, end, last, cut);
    }
  }

  /**
   * A trace cut inside a record ends the replay after the records before the cut: a cut in
   * the record header is a clean end, a cut in the payload is a truncated payload read.
   */
  lemma TruncatedCapture(l: Layout, u: seq<byte>, global: seq<byte>, ps: seq<Packet>, last: Packet, cut: nat)
    requires l.Valid() && |global| == l.fileHeader
    requires Replayable(l, ps)
    requires WellFormed(l, last) && cut < |last.header| + |last.payload|
    requires u == global + Encode(ps) + (last.header + last.payload)[..cut]
    ensures Records(l, u) == Scan(Payloads(ps), cut >= l.recordHeader)
  {
    var start, end := l.fileHeader, l.fileHeader + |Encode(ps)|;
    Parts(global, Encode(ps), (last.header + last.payload)[..cut], u, start, end);
    EncodeStored(u, start, ps, end);
    ScanStored(l, u, start, ps, end);
    ScanCut(l, u, end, last, cut);
    Finish(ScanFrom(l, u, start), Payloads(ps), ScanFrom(l, u, end), cut >= l.recordHeader);
  }

  /** A record header whose `incl_len` is zero ends the scan as a truncated payload read. */
  lemma ScanEmpty(l: Layout, u: seq<byte>, end: nat, empty: Packet, rest: seq<byte>)
    requires l.Valid() && WellFormed(l, empty) && empty.payload == []
    requires end <= |u| && u[end .. |u|] == empty.header + rest
    ensures ScanFrom(l, u, end) == Scan([], true)
  {
    SliceHead(u, end, empty.header + rest, |empty.header|);
    assert (empty.header + rest)[..|empty.header|] == empty.header;
    HeaderAt(l, u, end, empty);
  }

  /** A record whose `incl_len` is zero ends the replay as a truncated payload read. */
  lemma EmptyRecordStops(l: Layout, u: seq<byte>, global: seq<byte>, ps: seq<Packet>, empty: Packet, rest: seq<byte>)
    requires l.Valid() && |global| == l.fileHeader
    requires Replayable(l, ps)
    requires WellFormed(l, empty) && empty.payload == []
    requires u == global + Encode(ps) + (empty.header + rest)
    ensures Records(l, u) == Scan(Payloads(ps), true)
  {
    var start, end := l.fileHeader, l.fileHeader + |Encode(ps)|;
    Parts(global, Encode(ps), empty.header + rest, u, start, end);
    EncodeStored(u, start, ps, end);
    ScanStored(l, u, start, ps, end);
    ScanEmpty(l, u, end, empty, rest);
    Finish(ScanFrom(l, u, start), Payloads(ps), ScanFrom(l, u, end), true);
  }
}
