/**
 * `parse_args`: the `getopt` loop over "f:t:r:B:" that assigns the globals `file_name`,
 * `times`, `buffer_size` and `rate`, and the acceptance test that follows it.
 */
module Args {
  import opened Accounting
  import opened PowerOfTwo

  datatype Option<T> = None | Some(value: T)

  /** Values an `int` can hold; `atoi` returns one. */
  type Int32 = x: int | -0x8000_0000 <= x < 0x8000_0000

  /**
   * One option as `getopt` hands it over, with its argument already converted the way the
   * switch converts it (`strdup`, `atoi`, `atof`); `Unknown` is anything else `getopt` returns.
   */
  datatype Opt =
    | FileOpt(path: string)
    | TimesOpt(times: Int32)
    | BufferOpt(size: Int32)
    | RateOpt(gbps: real)
    | Unknown

  /** The four globals `parse_args` assigns. */
  datatype Settings = Settings(fileName: Option<string>, times: Int32, bufferSize: nat, rate: real)

  /** The globals before any option is seen. */
  const DEFAULTS: Settings := Settings(None, 1, 1048576, 0.0)

  /**
   * The effect of one recognised option on the globals: it overwrites its own global and
   * leaves the other three as they were.
   */
  function Assign(s: Settings, o: Opt): (r: Settings)
    requires !o.Unknown?
    ensures o.FileOpt? ==> r == s.(fileName := Some(o.path))
    ensures o.TimesOpt? ==> r == s.(times := o.times)
    ensures o.BufferOpt? ==> r == s.(bufferSize := ToU64(o.size))
    ensures o.RateOpt? ==> r == s.(rate := o.gbps)
    ensures r.bufferSize < TWO_64 || r.bufferSize == s.bufferSize
  {
    match o
    case FileOpt(path) => s.(fileName := Some(path))
    case TimesOpt(n) => s.(times := n)
    case BufferOpt(n) => s.(bufferSize := ToU64(n))
    case RateOpt(r) => s.(rate := r)
  }

  /**
   * The globals after the `getopt` loop: every option up to the first unknown one is applied.
   * `buffer_size` then holds a `uint64_t` value, unless no `-B` was applied and it kept its
   * starting value.
   */
  function Apply(s: Settings, opts: seq<Opt>): (r: Settings)
    ensures r.bufferSize < TWO_64 || r.bufferSize == s.bufferSize
    decreases |opts|
  {
    if opts == [] || opts[0].Unknown? then s else Apply(Assign(s, opts[0]), opts[1..])
  }

  /** The `unsigned int` the 64-bit buffer size is truncated to when passed to `isPowerOfTwo`. */
  function Low32(bufferSize: nat): bv32 {
    ToU32(bufferSize) as bv32
  }

  /** `isPowerOfTwo(buffer_size)`: the test applied to the truncated size. */
  predicate BufferAccepted(bufferSize: nat) {
    IsPowerOfTwo(Low32(bufferSize))
  }

  /** The value `parse_args` returns, read off the option stream as the loop reads it: 0 or -1. */
  function Verdict(s: Settings, opts: seq<Opt>): (r: int)
    ensures r == 0 || r == -1
    decreases |opts|
  {
    if opts == [] then
      (if s.fileName.None? || !BufferAccepted(s.bufferSize) then -1 else 0)
    else if opts[0].Unknown? then -1
    else Verdict(Assign(s, opts[0]), opts[1..])
  }

  /**
   * `parse_args` returns 0 exactly when no unknown option appears, a file name was given
   * and the buffer size passes the power-of-two test, and -1 otherwise.
   */
  lemma {:induction false} VerdictIff(s: Settings, opts: seq<Opt>)
    ensures Verdict(s, opts) == 0 || Verdict(s, opts) == -1
    ensures Verdict(s, opts) == 0 <==>
              && (forall i :: 0 <= i < |opts| ==> !opts[i].Unknown?)
              && Apply(s, opts).fileName.Some?
              && BufferAccepted(Apply(s, opts).bufferSize)
    decreases |opts|
  {
    if opts != [] && !opts[0].Unknown? {
      VerdictIff(Assign(s, opts[0]), opts[1..]);
      assert forall i :: 1 <= i < |opts| ==> opts[i] == opts[1..][i - 1];
    }
  }

  /** Options after the first unknown one are never looked at. */
  lemma {:induction false} StopsAtUnknown(s: Settings, before: seq<Opt>, after: seq<Opt>)
    requires forall i :: 0 <= i < |before| ==> !before[i].Unknown?
    ensures Apply(s, before + [Unknown] + after) == Apply(s, before)
    ensures Verdict(s, before + [Unknown] + after) == -1
    decreases |before|
  {
    if before != [] {
      assert (before + [Unknown] + after)[1..] == before[1..] + [Unknown] + after;
      StopsAtUnknown(Assign(s, before[0]), before[1..], after);
    } else {
      assert (before + [Unknown] + after)[0] == Unknown;
    }
  }

  /** The test accepts exactly the sizes whose low 32 bits are a single power of two. */
  lemma BufferAcceptedIff(bufferSize: nat)
    ensures BufferAccepted(bufferSize) <==> exists k: nat :: k < 32 && Low32(bufferSize) == Pow2(k)
  {
    IsPowerOfTwoIff(Low32(bufferSize));
  }

  /**
   * `-B -2147483648` is accepted: `atoi` gives INT_MIN, stored as 2^64 - 2^31 in the
   * `uint64_t` global, and its low 32 bits 2^31 pass the power-of-two test.
   */
  lemma NegativeBufferAccepted()
    ensures Apply(DEFAULTS, [FileOpt("trace.pcap"), BufferOpt(-0x8000_0000)]).bufferSize
              == TWO_64 - 0x8000_0000
    ensures Verdict(DEFAULTS, [FileOpt("trace.pcap"), BufferOpt(-0x8000_0000)]) == 0
  {
    var opts := [FileOpt("trace.pcap"), BufferOpt(-0x8000_0000)];
    var last := opts[1..];
    assert last[1..] == [];
    var named := Assign(DEFAULTS, opts[0]);
    var sized := Assign(named, last[0]);
    assert sized == Settings(Some("trace.pcap"), 1, TWO_64 - 0x8000_0000, 0.0);
    assert Apply(DEFAULTS, opts) == Apply(named, last) == sized;
    IntMinAccepted();
    assert Verdict(DEFAULTS, opts) == Verdict(named, last) == Verdict(sized, []) == 0;
  }

  /** Equal numbers have equal low words. */
  lemma SameLowWord(x: nat, y: nat)
    requires x == y < TWO_32
    ensures x as bv32 == y as bv32
  {
  }

  /** The truncated size is the 32-bit word whose value `ToU32` gives. */
  lemma Low32Of(bufferSize: nat, low: bv32)
    requires ToU32(bufferSize) == low as int
    ensures Low32(bufferSize) == low
  {
    SameLowWord(ToU32(bufferSize), low as int);
  }

  /** The low 32 bits of 2^64 - 2^31 are 2^31, which passes the power-of-two test. */
  lemma IntMinAccepted()
    ensures BufferAccepted(TWO_64 - 0x8000_0000)
  {
    assert ToU32(TWO_64 - 0x8000_0000) == 0x8000_0000;
    Low32Of(TWO_64 - 0x8000_0000, 0x8000_0000);
    assert Low32(TWO_64 - 0x8000_0000) == 0x8000_0000;
    assert IsPowerOfTwo(0x8000_0000);
  }

  /** A run without `-f` is refused whatever else it sets. */
  lemma FileNameRequired(opts: seq<Opt>)
    requires forall i :: 0 <= i < |opts| ==> !opts[i].FileOpt?
    ensures Verdict(DEFAULTS, opts) == -1
  {
    NoFileStaysNone(DEFAULTS, opts);
    VerdictIff(DEFAULTS, opts);
  }

  lemma {:induction false} NoFileStaysNone(s: Settings, opts: seq<Opt>)
    requires s.fileName.None?
    requires forall i :: 0 <= i < |opts| ==> !opts[i].FileOpt?
    ensures Apply(s, opts).fileName.None?
    decreases |opts|
  {
    if opts != [] && !opts[0].Unknown? {
      NoFileStaysNone(Assign(s, opts[0]), opts[1..]);
    }
  }

  /** The globals `parse_args` writes, as fields of one object. */
  class Options {
    var fileName: Option<string>
    var times: Int32
    var bufferSize: nat
    var rate: real

    /** The globals with their initialisers. */
    constructor ()
      ensures Current() == DEFAULTS
    {
      fileName := None;
      times := 1;
      bufferSize := 1048576;
      rate := 0.0;
    }

    function Current(): Settings
      reads this
    {
      Settings(fileName, times, bufferSize, rate)
    }

    /**
     * The `getopt` loop: each recognised option overwrites its global, an unknown one makes
     * the call return -1 at once; after the loop a missing file name or a buffer size that
     * fails `isPowerOfTwo` gives -1, and anything else 0.
     */
    method ParseArgs(opts: seq<Opt>) returns (ret: int)
      modifies this
      ensures Current() == Apply(old(Current()), opts)
      ensures ret == Verdict(old(Current()), opts)
    {
      var k := 0;
      while k < |opts|
        invariant k <= |opts|
        invariant Apply(Current(), opts[k..]) == Apply(old(Current()), opts)
        invariant Verdict(Current(), opts[k..]) == Verdict(old(Current()), opts)
        decreases |opts| - k
      {
        assert opts[k..][1..] == opts[k + 1..];
        match opts[k] {
          case FileOpt(path) => fileName := Some(path);
          case TimesOpt(n) => times := n;
          case BufferOpt(n) => bufferSize := ToU64(n);
          case RateOpt(r) => rate := r;
          case Unknown => return -1;
        }
        k := k + 1;
      }
      if fileName.None? || !BufferAccepted(bufferSize) {
        return -1;
      }
      return 0;
    }
  }
}
