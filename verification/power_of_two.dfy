/** The bit trick `isPowerOfTwo` applied to the buffer-pool size. */
module PowerOfTwo {

  /** `isPowerOfTwo(unsigned int x)`: nonzero, and clearing the lowest set bit leaves nothing. */
  predicate IsPowerOfTwo(x: bv32) {
    x != 0 && x & (x - 1) == 0
  }

  /** 2^k as a 32-bit unsigned value. */
  function Pow2(k: nat): bv32
    requires k < 32
  {
    (1 as bv32) << k
  }

  /** Every 2^k below 2^32 passes the test. */
  lemma Pow2IsPowerOfTwo(k: nat)
    requires k < 32
    ensures IsPowerOfTwo(Pow2(k))
  {
  }

  /** A value that passes the test is 2^k for some k < 32, and that k is computed here. */
  lemma Exponent(x: bv32) returns (k: nat)
    requires IsPowerOfTwo(x)
    ensures k < 32 && x == Pow2(k)
  {
    k := 0;
    var p: bv32 := 1;
    while x != p
      invariant k < 32 && p == Pow2(k)
      invariant x & (p - 1) == 0
      decreases 32 - k
    {
      Pow2Step(k);
      p := p << 1;
      k := k + 1;
    }
  }

  /** Doubling 2^k gives 2^(k+1), and 2^31 is the largest power the test can meet. */
  lemma Pow2Step(k: nat)
    requires k < 32
    ensures k < 31 ==> Pow2(k + 1) == Pow2(k) << 1
    ensures k == 31 ==> Pow2(k) == 0x8000_0000
  {
  }

  /** The test accepts exactly the powers of two 2^0 .. 2^31. */
  lemma IsPowerOfTwoIff(x: bv32)
    ensures IsPowerOfTwo(x) <==> exists k: nat :: k < 32 && x == Pow2(k)
  {
    if IsPowerOfTwo(x) {
      var k := Exponent(x);
    } else {
      forall k: nat | k < 32 ensures x != Pow2(k) {
        Pow2IsPowerOfTwo(k);
      }
    }
  }
}
