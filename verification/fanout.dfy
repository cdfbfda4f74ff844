/**
 * The fan-out of one trace record: `nb_sys_ports * times` logical sends, send `i` going out
 * on port `i / times`; send 0 uses the buffer the record was read into, every other send a
 * clone of it.
 */
module FanOut {

  /** One logical send: the port it goes out on and whether it uses a clone of the buffer. */
  datatype Leg = Leg(port: int, clone: bool)

  /** How often `for (i = 0; i < nb_sys_ports*times; i++)` runs its body. */
  function SendCount(ports: nat, times: int): (n: nat)
    ensures n > 0 <==> ports > 0 && times > 0
    ensures n > 0 ==> n == ports * times
  {
    if ports > 0 && times > 0 then ports * times else 0
  }

  /** The logical sends of one record, in the order the loop issues them. */
  function Plan(ports: nat, times: int): (p: seq<Leg>)
    ensures |p| == SendCount(ports, times)
  {
    if ports > 0 && times > 0 then seq(ports * times, i => Leg(i / times, i != 0)) else []
  }

  /** Number of clones among the sends `legs`. */
  function Clones(legs: seq<Leg>): (n: nat)
    ensures n <= |legs|
  {
    if legs == [] then 0
    else Clones(legs[..|legs| - 1]) + (if legs[|legs| - 1].clone then 1 else 0)
  }

  /** Clones a record costs on top of its one buffer allocation. */
  function ClonesPerRecord(ports: nat, times: int): nat {
    if SendCount(ports, times) > 0 then SendCount(ports, times) - 1 else 0
  }

  /** The original buffer goes out first, on port 0; every later send uses a clone. */
  lemma PlanOriginalFirst(ports: nat, times: int)
    ensures var plan := Plan(ports, times);
            && (|plan| > 0 ==> plan[0] == Leg(0, false))
            && forall i :: 0 < i < |plan| ==> plan[i].clone
  {
  }

  /** The first `k` sends of a plan hold `k - 1` clones: one buffer, every other send cloned. */
  lemma {:induction false} ClonesInPrefix(ports: nat, times: int, k: nat)
    requires 0 < k <= SendCount(ports, times)
    ensures Clones(Plan(ports, times)[..k]) == k - 1
  {
    var plan := Plan(ports, times);
    if k > 1 {
      ClonesInPrefix(ports, times, k - 1);
      assert plan[..k][..k - 1] == plan[..k - 1];
      assert plan[k - 1].clone;
    } else {
      assert plan[..k][..0] == [];
      assert !plan[0].clone;
    }
  }

  /** A record costs exactly `nb_sys_ports * times - 1` clones. */
  lemma ClonesInPlan(ports: nat, times: int)
    ensures Clones(Plan(ports, times)) == ClonesPerRecord(ports, times)
  {
    var plan := Plan(ports, times);
    if |plan| > 0 {
      ClonesInPrefix(ports, times, |plan|);
      assert plan[..|plan|] == plan;
    }
  }

  /** `i / times == p` exactly for the `times` consecutive indices starting at `p * times`. */
  lemma DivBlock(i: nat, times: nat, p: nat)
    requires times > 0
    ensures i / times == p <==> p * times <= i < p * times + times
  {
    var q := i / times;
    assert q * times <= i < q * times + times;
    if q < p {
      MulStep(q + 1, p, times);
    } else if q > p {
      MulStep(p + 1, q, times);
    }
  }

  /** `a <= b` scales by `c`, and `(a - 1) * c + c` is `a * c`. */
  lemma MulStep(a: nat, b: nat, c: nat)
    requires 0 < a <= b
    ensures (a - 1) * c + c == a * c <= b * c
  {
    assert b * c - a * c == (b - a) * c;
    assert a * c == (a - 1) * c + c;
  }

  /**
   * Every send goes to a port that exists, and port `p` gets exactly the `times` consecutive
   * sends `p * times .. p * times + times - 1`: repetitions on one port are adjacent.
   */
  lemma PortBlocks(ports: nat, times: int, p: nat)
    requires p < ports && times > 0
    ensures var plan := Plan(ports, times);
            && p * times + times <= |plan|
            && (forall i :: 0 <= i < |plan| ==> 0 <= plan[i].port < ports)
            && (forall i :: 0 <= i < |plan| ==> (plan[i].port == p <==> p * times <= i < p * times + times))
  {
    var plan := Plan(ports, times);
    MulStep(p + 1, ports, times);
    forall i | 0 <= i < |plan|
      ensures 0 <= plan[i].port < ports
      ensures plan[i].port == p <==> p * times <= i < p * times + times
    {
      assert plan[i].port == i / times;
      PortOf(ports, times, p, i);
    }
  }

  /** Send `i` of the loop goes to port `i / times`, one of the ports, and to `p` within its block. */
  lemma PortOf(ports: nat, times: nat, p: nat, i: nat)
    requires times > 0 && i < ports * times
    ensures 0 <= i / times < ports
    ensures i / times == p <==> p * times <= i < p * times + times
  {
    DivBlock(i, times, p);
    var q := i / times;
    assert q * times <= i;
    if q >= ports {
      MulStep(ports, q, times);
    }
  }
}
