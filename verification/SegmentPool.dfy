/** The pool of segments: `ptr_status[0]` counts the free ones, and `ptr_status[k + 1]` is 1
    exactly when segment `k` is free. */
module SegmentPool {

  function Sum(bits: seq<int>): int {
    if bits == [] then 0 else bits[0] + Sum(bits[1..])
  }

  /** The head of the array is the number of ones behind it. */
  ghost predicate Conserved(status: seq<int>) {
    && |status| >= 1
    && (forall k :: 1 <= k < |status| ==> status[k] == 0 || status[k] == 1)
    && status[0] == Sum(status[1..])
  }

  /** The acquire scan from position `k`: the first segment marked free, or the number of
      segments when the loop runs out without a `break`. */
  function Scan(status: seq<int>, k: nat): (r: nat)
    requires k < |status|
    ensures k <= r < |status|
    ensures forall j :: k < j <= r ==> status[j] != 1
    ensures r < |status| - 1 ==> status[r + 1] == 1
    decreases |status| - k
  {
    if k == |status| - 1 || status[k + 1] == 1 then k else Scan(status, k + 1)
  }

  /** One unit less in the head, and the scanned segment (if any) marked used. */
  function Take(status: seq<int>): seq<int>
    requires |status| >= 1
  {
    var k := Scan(status, 0);
    var s := status[0 := status[0] - 1];
    if k < |status| - 1 then s[k + 1 := 0] else s
  }

  function Give(status: seq<int>, k: nat): seq<int>
    requires k + 1 < |status|
  {
    status[0 := status[0] + 1][k + 1 := 1]
  }

  function Initial(nseg: nat): seq<int> {
    [nseg] + seq(nseg, _ => 1)
  }

  // --- Laws -----------------------------------------------------------------------------

  lemma {:induction false} SumUpdate(bits: seq<int>, k: nat, x: int)
    requires k < |bits|
    ensures Sum(bits[k := x]) == Sum(bits) - bits[k] + x
  {
    if k > 0 {
      assert bits[k := x][1..] == bits[1..][k - 1 := x];
      SumUpdate(bits[1..], k - 1, x);
    } else {
      assert bits[k := x][1..] == bits[1..];
    }
  }

  lemma {:induction false} SumOfUsed(bits: seq<int>)
    requires forall k :: 0 <= k < |bits| ==> bits[k] != 1 && (bits[k] == 0 || bits[k] == 1)
    ensures Sum(bits) == 0
  {
    if bits != [] {
      SumOfUsed(bits[1..]);
    }
  }

  lemma {:induction false} SumOfFree(n: nat)
    ensures Sum(seq(n, _ => 1)) == n
  {
    if n > 0 {
      assert seq(n, _ => 1)[1..] == seq(n - 1, _ => 1);
      SumOfFree(n - 1);
    }
  }

  lemma InitialConserved(nseg: nat)
    ensures Conserved(Initial(nseg)) && Initial(nseg)[0] == nseg
  {
    assert Initial(nseg)[1..] == seq(nseg, _ => 1);
    SumOfFree(nseg);
  }

  /** Behind a passed test the scan always breaks at a free segment, and the pool stays
      conserved. */
  lemma TakeConserved(status: seq<int>)
    requires Conserved(status) && status[0] >= 1
    ensures Conserved(Take(status)) && Take(status)[0] == status[0] - 1
    ensures Scan(status, 0) < |status| - 1
  {
    var k := Scan(status, 0);
    if k == |status| - 1 {
      SumOfUsed(status[1..]);
      assert false;
    }
    SumUpdate(status[1..], k, 0);
    assert Take(status)[1..] == status[1..][k := 0];
  }

  lemma GiveConserved(status: seq<int>, k: nat)
    requires Conserved(status) && k + 1 < |status| && status[k + 1] == 0
    ensures Conserved(Give(status, k)) && Give(status, k)[0] == status[0] + 1
  {
    SumUpdate(status[1..], k, 1);
    assert Give(status, k)[1..] == status[1..][k := 1];
  }

  /** Returning what was just taken restores the pool. */
  lemma GiveUndoesTake(status: seq<int>)
    requires Conserved(status) && status[0] >= 1
    ensures Scan(status, 0) + 1 < |status|
    ensures Give(Take(status), Scan(status, 0)) == status
  {
    TakeConserved(status);
    GiveBack(status, Scan(status, 0));
  }

  lemma GiveBack(status: seq<int>, k: nat)
    requires k + 1 < |status| && status[k + 1] == 1
    ensures Give(status[0 := status[0] - 1][k + 1 := 0], k) == status
  {
  }

  // --- Free and held segments over a run ------------------------------------------------

  datatype Op = Acquire | Release(k: nat)

  ghost predicate Held(status: seq<int>, k: nat) {
    k + 1 < |status| && status[k + 1] == 0
  }

  ghost function HeldSet(status: seq<int>): set<nat> {
    set k: nat | k < |status| && Held(status, k)
  }

  ghost predicate Allowed(status: seq<int>, op: Op)
    requires |status| >= 1
  {
    match op
    case Acquire => status[0] >= 1
    case Release(k) => Held(status, k)
  }

  ghost function After(status: seq<int>, op: Op): seq<int>
    requires |status| >= 1 && Allowed(status, op)
  {
    match op
    case Acquire => Take(status)
    case Release(k) => Give(status, k)
  }

  /** A run of the pool: every state, each reached by an allowed operation from the previous. */
  ghost predicate Run(states: seq<seq<int>>) {
    forall i :: 0 < i < |states| ==> PoolStep(states[i - 1], states[i])
  }

  ghost predicate PoolStep(before: seq<int>, after: seq<int>) {
    |before| >= 1 && exists op :: Allowed(before, op) && after == After(before, op)
  }

  lemma HeldCount(status: seq<int>, n: nat)
    requires Conserved(status) && |status| == n + 1
    ensures status[0] + |HeldSet(status)| == n
  {
    HeldPrefix(status[1..], n);
    assert status[1..][..n] == status[1..];
    assert HeldSet(status) == set k: nat | k < n && status[1..][k] == 0;
  }

  ghost function HeldBelow(bits: seq<int>, n: nat): set<nat>
    requires n <= |bits|
  {
    set k: nat | k < n && bits[k] == 0
  }

  lemma HeldStep(bits: seq<int>, n: nat)
    requires n < |bits|
    ensures HeldBelow(bits, n + 1) == if bits[n] == 0 then HeldBelow(bits, n) + {n} else HeldBelow(bits, n)
    ensures |HeldBelow(bits, n + 1)| == |HeldBelow(bits, n)| + if bits[n] == 0 then 1 else 0
  {
    assert HeldBelow(bits, n + 1) == if bits[n] == 0 then HeldBelow(bits, n) + {n} else HeldBelow(bits, n);
  }

  lemma {:induction false} HeldPrefix(bits: seq<int>, n: nat)
    requires n <= |bits| && forall k :: 0 <= k < |bits| ==> bits[k] == 0 || bits[k] == 1
    ensures Sum(bits[..n]) + |HeldBelow(bits, n)| == n
  {
    if n > 0 {
      HeldPrefix(bits, n - 1);
      HeldStep(bits, n - 1);
      SumSnoc(bits[..n - 1], bits[n - 1]);
      assert bits[..n] == bits[..n - 1] + [bits[n - 1]];
    }
  }

  lemma {:induction false} SumSnoc(bits: seq<int>, x: int)
    ensures Sum(bits + [x]) == Sum(bits) + x
  {
    if bits == [] {
      assert bits + [x] == [x];
    } else {
      SumSnoc(bits[1..], x);
      assert (bits + [x])[1..] == bits[1..] + [x];
    }
  }

  /** Over any run from the initial pool, the free and the held segments add up to all. */
  lemma {:induction false} RunConserved(states: seq<seq<int>>, nseg: nat)
    requires states != [] && states[0] == Initial(nseg) && Run(states)
    ensures var last := states[|states| - 1];
      |last| == nseg + 1 && Conserved(last) && last[0] + |HeldSet(last)| == nseg
  {
    var n := |states| - 1;
    var last := states[n];
    if n == 0 {
      InitialConserved(nseg);
    } else {
      RunConserved(states[..n], nseg);
      var before := states[n - 1];
      assert states[..n][n - 1] == before && PoolStep(before, last);
      var op :| Allowed(before, op) && last == After(before, op);
      match op
      case Acquire => TakeConserved(before);
      case Release(k) => GiveConserved(before, k);
    }
    HeldCount(last, nseg);
  }

  /** The status array as the proxy updates it in place. */
  class Pool {
    const status: array<int>

    ghost predicate Valid()
      reads this, status
    {
      Conserved(status[..])
    }

    /** The initialisation loop of the proxy. */
    constructor (nseg: nat)
      ensures Valid() && fresh(status) && status[..] == Initial(nseg)
    {
      var a := new int[nseg + 1];
      a[0] := nseg;
      for i := 0 to nseg
        invariant a[..i + 1] == [nseg] + seq(i, _ => 1)
      {
        a[i + 1] := 1;
        assert a[..i + 2] == a[..i + 1] + [1];
      }
      assert a[..] == a[..nseg + 1];
      status := a;
      InitialConserved(nseg);
    }

    /** The critical section behind the passed test: count down, scan, mark. */
    method Acquire() returns (seg: nat)
      requires Valid() && status[0] >= 1
      modifies status
      ensures Valid() && status[..] == Take(old(status[..]))
      ensures seg == Scan(old(status[..]), 0) && seg + 1 < status.Length
      ensures old(status[seg + 1]) == 1
    {
      ghost var was := status[..];
      TakeConserved(was);
      status[0] := status[0] - 1;
      seg := 0;
      while seg < status.Length - 1 && status[seg + 1] != 1
        invariant seg < status.Length
        invariant status[..] == was[0 := was[0] - 1]
        invariant Scan(was, seg) == Scan(was, 0)
      {
        seg := seg + 1;
      }
      status[seg + 1] := 0;
    }

    method Release(seg: nat)
      requires Valid() && seg + 1 < status.Length && status[seg + 1] == 0
      modifies status
      ensures Valid() && status[..] == Give(old(status[..]), seg)
    {
      GiveConserved(status[..], seg);
      status[0] := status[0] + 1;
      status[seg + 1] := 1;
    }
  }
}
