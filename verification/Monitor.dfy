/** The admission pattern that every worker of the proxy, of the cache daemon and of the file
    server goes through, and that guards the segment pool too:

        lock; while (used >= capacity) cond_wait; used++; unlock;  ...work...
        lock; used--; cond_signal; unlock;

    Waiting is Mesa style (POSIX.1-2017 System Interfaces, `pthread_cond_wait`): a woken thread
    takes the lock again and tests again, a thread that arrives in between may overtake it, and
    a waiter may wake up without any signal. Each critical section is one step. */
module Monitor {

  /** Where a thread stands: not in the region, blocked in `cond_wait`, returned from it but
      not yet tested again, or admitted. */
  datatype Phase = Outside | Asleep | Woken | Inside

  datatype Mon = Mon(cap: nat, used: int, ph: seq<Phase>)

  function Count(ph: seq<Phase>, x: Phase): nat {
    if ph == [] then 0 else Is(ph[0], x) + Count(ph[1..], x)
  }

  function Is(y: Phase, x: Phase): nat { if y == x then 1 else 0 }

  // --- The steps ------------------------------------------------------------------------

  /** Lock and test: admitted when a unit is left, asleep otherwise. */
  function Test(m: Mon, i: nat): Mon
    requires i < |m.ph|
  {
    if m.used >= m.cap then m.(ph := m.ph[i := Asleep])
    else m.(used := m.used + 1, ph := m.ph[i := Inside])
  }

  /** `cond_signal` may pick any waiter `w`, and has to pick one if there is one. */
  ghost predicate Signals(ph: seq<Phase>, w: nat) {
    Asleep in ph ==> w < |ph| && ph[w] == Asleep
  }

  function Wake(ph: seq<Phase>, w: nat): seq<Phase> {
    if w < |ph| && ph[w] == Asleep then ph[w := Woken] else ph
  }

  function Leave(m: Mon, i: nat, w: nat): Mon
    requires i < |m.ph|
  {
    m.(used := m.used - 1, ph := Wake(m.ph[i := Outside], w))
  }

  datatype Step = DoTest(i: nat) | DoLeave(i: nat, w: nat) | DoWake(w: nat)

  ghost predicate Enabled(m: Mon, a: Step) {
    match a
    case DoTest(i) => i < |m.ph| && (m.ph[i] == Outside || m.ph[i] == Woken)
    case DoLeave(i, w) => i < |m.ph| && m.ph[i] == Inside && Signals(m.ph[i := Outside], w)
    case DoWake(w) => w < |m.ph| && m.ph[w] == Asleep
  }

  ghost function Next(m: Mon, a: Step): Mon
    requires Enabled(m, a)
  {
    match a
    case DoTest(i) => Test(m, i)
    case DoLeave(i, w) => Leave(m, i, w)
    case DoWake(w) => m.(ph := Wake(m.ph, w))
  }

  // --- The invariant --------------------------------------------------------------------

  /** The counter is exact and bounded, and no wake-up is lost: while anybody sleeps, the units
      in use and the threads on their way back to the test fill the capacity. */
  ghost predicate Inv(m: Mon) {
    && m.used == Count(m.ph, Inside)
    && m.used <= m.cap
    && (Asleep in m.ph ==> m.used + Count(m.ph, Woken) >= m.cap)
  }

  lemma {:induction false} CountUpdate(ph: seq<Phase>, i: nat, y: Phase, x: Phase)
    requires i < |ph|
    ensures Count(ph[i := y], x) == Count(ph, x) - Is(ph[i], x) + Is(y, x)
  {
    if i > 0 {
      CountUpdate(ph[1..], i - 1, y, x);
      assert ph[i := y][1..] == ph[1..][i - 1 := y];
    } else {
      assert ph[i := y][1..] == ph[1..];
    }
  }

  lemma {:induction false} CountZero(ph: seq<Phase>, x: Phase)
    ensures Count(ph, x) == 0 <==> x !in ph
  {
    if ph != [] {
      CountZero(ph[1..], x);
      assert ph == [ph[0]] + ph[1..];
    }
  }

  lemma CountTwo(ph: seq<Phase>, i: nat, j: nat, x: Phase)
    requires i < |ph| && j < |ph| && i != j && ph[i] == ph[j] == x
    ensures Count(ph, x) >= 2
  {
    var other := if x == Outside then Inside else Outside;
    CountUpdate(ph, i, other, x);
    CountZero(ph[i := other], x);
    assert ph[i := other][j] == x;
  }

  lemma {:induction false} CountSnoc(ph: seq<Phase>, y: Phase, x: Phase)
    ensures Count(ph + [y], x) == Count(ph, x) + Is(y, x)
  {
    if ph != [] {
      CountSnoc(ph[1..], y, x);
      assert (ph + [y])[1..] == ph[1..] + [y];
    }
  }

  lemma UpdateCounts(ph: seq<Phase>, i: nat, y: Phase)
    requires i < |ph|
    ensures forall x :: Count(ph[i := y], x) == Count(ph, x) - Is(ph[i], x) + Is(y, x)
  {
    forall x ensures Count(ph[i := y], x) == Count(ph, x) - Is(ph[i], x) + Is(y, x) {
      CountUpdate(ph, i, y, x);
    }
  }

  lemma TestKeepsInv(m: Mon, i: nat)
    requires Inv(m) && Enabled(m, DoTest(i))
    ensures Inv(Test(m, i))
  {
    UpdateCounts(m.ph, i, if m.used >= m.cap then Asleep else Inside);
    assert m.used < m.cap && Asleep in m.ph[i := Inside] ==> Asleep in m.ph;
  }

  lemma WakeKeepsInv(m: Mon, w: nat)
    requires Inv(m)
    ensures Inv(m.(ph := Wake(m.ph, w)))
  {
    if w < |m.ph| && m.ph[w] == Asleep {
      UpdateCounts(m.ph, w, Woken);
    }
  }

  lemma LeaveKeepsInv(m: Mon, i: nat, w: nat)
    requires Inv(m) && Enabled(m, DoLeave(i, w))
    ensures Inv(Leave(m, i, w))
  {
    UpdateCounts(m.ph, i, Outside);
    var ph := m.ph[i := Outside];
    if Asleep in ph {
      assert m.ph[w] == Asleep;
      UpdateCounts(ph, w, Woken);
    }
  }

  /** Every step keeps the invariant. */
  lemma NextKeepsInv(m: Mon, a: Step)
    requires Inv(m) && Enabled(m, a)
    ensures Inv(Next(m, a))
  {
    match a
    case DoTest(i) => TestKeepsInv(m, i);
    case DoLeave(i, w) => LeaveKeepsInv(m, i, w);
    case DoWake(w) => WakeKeepsInv(m, w);
  }

  lemma InitialInv(cap: nat, n: nat)
    ensures Inv(Mon(cap, 0, seq(n, _ => Outside)))
  {
    var ph := seq(n, _ => Outside);
    CountZero(ph, Inside);
    CountZero(ph, Asleep);
  }

  /** Nobody can sleep in front of an idle region: if no thread is inside and none is on its
      way back to the test, then none is asleep. */
  lemma NobodyStuck(m: Mon)
    requires Inv(m) && m.cap >= 1
    requires Inside !in m.ph && Woken !in m.ph
    ensures Asleep !in m.ph
  {
    CountZero(m.ph, Inside);
    CountZero(m.ph, Woken);
  }

  /** The counter and the condition variable of one region. */
  class Region {
    const cap: nat
    var used: int
    var ph: seq<Phase>

    ghost function View(): Mon
      reads this
    {
      Mon(cap, used, ph)
    }

    constructor (cap: nat, n: nat)
      ensures View() == Mon(cap, 0, seq(n, _ => Outside)) && Inv(View())
    {
      this.cap := cap;
      used := 0;
      ph := seq(n, _ => Outside);
      new;
      InitialInv(cap, n);
    }

    /** One pass through the loop test; a thread that was not admitted waits. */
    method TryEnter(i: nat) returns (admitted: bool)
      requires Inv(View()) && Enabled(View(), DoTest(i))
      modifies this
      ensures View() == Test(old(View()), i) && Inv(View())
      ensures admitted <==> ph[i] == Inside
      ensures admitted <==> old(used) < cap
    {
      TestKeepsInv(View(), i);
      if used >= cap {
        ph := ph[i := Asleep];
        admitted := false;
      } else {
        used := used + 1;
        ph := ph[i := Inside];
        admitted := true;
      }
    }

    /** Gives the unit back and wakes one waiter, if there is any. */
    method Exit(i: nat) returns (w: nat)
      requires Inv(View()) && i < |ph| && ph[i] == Inside
      modifies this
      ensures old(Enabled(View(), DoLeave(i, w)))
      ensures View() == Leave(old(View()), i, w) && Inv(View())
    {
      ph := ph[i := Outside];
      used := used - 1;
      if Asleep in ph {
        w :| w < |ph| && ph[w] == Asleep;
        LeaveKeepsInv(old(View()), i, w);
        ph := ph[w := Woken];
      } else {
        w := 0;
        LeaveKeepsInv(old(View()), i, w);
      }
    }
  }
}
