/** Safety of the protocol over every run: the invariant is inductive, and what it says about
    the regions, the segments, the two byte counters and the bytes that reach the clients. */
module ProtocolSafety {
  import opened Wrappers
  import opened Segment
  import Monitor
  import SegmentPool
  import opened Wire
  import opened Protocol
  import opened ProtocolInv
  import opened ProtocolSteps

  // --- Each step is a step of one region or of none -------------------------------------

  lemma PhasesUpdate(m: Which, ts: seq<Transfer>, i: nat, t: Transfer)
    requires i < |ts|
    ensures Phases(m, ts[i := t]) == Phases(m, ts)[i := PhaseOf(m, t)]
  {
  }

  lemma PhasesSame(m: Which, ts: seq<Transfer>, i: nat, t: Transfer)
    requires i < |ts| && PhaseOf(m, t) == PhaseOf(m, ts[i])
    ensures Phases(m, ts[i := t]) == Phases(m, ts)
  {
  }

  lemma WakePhases(m: Which, m2: Which, ts: seq<Transfer>, w: nat)
    ensures Phases(m2, Wake(m, ts, w)) == if m2 == m then Monitor.Wake(Phases(m, ts), w) else Phases(m2, ts)
  {
    if w < |ts| && PhaseOf(m, ts[w]) == Monitor.Asleep {
      PhasesUpdate(m2, ts, w, Awake(m, ts[w]));
      assert m2 != m ==> PhaseOf(m2, Awake(m, ts[w])) == PhaseOf(m2, ts[w]);
    }
  }

  lemma TestRegion(cfg: Config, s: State, m: Which, m2: Which, i: nat)
    requires Core(cfg, s) && SegmentPool.Conserved(s.status) && CanTest(s, m, i)
    ensures var before, after := Mon(cfg, s, m2), Mon(cfg, AfterTest(cfg, s, m, i), m2);
      if m2 == m then Monitor.Enabled(before, Monitor.DoTest(i)) && after == Monitor.Test(before, i)
      else after == before
  {
    hide ThreadInv, Apart, FreeInv;
    var t' := AfterTest(cfg, s, m, i).ts[i];
    PhasesUpdate(m2, s.ts, i, t');
    if m == Pool && !Full(cfg, s, m) {
      SegmentPool.TakeConserved(s.status);
    }
    if m2 != m {
      PhasesSame(m2, s.ts, i, t');
    }
  }

  lemma GiveBackPhase(s: State, m: Which, m2: Which, i: nat)
    requires CanLeave(s, m, i)
    ensures var t, t' := s.ts[i], GiveBack(s, m, i).ts[i];
      if m2 == m then PhaseOf(m, t) == Monitor.Inside && PhaseOf(m, t') == Monitor.Outside
      else PhaseOf(m2, t') == PhaseOf(m2, t)
  {
    match m
    case Th =>
    case Pool =>
    case Workers =>
  }

  lemma GiveBackRegion(cfg: Config, s: State, m: Which, m2: Which, i: nat)
    requires Core(cfg, s) && SegmentPool.Conserved(s.status) && CanLeave(s, m, i)
    ensures var before, after := Mon(cfg, s, m2), Mon(cfg, GiveBack(s, m, i), m2);
      if m2 == m then before.ph[i] == Monitor.Inside
        && after == before.(used := before.used - 1, ph := before.ph[i := Monitor.Outside])
      else after == before
  {
    var t' := GiveBack(s, m, i).ts[i];
    GiveBackPhase(s, m, m2, i);
    PhasesUpdate(m2, s.ts, i, t');
    if m == Pool {
      assert ThreadInv(cfg, s, i);
      SegmentPool.GiveConserved(s.status, s.ts[i].p.seg);
    }
    if m2 != m {
      PhasesSame(m2, s.ts, i, t');
    }
  }

  lemma LeaveRegion(cfg: Config, s: State, m: Which, m2: Which, i: nat, w: nat)
    requires Core(cfg, s) && SegmentPool.Conserved(s.status) && Enabled(cfg, s, Leave(m, i, w))
    ensures var before, after := Mon(cfg, s, m2), Mon(cfg, Next(cfg, s, Leave(m, i, w)), m2);
      if m2 == m then Monitor.Enabled(before, Monitor.DoLeave(i, w)) && after == Monitor.Leave(before, i, w)
      else after == before
  {
    GiveBackRegion(cfg, s, m, m2, i);
    GiveBackRegion(cfg, s, m, m, i);
    WakePhases(m, m2, GiveBack(s, m, i).ts, w);
  }

  /** The remaining steps do not pass any region. */
  lemma InsidePhases(cfg: Config, s: State, a: Action, m: Which)
    requires Sane(cfg) && Core(cfg, s) && HasRoom(cfg, s.buffer) && Enabled(cfg, s, a)
    requires a.ProxyStep? || a.CacheStep? || a.Accept? || a.Get?
    ensures Mon(cfg, Next(cfg, s, a), m) == Mon(cfg, s, m)
  {
    hide ThreadInv, Apart, FreeInv;
    var i := a.i;
    var t' := Next(cfg, s, a).ts[i];
    assert PhaseOf(m, t') == PhaseOf(m, s.ts[i]) by {
      match a
      case ProxyStep(_, junk) => ProxyPhase(cfg, s, i, junk, m);
      case CacheStep(_, k, junk) => CachePhaseSame(cfg, s, i, k, junk, m);
      case Accept(_, junk) => AcceptRoom(cfg, s, i, junk);
      case _ =>
    }
    PhasesSame(m, s.ts, i, t');
  }

  lemma ProxyLocalPhase(cfg: Config, path: string, t: Transfer, g: Seg, heard: Option<Reply>, m: Which)
    requires ProxyReady(t, g) && (t.p.pc.PSend? ==> Load(g.mem).Some?)
    ensures PhaseOf(m, ProxyLocal(cfg, path, t, g, heard).0) == PhaseOf(m, t)
  {
    match m
    case Th =>
    case Pool =>
    case Workers =>
  }

  lemma ProxyPhase(cfg: Config, s: State, i: nat, junk: string, m: Which)
    requires Core(cfg, s) && CanProxy(s, i)
    ensures PhaseOf(m, AfterProxy(cfg, s, i, junk).ts[i]) == PhaseOf(m, s.ts[i])
  {
    var t := s.ts[i];
    var g := SegAt(s.segs, t.p.seg);
    assert ThreadInv(cfg, s, i);
    assert t.p.pc.PSend? ==> HandOff(cfg, i, t, g) && Reading(t.p);
    ProxyLocalPhase(cfg, cfg.paths[i], t, g, HeardReply(t, junk), m);
  }

  lemma CacheLocalPhase(cfg: Config, t: Transfer, g: Seg, off: nat, k: nat,
                        key: Option<string>, info: Option<(int, int)>, m: Which)
    requires CacheReady(cfg, t, g, off, k)
    ensures PhaseOf(m, CacheLocal(cfg, t, g, off, k, key, info).t) == PhaseOf(m, t)
  {
    match m
    case Th =>
    case Pool =>
    case Workers =>
  }

  lemma CachePhaseSame(cfg: Config, s: State, i: nat, k: nat, junk: string, m: Which)
    requires CanCache(cfg, s, i, k)
    ensures PhaseOf(m, AfterCache(cfg, s, i, k, junk).ts[i]) == PhaseOf(m, s.ts[i])
  {
    var t := s.ts[i];
    CacheLocalPhase(cfg, t, SegAt(s.segs, t.c.seg), OffAt(s.offs, t.c.fd), k,
                    ParseRequest(t.c.buffer), HeardSegment(t, junk), m);
  }

  // --- The invariant is inductive -------------------------------------------------------

  lemma NextKeepsPool(cfg: Config, s: State, a: Action)
    requires Inv(cfg, s) && Enabled(cfg, s, a)
    ensures SegmentPool.Conserved(Next(cfg, s, a).status)
  {
    match a
    case Test(Pool, i) =>
      if !Full(cfg, s, Pool) {
        SegmentPool.TakeConserved(s.status);
      }
    case Leave(Pool, i, w) =>
      assert ThreadInv(cfg, s, i);
      SegmentPool.GiveConserved(s.status, s.ts[i].p.seg);
    case _ =>
  }

  lemma NextKeepsRoom(cfg: Config, s: State, a: Action)
    requires Sane(cfg) && Inv(cfg, s) && Enabled(cfg, s, a)
    ensures HasRoom(cfg, Next(cfg, s, a).buffer)
  {
    match a
    case Accept(i, junk) => AcceptRoom(cfg, s, i, junk);
    case _ =>
  }

  lemma NextKeepsRegion(cfg: Config, s: State, a: Action, m: Which)
    requires Sane(cfg) && Inv(cfg, s) && Enabled(cfg, s, a)
    ensures Monitor.Inv(Mon(cfg, Next(cfg, s, a), m))
  {
    assert Monitor.Inv(Mon(cfg, s, m));
    match a
    case Test(m1, i) =>
      TestRegion(cfg, s, m1, m, i);
      if m1 == m {
        Monitor.TestKeepsInv(Mon(cfg, s, m), i);
      }
    case Leave(m1, i, w) =>
      LeaveRegion(cfg, s, m1, m, i, w);
      if m1 == m {
        Monitor.LeaveKeepsInv(Mon(cfg, s, m), i, w);
      }
    case Spurious(m1, w) =>
      WakePhases(m1, m, s.ts, w);
      if m1 == m {
        Monitor.WakeKeepsInv(Mon(cfg, s, m), w);
      }
    case _ => InsidePhases(cfg, s, a, m);
  }

  lemma NextKeepsCore(cfg: Config, s: State, a: Action)
    requires Sane(cfg) && Inv(cfg, s) && Enabled(cfg, s, a)
    ensures Core(cfg, Next(cfg, s, a))
  {
    match a
    case Test(m, i) =>
      if Full(cfg, s, m) {
        SleptCore(cfg, s, m, i);
      } else if m == Pool {
        AcquireCore(cfg, s, i);
      } else {
        AdmitWorkerCore(cfg, s, m, i);
      }
    case Leave(m, i, w) =>
      if m == Pool {
        ReleaseCore(cfg, s, i);
      } else {
        GiveBackWorkerCore(cfg, s, m, i);
      }
      WakeCore(cfg, GiveBack(s, m, i), m, w);
    case Spurious(m, w) => WakeCore(cfg, s, m, w);
    case ProxyStep(i, junk) => ProxyStepCore(cfg, s, i, junk);
    case CacheStep(i, k, junk) => CacheStepCore(cfg, s, i, k, junk);
    case Accept(i, junk) => AcceptCore(cfg, s, i, junk);
    case Get(i, fd) => GetCore(cfg, s, i, fd);
  }

  /** Every step of every thread keeps the invariant. */
  lemma NextKeepsInv(cfg: Config, s: State, a: Action)
    requires Sane(cfg) && Inv(cfg, s) && Enabled(cfg, s, a)
    ensures Inv(cfg, Next(cfg, s, a))
  {
    NextKeepsCore(cfg, s, a);
    NextKeepsPool(cfg, s, a);
    NextKeepsRoom(cfg, s, a);
    forall m ensures Monitor.Inv(Mon(cfg, Next(cfg, s, a), m)) {
      NextKeepsRegion(cfg, s, a, m);
    }
  }

  lemma InitialRegion(cfg: Config, s: State, m: Which)
    requires Init(cfg, s)
    ensures Monitor.Inv(Mon(cfg, s, m))
  {
    Monitor.InitialInv(Mon(cfg, s, m).cap, |s.ts|);
    assert Phases(m, s.ts) == seq(|s.ts|, _ => Monitor.Outside);
  }

  lemma NewTransferInv(cfg: Config, i: nat, off: nat)
    requires i < |cfg.paths|
    ensures var t := NewTransfer();
      && TransferInv(cfg, i, t) && BufferInv(cfg, i, t.c) && OffsetInv(cfg, i, t, off)
      && !Holding(t.p.pc) && !UsesFd(t.c)
  {
  }

  lemma InitialCore(cfg: Config, s: State)
    requires Init(cfg, s)
    ensures Core(cfg, s)
  {
    var t := NewTransfer();
    forall i: nat | i < |s.ts| ensures ThreadInv(cfg, s, i) {
      NewTransferInv(cfg, i, OffAt(s.offs, t.c.fd));
      assert s.ts[i] == t;
    }
    forall i: nat, j: nat | i < j < |s.ts| ensures Apart(cfg, i, j, s.ts[i], s.ts[j]) {
      NewTransferInv(cfg, i, 0);
      assert s.ts[i] == s.ts[j] == t;
    }
  }

  lemma InitialInv(cfg: Config, s: State)
    requires Init(cfg, s)
    ensures Inv(cfg, s)
  {
    InitialCore(cfg, s);
    SegmentPool.InitialConserved(cfg.nseg);
    forall m ensures Monitor.Inv(Mon(cfg, s, m)) {
      InitialRegion(cfg, s, m);
    }
  }

  /** The invariant holds in every state of every run. */
  lemma {:induction false} RunInv(cfg: Config, states: seq<State>, actions: seq<Action>, n: nat)
    requires Sane(cfg) && Run(cfg, states, actions) && n <= |actions|
    ensures Inv(cfg, states[n])
  {
    if n == 0 {
      InitialInv(cfg, states[0]);
    } else {
      RunInv(cfg, states, actions, n - 1);
      assert IsStep(cfg, states[n - 1], actions[n - 1], states[n - 1 + 1]);
      NextKeepsInv(cfg, states[n - 1], actions[n - 1]);
    }
  }

  lemma ReachableInv(cfg: Config, s: State)
    requires Sane(cfg) && Reachable(cfg, s)
    ensures Inv(cfg, s)
  {
    var states, actions :| Run(cfg, states, actions) && states[|actions|] == s;
    RunInv(cfg, states, actions, |actions|);
  }
}
