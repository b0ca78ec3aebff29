/** Termination of the protocol: a measure that every step but a spurious wake-up decreases, the
    bound it puts on the length of a run, and the state in which every run ends. */
module ProtocolTermination {
  import opened Wrappers
  import Monitor
  import SegmentPool
  import opened Wire
  import opened Protocol
  import opened ProtocolInv
  import opened ProtocolSafety
  import opened ProtocolResults
  import opened ProtocolLiveness

  // --- The measure ----------------------------------------------------------------------

  /** Steps left in program order. A woken thread may fall asleep again, so the step that gives
      a unit back is worth two: its own and the wake-up it pays for. */
  ghost function ProxyRank(pc: ProxyPc): int {
    match pc
    case PTest => 19 case PWoken => 18 case PAsleep => 17 case PRequest => 16 case PReceive => 15
    case PSegTest => 14 case PSegWoken => 13 case PSegAsleep => 12 case PHead => 11 case PSendSeg => 10
    case PLoop => 9 case PWait => 8 case PSend => 7 case PPost => 6 case PAdd => 5
    case PRelease => 4 case PLeave => 2
    case PLeaveNF => 3 case PHeadNF => 1
    case PDone => 0 case PExit => 0
  }

  ghost function CacheRank(pc: CachePc): int {
    match pc
    case CNone => 17 case CTest => 16 case CWoken => 15 case CAsleep => 14 case CParse => 13 case CGet => 12
    case CSeek => 11 case CReplyOk => 10 case CReadSeg => 9 case CReplyNF => 3
    case CLoop => 8 case CWait => 7 case CCopy => 6 case CLength => 5 case CPost => 4 case CAdd => 3
    case CLeave => 2 case CDone => 0 case CExit => 0
  }

  /** One round of the send loop takes five steps and moves at least one byte; so does one
      round of the write loop with six. */
  ghost function TransferMeasure(len: nat, t: Transfer): int {
    ProxyRank(t.p.pc) + 5 * (len - t.p.bytesSend) + CacheRank(t.c.pc) + 6 * (len - t.c.bytesRead)
  }

  ghost function Sum(cfg: Config, ts: seq<Transfer>, n: nat): int
    requires n <= |ts| == |cfg.paths|
  {
    if n == 0 then 0 else Sum(cfg, ts, n - 1) + TransferMeasure(|Data(cfg, n - 1)|, ts[n - 1])
  }

  ghost function Measure(cfg: Config, s: State): int
    requires |s.ts| == |cfg.paths|
  {
    Sum(cfg, s.ts, |s.ts|)
  }

  lemma {:induction false} SumUpdate(cfg: Config, ts: seq<Transfer>, i: nat, t: Transfer, n: nat)
    requires n <= |ts| == |cfg.paths| && i < |ts|
    ensures Sum(cfg, ts[i := t], n) == Sum(cfg, ts, n)
      + if i < n then TransferMeasure(|Data(cfg, i)|, t) - TransferMeasure(|Data(cfg, i)|, ts[i]) else 0
  {
    if n > 0 {
      SumUpdate(cfg, ts, i, t, n - 1);
    }
  }

  // --- Every step but a spurious wake-up decreases it -----------------------------------

  lemma WakeCosts(cfg: Config, ts: seq<Transfer>, m: Which, w: nat)
    requires |ts| == |cfg.paths|
    ensures Sum(cfg, Wake(m, ts, w), |ts|) <= Sum(cfg, ts, |ts|) + 1
  {
    if w < |ts| && PhaseOf(m, ts[w]) == Monitor.Asleep {
      SumUpdate(cfg, ts, w, Awake(m, ts[w]), |ts|);
    }
  }

  lemma TestDecreases(cfg: Config, s: State, m: Which, i: nat)
    requires |s.ts| == |cfg.paths| && CanTest(s, m, i)
    ensures Measure(cfg, AfterTest(cfg, s, m, i)) < Measure(cfg, s)
  {
    var t' := AfterTest(cfg, s, m, i).ts[i];
    SumUpdate(cfg, s.ts, i, t', |s.ts|);
    match m
    case Th =>
    case Pool =>
    case Workers =>
  }

  lemma GiveBackRank(s: State, m: Which, i: nat, len: nat)
    requires CanLeave(s, m, i)
    ensures TransferMeasure(len, GiveBack(s, m, i).ts[i]) <= TransferMeasure(len, s.ts[i]) - 2
  {
  }

  lemma GiveBackPays(cfg: Config, s: State, m: Which, i: nat)
    requires |s.ts| == |cfg.paths| && CanLeave(s, m, i)
    ensures Measure(cfg, GiveBack(s, m, i)) <= Measure(cfg, s) - 2
  {
    GiveBackRank(s, m, i, |Data(cfg, i)|);
    SumUpdate(cfg, s.ts, i, GiveBack(s, m, i).ts[i], |s.ts|);
  }

  lemma ExactOrEmpty(cfg: Config, i: nat)
    requires Terminating(cfg) && i < |cfg.paths|
    ensures Exact(cfg, i) || Data(cfg, i) == []
  {
    if !Exact(cfg, i) {
      ExactUnlessRepeated(cfg, i, 1);
    }
  }

  lemma TransferNonNegative(cfg: Config, i: nat, t: Transfer)
    requires i < |cfg.paths| && ProxyInv(cfg, i, t.p) && CacheInv(cfg, i, t.c)
    requires Exact(cfg, i) || Data(cfg, i) == []
    ensures TransferMeasure(|Data(cfg, i)|, t) >= 0
  {
    assert Whole(cfg, i);
  }

  lemma {:induction false} SumNonNegative(cfg: Config, s: State, n: nat)
    requires Terminating(cfg) && Core(cfg, s) && n <= |s.ts|
    ensures Sum(cfg, s.ts, n) >= 0
  {
    if n > 0 {
      SumNonNegative(cfg, s, n - 1);
      ExactOrEmpty(cfg, n - 1);
      assert ThreadInv(cfg, s, n - 1);
      TransferNonNegative(cfg, n - 1, s.ts[n - 1]);
    }
  }

  lemma ProxyRoundDecreases(cfg: Config, i: nat, t: Transfer)
    requires i < |cfg.paths| && ProxyInv(cfg, i, t.p) && (Exact(cfg, i) || Data(cfg, i) == [])
    ensures t.p.pc.PAdd? ==> t.p.sendLen >= 1
  {
    assert t.p.pc.PAdd? ==> t.p.bytesSend < |Data(cfg, i)|;
  }

  lemma ProxyLocalDecreases(cfg: Config, i: nat, t: Transfer, g: Seg, heard: Option<Reply>)
    requires i < |cfg.paths| && ProxyReady(t, g)
    requires t.p.pc.PAdd? ==> t.p.sendLen >= 1
    requires t.p.pc.PSendSeg? ==> t.p.bytesSend == 0
    ensures var t' := ProxyLocal(cfg, cfg.paths[i], t, g, heard).0;
      TransferMeasure(|Data(cfg, i)|, t') < TransferMeasure(|Data(cfg, i)|, t)
  {
  }

  lemma ProxyDecreases(cfg: Config, s: State, i: nat, junk: string)
    requires Terminating(cfg) && Core(cfg, s) && CanProxy(s, i)
    ensures Measure(cfg, AfterProxy(cfg, s, i, junk)) < Measure(cfg, s)
  {
    var t := s.ts[i];
    assert ThreadInv(cfg, s, i);
    ExactOrEmpty(cfg, i);
    ProxyRoundDecreases(cfg, i, t);
    ProxyLocalDecreases(cfg, i, t, SegAt(s.segs, t.p.seg), HeardReply(t, junk));
    SumUpdate(cfg, s.ts, i, AfterProxy(cfg, s, i, junk).ts[i], |s.ts|);
  }

  lemma CacheLocalDecreases(cfg: Config, i: nat, t: Transfer, g: Seg, off: nat, k: nat,
                            key: Option<string>, info: Option<(int, int)>)
    requires i < |cfg.paths| && CacheInv(cfg, i, t.c) && CacheReady(cfg, t, g, off, k)
    requires Exact(cfg, i) || Data(cfg, i) == []
    ensures var t' := CacheLocal(cfg, t, g, off, k, key, info).t;
      TransferMeasure(|Data(cfg, i)|, t') < TransferMeasure(|Data(cfg, i)|, t)
  {
  }

  lemma CacheDecreases(cfg: Config, s: State, i: nat, k: nat, junk: string)
    requires Terminating(cfg) && Core(cfg, s) && CanCache(cfg, s, i, k)
    ensures Measure(cfg, AfterCache(cfg, s, i, k, junk)) < Measure(cfg, s)
  {
    var t := s.ts[i];
    assert ThreadInv(cfg, s, i);
    ExactOrEmpty(cfg, i);
    CacheLocalDecreases(cfg, i, t, SegAt(s.segs, t.c.seg), OffAt(s.offs, t.c.fd), k,
                        ParseRequest(t.c.buffer), HeardSegment(t, junk));
    SumUpdate(cfg, s.ts, i, AfterCache(cfg, s, i, k, junk).ts[i], |s.ts|);
  }

  lemma AcceptDecreases(cfg: Config, s: State, i: nat, junk: string)
    requires |s.ts| == |cfg.paths| && CanAccept(s, i)
    ensures Measure(cfg, AfterAccept(s, i, junk)) < Measure(cfg, s)
  {
    SumUpdate(cfg, s.ts, i, AfterAccept(s, i, junk).ts[i], |s.ts|);
  }

  lemma GetDecreases(cfg: Config, s: State, i: nat, fd: nat)
    requires |s.ts| == |cfg.paths| && CanGet(cfg, s, i, fd)
    ensures Measure(cfg, AfterGet(cfg, s, i, fd)) < Measure(cfg, s)
  {
    SumUpdate(cfg, s.ts, i, AfterGet(cfg, s, i, fd).ts[i], |s.ts|);
  }

  /** Every step decreases the measure, except that a spurious wake-up raises it by at most one. */
  lemma StepDecreases(cfg: Config, s: State, a: Action)
    requires Terminating(cfg) && Core(cfg, s) && Enabled(cfg, s, a)
    ensures |Next(cfg, s, a).ts| == |cfg.paths|
    ensures Measure(cfg, Next(cfg, s, a)) <= Measure(cfg, s) + if a.Spurious? then 1 else -1
  {
    match a
    case Test(m, i) => TestDecreases(cfg, s, m, i);
    case Leave(m, i, w) =>
      GiveBackPays(cfg, s, m, i);
      WakeCosts(cfg, GiveBack(s, m, i).ts, m, w);
    case Spurious(m, w) => WakeCosts(cfg, s.ts, m, w);
    case ProxyStep(i, junk) => ProxyDecreases(cfg, s, i, junk);
    case CacheStep(i, k, junk) => CacheDecreases(cfg, s, i, k, junk);
    case Accept(i, junk) => AcceptDecreases(cfg, s, i, junk);
    case Get(i, fd) => GetDecreases(cfg, s, i, fd);
  }

  // --- Length of runs -------------------------------------------------------------------

  ghost function SpuriousIn(actions: seq<Action>): nat {
    if actions == [] then 0
    else SpuriousIn(actions[..|actions| - 1]) + if actions[|actions| - 1].Spurious? then 1 else 0
  }

  /** Bytes asked for, over all requests. */
  ghost function TotalBytes(cfg: Config, n: nat): nat
    requires n <= |cfg.paths|
  {
    if n == 0 then 0 else TotalBytes(cfg, n - 1) + |Data(cfg, n - 1)|
  }

  lemma {:induction false} InitialMeasure(cfg: Config, s: State, n: nat)
    requires Init(cfg, s) && n <= |s.ts|
    ensures Sum(cfg, s.ts, n) == 36 * n + 11 * TotalBytes(cfg, n)
  {
    if n > 0 {
      InitialMeasure(cfg, s, n - 1);
      assert s.ts[n - 1] == NewTransfer();
    }
  }

  lemma {:induction false} RunMeasure(cfg: Config, states: seq<State>, actions: seq<Action>, n: nat)
    requires Terminating(cfg) && Run(cfg, states, actions) && n <= |actions|
    ensures |states[0].ts| == |states[n].ts| == |cfg.paths|
    ensures Measure(cfg, states[n]) + n <= Measure(cfg, states[0]) + 2 * SpuriousIn(actions[..n])
  {
    if n > 0 {
      RunMeasure(cfg, states, actions, n - 1);
      RunInv(cfg, states, actions, n - 1);
      assert IsStep(cfg, states[n - 1], actions[n - 1], states[n - 1 + 1]);
      StepDecreases(cfg, states[n - 1], actions[n - 1]);
      assert actions[..n][..n - 1] == actions[..n - 1];
    }
  }

  /** Termination, with a bound: a run of N requests over B bytes takes at most 36 N + 11 B
      steps, and two more for every spurious wake-up. */
  lemma RunsAreBounded(cfg: Config, states: seq<State>, actions: seq<Action>)
    requires Terminating(cfg) && Run(cfg, states, actions)
    ensures |actions| <= 36 * |cfg.paths| + 11 * TotalBytes(cfg, |cfg.paths|) + 2 * SpuriousIn(actions)
  {
    var n := |actions|;
    RunMeasure(cfg, states, actions, n);
    InitialMeasure(cfg, states[0], |cfg.paths|);
    RunInv(cfg, states, actions, n);
    SumNonNegative(cfg, states[n], |cfg.paths|);
    assert actions[..n] == actions;
  }

  // --- Where runs end -------------------------------------------------------------------

  /** Every request answered in full and every resource back as it was at the start. */
  ghost predicate Completed(cfg: Config, s: State) {
    Returned(cfg, s) && forall i :: 0 <= i < |s.ts| ==> Served(cfg, i, s.ts[i])
  }

  ghost predicate Returned(cfg: Config, s: State) {
    && |s.ts| == |cfg.paths|
    && (forall i :: 0 <= i < |s.ts| ==> Finished(s.ts[i]))
    && s.workThreads == 0 && s.currentWorkers == 0
    && s.status == SegmentPool.Initial(cfg.nseg)
    && |s.segs| == cfg.nseg
    && (forall k :: 0 <= k < cfg.nseg ==> FreshSeg(cfg, s.segs[k]))
  }

  ghost predicate Served(cfg: Config, i: nat, t: Transfer)
    requires i < |cfg.paths|
  {
    && t.p.pc.PDone? && t.c.pc.CDone?
    && t.p.sent == Data(cfg, i)
    && t.p.head == if IsFound(cfg, i) then OkHead(|Data(cfg, i)|) else NotFoundHead
  }

  lemma NobodyInside(cfg: Config, s: State, m: Which)
    requires Inv(cfg, s) && forall i :: 0 <= i < |s.ts| ==> Finished(s.ts[i])
    ensures Mon(cfg, s, m).used == 0
  {
    var r := Mon(cfg, s, m);
    assert Monitor.Inv(r);
    assert Monitor.Inside !in r.ph;
    Monitor.CountZero(r.ph, Monitor.Inside);
  }

  lemma SegmentIsBack(cfg: Config, s: State, k: nat)
    requires Inv(cfg, s) && k < cfg.nseg && forall i :: 0 <= i < |s.ts| ==> Finished(s.ts[i])
    ensures s.status[k + 1] == 1 && FreshSeg(cfg, s.segs[k])
  {
    assert FreeInv(cfg, s, k);
  }

  /** A run that cannot go on has finished every request and returned every resource, even if
      shared descriptors have mixed up the bytes. */
  lemma StuckIsReturned(cfg: Config, s: State)
    requires Sane(cfg) && Inv(cfg, s) && Stuck(cfg, s)
    ensures Returned(cfg, s)
  {
    StuckIsFinished(cfg, s);
    NobodyInside(cfg, s, Th);
    NobodyInside(cfg, s, Workers);
    NobodyInside(cfg, s, Pool);
    forall k: nat | k < cfg.nseg ensures FreshSeg(cfg, s.segs[k]) {
      SegmentIsBack(cfg, s, k);
    }
    assert s.status == SegmentPool.Initial(cfg.nseg) by {
      var initial := SegmentPool.Initial(cfg.nseg);
      assert |s.status| == |initial| && s.status[0] == initial[0];
      forall j | 1 <= j < |initial| ensures s.status[j] == initial[j] {
        SegmentIsBack(cfg, s, j - 1);
      }
    }
  }

  /** And, as far as the bytes are safe, answered every request with its file. */
  lemma StuckIsCompleted(cfg: Config, s: State)
    requires Valid(cfg) && Inv(cfg, s) && Stuck(cfg, s)
    ensures Completed(cfg, s)
  {
    StuckIsReturned(cfg, s);
    forall i: nat | i < |s.ts| ensures Served(cfg, i, s.ts[i]) {
      ValidIsWhole(cfg, i);
      assert Finished(s.ts[i]) && ThreadInv(cfg, s, i);
    }
  }

  lemma MaximalRunsComplete(cfg: Config, states: seq<State>, actions: seq<Action>)
    requires Valid(cfg) && Run(cfg, states, actions) && Stuck(cfg, states[|actions|])
    ensures Completed(cfg, states[|actions|])
  {
    RunInv(cfg, states, actions, |actions|);
    StuckIsCompleted(cfg, states[|actions|]);
  }

  lemma ExtendRun(cfg: Config, states: seq<State>, actions: seq<Action>, a: Action)
    requires Run(cfg, states, actions)
    requires var s := states[|actions|]; |s.ts| == |cfg.paths| && Enabled(cfg, s, a)
    ensures Run(cfg, states + [Next(cfg, states[|actions|], a)], actions + [a])
  {
    var states', actions' := states + [Next(cfg, states[|actions|], a)], actions + [a];
    forall n | 0 <= n < |actions'| ensures IsStep(cfg, states'[n], actions'[n], states'[n + 1]) {
      if n < |actions| {
        assert IsStep(cfg, states[n], actions[n], states[n + 1]);
      }
    }
  }

  /** Whatever has happened so far, the run can be continued to the end, and any way of
      continuing it without spurious wake-ups gets there. */
  lemma {:induction false} EveryRunCanComplete(cfg: Config, states: seq<State>, actions: seq<Action>)
      returns (states': seq<State>, actions': seq<Action>)
    requires Terminating(cfg) && Run(cfg, states, actions)
    ensures Run(cfg, states', actions') && states <= states' && actions <= actions'
    ensures Completed(cfg, states'[|actions'|])
    ensures SpuriousIn(actions') == SpuriousIn(actions)
    decreases var s := states[|actions|]; if |s.ts| == |cfg.paths| then Measure(cfg, s) else 0
  {
    hide ThreadInv, Apart, FreeInv, Next;
    var s := states[|actions|];
    RunInv(cfg, states, actions, |actions|);
    SumNonNegative(cfg, s, |cfg.paths|);
    if Stuck(cfg, s) {
      StuckIsCompleted(cfg, s);
      return states, actions;
    }
    var a :| Enabled(cfg, s, a) && !a.Spurious?;
    StepDecreases(cfg, s, a);
    ExtendRun(cfg, states, actions, a);
    RunInv(cfg, states + [Next(cfg, s, a)], actions + [a], |actions| + 1);
    SumNonNegative(cfg, Next(cfg, s, a), |cfg.paths|);
    states', actions' := EveryRunCanComplete(cfg, states + [Next(cfg, s, a)], actions + [a]);
    assert (actions + [a])[..|actions|] == actions;
  }
}
