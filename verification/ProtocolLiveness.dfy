/** Liveness of the protocol: it cannot deadlock, it terminates, and where it stops every request
    has been answered and every resource is back. */
module ProtocolLiveness {
  import opened Wrappers
  import Monitor
  import opened Protocol
  import opened ProtocolInv
  import opened ProtocolSafety

  // --- Deadlock freedom -----------------------------------------------------------------

  /** Nothing but a spurious wake-up can happen any more. */
  ghost predicate Stuck(cfg: Config, s: State) {
    forall a :: Enabled(cfg, s, a) ==> a.Spurious?
  }

  lemma SignalExists(ph: seq<Monitor.Phase>) returns (w: nat)
    ensures Monitor.Signals(ph, w)
  {
    if Monitor.Asleep in ph {
      w :| w < |ph| && ph[w] == Monitor.Asleep;
    } else {
      w := 0;
    }
  }

  lemma {:induction false} UnusedFrom(ts: seq<Transfer>, n: nat) returns (fd: nat)
    requires n <= |ts|
    ensures forall j :: 0 <= j < n ==> ts[j].c.fd < fd
  {
    if n == 0 {
      fd := 0;
    } else {
      fd := UnusedFrom(ts, n - 1);
      if fd <= ts[n - 1].c.fd {
        fd := ts[n - 1].c.fd + 1;
      }
    }
  }

  /** The proxy thread is at the end or blocked. */
  ghost predicate ProxyBlocked(t: Transfer, g: Seg) {
    match t.p.pc
    case PAsleep | PSegAsleep | PDone => true
    case PReceive => t.reply == None
    case PWait => g.reader == 0
    case _ => false
  }

  /** The cache thread is at the end, blocked, or not there yet. */
  ghost predicate CacheBlocked(t: Transfer, g: Seg) {
    match t.c.pc
    case CAsleep | CDone => true
    case CNone => t.req == None
    case CReadSeg => t.segMsg == None
    case CWait => g.writer == 0
    case _ => false
  }

  lemma StuckProxy(cfg: Config, s: State, i: nat)
    requires Sane(cfg) && Inv(cfg, s) && Stuck(cfg, s) && i < |s.ts|
    ensures ProxyBlocked(s.ts[i], SegAt(s.segs, s.ts[i].p.seg))
  {
    assert ThreadInv(cfg, s, i);
    assert !Enabled(cfg, s, ProxyStep(i, ""));
    forall m ensures !AtTest(m, s.ts[i]) {
      assert !Enabled(cfg, s, Test(m, i));
    }
    forall m ensures !CanLeave(s, m, i) {
      if CanLeave(s, m, i) {
        var w := SignalExists(Phases(m, GiveBack(s, m, i).ts));
        assert Enabled(cfg, s, Leave(m, i, w));
      }
    }
    assert !AtTest(Th, s.ts[i]) && !AtTest(Pool, s.ts[i]) && !CanLeave(s, Th, i) && !CanLeave(s, Pool, i);
  }

  /** A cache thread that neither waits nor is done can take its step. */
  lemma CacheCanStep(cfg: Config, s: State, i: nat) returns (a: Action)
    requires Sane(cfg) && |s.ts| == |cfg.paths| && i < |s.ts| && ThreadInv(cfg, s, i)
    requires !CacheBlocked(s.ts[i], SegAt(s.segs, s.ts[i].c.seg)) && !s.ts[i].c.pc.CLeave? && !s.ts[i].c.pc.CGet?
    ensures Enabled(cfg, s, a) && !a.Spurious?
  {
    var t := s.ts[i];
    var k := if OffAt(s.offs, t.c.fd) < |Content(cfg, t.c.key)| then 1 else 0;
    a := if t.c.pc.CNone? then Accept(i, "")
    else if AtTest(Workers, t) then Test(Workers, i)
    else CacheStep(i, k, "");
  }

  lemma CacheCanGet(cfg: Config, s: State, i: nat) returns (fd: nat)
    requires i < |s.ts| && s.ts[i].c.pc.CGet?
    ensures Enabled(cfg, s, Get(i, fd))
  {
    var unused := UnusedFrom(s.ts, |s.ts|);
    fd := if cfg.descriptors.Own? then unused else FdOf(cfg, s.ts[i].c.key);
  }

  lemma StuckCache(cfg: Config, s: State, i: nat)
    requires Sane(cfg) && Inv(cfg, s) && Stuck(cfg, s) && i < |s.ts|
    ensures CacheBlocked(s.ts[i], SegAt(s.segs, s.ts[i].c.seg))
  {
    assert ThreadInv(cfg, s, i);
    if s.ts[i].c.pc.CLeave? {
      var w := SignalExists(Phases(Workers, GiveBack(s, Workers, i).ts));
      assert Enabled(cfg, s, Leave(Workers, i, w));
    } else if s.ts[i].c.pc.CGet? {
      var fd := CacheCanGet(cfg, s, i);
    } else if !CacheBlocked(s.ts[i], SegAt(s.segs, s.ts[i].c.seg)) {
      var a := CacheCanStep(cfg, s, i);
    }
  }

  ghost predicate Blocked(cfg: Config, i: nat, t: Transfer, gp: Seg, gc: Seg)
    requires i < |cfg.paths|
  {
    && TransferInv(cfg, i, t) && (Holding(t.p.pc) ==> HandOff(cfg, i, t, gp))
    && ProxyBlocked(t, gp) && CacheBlocked(t, gc)
    && (t.c.seg == t.p.seg ==> gc == gp)
  }

  /** Of a blocked pair that shares a segment, one side always has the token. */
  lemma NobodyHolds(cfg: Config, i: nat, t: Transfer, gp: Seg, gc: Seg)
    requires i < |cfg.paths| && Blocked(cfg, i, t, gp, gc)
    ensures !Holding(t.p.pc) && !Touching(t.c.pc)
  {
  }

  /** A cache thread waits for its segment message only while its proxy thread waits for a
      segment, and a proxy thread waits for its reply only while the cache thread does not run. */
  lemma OnlyWaitForSegment(cfg: Config, i: nat, t: Transfer, gp: Seg, gc: Seg)
    requires i < |cfg.paths| && Blocked(cfg, i, t, gp, gc)
    ensures t.c.pc.CReadSeg? ==> t.p.pc.PSegAsleep?
    ensures t.p.pc.PReceive? ==> t.c.pc.CAsleep?
    ensures t.p.pc.PDone? ==> t.c.pc.CDone? || t.c.pc.CReadSeg?
    ensures t.p.pc.PSegAsleep? ==> t.c.pc.CReadSeg?
  {
    NobodyHolds(cfg, i, t, gp, gc);
  }

  lemma StuckBlocked(cfg: Config, s: State, i: nat)
    requires Sane(cfg) && Inv(cfg, s) && Stuck(cfg, s) && i < |s.ts|
    ensures Blocked(cfg, i, s.ts[i], SegAt(s.segs, s.ts[i].p.seg), SegAt(s.segs, s.ts[i].c.seg))
  {
    StuckProxy(cfg, s, i);
    StuckCache(cfg, s, i);
    assert ThreadInv(cfg, s, i);
  }

  /** If nobody is inside a region or woken in front of it, then nobody sleeps there. */
  lemma Deserted(cfg: Config, s: State, m: Which)
    requires Sane(cfg) && Inv(cfg, s)
    requires forall i :: 0 <= i < |s.ts| ==>
      PhaseOf(m, s.ts[i]) != Monitor.Inside && PhaseOf(m, s.ts[i]) != Monitor.Woken
    ensures forall i :: 0 <= i < |s.ts| ==> PhaseOf(m, s.ts[i]) != Monitor.Asleep
  {
    var r := Mon(cfg, s, m);
    assert Monitor.Inv(r);
    Monitor.NobodyStuck(r);
    forall i | 0 <= i < |s.ts| ensures PhaseOf(m, s.ts[i]) != Monitor.Asleep {
      assert r.ph[i] == PhaseOf(m, s.ts[i]);
    }
  }

  ghost predicate Finished(t: Transfer) { t.p.pc.PDone? && t.c.pc.CDone? }

  /** Where nothing can move any more, every request is finished: the waits for proxy slots,
      cache slots, segments and semaphores never close into a cycle. */
  lemma StuckIsFinished(cfg: Config, s: State)
    requires Sane(cfg) && Inv(cfg, s) && Stuck(cfg, s)
    ensures forall i :: 0 <= i < |s.ts| ==> Finished(s.ts[i])
  {
    forall i: nat | i < |s.ts|
      ensures Blocked(cfg, i, s.ts[i], SegAt(s.segs, s.ts[i].p.seg), SegAt(s.segs, s.ts[i].c.seg))
      ensures PoolPhaseIdle(s.ts[i]) && CacheIdle(s.ts[i]) && ProxyIdle(s.ts[i])
    {
      StuckBlocked(cfg, s, i);
      BlockedIdle(cfg, i, s.ts[i], SegAt(s.segs, s.ts[i].p.seg), SegAt(s.segs, s.ts[i].c.seg));
    }
    Deserted(cfg, s, Pool);
    forall i: nat | i < |s.ts| ensures PhaseOf(Workers, s.ts[i]) != Monitor.Inside {
      assert CacheIdle(s.ts[i]) && PhaseOf(Pool, s.ts[i]) != Monitor.Asleep;
    }
    Deserted(cfg, s, Workers);
    forall i: nat | i < |s.ts| ensures PhaseOf(Th, s.ts[i]) != Monitor.Inside {
      assert ProxyIdle(s.ts[i]) && PhaseOf(Pool, s.ts[i]) != Monitor.Asleep
        && PhaseOf(Workers, s.ts[i]) != Monitor.Asleep;
    }
    Deserted(cfg, s, Th);
    forall i: nat | i < |s.ts| ensures Finished(s.ts[i]) {
      assert ProxyIdle(s.ts[i]) && CacheIdle(s.ts[i])
        && PhaseOf(Th, s.ts[i]) != Monitor.Inside && PhaseOf(Th, s.ts[i]) != Monitor.Asleep;
    }
  }

  ghost predicate PoolPhaseIdle(t: Transfer) {
    PhaseOf(Pool, t) != Monitor.Inside && PhaseOf(Pool, t) != Monitor.Woken
  }

  ghost predicate CacheIdle(t: Transfer) {
    && (t.c.pc.CDone? || t.c.pc.CNone? || t.c.pc.CAsleep? || t.c.pc.CReadSeg?)
    && (t.c.pc.CReadSeg? ==> t.p.pc.PSegAsleep?)
  }

  ghost predicate ProxyIdle(t: Transfer) {
    && (t.p.pc.PDone? || t.p.pc.PAsleep? || t.p.pc.PSegAsleep? || t.p.pc.PReceive?)
    && (t.p.pc.PReceive? ==> t.c.pc.CAsleep?)
    && (t.p.pc.PDone? ==> t.c.pc.CDone?)
  }

  lemma BlockedIdle(cfg: Config, i: nat, t: Transfer, gp: Seg, gc: Seg)
    requires i < |cfg.paths| && Blocked(cfg, i, t, gp, gc)
    ensures PoolPhaseIdle(t) && CacheIdle(t) && ProxyIdle(t)
  {
    NobodyHolds(cfg, i, t, gp, gc);
    OnlyWaitForSegment(cfg, i, t, gp, gc);
  }

  /** Deadlock freedom: while some request is unfinished, some thread can move. */
  lemma DeadlockFree(cfg: Config, s: State, i: nat)
    requires Sane(cfg) && Reachable(cfg, s) && i < |s.ts| && !Finished(s.ts[i])
    ensures exists a :: Enabled(cfg, s, a) && !a.Spurious?
  {
    ReachableInv(cfg, s);
    if Stuck(cfg, s) {
      StuckIsFinished(cfg, s);
    }
  }
}
