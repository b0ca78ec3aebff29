/** What the invariant means for whole runs: integrity of the files delivered, clean reuse of
    the segments, mutual exclusion, agreement of the byte counters, and the resource counts. */
module ProtocolResults {
  import opened Wrappers
  import opened Segment
  import Monitor
  import SegmentPool
  import opened Wire
  import opened Protocol
  import opened ProtocolInv
  import opened ProtocolSteps
  import opened ProtocolSafety

  // --- Integrity ------------------------------------------------------------------------

  /** Under every interleaving, what a client has received is a prefix of its own file behind
      the right header, and the whole file once the proxy thread has left its send loop. */
  lemma Integrity(cfg: Config, s: State, i: nat)
    requires Valid(cfg) && Reachable(cfg, s) && i < |s.ts|
    ensures |s.ts| == |cfg.paths|
    ensures var p, data := s.ts[i].p, Data(cfg, i);
      && p.sent <= data
      && (p.sent != [] ==> p.head == OkHead(|data|))
      && (p.pc.PRelease? || p.pc.PLeave? || (p.pc.PDone? && IsFound(cfg, i)) ==>
        p.sent == data && p.head == OkHead(|data|) && p.bytesSend == |data|)
      && (p.pc.PDone? && !IsFound(cfg, i) ==> p.sent == [] && p.head == NotFoundHead)
  {
    ReachableInv(cfg, s);
    ValidIsWhole(cfg, i);
    assert ThreadInv(cfg, s, i);
  }

  lemma ValidIsWhole(cfg: Config, i: nat)
    requires Valid(cfg) && i < |cfg.paths|
    ensures Whole(cfg, i)
  {
    if !Exact(cfg, i) {
      ExactUnlessRepeated(cfg, i, 2);
    }
  }

  /** Every message is understood and every access stays inside its segment: no thread ever
      reaches an `exit(-1)`. */
  lemma NeverAborts(cfg: Config, s: State, i: nat)
    requires Sane(cfg) && Reachable(cfg, s) && i < |s.ts|
    ensures !s.ts[i].p.pc.PExit? && !s.ts[i].c.pc.CExit?
  {
    ReachableInv(cfg, s);
    assert ThreadInv(cfg, s, i);
  }

  // --- The hand-off ---------------------------------------------------------------------

  ghost function Writers(s: State, k: nat): set<nat> {
    set i: nat | i < |s.ts| && Writing(s.ts[i].c) && s.ts[i].c.seg == k
  }

  ghost function Readers(s: State, k: nat): set<nat> {
    set i: nat | i < |s.ts| && Reading(s.ts[i].p) && s.ts[i].p.seg == k
  }

  lemma TouchingHolds(cfg: Config, s: State, i: nat)
    requires Core(cfg, s) && i < |s.ts|
    ensures Touching(s.ts[i].c.pc) ==> HeldBy(s.ts, i, s.ts[i].c.seg)
    ensures Reading(s.ts[i].p) ==> HeldBy(s.ts, i, s.ts[i].p.seg)
  {
    assert ThreadInv(cfg, s, i);
  }

  lemma HolderUnique(cfg: Config, s: State, i: nat, j: nat, k: nat)
    requires Core(cfg, s) && HeldBy(s.ts, i, k) && HeldBy(s.ts, j, k)
    ensures i == j
  {
    if i != j {
      CoreApart(cfg, s, i, j);
    }
  }

  /** Only the transfer that holds a segment can be inside it. */
  lemma InsideHolder(cfg: Config, s: State, k: nat)
    requires Core(cfg, s)
    ensures forall i :: i in Writers(s, k) || i in Readers(s, k) ==> HeldBy(s.ts, i, k)
  {
    forall i: nat | i < |s.ts|
      ensures i in Writers(s, k) || i in Readers(s, k) ==> HeldBy(s.ts, i, k)
    {
      TouchingHolds(cfg, s, i);
    }
  }

  lemma HolderInside(cfg: Config, s: State, i: nat, k: nat)
    requires Core(cfg, s) && HeldBy(s.ts, i, k)
    ensures Writers(s, k) == if Writing(s.ts[i].c) then {i} else {}
    ensures Readers(s, k) == if Reading(s.ts[i].p) then {i} else {}
  {
    InsideHolder(cfg, s, k);
    forall j: nat | HeldBy(s.ts, j, k) ensures j == i {
      HolderUnique(cfg, s, i, j, k);
    }
    TouchingSame(cfg, s, i);
  }

  lemma TouchingSame(cfg: Config, s: State, i: nat)
    requires Core(cfg, s) && i < |s.ts|
    ensures Touching(s.ts[i].c.pc) ==> s.ts[i].c.seg == s.ts[i].p.seg
  {
    assert ThreadInv(cfg, s, i);
  }

  /** For every segment, in every reachable state: writer value, reader value, threads between
      the two semaphores on the writing side and on the reading side make exactly one. */
  lemma OneToken(cfg: Config, s: State, k: nat)
    requires Sane(cfg) && Reachable(cfg, s) && k < |s.segs|
    ensures s.segs[k].writer + s.segs[k].reader + |Writers(s, k)| + |Readers(s, k)| == 1
  {
    ReachableInv(cfg, s);
    assert FreeInv(cfg, s, k);
    if s.status[k + 1] == 1 {
      InsideHolder(cfg, s, k);
      forall i: nat ensures !HeldBy(s.ts, i, k) {
        assert i < |s.ts| ==> ThreadInv(cfg, s, i);
      }
      assert Writers(s, k) == {} && Readers(s, k) == {};
    } else {
      var i: nat :| HeldBy(s.ts, i, k);
      HolderInside(cfg, s, i, k);
      assert ThreadInv(cfg, s, i);
    }
  }

  /** Hence the length word and the payload are never written while they are being read, nor
      by two threads at once. */
  lemma MutualExclusion(cfg: Config, s: State, k: nat, i: nat, j: nat)
    requires Sane(cfg) && Reachable(cfg, s) && k < |s.segs| && i in Writers(s, k)
    ensures j !in Readers(s, k) && (j in Writers(s, k) ==> j == i)
  {
    OneToken(cfg, s, k);
    assert |Writers(s, k) - {i}| == |Writers(s, k)| - 1;
    assert Writers(s, k) - {i} == {} && Readers(s, k) == {};
  }

  /** A chunk lies in the segment for the proxy thread: placed and not yet given back. */
  ghost predicate Ahead(s: State, i: nat)
    requires i < |s.ts|
  {
    SegAt(s.segs, s.ts[i].p.seg).reader == 1 || Reading(s.ts[i].p)
  }

  ghost function Pending(s: State, i: nat): Option<seq<Byte>>
    requires i < |s.ts|
  {
    if Ahead(s, i) then Load(SegAt(s.segs, s.ts[i].p.seg).mem) else Some([])
  }

  lemma HandOffAgrees(cfg: Config, i: nat, t: Transfer, g: Seg)
    requires i < |cfg.paths| && Sane(cfg) && ProxyInv(cfg, i, t.p) && CacheInv(cfg, i, t.c) && HandOff(cfg, i, t, g)
    ensures var ahead := g.reader == 1 || Reading(t.p);
      var pending := if ahead then Load(g.mem) else Some([]);
      && pending.Some?
      && Placed(t.c) - Consumed(t.p) == |pending.value| <= cfg.segsize - RESERVED
      && t.c.rounds == t.p.rounds + One(ahead)
      && (Exact(cfg, i) ==> (ahead <==> pending.value != []))
      && (t.p.pc.PRelease? ==> !ahead && t.p.bytesSend >= |Data(cfg, i)|)
      && (ahead && Whole(cfg, i) ==>
        Placed(t.c) <= |Data(cfg, i)| && pending.value == Data(cfg, i)[Consumed(t.p)..Placed(t.c)])
  {
  }

  /** The two counters are never compared, yet they differ by exactly the chunk that lies in
      the segment, and the cache is ahead by that round at most; so the two loops end after the
      same bytes and the same number of rounds, for every segment size and every short read. */
  lemma CounterAgreement(cfg: Config, s: State, i: nat)
    requires Sane(cfg) && Reachable(cfg, s) && i < |s.ts| && Holding(s.ts[i].p.pc)
    ensures |s.ts| == |cfg.paths|
    ensures var p, c := s.ts[i].p, s.ts[i].c;
      && Pending(s, i).Some?
      && Placed(c) - Consumed(p) == |Pending(s, i).value| <= cfg.segsize - RESERVED
      && c.rounds == p.rounds + One(Ahead(s, i))
      && (Exact(cfg, i) ==> (Ahead(s, i) <==> Pending(s, i).value != []))
      && (p.pc.PRelease? ==> Placed(c) == p.bytesSend >= |Data(cfg, i)| && c.rounds == p.rounds)
      && (Whole(cfg, i) ==>
        Placed(c) <= |Data(cfg, i)| && Data(cfg, i)[..Placed(c)] == Data(cfg, i)[..Consumed(p)] + Pending(s, i).value)
  {
    hide HandOff, ChannelInv, BufferInv, Load;
    ReachableInv(cfg, s);
    assert ThreadInv(cfg, s, i);
    var t := s.ts[i];
    HandOffAgrees(cfg, i, t, SegAt(s.segs, t.p.seg));
    if Whole(cfg, i) {
      var data := Data(cfg, i);
      assert !Ahead(s, i) ==> Consumed(t.p) == Placed(t.c);
      assert data[..Placed(t.c)] == data[..Consumed(t.p)] + data[Consumed(t.p)..Placed(t.c)];
    }
  }

  /** Once the proxy thread has returned its segment the loops have made equally many rounds,
      even if the cache thread has not yet added its last chunk. */
  lemma SameRounds(cfg: Config, s: State, i: nat)
    requires Sane(cfg) && Reachable(cfg, s) && i < |s.ts| && Released(s.ts[i])
    ensures |s.ts| == |cfg.paths|
    ensures s.ts[i].p.rounds == s.ts[i].c.rounds
    ensures IsFound(cfg, i) ==> s.ts[i].p.bytesSend == Placed(s.ts[i].c) >= |Data(cfg, i)|
    ensures Whole(cfg, i) ==> s.ts[i].p.bytesSend == |Data(cfg, i)|
  {
    ReachableInv(cfg, s);
    assert ThreadInv(cfg, s, i);
  }

  // --- Reuse of segments ----------------------------------------------------------------

  /** A free segment has its semaphores at 1 and 0, nobody holds it, and no cache thread waits
      for it or writes it; a segment that is not free has exactly one holder. */
  lemma CleanReuse(cfg: Config, s: State, k: nat)
    requires Sane(cfg) && Reachable(cfg, s) && k < cfg.nseg
    ensures |s.segs| == cfg.nseg && |s.status| == cfg.nseg + 1
    ensures s.status[k + 1] == 1 <==> forall i: nat :: !HeldBy(s.ts, i, k)
    ensures s.status[k + 1] == 1 ==>
      && s.segs[k].writer == 1 && s.segs[k].reader == 0
      && forall i :: 0 <= i < |s.ts| && Touching(s.ts[i].c.pc) ==> s.ts[i].c.seg != k
    ensures forall i: nat, j: nat :: HeldBy(s.ts, i, k) && HeldBy(s.ts, j, k) ==> i == j
  {
    ReachableInv(cfg, s);
    assert FreeInv(cfg, s, k);
    forall i: nat | i < |s.ts| ensures HeldBy(s.ts, i, k) ==> s.status[k + 1] == 0 {
      assert ThreadInv(cfg, s, i);
    }
    forall i: nat | i < |s.ts| && Touching(s.ts[i].c.pc) ensures HeldBy(s.ts, i, s.ts[i].c.seg) {
      TouchingHolds(cfg, s, i);
    }
    forall i: nat, j: nat | HeldBy(s.ts, i, k) && HeldBy(s.ts, j, k) ensures i == j {
      HolderUnique(cfg, s, i, j, k);
    }
  }

  lemma StepKeepsReleased(cfg: Config, s: State, a: Action, s': State, i: nat)
    requires IsStep(cfg, s, a, s') && i < |s.ts| && Released(s.ts[i])
    ensures i < |s'.ts| && Released(s'.ts[i])
  {
    NextKeepsReleased(cfg, s, a, i);
  }

  lemma NextKeepsReleased(cfg: Config, s: State, a: Action, i: nat)
    requires |cfg.paths| == |s.ts| && Enabled(cfg, s, a) && i < |s.ts| && Released(s.ts[i])
    ensures Released(Next(cfg, s, a).ts[i])
  {
    match a
    case Test(m, j) => TestKeepsReleased(cfg, s, m, j, i);
    case Leave(m, j, w) =>
      LeaveKeepsReleased(s, m, j, i);
      WakeKeepsReleased(GiveBack(s, m, j).ts, m, w, i);
    case Spurious(m, w) => WakeKeepsReleased(s.ts, m, w, i);
    case ProxyStep(j, junk) => assert j != i;
    case CacheStep(j, k, junk) => CacheLeavesProxy(cfg, s, j, k, junk);
    case Accept(j, junk) =>
    case Get(j, fd) =>
  }

  lemma TestKeepsReleased(cfg: Config, s: State, m: Which, j: nat, i: nat)
    requires CanTest(s, m, j) && i < |s.ts| && Released(s.ts[i])
    ensures Released(AfterTest(cfg, s, m, j).ts[i])
  {
    match m
    case Th => assert j != i;
    case Pool => assert j != i;
    case Workers =>
  }

  lemma LeaveKeepsReleased(s: State, m: Which, j: nat, i: nat)
    requires CanLeave(s, m, j) && i < |s.ts| && Released(s.ts[i])
    ensures Released(GiveBack(s, m, j).ts[i])
  {
  }

  lemma WakeKeepsReleased(ts: seq<Transfer>, m: Which, w: nat, i: nat)
    requires i < |ts| && Released(ts[i])
    ensures Released(Wake(m, ts, w)[i])
  {
  }

  lemma CacheLeavesProxy(cfg: Config, s: State, i: nat, k: nat, junk: string)
    requires CanCache(cfg, s, i, k)
    ensures AfterCache(cfg, s, i, k, junk).ts[i].p == s.ts[i].p
  {
    var t := s.ts[i];
    CacheLocalLeavesProxy(cfg, t, SegAt(s.segs, t.c.seg), OffAt(s.offs, t.c.fd), k,
                          ParseRequest(t.c.buffer), HeardSegment(t, junk));
  }

  lemma CacheLocalLeavesProxy(cfg: Config, t: Transfer, g: Seg, off: nat, k: nat,
                              key: Option<string>, info: Option<(int, int)>)
    requires CacheReady(cfg, t, g, off, k)
    ensures CacheLocal(cfg, t, g, off, k, key, info).t.p == t.p
  {
  }

  /** From its release on, whatever else happens in the run, the cache thread of that transfer
      never again waits for the segment or writes into it; not even one that is still between
      `sem_post` and `bytes_read += read_len` when the proxy thread lets go. */
  lemma {:induction false} ReleasedForever(
      cfg: Config, states: seq<State>, actions: seq<Action>, n: nat, later: nat, i: nat)
    requires Sane(cfg) && Run(cfg, states, actions) && n <= later <= |actions|
    requires i < |cfg.paths| && i < |states[n].ts| && Released(states[n].ts[i])
    ensures i < |states[later].ts| && Released(states[later].ts[i])
    ensures !Touching(states[later].ts[i].c.pc)
    decreases later
  {
    if later > n {
      ReleasedForever(cfg, states, actions, n, later - 1, i);
      StepKeepsReleased(cfg, states[later - 1], actions[later - 1], states[later - 1 + 1], i);
    }
    RunInv(cfg, states, actions, later);
    ReleasedIsAway(cfg, states[later], i);
  }

  lemma ReleasedIsAway(cfg: Config, s: State, i: nat)
    requires Core(cfg, s) && i < |s.ts| && Released(s.ts[i])
    ensures !Touching(s.ts[i].c.pc)
  {
    assert ThreadInv(cfg, s, i);
  }

  // --- Resource counts ------------------------------------------------------------------

  /** Each counter is the number of threads inside its region and stays within its bound, and
      while anybody sleeps, the units in use and the woken threads fill the capacity. */
  lemma Regions(cfg: Config, s: State, m: Which)
    requires Sane(cfg) && Reachable(cfg, s)
    ensures var r := Mon(cfg, s, m);
      && 0 <= r.used == Monitor.Count(r.ph, Monitor.Inside) <= r.cap
      && (Monitor.Asleep in r.ph ==> r.used + Monitor.Count(r.ph, Monitor.Woken) >= r.cap)
  {
    ReachableInv(cfg, s);
    assert Monitor.Inv(Mon(cfg, s, m));
  }

  ghost function Holders(s: State): set<nat> { set i: nat | i < |s.ts| && Holding(s.ts[i].p.pc) }

  /** The head of the status array counts the free segments: it is the sum of the rest, and
      together with the transfers that hold a segment it makes up all of them. */
  lemma PoolConservation(cfg: Config, s: State)
    requires Sane(cfg) && Reachable(cfg, s)
    ensures SegmentPool.Conserved(s.status)
    ensures s.status[0] + |Holders(s)| == cfg.nseg
  {
    ReachableInv(cfg, s);
    assert Monitor.Inv(Mon(cfg, s, Pool));
    HoldersInside(s);
  }

  lemma HoldersInside(s: State)
    ensures |Holders(s)| == Monitor.Count(Phases(Pool, s.ts), Monitor.Inside)
  {
    var ph := Phases(Pool, s.ts);
    CountPhase(ph, Monitor.Inside, |ph|);
    forall i: nat | i < |s.ts| ensures Holding(s.ts[i].p.pc) <==> ph[i] == Monitor.Inside {
      HoldingIsInside(s.ts[i]);
    }
    assert Holders(s) == PhaseBelow(ph, Monitor.Inside, |ph|);
    assert ph[..|ph|] == ph;
  }

  lemma HoldingIsInside(t: Transfer)
    ensures Holding(t.p.pc) <==> PhaseOf(Pool, t) == Monitor.Inside
  {
  }

  ghost function PhaseBelow(ph: seq<Monitor.Phase>, x: Monitor.Phase, n: nat): set<nat>
    requires n <= |ph|
  {
    set i: nat | i < n && ph[i] == x
  }

  lemma PhaseStep(ph: seq<Monitor.Phase>, x: Monitor.Phase, n: nat)
    requires n < |ph|
    ensures |PhaseBelow(ph, x, n + 1)| == |PhaseBelow(ph, x, n)| + if ph[n] == x then 1 else 0
  {
    var before := PhaseBelow(ph, x, n);
    assert PhaseBelow(ph, x, n + 1) == if ph[n] == x then before + {n} else before;
  }

  lemma {:induction false} CountPhase(ph: seq<Monitor.Phase>, x: Monitor.Phase, n: nat)
    requires n <= |ph|
    ensures Monitor.Count(ph[..n], x) == |PhaseBelow(ph, x, n)|
  {
    if n > 0 {
      hide PhaseBelow;
      CountPhase(ph, x, n - 1);
      PhaseStep(ph, x, n - 1);
      assert ph[..n] == ph[..n - 1] + [ph[n - 1]];
      Monitor.CountSnoc(ph[..n - 1], ph[n - 1], x);
    }
  }

  /** The threads at certain points of their program. */
  ghost function Those(s: State, q: Transfer -> bool): set<nat> {
    set i: nat | i < |s.ts| && q(s.ts[i])
  }

  lemma CountThose(s: State, m: Which, x: Monitor.Phase, q: Transfer -> bool)
    requires forall t: Transfer :: q(t) <==> PhaseOf(m, t) == x
    ensures Monitor.Count(Phases(m, s.ts), x) == |Those(s, q)|
  {
    var ph := Phases(m, s.ts);
    CountPhase(ph, x, |ph|);
    assert ph[..|ph|] == ph;
    assert Those(s, q) == PhaseBelow(ph, x, |ph|);
  }

  /** Between the two critical sections of a proxy thread. */
  ghost predicate ProxyBusy(t: Transfer) {
    !t.p.pc.PTest? && !t.p.pc.PAsleep? && !t.p.pc.PWoken? && !t.p.pc.PHeadNF? && !t.p.pc.PDone?
  }

  /** Between the two critical sections of a cache thread. */
  ghost predicate CacheBusy(t: Transfer) {
    !t.c.pc.CNone? && !t.c.pc.CTest? && !t.c.pc.CAsleep? && !t.c.pc.CWoken? && !t.c.pc.CDone?
  }

  /** The proxy's workers: at most `nthread`, and nobody sleeps while a slot is free that no woken
      thread is on its way to. */
  lemma ProxySlots(cfg: Config, s: State)
    requires Sane(cfg) && Reachable(cfg, s)
    ensures s.workThreads == |Those(s, ProxyBusy)| <= cfg.nthread
    ensures (exists i :: 0 <= i < |s.ts| && s.ts[i].p.pc.PAsleep?) ==>
      s.workThreads + |Those(s, (t: Transfer) => t.p.pc.PWoken?)| >= cfg.nthread
  {
    ReachableInv(cfg, s);
    var r := Mon(cfg, s, Th);
    assert Monitor.Inv(r);
    CountThose(s, Th, Monitor.Inside, ProxyBusy);
    CountThose(s, Th, Monitor.Woken, (t: Transfer) => t.p.pc.PWoken?);
    assert forall i :: 0 <= i < |s.ts| && s.ts[i].p.pc.PAsleep? ==> r.ph[i] == Monitor.Asleep;
  }

  /** The daemon's workers: at most `nworkers`. */
  lemma CacheSlots(cfg: Config, s: State)
    requires Sane(cfg) && Reachable(cfg, s)
    ensures s.currentWorkers == |Those(s, CacheBusy)| <= cfg.nworkers
    ensures (exists i :: 0 <= i < |s.ts| && s.ts[i].c.pc.CAsleep?) ==>
      s.currentWorkers + |Those(s, (t: Transfer) => t.c.pc.CWoken?)| >= cfg.nworkers
  {
    ReachableInv(cfg, s);
    var r := Mon(cfg, s, Workers);
    assert Monitor.Inv(r);
    CountThose(s, Workers, Monitor.Inside, CacheBusy);
    CountThose(s, Workers, Monitor.Woken, (t: Transfer) => t.c.pc.CWoken?);
    assert forall i :: 0 <= i < |s.ts| && s.ts[i].c.pc.CAsleep? ==> r.ph[i] == Monitor.Asleep;
  }

  /** The segments: nobody sleeps for one while more are free than woken threads are on their way. */
  lemma SegmentSlots(cfg: Config, s: State)
    requires Sane(cfg) && Reachable(cfg, s)
    ensures |s.status| == cfg.nseg + 1 && 0 <= s.status[0] == cfg.nseg - |Holders(s)|
    ensures (exists i :: 0 <= i < |s.ts| && s.ts[i].p.pc.PSegAsleep?) ==>
      |Those(s, (t: Transfer) => t.p.pc.PSegWoken?)| >= s.status[0]
  {
    ReachableInv(cfg, s);
    PoolConservation(cfg, s);
    var r := Mon(cfg, s, Pool);
    assert Monitor.Inv(r);
    CountThose(s, Pool, Monitor.Woken, (t: Transfer) => t.p.pc.PSegWoken?);
    assert forall i :: 0 <= i < |s.ts| && s.ts[i].p.pc.PSegAsleep? ==> r.ph[i] == Monitor.Asleep;
  }
}
