/** Every step of the protocol keeps what its invariant says about threads, segments and
    descriptors (`Core`). A step moves one transfer; the frame lemmas carry the rest over. */
module ProtocolSteps {
  import opened Wrappers
  import Monitor
  import SegmentPool
  import opened Wire
  import opened Protocol
  import opened ProtocolInv

  // --- Everything a step of thread i leaves alone ---------------------------------------

  ghost predicate OnlyThread(s: State, s': State, i: nat) {
    && |s'.ts| == |s.ts| && i < |s.ts| && |s'.segs| == |s.segs| && |s'.status| == |s.status|
    && (forall j: nat :: j < |s.ts| && j != i ==> s'.ts[j] == s.ts[j])
  }

  /** A segment that thread `i` holds neither before nor after the step is as it was. */
  ghost predicate SameSegment(s: State, s': State, i: nat, k: nat)
    requires OnlyThread(s, s', i)
  {
    || (Holding(s.ts[i].p.pc) && s.ts[i].p.seg == k)
    || (Holding(s'.ts[i].p.pc) && s'.ts[i].p.seg == k)
    || (SegAt(s'.segs, k) == SegAt(s.segs, k)
        && (k + 1 < |s.status| ==> s'.status[k + 1] == s.status[k + 1]))
  }

  ghost predicate SameOffset(s: State, s': State, i: nat, fd: nat)
    requires OnlyThread(s, s', i)
  {
    (LiveFd(s.ts[i]) && s.ts[i].c.fd == fd) || OffAt(s'.offs, fd) == OffAt(s.offs, fd)
  }

  ghost predicate SameElsewhere(cfg: Config, s: State, s': State, i: nat) {
    && OnlyThread(s, s', i)
    && (forall k: nat :: k < cfg.nseg ==> SameSegment(s, s', i, k))
    && (forall fd: nat :: SameOffset(s, s', i, fd))
  }

  lemma CoreApart(cfg: Config, s: State, i: nat, j: nat)
    requires Core(cfg, s) && i < |s.ts| && j < |s.ts| && i != j
    ensures Apart(cfg, i, j, s.ts[i], s.ts[j])
  {
    assert i < j ==> Apart(cfg, i, j, s.ts[i], s.ts[j]);
    assert j < i ==> Apart(cfg, j, i, s.ts[j], s.ts[i]);
  }

  lemma FrameThread(cfg: Config, s: State, s': State, i: nat, j: nat)
    requires |s.ts| == |cfg.paths| && |s.segs| == cfg.nseg && SameElsewhere(cfg, s, s', i)
    requires j < |s.ts| && j != i && ThreadInv(cfg, s, j)
    requires Apart(cfg, i, j, s.ts[i], s.ts[j]) && Apart(cfg, i, j, s'.ts[i], s.ts[j])
    ensures ThreadInv(cfg, s', j)
  {
    var t := s.ts[j];
    assert SameOffset(s, s', i, t.c.fd);
    assert Exact(cfg, j) && LiveFd(t) ==> OffAt(s'.offs, t.c.fd) == OffAt(s.offs, t.c.fd);
    if Holding(t.p.pc) {
      assert SameSegment(s, s', i, t.p.seg);
    }
  }

  lemma FrameFree(cfg: Config, s: State, s': State, i: nat, k: nat)
    requires SameElsewhere(cfg, s, s', i) && |s.ts| == |cfg.paths| && k < cfg.nseg && FreeInv(cfg, s, k)
    requires ThreadInv(cfg, s', i)
    requires Holding(s.ts[i].p.pc) ==> FreeInv(cfg, s', s.ts[i].p.seg)
    ensures FreeInv(cfg, s', k)
  {
    assert SameSegment(s, s', i, k);
    if HeldBy(s'.ts, i, k) {
      assert ThreadInv(cfg, s', i);
    } else if k + 1 < |s.status| && s.status[k + 1] != 1 && !HeldBy(s.ts, i, k) {
      var j: nat :| HeldBy(s.ts, j, k);
      assert HeldBy(s'.ts, j, k);
    }
  }

  /** The frame: it is enough to look at the thread that moved. */
  lemma Frame(cfg: Config, s: State, s': State, i: nat)
    requires Core(cfg, s) && SameElsewhere(cfg, s, s', i)
    requires ThreadInv(cfg, s', i)
    requires forall j: nat :: j < |s.ts| && j != i ==> Apart(cfg, i, j, s'.ts[i], s.ts[j])
    requires Holding(s.ts[i].p.pc) ==> FreeInv(cfg, s', s.ts[i].p.seg)
    ensures Core(cfg, s')
  {
    forall j: nat | j < |s'.ts| ensures ThreadInv(cfg, s', j) {
      if j != i {
        CoreApart(cfg, s, i, j);
        FrameThread(cfg, s, s', i, j);
      }
    }
    forall j: nat, k: nat | j < k < |s'.ts| ensures Apart(cfg, j, k, s'.ts[j], s'.ts[k]) {
      if j != i && k != i {
        CoreApart(cfg, s, j, k);
      }
    }
    forall k: nat | k < cfg.nseg ensures FreeInv(cfg, s', k) {
      FrameFree(cfg, s, s', i, k);
    }
  }

  /** A step that neither takes nor returns a segment or a descriptor. */
  ghost predicate KeepsHold(t: Transfer, t': Transfer) {
    && Holding(t'.p.pc) == Holding(t.p.pc) && t'.p.seg == t.p.seg
    && (LiveFd(t') ==> LiveFd(t) && t'.c.fd == t.c.fd)
  }

  lemma FrameLocal(cfg: Config, s: State, i: nat, t': Transfer, segs: seq<Seg>, offs: map<nat, nat>)
    requires Core(cfg, s) && i < |s.ts| && KeepsHold(s.ts[i], t') && |segs| == |s.segs|
    requires SameElsewhere(cfg, s, s.(ts := s.ts[i := t'], segs := segs, offs := offs), i)
    requires LocalInv(cfg, i, t', SegAt(segs, t'.p.seg), OffAt(offs, t'.c.fd)) && BufferInv(cfg, i, t'.c)
    ensures Core(cfg, s.(ts := s.ts[i := t'], segs := segs, offs := offs))
  {
    var s' := s.(ts := s.ts[i := t'], segs := segs, offs := offs);
    assert ThreadInv(cfg, s, i);
    assert ThreadInv(cfg, s', i);
    forall j: nat | j < |s.ts| && j != i ensures Apart(cfg, i, j, t', s.ts[j]) {
      CoreApart(cfg, s, i, j);
    }
    assert Holding(t'.p.pc) ==> HeldBy(s'.ts, i, t'.p.seg);
    Frame(cfg, s, s', i);
  }

  // --- Steps of one transfer ------------------------------------------------------------

  lemma ProxyStepCore(cfg: Config, s: State, i: nat, junk: string)
    requires Core(cfg, s) && CanProxy(s, i)
    ensures Core(cfg, AfterProxy(cfg, s, i, junk))
  {
    hide ProxyInv, CacheInv, ChannelInv, HandOff, ProxyLocal;
    var t := s.ts[i];
    var g := SegAt(s.segs, t.p.seg);
    var heard := HeardReply(t, junk);
    assert ThreadInv(cfg, s, i);
    if t.reply.Some? {
      ReplyRoundTrip(t.reply.value, junk);
    }
    ProxyLocalKeeps(cfg, i, t, g, OffAt(s.offs, t.c.fd), heard);
    var (t', g') := ProxyLocal(cfg, cfg.paths[i], t, g, heard);
    ProxyWriteBack(cfg, s, i, t', g');
  }

  lemma ProxyWriteBack(cfg: Config, s: State, i: nat, t': Transfer, g': Seg)
    requires Core(cfg, s) && i < |s.ts| && KeepsHold(s.ts[i], t') && t'.c == s.ts[i].c
    requires LocalInv(cfg, i, t', g', OffAt(s.offs, t'.c.fd))
    requires !Holding(s.ts[i].p.pc) ==> g' == SegAt(s.segs, s.ts[i].p.seg)
    ensures Core(cfg, s.(ts := s.ts[i := t'], segs := PutSeg(s.segs, s.ts[i].p.seg, g')))
  {
    assert ThreadInv(cfg, s, i);
    FrameLocal(cfg, s, i, t', PutSeg(s.segs, s.ts[i].p.seg, g'), s.offs);
  }

  ghost predicate MayWriteBack(cfg: Config, s: State, i: nat, l: Local)
    requires i < |s.ts| == |cfg.paths|
  {
    var t := s.ts[i];
    && KeepsHold(t, l.t) && BufferInv(cfg, i, l.t.c)
    && LocalInv(cfg, i, l.t, if Touching(t.c.pc) then l.g else SegAt(s.segs, t.p.seg), l.off)
    && (Touching(t.c.pc) ==> Holding(t.p.pc) && t.c.seg == t.p.seg)
    && (!Touching(t.c.pc) ==> l.g == SegAt(s.segs, t.c.seg))
    && (!LiveFd(t) ==> l.off == OffAt(s.offs, t.c.fd))
  }

  lemma CacheStepLocal(cfg: Config, s: State, i: nat, k: nat, junk: string) returns (l: Local)
    requires Sane(cfg) && |s.ts| == |cfg.paths| && CanCache(cfg, s, i, k) && ThreadInv(cfg, s, i)
    ensures MayWriteBack(cfg, s, i, l) && AfterCache(cfg, s, i, k, junk) == PutLocal(s, i, l)
  {
    var t := s.ts[i];
    var g, gp, off := SegAt(s.segs, t.c.seg), SegAt(s.segs, t.p.seg), OffAt(s.offs, t.c.fd);
    var info := HeardSegment(t, junk);
    if t.segMsg.Some? {
      SegmentRoundTrip(t.segMsg.value.0, t.segMsg.value.1, junk);
    }
    CacheLocalKeeps(cfg, i, t, g, gp, off, k, info);
    OnlyParseUsesKey(cfg, i, t, g, off, k, info, ParseRequest(t.c.buffer));
    l := CacheLocal(cfg, t, g, off, k, Some(cfg.paths[i]), info);
  }

  lemma CacheStepCore(cfg: Config, s: State, i: nat, k: nat, junk: string)
    requires Sane(cfg) && Core(cfg, s) && CanCache(cfg, s, i, k)
    ensures Core(cfg, AfterCache(cfg, s, i, k, junk))
  {
    assert ThreadInv(cfg, s, i);
    var l := CacheStepLocal(cfg, s, i, k, junk);
    CacheWriteBack(cfg, s, i, l);
  }

  lemma OnlyParseUsesKey(cfg: Config, i: nat, t: Transfer, g: Seg, off: nat, k: nat,
                         info: Option<(int, int)>, key: Option<string>)
    requires i < |cfg.paths| && CacheReady(cfg, t, g, off, k)
    requires t.c.pc.CParse? ==> key == Some(cfg.paths[i])
    ensures var l := CacheLocal(cfg, t, g, off, k, key, info);
      && l == CacheLocal(cfg, t, g, off, k, Some(cfg.paths[i]), info)
      && !Arriving(l.t.c.pc)
  {
  }

  /** Writing the outcome of a cache step back into the state. */
  lemma WriteBackElsewhere(cfg: Config, s: State, i: nat, l: Local)
    requires |s.ts| == |cfg.paths| && i < |s.ts| && MayWriteBack(cfg, s, i, l)
    ensures SameElsewhere(cfg, s, PutLocal(s, i, l), i)
  {
  }

  lemma CacheWriteBack(cfg: Config, s: State, i: nat, l: Local)
    requires Core(cfg, s) && i < |s.ts| && MayWriteBack(cfg, s, i, l)
    ensures Core(cfg, PutLocal(s, i, l))
  {
    var t := s.ts[i];
    assert ThreadInv(cfg, s, i);
    WriteBackElsewhere(cfg, s, i, l);
    FrameLocal(cfg, s, i, l.t, PutSeg(s.segs, t.c.seg, l.g),
               if l.off == OffAt(s.offs, t.c.fd) then s.offs else s.offs[t.c.fd := l.off]);
  }

  /** A step that changes nothing but the data of thread `i`. */
  lemma MoveCore(cfg: Config, s: State, i: nat, t': Transfer)
    requires Core(cfg, s) && i < |s.ts| && KeepsHold(s.ts[i], t') && BufferInv(cfg, i, t'.c)
    requires LocalInv(cfg, i, t', SegAt(s.segs, t'.p.seg), OffAt(s.offs, t'.c.fd))
    ensures Core(cfg, s.(ts := s.ts[i := t']))
  {
    FrameLocal(cfg, s, i, t', s.segs, s.offs);
  }

  /** A request does not reach the NUL behind it, so the copy stays inside the buffer, now and
      the next time. */
  lemma RequestFits(cfg: Config, i: nat, buffer: string)
    requires HasRoom(cfg, buffer) && i < |cfg.paths|
    ensures |PrintRequest(cfg.paths[i])| <= |buffer|
    ensures CopyOut(Overwrite(buffer, PrintRequest(cfg.paths[i]))).Some?
    ensures HasRoom(cfg, Overwrite(buffer, PrintRequest(cfg.paths[i])))
  {
    var j: nat :| RoomAt(cfg, buffer, j);
    var after := Overwrite(buffer, PrintRequest(cfg.paths[i]));
    assert after[j] == buffer[j];
    assert RoomAt(cfg, after, j);
    CopyStaysInside(after);
  }

  lemma AcceptRoom(cfg: Config, s: State, i: nat, junk: string)
    requires Sane(cfg) && Core(cfg, s) && HasRoom(cfg, s.buffer) && CanAccept(s, i)
    ensures var message := PrintRequest(cfg.paths[i]);
      && |message| <= |s.buffer| && CopyOut(Overwrite(s.buffer, message)).Some?
      && AfterAccept(s, i, junk) == s.(
        ts := s.ts[i := s.ts[i].(req := None, c := s.ts[i].c.(
                   pc := CTest, buffer := CopyOut(Overwrite(s.buffer, message)).value + junk))],
        buffer := Overwrite(s.buffer, message))
    ensures HasRoom(cfg, AfterAccept(s, i, junk).buffer)
  {
    assert ThreadInv(cfg, s, i);
    RequestFits(cfg, i, s.buffer);
  }

  lemma AcceptCore(cfg: Config, s: State, i: nat, junk: string)
    requires Sane(cfg) && Core(cfg, s) && HasRoom(cfg, s.buffer) && CanAccept(s, i)
    ensures Core(cfg, AfterAccept(s, i, junk))
  {
    hide HandOff, Whole, Exact;
    var s' := AfterAccept(s, i, junk);
    assert ThreadInv(cfg, s, i);
    AcceptRoom(cfg, s, i, junk);
    RequestRoundTrip(cfg.paths[i], s.buffer, junk);
    MoveCore(cfg, s, i, s'.ts[i]);
    CoreIgnoresCounters(cfg, s.(ts := s'.ts), s');
  }

  /** With one proxy slot, or one cache slot, nobody else reads while a thread opens its file. */
  lemma NobodyReads(cfg: Config, s: State, i: nat, j: nat)
    requires Inv(cfg, s) && i < |s.ts| && j < |s.ts| && i != j && s.ts[i].c.pc.CGet?
    requires cfg.nthread == 1 || cfg.nworkers == 1
    ensures !LiveFd(s.ts[j])
  {
    var m := if cfg.nthread == 1 then Th else Workers;
    var r := Mon(cfg, s, m);
    assert ThreadInv(cfg, s, i) && ThreadInv(cfg, s, j);
    assert Monitor.Inv(r);
    if LiveFd(s.ts[j]) {
      assert r.ph[i] == r.ph[j] == Monitor.Inside;
      Monitor.CountTwo(r.ph, i, j, Monitor.Inside);
    }
  }

  /** The descriptor that a transfer is given is read by another one only if both ask for the
      same file, and have neither descriptors of their own nor a single slot. */
  lemma GetShares(cfg: Config, s: State, i: nat, j: nat, fd: nat)
    requires Sane(cfg) && Inv(cfg, s) && CanGet(cfg, s, i, fd) && s.ts[i].c.key in cfg.files
    requires j < |s.ts| && j != i && LiveFd(s.ts[j]) && s.ts[j].c.fd == fd
    ensures !Exact(cfg, i) && !Exact(cfg, j)
  {
    assert ThreadInv(cfg, s, i) && ThreadInv(cfg, s, j);
    if cfg.descriptors.PerFile? && Alone(cfg) {
      NobodyReads(cfg, s, i, j);
    }
    assert FdOf(cfg, cfg.paths[i]) == FdOf(cfg, cfg.paths[j]);
  }

  lemma GetThread(cfg: Config, s: State, i: nat, fd: nat)
    requires |s.ts| == |cfg.paths| && CanGet(cfg, s, i, fd) && ThreadInv(cfg, s, i)
    ensures ThreadInv(cfg, AfterGet(cfg, s, i, fd), i)
    ensures LiveFd(AfterGet(cfg, s, i, fd).ts[i]) ==> s.ts[i].c.key in cfg.files
  {
  }

  lemma GetCore(cfg: Config, s: State, i: nat, fd: nat)
    requires Sane(cfg) && Inv(cfg, s) && CanGet(cfg, s, i, fd)
    ensures Core(cfg, AfterGet(cfg, s, i, fd))
  {
    var s' := AfterGet(cfg, s, i, fd);
    assert ThreadInv(cfg, s, i);
    GetThread(cfg, s, i, fd);
    forall j: nat | j < |s.ts| && j != i ensures Apart(cfg, i, j, s'.ts[i], s.ts[j]) {
      CoreApart(cfg, s, i, j);
      if LiveFd(s'.ts[i]) && LiveFd(s.ts[j]) && s.ts[j].c.fd == fd {
        GetShares(cfg, s, i, j, fd);
      }
    }
    Frame(cfg, s, s', i);
  }

  // --- Steps through the regions --------------------------------------------------------

  /** Falling asleep and waking up change nothing that the transfer relies on. */
  ghost predicate Harmless(cfg: Config, i: nat, t: Transfer, t': Transfer, g: Seg, off: nat)
    requires i < |cfg.paths|
  {
    LocalInv(cfg, i, t', g, off) && KeepsHold(t, t') && BufferInv(cfg, i, t'.c)
  }

  lemma SleptProxy(cfg: Config, i: nat, t: Transfer, g: Seg, off: nat, m: Which)
    requires i < |cfg.paths| && LocalInv(cfg, i, t, g, off) && BufferInv(cfg, i, t.c) && AtTest(m, t)
    requires m != Workers
    ensures Harmless(cfg, i, t, Slept(m, t), g, off)
  {
  }

  lemma SleptCache(cfg: Config, i: nat, t: Transfer, g: Seg, off: nat)
    requires i < |cfg.paths| && LocalInv(cfg, i, t, g, off) && BufferInv(cfg, i, t.c) && AtTest(Workers, t)
    ensures Harmless(cfg, i, t, Slept(Workers, t), g, off)
  {
  }

  lemma SleptLocal(cfg: Config, i: nat, t: Transfer, g: Seg, off: nat, m: Which)
    requires i < |cfg.paths| && LocalInv(cfg, i, t, g, off) && BufferInv(cfg, i, t.c) && AtTest(m, t)
    ensures Harmless(cfg, i, t, Slept(m, t), g, off)
  {
    if m == Workers {
      SleptCache(cfg, i, t, g, off);
    } else {
      SleptProxy(cfg, i, t, g, off, m);
    }
  }

  lemma AwakeProxy(cfg: Config, i: nat, t: Transfer, g: Seg, off: nat, m: Which)
    requires i < |cfg.paths| && LocalInv(cfg, i, t, g, off) && BufferInv(cfg, i, t.c)
    requires PhaseOf(m, t) == Monitor.Asleep && m != Workers
    ensures Harmless(cfg, i, t, Awake(m, t), g, off)
  {
  }

  lemma AwakeCache(cfg: Config, i: nat, t: Transfer, g: Seg, off: nat)
    requires i < |cfg.paths| && LocalInv(cfg, i, t, g, off) && BufferInv(cfg, i, t.c)
    requires t.c.pc.CAsleep?
    ensures Harmless(cfg, i, t, Awake(Workers, t), g, off)
  {
  }

  lemma AwakeLocal(cfg: Config, i: nat, t: Transfer, g: Seg, off: nat, m: Which)
    requires i < |cfg.paths| && LocalInv(cfg, i, t, g, off) && BufferInv(cfg, i, t.c)
    requires PhaseOf(m, t) == Monitor.Asleep
    ensures Harmless(cfg, i, t, Awake(m, t), g, off)
  {
    if m == Workers {
      AwakeCache(cfg, i, t, g, off);
    } else {
      AwakeProxy(cfg, i, t, g, off, m);
    }
  }

  lemma SleptCore(cfg: Config, s: State, m: Which, i: nat)
    requires Core(cfg, s) && CanTest(s, m, i)
    ensures Core(cfg, s.(ts := s.ts[i := Slept(m, s.ts[i])]))
  {
    var t := s.ts[i];
    assert ThreadInv(cfg, s, i);
    SleptLocal(cfg, i, t, SegAt(s.segs, t.p.seg), OffAt(s.offs, t.c.fd), m);
    MoveCore(cfg, s, i, Slept(m, t));
  }

  lemma WakeCore(cfg: Config, s: State, m: Which, w: nat)
    requires Core(cfg, s)
    ensures Core(cfg, AfterWake(s, m, w))
  {
    if w < |s.ts| && PhaseOf(m, s.ts[w]) == Monitor.Asleep {
      var t := s.ts[w];
      assert ThreadInv(cfg, s, w);
      AwakeLocal(cfg, w, t, SegAt(s.segs, t.p.seg), OffAt(s.offs, t.c.fd), m);
      MoveCore(cfg, s, w, Awake(m, t));
    }
  }

  /** Entering and leaving the proxy's or the daemon's workers. */
  lemma AdmitProxy(cfg: Config, s: State, i: nat, g: Seg, off: nat)
    requires i < |s.ts| == |cfg.paths| && LocalInv(cfg, i, s.ts[i], g, off) && BufferInv(cfg, i, s.ts[i].c)
    requires AtTest(Th, s.ts[i])
    ensures Harmless(cfg, i, s.ts[i], Admit(s, Th, i).ts[i], g, off)
  {
  }

  lemma AdmitCache(cfg: Config, s: State, i: nat, g: Seg, off: nat)
    requires i < |s.ts| == |cfg.paths| && LocalInv(cfg, i, s.ts[i], g, off) && BufferInv(cfg, i, s.ts[i].c)
    requires AtTest(Workers, s.ts[i])
    ensures Harmless(cfg, i, s.ts[i], Admit(s, Workers, i).ts[i], g, off)
  {
  }

  lemma AdmitLocal(cfg: Config, s: State, m: Which, i: nat, g: Seg, off: nat)
    requires i < |s.ts| == |cfg.paths| && LocalInv(cfg, i, s.ts[i], g, off) && BufferInv(cfg, i, s.ts[i].c)
    requires AtTest(m, s.ts[i]) && m != Pool
    ensures Harmless(cfg, i, s.ts[i], Admit(s, m, i).ts[i], g, off)
  {
    if m == Th {
      AdmitProxy(cfg, s, i, g, off);
    } else {
      AdmitCache(cfg, s, i, g, off);
    }
  }

  lemma GiveBackProxy(cfg: Config, s: State, i: nat, g: Seg, off: nat)
    requires i < |s.ts| == |cfg.paths| && LocalInv(cfg, i, s.ts[i], g, off) && BufferInv(cfg, i, s.ts[i].c)
    requires AtLeave(Th, s.ts[i])
    ensures Harmless(cfg, i, s.ts[i], GiveBack(s, Th, i).ts[i], g, off)
  {
  }

  lemma GiveBackCache(cfg: Config, s: State, i: nat, g: Seg, off: nat)
    requires i < |s.ts| == |cfg.paths| && LocalInv(cfg, i, s.ts[i], g, off) && BufferInv(cfg, i, s.ts[i].c)
    requires AtLeave(Workers, s.ts[i])
    ensures Harmless(cfg, i, s.ts[i], GiveBack(s, Workers, i).ts[i], g, off)
  {
  }

  lemma GiveBackLocal(cfg: Config, s: State, m: Which, i: nat, g: Seg, off: nat)
    requires i < |s.ts| == |cfg.paths| && LocalInv(cfg, i, s.ts[i], g, off) && BufferInv(cfg, i, s.ts[i].c)
    requires AtLeave(m, s.ts[i]) && m != Pool
    ensures Harmless(cfg, i, s.ts[i], GiveBack(s, m, i).ts[i], g, off)
  {
    if m == Th {
      GiveBackProxy(cfg, s, i, g, off);
    } else {
      GiveBackCache(cfg, s, i, g, off);
    }
  }

  lemma AdmitWorkerCore(cfg: Config, s: State, m: Which, i: nat)
    requires Core(cfg, s) && CanTest(s, m, i) && m != Pool
    ensures Core(cfg, Admit(s, m, i))
  {
    assert ThreadInv(cfg, s, i);
    AdmitLocal(cfg, s, m, i, SegAt(s.segs, s.ts[i].p.seg), OffAt(s.offs, s.ts[i].c.fd));
    var s' := Admit(s, m, i);
    MoveCore(cfg, s, i, s'.ts[i]);
    CoreIgnoresCounters(cfg, s.(ts := s'.ts), s');
  }

  lemma GiveBackWorkerCore(cfg: Config, s: State, m: Which, i: nat)
    requires Core(cfg, s) && CanLeave(s, m, i) && m != Pool
    ensures Core(cfg, GiveBack(s, m, i))
  {
    assert ThreadInv(cfg, s, i);
    GiveBackLocal(cfg, s, m, i, SegAt(s.segs, s.ts[i].p.seg), OffAt(s.offs, s.ts[i].c.fd));
    var s' := GiveBack(s, m, i);
    MoveCore(cfg, s, i, s'.ts[i]);
    CoreIgnoresCounters(cfg, s.(ts := s'.ts), s');
  }

  lemma CoreIgnoresCounters(cfg: Config, s: State, s': State)
    requires Core(cfg, s) && s'.ts == s.ts && s'.segs == s.segs && s'.status == s.status && s'.offs == s.offs
    ensures Core(cfg, s')
  {
    forall i: nat | i < |s'.ts| ensures ThreadInv(cfg, s', i) {
      assert ThreadInv(cfg, s, i);
    }
    forall k: nat | k < cfg.nseg ensures FreeInv(cfg, s', k) {
      assert FreeInv(cfg, s, k);
    }
  }

  lemma AcquireThread(cfg: Config, s: State, i: nat, k: nat)
    requires |s.ts| == |cfg.paths| && CanTest(s, Pool, i) && ThreadInv(cfg, s, i) && s.status != []
    requires k == SegmentPool.Scan(s.status, 0) < cfg.nseg && FreshSeg(cfg, SegAt(s.segs, k))
    requires var status := SegmentPool.Take(s.status); k + 1 < |status| && status[k + 1] == 0
    ensures ThreadInv(cfg, Admit(s, Pool, i), i)
  {
  }

  /** Taking a segment: the one the scan finds is free, so nobody else holds it and it is as
      good as new. */
  lemma AcquireCore(cfg: Config, s: State, i: nat)
    requires Core(cfg, s) && CanTest(s, Pool, i)
    requires SegmentPool.Conserved(s.status) && s.status[0] >= 1
    ensures Core(cfg, Admit(s, Pool, i))
  {
    hide ProxyInv, CacheInv, ChannelInv;
    var s' := Admit(s, Pool, i);
    var k := SegmentPool.Scan(s.status, 0);
    SegmentPool.TakeConserved(s.status);
    assert ThreadInv(cfg, s, i) && FreeInv(cfg, s, k);
    AcquireThread(cfg, s, i, k);
    forall j: nat | j < |s.ts| && j != i ensures Apart(cfg, i, j, s'.ts[i], s.ts[j]) {
      assert ThreadInv(cfg, s, j);
      CoreApart(cfg, s, i, j);
    }
    Frame(cfg, s, s', i);
  }

  /** Returning a segment: whatever its cache thread still has to do, it will not touch it. */
  lemma ReleaseCore(cfg: Config, s: State, i: nat)
    requires Core(cfg, s) && CanLeave(s, Pool, i)
    ensures Core(cfg, GiveBack(s, Pool, i))
  {
    var s' := GiveBack(s, Pool, i);
    assert ThreadInv(cfg, s, i);
    assert ThreadInv(cfg, s', i);
    forall j: nat | j < |s.ts| && j != i ensures Apart(cfg, i, j, s'.ts[i], s.ts[j]) {
      CoreApart(cfg, s, i, j);
    }
    Frame(cfg, s, s', i);
  }
}
