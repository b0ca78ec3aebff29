/** A cache that keeps one descriptor per file. `read` uses the offset of the descriptor, so the
    `lseek` of a second transfer of the same file rewinds the first, and the bytes that one
    transfer reads are missing for the other. This module says exactly when that matters: for
    the bytes that the clients get, and for termination. */
module SharedDescriptor {
  import opened Wrappers
  import opened Segment
  import Monitor
  import SegmentPool
  import Text
  import opened Wire
  import opened Protocol
  import opened ProtocolResults
  import opened ProtocolTermination

  /** Two slots on both sides, and two requests for one file with something in it. */
  ghost predicate Setting(cfg: Config, i: nat, j: nat) {
    Sane(cfg) && !Alone(cfg) && SameFile(cfg, i, j) && Data(cfg, i) != []
  }

  // --- Single steps ---------------------------------------------------------------------

  /** What `read` returns when it fills the room whenever it can. */
  function FullRead(cfg: Config, len: nat, off: nat): int {
    var room := cfg.segsize - RESERVED;
    if off >= len then 0 else if len - off < room then len - off else room
  }

  ghost predicate IsFull(cfg: Config, s: State, a: Action) {
    a.CacheStep? && a.i < |s.ts| && s.ts[a.i].c.pc.CCopy? ==>
      a.k == FullRead(cfg, |Content(cfg, s.ts[a.i].c.key)|, OffAt(s.offs, s.ts[a.i].c.fd))
  }

  ghost predicate AllFull(cfg: Config, states: seq<State>, actions: seq<Action>)
    requires |states| == |actions| + 1
  {
    forall n :: 0 <= n < |actions| ==> IsFull(cfg, states[n], actions[n])
  }

  /** A run without spurious wake-ups, and with full reads only if `full` is set. */
  ghost predicate Quiet(cfg: Config, full: bool, states: seq<State>, actions: seq<Action>) {
    Run(cfg, states, actions) && SpuriousIn(actions) == 0 && (full ==> AllFull(cfg, states, actions))
  }

  /** Such a run leads to `s`. */
  ghost predicate Walked(cfg: Config, full: bool, s: State) {
    exists states, actions :: Quiet(cfg, full, states, actions) && states[|actions|] == s
  }

  /** A state on the way: transfer `i`, the first segment, and the offset of its file. */
  ghost predicate On(cfg: Config, full: bool, s: State, i: nat, t: Transfer, g: Seg, off: nat) {
    && Walked(cfg, full, s)
    && i < |s.ts| == |cfg.paths| && s.ts[i] == t
    && |s.segs| == cfg.nseg >= 1 && s.segs[0] == g && |g.mem| == cfg.segsize
    && OffAt(s.offs, FdOf(cfg, cfg.paths[i])) == off
    && Padded(cfg.paths[i], s.buffer)
  }

  /** The daemon's request buffer is clear behind the request for `path`. */
  ghost predicate Padded(path: string, buffer: string) {
    var m := |PrintRequest(path)|;
    m < |buffer| == MAX_REQUEST && buffer[m..] == Text.Zeros(MAX_REQUEST - m)
  }

  lemma PaddedCopy(path: string, buffer: string)
    requires Padded(path, buffer) && Plain(path)
    ensures CopyOut(Overwrite(buffer, PrintRequest(path))) == Some(PrintRequest(path))
    ensures Padded(path, Overwrite(buffer, PrintRequest(path)))
  {
    var m := PrintRequest(path);
    assert Text.All(m, Text.NotNul);
    Text.CStrZeros(m, MAX_REQUEST - |m|);
    Text.FullString(m);
    assert Text.CStr(m) == m;
  }

  ghost predicate Others(s: State, s': State, i: nat) {
    |s'.ts| == |s.ts| && forall k :: 0 <= k < |s.ts| && k != i ==> s'.ts[k] == s.ts[k]
  }

  ghost predicate Steady(s: State, s': State, i: nat) {
    && Others(s, s', i) && s'.status == s.status
    && s'.workThreads == s.workThreads && s'.currentWorkers == s.currentWorkers
  }

  lemma Do(cfg: Config, full: bool, s: State, a: Action) returns (s': State)
    requires Walked(cfg, full, s) && |s.ts| == |cfg.paths| && Enabled(cfg, s, a) && !a.Spurious?
    requires full ==> IsFull(cfg, s, a)
    ensures s' == Next(cfg, s, a) && Walked(cfg, full, s')
  {
    s' := Next(cfg, s, a);
    var states, actions :| Quiet(cfg, full, states, actions) && states[|actions|] == s;
    ExtendRun(cfg, states, actions, a);
    var states', actions' := states + [s'], actions + [a];
    assert actions'[..|actions|] == actions;
    if full {
      forall n | 0 <= n < |actions'| ensures IsFull(cfg, states'[n], actions'[n]) {
        assert n < |actions| ==> IsFull(cfg, states[n], actions[n]);
      }
    }
    assert Quiet(cfg, full, states', actions') && states'[|actions'|] == s';
  }

  /** A step of the proxy thread, which holds the first segment or none. */
  lemma DoProxyHearing(cfg: Config, full: bool, s: State, i: nat, t: Transfer, g: Seg, off: nat, t': Transfer, g': Seg)
    returns (s': State)
    requires On(cfg, full, s, i, t, g, off) && t.p.seg == 0 && ProxyReady(t, g) && |g'.mem| == cfg.segsize
    requires ProxyLocal(cfg, cfg.paths[i], t, g, HeardReply(t, "")) == (t', g')
    ensures On(cfg, full, s', i, t', g', off) && Steady(s, s', i)
  {
    s' := Do(cfg, full, s, ProxyStep(i, ""));
  }

  lemma ProxyQuiet(cfg: Config, path: string, t: Transfer, g: Seg, heard: Option<Reply>)
    requires ProxyReady(t, g) && !t.p.pc.PReceive?
    ensures ProxyLocal(cfg, path, t, g, heard) == ProxyLocal(cfg, path, t, g, None)
  {
  }

  /** The same for a step that receives nothing. */
  lemma DoProxy(cfg: Config, full: bool, s: State, i: nat, t: Transfer, g: Seg, off: nat, t': Transfer, g': Seg)
    returns (s': State)
    requires On(cfg, full, s, i, t, g, off) && t.p.seg == 0 && ProxyReady(t, g) && |g'.mem| == cfg.segsize
    requires !t.p.pc.PReceive? && ProxyLocal(cfg, cfg.paths[i], t, g, None) == (t', g')
    ensures On(cfg, full, s', i, t', g', off) && Steady(s, s', i)
  {
    ProxyQuiet(cfg, cfg.paths[i], t, g, HeardReply(t, ""));
    s' := DoProxyHearing(cfg, full, s, i, t, g, off, t', g');
  }

  /** A step of the cache thread, which uses the descriptor of its file and the first segment. */
  lemma DoCacheHearing(cfg: Config, full: bool, s: State, i: nat, t: Transfer, g: Seg, off: nat, k: nat, l: Local)
    returns (s': State)
    requires On(cfg, full, s, i, t, g, off) && t.c.seg == 0 && t.c.fd == FdOf(cfg, cfg.paths[i])
    requires CacheReady(cfg, t, g, off, k) && |l.g.mem| == cfg.segsize
    requires CacheLocal(cfg, t, g, off, k, ParseRequest(t.c.buffer), HeardSegment(t, "")) == l
    requires full && t.c.pc.CCopy? ==> k == FullRead(cfg, |Content(cfg, t.c.key)|, off)
    ensures On(cfg, full, s', i, l.t, l.g, l.off) && Steady(s, s', i)
  {
    s' := Do(cfg, full, s, CacheStep(i, k, ""));
  }

  lemma CacheQuiet(cfg: Config, t: Transfer, g: Seg, off: nat, k: nat, key: Option<string>, info: Option<(int, int)>)
    requires CacheReady(cfg, t, g, off, k) && !t.c.pc.CParse? && !t.c.pc.CReadSeg?
    ensures CacheLocal(cfg, t, g, off, k, key, info) == CacheLocal(cfg, t, g, off, k, None, None)
  {
  }

  lemma DoCache(cfg: Config, full: bool, s: State, i: nat, t: Transfer, g: Seg, off: nat, k: nat, l: Local)
    returns (s': State)
    requires On(cfg, full, s, i, t, g, off) && t.c.seg == 0 && t.c.fd == FdOf(cfg, cfg.paths[i])
    requires CacheReady(cfg, t, g, off, k) && |l.g.mem| == cfg.segsize
    requires !t.c.pc.CParse? && !t.c.pc.CReadSeg? && CacheLocal(cfg, t, g, off, k, None, None) == l
    requires full && t.c.pc.CCopy? ==> k == FullRead(cfg, |Content(cfg, t.c.key)|, off)
    ensures On(cfg, full, s', i, l.t, l.g, l.off) && Steady(s, s', i)
  {
    CacheQuiet(cfg, t, g, off, k, ParseRequest(t.c.buffer), HeardSegment(t, ""));
    s' := DoCacheHearing(cfg, full, s, i, t, g, off, k, l);
  }

  /** Admission to one of the two worker regions. */
  lemma Enter(cfg: Config, full: bool, s: State, i: nat, m: Which, t: Transfer, g: Seg, off: nat, t': Transfer)
    returns (s': State)
    requires On(cfg, full, s, i, t, g, off) && m != Pool
    requires CanTest(s, m, i) && !Full(cfg, s, m) && Admit(s, m, i).ts[i] == t'
    ensures On(cfg, full, s', i, t', g, off) && Others(s, s', i) && s'.status == s.status
    ensures s'.workThreads == s.workThreads + (if m == Th then 1 else 0)
    ensures s'.currentWorkers == s.currentWorkers + (if m == Workers then 1 else 0)
  {
    s' := Do(cfg, full, s, Test(m, i));
  }

  // --- Opening the file -----------------------------------------------------------------

  /** Up to the request. */
  ghost function Asking(cfg: Config, i: nat): Transfer
    requires i < |cfg.paths|
  {
    var t := NewTransfer();
    t.(p := t.p.(pc := PReceive), req := Some(cfg.paths[i]))
  }

  /** The cache thread has been admitted. */
  ghost function Arrived(cfg: Config, i: nat): Transfer
    requires i < |cfg.paths|
  {
    var t := Asking(cfg, i);
    t.(req := None, c := t.c.(pc := CParse, buffer := PrintRequest(cfg.paths[i])))
  }

  /** The cache thread has parsed the request. */
  ghost function Parsed(cfg: Config, i: nat): Transfer
    requires i < |cfg.paths|
  {
    var t := Arrived(cfg, i);
    t.(c := t.c.(pc := CGet, key := cfg.paths[i]))
  }

  /** The cache thread has its descriptor and has set it to the start of the file. */
  ghost function Sought(cfg: Config, i: nat): Transfer
    requires i < |cfg.paths|
  {
    var t := Parsed(cfg, i);
    t.(c := t.c.(pc := CReplyOk, fd := FdOf(cfg, cfg.paths[i]), filelen := |Data(cfg, i)|))
  }

  lemma Ask(cfg: Config, full: bool, s: State, i: nat, g: Seg, off: nat) returns (s': State)
    requires On(cfg, full, s, i, NewTransfer(), g, off) && s.workThreads < cfg.nthread
    ensures i < |cfg.paths| && On(cfg, full, s', i, Asking(cfg, i), g, off) && Others(s, s', i) && s'.status == s.status
    ensures s'.workThreads == s.workThreads + 1 && s'.currentWorkers == s.currentWorkers
  {
    var t := NewTransfer();
    var t1 := t.(p := t.p.(pc := PRequest));
    var s1 := Enter(cfg, full, s, i, Th, t, g, off, t1);
    s' := DoProxy(cfg, full, s1, i, t1, g, off, Asking(cfg, i), g);
  }

  lemma Arrive(cfg: Config, full: bool, s: State, i: nat, g: Seg, off: nat) returns (s': State)
    requires i < |cfg.paths| && On(cfg, full, s, i, Asking(cfg, i), g, off) && s.currentWorkers < cfg.nworkers
    requires Plain(cfg.paths[i])
    ensures On(cfg, full, s', i, Arrived(cfg, i), g, off) && Others(s, s', i) && s'.status == s.status
    ensures s'.workThreads == s.workThreads && s'.currentWorkers == s.currentWorkers + 1
  {
    var t := Arrived(cfg, i);
    var t1 := t.(c := t.c.(pc := CTest));
    PaddedCopy(cfg.paths[i], s.buffer);
    assert PrintRequest(cfg.paths[i]) + "" == PrintRequest(cfg.paths[i]);
    var s1 := Do(cfg, full, s, Accept(i, ""));
    assert s1.ts[i] == t1;
    s' := Enter(cfg, full, s1, i, Workers, t1, g, off, t);
  }

  lemma PrintedParses(path: string)
    requires Plain(path)
    ensures ParseRequest(PrintRequest(path)) == Some(path)
  {
    Text.ScanWordOf(path, CRLF2);
  }

  lemma Parse(cfg: Config, full: bool, s: State, i: nat, g: Seg, off: nat) returns (s': State)
    requires i < |cfg.paths| && On(cfg, full, s, i, Arrived(cfg, i), g, off) && Plain(cfg.paths[i])
    ensures On(cfg, full, s', i, Parsed(cfg, i), g, off) && Steady(s, s', i)
  {
    PrintedParses(cfg.paths[i]);
    s' := Do(cfg, full, s, CacheStep(i, 0, ""));
  }

  /** The cache thread has been given the descriptor of its file. */
  ghost function Given(cfg: Config, i: nat): Transfer
    requires i < |cfg.paths|
  {
    var t := Parsed(cfg, i);
    t.(c := t.c.(pc := CSeek, fd := FdOf(cfg, cfg.paths[i])))
  }

  lemma BeGiven(cfg: Config, full: bool, s: State, i: nat, g: Seg, off: nat) returns (s': State)
    requires i < |cfg.paths| && On(cfg, full, s, i, Parsed(cfg, i), g, off) && cfg.descriptors.PerFile?
    requires cfg.paths[i] in cfg.files
    ensures On(cfg, full, s', i, Given(cfg, i), g, off) && Steady(s, s', i)
  {
    s' := Do(cfg, full, s, Get(i, FdOf(cfg, cfg.paths[i])));
    assert s'.ts[i] == Given(cfg, i);
  }

  lemma Seek(cfg: Config, full: bool, s: State, i: nat, g: Seg, off: nat) returns (s': State)
    requires i < |cfg.paths| && On(cfg, full, s, i, Given(cfg, i), g, off) && |Data(cfg, i)| < Text.INT_LIMIT
    ensures On(cfg, full, s', i, Sought(cfg, i), g, 0) && Steady(s, s', i)
  {
    s' := DoCache(cfg, full, s, i, Given(cfg, i), g, off, 0, Local(Sought(cfg, i), g, 0));
  }

  /** Everything up to the `lseek`. */
  lemma Open(cfg: Config, full: bool, s: State, i: nat, g: Seg, off: nat) returns (s': State)
    requires On(cfg, full, s, i, NewTransfer(), g, off) && Sane(cfg) && cfg.descriptors.PerFile?
    requires s.workThreads < cfg.nthread && s.currentWorkers < cfg.nworkers && cfg.paths[i] in cfg.files
    ensures On(cfg, full, s', i, Sought(cfg, i), g, 0) && Others(s, s', i) && s'.status == s.status
    ensures s'.workThreads == s.workThreads + 1 && s'.currentWorkers == s.currentWorkers + 1
  {
    var s1 := Ask(cfg, full, s, i, g, off);
    var s2 := Arrive(cfg, full, s1, i, g, off);
    var s3 := Parse(cfg, full, s2, i, g, off);
    var s4 := BeGiven(cfg, full, s3, i, g, off);
    s' := Seek(cfg, full, s4, i, g, off);
  }

  // --- Getting a segment ----------------------------------------------------------------

  /** The reply has arrived. */
  ghost function Heard(cfg: Config, i: nat): Transfer
    requires i < |cfg.paths|
  {
    var t := Sought(cfg, i);
    t.(p := t.p.(pc := PSegTest, filelen := |Data(cfg, i)|), c := t.c.(pc := CReadSeg))
  }

  /** The first segment is taken, and header and segment message are sent. */
  ghost function Told(cfg: Config, i: nat): Transfer
    requires i < |cfg.paths|
  {
    var t := Heard(cfg, i);
    t.(p := t.p.(pc := PLoop, head := OkHead(|Data(cfg, i)|)), segMsg := Some((0, cfg.segsize)))
  }

  /** Both threads at the head of their loops, after `got` bytes in `rounds` rounds. */
  ghost function Heads(cfg: Config, i: nat, got: nat, rounds: nat, readLen: nat, sent: seq<Byte>): Transfer
    requires i < |cfg.paths|
  {
    var t := Told(cfg, i);
    t.(p := t.p.(bytesSend := got, rounds := rounds, sendLen := readLen, sent := sent),
       c := t.c.(pc := CLoop, segsize := cfg.segsize, bytesRead := got, rounds := rounds, readLen := readLen),
       segMsg := None)
  }

  lemma Hear(cfg: Config, full: bool, s: State, i: nat, g: Seg, off: nat) returns (s': State)
    requires i < |cfg.paths| && On(cfg, full, s, i, Sought(cfg, i), g, off)
    ensures On(cfg, full, s', i, Heard(cfg, i), g, off) && Steady(s, s', i)
  {
    var t := Sought(cfg, i);
    var reply := Found(|Data(cfg, i)|);
    var t1 := t.(c := t.c.(pc := CReadSeg), reply := Some(reply));
    var s1 := DoCache(cfg, full, s, i, t, g, off, 0, Local(t1, g, off));
    ReplyRoundTrip(reply, "");
    s' := DoProxyHearing(cfg, full, s1, i, t1, g, off, Heard(cfg, i), g);
  }

  lemma Take(cfg: Config, full: bool, s: State, i: nat, t: Transfer, g: Seg, off: nat) returns (s': State)
    requires On(cfg, full, s, i, t, g, off) && t.p.pc.PSegTest? && t.p.seg == 0
    requires s.status == SegmentPool.Initial(cfg.nseg)
    ensures On(cfg, full, s', i, t.(p := t.p.(pc := PHead)), g, off) && Others(s, s', i)
    ensures s'.status == SegmentPool.Take(SegmentPool.Initial(cfg.nseg))
    ensures s'.workThreads == s.workThreads && s'.currentWorkers == s.currentWorkers
  {
    assert SegmentPool.Scan(s.status, 0) == 0;
    s' := Do(cfg, full, s, Test(Pool, i));
  }

  lemma Tell(cfg: Config, full: bool, s: State, i: nat, t: Transfer, g: Seg, off: nat) returns (s': State)
    requires On(cfg, full, s, i, t, g, off) && t == Heard(cfg, i).(p := Heard(cfg, i).p.(pc := PHead))
    ensures On(cfg, full, s', i, Told(cfg, i), g, off) && Steady(s, s', i)
  {
    var t1 := t.(p := t.p.(pc := PSendSeg, head := OkHead(|Data(cfg, i)|)));
    var s1 := DoProxy(cfg, full, s, i, t, g, off, t1, g);
    s' := DoProxy(cfg, full, s1, i, t1, g, off, Told(cfg, i), g);
  }

  lemma Join(cfg: Config, full: bool, s: State, i: nat, g: Seg, off: nat) returns (s': State)
    requires i < |cfg.paths| && On(cfg, full, s, i, Told(cfg, i), g, off) && cfg.segsize < Text.INT_LIMIT
    ensures On(cfg, full, s', i, Heads(cfg, i, 0, 0, 0, []), g, off) && Steady(s, s', i)
  {
    SegmentRoundTrip(0, cfg.segsize, "");
    s' := DoCacheHearing(cfg, full, s, i, Told(cfg, i), g, off, 0, Local(Heads(cfg, i, 0, 0, 0, []), g, off));
  }

  /** Everything from the reply to the two loops. */
  lemma Begin(cfg: Config, full: bool, s: State, i: nat, g: Seg, off: nat) returns (s': State)
    requires i < |cfg.paths| && On(cfg, full, s, i, Sought(cfg, i), g, off)
    requires s.status == SegmentPool.Initial(cfg.nseg) && cfg.segsize < Text.INT_LIMIT
    ensures On(cfg, full, s', i, Heads(cfg, i, 0, 0, 0, []), g, off) && Others(s, s', i)
    ensures s'.status == SegmentPool.Take(SegmentPool.Initial(cfg.nseg))
    ensures s'.workThreads == s.workThreads && s'.currentWorkers == s.currentWorkers
  {
    var s1 := Hear(cfg, full, s, i, g, off);
    var s2 := Take(cfg, full, s1, i, s1.ts[i], g, off);
    var s3 := Tell(cfg, full, s2, i, s2.ts[i], g, off);
    s' := Join(cfg, full, s3, i, g, off);
  }

  // --- One round, with a `read` that returns k bytes ------------------------------------

  /** The segment between two rounds. */
  ghost predicate Clean(g: Seg) { g.writer == 1 && g.reader == 0 }

  /** The cache thread streams its file through the first segment. */
  ghost predicate Streams(cfg: Config, i: nat, t: Transfer)
    requires i < |cfg.paths|
  {
    && t.p.seg == t.c.seg == 0 && t.c.fd == FdOf(cfg, cfg.paths[i]) && t.c.segsize == cfg.segsize
    && t.c.key == cfg.paths[i]
  }

  /** What the round needs: sizes that fit, and a possible result of `read`. */
  ghost predicate CanRead(cfg: Config, full: bool, i: nat, off: nat, k: nat)
    requires i < |cfg.paths|
  {
    && |Data(cfg, i)| < Text.INT_LIMIT && MIN_SEGSIZE <= cfg.segsize < Text.INT_LIMIT
    && ReadReturns(|Data(cfg, i)|, off, cfg.segsize - RESERVED, k)
    && (full ==> k == FullRead(cfg, |Data(cfg, i)|, off))
  }

  lemma Copy(cfg: Config, full: bool, s: State, i: nat, t: Transfer, g: Seg, off: nat, k: nat) returns (s': State)
    requires On(cfg, full, s, i, t, g, off) && Streams(cfg, i, t) && t.c.pc.CWait? && g.writer == 1
    requires CanRead(cfg, full, i, off, k)
    ensures On(cfg, full, s', i, t.(c := t.c.(pc := CLength, readLen := k)),
               g.(writer := 0, mem := PutChunk(g.mem, ReadBytes(Data(cfg, i), off, k))), off + k)
    ensures Steady(s, s', i)
  {
    var t1 := t.(c := t.c.(pc := CCopy));
    var g1 := g.(writer := 0);
    var s1 := DoCache(cfg, full, s, i, t, g, off, 0, Local(t1, g1, off));
    var t2 := t.(c := t.c.(pc := CLength, readLen := k));
    var g2 := g1.(mem := PutChunk(g.mem, ReadBytes(Data(cfg, i), off, k)));
    s' := DoCache(cfg, full, s1, i, t1, g1, off, k, Local(t2, g2, off + k));
  }

  lemma Post(cfg: Config, full: bool, s: State, i: nat, t: Transfer, g: Seg, off: nat) returns (s': State)
    requires On(cfg, full, s, i, t, g, off) && Streams(cfg, i, t) && t.c.pc.CLength? && |g.mem| >= WORD
    ensures On(cfg, full, s', i, t.(c := t.c.(pc := CAdd, rounds := t.c.rounds + 1)),
               g.(reader := g.reader + 1, mem := PutLength(g.mem, t.c.readLen)), off)
    ensures Steady(s, s', i)
  {
    var t1 := t.(c := t.c.(pc := CPost));
    var g1 := g.(mem := PutLength(g.mem, t.c.readLen));
    var s1 := DoCache(cfg, full, s, i, t, g, off, 0, Local(t1, g1, off));
    var t2 := t.(c := t.c.(pc := CAdd, rounds := t.c.rounds + 1));
    s' := DoCache(cfg, full, s1, i, t1, g1, off, 0, Local(t2, g1.(reader := g.reader + 1), off));
  }

  /** The writing side of a round, up to the addition. */
  lemma Store(cfg: Config, full: bool, s: State, i: nat, t: Transfer, g: Seg, off: nat, k: nat)
    returns (s': State, g': Seg)
    requires On(cfg, full, s, i, t, g, off) && Streams(cfg, i, t) && t.c.pc.CWait? && Clean(g)
    requires CanRead(cfg, full, i, off, k)
    ensures On(cfg, full, s', i, t.(c := t.c.(pc := CAdd, readLen := k, rounds := t.c.rounds + 1)), g', off + k)
    ensures Steady(s, s', i)
    ensures g'.writer == 0 && g'.reader == 1 && Load(g'.mem) == Some(ReadBytes(Data(cfg, i), off, k))
  {
    var chunk := ReadBytes(Data(cfg, i), off, k);
    var s1 := Copy(cfg, full, s, i, t, g, off, k);
    s' := Post(cfg, full, s1, i, s1.ts[i], s1.segs[0], off + k);
    g' := s'.segs[0];
    ChunkRoundTrip(g.mem, chunk);
    assert g'.mem == PutLength(PutChunk(g.mem, chunk), |chunk|);
  }

  lemma Fetch(cfg: Config, full: bool, s: State, i: nat, t: Transfer, g: Seg, off: nat, chunk: seq<Byte>)
    returns (s': State)
    requires On(cfg, full, s, i, t, g, off) && t.p.pc.PWait? && t.p.seg == 0
    requires g.reader == 1 && Load(g.mem) == Some(chunk)
    ensures On(cfg, full, s', i, t.(p := t.p.(pc := PPost, sendLen := |chunk|, sent := t.p.sent + chunk)),
               g.(reader := 0), off)
    ensures Steady(s, s', i)
  {
    var t1 := t.(p := t.p.(pc := PSend));
    var g1 := g.(reader := 0);
    var s1 := DoProxy(cfg, full, s, i, t, g, off, t1, g1);
    var t2 := t.(p := t.p.(pc := PPost, sendLen := |chunk|, sent := t.p.sent + chunk));
    s' := DoProxy(cfg, full, s1, i, t1, g1, off, t2, g1);
  }

  lemma CountProxy(cfg: Config, full: bool, s: State, i: nat, t: Transfer, g: Seg, off: nat) returns (s': State)
    requires On(cfg, full, s, i, t, g, off) && t.p.pc.PPost? && t.p.seg == 0
    ensures On(cfg, full, s', i, t.(p := t.p.(pc := PLoop, rounds := t.p.rounds + 1,
                                              bytesSend := t.p.bytesSend + t.p.sendLen)),
               g.(writer := g.writer + 1), off)
    ensures Steady(s, s', i)
  {
    var g' := g.(writer := g.writer + 1);
    var t1 := t.(p := t.p.(pc := PAdd, rounds := t.p.rounds + 1));
    var s1 := DoProxy(cfg, full, s, i, t, g, off, t1, g');
    var t2 := t1.(p := t1.p.(pc := PLoop, bytesSend := t.p.bytesSend + t.p.sendLen));
    s' := DoProxy(cfg, full, s1, i, t1, g', off, t2, g');
  }

  lemma CountCache(cfg: Config, full: bool, s: State, i: nat, t: Transfer, g: Seg, off: nat) returns (s': State)
    requires On(cfg, full, s, i, t, g, off) && t.c.pc.CAdd? && Streams(cfg, i, t)
    ensures On(cfg, full, s', i, t.(c := t.c.(pc := CLoop, bytesRead := t.c.bytesRead + t.c.readLen)), g, off)
    ensures Steady(s, s', i)
  {
    var t1 := t.(c := t.c.(pc := CLoop, bytesRead := t.c.bytesRead + t.c.readLen));
    s' := DoCache(cfg, full, s, i, t, g, off, 0, Local(t1, g, off));
  }

  /** Both threads count the chunk. */
  lemma Count(cfg: Config, full: bool, s: State, i: nat, t: Transfer, g: Seg, off: nat) returns (s': State)
    requires On(cfg, full, s, i, t, g, off) && t.p.pc.PPost? && t.c.pc.CAdd? && Streams(cfg, i, t)
    ensures On(cfg, full, s', i, t.(p := t.p.(pc := PLoop, rounds := t.p.rounds + 1,
                                              bytesSend := t.p.bytesSend + t.p.sendLen),
                                    c := t.c.(pc := CLoop, bytesRead := t.c.bytesRead + t.c.readLen)),
               g.(writer := g.writer + 1), off)
    ensures Steady(s, s', i)
  {
    var s1 := CountProxy(cfg, full, s, i, t, g, off);
    var t1 := t.(p := t.p.(pc := PLoop, rounds := t.p.rounds + 1, bytesSend := t.p.bytesSend + t.p.sendLen));
    s' := CountCache(cfg, full, s1, i, t1, g.(writer := g.writer + 1), off);
  }

  lemma TurnProxy(cfg: Config, full: bool, s: State, i: nat, t: Transfer, g: Seg, off: nat) returns (s': State)
    requires On(cfg, full, s, i, t, g, off) && t.p.pc.PLoop? && t.p.seg == 0 && t.p.bytesSend < t.p.filelen
    ensures On(cfg, full, s', i, t.(p := t.p.(pc := PWait)), g, off) && Steady(s, s', i)
  {
    s' := DoProxy(cfg, full, s, i, t, g, off, t.(p := t.p.(pc := PWait)), g);
  }

  lemma TurnCache(cfg: Config, full: bool, s: State, i: nat, t: Transfer, g: Seg, off: nat) returns (s': State)
    requires On(cfg, full, s, i, t, g, off) && t.c.pc.CLoop? && Streams(cfg, i, t)
    requires t.c.bytesRead < t.c.filelen < Text.INT_LIMIT
    ensures On(cfg, full, s', i, t.(c := t.c.(pc := CWait)), g, off) && Steady(s, s', i)
  {
    s' := DoCache(cfg, full, s, i, t, g, off, 0, Local(t.(c := t.c.(pc := CWait)), g, off));
  }

  /** Both threads pass the test of their loops. */
  lemma Turn(cfg: Config, full: bool, s: State, i: nat, t: Transfer, g: Seg, off: nat) returns (s': State)
    requires On(cfg, full, s, i, t, g, off) && t.p.pc.PLoop? && t.c.pc.CLoop? && Streams(cfg, i, t)
    requires t.p.bytesSend < t.p.filelen && t.c.bytesRead < t.c.filelen < Text.INT_LIMIT
    ensures On(cfg, full, s', i, t.(p := t.p.(pc := PWait), c := t.c.(pc := CWait)), g, off) && Steady(s, s', i)
  {
    var s1 := TurnProxy(cfg, full, s, i, t, g, off);
    s' := TurnCache(cfg, full, s1, i, t.(p := t.p.(pc := PWait)), g, off);
  }

  /** A transfer after one more round. */
  ghost function After(t: Transfer, chunk: seq<Byte>): Transfer {
    t.(p := t.p.(bytesSend := t.p.bytesSend + |chunk|, rounds := t.p.rounds + 1, sendLen := |chunk|,
                 sent := t.p.sent + chunk),
       c := t.c.(bytesRead := t.c.bytesRead + |chunk|, rounds := t.c.rounds + 1, readLen := |chunk|))
  }

  lemma AfterHeads(cfg: Config, i: nat, got: nat, rounds: nat, readLen: nat, sent: seq<Byte>, chunk: seq<Byte>)
    requires i < |cfg.paths|
    ensures After(Heads(cfg, i, got, rounds, readLen, sent), chunk)
         == Heads(cfg, i, got + |chunk|, rounds + 1, |chunk|, sent + chunk)
  {
  }

  /** The reading side of a round, and both additions. */
  lemma Collect(cfg: Config, full: bool, s: State, i: nat, t: Transfer, g: Seg, off: nat, chunk: seq<Byte>)
    returns (s': State)
    requires On(cfg, full, s, i, t, g, off) && t.p.pc.PWait? && t.c.pc.CAdd? && Streams(cfg, i, t)
    requires g.writer == 0 && g.reader == 1 && Load(g.mem) == Some(chunk)
    ensures On(cfg, full, s', i, t.(p := t.p.(pc := PLoop, rounds := t.p.rounds + 1, sendLen := |chunk|,
                                              bytesSend := t.p.bytesSend + |chunk|, sent := t.p.sent + chunk),
                                    c := t.c.(pc := CLoop, bytesRead := t.c.bytesRead + t.c.readLen)),
               g.(writer := 1, reader := 0), off)
    ensures Steady(s, s', i)
  {
    var t1 := t.(p := t.p.(pc := PPost, sendLen := |chunk|, sent := t.p.sent + chunk));
    var s1 := Fetch(cfg, full, s, i, t, g, off, chunk);
    s' := Count(cfg, full, s1, i, t1, g.(reader := 0), off);
  }

  /** A whole round of both threads. */
  lemma Cycle(cfg: Config, full: bool, s: State, i: nat, t: Transfer, g: Seg, off: nat, k: nat)
    returns (s': State, g': Seg)
    requires On(cfg, full, s, i, t, g, off) && t.p.pc.PLoop? && t.c.pc.CLoop? && Streams(cfg, i, t) && Clean(g)
    requires t.p.bytesSend < t.p.filelen && t.c.bytesRead < t.c.filelen < Text.INT_LIMIT
    requires CanRead(cfg, full, i, off, k)
    ensures On(cfg, full, s', i, After(t, ReadBytes(Data(cfg, i), off, k)), g', off + k)
    ensures Clean(g') && Steady(s, s', i)
  {
    hide Walked, Load, PutChunk;
    var t1 := t.(p := t.p.(pc := PWait), c := t.c.(pc := CWait));
    var s1 := Turn(cfg, full, s, i, t, g, off);
    var t2 := t1.(c := t1.c.(pc := CAdd, readLen := k, rounds := t1.c.rounds + 1));
    var s2, g2 := Store(cfg, full, s1, i, t1, g, off, k);
    s' := Collect(cfg, full, s2, i, t2, g2, off + k, ReadBytes(Data(cfg, i), off, k));
    g' := g2.(writer := 1, reader := 0);
  }

  lemma Round(cfg: Config, full: bool, s: State, i: nat, g: Seg, off: nat, k: nat,
              got: nat, rounds: nat, readLen: nat, sent: seq<Byte>)
    returns (s': State, g': Seg)
    requires i < |cfg.paths| && On(cfg, full, s, i, Heads(cfg, i, got, rounds, readLen, sent), g, off)
    requires Clean(g) && got < |Data(cfg, i)| && CanRead(cfg, full, i, off, k)
    ensures var t' := Heads(cfg, i, got + k, rounds + 1, k, sent + ReadBytes(Data(cfg, i), off, k));
      On(cfg, full, s', i, t', g', off + k)
    ensures Clean(g') && Steady(s, s', i)
  {
    AfterHeads(cfg, i, got, rounds, readLen, sent, ReadBytes(Data(cfg, i), off, k));
    s', g' := Cycle(cfg, full, s, i, Heads(cfg, i, got, rounds, readLen, sent), g, off, k);
  }

  /** `r` rounds with reads of one byte each. */
  lemma {:induction false} Rounds(cfg: Config, full: bool, s: State, i: nat, g: Seg, r: nat)
    returns (s': State, g': Seg)
    requires !full
    requires i < |cfg.paths| && On(cfg, full, s, i, Heads(cfg, i, 0, 0, 0, []), g, 0) && Clean(g)
    requires r <= |Data(cfg, i)| < Text.INT_LIMIT && MIN_SEGSIZE <= cfg.segsize < Text.INT_LIMIT
    ensures On(cfg, full, s', i, Heads(cfg, i, r, r, if r == 0 then 0 else 1, Data(cfg, i)[..r]), g', r)
    ensures Clean(g') && Steady(s, s', i)
  {
    hide Told, Sought, Run;
    if r == 0 {
      s', g' := s, g;
    } else {
      var s1, g1 := Rounds(cfg, full, s, i, g, r - 1);
      var file := Data(cfg, i);
      s', g' := Round(cfg, full, s1, i, g1, r - 1, 1, r - 1, r - 1, if r == 1 then 0 else 1, file[..r - 1]);
      assert file[..r - 1] + ReadBytes(file, r - 1, 1) == file[..r];
    }
  }

  lemma SentNext(before: seq<Byte>, file: seq<Byte>, at: nat, k: nat)
    requires at + k <= |file|
    ensures (before + file[..at]) + ReadBytes(file, at, k) == before + file[..at + k]
  {
  }

  lemma FullRound(cfg: Config, full: bool, s: State, i: nat, g: Seg, before: seq<Byte>, at: nat,
                  rounds: nat, readLen: nat)
    returns (s': State, g': Seg, k: nat)
    requires i < |cfg.paths| && |before| + at < |Data(cfg, i)| && Clean(g)
    requires On(cfg, full, s, i, Heads(cfg, i, |before| + at, rounds, readLen, before + Data(cfg, i)[..at]), g, at)
    requires |Data(cfg, i)| < Text.INT_LIMIT && MIN_SEGSIZE <= cfg.segsize < Text.INT_LIMIT
    ensures k >= 1 && at + k <= |Data(cfg, i)| && Clean(g') && Steady(s, s', i)
    ensures var t := Heads(cfg, i, |before| + (at + k), rounds + 1, k, before + Data(cfg, i)[..at + k]);
      On(cfg, full, s', i, t, g', at + k)
  {
    var file := Data(cfg, i);
    k := FullRead(cfg, |file|, at);
    s', g' := Round(cfg, full, s, i, g, at, k, |before| + at, rounds, readLen, before + file[..at]);
    SentNext(before, file, at, k);
  }

  /** Rounds with full reads until enough bytes are counted, after `before` has been sent: all
      that was read since the descriptor stood at the start of the file. */
  lemma {:induction false} FullRounds(cfg: Config, full: bool, s: State, i: nat, g: Seg, before: seq<Byte>, at: nat,
                                      rounds: nat, readLen: nat)
    returns (s': State, g': Seg, at': nat, rounds': nat, readLen': nat)
    requires i < |cfg.paths| && at <= |Data(cfg, i)| && Clean(g)
    requires On(cfg, full, s, i, Heads(cfg, i, |before| + at, rounds, readLen, before + Data(cfg, i)[..at]), g, at)
    requires |Data(cfg, i)| < Text.INT_LIMIT && MIN_SEGSIZE <= cfg.segsize < Text.INT_LIMIT
    ensures at' <= |Data(cfg, i)| <= |before| + at'
    ensures var t' := Heads(cfg, i, |before| + at', rounds', readLen', before + Data(cfg, i)[..at']);
      On(cfg, full, s', i, t', g', at')
    ensures Clean(g') && Steady(s, s', i)
    decreases |Data(cfg, i)| - at
  {
    if |before| + at >= |Data(cfg, i)| {
      s', g', at', rounds', readLen' := s, g, at, rounds, readLen;
    } else {
      var s1, g1, k := FullRound(cfg, full, s, i, g, before, at, rounds, readLen);
      s', g', at', rounds', readLen' := FullRounds(cfg, full, s1, i, g1, before, at + k, rounds + 1, k);
    }
  }

  /** `r` rounds at the end of the file: `read` returns zero each time. */
  lemma {:induction false} EmptyRounds(cfg: Config, full: bool, s: State, i: nat, g: Seg, r: nat)
    returns (s': State, g': Seg)
    requires i < |cfg.paths| && On(cfg, full, s, i, Heads(cfg, i, 0, 0, 0, []), g, |Data(cfg, i)|) && Clean(g)
    requires 0 < |Data(cfg, i)| < Text.INT_LIMIT && MIN_SEGSIZE <= cfg.segsize < Text.INT_LIMIT
    ensures On(cfg, full, s', i, Heads(cfg, i, 0, r, 0, []), g', |Data(cfg, i)|)
    ensures Clean(g') && Steady(s, s', i)
  {
    hide Told, Sought, Run;
    if r == 0 {
      s', g' := s, g;
    } else {
      var s1, g1 := EmptyRounds(cfg, full, s, i, g, r - 1);
      s', g' := Round(cfg, full, s1, i, g1, |Data(cfg, i)|, 0, 0, r - 1, 0, []);
    }
  }

  // --- The bytes that a client gets -----------------------------------------------------

  lemma Start(cfg: Config, full: bool) returns (s: State, g: Seg)
    requires Sane(cfg)
    ensures forall i: nat :: i < |cfg.paths| ==> On(cfg, full, s, i, NewTransfer(), g, 0)
    ensures Clean(g) && s.status == SegmentPool.Initial(cfg.nseg) && s.workThreads == s.currentWorkers == 0
  {
    g := Seg(1, 0, seq(cfg.segsize, _ => 0));
    s := State(seq(|cfg.paths|, _ => NewTransfer()), 0, 0, SegmentPool.Initial(cfg.nseg),
               seq(cfg.nseg, _ => g), map[], Text.Zeros(MAX_REQUEST));
    assert RoomAt(cfg, s.buffer, MAX_REQUEST - 1);
    var actions: seq<Action> := [];
    assert Quiet(cfg, full, [s], actions) && [s][|actions|] == s;
  }

  /** Two transfers of a file of two bytes or more: the second rewinds the first in front of
      its last byte, and the next `read` of the first returns two bytes. */
  lemma Rewound(cfg: Config, i: nat, j: nat) returns (s: State)
    requires Setting(cfg, i, j) && |Data(cfg, i)| >= 2
    ensures Reachable(cfg, s) && i < |s.ts| == |cfg.paths|
    ensures var file := Data(cfg, i); s.ts[i].p.sent == file[..|file| - 1] + file[..2]
  {
    hide Told, Sought, Run;
    var n := |Data(cfg, i)|;
    var s0, g0 := Start(cfg, false);
    assert On(cfg, false, s0, j, NewTransfer(), g0, 0);
    var s1 := Open(cfg, false, s0, i, g0, 0);
    var s2 := Begin(cfg, false, s1, i, g0, 0);
    var s3, g3 := Rounds(cfg, false, s2, i, g0, n - 1);
    var s4 := Open(cfg, false, s3, j, g3, n - 1);
    var g5;
    s, g5 := Round(cfg, false, s4, i, g3, 0, 2, n - 1, n - 1, 1, Data(cfg, i)[..n - 1]);
  }

  /** Full reads do not help a file that is longer than a chunk: the second transfer rewinds the
      first behind its first chunk, and the first goes on from there until its count is full. */
  lemma RewoundInChunks(cfg: Config, i: nat, j: nat) returns (s: State, at: nat)
    requires Setting(cfg, i, j) && |Data(cfg, i)| > cfg.segsize - RESERVED
    ensures Walked(cfg, true, s) && i < |s.ts| == |cfg.paths|
    ensures var file, room := Data(cfg, i), cfg.segsize - RESERVED;
      |file| - room <= at <= |file| && s.ts[i].p.sent == file[..room] + file[..at]
  {
    hide Told, Sought, Run;
    var file, room: nat := Data(cfg, i), cfg.segsize - RESERVED;
    var s0, g0 := Start(cfg, true);
    assert On(cfg, true, s0, j, NewTransfer(), g0, 0);
    var s1 := Open(cfg, true, s0, i, g0, 0);
    var s2 := Begin(cfg, true, s1, i, g0, 0);
    var s3, g3 := Round(cfg, true, s2, i, g0, 0, room, 0, 0, 0, []);
    assert [] + ReadBytes(file, 0, room) == file[..room];
    var s4 := Open(cfg, true, s3, j, g3, room);
    assert file[..room] + file[..0] == file[..room];
    var g5, rounds, readLen;
    s, g5, at, rounds, readLen := FullRounds(cfg, true, s4, i, g3, file[..room], 0, 1, room);
  }

  lemma RepeatsIfPrefix(file: seq<Byte>, room: nat, at: nat)
    requires room <= |file| && |file| - room <= at <= |file| && file[..room] + file[..at] <= file
    ensures file[room..] == file[..|file| - room]
  {
    var sent := file[..room] + file[..at];
    assert |sent| == room + at <= |file|;
    assert sent[room..] == file[..at] && sent == file[..room + at];
  }

  /** So the bytes are wrong even then, unless the file repeats itself chunk by chunk. */
  lemma ChunksCorrupt(cfg: Config, i: nat, j: nat)
    requires Setting(cfg, i, j) && |Data(cfg, i)| > cfg.segsize - RESERVED
    requires var file, room := Data(cfg, i), cfg.segsize - RESERVED; file[room..] != file[..|file| - room]
    ensures exists s :: Walked(cfg, true, s) && Reachable(cfg, s) && !Delivers(cfg, s, i)
  {
    var file, room := Data(cfg, i), cfg.segsize - RESERVED;
    var s, at := RewoundInChunks(cfg, i, j);
    if file[..room] + file[..at] <= file {
      RepeatsIfPrefix(file, room, at);
    }
    assert Walked(cfg, true, s) && Reachable(cfg, s) && !Delivers(cfg, s, i);
  }

  ghost predicate Delivers(cfg: Config, s: State, i: nat) {
    i < |s.ts| == |cfg.paths| ==> s.ts[i].p.sent <= Data(cfg, i)
  }

  /** Every client gets a prefix of its own file in every reachable state, exactly if there is
      only one slot on one of the two sides, or no two requests name the same file of two bytes
      or more. */
  lemma IntegrityExactly(cfg: Config)
    requires Sane(cfg) && cfg.descriptors.PerFile?
    ensures (forall s, i: nat :: Reachable(cfg, s) ==> Delivers(cfg, s, i))
      <==> cfg.nthread == 1 || cfg.nworkers == 1 || !Repeated(cfg, 2)
  {
    if Valid(cfg) {
      forall s, i: nat | Reachable(cfg, s) && i < |s.ts| ensures Delivers(cfg, s, i) {
        Integrity(cfg, s, i);
      }
    } else {
      var i: nat, j: nat :| SameFile(cfg, i, j) && |Content(cfg, cfg.paths[i])| >= 2;
      var s := Rewound(cfg, i, j);
      assert |s.ts[i].p.sent| == |Data(cfg, i)| + 1;
      assert !Delivers(cfg, s, i);
    }
  }

  // --- Termination ----------------------------------------------------------------------

  lemma Drained(cfg: Config, full: bool, s: State, i: nat, t: Transfer, g: Seg, off: nat) returns (s': State)
    requires On(cfg, full, s, i, t, g, off) && t.p.pc.PLoop? && t.p.seg == 0 && t.p.bytesSend >= t.p.filelen
    ensures On(cfg, full, s', i, t.(p := t.p.(pc := PRelease)), g, off) && Steady(s, s', i)
  {
    s' := DoProxy(cfg, full, s, i, t, g, off, t.(p := t.p.(pc := PRelease)), g);
  }

  ghost predicate NobodyAsleep(ts: seq<Transfer>) {
    forall k :: 0 <= k < |ts| ==> PhaseOf(Pool, ts[k]) != Monitor.Asleep
  }

  lemma AllFreeAgain(nseg: nat)
    requires nseg >= 1
    ensures var taken := SegmentPool.Take(SegmentPool.Initial(nseg));
      1 < |taken| && SegmentPool.Give(taken, 0) == SegmentPool.Initial(nseg)
  {
    assert SegmentPool.Scan(SegmentPool.Initial(nseg), 0) == 0;
  }

  /** The proxy thread returns its segment; nobody waits for it. */
  lemma Return(cfg: Config, full: bool, s: State, i: nat, t: Transfer, g: Seg, off: nat) returns (s': State)
    requires On(cfg, full, s, i, t, g, off) && t.p.pc.PRelease? && t.p.seg == 0 && NobodyAsleep(s.ts)
    requires s.status == SegmentPool.Take(SegmentPool.Initial(cfg.nseg))
    ensures On(cfg, full, s', i, t.(p := t.p.(pc := PLeave)), g, off) && Others(s, s', i)
    ensures s'.status == SegmentPool.Initial(cfg.nseg)
  {
    AllFreeAgain(cfg.nseg);
    var ts := GiveBack(s, Pool, i).ts;
    assert ts == s.ts[i := t.(p := t.p.(pc := PLeave))];
    assert Monitor.Asleep !in Phases(Pool, ts);
    s' := Do(cfg, full, s, Leave(Pool, i, 0));
    assert s'.ts == ts;
  }

  /** Both have opened the file, and the first is at the head of its loop. */
  lemma BothOpen(cfg: Config, i: nat, j: nat) returns (s: State, g: Seg)
    requires Setting(cfg, i, j)
    ensures Clean(g) && On(cfg, true, s, i, Heads(cfg, i, 0, 0, 0, []), g, 0)
    ensures s.ts[j] == Sought(cfg, j) && s.status == SegmentPool.Take(SegmentPool.Initial(cfg.nseg))
    ensures forall k: nat :: k < |s.ts| && k != i && k != j ==> s.ts[k] == NewTransfer()
  {
    var s0, g0 := Start(cfg, true);
    g := g0;
    assert On(cfg, true, s0, j, NewTransfer(), g0, 0);
    var s1 := Open(cfg, true, s0, i, g0, 0);
    var s2 := Open(cfg, true, s1, j, g0, 0);
    s := Begin(cfg, true, s2, i, g0, 0);
    forall k: nat | k < |s.ts| && k != i && k != j ensures s.ts[k] == NewTransfer() {
      assert On(cfg, true, s0, k, NewTransfer(), g0, 0);
    }
  }

  /** The first transfer reads the file to its end and returns its segment, while the second has
      only opened the file. */
  lemma Exhausted(cfg: Config, i: nat, j: nat) returns (s: State, g: Seg)
    requires Setting(cfg, i, j)
    ensures Clean(g) && On(cfg, true, s, j, Sought(cfg, j), g, |Data(cfg, j)|)
    ensures s.status == SegmentPool.Initial(cfg.nseg)
  {
    hide Run;
    var n := |Data(cfg, i)|;
    var s1, g1 := BothOpen(cfg, i, j);
    assert [] + Data(cfg, i)[..0] == [];
    var s2, g2, at, rounds, readLen := FullRounds(cfg, true, s1, i, g1, [], 0, 0, 0);
    g := g2;
    s := Finish(cfg, true, s2, i, Heads(cfg, i, n, rounds, readLen, [] + Data(cfg, i)[..n]), g2, n);
  }

  lemma Finish(cfg: Config, full: bool, s: State, i: nat, t: Transfer, g: Seg, off: nat) returns (s': State)
    requires On(cfg, full, s, i, t, g, off) && t.p.pc.PLoop? && t.p.seg == 0 && t.p.bytesSend >= t.p.filelen
    requires s.status == SegmentPool.Take(SegmentPool.Initial(cfg.nseg))
    requires forall k: nat :: k < |s.ts| && k != i ==> PhaseOf(Pool, s.ts[k]) != Monitor.Asleep
    ensures On(cfg, full, s', i, t.(p := t.p.(pc := PLeave)), g, off) && Others(s, s', i)
    ensures s'.status == SegmentPool.Initial(cfg.nseg)
  {
    hide Walked, Padded, OffAt;
    var s1 := Drained(cfg, full, s, i, t, g, off);
    forall k: nat | k < |s1.ts| ensures PhaseOf(Pool, s1.ts[k]) != Monitor.Asleep {
      assert k != i ==> s1.ts[k] == s.ts[k];
    }
    s' := Return(cfg, full, s1, i, t.(p := t.p.(pc := PRelease)), g, off);
  }

  /** The second then makes as many empty rounds as it likes; with full reads, too. */
  lemma Starved(cfg: Config, i: nat, j: nat, r: nat) returns (s: State)
    requires Setting(cfg, i, j)
    ensures Walked(cfg, true, s) && j < |s.ts| && s.ts[j].p.rounds == r
  {
    var s1, g1 := Exhausted(cfg, i, j);
    var s2 := Begin(cfg, true, s1, j, g1, |Data(cfg, j)|);
    var g3;
    s, g3 := EmptyRounds(cfg, true, s2, j, g1, r);
  }

  lemma NextCountsRound(cfg: Config, s: State, a: Action, i: nat)
    requires |cfg.paths| == |s.ts| && Enabled(cfg, s, a) && i < |s.ts|
    ensures i < |Next(cfg, s, a).ts| && Next(cfg, s, a).ts[i].p.rounds <= s.ts[i].p.rounds + 1
  {
    match a
    case CacheStep(j, k, junk) => CacheLeavesProxy(cfg, s, j, k, junk);
    case ProxyStep(j, junk) =>
      ProxyCountsRound(cfg, cfg.paths[j], s.ts[j], SegAt(s.segs, s.ts[j].p.seg), HeardReply(s.ts[j], junk));
    case _ =>
  }

  lemma ProxyCountsRound(cfg: Config, path: string, t: Transfer, g: Seg, heard: Option<Reply>)
    requires ProxyReady(t, g)
    ensures ProxyLocal(cfg, path, t, g, heard).0.p.rounds <= t.p.rounds + 1
  {
  }

  lemma {:induction false} RoundsTakeSteps(cfg: Config, states: seq<State>, actions: seq<Action>, n: nat, i: nat)
    requires Run(cfg, states, actions) && n <= |actions| && i < |cfg.paths|
    ensures i < |states[n].ts| && states[n].ts[i].p.rounds <= n
  {
    if n > 0 {
      RoundsTakeSteps(cfg, states, actions, n - 1, i);
      assert IsStep(cfg, states[n - 1], actions[n - 1], states[n - 1 + 1]);
      NextCountsRound(cfg, states[n - 1], actions[n - 1], i);
    }
  }

  /** No run without spurious wake-ups (and with full reads only) is longer than `bound`. */
  ghost predicate Bounded(cfg: Config, full: bool, bound: nat) {
    forall states, actions :: Quiet(cfg, full, states, actions) ==> |actions| <= bound
  }

  lemma StarvedUnbounded(cfg: Config, full: bool, i: nat, j: nat, bound: nat)
    requires Setting(cfg, i, j)
    ensures !Bounded(cfg, full, bound)
  {
    var s := Starved(cfg, i, j, bound + 1);
    var states, actions :| Quiet(cfg, true, states, actions) && states[|actions|] == s;
    RoundsTakeSteps(cfg, states, actions, |actions|, j);
    assert Quiet(cfg, full, states, actions);
  }

  /** The runs without spurious wake-ups are bounded, exactly if there is only one slot on one of
      the two sides, or no two requests name the same nonempty file: a `read` that returns zero
      before the count is reached is repeated for ever. Full reads make no difference. */
  lemma TerminationExactly(cfg: Config, full: bool)
    requires Sane(cfg) && cfg.descriptors.PerFile?
    ensures (exists bound :: Bounded(cfg, full, bound))
      <==> cfg.nthread == 1 || cfg.nworkers == 1 || !Repeated(cfg, 1)
  {
    if Terminating(cfg) {
      var bound := 36 * |cfg.paths| + 11 * TotalBytes(cfg, |cfg.paths|);
      forall states, actions | Quiet(cfg, full, states, actions) ensures |actions| <= bound {
        RunsAreBounded(cfg, states, actions);
      }
      assert Bounded(cfg, full, bound);
    } else {
      var i: nat, j: nat :| SameFile(cfg, i, j) && |Content(cfg, cfg.paths[i])| >= 1;
      forall bound ensures !Bounded(cfg, full, bound) {
        StarvedUnbounded(cfg, full, i, j, bound);
      }
    }
  }
}
