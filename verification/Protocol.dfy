/** The web proxy and its cache daemon as one state machine.

    For every request there is a proxy thread (`handle_with_cache.c`) and, once the daemon has
    accepted its connection, a cache thread (`simplecached.c`). Both pass an admission region,
    talk over their own socket, and hand the file over through a shared segment guarded by a
    writer and a reader semaphore. Every atomic action of a thread is a step; the scheduler picks
    any enabled step. */
module Protocol {
  import opened Wrappers
  import opened Segment
  import Monitor
  import SegmentPool
  import Text
  import opened Wire

  // --- Configuration --------------------------------------------------------------------

  /** Which descriptor `simplecache_get` answers with: one that no reading transfer uses, or
      always the same one for the same file. */
  datatype Descriptors = Own | PerFile(fds: map<string, nat>)

  /** `files` is what the cache holds, `paths[i]` the path of request `i`. */
  datatype Config = Config(
    nthread: nat, nworkers: nat, nseg: nat, segsize: nat,
    files: map<string, seq<Byte>>, paths: seq<string>, descriptors: Descriptors)

  function FdOf(cfg: Config, key: string): nat {
    match cfg.descriptors
    case Own => 0
    case PerFile(fds) => if key in fds then fds[key] else 0
  }

  /** What both programs check at start-up, together with what they take for granted. */
  ghost predicate Sane(cfg: Config) {
    && cfg.nthread >= 1 && cfg.nworkers >= 1 && cfg.nseg >= 1
    && MIN_SEGSIZE <= cfg.segsize < Text.INT_LIMIT
    && (forall i :: 0 <= i < |cfg.paths| ==> Plain(cfg.paths[i]) && |PrintRequest(cfg.paths[i])| < MAX_REQUEST)
    && (forall path :: path in cfg.files ==> |cfg.files[path]| < Text.INT_LIMIT)
    && (cfg.descriptors.PerFile? ==>
      forall a, b :: a in cfg.files && b in cfg.files && a != b ==> FdOf(cfg, a) != FdOf(cfg, b))
  }

  /** Two transfers never read through one descriptor at a time. */
  predicate Alone(cfg: Config) { cfg.descriptors.Own? || cfg.nthread == 1 || cfg.nworkers == 1 }

  ghost predicate SameFile(cfg: Config, i: nat, j: nat) {
    i < j < |cfg.paths| && cfg.paths[i] == cfg.paths[j] && cfg.paths[i] in cfg.files
  }

  /** Two requests name one file, of at least `size` bytes. */
  ghost predicate Repeated(cfg: Config, size: nat) {
    exists i: nat, j: nat :: SameFile(cfg, i, j) && |Content(cfg, cfg.paths[i])| >= size
  }

  /** The configurations under which every client gets its own file. */
  ghost predicate Valid(cfg: Config) { Sane(cfg) && (Alone(cfg) || !Repeated(cfg, 2)) }

  /** The configurations under which every run ends. */
  ghost predicate Terminating(cfg: Config) { Sane(cfg) && (Alone(cfg) || !Repeated(cfg, 1)) }

  function Content(cfg: Config, key: string): seq<Byte> {
    if key in cfg.files then cfg.files[key] else []
  }

  ghost predicate IsFound(cfg: Config, i: nat)
    requires i < |cfg.paths|
  {
    cfg.paths[i] in cfg.files
  }

  ghost function Data(cfg: Config, i: nat): seq<Byte>
    requires i < |cfg.paths|
  {
    Content(cfg, cfg.paths[i])
  }

  /** Conversions that the C code performs silently: `off_t` to `int` and `int` to `size_t`. */
  function ToInt(n: int): (r: int)
    ensures -0x8000_0000 <= r < 0x8000_0000 && (r - n) % 0x1_0000_0000 == 0
  {
    var u := n % 0x1_0000_0000;
    if u < 0x8000_0000 then u else u - 0x1_0000_0000
  }

  function ToSize(n: int): (r: nat)
    ensures r < 0x1_0000_0000_0000_0000 && (r - n) % 0x1_0000_0000_0000_0000 == 0
  {
    n % 0x1_0000_0000_0000_0000
  }

  // --- Threads --------------------------------------------------------------------------

  /** Program points of `thread_function` in `handle_with_cache.c`, in program order. */
  datatype ProxyPc =
    | PTest | PAsleep | PWoken          // admission
    | PRequest | PReceive               // request and reply
    | PLeaveNF | PHeadNF                // the file is not in the cache
    | PSegTest | PSegAsleep | PSegWoken // waiting for a segment
    | PHead | PSendSeg                  // header to the client, segment to the cache thread
    | PLoop | PWait | PSend | PPost | PAdd
    | PRelease | PLeave | PDone
    | PExit                             // `exit(-1)`, or an access outside the segment

  /** Program points of `thread_function` in `simplecached.c`; `CNone` is a thread that the
      accept loop has not started yet. */
  datatype CachePc =
    | CNone
    | CTest | CAsleep | CWoken
    | CParse | CGet | CReplyNF
    | CSeek | CReplyOk | CReadSeg
    | CLoop | CWait | CCopy | CLength | CPost | CAdd
    | CLeave | CDone
    | CExit

  /** What the client has been told before the body. */
  datatype Head = NoHead | OkHead(len: int) | NotFoundHead

  /** `rounds` counts the rounds of the transfer loop; no step depends on it. */
  datatype Proxy = Proxy(
    pc: ProxyPc, filelen: int, seg: nat, bytesSend: nat, sendLen: nat,
    head: Head, sent: seq<Byte>, rounds: nat)

  datatype Cache = Cache(
    pc: CachePc, buffer: string, key: string, fd: nat, filelen: int,
    seg: nat, segsize: nat, bytesRead: nat, readLen: nat, rounds: nat)

  /** One request: its two threads and what the messages under way between them say. Their
      text is printed when they are received, into a buffer with stale characters behind it. */
  datatype Transfer = Transfer(
    p: Proxy, c: Cache, req: Option<string>, reply: Option<Reply>, segMsg: Option<(nat, nat)>)

  datatype Seg = Seg(writer: nat, reader: nat, mem: seq<Byte>)

  /** `buffer` is the request buffer of the daemon's accept loop. */
  datatype State = State(
    ts: seq<Transfer>, workThreads: int, currentWorkers: int,
    status: seq<int>, segs: seq<Seg>, offs: map<nat, nat>, buffer: string)

  function OffAt(offs: map<nat, nat>, fd: nat): nat { if fd in offs then offs[fd] else 0 }

  function SegAt(segs: seq<Seg>, k: nat): Seg {
    if k < |segs| then segs[k] else Seg(0, 0, [])
  }

  function PutSeg(segs: seq<Seg>, k: nat, g: Seg): (r: seq<Seg>)
    ensures |r| == |segs|
  {
    if k < |segs| then segs[k := g] else segs
  }

  function NewTransfer(): Transfer {
    Transfer(Proxy(PTest, 0, 0, 0, 0, NoHead, [], 0), Cache(CNone, "", "", 0, 0, 0, 0, 0, 0, 0), None, None, None)
  }

  /** The daemon's request buffer is never initialised. What it happens to hold is assumed to have
      a NUL behind every request; `NulSurvives` says that nothing less will do. */
  ghost predicate HasRoom(cfg: Config, buffer: string) {
    |buffer| == MAX_REQUEST && exists j: nat :: RoomAt(cfg, buffer, j)
  }

  ghost predicate RoomAt(cfg: Config, buffer: string, j: nat) {
    j < |buffer| && buffer[j] == '\0' && forall i :: 0 <= i < |cfg.paths| ==> |PrintRequest(cfg.paths[i])| <= j
  }

  ghost predicate Init(cfg: Config, s: State) {
    && s.ts == seq(|cfg.paths|, _ => NewTransfer())
    && s.workThreads == 0 && s.currentWorkers == 0 && HasRoom(cfg, s.buffer)
    && s.status == SegmentPool.Initial(cfg.nseg)
    && |s.segs| == cfg.nseg
    && (forall k :: 0 <= k < cfg.nseg ==> FreshSeg(cfg, s.segs[k]))
  }

  ghost predicate FreshSeg(cfg: Config, g: Seg) {
    g.writer == 1 && g.reader == 0 && |g.mem| == cfg.segsize
  }

  // --- Steps of one proxy thread on its own data, its socket and its segment ------------

  predicate ProxyReady(t: Transfer, g: Seg) {
    match t.p.pc
    case PReceive => t.reply.Some?
    case PWait => g.reader > 0
    case PRequest | PHeadNF | PHead | PSendSeg | PLoop | PSend | PPost | PAdd => true
    case _ => false
  }

  /** `heard` is what `sscanf` makes of the reply. */
  function ProxyLocal(cfg: Config, path: string, t: Transfer, g: Seg, heard: Option<Reply>): (Transfer, Seg)
    requires ProxyReady(t, g)
  {
    var p := t.p;
    match p.pc
    case PRequest => (t.(p := p.(pc := PReceive), req := Some(path)), g)
    case PReceive =>
      var t' := t.(reply := None);
      (match heard
       case None => t'.(p := p.(pc := PExit))
       case Some(NotFound) => t'.(p := p.(pc := PLeaveNF))
       case Some(Found(len)) => t'.(p := p.(pc := PSegTest, filelen := len)), g)
    case PHeadNF => (t.(p := p.(pc := PDone, head := NotFoundHead)), g)
    case PHead => (t.(p := p.(pc := PSendSeg, head := OkHead(p.filelen))), g)
    case PSendSeg =>
      (t.(p := p.(pc := PLoop, bytesSend := 0), segMsg := Some((p.seg, cfg.segsize))), g)
    case PLoop => (t.(p := p.(pc := if p.bytesSend < p.filelen then PWait else PRelease)), g)
    case PWait => (t.(p := p.(pc := PSend)), g.(reader := g.reader - 1))
    case PSend =>
      (match Load(g.mem)
       case None => t.(p := p.(pc := PExit))
       case Some(chunk) => t.(p := p.(pc := PPost, sendLen := |chunk|, sent := p.sent + chunk)), g)
    case PPost => (t.(p := p.(pc := PAdd, rounds := p.rounds + 1)), g.(writer := g.writer + 1))
    case PAdd => (t.(p := p.(pc := PLoop, bytesSend := p.bytesSend + p.sendLen)), g)
    case _ => (t, g)
  }

  // --- Steps of one cache thread --------------------------------------------------------

  /** What `read` may return: at least one byte while data remains, at most the room given, and
      zero at the end of the file. */
  predicate ReadReturns(len: nat, off: nat, room: int, k: nat) {
    if off < len then 1 <= k <= room && off + k <= len else k == 0
  }

  function ReadBytes(content: seq<Byte>, off: nat, k: nat): (r: seq<Byte>)
    requires k > 0 ==> off + k <= |content|
    ensures |r| == k
  {
    if k == 0 then [] else content[off..off + k]
  }

  predicate CacheReady(cfg: Config, t: Transfer, g: Seg, off: nat, k: nat) {
    match t.c.pc
    case CReadSeg => t.segMsg.Some?
    case CWait => g.writer > 0
    case CCopy => ReadReturns(|Content(cfg, t.c.key)|, off, t.c.segsize as int - RESERVED, k)
    case CParse | CReplyNF | CSeek | CReplyOk | CLoop | CLength | CPost | CAdd => true
    case _ => false
  }

  datatype Local = Local(t: Transfer, g: Seg, off: nat)

  /** `key` and `info` are what `sscanf` makes of the request and of the segment message. */
  function CacheLocal(
      cfg: Config, t: Transfer, g: Seg, off: nat, k: nat, key: Option<string>, info: Option<(int, int)>): Local
    requires CacheReady(cfg, t, g, off, k)
  {
    var c := t.c;
    match c.pc
    case CParse =>
      Local(t.(c := if key == None then c.(pc := CExit) else c.(pc := CGet, key := key.value)), g, off)
    case CReplyNF => Local(t.(c := c.(pc := CLeave), reply := Some(NotFound)), g, off)
    case CSeek =>
      Local(t.(c := c.(pc := CReplyOk, filelen := ToInt(|Content(cfg, c.key)|))), g, 0)
    case CReplyOk =>
      Local(t.(c := c.(pc := CReadSeg), reply := Some(Found(c.filelen))), g, off)
    case CReadSeg =>
      var t' := t.(segMsg := None);
      (match info
       case Some((seg, segsize)) =>
         if seg < 0 || segsize < 0 then Local(t'.(c := c.(pc := CExit)), g, off)
         else Local(t'.(c := c.(pc := CLoop, seg := seg, segsize := segsize, bytesRead := 0)), g, off)
       case None => Local(t'.(c := c.(pc := CExit)), g, off))
    case CLoop => Local(t.(c := c.(pc := if c.bytesRead < ToSize(c.filelen) then CWait else CLeave)), g, off)
    case CWait => Local(t.(c := c.(pc := CCopy)), g.(writer := g.writer - 1), off)
    case CCopy =>
      if WORD + k > |g.mem| then Local(t.(c := c.(pc := CExit)), g, off)
      else Local(t.(c := c.(pc := CLength, readLen := k)),
                 g.(mem := PutChunk(g.mem, ReadBytes(Content(cfg, c.key), off, k))), off + k)
    case CLength =>
      if WORD > |g.mem| then Local(t.(c := c.(pc := CExit)), g, off)
      else Local(t.(c := c.(pc := CPost)), g.(mem := PutLength(g.mem, c.readLen)), off)
    case CPost => Local(t.(c := c.(pc := CAdd, rounds := c.rounds + 1)), g.(reader := g.reader + 1), off)
    case CAdd => Local(t.(c := c.(pc := CLoop, bytesRead := c.bytesRead + c.readLen)), g, off)
    case _ => Local(t, g, off)
  }

  // --- Regions --------------------------------------------------------------------------

  function ThPhase(t: Transfer): Monitor.Phase {
    match t.p.pc
    case PTest | PHeadNF | PDone => Monitor.Outside
    case PAsleep => Monitor.Asleep
    case PWoken => Monitor.Woken
    case _ => Monitor.Inside
  }

  function SegPhase(t: Transfer): Monitor.Phase {
    match t.p.pc
    case PSegAsleep => Monitor.Asleep
    case PSegWoken => Monitor.Woken
    case PHead | PSendSeg | PLoop | PWait | PSend | PPost | PAdd | PRelease => Monitor.Inside
    case _ => Monitor.Outside
  }

  function CachePhase(t: Transfer): Monitor.Phase {
    match t.c.pc
    case CNone | CTest | CDone => Monitor.Outside
    case CAsleep => Monitor.Asleep
    case CWoken => Monitor.Woken
    case _ => Monitor.Inside
  }

  datatype Which = Th | Pool | Workers

  function PhaseOf(m: Which, t: Transfer): Monitor.Phase {
    match m
    case Th => ThPhase(t)
    case Pool => SegPhase(t)
    case Workers => CachePhase(t)
  }

  function Phases(m: Which, ts: seq<Transfer>): seq<Monitor.Phase> {
    seq(|ts|, i requires 0 <= i < |ts| => PhaseOf(m, ts[i]))
  }

  /** The three regions of the system, read off its state: the proxy's workers, its segment
      pool, and the daemon's workers. */
  ghost function Mon(cfg: Config, s: State, m: Which): Monitor.Mon {
    match m
    case Th => Monitor.Mon(cfg.nthread, s.workThreads, Phases(m, s.ts))
    case Pool => Monitor.Mon(cfg.nseg, cfg.nseg - (if s.status == [] then 0 else s.status[0]), Phases(m, s.ts))
    case Workers => Monitor.Mon(cfg.nworkers, s.currentWorkers, Phases(m, s.ts))
  }

  /** The thread once `pthread_cond_wait` has returned. */
  function Awake(m: Which, t: Transfer): Transfer {
    match m
    case Th => t.(p := t.p.(pc := PWoken))
    case Pool => t.(p := t.p.(pc := PSegWoken))
    case Workers => t.(c := t.c.(pc := CWoken))
  }

  function Wake(m: Which, ts: seq<Transfer>, w: nat): (r: seq<Transfer>)
    ensures |r| == |ts|
  {
    if w < |ts| && PhaseOf(m, ts[w]) == Monitor.Asleep then ts[w := Awake(m, ts[w])] else ts
  }

  /** Ready to take the lock of region `m` and test its condition. */
  predicate AtTest(m: Which, t: Transfer) {
    match m
    case Th => t.p.pc.PTest? || t.p.pc.PWoken?
    case Pool => t.p.pc.PSegTest? || t.p.pc.PSegWoken?
    case Workers => t.c.pc.CTest? || t.c.pc.CWoken?
  }

  /** Ready to give the unit of region `m` back. */
  predicate AtLeave(m: Which, t: Transfer) {
    match m
    case Th => t.p.pc.PLeaveNF? || t.p.pc.PLeave?
    case Pool => t.p.pc.PRelease?
    case Workers => t.c.pc.CLeave?
  }

  /** The guard of the `while` around `pthread_cond_wait`. */
  ghost predicate Full(cfg: Config, s: State, m: Which) {
    match m
    case Th => s.workThreads >= cfg.nthread
    case Pool => s.status == [] || s.status[0] < 1
    case Workers => s.currentWorkers >= cfg.nworkers
  }

  function Slept(m: Which, t: Transfer): Transfer {
    match m
    case Th => t.(p := t.p.(pc := PAsleep))
    case Pool => t.(p := t.p.(pc := PSegAsleep))
    case Workers => t.(c := t.c.(pc := CAsleep))
  }

  /** The critical section behind a passed test. */
  function Admit(s: State, m: Which, i: nat): State
    requires i < |s.ts| && (m == Pool ==> s.status != [])
  {
    var t := s.ts[i];
    match m
    case Th =>
      s.(workThreads := s.workThreads + 1, ts := s.ts[i := t.(p := t.p.(pc := PRequest))])
    case Pool =>
      s.(status := SegmentPool.Take(s.status),
         ts := s.ts[i := t.(p := t.p.(pc := PHead, seg := SegmentPool.Scan(s.status, 0)))])
    case Workers =>
      s.(currentWorkers := s.currentWorkers + 1, ts := s.ts[i := t.(c := t.c.(pc := CParse))])
  }

  /** The closing critical section up to the signal. */
  function GiveBack(s: State, m: Which, i: nat): State
    requires i < |s.ts| && AtLeave(m, s.ts[i]) && (m == Pool ==> s.ts[i].p.seg + 1 < |s.status|)
  {
    var t := s.ts[i];
    match m
    case Th =>
      s.(workThreads := s.workThreads - 1,
         ts := s.ts[i := t.(p := t.p.(pc := if t.p.pc.PLeaveNF? then PHeadNF else PDone))])
    case Pool =>
      s.(status := SegmentPool.Give(s.status, t.p.seg), ts := s.ts[i := t.(p := t.p.(pc := PLeave))])
    case Workers =>
      s.(currentWorkers := s.currentWorkers - 1, ts := s.ts[i := t.(c := t.c.(pc := CDone))])
  }

  // --- Receiving ------------------------------------------------------------------------

  /** `junk` is what the receive buffer happens to hold behind the message. */
  function HeardReply(t: Transfer, junk: string): Option<Reply> {
    if t.reply == None then None else ParseReply(PrintReply(t.reply.value) + junk)
  }

  function HeardSegment(t: Transfer, junk: string): Option<(int, int)> {
    if t.segMsg == None then None
    else ParseSegment(PrintSegment(t.segMsg.value.0, t.segMsg.value.1) + junk)
  }

  // --- Steps of the system --------------------------------------------------------------

  /** The transfer is between `simplecache_get` and its last `read`. */
  predicate UsesFd(c: Cache) {
    match c.pc
    case CSeek | CReplyOk | CReadSeg | CLoop | CWait | CCopy | CLength | CPost | CAdd => true
    case _ => false
  }

  ghost predicate Unused(ts: seq<Transfer>, fd: nat) {
    forall j :: 0 <= j < |ts| && UsesFd(ts[j].c) ==> ts[j].c.fd != fd
  }

  ghost predicate CanTest(s: State, m: Which, i: nat) { i < |s.ts| && AtTest(m, s.ts[i]) }

  ghost function AfterTest(cfg: Config, s: State, m: Which, i: nat): State
    requires CanTest(s, m, i)
  {
    if Full(cfg, s, m) then s.(ts := s.ts[i := Slept(m, s.ts[i])]) else Admit(s, m, i)
  }

  ghost predicate CanLeave(s: State, m: Which, i: nat) {
    i < |s.ts| && AtLeave(m, s.ts[i]) && (m == Pool ==> s.ts[i].p.seg + 1 < |s.status|)
  }

  function AfterWake(s: State, m: Which, w: nat): State { s.(ts := Wake(m, s.ts, w)) }

  predicate CanProxy(s: State, i: nat) {
    i < |s.ts| && ProxyReady(s.ts[i], SegAt(s.segs, s.ts[i].p.seg))
  }

  function AfterProxy(cfg: Config, s: State, i: nat, junk: string): State
    requires |cfg.paths| == |s.ts| && CanProxy(s, i)
  {
    var t := s.ts[i];
    var (t', g) := ProxyLocal(cfg, cfg.paths[i], t, SegAt(s.segs, t.p.seg), HeardReply(t, junk));
    s.(ts := s.ts[i := t'], segs := PutSeg(s.segs, t.p.seg, g))
  }

  predicate CanCache(cfg: Config, s: State, i: nat, k: nat) {
    && i < |s.ts|
    && CacheReady(cfg, s.ts[i], SegAt(s.segs, s.ts[i].c.seg), OffAt(s.offs, s.ts[i].c.fd), k)
  }

  function AfterCache(cfg: Config, s: State, i: nat, k: nat, junk: string): State
    requires CanCache(cfg, s, i, k)
  {
    var t := s.ts[i];
    PutLocal(s, i, CacheLocal(cfg, t, SegAt(s.segs, t.c.seg), OffAt(s.offs, t.c.fd), k,
                              ParseRequest(t.c.buffer), HeardSegment(t, junk)))
  }

  function PutLocal(s: State, i: nat, l: Local): State
    requires i < |s.ts|
  {
    var c := s.ts[i].c;
    s.(ts := s.ts[i := l.t], segs := PutSeg(s.segs, c.seg, l.g),
       offs := if l.off == OffAt(s.offs, c.fd) then s.offs else s.offs[c.fd := l.off])
  }

  predicate CanAccept(s: State, i: nat) { i < |s.ts| && s.ts[i].c.pc.CNone? && s.ts[i].req.Some? }

  /** The accept loop receives the request into its reused buffer, copies it for a cache thread,
      without the terminator, into memory that holds `junk`, and starts the thread. */
  function AfterAccept(s: State, i: nat, junk: string): State
    requires CanAccept(s, i)
  {
    var t := s.ts[i];
    var message := PrintRequest(t.req.value);
    var received := if |message| <= |s.buffer| then message else message[..|s.buffer|];
    var buffer := Overwrite(s.buffer, received);
    var c := match CopyOut(buffer)
      case None => t.c.(pc := CExit)
      case Some(copy) => t.c.(pc := CTest, buffer := copy + junk);
    s.(ts := s.ts[i := t.(req := None, c := c)], buffer := buffer)
  }

  ghost predicate CanGet(cfg: Config, s: State, i: nat, fd: nat) {
    && i < |s.ts| && s.ts[i].c.pc.CGet?
    && (if cfg.descriptors.Own? then Unused(s.ts, fd) else fd == FdOf(cfg, s.ts[i].c.key))
  }

  /** `simplecache_get`, which answers with descriptor `fd` or with -1. */
  function AfterGet(cfg: Config, s: State, i: nat, fd: nat): State
    requires i < |s.ts|
  {
    var t := s.ts[i];
    var c := if t.c.key in cfg.files then t.c.(pc := CSeek, fd := fd) else t.c.(pc := CReplyNF);
    s.(ts := s.ts[i := t.(c := c)])
  }

  datatype Action =
    | Test(m: Which, i: nat)
    | Leave(m: Which, i: nat, w: nat)
    | Spurious(m: Which, w: nat)
    | ProxyStep(i: nat, junk: string)
    | CacheStep(i: nat, k: nat, junk: string)
    | Accept(i: nat, junk: string)
    | Get(i: nat, fd: nat)

  ghost predicate Enabled(cfg: Config, s: State, a: Action) {
    match a
    case Test(m, i) => CanTest(s, m, i)
    case Leave(m, i, w) => CanLeave(s, m, i) && Monitor.Signals(Phases(m, GiveBack(s, m, i).ts), w)
    case Spurious(m, w) => w < |s.ts| && PhaseOf(m, s.ts[w]) == Monitor.Asleep
    case ProxyStep(i, junk) => CanProxy(s, i)
    case CacheStep(i, k, junk) => CanCache(cfg, s, i, k)
    case Accept(i, junk) => CanAccept(s, i)
    case Get(i, fd) => CanGet(cfg, s, i, fd)
  }

  ghost function Next(cfg: Config, s: State, a: Action): State
    requires |cfg.paths| == |s.ts| && Enabled(cfg, s, a)
  {
    match a
    case Test(m, i) => AfterTest(cfg, s, m, i)
    case Leave(m, i, w) => AfterWake(GiveBack(s, m, i), m, w)
    case Spurious(m, w) => AfterWake(s, m, w)
    case ProxyStep(i, junk) => AfterProxy(cfg, s, i, junk)
    case CacheStep(i, k, junk) => AfterCache(cfg, s, i, k, junk)
    case Accept(i, junk) => AfterAccept(s, i, junk)
    case Get(i, fd) => AfterGet(cfg, s, i, fd)
  }

  // --- Runs -----------------------------------------------------------------------------

  /** A finite run: the states it visits, and the action between each two of them. */
  ghost predicate Run(cfg: Config, states: seq<State>, actions: seq<Action>) {
    && |states| == |actions| + 1
    && Init(cfg, states[0])
    && forall n :: 0 <= n < |actions| ==> IsStep(cfg, states[n], actions[n], states[n + 1])
  }

  ghost predicate IsStep(cfg: Config, s: State, a: Action, s': State) {
    |cfg.paths| == |s.ts| && Enabled(cfg, s, a) && s' == Next(cfg, s, a)
  }

  ghost predicate Reachable(cfg: Config, s: State) {
    exists states, actions :: Run(cfg, states, actions) && states[|actions|] == s
  }
}
