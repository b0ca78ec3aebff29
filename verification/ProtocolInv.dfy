/** The inductive invariant of the protocol. */
module ProtocolInv {
  import opened Wrappers
  import opened Segment
  import Monitor
  import SegmentPool
  import Text
  import opened Wire
  import opened Protocol

  // --- Groups of program points ---------------------------------------------------------

  ghost predicate BeforeRequest(pc: ProxyPc) { pc.PTest? || pc.PAsleep? || pc.PWoken? || pc.PRequest? }

  ghost predicate Choosing(pc: ProxyPc) { pc.PSegTest? || pc.PSegAsleep? || pc.PSegWoken? }

  ghost predicate InLoop(pc: ProxyPc) { pc.PWait? || pc.PSend? || pc.PPost? || pc.PAdd? }

  /** The proxy thread owns a segment. */
  ghost predicate Holding(pc: ProxyPc) {
    pc.PHead? || pc.PSendSeg? || pc.PLoop? || InLoop(pc) || pc.PRelease?
  }

  /** The cache thread has been admitted but has not looked for the file yet, or is not there. */
  ghost predicate Arriving(pc: CachePc) { pc.CTest? || pc.CAsleep? || pc.CWoken? || pc.CParse? }

  /** The cache thread waits for the writer semaphore or is between it and `sem_post`. */
  ghost predicate Touching(pc: CachePc) { pc.CWait? || pc.CCopy? || pc.CLength? || pc.CPost? }

  ghost predicate Streaming(pc: CachePc) { pc.CLoop? || Touching(pc) || pc.CAdd? }

  // --- The two byte counters ------------------------------------------------------------

  /** Bytes the cache has made available: a chunk counts from `sem_post(sem_reader)` on. */
  ghost function Placed(c: Cache): nat { c.bytesRead + if c.pc.CAdd? then c.readLen else 0 }

  /** Bytes the proxy has finished with: a chunk counts from `sem_post(sem_writer)` on. */
  ghost function Consumed(p: Proxy): nat { p.bytesSend + if p.pc.PAdd? then p.sendLen else 0 }

  /** Bytes the proxy has passed on to its client. */
  ghost function SentLen(p: Proxy): nat {
    p.bytesSend + if p.pc.PPost? || p.pc.PAdd? then p.sendLen else 0
  }

  /** Where the cache thread's descriptor stands. */
  ghost function Offset(c: Cache): nat {
    c.bytesRead + if c.pc.CLength? || c.pc.CPost? || c.pc.CAdd? then c.readLen else 0
  }

  // --- Descriptors ----------------------------------------------------------------------

  /** The proxy thread has returned its segment. */
  ghost predicate Released(t: Transfer) { t.p.pc.PLeave? || t.p.pc.PDone? }

  /** The cache thread may still read through its descriptor: once the proxy thread has returned
      its segment it never will. */
  ghost predicate LiveFd(t: Transfer) { UsesFd(t.c) && !Released(t) }

  /** No other transfer moves the descriptor of this one while it reads. */
  ghost predicate Exact(cfg: Config, i: nat)
    requires i < |cfg.paths|
  {
    Alone(cfg) || forall j :: 0 <= j < |cfg.paths| && j != i ==> cfg.paths[j] != cfg.paths[i]
  }

  /** The bytes of this transfer are those of its file. Otherwise a `lseek` of another transfer
      may rewind it, or a `read` of another one may run ahead of it. */
  ghost predicate Whole(cfg: Config, i: nat)
    requires i < |cfg.paths|
  {
    Exact(cfg, i) || |Data(cfg, i)| < 2
  }

  lemma ExactUnlessRepeated(cfg: Config, i: nat, size: nat)
    requires i < |cfg.paths| && size >= 1 && (Alone(cfg) || !Repeated(cfg, size)) && !Exact(cfg, i)
    ensures |Data(cfg, i)| < size
  {
    var j: nat :| j < |cfg.paths| && j != i && cfg.paths[j] == cfg.paths[i];
    assert !SameFile(cfg, i, j) || |Data(cfg, i)| < size;
    assert !SameFile(cfg, j, i) || |Data(cfg, j)| < size;
  }

  // --- One thread by itself -------------------------------------------------------------

  ghost predicate ProxyInv(cfg: Config, i: nat, p: Proxy)
    requires i < |cfg.paths|
  {
    var data := Data(cfg, i);
    && !p.pc.PExit?
    && |p.sent| == SentLen(p)
    && (Whole(cfg, i) ==> p.sent <= data)
    && (!Holding(p.pc) && !p.pc.PLeave? && !p.pc.PDone? ==> p.bytesSend == p.rounds == 0)
    && (p.pc.PHead? || p.pc.PSendSeg? ==> p.bytesSend == 0)
    && (Choosing(p.pc) || Holding(p.pc) ==> p.filelen == |data|)
    && (Holding(p.pc) ==> p.seg < cfg.nseg)
    && (InLoop(p.pc) ==> p.bytesSend < |data|)
    && (p.pc.PPost? || p.pc.PAdd? ==> Exact(cfg, i) ==> p.sendLen >= 1)
    && (p.pc.PRelease? || p.pc.PLeave? || p.pc.PDone? ==> p.bytesSend >= |data|)
    && p.head == (
      if p.pc.PDone? && !IsFound(cfg, i) then NotFoundHead
      else if p.pc.PLeave? || p.pc.PDone? || (Holding(p.pc) && !p.pc.PHead?) then OkHead(|data|)
      else NoHead)
  }

  ghost predicate CacheInv(cfg: Config, i: nat, c: Cache)
    requires i < |cfg.paths|
  {
    var data := Data(cfg, i);
    && !c.pc.CExit?
    && (!c.pc.CNone? && !Arriving(c.pc) ==> c.key == cfg.paths[i])
    && (c.pc.CReplyNF? ==> !IsFound(cfg, i))
    && (UsesFd(c) ==> IsFound(cfg, i))
    && (UsesFd(c) && cfg.descriptors.PerFile? ==> c.fd == FdOf(cfg, cfg.paths[i]))
    && (UsesFd(c) && !c.pc.CSeek? ==> c.filelen == |data|)
    && (!Streaming(c.pc) && !c.pc.CLeave? && !c.pc.CDone? ==> c.bytesRead == c.rounds == 0)
    && (Streaming(c.pc) ==> c.segsize == cfg.segsize)
    && (Touching(c.pc) || c.pc.CAdd? ==> c.bytesRead < |data|)
    && (c.pc.CLength? || c.pc.CPost? || c.pc.CAdd? ==>
      && c.readLen <= cfg.segsize - RESERVED
      && (Exact(cfg, i) ==> c.readLen >= 1))
    && (c.pc.CLeave? || c.pc.CDone? ==> c.bytesRead >= |data|)
    && (Whole(cfg, i) ==> Offset(c) <= |data|)
  }

  /** The request buffer of a cache thread still says what the proxy thread asked for. */
  ghost predicate BufferInv(cfg: Config, i: nat, c: Cache)
    requires i < |cfg.paths|
  {
    Arriving(c.pc) ==> ParseRequest(c.buffer) == Some(cfg.paths[i])
  }

  /** The descriptor of a reading transfer stands where the transfer thinks it does. */
  ghost predicate OffsetInv(cfg: Config, i: nat, t: Transfer, off: nat)
    requires i < |cfg.paths|
  {
    Exact(cfg, i) && LiveFd(t) && !t.c.pc.CSeek? ==> off == Offset(t.c)
  }

  // --- The two threads of a transfer together -------------------------------------------

  ghost function Answer(cfg: Config, i: nat): Reply
    requires i < |cfg.paths|
  {
    if IsFound(cfg, i) then Found(|Data(cfg, i)|) else NotFound
  }

  /** The cache thread has replied and not received the segment message. */
  ghost predicate Answered(cfg: Config, i: nat, pc: CachePc)
    requires i < |cfg.paths|
  {
    if IsFound(cfg, i) then pc.CReadSeg? else pc.CLeave? || pc.CDone?
  }

  /** Which messages are under way, and how far each side can be. */
  ghost predicate ChannelInv(cfg: Config, i: nat, t: Transfer)
    requires i < |cfg.paths|
  {
    var p, c := t.p, t.c;
    if BeforeRequest(p.pc) then
      c.pc.CNone? && t.req == None && t.reply == None && t.segMsg == None
    else if p.pc.PReceive? then
      && t.segMsg == None
      && t.req == (if c.pc.CNone? then Some(cfg.paths[i]) else None)
      && t.reply == (if Answered(cfg, i, c.pc) then Some(Answer(cfg, i)) else None)
      && !Streaming(c.pc)
      && (c.pc.CLeave? || c.pc.CDone? ==> !IsFound(cfg, i) && c.rounds == 0)
    else
      && t.req == None && t.reply == None
      && (if !IsFound(cfg, i) then
            && t.segMsg == None && (c.pc.CLeave? || c.pc.CDone?) && c.rounds == p.rounds == 0
            && (p.pc.PLeaveNF? || p.pc.PHeadNF? || p.pc.PDone?)
          else if Choosing(p.pc) || p.pc.PHead? || p.pc.PSendSeg? then
            c.pc.CReadSeg? && t.segMsg == None
          else
            && (Holding(p.pc) || p.pc.PLeave? || p.pc.PDone?)
            && t.segMsg == (if c.pc.CReadSeg? then Some((p.seg, cfg.segsize)) else None)
            && (c.pc.CReadSeg? || Streaming(c.pc) || c.pc.CLeave? || c.pc.CDone?)
            && (Streaming(c.pc) ==> c.seg == p.seg)
            && (!Holding(p.pc) ==> Placed(c) == p.bytesSend && c.rounds == p.rounds && !Touching(c.pc)))
  }

  ghost predicate TransferInv(cfg: Config, i: nat, t: Transfer)
    requires i < |cfg.paths|
  {
    ProxyInv(cfg, i, t.p) && CacheInv(cfg, i, t.c) && ChannelInv(cfg, i, t)
  }

  // --- A transfer and the segment it holds ----------------------------------------------

  ghost predicate Writing(c: Cache) { c.pc.CCopy? || c.pc.CLength? || c.pc.CPost? }

  ghost predicate Reading(p: Proxy) { p.pc.PSend? || p.pc.PPost? }

  ghost function One(b: bool): nat { if b then 1 else 0 }

  /** The chunk that is being written, or lies in the segment, is the next part of the file. */
  ghost predicate Contents(data: seq<Byte>, t: Transfer, g: Seg) {
    var p, c := t.p, t.c;
    && Offset(c) <= |data|
    && (c.pc.CLength? ==>
      WORD + c.readLen <= |g.mem| && g.mem[WORD..WORD + c.readLen] == data[c.bytesRead..c.bytesRead + c.readLen])
    && (c.pc.CPost? ==> Load(g.mem) == Some(data[c.bytesRead..c.bytesRead + c.readLen]))
    && (g.reader == 1 || Reading(p) ==>
      Consumed(p) <= Placed(c) <= |data| && Load(g.mem) == Some(data[Consumed(p)..Placed(c)]))
  }

  /** The hand-off: there is one token, and whoever has it finds the segment as it should be. */
  ghost predicate HandOff(cfg: Config, i: nat, t: Transfer, g: Seg)
    requires i < |cfg.paths|
  {
    var p, c, data := t.p, t.c, Data(cfg, i);
    && |g.mem| == cfg.segsize
    && g.writer + g.reader + One(Writing(c)) + One(Reading(p)) == 1
    && c.rounds == p.rounds + g.reader + One(Reading(p))
    && (c.pc.CLength? ==> WORD + c.readLen <= cfg.segsize)
    && (g.writer == 1 || Writing(c) ==> Placed(c) == Consumed(p))
    && (c.pc.CPost? ==> Load(g.mem).Some? && |Load(g.mem).value| == c.readLen)
    && (g.reader == 1 || Reading(p) ==>
      && Consumed(p) <= Placed(c) <= Consumed(p) + cfg.segsize - RESERVED && Consumed(p) < |data|
      && (Exact(cfg, i) ==> Consumed(p) < Placed(c))
      && Load(g.mem).Some? && |Load(g.mem).value| == Placed(c) - Consumed(p))
    && (Whole(cfg, i) ==> Contents(data, t, g))
    && (p.pc.PPost? ==> p.sendLen == Placed(c) - Consumed(p))
  }

  // --- The whole state ------------------------------------------------------------------

  ghost predicate ThreadInv(cfg: Config, s: State, i: nat)
    requires i < |s.ts| == |cfg.paths|
  {
    var t := s.ts[i];
    && TransferInv(cfg, i, t)
    && BufferInv(cfg, i, t.c)
    && OffsetInv(cfg, i, t, OffAt(s.offs, t.c.fd))
    && (Holding(t.p.pc) ==>
      && HandOff(cfg, i, t, SegAt(s.segs, t.p.seg))
      && t.p.seg + 1 < |s.status| && s.status[t.p.seg + 1] == 0)
  }

  ghost predicate HeldBy(ts: seq<Transfer>, i: nat, k: nat) {
    i < |ts| && Holding(ts[i].p.pc) && ts[i].p.seg == k
  }

  /** A free segment is as good as new, and a segment that is not free has a holder. */
  ghost predicate FreeInv(cfg: Config, s: State, k: nat) {
    k + 1 < |s.status| ==>
      if s.status[k + 1] == 1 then FreshSeg(cfg, SegAt(s.segs, k)) else exists i: nat :: HeldBy(s.ts, i, k)
  }

  ghost predicate Apart(cfg: Config, i: nat, j: nat, t: Transfer, u: Transfer)
    requires i < |cfg.paths| && j < |cfg.paths|
  {
    && (Holding(t.p.pc) && Holding(u.p.pc) ==> t.p.seg != u.p.seg)
    && (LiveFd(t) && LiveFd(u) && t.c.fd == u.c.fd ==> !Exact(cfg, i) && !Exact(cfg, j))
  }

  ghost predicate Core(cfg: Config, s: State) {
    && |s.ts| == |cfg.paths| && |s.segs| == cfg.nseg && |s.status| == cfg.nseg + 1
    && (forall i: nat :: i < |s.ts| ==> ThreadInv(cfg, s, i))
    && (forall i: nat, j: nat :: i < j < |s.ts| ==> Apart(cfg, i, j, s.ts[i], s.ts[j]))
    && (forall k: nat :: k < cfg.nseg ==> FreeInv(cfg, s, k))
  }

  ghost predicate Inv(cfg: Config, s: State) {
    && Core(cfg, s) && HasRoom(cfg, s.buffer)
    && SegmentPool.Conserved(s.status)
    && (forall m :: Monitor.Inv(Mon(cfg, s, m)))
  }

  // --- Steps that stay within one transfer ----------------------------------------------

  ghost predicate LocalInv(cfg: Config, i: nat, t: Transfer, g: Seg, off: nat)
    requires i < |cfg.paths|
  {
    TransferInv(cfg, i, t) && OffsetInv(cfg, i, t, off) && (Holding(t.p.pc) ==> HandOff(cfg, i, t, g))
  }

  /** What a proxy step of its own keeps: everything about its transfer, and every segment but
      the one it holds. */
  ghost predicate ProxyKeeps(cfg: Config, i: nat, t: Transfer, g: Seg, off: nat, heard: Option<Reply>)
    requires i < |cfg.paths| && ProxyReady(t, g)
  {
    var (t', g') := ProxyLocal(cfg, cfg.paths[i], t, g, heard);
    && LocalInv(cfg, i, t', g', off)
    && Holding(t.p.pc) == Holding(t'.p.pc) && t'.p.seg == t.p.seg && t'.c == t.c
    && (!Holding(t.p.pc) ==> g' == g)
  }

  lemma ProxyPart(cfg: Config, i: nat, t: Transfer, g: Seg, heard: Option<Reply>)
    requires i < |cfg.paths| && ProxyReady(t, g) && ProxyInv(cfg, i, t.p)
    requires t.p.pc.PReceive? ==> heard == Some(Answer(cfg, i))
    requires t.p.pc.PHeadNF? ==> !IsFound(cfg, i)
    requires t.p.pc.PSend? ==> SendsNext(cfg, i, t.p, g)
    ensures ProxyInv(cfg, i, ProxyLocal(cfg, cfg.paths[i], t, g, heard).0.p)
  {
  }

  ghost predicate SendsNext(cfg: Config, i: nat, p: Proxy, g: Seg)
    requires i < |cfg.paths|
  {
    && Load(g.mem).Some?
    && (Whole(cfg, i) ==> p.sent + Load(g.mem).value <= Data(cfg, i))
    && (Exact(cfg, i) ==> Load(g.mem).value != [])
  }

  lemma ChannelPart(cfg: Config, i: nat, t: Transfer, g: Seg, heard: Option<Reply>)
    requires i < |cfg.paths| && ProxyReady(t, g) && ChannelInv(cfg, i, t)
    requires t.p.pc.PReceive? ==> heard == Some(Answer(cfg, i)) && t.p.rounds == 0
    requires t.p.pc.PSend? ==> Load(g.mem).Some?
    ensures ChannelInv(cfg, i, ProxyLocal(cfg, cfg.paths[i], t, g, heard).0)
  {
  }

  ghost predicate HandsOff(cfg: Config, i: nat, t: Transfer, g: Seg, heard: Option<Reply>)
    requires i < |cfg.paths| && ProxyReady(t, g)
  {
    var (t', g') := ProxyLocal(cfg, cfg.paths[i], t, g, heard);
    HandOff(cfg, i, t', g')
  }

  lemma TellHandsOff(cfg: Config, i: nat, t: Transfer, g: Seg, heard: Option<Reply>)
    requires i < |cfg.paths| && ProxyReady(t, g) && HandOff(cfg, i, t, g)
    requires t.p.pc.PHead? || (t.p.pc.PSendSeg? && t.p.bytesSend == 0)
    ensures HandsOff(cfg, i, t, g, heard)
  {
    hide Load, Exact, Whole;
  }

  lemma LoopHandsOff(cfg: Config, i: nat, t: Transfer, g: Seg, heard: Option<Reply>)
    requires i < |cfg.paths| && ProxyReady(t, g) && HandOff(cfg, i, t, g) && t.p.pc.PLoop?
    ensures HandsOff(cfg, i, t, g, heard)
  {
    hide Load, Exact, Whole;
  }

  lemma AddHandsOff(cfg: Config, i: nat, t: Transfer, g: Seg, heard: Option<Reply>)
    requires i < |cfg.paths| && ProxyReady(t, g) && HandOff(cfg, i, t, g) && t.p.pc.PAdd?
    ensures HandsOff(cfg, i, t, g, heard)
  {
    hide Load, Exact, Whole;
  }

  lemma WaitHandsOff(cfg: Config, i: nat, t: Transfer, g: Seg, heard: Option<Reply>)
    requires i < |cfg.paths| && ProxyReady(t, g) && HandOff(cfg, i, t, g) && t.p.pc.PWait?
    ensures HandsOff(cfg, i, t, g, heard)
  {
  }

  lemma SendHandsOff(cfg: Config, i: nat, t: Transfer, g: Seg, heard: Option<Reply>)
    requires i < |cfg.paths| && ProxyReady(t, g) && HandOff(cfg, i, t, g) && t.p.pc.PSend?
    ensures HandsOff(cfg, i, t, g, heard)
  {
  }

  lemma PostHandsOff(cfg: Config, i: nat, t: Transfer, g: Seg, heard: Option<Reply>)
    requires i < |cfg.paths| && ProxyReady(t, g) && HandOff(cfg, i, t, g) && t.p.pc.PPost?
    ensures HandsOff(cfg, i, t, g, heard)
  {
  }

  lemma HandOffPart(cfg: Config, i: nat, t: Transfer, g: Seg, heard: Option<Reply>)
    requires i < |cfg.paths| && ProxyReady(t, g) && HandOff(cfg, i, t, g) && Holding(t.p.pc)
    requires t.p.pc.PSendSeg? ==> t.p.bytesSend == 0
    ensures HandsOff(cfg, i, t, g, heard)
  {
    match t.p.pc
    case PHead | PSendSeg => TellHandsOff(cfg, i, t, g, heard);
    case PLoop => LoopHandsOff(cfg, i, t, g, heard);
    case PAdd => AddHandsOff(cfg, i, t, g, heard);
    case PWait => WaitHandsOff(cfg, i, t, g, heard);
    case PSend => SendHandsOff(cfg, i, t, g, heard);
    case PPost => PostHandsOff(cfg, i, t, g, heard);
  }

  lemma ProxyFrame(cfg: Config, path: string, t: Transfer, g: Seg, heard: Option<Reply>)
    requires ProxyReady(t, g) && (t.p.pc.PSend? ==> Load(g.mem).Some?)
    ensures var (t', g') := ProxyLocal(cfg, path, t, g, heard);
      && Holding(t.p.pc) == Holding(t'.p.pc) && t'.p.seg == t.p.seg && t'.c == t.c
      && (!Holding(t.p.pc) ==> g' == g)
      && (Released(t) ==> Released(t'))
  {
  }

  /** What is in the segment for the proxy thread is the next part of its file. */
  lemma NextIsSent(cfg: Config, i: nat, t: Transfer, g: Seg)
    requires i < |cfg.paths| && ProxyInv(cfg, i, t.p) && HandOff(cfg, i, t, g) && t.p.pc.PSend?
    ensures SendsNext(cfg, i, t.p, g)
  {
    if Whole(cfg, i) {
      SendNext(Data(cfg, i), t.p.sent, Placed(t.c));
    }
  }

  lemma SendNext(data: seq<Byte>, sent: seq<Byte>, to: nat)
    requires sent <= data && |sent| <= to <= |data|
    ensures sent + data[|sent|..to] == data[..to]
  {
  }

  lemma ProxyLocalKeeps(cfg: Config, i: nat, t: Transfer, g: Seg, off: nat, heard: Option<Reply>)
    requires i < |cfg.paths| && LocalInv(cfg, i, t, g, off) && ProxyReady(t, g)
    requires t.reply.Some? ==> heard == t.reply
    ensures ProxyKeeps(cfg, i, t, g, off, heard)
  {
    if t.p.pc.PSend? {
      NextIsSent(cfg, i, t, g);
    }
    ReplyIsAnswer(cfg, i, t);
    ProxyPart(cfg, i, t, g, heard);
    ChannelPart(cfg, i, t, g, heard);
    ProxyFrame(cfg, cfg.paths[i], t, g, heard);
    if Holding(t.p.pc) {
      HandOffPart(cfg, i, t, g, heard);
    }
  }

  lemma ReplyIsAnswer(cfg: Config, i: nat, t: Transfer)
    requires i < |cfg.paths| && TransferInv(cfg, i, t)
    ensures t.p.pc.PReceive? && t.reply.Some? ==> t.reply == Some(Answer(cfg, i))
    ensures t.p.pc.PHeadNF? ==> !IsFound(cfg, i)
    ensures t.p.pc.PReceive? ==> t.p.rounds == 0
  {
  }

  /** What a cache step of its own keeps. Its own segment matters only between the two
      semaphores, and there it is the one that the proxy thread holds. */
  ghost predicate CacheKeeps(cfg: Config, i: nat, t: Transfer, g: Seg, gp: Seg, off: nat, k: nat,
                             info: Option<(int, int)>)
    requires i < |cfg.paths| && CacheReady(cfg, t, g, off, k)
  {
    var l := CacheLocal(cfg, t, g, off, k, Some(cfg.paths[i]), info);
    && LocalInv(cfg, i, l.t, if Touching(t.c.pc) then l.g else gp, l.off)
    && l.t.p == t.p && (UsesFd(l.t.c) ==> UsesFd(t.c) && l.t.c.fd == t.c.fd)
    && (Touching(t.c.pc) ==> Holding(t.p.pc) && t.c.seg == t.p.seg)
    && (!Touching(t.c.pc) ==> l.g == g)
    && (!LiveFd(t) ==> l.off == off)
  }

  ghost predicate CachePre(cfg: Config, i: nat, t: Transfer, g: Seg, gp: Seg, off: nat, k: nat,
                           info: Option<(int, int)>)
    requires i < |cfg.paths|
  {
    && Sane(cfg) && LocalInv(cfg, i, t, gp, off) && CacheReady(cfg, t, g, off, k)
    && (Touching(t.c.pc) ==> g == gp)
    && (t.segMsg.Some? ==> info == Some((t.segMsg.value.0 as int, t.segMsg.value.1 as int)))
  }

  /** What the received messages and `read` bring. */
  ghost predicate CacheInput(cfg: Config, i: nat, t: Transfer, g: Seg, k: nat, info: Option<(int, int)>)
    requires i < |cfg.paths|
  {
    && |Data(cfg, i)| < Text.INT_LIMIT && MIN_SEGSIZE <= cfg.segsize
    && (Touching(t.c.pc) ==> |g.mem| == cfg.segsize)
    && (t.c.pc.CReadSeg? ==> info == Some((t.p.seg as int, cfg.segsize as int)))
    && (t.c.pc.CCopy? ==>
      && (Exact(cfg, i) ==> k >= 1)
      && (Whole(cfg, i) ==> t.c.bytesRead + k <= |Data(cfg, i)|))
  }

  ghost function AfterLocal(cfg: Config, i: nat, t: Transfer, g: Seg, off: nat, k: nat, info: Option<(int, int)>): Local
    requires i < |cfg.paths| && CacheReady(cfg, t, g, off, k)
  {
    CacheLocal(cfg, t, g, off, k, Some(cfg.paths[i]), info)
  }

  lemma CachePart(cfg: Config, i: nat, t: Transfer, g: Seg, off: nat, k: nat, info: Option<(int, int)>)
    requires i < |cfg.paths| && CacheReady(cfg, t, g, off, k) && CacheInv(cfg, i, t.c)
    requires CacheInput(cfg, i, t, g, k, info)
    ensures CacheInv(cfg, i, AfterLocal(cfg, i, t, g, off, k, info).t.c)
  {
  }

  lemma CacheChannelPart(cfg: Config, i: nat, t: Transfer, g: Seg, off: nat, k: nat, info: Option<(int, int)>)
    requires i < |cfg.paths| && CacheReady(cfg, t, g, off, k) && TransferInv(cfg, i, t)
    requires CacheInput(cfg, i, t, g, k, info)
    ensures ChannelInv(cfg, i, AfterLocal(cfg, i, t, g, off, k, info).t)
  {
  }

  lemma OffsetPart(cfg: Config, i: nat, t: Transfer, g: Seg, off: nat, k: nat, info: Option<(int, int)>)
    requires i < |cfg.paths| && CacheReady(cfg, t, g, off, k) && CacheInv(cfg, i, t.c) && OffsetInv(cfg, i, t, off)
    requires CacheInput(cfg, i, t, g, k, info)
    ensures var l := AfterLocal(cfg, i, t, g, off, k, info); OffsetInv(cfg, i, l.t, l.off)
  {
  }

  /** The hand-off after the step, with what the proxy thread's segment is then. */
  ghost predicate CacheHandsOff(cfg: Config, i: nat, t: Transfer, g: Seg, gp: Seg, off: nat, k: nat,
                                info: Option<(int, int)>)
    requires i < |cfg.paths| && CacheReady(cfg, t, g, off, k)
  {
    var l := AfterLocal(cfg, i, t, g, off, k, info);
    HandOff(cfg, i, l.t, if Touching(t.c.pc) then l.g else gp)
  }

  lemma JoinHandsOff(cfg: Config, i: nat, t: Transfer, g: Seg, gp: Seg, off: nat, k: nat, info: Option<(int, int)>)
    requires i < |cfg.paths| && CacheReady(cfg, t, g, off, k) && CacheInput(cfg, i, t, g, k, info)
    requires HandOff(cfg, i, t, gp) && t.c.pc.CReadSeg? && t.c.bytesRead == 0
    ensures CacheHandsOff(cfg, i, t, g, gp, off, k, info)
  {
    hide Load, Exact, Whole;
  }

  lemma TestHandsOff(cfg: Config, i: nat, t: Transfer, g: Seg, gp: Seg, off: nat, k: nat, info: Option<(int, int)>)
    requires i < |cfg.paths| && CacheReady(cfg, t, g, off, k)
    requires HandOff(cfg, i, t, gp) && t.c.pc.CLoop?
    ensures CacheHandsOff(cfg, i, t, g, gp, off, k, info)
  {
    hide Load, Exact, Whole;
  }

  lemma CountHandsOff(cfg: Config, i: nat, t: Transfer, g: Seg, gp: Seg, off: nat, k: nat, info: Option<(int, int)>)
    requires i < |cfg.paths| && CacheReady(cfg, t, g, off, k)
    requires HandOff(cfg, i, t, gp) && t.c.pc.CAdd?
    ensures CacheHandsOff(cfg, i, t, g, gp, off, k, info)
  {
    hide Load, Exact, Whole;
  }

  lemma TakeHandsOff(cfg: Config, i: nat, t: Transfer, g: Seg, off: nat, k: nat, info: Option<(int, int)>)
    requires i < |cfg.paths| && CacheReady(cfg, t, g, off, k)
    requires HandOff(cfg, i, t, g) && t.c.pc.CWait?
    ensures CacheHandsOff(cfg, i, t, g, g, off, k, info)
  {
  }

  lemma CopyHandsOff(cfg: Config, i: nat, t: Transfer, g: Seg, off: nat, k: nat, info: Option<(int, int)>)
    requires i < |cfg.paths| && CacheReady(cfg, t, g, off, k) && CacheInput(cfg, i, t, g, k, info)
    requires HandOff(cfg, i, t, g) && t.c.pc.CCopy? && t.c.key == cfg.paths[i] && t.c.segsize == cfg.segsize
    requires Whole(cfg, i) ==> ReadBytes(Data(cfg, i), off, k) == Data(cfg, i)[t.c.bytesRead..t.c.bytesRead + k]
    ensures CacheHandsOff(cfg, i, t, g, g, off, k, info)
  {
    ChunkStored(g.mem, ReadBytes(Data(cfg, i), off, k));
  }

  lemma LengthHandsOff(cfg: Config, i: nat, t: Transfer, g: Seg, off: nat, k: nat, info: Option<(int, int)>)
    requires i < |cfg.paths| && CacheReady(cfg, t, g, off, k) && CacheInput(cfg, i, t, g, k, info)
    requires HandOff(cfg, i, t, g) && t.c.pc.CLength? && t.c.readLen < 0x8000_0000
    ensures CacheHandsOff(cfg, i, t, g, g, off, k, info)
  {
    LengthExposesChunk(g.mem, t.c.readLen);
  }

  lemma PutHandsOff(cfg: Config, i: nat, t: Transfer, g: Seg, off: nat, k: nat, info: Option<(int, int)>)
    requires i < |cfg.paths| && CacheReady(cfg, t, g, off, k) && CacheInv(cfg, i, t.c)
    requires HandOff(cfg, i, t, g) && t.c.pc.CPost?
    ensures CacheHandsOff(cfg, i, t, g, g, off, k, info)
  {
  }

  lemma CacheHandOffPart(cfg: Config, i: nat, t: Transfer, g: Seg, gp: Seg, off: nat, k: nat,
                         info: Option<(int, int)>)
    requires i < |cfg.paths| && CacheReady(cfg, t, g, off, k) && CacheInput(cfg, i, t, g, k, info)
    requires CacheInv(cfg, i, t.c) && HandOff(cfg, i, t, gp) && (Touching(t.c.pc) ==> g == gp)
    requires t.c.pc.CReadSeg? || Streaming(t.c.pc)
    requires t.c.pc.CCopy? && Whole(cfg, i) ==>
      ReadBytes(Data(cfg, i), off, k) == Data(cfg, i)[t.c.bytesRead..t.c.bytesRead + k]
    requires cfg.segsize < Text.INT_LIMIT
    ensures CacheHandsOff(cfg, i, t, g, gp, off, k, info)
  {
    match t.c.pc
    case CReadSeg => JoinHandsOff(cfg, i, t, g, gp, off, k, info);
    case CLoop => TestHandsOff(cfg, i, t, g, gp, off, k, info);
    case CAdd => CountHandsOff(cfg, i, t, g, gp, off, k, info);
    case CWait => TakeHandsOff(cfg, i, t, g, off, k, info);
    case CCopy => CopyHandsOff(cfg, i, t, g, off, k, info);
    case CLength => LengthHandsOff(cfg, i, t, g, off, k, info);
    case CPost => PutHandsOff(cfg, i, t, g, off, k, info);
  }

  /** A cache thread that has left its loop, or not yet been told its segment, meets a segment
      only when its proxy thread does. */
  lemma WhoTouches(cfg: Config, i: nat, t: Transfer)
    requires i < |cfg.paths| && TransferInv(cfg, i, t)
    ensures Touching(t.c.pc) ==> Holding(t.p.pc) && t.c.seg == t.p.seg
    ensures t.segMsg.Some? ==> t.segMsg == Some((t.p.seg, cfg.segsize))
    ensures t.c.pc.CSeek? || t.c.pc.CReplyOk? ==> !Released(t) && !Holding(t.p.pc)
    ensures Arriving(t.c.pc) || t.c.pc.CReplyNF? ==> !Holding(t.p.pc)
  {
  }

  /** Everything about a cache step but the invariants. */
  lemma CacheFrame(cfg: Config, i: nat, t: Transfer, g: Seg, off: nat, k: nat, info: Option<(int, int)>)
    requires i < |cfg.paths| && CacheReady(cfg, t, g, off, k)
    requires t.c.pc.CSeek? || Touching(t.c.pc) ==> !Released(t)
    ensures var l := AfterLocal(cfg, i, t, g, off, k, info);
      && l.t.p == t.p && (UsesFd(l.t.c) ==> UsesFd(t.c) && l.t.c.fd == t.c.fd)
      && (!Touching(t.c.pc) ==> l.g == g)
      && (!LiveFd(t) ==> l.off == off)
  {
  }

  /** What `read` returns is the next part of the file. */
  lemma ReadNext(cfg: Config, i: nat, t: Transfer, off: nat, k: nat)
    requires i < |cfg.paths| && CacheInv(cfg, i, t.c) && OffsetInv(cfg, i, t, off)
    requires t.c.pc.CCopy? && !Released(t) && ReadReturns(|Data(cfg, i)|, off, cfg.segsize as int - RESERVED, k)
    ensures Exact(cfg, i) ==> k >= 1
    ensures Whole(cfg, i) ==> t.c.bytesRead + k <= |Data(cfg, i)|
    ensures Whole(cfg, i) ==> ReadBytes(Data(cfg, i), off, k) == Data(cfg, i)[t.c.bytesRead..t.c.bytesRead + k]
  {
    assert Exact(cfg, i) ==> off == t.c.bytesRead;
    assert Whole(cfg, i) && !Exact(cfg, i) ==> t.c.bytesRead == 0;
  }

  lemma CacheLocalKeeps(cfg: Config, i: nat, t: Transfer, g: Seg, gp: Seg, off: nat, k: nat, info: Option<(int, int)>)
    requires i < |cfg.paths| && CachePre(cfg, i, t, g, gp, off, k, info)
    ensures CacheKeeps(cfg, i, t, g, gp, off, k, info)
  {
    WhoTouches(cfg, i, t);
    if t.c.pc.CCopy? {
      ReadNext(cfg, i, t, off, k);
    }
    assert CacheInput(cfg, i, t, g, k, info);
    CachePart(cfg, i, t, g, off, k, info);
    CacheChannelPart(cfg, i, t, g, off, k, info);
    OffsetPart(cfg, i, t, g, off, k, info);
    CacheFrame(cfg, i, t, g, off, k, info);
    if Holding(t.p.pc) {
      CacheHandOffPart(cfg, i, t, g, gp, off, k, info);
    }
  }
}
