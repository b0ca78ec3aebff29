/** The multithreaded file server: every request has a worker thread that passes the admission
    region, sends the header, and sends the file in chunks of whatever `pread` returns. Workers
    share nothing but the region, since `pread` carries its own offset. */
module GfWorker {
  import opened Wire
  import Monitor

  const CHUNK: nat := 4000

  /** `gap` is what the header printer puts between the last word and the terminator. */
  datatype Config = Config(maxThreads: nat, files: map<string, string>, paths: seq<string>, gap: string)

  function NotFoundHeader(gap: string): string { "GETFILE " + ("FILE_NOT_FOUND" + gap + CRLF2) }

  // --- The chunk loop by itself ---------------------------------------------------------

  predicate Pread(file: string, off: nat, k: int) { k <= CHUNK && off + k <= |file| }

  /** The smaller of what the system call could do and what it was told to return. */
  function AtMost(k: int, room: nat): (r: int)
    ensures r <= k && r <= room && (r == k || r == room)
  {
    if k < room then k else room
  }

  /** What a `write` that returned `k` has passed on. */
  function Taken(data: string, k: int): (r: string)
    requires k <= |data|
    ensures r <= data && |r| == if k > 0 then k else 0
  {
    if k > 0 then data[..k] else ""
  }

  lemma SendMore(file: string, at: nat, chunk: string, k: int)
    requires at + |chunk| <= |file| && chunk == file[at..at + |chunk|] && k <= |chunk|
    ensures file[..at] + Taken(chunk, k) == file[..at + |Taken(chunk, k)|]
  {
  }

  /** `pread` into the front of the buffer. */
  method ReadChunk(buffer: array<char>, file: string, at: nat, k: nat) returns (chunk: string)
    requires k <= buffer.Length && at + k <= |file|
    modifies buffer
    ensures chunk == buffer[..k] == file[at..at + k]
  {
    forall i | 0 <= i < k {
      buffer[i] := file[at + i];
    }
    chunk := buffer[..k];
  }

  /** What the two system calls of one round did: `pread` at offset `at` returned `readLen`, and
      then `write` of those bytes returned `writeLen`. */
  datatype Call = Call(at: nat, readLen: int, writeLen: int)

  /** One round: one `pread` that returns `p` at most, one `write` that returns `w` at most. Only a
      `write` of the whole chunk is a success. */
  method SendChunk(buffer: array<char>, file: string, at: nat, p: int, w: int)
    returns (ok: bool, sent: string, call: Call)
    requires buffer.Length == CHUNK && at < |file|
    modifies buffer
    ensures call.at == at && Allowed(call, |file|, p, w)
    ensures ok <==> call.readLen >= 1 && call.writeLen == call.readLen
    ensures at + |sent| <= |file| && sent == file[at..at + |sent|]
    ensures |sent| == if call.readLen >= 1 && call.writeLen >= 1 then call.writeLen else 0
  {
    var readLen := AtMost(p, AtMost(|file| - at, CHUNK));
    if readLen <= 0 {
      return false, "", Call(at, readLen, if w < readLen then w else readLen);
    }
    var chunk := ReadChunk(buffer, file, at, readLen);
    var writeLen := AtMost(w, readLen);
    call := Call(at, readLen, writeLen);
    ok, sent := writeLen == readLen, Taken(chunk, writeLen);
  }

  ghost predicate Full(call: Call) { call.readLen >= 1 && call.writeLen == call.readLen }

  /** Each round but the last is a full one, and goes on where the one before ended. */
  ghost predicate Chained(calls: seq<Call>) {
    && (calls != [] ==> calls[0].at == 0)
    && (forall r :: 0 <= r < |calls| - 1 ==> Full(calls[r]) && calls[r + 1].at == calls[r].at + calls[r].readLen)
  }

  /** The rounds are the calls that the given results allow. */
  ghost predicate Follows(calls: seq<Call>, len: nat, preads: nat -> int, writes: nat -> int) {
    forall r :: 0 <= r < |calls| ==> Allowed(calls[r], len, preads(r), writes(r))
  }

  /** At most what is there, what fits the buffer and `p` is read, and then at most `w` of it
      written; and as much as these allow. */
  ghost predicate Allowed(call: Call, len: nat, p: int, w: int) {
    && call.at < len
    && call.readLen <= p && call.readLen <= 4000 && call.readLen <= len - call.at
    && (call.readLen == p || call.readLen == 4000 || call.readLen == len - call.at)
    && call.writeLen <= w && call.writeLen <= call.readLen
    && (call.writeLen == w || call.writeLen == call.readLen)
  }

  /** Where the next round starts. */
  ghost function Reached(calls: seq<Call>): int {
    if calls == [] then 0 else calls[|calls| - 1].at + calls[|calls| - 1].readLen
  }

  lemma ChainedSnoc(calls: seq<Call>, call: Call)
    requires Chained(calls) && (forall r :: 0 <= r < |calls| ==> Full(calls[r])) && call.at == Reached(calls)
    ensures Chained(calls + [call])
  {
  }

  lemma NoCalls(len: nat, preads: nat -> int, writes: nat -> int)
    ensures Chained([]) && Follows([], len, preads, writes) && Reached([]) == 0
  {
  }

  lemma FollowsSnoc(calls: seq<Call>, call: Call, len: nat, preads: nat -> int, writes: nat -> int)
    requires Follows(calls, len, preads, writes) && Allowed(call, len, preads(|calls|), writes(|calls|))
    ensures Follows(calls + [call], len, preads, writes)
  {
  }

  /** Sends the file from a buffer of 4000 bytes. `preads` and `writes` say how much the successive
      calls do at most: any short read or write, and any failure of either call. The result is the
      length of the file exactly if every `write` took the whole chunk that `pread` had returned;
      at the first call that fails or falls short it is -1, with exactly the bytes sent so far. */
  method SendFile(file: string, preads: nat -> int, writes: nat -> int)
    returns (bytesTransferred: int, sent: string, calls: seq<Call>)
    ensures Chained(calls) && Follows(calls, |file|, preads, writes)
    ensures bytesTransferred == |file| <==> forall r :: 0 <= r < |calls| ==> Full(calls[r])
    ensures bytesTransferred == |file| ==> sent == file && Reached(calls) == |file|
    ensures bytesTransferred != |file| ==>
      bytesTransferred == -1 && calls != [] && var last := calls[|calls| - 1];
      && !Full(last) && sent < file
      && |sent| == last.at + if last.readLen >= 1 && last.writeLen >= 1 then last.writeLen else 0
    ensures (forall r :: preads(r) >= 1 && writes(r) >= 4000) ==> bytesTransferred == |file|
  {
    hide Chained, Follows, Allowed;
    var buffer := new char[CHUNK];
    bytesTransferred, sent, calls := 0, "", [];
    NoCalls(|file|, preads, writes);
    while bytesTransferred < |file|
      invariant 0 <= bytesTransferred <= |file| && |sent| == bytesTransferred && sent <= file
      invariant Chained(calls) && Follows(calls, |file|, preads, writes) && Reached(calls) == bytesTransferred
      invariant forall r :: 0 <= r < |calls| ==> Full(calls[r])
      decreases |file| - bytesTransferred
    {
      var round := |calls|;
      var ok, chunk, call := SendChunk(buffer, file, bytesTransferred, preads(round), writes(round));
      SendMore(file, |sent|, chunk, |chunk|);
      ChainedSnoc(calls, call);
      FollowsSnoc(calls, call, |file|, preads, writes);
      sent := sent + chunk;
      calls := calls + [call];
      if !ok {
        return -1, sent, calls;
      }
      bytesTransferred := bytesTransferred + |chunk|;
    }
  }

  // --- The worker threads ---------------------------------------------------------------

  datatype Pc =
    | WTest | WAsleep | WWoken | WGet | WLeaveNF | WHeadNF
    | WHead | WLoop | WRead | WSend | WLeave | WDone

  /** `bytes` is `bytes_transferred`, `out` everything written to the client's connection, and
      `head` how much of the header that was: `gfs_sendheader` does not look at what its `write`
      returned, and neither does its caller. */
  datatype Worker = Worker(pc: Pc, bytes: int, chunk: string, out: string, head: nat)

  datatype State = State(ws: seq<Worker>, workThreads: int)

  function Content(cfg: Config, i: nat): string
    requires i < |cfg.paths|
  {
    if cfg.paths[i] in cfg.files then cfg.files[cfg.paths[i]] else ""
  }

  ghost predicate Init(cfg: Config, s: State) {
    s.ws == seq(|cfg.paths|, _ => Worker(WTest, 0, "", "", 0)) && s.workThreads == 0
  }

  /** Steps of a worker inside the region; `k` is what the system call of the step returns. */
  predicate Ready(file: string, gap: string, w: Worker, k: int) {
    match w.pc
    case WGet | WLoop => true
    case WHead => k <= |OkHeader(|file|, gap)|
    case WHeadNF => k <= |NotFoundHeader(gap)|
    case WRead => w.bytes >= 0 && Pread(file, w.bytes, k)
    case WSend => k <= |w.chunk|
    case _ => false
  }

  function Headed(w: Worker, written: string): Worker { w.(out := w.out + written, head := |written|) }

  function Local(found: bool, file: string, gap: string, w: Worker, k: int): Worker
    requires Ready(file, gap, w, k)
  {
    match w.pc
    case WGet => w.(pc := if found then WHead else WLeaveNF)
    case WHeadNF => Headed(w.(pc := WDone), Taken(NotFoundHeader(gap), k))
    case WHead => Headed(w.(pc := WLoop, bytes := 0), Taken(OkHeader(|file|, gap), k))
    case WLoop => w.(pc := if w.bytes < |file| then WRead else WLeave)
    case WRead =>
      if k <= 0 then w.(pc := WLeave, bytes := -1)
      else w.(pc := WSend, chunk := file[w.bytes..w.bytes + k])
    case WSend =>
      if k != |w.chunk| then w.(pc := WLeave, bytes := -1, out := w.out + Taken(w.chunk, k))
      else w.(pc := WLoop, bytes := w.bytes + k, out := w.out + w.chunk)
    case _ => w
  }

  function PhaseOf(w: Worker): Monitor.Phase {
    match w.pc
    case WTest | WHeadNF | WDone => Monitor.Outside
    case WAsleep => Monitor.Asleep
    case WWoken => Monitor.Woken
    case _ => Monitor.Inside
  }

  function Phases(ws: seq<Worker>): seq<Monitor.Phase> {
    seq(|ws|, i requires 0 <= i < |ws| => PhaseOf(ws[i]))
  }

  ghost function Mon(cfg: Config, s: State): Monitor.Mon {
    Monitor.Mon(cfg.maxThreads, s.workThreads, Phases(s.ws))
  }

  function Wake(ws: seq<Worker>, v: nat): (r: seq<Worker>)
    ensures |r| == |ws|
  {
    if v < |ws| && ws[v].pc.WAsleep? then ws[v := ws[v].(pc := WWoken)] else ws
  }

  datatype Action = Test(i: nat) | Leave(i: nat, v: nat) | Spurious(v: nat) | Step(i: nat, k: int)

  function Left(ws: seq<Worker>, i: nat): seq<Worker>
    requires i < |ws|
  {
    ws[i := ws[i].(pc := if ws[i].pc.WLeaveNF? then WHeadNF else WDone)]
  }

  ghost predicate Enabled(cfg: Config, s: State, a: Action) {
    match a
    case Test(i) => i < |s.ws| && (s.ws[i].pc.WTest? || s.ws[i].pc.WWoken?)
    case Leave(i, v) =>
      && i < |s.ws| && (s.ws[i].pc.WLeaveNF? || s.ws[i].pc.WLeave?)
      && Monitor.Signals(Phases(Left(s.ws, i)), v)
    case Spurious(v) => v < |s.ws| && s.ws[v].pc.WAsleep?
    case Step(i, k) => i < |s.ws| == |cfg.paths| && Ready(Content(cfg, i), cfg.gap, s.ws[i], k)
  }

  ghost function Next(cfg: Config, s: State, a: Action): State
    requires Enabled(cfg, s, a)
  {
    match a
    case Test(i) =>
      if s.workThreads >= cfg.maxThreads then s.(ws := s.ws[i := s.ws[i].(pc := WAsleep)])
      else State(s.ws[i := s.ws[i].(pc := WGet)], s.workThreads + 1)
    case Leave(i, v) => State(Wake(Left(s.ws, i), v), s.workThreads - 1)
    case Spurious(v) => s.(ws := Wake(s.ws, v))
    case Step(i, k) =>
      s.(ws := s.ws[i := Local(cfg.paths[i] in cfg.files, Content(cfg, i), cfg.gap, s.ws[i], k)])
  }

  ghost predicate IsStep(cfg: Config, s: State, a: Action, s': State) {
    Enabled(cfg, s, a) && s' == Next(cfg, s, a)
  }

  ghost predicate Run(cfg: Config, states: seq<State>, actions: seq<Action>) {
    && |states| == |actions| + 1 && Init(cfg, states[0])
    && forall n :: 0 <= n < |actions| ==> IsStep(cfg, states[n], actions[n], states[n + 1])
  }

  // --- What a worker has written --------------------------------------------------------

  /** Nothing before the header; behind it a prefix of the file: exactly the bytes counted while
      all goes well, and less than the file after a failure. */
  ghost predicate WorkerInv(cfg: Config, i: nat, w: Worker)
    requires i < |cfg.paths|
  {
    var file := Content(cfg, i);
    var found := cfg.paths[i] in cfg.files;
    var header := OkHeader(|file|, cfg.gap);
    match w.pc
    case WTest | WAsleep | WWoken | WGet => w.bytes == 0 && w.out == ""
    case WLeaveNF | WHeadNF => !found && w.bytes == 0 && w.out == ""
    case WHead => found && w.bytes == 0 && w.out == ""
    case WLoop => found && 0 <= w.bytes <= |file| && Carries(header, file, w.head, w.out, w.bytes)
    case WRead => found && 0 <= w.bytes < |file| && Carries(header, file, w.head, w.out, w.bytes)
    case WSend =>
      && found && 0 <= w.bytes < |file| && Carries(header, file, w.head, w.out, w.bytes)
      && 1 <= |w.chunk| <= |file| - w.bytes && w.chunk == file[w.bytes..w.bytes + |w.chunk|]
    case WLeave => found && Ended(header, file, w)
    case WDone =>
      if found then Ended(header, file, w)
      else w.bytes == 0 && Carries(NotFoundHeader(cfg.gap), "", w.head, w.out, 0)
  }

  /** As much of the header as `write` has taken, and then `n` bytes of the file. */
  ghost predicate Carries(header: string, file: string, head: nat, out: string, n: nat) {
    head <= |header| && n <= |file| && out == header[..head] + file[..n]
  }

  ghost predicate Ended(header: string, file: string, w: Worker) {
    || (w.bytes == |file| && Carries(header, file, w.head, w.out, |file|))
    || (w.bytes == -1 && exists n: nat :: n < |file| && Carries(header, file, w.head, w.out, n))
  }

  ghost predicate Inv(cfg: Config, s: State) {
    && |s.ws| == |cfg.paths|
    && (forall i: nat :: i < |s.ws| ==> WorkerInv(cfg, i, s.ws[i]))
    && Monitor.Inv(Mon(cfg, s))
  }

  lemma LocalKeeps(cfg: Config, i: nat, w: Worker, k: int)
    requires i < |cfg.paths| && WorkerInv(cfg, i, w) && Ready(Content(cfg, i), cfg.gap, w, k)
    ensures var w' := Local(cfg.paths[i] in cfg.files, Content(cfg, i), cfg.gap, w, k);
      WorkerInv(cfg, i, w') && PhaseOf(w') == PhaseOf(w)
  {
    hide OkHeader, NotFoundHeader;
    var file := Content(cfg, i);
    match w.pc
    case WHeadNF => HeadCarries(NotFoundHeader(cfg.gap), "", w.(pc := WDone), k);
    case WHead => HeadCarries(OkHeader(|file|, cfg.gap), file, w.(pc := WLoop), k);
    case WSend => SendCarries(OkHeader(|file|, cfg.gap), file, w, w.bytes, k);
    case _ =>
  }

  lemma HeadCarries(header: string, file: string, w: Worker, k: int)
    requires k <= |header| && w.out == ""
    ensures var w' := Headed(w, Taken(header, k)); Carries(header, file, w'.head, w'.out, 0)
  {
  }

  lemma SendCarries(header: string, file: string, w: Worker, at: nat, k: int)
    requires Carries(header, file, w.head, w.out, at) && k <= |w.chunk|
    requires at + |w.chunk| <= |file| && w.chunk == file[at..at + |w.chunk|]
    ensures Carries(header, file, w.head, w.out + Taken(w.chunk, k), at + |Taken(w.chunk, k)|)
    ensures Taken(w.chunk, |w.chunk|) == w.chunk
  {
    SendMore(file, at, w.chunk, k);
    assert w.out + Taken(w.chunk, k) == header[..w.head] + (file[..at] + Taken(w.chunk, k));
  }

  lemma PhasesUpdate(ws: seq<Worker>, i: nat, w: Worker)
    requires i < |ws|
    ensures Phases(ws[i := w]) == Phases(ws)[i := PhaseOf(w)]
    ensures PhaseOf(w) == PhaseOf(ws[i]) ==> Phases(ws[i := w]) == Phases(ws)
  {
  }

  lemma WakePhases(ws: seq<Worker>, v: nat)
    ensures Phases(Wake(ws, v)) == Monitor.Wake(Phases(ws), v)
  {
    if v < |ws| && ws[v].pc.WAsleep? {
      PhasesUpdate(ws, v, ws[v].(pc := WWoken));
    }
  }

  lemma TestRegion(cfg: Config, s: State, i: nat)
    requires Enabled(cfg, s, Test(i))
    ensures Monitor.Enabled(Mon(cfg, s), Monitor.DoTest(i))
    ensures Mon(cfg, Next(cfg, s, Test(i))) == Monitor.Test(Mon(cfg, s), i)
  {
    PhasesUpdate(s.ws, i, Next(cfg, s, Test(i)).ws[i]);
  }

  lemma LeaveRegion(cfg: Config, s: State, i: nat, v: nat)
    requires Enabled(cfg, s, Leave(i, v))
    ensures Monitor.Enabled(Mon(cfg, s), Monitor.DoLeave(i, v))
    ensures Mon(cfg, Next(cfg, s, Leave(i, v))) == Monitor.Leave(Mon(cfg, s), i, v)
  {
    PhasesUpdate(s.ws, i, Left(s.ws, i)[i]);
    WakePhases(Left(s.ws, i), v);
  }

  /** Every step is a step of the region, or keeps all phases. */
  lemma NextKeepsRegion(cfg: Config, s: State, a: Action)
    requires Inv(cfg, s) && Enabled(cfg, s, a)
    ensures Monitor.Inv(Mon(cfg, Next(cfg, s, a)))
  {
    var r := Mon(cfg, s);
    match a
    case Test(i) =>
      TestRegion(cfg, s, i);
      Monitor.TestKeepsInv(r, i);
    case Leave(i, v) =>
      LeaveRegion(cfg, s, i, v);
      Monitor.LeaveKeepsInv(r, i, v);
    case Spurious(v) =>
      WakePhases(s.ws, v);
      Monitor.WakeKeepsInv(r, v);
    case Step(i, k) =>
      LocalKeeps(cfg, i, s.ws[i], k);
      PhasesUpdate(s.ws, i, Next(cfg, s, a).ws[i]);
  }

  /** The steps through the region change the program point only. */
  lemma RegionStepKeeps(cfg: Config, s: State, a: Action, i: nat)
    requires Inv(cfg, s) && Enabled(cfg, s, a) && !a.Step? && i < |s.ws|
    ensures |Next(cfg, s, a).ws| == |s.ws| && WorkerInv(cfg, i, Next(cfg, s, a).ws[i])
  {
    hide OkHeader, NotFoundHeader;
    assert WorkerInv(cfg, i, s.ws[i]);
  }

  lemma NextKeepsInv(cfg: Config, s: State, a: Action)
    requires Inv(cfg, s) && Enabled(cfg, s, a)
    ensures Inv(cfg, Next(cfg, s, a))
  {
    NextKeepsRegion(cfg, s, a);
    forall i: nat | i < |s.ws| ensures |Next(cfg, s, a).ws| == |s.ws| && WorkerInv(cfg, i, Next(cfg, s, a).ws[i]) {
      assert WorkerInv(cfg, i, s.ws[i]);
      if !a.Step? {
        RegionStepKeeps(cfg, s, a, i);
      } else if a.i == i {
        LocalKeeps(cfg, i, s.ws[i], a.k);
      }
    }
  }

  lemma {:induction false} RunInv(cfg: Config, states: seq<State>, actions: seq<Action>, n: nat)
    requires Run(cfg, states, actions) && n <= |actions|
    ensures Inv(cfg, states[n])
  {
    if n == 0 {
      Monitor.InitialInv(cfg.maxThreads, |cfg.paths|);
      assert Phases(states[0].ws) == seq(|cfg.paths|, _ => Monitor.Outside);
    } else {
      RunInv(cfg, states, actions, n - 1);
      assert IsStep(cfg, states[n - 1], actions[n - 1], states[n - 1 + 1]);
      NextKeepsInv(cfg, states[n - 1], actions[n - 1]);
    }
  }

  /** Every path through a worker gives its unit back: the counter is exact in every state, so
      it is zero once all workers are done; found, not found and failed transfers alike. And no
      wake-up is lost. */
  lemma UnitsReturned(cfg: Config, states: seq<State>, actions: seq<Action>)
    requires Run(cfg, states, actions)
    ensures var s := states[|actions|];
      && 0 <= s.workThreads == Monitor.Count(Phases(s.ws), Monitor.Inside) <= cfg.maxThreads
      && (Monitor.Asleep in Phases(s.ws) ==>
        s.workThreads + Monitor.Count(Phases(s.ws), Monitor.Woken) >= cfg.maxThreads)
      && ((forall i :: 0 <= i < |s.ws| ==> s.ws[i].pc.WDone?) ==> s.workThreads == 0)
  {
    var s := states[|actions|];
    RunInv(cfg, states, actions, |actions|);
    Monitor.CountZero(Phases(s.ws), Monitor.Inside);
  }

  // --- The header -----------------------------------------------------------------------

  /** Step `n` of the run is the one in which worker `i` writes its header. */
  ghost predicate WritesHeader(cfg: Config, states: seq<State>, actions: seq<Action>, n: nat, i: nat)
    requires |states| == |actions| + 1 && i < |cfg.paths|
  {
    && n < |actions| && i < |states[n].ws| && actions[n].Step? && actions[n].i == i
    && (if cfg.paths[i] in cfg.files then states[n].ws[i].pc.WHead? else states[n].ws[i].pc.WHeadNF?)
  }

  /** Behind the header. */
  ghost predicate Past(w: Worker) { w.pc.WLoop? || w.pc.WRead? || w.pc.WSend? || w.pc.WLeave? || w.pc.WDone? }

  lemma PastStays(cfg: Config, s: State, a: Action, i: nat)
    requires Inv(cfg, s) && Enabled(cfg, s, a) && i < |s.ws| && Past(Next(cfg, s, a).ws[i])
    ensures Past(s.ws[i]) ==> Next(cfg, s, a).ws[i].head == s.ws[i].head
    ensures !Past(s.ws[i]) ==> a.Step? && a.i == i && Next(cfg, s, a).ws[i].head == if a.k > 0 then a.k else 0
    ensures !Past(s.ws[i]) ==> if cfg.paths[i] in cfg.files then s.ws[i].pc.WHead? else s.ws[i].pc.WHeadNF?
  {
    assert WorkerInv(cfg, i, s.ws[i]);
  }

  /** Every worker behind its header has written it in some step, and `head` is what that `write`
      returned: a header, or a refusal, is skipped by nobody. */
  lemma {:induction false} HeaderWritten(cfg: Config, states: seq<State>, actions: seq<Action>, now: nat, i: nat)
    returns (n: nat)
    requires Run(cfg, states, actions) && now <= |actions|
    requires i < |cfg.paths| && i < |states[now].ws| && Past(states[now].ws[i])
    ensures n < now && WritesHeader(cfg, states, actions, n, i)
    ensures var k := actions[n].k; states[now].ws[i].head == if k > 0 then k else 0
  {
    RunInv(cfg, states, actions, now);
    if now == 0 {
      assert false;
    }
    RunInv(cfg, states, actions, now - 1);
    assert IsStep(cfg, states[now - 1], actions[now - 1], states[now - 1 + 1]);
    PastStays(cfg, states[now - 1], actions[now - 1], i);
    if Past(states[now - 1].ws[i]) {
      n := HeaderWritten(cfg, states, actions, now - 1, i);
    } else {
      n := now - 1;
    }
  }

  // --- Short and failed calls -----------------------------------------------------------

  /** What the two system calls of the loop do to a worker: a `pread` that returns nothing and a
      `write` that does not take the whole chunk end the transfer with -1. */
  lemma CallDecides(cfg: Config, s: State, i: nat, k: int)
    requires Inv(cfg, s) && Enabled(cfg, s, Step(i, k))
    ensures var w, w' := s.ws[i], Next(cfg, s, Step(i, k)).ws[i];
      && (w.pc.WRead? ==>
        if k <= 0 then w'.pc.WLeave? && w'.bytes == -1 && w'.out == w.out
        else w'.pc.WSend? && |w'.chunk| == k <= 4000 && w'.bytes == w.bytes && w'.out == w.out)
      && (w.pc.WSend? ==>
        if k == |w.chunk| then w'.pc.WLoop? && w'.bytes == w.bytes + k && w'.out == w.out + w.chunk
        else w'.pc.WLeave? && w'.bytes == -1 && w'.out == w.out + if k > 0 then w.chunk[..k] else "")
  {
    assert WorkerInv(cfg, i, s.ws[i]);
  }

  /** A call that fails or falls short. */
  ghost predicate FallsShort(s: State, a: Action) {
    && a.Step? && a.i < |s.ws|
    && ((s.ws[a.i].pc.WRead? && a.k <= 0) || (s.ws[a.i].pc.WSend? && a.k < |s.ws[a.i].chunk|))
  }

  ghost predicate Failed(w: Worker) { (w.pc.WLeave? || w.pc.WDone?) && w.bytes == -1 }

  lemma FailedStays(cfg: Config, s: State, a: Action, i: nat)
    requires Enabled(cfg, s, a) && i < |s.ws| && Failed(s.ws[i])
    ensures i < |Next(cfg, s, a).ws| && Failed(Next(cfg, s, a).ws[i])
  {
  }

  lemma {:induction false} FailedForever(
      cfg: Config, states: seq<State>, actions: seq<Action>, n: nat, later: nat, i: nat)
    requires Run(cfg, states, actions) && n <= later <= |actions|
    requires i < |states[n].ws| && Failed(states[n].ws[i])
    ensures i < |states[later].ws| && Failed(states[later].ws[i])
    decreases later
  {
    if later > n {
      FailedForever(cfg, states, actions, n, later - 1, i);
      assert IsStep(cfg, states[later - 1], actions[later - 1], states[later - 1 + 1]);
      FailedStays(cfg, states[later - 1], actions[later - 1], i);
    }
  }

  /** A worker one of whose calls fails or falls short ends with -1; so one that ends with the
      length of its file had full sends only. */
  lemma OnlyFullSends(cfg: Config, states: seq<State>, actions: seq<Action>, n: nat)
    requires Run(cfg, states, actions) && n < |actions| && FallsShort(states[n], actions[n])
    ensures var w := states[|actions|].ws; actions[n].i < |w| && Failed(w[actions[n].i])
  {
    RunInv(cfg, states, actions, n);
    assert IsStep(cfg, states[n], actions[n], states[n + 1]);
    CallDecides(cfg, states[n], actions[n].i, actions[n].k);
    FailedForever(cfg, states, actions, n + 1, |actions|, actions[n].i);
  }

  // --- Progress -------------------------------------------------------------------------

  /** While a worker is not done, some step other than a spurious wake-up is possible. */
  lemma DeadlockFree(cfg: Config, states: seq<State>, actions: seq<Action>, i: nat)
    requires cfg.maxThreads >= 1 && Run(cfg, states, actions)
    requires var s := states[|actions|]; i < |s.ws| && !s.ws[i].pc.WDone?
    ensures exists a :: Enabled(cfg, states[|actions|], a) && !a.Spurious?
  {
    var s := states[|actions|];
    RunInv(cfg, states, actions, |actions|);
    assert Phases(s.ws)[i] == PhaseOf(s.ws[i]);
    if forall a :: Enabled(cfg, s, a) ==> a.Spurious? {
      forall j: nat | j < |s.ws| ensures s.ws[j].pc.WDone? || s.ws[j].pc.WAsleep? {
        if !s.ws[j].pc.WDone? && !s.ws[j].pc.WAsleep? {
          Unblocked(cfg, s, j);
        }
      }
      Monitor.NobodyStuck(Mon(cfg, s));
    }
  }

  lemma Unblocked(cfg: Config, s: State, j: nat)
    requires Inv(cfg, s) && j < |s.ws| && !s.ws[j].pc.WDone? && !s.ws[j].pc.WAsleep?
    ensures exists a :: Enabled(cfg, s, a) && !a.Spurious?
  {
    assert WorkerInv(cfg, j, s.ws[j]);
    if s.ws[j].pc.WTest? || s.ws[j].pc.WWoken? {
      assert Enabled(cfg, s, Test(j));
    } else if s.ws[j].pc.WLeaveNF? || s.ws[j].pc.WLeave? {
      var ph := Phases(Left(s.ws, j));
      var v: nat :| Monitor.Asleep in ph ==> v < |ph| && ph[v] == Monitor.Asleep;
      assert Enabled(cfg, s, Leave(j, v));
    } else {
      assert Enabled(cfg, s, Step(j, 0));
    }
  }

  ghost function Rank(pc: Pc): nat {
    match pc
    case WTest => 10 case WWoken => 9 case WAsleep => 8 case WGet => 7 case WHead => 6
    case WLoop => 5 case WRead => 4 case WSend => 3 case WLeave => 2
    case WLeaveNF => 3 case WHeadNF => 1 case WDone => 0
  }

  /** One round of the chunk loop takes three steps and moves at least one byte. */
  ghost function WorkerMeasure(len: nat, w: Worker): int {
    Rank(w.pc) + 3 * (if w.bytes < 0 then 0 else len - w.bytes)
  }

  ghost function Measure(cfg: Config, ws: seq<Worker>, n: nat): int
    requires n <= |ws| == |cfg.paths|
  {
    if n == 0 then 0 else Measure(cfg, ws, n - 1) + WorkerMeasure(|Content(cfg, n - 1)|, ws[n - 1])
  }

  lemma {:induction false} MeasureUpdate(cfg: Config, ws: seq<Worker>, i: nat, w: Worker, n: nat)
    requires n <= |ws| == |cfg.paths| && i < |ws|
    ensures Measure(cfg, ws[i := w], n) == Measure(cfg, ws, n)
      + if i < n then WorkerMeasure(|Content(cfg, i)|, w) - WorkerMeasure(|Content(cfg, i)|, ws[i]) else 0
  {
    if n > 0 {
      MeasureUpdate(cfg, ws, i, w, n - 1);
    }
  }

  lemma WakeCosts(cfg: Config, ws: seq<Worker>, v: nat)
    requires |ws| == |cfg.paths|
    ensures Measure(cfg, Wake(ws, v), |ws|) <= Measure(cfg, ws, |ws|) + 1
  {
    if v < |ws| && ws[v].pc.WAsleep? {
      MeasureUpdate(cfg, ws, v, ws[v].(pc := WWoken), |ws|);
    }
  }

  lemma LocalDecreases(cfg: Config, i: nat, w: Worker, k: int)
    requires i < |cfg.paths| && WorkerInv(cfg, i, w) && Ready(Content(cfg, i), cfg.gap, w, k)
    ensures var w' := Local(cfg.paths[i] in cfg.files, Content(cfg, i), cfg.gap, w, k);
      WorkerMeasure(|Content(cfg, i)|, w') < WorkerMeasure(|Content(cfg, i)|, w)
  {
  }

  lemma TestDecreases(cfg: Config, s: State, i: nat)
    requires Enabled(cfg, s, Test(i)) && |s.ws| == |cfg.paths|
    ensures Measure(cfg, Next(cfg, s, Test(i)).ws, |s.ws|) < Measure(cfg, s.ws, |s.ws|)
  {
    MeasureUpdate(cfg, s.ws, i, Next(cfg, s, Test(i)).ws[i], |s.ws|);
  }

  lemma LeaveDecreases(cfg: Config, s: State, i: nat, v: nat)
    requires Enabled(cfg, s, Leave(i, v)) && |s.ws| == |cfg.paths|
    ensures Measure(cfg, Next(cfg, s, Leave(i, v)).ws, |s.ws|) < Measure(cfg, s.ws, |s.ws|)
  {
    MeasureUpdate(cfg, s.ws, i, Left(s.ws, i)[i], |s.ws|);
    WakeCosts(cfg, Left(s.ws, i), v);
  }

  /** Every step decreases the measure, except that a spurious wake-up may raise it by one. */
  lemma StepDecreases(cfg: Config, s: State, a: Action)
    requires Inv(cfg, s) && Enabled(cfg, s, a)
    ensures |Next(cfg, s, a).ws| == |s.ws|
    ensures Measure(cfg, Next(cfg, s, a).ws, |s.ws|) <= Measure(cfg, s.ws, |s.ws|) + if a.Spurious? then 1 else -1
  {
    match a
    case Test(i) => TestDecreases(cfg, s, i);
    case Leave(i, v) => LeaveDecreases(cfg, s, i, v);
    case Spurious(v) => WakeCosts(cfg, s.ws, v);
    case Step(i, k) =>
      LocalDecreases(cfg, i, s.ws[i], k);
      MeasureUpdate(cfg, s.ws, i, Next(cfg, s, a).ws[i], |s.ws|);
  }

  ghost function SpuriousIn(actions: seq<Action>): nat {
    if actions == [] then 0
    else SpuriousIn(actions[..|actions| - 1]) + if actions[|actions| - 1].Spurious? then 1 else 0
  }

  ghost function TotalBytes(cfg: Config, n: nat): nat
    requires n <= |cfg.paths|
  {
    if n == 0 then 0 else TotalBytes(cfg, n - 1) + |Content(cfg, n - 1)|
  }

  lemma {:induction false} MeasureBounds(cfg: Config, s: State, n: nat)
    requires Inv(cfg, s) && n <= |s.ws|
    ensures Measure(cfg, s.ws, n) >= 0
    ensures Init(cfg, s) ==> Measure(cfg, s.ws, n) == 10 * n + 3 * TotalBytes(cfg, n)
  {
    if n > 0 {
      MeasureBounds(cfg, s, n - 1);
      assert WorkerInv(cfg, n - 1, s.ws[n - 1]);
    }
  }

  lemma {:induction false} RunMeasure(cfg: Config, states: seq<State>, actions: seq<Action>, n: nat)
    requires Run(cfg, states, actions) && n <= |actions|
    ensures |states[0].ws| == |states[n].ws| == |cfg.paths|
    ensures Measure(cfg, states[n].ws, |cfg.paths|) + n
         <= Measure(cfg, states[0].ws, |cfg.paths|) + 2 * SpuriousIn(actions[..n])
  {
    if n > 0 {
      RunMeasure(cfg, states, actions, n - 1);
      RunInv(cfg, states, actions, n - 1);
      assert IsStep(cfg, states[n - 1], actions[n - 1], states[n - 1 + 1]);
      StepDecreases(cfg, states[n - 1], actions[n - 1]);
      assert actions[..n][..n - 1] == actions[..n - 1];
    }
  }

  /** The workers terminate, whatever `pread` and `write` return: N requests over B bytes take
      at most 10 N + 3 B steps, and two more for every spurious wake-up. */
  lemma RunsAreBounded(cfg: Config, states: seq<State>, actions: seq<Action>)
    requires Run(cfg, states, actions)
    ensures |actions| <= 10 * |cfg.paths| + 3 * TotalBytes(cfg, |cfg.paths|) + 2 * SpuriousIn(actions)
  {
    var n := |actions|;
    RunMeasure(cfg, states, actions, n);
    RunInv(cfg, states, actions, 0);
    RunInv(cfg, states, actions, n);
    MeasureBounds(cfg, states[0], |cfg.paths|);
    MeasureBounds(cfg, states[n], |cfg.paths|);
    assert actions[..n] == actions;
  }
}
