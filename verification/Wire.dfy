/** The GETFILE header, and the three messages that the proxy and the cache daemon exchange over
    their socket. Each of these is printed with `sprintf` and read back with `sscanf` out of a
    buffer that is not cleared between messages, so arbitrary stale characters may follow the
    message. */
module Wire {
  import opened Text
  import opened Wrappers

  const CRLF2 := "\r\n\r\n"

  /** A request path that survives `%s`: it is not empty and holds no white space and no NUL. */
  ghost predicate Plain(path: string) {
    path != [] && All(path, NotSpace) && All(path, NotNul)
  }

  /** The GETFILE success header, with `gap` between the length and the terminator. */
  function OkHeader(n: nat, gap: string): string { "GETFILE OK " + Dec(n) + gap + CRLF2 }

  // --- Request: "%s\r\n\r\n" ------------------------------------------------------------

  function PrintRequest(path: string): string { path + CRLF2 }

  function ParseRequest(buffer: string): Option<string> {
    match ScanWord(buffer)
    case Match(word, _) => Some(word)
    case Mismatch => None
  }

  /** Size of the daemon's request buffer, of each worker's copy, and of the proxy's message. */
  const MAX_REQUEST: nat := 1024

  /** A message received to the front of a buffer. */
  function Overwrite(buffer: string, received: string): string
    requires |received| <= |buffer|
  {
    received + buffer[|received|..]
  }

  /** What `memcpy(copy, buffer, strlen(buffer))` copies into a buffer of the same size. Without a
      NUL `strlen` reads on behind the buffer, and then `memcpy` behind both. */
  function CopyOut(buffer: string): Option<string> {
    if |CStr(buffer)| < |buffer| then Some(CStr(buffer)) else None
  }

  /** The copy stays inside exactly if a NUL is left in the buffer. */
  lemma CopyStaysInside(buffer: string)
    ensures CopyOut(buffer).Some? <==> exists j :: 0 <= j < |buffer| && buffer[j] == '\0'
  {
    var k := Span(buffer, NotNul);
    forall j | 0 <= j < k ensures buffer[j] != '\0' {
      assert buffer[..k][j] == buffer[j];
    }
  }

  /** The buffer after a run of messages; it is never cleared. */
  function BufferAfter(buffer: string, messages: seq<string>): string
    requires forall m :: m in messages ==> |m| <= |buffer|
    decreases |messages|
  {
    if messages == [] then buffer
    else
      assert forall m :: m in messages[1..] ==> m in messages;
      BufferAfter(Overwrite(buffer, messages[0]), messages[1..])
  }

  /** A NUL that no message reaches. */
  ghost predicate NulBehind(buffer: string, messages: seq<string>, j: int) {
    0 <= j < |buffer| && buffer[j] == '\0' && forall m :: m in messages ==> |m| <= j
  }

  lemma NulBehindFirst(buffer: string, messages: seq<string>, j: int)
    requires messages != [] && |messages[0]| <= |buffer| && All(messages[0], NotNul)
    ensures NulBehind(buffer, messages, j) <==> NulBehind(Overwrite(buffer, messages[0]), messages[1..], j)
  {
    assert messages == [messages[0]] + messages[1..];
    var after := Overwrite(buffer, messages[0]);
    if 0 <= j < |buffer| {
      assert after[j] == if j < |messages[0]| then messages[0][j] else buffer[j];
    }
  }

  /** A NUL that is overwritten never comes back, since the messages hold none: after any run of
      messages the next copy stays inside exactly if the initial contents had a NUL behind the
      longest message. */
  lemma {:induction false} NulSurvives(buffer: string, messages: seq<string>)
    requires forall m :: m in messages ==> |m| <= |buffer| && All(m, NotNul)
    ensures CopyOut(BufferAfter(buffer, messages)).Some? <==> exists j :: NulBehind(buffer, messages, j)
    decreases |messages|
  {
    if messages == [] {
      CopyStaysInside(buffer);
      assert forall j :: 0 <= j < |buffer| && buffer[j] == '\0' ==> NulBehind(buffer, [], j);
    } else {
      var after := Overwrite(buffer, messages[0]);
      assert forall m :: m in messages[1..] ==> m in messages;
      NulSurvives(after, messages[1..]);
      forall j ensures NulBehind(buffer, messages, j) <==> NulBehind(after, messages[1..], j) {
        NulBehindFirst(buffer, messages, j);
      }
    }
  }

  /** The request round trip: whatever the buffer holds behind the message, and whatever the
      worker's memory holds behind its copy. */
  lemma RequestRoundTrip(path: string, buffer: string, uninitialised: string)
    requires Plain(path) && |PrintRequest(path)| <= |buffer|
    ensures ParseRequest(CStr(Overwrite(buffer, PrintRequest(path))) + uninitialised) == Some(path)
  {
    var message := PrintRequest(path);
    var stale := buffer[|message|..];
    CStrOf(message, stale);
    var task := CStr(message + stale) + uninitialised;
    assert message <= task;
    var rest := task[|path|..];
    assert rest[0] == '\r';
    assert task == path + rest;
    ScanWordOf(path, rest);
  }

  /** The daemon's request buffer: one array for all connections, never cleared. */
  class RequestBuffer {
    const data: array<char>

    constructor ()
      ensures fresh(data) && data.Length == MAX_REQUEST == 1024
    {
      data := new char[MAX_REQUEST];
    }

    /** Receives one message over whatever the buffer held, and copies the C string at its front
        for the new worker. */
    method Receive(received: string, uninitialised: string) returns (task: Option<string>)
      requires |received| <= data.Length == MAX_REQUEST
      modifies data
      ensures data[..] == Overwrite(old(data[..]), received)
      ensures match CopyOut(Overwrite(old(data[..]), received))
        case None => task == None
        case Some(copy) => task == Some(copy + uninitialised)
      ensures forall path :: Plain(path) && received == PrintRequest(path) && task.Some? ==>
        ParseRequest(task.value) == Some(path)
    {
      ghost var was := data[..];
      forall i | 0 <= i < |received| {
        data[i] := received[i];
      }
      assert data[..] == Overwrite(was, received);
      var copy := CStr(data[..]);
      if |copy| == data.Length {
        return None;
      }
      task := Some(copy + uninitialised);
      forall path | Plain(path) && received == PrintRequest(path) ensures ParseRequest(task.value) == Some(path) {
        RequestRoundTrip(path, was, uninitialised);
      }
    }
  }

  // --- Reply: "OK %d\r\n\r\n" or "FILE_NOT_FOUND 0\r\n\r\n" -----------------------------

  datatype Reply = Found(len: int) | NotFound

  function PrintReply(r: Reply): string {
    match r
    case Found(len) => "OK " + PrintInt(len) + CRLF2
    case NotFound => "FILE_NOT_FOUND 0\r\n\r\n"
  }

  /** The proxy compares the first word with "FILE_NOT_FOUND" and takes every other word as
      success, whatever it says. */
  function ParseReply(buffer: string): Option<Reply> {
    match ScanWord(buffer)
    case Mismatch => None
    case Match(word, rest) =>
      match ScanNumber(rest)
      case Mismatch => None
      case Match(n, _) => if word == "FILE_NOT_FOUND" then Some(NotFound) else Some(Found(n))
  }

  lemma ScanReply(word: string, n: int, tail: string)
    requires word != [] && All(word, NotSpace) && tail != [] && !IsDigit(tail[0])
    ensures ParseReply(word + (" " + (PrintInt(n) + tail)))
         == Some(if word == "FILE_NOT_FOUND" then NotFound else Found(n))
  {
    ScanWordOf(word, " " + (PrintInt(n) + tail));
    ScanNumberOf(" ", n, tail);
  }

  lemma PrintedReply(r: Reply, junk: string)
    ensures var word, n := if r.Found? then "OK" else "FILE_NOT_FOUND", if r.Found? then r.len else 0;
      PrintReply(r) + junk == word + (" " + (PrintInt(n) + (CRLF2 + junk)))
  {
    match r
    case Found(len) =>
    case NotFound => assert PrintInt(0) == "0";
  }

  /** The reply round trip, whatever the buffer holds behind the message. */
  lemma ReplyRoundTrip(r: Reply, junk: string)
    ensures ParseReply(PrintReply(r) + junk) == Some(r)
  {
    PrintedReply(r, junk);
    if r.Found? {
      ScanReply("OK", r.len, CRLF2 + junk);
    } else {
      ScanReply("FILE_NOT_FOUND", 0, CRLF2 + junk);
    }
  }

  // --- Segment message: "%d %zu\r\n\r\n" ------------------------------------------------

  function PrintSegment(seg: int, segsize: nat): string {
    PrintInt(seg) + " " + Dec(segsize) + CRLF2
  }

  function ParseSegment(buffer: string): Option<(int, int)> {
    match ScanNumber(buffer)
    case Mismatch => None
    case Match(seg, rest) =>
      match ScanNumber(rest)
      case Mismatch => None
      case Match(segsize, _) => Some((seg, segsize))
  }

  lemma SegmentRoundTrip(seg: int, segsize: nat, junk: string)
    ensures ParseSegment(PrintSegment(seg, segsize) + junk) == Some((seg, segsize as int))
  {
    var tail := CRLF2 + junk;
    var rest := " " + (Dec(segsize) + tail);
    assert PrintSegment(seg, segsize) + junk == [] + (PrintInt(seg) + rest);
    ScanNumberOf([], seg, rest);
    ScanNumberOf(" ", segsize, tail);
  }

  // --- Malformed messages ---------------------------------------------------------------

  /** White space alone is no message, and a word alone is no reply. */
  lemma Malformed(blank: string, word: string)
    requires All(blank, IsSpace) && word != "" && All(word, NotSpace)
    ensures ParseRequest(blank) == None && ParseReply(blank) == None && ParseSegment(blank) == None
    ensures ParseReply(word + blank) == None
  {
    hide ScanSigned;
    SpanOf(blank, "", IsSpace);
    assert blank + "" == blank && blank[|blank|..] == "";
    NothingToScan();
    ScanWordOf(word, blank);
  }

  lemma NothingToScan()
    ensures ScanSigned("") == Mismatch && Span("", NotSpace) == 0
  {
  }

  /** One number is no segment message. */
  lemma HalfSegment(seg: int, blank: string)
    requires All(blank, IsSpace)
    ensures ParseSegment(PrintInt(seg) + blank) == None
  {
    assert [] + (PrintInt(seg) + blank) == PrintInt(seg) + blank;
    ScanNumberOf([], seg, blank);
    SpanOf(blank, "", IsSpace);
    NothingToScan();
    assert blank + "" == blank && blank[|blank|..] == "";
  }

  // --- The texts on the wire ------------------------------------------------------------

  /** What the two programs print, and the header in front of a file. */
  lemma PrintedTexts(path: string, n: int, seg: int, segsize: nat, gap: string)
    ensures PrintRequest(path) == path + "\r\n\r\n"
    ensures PrintReply(Found(n)) == "OK " + PrintInt(n) + "\r\n\r\n"
    ensures PrintReply(NotFound) == "FILE_NOT_FOUND 0\r\n\r\n"
    ensures PrintSegment(seg, segsize) == PrintInt(seg) + " " + PrintInt(segsize) + "\r\n\r\n"
    ensures n >= 0 ==> OkHeader(n, gap) == "GETFILE OK " + PrintInt(n) + gap + "\r\n\r\n"
  {
  }
}
