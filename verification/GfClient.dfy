/** The GETFILE client: `gfc_perform` collects the header across reads of any size, splits the
    first body bytes out of the header buffer, and then streams and clips the body. */
module GfClient {
  import opened Text
  import opened Wire

  const BUFFER_SIZE: nat := 1024

  /** The refusals that the client compares the header with. */
  const NOT_FOUND_HEADER := "GETFILE FILE_NOT_FOUND\r\n\r\n"
  const ERROR_HEADER := "GETFILE ERROR\r\n\r\n"

  /** `Unset` is what `calloc` leaves in the status field. */
  datatype Status = Unset | Ok | FileNotFound | Error | Invalid

  /** Where the C code has no defined result: `memcpy` behind the header buffer, a string function
      or the write callback reading behind it, or an `sscanf` result that is no `int`. */
  datatype Fault = WriteOutside | ReadOutside | BadNumber

  datatype End = Running | Returned(code: int) | Undefined(fault: Fault)

  /** The local variables and request fields that the receive loop works on. */
  datatype Rx = Rx(
    header: string, found: bool, status: Status, received: nat, fileLen: nat, written: string, end: End)

  // --- The receive loop as a function ---------------------------------------------------

  /** `sscanf(header, "GETFILE OK %d\r\n\r\n", &filelen)`. */
  function ScanOk(s: string): Scanned<int> { ScanWords("GETFILE", "OK", s) }

  /** Two words and a number; each blank of the format matches any white space, or none. */
  function ScanWords(verb: string, answer: string, s: string): Scanned<int> {
    if verb <= s then ScanAnswer(answer, SkipSpace(s[|verb|..])) else Mismatch
  }

  function ScanAnswer(answer: string, u: string): Scanned<int> {
    if answer <= u then ScanNumber(u[|answer|..]) else Mismatch
  }

  /** The header as the client itself would have printed it. */
  function ClientHeader(n: nat): string { OkHeader(n, "") }

  /** What a complete header says. */
  datatype Verdict = FileFollows(len: nat) | Refused(status: Status, code: int) | Overflow

  function Classify(text: string): Verdict {
    var scanned := ScanOk(text);
    if scanned.Match? && !(-INT_LIMIT <= scanned.value < INT_LIMIT) then Overflow
    else if scanned.Match? && scanned.value > 0 then FileFollows(scanned.value)
    else if text == NOT_FOUND_HEADER then Refused(FileNotFound, 0)
    else if text == ERROR_HEADER then Refused(Error, 0)
    else Refused(Invalid, -1)
  }

  /** The header buffer holds a terminator; body bytes may have arrived with it. They start
      where the header would end had the client printed it. */
  function HeaderSeen(m: Rx, verdict: Verdict): Rx {
    match verdict
    case Overflow => m.(end := Undefined(BadNumber))
    case Refused(status, code) => m.(status := status, end := Returned(code))
    case FileFollows(n) => FirstBytes(m, n, |ClientHeader(n)|)
  }

  /** With fewer than `skip` bytes gathered the `size_t` difference wraps around, and the
      cleared rest of the buffer is taken for the file. */
  function FirstBytes(m: Rx, n: nat, skip: nat): Rx {
    var m' := m.(status := Ok, fileLen := n);
    if |m.header| < skip then
      if skip + n > BUFFER_SIZE then m.(end := Undefined(ReadOutside))
      else m'.(written := m.written + Zeros(n), received := n, end := Returned(0))
    else if |m.header| - skip >= n then
      m'.(written := m.written + m.header[skip..skip + n], received := n, end := Returned(0))
    else
      m'.(written := m.written + m.header[skip..], received := m.received + |m.header| - skip)
  }

  /** One round of the loop with the bytes `r` read. The header buffer is filled before its size
      is tested. */
  function OnRead(m: Rx, r: string): Rx {
    if m.found then OnBody(m, r)
    else if |m.header| + |r| > BUFFER_SIZE then m.(end := Undefined(WriteOutside))
    else OnHeader(m.(header := m.header + r))
  }

  function OnHeader(m: Rx): Rx { Judge(m, CStr(m.header), Classify(CStr(m.header))) }

  /** A full buffer without a NUL is no string. */
  function Judge(m: Rx, text: string, verdict: Verdict): Rx {
    if |text| >= BUFFER_SIZE then m.(end := Undefined(ReadOutside))
    else if Find(text, CRLF2) >= 0 then HeaderSeen(m.(found := true), verdict)
    else if |m.header| >= BUFFER_SIZE then m.(status := Invalid, end := Returned(-1))
    else m
  }

  function OnBody(m: Rx, r: string): Rx {
    if m.received > m.fileLen then m.(end := Undefined(ReadOutside))
    else if m.received + |r| >= m.fileLen then
      m.(written := m.written + r[..m.fileLen - m.received], received := m.fileLen, end := Returned(0))
    else m.(written := m.written + r, received := m.received + |r|)
  }

  /** `read` returned 0, or a negative value when `broken`. */
  function OnEnd(m: Rx, broken: bool): Rx {
    if broken then m.(end := Returned(-1))
    else m.(status := if m.found then Ok else Invalid, end := Returned(-1))
  }

  function Run(m: Rx, chunks: seq<string>, broken: bool): Rx
    decreases |chunks|
  {
    if m.end != Running then m
    else if chunks == [] then OnEnd(m, broken)
    else Run(OnRead(m, chunks[0]), chunks[1..], broken)
  }

  function Start(): Rx { Rx("", false, Unset, 0, 0, "", Running) }

  // --- A request object -----------------------------------------------------------------

  class GfcRequest {
    var status: Status
    var bytesReceived: nat
    var fileLen: nat
    var written: string

    /** `gfc_create`. */
    constructor ()
      ensures status == Unset && bytesReceived == 0 && fileLen == 0 && written == ""
    {
      status, bytesReceived, fileLen, written := Unset, 0, 0, "";
    }

    ghost function View(header: string, found: bool, end: End): Rx
      reads this
    {
      Rx(header, found, status, bytesReceived, fileLen, written, end)
    }

    /** `memcpy(header + headBytesRd, buffer, bytesRd)`. */
    static method Append(head: array<char>, at: nat, buffer: string)
      requires at + |buffer| <= head.Length && head[at..] == Zeros(head.Length - at)
      modifies head
      ensures head[..at + |buffer|] == old(head[..at]) + buffer
      ensures head[at + |buffer|..] == Zeros(head.Length - at - |buffer|)
    {
      ghost var was := head[..];
      forall j | 0 <= j < |buffer| {
        head[at + j] := buffer[j];
      }
      assert head[at + |buffer|..] == was[at..][|buffer|..];
    }

    /** The part of the buffer behind the bytes gathered so far. */
    static lemma ClearedPart(head: array<char>, at: nat, from: nat, n: nat)
      requires at <= from && from + n <= head.Length && head[at..] == Zeros(head.Length - at)
      ensures head[from..from + n] == Zeros(n)
    {
      assert head[at..][from - at..from - at + n] == head[from..from + n];
      ZerosPart(head.Length - at, from - at, n);
    }

    static lemma GatheredPart(head: array<char>, at: nat, from: nat, to: nat)
      requires from <= to <= at <= head.Length
      ensures head[..at][from..to] == head[from..to]
    {
    }

    /** The terminator is in the buffer and announces `n` bytes. */
    method TakeFirstBytes(head: array<char>, headBytesRd: nat, n: nat) returns (end: End)
      requires head.Length == BUFFER_SIZE && headBytesRd <= head.Length
      requires head[headBytesRd..] == Zeros(head.Length - headBytesRd)
      modifies this
      ensures View(head[..headBytesRd], true, end)
           == FirstBytes(old(View(head[..headBytesRd], true, Running)), n, |ClientHeader(n)|)
    {
      var skip := |ClientHeader(n)|;
      ghost var h := head[..headBytesRd];
      if headBytesRd < skip && skip + n > head.Length {
        return Undefined(ReadOutside);
      }
      var enough := headBytesRd < skip || headBytesRd - skip >= n;
      var bytes := if enough then head[skip..skip + n] else head[skip..headBytesRd];
      if headBytesRd < skip {
        ClearedPart(head, headBytesRd, skip, n);
      } else {
        GatheredPart(head, headBytesRd, skip, if enough then skip + n else headBytesRd);
        assert h[skip..] == h[skip..headBytesRd];
      }
      end := Running;
      status := Ok;
      fileLen := n;
      if enough {
        written := written + bytes;
        bytesReceived := fileLen;
        end := Returned(0);
      } else if headBytesRd > skip {
        written := written + bytes;
        bytesReceived := bytesReceived + (headBytesRd - skip);
      } else {
        assert written + bytes == written;
      }
    }

    method TakeHeader(head: array<char>, headBytesRd: nat) returns (end: End, found: bool)
      requires head.Length == BUFFER_SIZE && headBytesRd <= head.Length
      requires head[headBytesRd..] == Zeros(head.Length - headBytesRd)
      modifies this
      ensures View(head[..headBytesRd], found, end) == OnHeader(old(View(head[..headBytesRd], false, Running)))
      ensures end == Running && !found ==> headBytesRd < BUFFER_SIZE
    {
      hide FirstBytes, ScanWords, ClientHeader;
      var text := CStr(head[..]);
      assert head[..] == head[..headBytesRd] + Zeros(head.Length - headBytesRd);
      CStrZeros(head[..headBytesRd], head.Length - headBytesRd);
      end, found := Running, false;
      if |text| >= head.Length {
        end := Undefined(ReadOutside);
      } else if Find(text, CRLF2) >= 0 {
        found := true;
        match Classify(text)
        case Overflow => end := Undefined(BadNumber);
        case Refused(verdict, code) =>
          status := verdict;
          end := Returned(code);
        case FileFollows(n) => end := TakeFirstBytes(head, headBytesRd, n);
      } else if headBytesRd >= BUFFER_SIZE {
        status := Invalid;
        end := Returned(-1);
      }
    }

    method TakeBody(ghost header: string, buffer: string) returns (end: End)
      modifies this
      ensures View(header, true, end) == OnBody(old(View(header, true, Running)), buffer)
    {
      if bytesReceived > fileLen {
        end := Undefined(ReadOutside);
      } else if bytesReceived + |buffer| >= fileLen {
        written := written + buffer[..fileLen - bytesReceived];
        bytesReceived := fileLen;
        end := Returned(0);
      } else {
        written := written + buffer;
        bytesReceived := bytesReceived + |buffer|;
        end := Running;
      }
    }

    ghost predicate Buffered(head: array<char>, headBytesRd: nat, found: bool)
      reads head
    {
      && head.Length == BUFFER_SIZE && headBytesRd <= head.Length
      && (!found ==> headBytesRd < BUFFER_SIZE)
      && head[headBytesRd..] == Zeros(head.Length - headBytesRd)
    }

    /** One round before the header is complete, with a read that fits behind the bytes gathered
        so far. */
    method HeaderRound(head: array<char>, headBytesRd: nat, buffer: string)
      returns (headBytesRd': nat, found: bool, end: End)
      requires Buffered(head, headBytesRd, false) && headBytesRd + |buffer| <= head.Length
      modifies this, head
      ensures headBytesRd' <= head.Length
      ensures View(head[..headBytesRd'], found, end)
           == OnHeader(old(View(head[..headBytesRd], false, Running)).(header := old(head[..headBytesRd]) + buffer))
      ensures end == Running ==> Buffered(head, headBytesRd', found)
    {
      hide Judge, Classify, CStr, Find;
      Append(head, headBytesRd, buffer);
      headBytesRd' := headBytesRd + |buffer|;
      end, found := TakeHeader(head, headBytesRd');
    }

    /** One round of the receive loop. A read that does not fit would be copied behind the buffer. */
    method Round(head: array<char>, headBytesRd: nat, found: bool, buffer: string)
      returns (headBytesRd': nat, found': bool, end: End)
      requires Buffered(head, headBytesRd, found) && |buffer| <= BUFFER_SIZE
      modifies this, head
      ensures headBytesRd' <= head.Length
      ensures View(head[..headBytesRd'], found', end) == OnRead(old(View(head[..headBytesRd], found, Running)), buffer)
      ensures end == Running ==> Buffered(head, headBytesRd', found')
    {
      hide OnHeader, Classify;
      headBytesRd', found' := headBytesRd, found;
      if found {
        end := TakeBody(head[..headBytesRd], buffer);
      } else if headBytesRd + |buffer| > head.Length {
        end := Undefined(WriteOutside);
      } else {
        headBytesRd', found', end := HeaderRound(head, headBytesRd, buffer);
      }
    }

    /** `chunks` are the successive results of `read`, each of at most one buffer, before the
        stream ends. */
    method Perform(chunks: seq<string>, broken: bool) returns (end: End, ghost header: string, ghost seen: bool)
      requires forall r :: r in chunks ==> 1 <= |r| <= BUFFER_SIZE
      modifies this
      ensures View(header, seen, end) == Run(old(View("", false, Running)), chunks, broken)
      ensures end != Running
    {
      hide OnRead, Classify;
      var head := new char[BUFFER_SIZE](_ => '\0');
      var headBytesRd: nat, found := 0, false;
      end := Running;
      ghost var start := View("", false, Running);
      var k := 0;
      while k < |chunks|
        invariant 0 <= k <= |chunks| && fresh(head) && end == Running && Buffered(head, headBytesRd, found)
        invariant Run(View(head[..headBytesRd], found, end), chunks[k..], broken) == Run(start, chunks, broken)
      {
        assert chunks[k] in chunks;
        RunStep(View(head[..headBytesRd], found, end), chunks[k], chunks[k + 1..], broken);
        assert chunks[k..] == [chunks[k]] + chunks[k + 1..];
        headBytesRd, found, end := Round(head, headBytesRd, found, chunks[k]);
        k := k + 1;
        if end != Running {
          return end, head[..headBytesRd], found;
        }
      }
      if !broken {
        status := if found then Ok else Invalid;
      }
      end := Returned(-1);
      header, seen := head[..headBytesRd], found;
    }
  }

  lemma RunStep(m: Rx, r: string, rest: seq<string>, broken: bool)
    requires m.end == Running
    ensures Run(m, [r] + rest, broken) == Run(OnRead(m, r), rest, broken)
  {
    assert ([r] + rest)[1..] == rest;
  }

  // --- Accounting, for every stream at all ----------------------------------------------

  /** At every loop head and at the end: no byte is written that is not counted, the count never
      exceeds the length, and success with status OK means that it has reached it. */
  ghost predicate Accounted(m: Rx) {
    && |m.written| == m.received <= m.fileLen
    && (m.status != Ok && !m.end.Undefined? ==> m.received == 0)
    && (m.status == Ok && !m.end.Undefined? ==> (m.received == m.fileLen <==> m.end == Returned(0)))
    && (m.end == Running ==> if m.found then m.status == Ok else m.status == Unset && m.fileLen == 0)
  }

  lemma ReadAccounted(m: Rx, r: string)
    requires Accounted(m) && m.end == Running
    ensures Accounted(OnRead(m, r))
  {
    if m.found {
      BodyAccounted(m, r);
    } else if |m.header| + |r| <= BUFFER_SIZE {
      HeaderAccounted(m.(header := m.header + r));
    }
  }

  lemma BodyAccounted(m: Rx, r: string)
    requires Accounted(m) && m.end == Running && m.found
    ensures Accounted(OnBody(m, r))
  {
  }

  lemma HeaderAccounted(m: Rx)
    requires Accounted(m) && m.end == Running && !m.found
    ensures Accounted(OnHeader(m))
  {
    ClassifyShape(CStr(m.header));
    JudgeAccounted(m, CStr(m.header), Classify(CStr(m.header)));
  }

  lemma JudgeAccounted(m: Rx, text: string, v: Verdict)
    requires Accounted(m) && m.end == Running && !m.found
    requires (v.FileFollows? ==> v.len > 0) && (v.Refused? ==> v.status != Ok)
    ensures Accounted(Judge(m, text, v))
  {
    VerdictAccounted(m.(found := true), v);
  }

  lemma ClassifyShape(text: string)
    ensures var v := Classify(text);
      (v.FileFollows? ==> v.len > 0) && (v.Refused? ==> v.status != Ok)
  {
  }

  lemma VerdictAccounted(m: Rx, v: Verdict)
    requires m.found && m.end == Running && m.status == Unset
    requires m.received == 0 == m.fileLen && m.written == ""
    requires (v.FileFollows? ==> v.len > 0) && (v.Refused? ==> v.status != Ok)
    ensures Accounted(HeaderSeen(m, v))
  {
  }

  lemma {:induction false} RunAccounted(m: Rx, chunks: seq<string>, broken: bool)
    requires Accounted(m)
    ensures Accounted(Run(m, chunks, broken)) && Run(m, chunks, broken).end != Running
    decreases |chunks|
  {
    if m.end == Running && chunks != [] {
      ReadAccounted(m, chunks[0]);
      RunAccounted(OnRead(m, chunks[0]), chunks[1..], broken);
    }
  }
}
