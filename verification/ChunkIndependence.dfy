/** What `gfc_perform` makes of a stream, for every stream and every way in which the network cuts
    it into reads. The cut matters through one thing only: the bytes that the header buffer holds
    after the read that completes the header. They may overrun the buffer; if they do not, a
    success header gives the same result under every cut. */
module ChunkIndependence {
  import opened Text
  import opened Wire
  import opened GfClient

  function Concat(chunks: seq<string>): string {
    if chunks == [] then "" else chunks[0] + Concat(chunks[1..])
  }

  /** What a caller can see of a request afterwards. */
  datatype Outcome = Outcome(status: Status, end: End, received: nat, fileLen: nat, written: string)

  function Of(m: Rx): Outcome { Outcome(m.status, m.end, m.received, m.fileLen, m.written) }

  function Perform(chunks: seq<string>, broken: bool): Outcome { Of(Run(Start(), chunks, broken)) }

  // --- What the header buffer gathers ---------------------------------------------------

  /** The bytes received once there are at least `size` of them, or when the stream ends. */
  function Gathered(c: string, chunks: seq<string>, size: nat): string
    decreases |chunks|
  {
    if |c| >= size || chunks == [] then c else Gathered(c + chunks[0], chunks[1..], size)
  }

  /** The header ends with the first terminator of the stream; the search stops when the buffer
      is full. */
  function HeaderSize(seen: string): (size: nat)
    ensures size <= BUFFER_SIZE
  {
    var f := Find(CStr(seen), CRLF2);
    if 0 <= f && f + 4 <= BUFFER_SIZE then f + 4 else BUFFER_SIZE
  }

  function HeaderRead(chunks: seq<string>): string { Gathered("", chunks, HeaderSize(Concat(chunks))) }

  /** What the header buffer can hold as a string: it is not overrun, and a NUL is left in it. */
  predicate Fits(g: string) { |g| <= BUFFER_SIZE && |CStr(g)| < BUFFER_SIZE }

  lemma ConcatStep(c: string, chunks: seq<string>)
    requires chunks != []
    ensures c + Concat(chunks) == (c + chunks[0]) + Concat(chunks[1..])
  {
  }

  lemma HeadTail(c: string, chunks: seq<string>, seen: string) returns (r: string, rest: seq<string>)
    requires chunks != [] && seen == c + Concat(chunks)
    ensures chunks == [r] + rest && seen == (c + r) + Concat(rest)
  {
    r, rest := chunks[0], chunks[1..];
    ConcatStep(c, chunks);
  }

  lemma GatheredOne(c: string, r: string, rest: seq<string>, size: nat)
    requires |c| < size
    ensures Gathered(c, [r] + rest, size) == Gathered(c + r, rest, size)
    ensures |c + r| >= size ==> Gathered(c, [r] + rest, size) == c + r
  {
    assert ([r] + rest)[1..] == rest;
  }

  lemma {:induction false} GatheredPart(c: string, chunks: seq<string>, size: nat)
    ensures c <= Gathered(c, chunks, size) <= c + Concat(chunks)
    ensures |c + Concat(chunks)| >= size ==> |Gathered(c, chunks, size)| >= size
    ensures |c + Concat(chunks)| < size ==> Gathered(c, chunks, size) == c + Concat(chunks)
    decreases |chunks|
  {
    if |c| < size && chunks != [] {
      ConcatStep(c, chunks);
      GatheredPart(c + chunks[0], chunks[1..], size);
    }
  }

  // --- The reference: one look at the gathered bytes and at the whole stream ------------

  function Faulty(fault: Fault): Outcome { Outcome(Unset, Undefined(fault), 0, 0, "") }

  /** The body, behind a header that announces `n` bytes: it starts where the client's own header
      would end. */
  function Body(n: nat, seen: string, gathered: nat): Outcome {
    var skip := |ClientHeader(n)|;
    if gathered < skip || |seen| < skip then
      if skip + n > BUFFER_SIZE then Faulty(ReadOutside) else Outcome(Ok, Returned(0), n, n, Zeros(n))
    else
      var payload := seen[skip..];
      if |payload| >= n then Outcome(Ok, Returned(0), n, n, payload[..n])
      else Outcome(Ok, Returned(-1), |payload|, n, payload)
  }

  function AfterHeader(verdict: Verdict, seen: string, gathered: nat): Outcome {
    match verdict
    case Overflow => Faulty(BadNumber)
    case Refused(status, code) => Outcome(status, Returned(code), 0, 0, "")
    case FileFollows(n) => Body(n, seen, gathered)
  }

  /** The stream ended inside the header. */
  function CutShort(broken: bool): Outcome {
    Outcome(if broken then Unset else Invalid, Returned(-1), 0, 0, "")
  }

  function TooLong(): Outcome { Outcome(Invalid, Returned(-1), 0, 0, "") }

  /** `g` is what the header buffer has gathered, `seen` all that arrived. */
  function Reference(g: string, seen: string, broken: bool): Outcome {
    Judged(g, CStr(g), Classify(CStr(g)), seen, broken)
  }

  function Judged(g: string, text: string, verdict: Verdict, seen: string, broken: bool): Outcome {
    if |g| > BUFFER_SIZE then Faulty(WriteOutside)
    else if |text| >= BUFFER_SIZE then Faulty(ReadOutside)
    else if Find(text, CRLF2) >= 0 then AfterHeader(verdict, seen, |g|)
    else if |g| >= BUFFER_SIZE then TooLong()
    else CutShort(broken)
  }

  /** Where there is no defined result nothing has been written. */
  lemma FaultsAreEmpty(g: string, text: string, verdict: Verdict, seen: string, broken: bool)
    ensures var o := Judged(g, text, verdict, seen, broken); o.end.Undefined? ==> o.written == ""
  {
  }

  // --- The terminator -------------------------------------------------------------------

  lemma OccursInPart(all: string, part: string, i: int)
    requires part <= all
    ensures OccursAt(part, CRLF2, i) <==> OccursAt(all, CRLF2, i) && i + 4 <= |part|
  {
    if 0 <= i && i + 4 <= |part| {
      assert part[i..i + 4] == all[i..i + 4];
    }
  }

  lemma FindInPart(all: string, part: string)
    requires part <= all
    ensures Find(part, CRLF2) >= 0 <==> 0 <= Find(all, CRLF2) && Find(all, CRLF2) + 4 <= |part|
  {
    OccursInPart(all, part, Find(part, CRLF2));
    OccursInPart(all, part, Find(all, CRLF2));
  }

  /** The terminator is seen exactly when all of it has arrived, however the bytes came. */
  lemma TerminatorSeen(seen: string, c: string)
    requires c <= seen
    ensures Find(CStr(c), CRLF2) >= 0 <==> 0 <= Find(CStr(seen), CRLF2) && Find(CStr(seen), CRLF2) + 4 <= |c|
  {
    assert c == seen[..|c|];
    CStrPrefix(seen, |c|);
    FindInPart(CStr(seen), CStr(c));
  }

  /** As long as the header is not complete nothing happens, and it is complete exactly when its
      terminator has arrived or the buffer is full. */
  lemma HeaderPending(seen: string, c: string)
    requires c <= seen && |c| < HeaderSize(seen)
    ensures OnHeader(Start().(header := c)) == Start().(header := c)
    ensures Reference(c, c, false) == CutShort(false) && Reference(c, c, true) == CutShort(true)
  {
    TerminatorSeen(seen, c);
  }

  // --- The body -------------------------------------------------------------------------

  function Clipped(n: nat, bytes: string): Outcome {
    if |bytes| >= n then Outcome(Ok, Returned(0), n, n, bytes[..n])
    else Outcome(Ok, Returned(-1), |bytes|, n, bytes)
  }

  ghost predicate InBody(m: Rx, n: nat) {
    m.end == Running && m.found && m.status == Ok && m.fileLen == n && m.received == |m.written| < n
  }

  lemma BodyRead(m: Rx, n: nat, r: string)
    requires InBody(m, n)
    ensures var m' := OnRead(m, r);
      if |m.written + r| >= n then m'.end != Running && Of(m') == Clipped(n, m.written + r)
      else InBody(m', n) && m'.written == m.written + r
  {
    assert |m.written + r| >= n ==> (m.written + r)[..n] == m.written + r[..n - m.received];
  }

  lemma ClippedMore(n: nat, bytes: string, more: string)
    requires |bytes| >= n
    ensures Clipped(n, bytes + more) == Clipped(n, bytes)
  {
    assert (bytes + more)[..n] == bytes[..n];
  }

  lemma {:induction false} BodyRun(m: Rx, n: nat, chunks: seq<string>, seen: string, broken: bool)
    requires InBody(m, n) && seen == m.written + Concat(chunks)
    ensures Of(Run(m, chunks, broken)) == Clipped(n, seen)
    decreases |chunks|
  {
    if chunks == [] {
      assert seen == m.written;
    } else {
      var r, rest := HeadTail(m.written, chunks, seen);
      RunStep(m, r, rest, broken);
      BodyRead(m, n, r);
      if |m.written + r| >= n {
        ClippedMore(n, m.written + r, Concat(rest));
      } else {
        BodyRun(OnRead(m, r), n, rest, seen, broken);
      }
    }
  }

  /** From the read that completes the header on. */
  lemma FirstBytesRun(c: string, n: nat, rest: seq<string>, seen: string, broken: bool)
    requires n > 0 && seen == c + Concat(rest)
    ensures var m := FirstBytes(Start().(header := c, found := true), n, |ClientHeader(n)|);
      Of(Run(m, rest, broken)) == Body(n, seen, |c|)
  {
    var skip := |ClientHeader(n)|;
    var m := FirstBytes(Start().(header := c, found := true), n, skip);
    if |c| >= skip {
      assert seen[skip..] == c[skip..] + Concat(rest);
      if |c| - skip >= n {
        assert c[skip..skip + n] == c[skip..][..n];
        ClippedMore(n, c[skip..], Concat(rest));
      } else {
        assert m.written == c[skip..];
        BodyRun(m, n, rest, seen[skip..], broken);
      }
    }
  }

  lemma HeaderRun(c: string, rest: seq<string>, seen: string, broken: bool)
    requires seen == c + Concat(rest) && Fits(c) && (Find(CStr(c), CRLF2) >= 0 || |c| >= BUFFER_SIZE)
    ensures Of(Run(OnHeader(Start().(header := c)), rest, broken)) == Reference(c, seen, broken)
  {
    var v := Classify(CStr(c));
    if Find(CStr(c), CRLF2) >= 0 && v.FileFollows? {
      FirstBytesRun(c, v.len, rest, seen, broken);
    }
  }

  // --- Every stream, every cut ----------------------------------------------------------

  lemma LastHeaderRead(c: string, r: string, rest: seq<string>, seen: string, broken: bool)
    requires seen == (c + r) + Concat(rest) && |c| < HeaderSize(seen) <= |c + r|
    ensures Of(Run(OnRead(Start().(header := c), r), rest, broken)) == Reference(c + r, seen, broken)
  {
    TerminatorSeen(seen, c + r);
    if Fits(c + r) {
      HeaderRun(c + r, rest, seen, broken);
    }
  }

  lemma {:induction false} RunFrom(c: string, chunks: seq<string>, seen: string, broken: bool)
    requires seen == c + Concat(chunks) && |c| < HeaderSize(seen)
    ensures Of(Run(Start().(header := c), chunks, broken))
         == Reference(Gathered(c, chunks, HeaderSize(seen)), seen, broken)
    decreases |chunks|
  {
    HeaderPending(seen, c);
    if chunks == [] {
      assert seen == c;
    } else {
      var r, rest := HeadTail(c, chunks, seen);
      RunStep(Start().(header := c), r, rest, broken);
      GatheredOne(c, r, rest, HeaderSize(seen));
      if |c + r| < HeaderSize(seen) {
        HeaderPending(seen, c + r);
        RunFrom(c + r, rest, seen, broken);
      } else {
        LastHeaderRead(c, r, rest, seen, broken);
      }
    }
  }

  /** For every stream, well formed or not, and every cut: the result is what one look at the
      gathered bytes and at the stream says. Early ends of the stream are included. */
  lemma AnyStream(chunks: seq<string>, broken: bool)
    ensures Perform(chunks, broken) == Reference(HeaderRead(chunks), Concat(chunks), broken)
    ensures HeaderRead(chunks) <= Concat(chunks)
  {
    assert "" + Concat(chunks) == Concat(chunks);
    TerminatorSeen(Concat(chunks), "");
    GatheredPart("", chunks, HeaderSize(Concat(chunks)));
    RunFrom("", chunks, Concat(chunks), broken);
  }

  // --- Headers --------------------------------------------------------------------------

  /** A header: no NUL, and one terminator, at its end. */
  ghost predicate HeaderText(h: string) {
    |h| >= 4 && All(h, NotNul) && Find(h, CRLF2) == |h| - 4
  }

  predicate LineChar(c: char) { c != '\0' && c != '\r' && c != '\n' }

  predicate IsBlank(c: char) { c == ' ' }

  lemma LineHeader(line: string)
    requires All(line, LineChar)
    ensures HeaderText(line + CRLF2)
  {
    var h := line + CRLF2;
    assert h[|line|..|line| + 4] == CRLF2;
    assert OccursAt(h, CRLF2, |line|);
    forall i | 0 <= i < |line| ensures !OccursAt(h, CRLF2, i) {
      assert h[i..i + 4][0] == line[i];
    }
  }

  lemma OkHeaderText(n: nat, gap: string)
    requires All(gap, IsBlank)
    ensures HeaderText(OkHeader(n, gap))
    ensures |OkHeader(n, gap)| == |ClientHeader(n)| + |gap|
  {
    var line := "GETFILE OK " + Dec(n) + gap;
    forall i | 0 <= i < |line| ensures LineChar(line[i]) {
      if 11 <= i < 11 + |Dec(n)| {
        assert line[i] == Dec(n)[i - 11];
      } else if i >= 11 + |Dec(n)| {
        assert line[i] == gap[i - 11 - |Dec(n)|];
      }
    }
    LineHeader(line);
  }

  lemma CStrBehind(h: string, g: string)
    requires All(h, NotNul) && h <= g
    ensures h <= CStr(g)
    ensures CStr(g) == h <==> |g| == |h| || g[|h|] == '\0'
  {
    var rest := g[|h|..];
    assert g == h + rest;
    CStrOf(h, rest);
  }

  /** For a stream that starts with a header, or ends inside it, the first terminator is the one
      of the header. */
  lemma FirstTerminator(h: string, seen: string)
    requires HeaderText(h) && (seen <= h || h <= seen)
    ensures Find(CStr(seen), CRLF2) == if h <= seen then |h| - 4 else -1
  {
    if h <= seen {
      CStrBehind(h, seen);
      FindInPart(CStr(seen), h);
      OccursInPart(CStr(seen), h, Find(CStr(seen), CRLF2));
    } else {
      CStrBehind(seen, seen);
      FindInPart(h, seen);
    }
  }

  lemma HeaderOf(h: string, chunks: seq<string>) returns (g: string)
    requires HeaderText(h) && |h| <= BUFFER_SIZE
    requires Concat(chunks) <= h || h <= Concat(chunks)
    ensures g == HeaderRead(chunks) == Gathered("", chunks, |h|) && g <= Concat(chunks)
    ensures if h <= Concat(chunks) then h <= g && Find(CStr(g), CRLF2) >= 0
            else g == Concat(chunks) && |g| < |h| && Find(CStr(g), CRLF2) < 0
  {
    hide Run, Classify, Concat;
    var seen := Concat(chunks);
    assert "" + seen == seen;
    g := Gathered("", chunks, |h|);
    FirstTerminator(h, seen);
    GatheredPart("", chunks, |h|);
    GatheredPart("", chunks, BUFFER_SIZE);
    FirstTerminator(h, g);
  }

  /** Any header that fits the buffer: the verdict is that on the text gathered with the read
      that completes the terminator, whatever that read brings behind it. */
  lemma AnyHeader(h: string, chunks: seq<string>, broken: bool)
    requires HeaderText(h) && |h| <= BUFFER_SIZE && h <= Concat(chunks)
    ensures h <= Gathered("", chunks, |h|) <= Concat(chunks)
    ensures var g := Gathered("", chunks, |h|);
      Perform(chunks, broken) ==
        if |g| > BUFFER_SIZE then Faulty(WriteOutside)
        else if |CStr(g)| >= BUFFER_SIZE then Faulty(ReadOutside)
        else AfterHeader(Classify(CStr(g)), Concat(chunks), |g|)
  {
    hide Run, Classify, Gathered;
    var g := HeaderOf(h, chunks);
    AnyStream(chunks, broken);
  }

  // --- Success headers ------------------------------------------------------------------

  lemma DropMore(verb: string, s: string, more: string)
    requires verb <= s
    ensures verb <= s + more && (s + more)[|verb|..] == s[|verb|..] + more
  {
  }

  lemma ScanAnswerMore(answer: string, u: string, more: string)
    requires ScanAnswer(answer, u).Match? && ScanAnswer(answer, u).rest != []
    ensures ScanAnswer(answer, u + more)
         == Match(ScanAnswer(answer, u).value, ScanAnswer(answer, u).rest + more)
  {
    DropMore(answer, u, more);
    ScanNumberMore(u[|answer|..], more);
  }

  /** The same behind the first word, where `v` is what follows it. */
  lemma ScanSpacedMore(answer: string, v: string, more: string)
    requires answer != "" && ScanAnswer(answer, SkipSpace(v)).Match? && ScanAnswer(answer, SkipSpace(v)).rest != []
    ensures ScanAnswer(answer, SkipSpace(v + more))
         == Match(ScanAnswer(answer, SkipSpace(v)).value, ScanAnswer(answer, SkipSpace(v)).rest + more)
  {
    SkipSpaceMore(v, more);
    ScanAnswerMore(answer, SkipSpace(v), more);
  }

  lemma ScanWordsMore(verb: string, answer: string, s: string, more: string)
    requires answer != "" && ScanWords(verb, answer, s).Match? && ScanWords(verb, answer, s).rest != []
    ensures ScanWords(verb, answer, s + more)
         == Match(ScanWords(verb, answer, s).value, ScanWords(verb, answer, s).rest + more)
  {
    DropMore(verb, s, more);
    ScanSpacedMore(answer, s[|verb|..], more);
  }

  /** A success header says the same with anything behind it. */
  lemma ClassifyMore(h: string, text: string)
    requires h <= text && Classify(h).FileFollows? && ScanOk(h).rest != []
    ensures Classify(text) == Classify(h)
  {
    var more := text[|h|..];
    assert text == h + more;
    ScanWordsMore("GETFILE", "OK", h, more);
  }

  lemma ScanWordsEnd(verb: string, answer: string, s: string)
    requires ScanWords(verb, answer, s).Match? && ScanWords(verb, answer, s).rest == []
    ensures s != [] && IsDigit(s[|s| - 1])
  {
    hide ScanNumber;
    var v := s[|verb|..];
    var u := SkipSpace(v);
    ScanNumberEnd(u[|answer|..]);
    LastOfRest(u, |answer|);
    LastOfRest(v, |v| - |u|);
    LastOfRest(s, |verb|);
  }

  lemma LastOfRest(s: string, n: nat)
    requires n < |s|
    ensures s[n..] != [] && s[n..][|s[n..]| - 1] == s[|s| - 1]
  {
  }

  lemma LastChar(h: string)
    requires HeaderText(h)
    ensures h[|h| - 1] == '\n'
  {
    assert h[|h| - 4..|h|][3] == h[|h| - 1];
  }

  /** The number of a header ends before its terminator. */
  lemma NumberEnds(h: string)
    requires HeaderText(h) && ScanOk(h).Match?
    ensures ScanOk(h).rest != []
  {
    LastChar(h);
    if ScanOk(h).rest == [] {
      ScanWordsEnd("GETFILE", "OK", h);
    }
  }

  /** What `OkHeader` announces, whatever follows it. */
  lemma ClassifyOk(n: nat, gap: string, text: string)
    requires n < INT_LIMIT && All(gap, IsBlank) && OkHeader(n, gap) <= text
    ensures Classify(text) == if n == 0 then Refused(Invalid, -1) else FileFollows(n)
  {
    ScanOkOf(n, gap, text);
    RefusalsDiffer();
  }

  lemma ScanWordsText(verb: string, answer: string, number: string)
    requires answer != "" && !IsSpace(answer[0]) && number != "" && !IsSpace(number[0])
    ensures ScanWords(verb, answer, verb + (" " + (answer + (" " + number)))) == ScanSigned(number)
  {
    var u := answer + (" " + number);
    var s := verb + (" " + u);
    assert s[|verb|..] == " " + u && u[|answer|..] == " " + number;
    SkipSpaceOf(" ", u);
    SkipSpaceOf(" ", number);
  }

  lemma ScanOkText(number: string)
    requires number != "" && !IsSpace(number[0])
    ensures ScanOk("GETFILE OK " + number) == ScanSigned(number)
  {
    ScanWordsText("GETFILE", "OK", number);
    OkWordsApart();
    Reassociate("GETFILE", " ", "OK", " ", number);
  }

  lemma OkWordsApart()
    ensures "GETFILE OK " == (("GETFILE" + " ") + "OK") + " "
  {
  }

  lemma Reassociate(a: string, b: string, c: string, d: string, e: string)
    ensures (((a + b) + c) + d) + e == a + (b + (c + (d + e)))
  {
  }

  lemma ScanOkShape(n: nat, rest: string)
    requires rest != [] && !IsDigit(rest[0])
    ensures ScanOk("GETFILE OK " + (Dec(n) + rest)) == Match(n, rest)
  {
    ScanPositiveOf(n, rest);
    ScanOkText(Dec(n) + rest);
  }

  lemma ScanOkOf(n: nat, gap: string, text: string)
    requires All(gap, IsBlank) && OkHeader(n, gap) <= text
    ensures ScanOk(text).Match? && ScanOk(text).value == n
  {
    var h := OkHeader(n, gap);
    var tail := text[|h|..];
    var rest := gap + CRLF2 + tail;
    assert text == h + tail;
    assert text == "GETFILE OK " + (Dec(n) + rest);
    assert rest[0] == if gap == "" then '\r' else gap[0];
    ScanOkShape(n, rest);
  }

  /** Whatever follows "GETFILE" and does not start with an O is no success header. */
  lemma NotOk(word: string)
    requires word != [] && !IsSpace(word[0]) && word[0] != 'O'
    ensures !ScanOk("GETFILE " + word).Match?
  {
    assert "GETFILE " + word == "GETFILE" + (" " + word);
    SkipSpaceOf(" ", word);
  }

  lemma RefusalTexts()
    ensures NOT_FOUND_HEADER == "GETFILE " + ("FILE_NOT_FOUND" + CRLF2)
    ensures ERROR_HEADER == "GETFILE " + ("ERROR" + CRLF2)
  {
  }

  lemma RefusalsDiffer()
    ensures !ScanOk(NOT_FOUND_HEADER).Match? && !ScanOk(ERROR_HEADER).Match?
  {
    RefusalTexts();
    NotOk("FILE_NOT_FOUND" + CRLF2);
    NotOk("ERROR" + CRLF2);
  }

  /** A length of zero or less is no success, ... */
  lemma NoLength(text: string)
    requires ScanOk(text).Match? && -INT_LIMIT <= ScanOk(text).value <= 0
    ensures Classify(text) == Refused(Invalid, -1)
  {
    RefusalsDiffer();
  }

  /** ... "GETFILE OK -5" for one. */
  lemma NegativeLength(n: int, rest: string)
    requires -INT_LIMIT <= n <= 0 && rest != "" && !IsDigit(rest[0])
    ensures Classify("GETFILE OK " + (PrintInt(n) + rest)) == Refused(Invalid, -1)
  {
    hide Classify, ScanOk, ScanSigned, PrintInt;
    ScanPrinted(n, rest);
    ScanOkText(PrintInt(n) + rest);
    NoLength("GETFILE OK " + (PrintInt(n) + rest));
  }

  ghost predicate SuccessHeader(h: string, n: nat) {
    HeaderText(h) && |h| <= BUFFER_SIZE && Classify(h) == FileFollows(n)
  }

  /** For every success header, every body and every cut of any initial part of the stream, early
      ends included: unless the cut leaves the buffer, the result is that of the stream. The
      body starts where the client's own header would end, so behind a longer header it is
      shifted, and the last ensures says that the cut does not matter for it. */
  lemma ChunkIndependent(h: string, n: nat, body: string, chunks: seq<string>, broken: bool)
    requires SuccessHeader(h, n) && Concat(chunks) <= h + body
    ensures var g, seen := Gathered("", chunks, |h|), Concat(chunks);
      Perform(chunks, broken) ==
        if |g| > BUFFER_SIZE then Faulty(WriteOutside)
        else if |CStr(g)| >= BUFFER_SIZE then Faulty(ReadOutside)
        else if |seen| < |h| then CutShort(broken)
        else Body(n, seen, |g|)
    ensures var g, seen := Gathered("", chunks, |h|), Concat(chunks);
      |ClientHeader(n)| <= |h| <= |seen| ==> Body(n, seen, |g|) == Clipped(n, seen[|ClientHeader(n)|..])
  {
    hide Run, Classify, Gathered;
    var seen := Concat(chunks);
    assert seen <= h || h <= seen;
    var g := HeaderOf(h, chunks);
    AnyStream(chunks, broken);
    if h <= seen {
      ClassifyGathered(h, n, g);
    }
  }

  lemma ClassifyGathered(h: string, n: nat, g: string)
    requires SuccessHeader(h, n) && h <= g
    ensures Classify(CStr(g)) == FileFollows(n)
  {
    CStrBehind(h, g);
    NumberEnds(h);
    ClassifyMore(h, CStr(g));
  }

  /** The headers with blanks in front of the terminator. */
  lemma OkIsSuccess(n: nat, gap: string)
    requires 0 < n < INT_LIMIT && All(gap, IsBlank) && |OkHeader(n, gap)| <= BUFFER_SIZE
    ensures SuccessHeader(OkHeader(n, gap), n)
  {
    OkHeaderText(n, gap);
    ClassifyOk(n, gap, OkHeader(n, gap));
  }

  /** The canonical header always fits. */
  lemma ClientHeaderFits(n: nat)
    requires n < INT_LIMIT
    ensures |ClientHeader(n)| <= 25
  {
    IntLength(n);
    OkHeaderText(n, "");
  }

  /** So are those with leading zeros or a plus sign, "GETFILE OK 007" and "GETFILE OK +5" say. */
  lemma DigitsAreSuccess(plus: bool, digits: string)
    requires All(digits, IsDigit) && digits != "" && 0 < Value(digits) < INT_LIMIT && |digits| <= 1000
    ensures SuccessHeader("GETFILE OK " + (Signed(plus, digits) + CRLF2), Value(digits))
  {
    var number := Signed(plus, digits) + CRLF2;
    var verb := OkWords();
    SignedLine(verb, plus, digits);
    ScanSignedDigits(plus, digits);
    ScanOkText(number);
    Announces(verb + number, Value(digits));
  }

  lemma OkWords() returns (verb: string)
    ensures verb == "GETFILE OK " && |verb| == 11 && All(verb, LineChar)
  {
    verb := "GETFILE OK ";
  }

  lemma Announces(h: string, n: nat)
    requires HeaderText(h) && |h| <= BUFFER_SIZE && ScanOk(h).Match? && ScanOk(h).value == n && 0 < n < INT_LIMIT
    ensures SuccessHeader(h, n)
  {
  }

  lemma SignedLine(verb: string, plus: bool, digits: string)
    requires All(verb, LineChar) && All(digits, IsDigit)
    ensures HeaderText(verb + (Signed(plus, digits) + CRLF2))
    ensures |verb + (Signed(plus, digits) + CRLF2)| <= |verb| + |digits| + 5
  {
    var line := verb + Signed(plus, digits);
    LineHeader(line);
    assert line + CRLF2 == verb + (Signed(plus, digits) + CRLF2);
  }

  function Signed(plus: bool, digits: string): string { if plus then "+" + digits else digits }

  lemma ScanSignedDigits(plus: bool, digits: string)
    requires All(digits, IsDigit) && digits != ""
    ensures ScanSigned(Signed(plus, digits) + CRLF2) == Match(Value(digits), CRLF2)
    ensures !IsSpace((Signed(plus, digits) + CRLF2)[0])
  {
    ScanDigitsExactly(digits, CRLF2);
    var unsigned := digits + CRLF2;
    assert unsigned[0] == digits[0] && IsDigit(digits[0]);
    if plus {
      assert Signed(plus, digits) + CRLF2 == "+" + unsigned;
      assert ("+" + unsigned)[1..] == unsigned;
    }
  }

  lemma ScanDigitsExactly(digits: string, rest: string)
    requires All(digits, IsDigit) && digits != "" && rest != "" && !IsDigit(rest[0])
    ensures ScanDigits(digits + rest) == Match(Value(digits), rest)
  {
    SpanOf(digits, rest, IsDigit);
    assert (digits + rest)[..|digits|] == digits && (digits + rest)[|digits|..] == rest;
  }

  /** A success header followed by the end of the stream or a body, read by a cut that fits. */
  lemma CanonicalStream(n: nat, gap: string, body: string, chunks: seq<string>, broken: bool)
    requires 0 < n < INT_LIMIT && All(gap, IsBlank) && |OkHeader(n, gap)| <= BUFFER_SIZE
    requires Concat(chunks) == OkHeader(n, gap) + body
    ensures var h, g := OkHeader(n, gap), Gathered("", chunks, |OkHeader(n, gap)|);
      if Fits(g) then Perform(chunks, broken) == Clipped(n, (h + body)[|ClientHeader(n)|..])
      else Perform(chunks, broken).end.Undefined?
    ensures |ClientHeader(n)| <= |OkHeader(n, gap)|
  {
    hide Run, Classify, Gathered;
    OkIsSuccess(n, gap);
    OkHeaderText(n, gap);
    ChunkIndependent(OkHeader(n, gap), n, body, chunks, broken);
  }

  /** A stream that ends early, behind its header: exactly the bytes received were written, the
      count is short of the length, and the call fails although the status is OK. */
  lemma EarlyClose(n: nat, chunks: seq<string>, got: string, broken: bool)
    requires n < INT_LIMIT && Concat(chunks) == ClientHeader(n) + got && |got| < n
    ensures if Fits(Gathered("", chunks, |ClientHeader(n)|)) then
              Perform(chunks, broken) == Outcome(Ok, Returned(-1), |got|, n, got)
            else Perform(chunks, broken).end.Undefined?
  {
    hide Run, Classify, Gathered;
    ClientHeaderFits(n);
    CanonicalStream(n, "", got, chunks, broken);
    assert (ClientHeader(n) + got)[|ClientHeader(n)|..] == got;
  }

  /** Two cuts of one stream that both stay in the buffer are indistinguishable. */
  lemma SameForAllCuts(h: string, n: nat, body: string, a: seq<string>, b: seq<string>, broken: bool)
    requires SuccessHeader(h, n) && |ClientHeader(n)| <= |h| && Concat(a) == Concat(b) <= h + body
    requires Fits(Gathered("", a, |h|)) && Fits(Gathered("", b, |h|))
    ensures Perform(a, broken) == Perform(b, broken)
  {
    hide Run, Classify, Gathered;
    ChunkIndependent(h, n, body, a, broken);
    ChunkIndependent(h, n, body, b, broken);
  }

  // --- When the buffer is left ----------------------------------------------------------

  /** Exactly when more than a buffer has been gathered with the read that completes the header,
      `memcpy` writes behind the buffer; for every header that fits it. */
  lemma LeavesBuffer(h: string, chunks: seq<string>, broken: bool)
    requires HeaderText(h) && |h| <= BUFFER_SIZE && (Concat(chunks) <= h || h <= Concat(chunks))
    ensures Perform(chunks, broken).end == Undefined(WriteOutside) <==> |Gathered("", chunks, |h|)| > BUFFER_SIZE
    ensures !Fits(Gathered("", chunks, |h|)) ==> Perform(chunks, broken).end.Undefined?
  {
    hide Run, Classify, Gathered;
    var g := HeaderOf(h, chunks);
    AnyStream(chunks, broken);
    NoWriteAfter(Classify(CStr(g)), Concat(chunks), |g|);
  }

  lemma NoWriteAfter(v: Verdict, seen: string, gathered: nat)
    ensures AfterHeader(v, seen, gathered).end != Undefined(WriteOutside)
  {
  }

  /** Reads that leave room for a whole header and a NUL never do. */
  lemma {:induction false} SmallReadsFit(c: string, chunks: seq<string>, size: nat)
    requires |c| < size <= BUFFER_SIZE && forall r :: r in chunks ==> size + |r| <= BUFFER_SIZE
    ensures Fits(Gathered(c, chunks, size))
    decreases |chunks|
  {
    if chunks != [] {
      assert chunks[0] in chunks && forall r :: r in chunks[1..] ==> r in chunks;
      if |c + chunks[0]| < size {
        SmallReadsFit(c + chunks[0], chunks[1..], size);
      }
    }
  }

  /** Nor does any cut of a stream that is shorter than the buffer. */
  lemma ShortStreamFits(chunks: seq<string>, size: nat)
    requires |Concat(chunks)| < BUFFER_SIZE
    ensures Fits(Gathered("", chunks, size))
  {
    assert "" + Concat(chunks) == Concat(chunks);
    GatheredPart("", chunks, size);
  }

  /** Any header of more than ten bytes, with a first read of ten bytes only: the second read, of
      a whole buffer, is copied behind the ten bytes and beyond the end. */
  lemma SplitHeaderOverruns(h: string, stream: string)
    requires HeaderText(h) && 10 < |h| <= BUFFER_SIZE && h <= stream && |stream| > 1034
    ensures var chunks := [stream[..10], stream[10..1034], stream[1034..]];
      Concat(chunks) == stream && Perform(chunks, false).end == Undefined(WriteOutside)
  {
    hide Run, Classify, Gathered;
    var a, b, c := stream[..10], stream[10..1034], stream[1034..];
    ConcatThree(a, b, c);
    assert a + b + c == stream;
    GatheredThree(a, b, c, |h|);
    LeavesBuffer(h, [a, b, c], false);
  }

  lemma GatheredThree(a: string, b: string, c: string, size: nat)
    requires |a| < size <= |a + b|
    ensures Gathered("", [a, b, c], size) == a + b
  {
    assert [a, b, c] == [a] + [b, c] && [b, c] == [b] + [c];
    GatheredOne("", a, [b, c], size);
    assert "" + a == a;
    GatheredOne(a, b, [c], size);
  }

  /** The client's own header, read in 10, 1024 and nine bytes. */
  lemma OverrunExample(file: string)
    requires |file| == 1024
    ensures var stream := ClientHeader(1024) + file;
      var chunks := [stream[..10], stream[10..1034], stream[1034..]];
      && Concat(chunks) == stream && (forall r :: r in chunks ==> 1 <= |r| <= BUFFER_SIZE)
      && Perform(chunks, false).end == Undefined(WriteOutside)
  {
    hide Run, Classify, Gathered;
    HeaderLength();
    OkHeaderText(1024, "");
    SplitHeaderOverruns(ClientHeader(1024), ClientHeader(1024) + file);
  }

  lemma HeaderLength()
    ensures |ClientHeader(1024)| == 19
  {
    assert |Dec(1)| == 1 && |Dec(10)| == 2 && |Dec(102)| == 3 && |Dec(1024)| == 4;
  }

  lemma ConcatThree(a: string, b: string, c: string)
    ensures Concat([a, b, c]) == a + b + c
  {
    assert [a, b, c][1..] == [b, c] && [b, c][1..] == [c] && [c][1..] == [];
    assert Concat([c]) == c && Concat([b, c]) == b + c;
  }

  /** No terminator within the buffer: once a bufferful has arrived, the result is a rejection
      exactly if the reads fill the buffer exactly and there is a NUL among its bytes. Otherwise
      the code reads or writes behind the buffer. A header of more than a bufferful, which holds
      no NUL, is therefore never rejected, nor accepted, in any defined way. */
  lemma LongHeader(chunks: seq<string>, broken: bool)
    requires |Concat(chunks)| >= BUFFER_SIZE
    requires var f := Find(CStr(Concat(chunks)), CRLF2); f < 0 || f + 4 > BUFFER_SIZE
    ensures var g := Gathered("", chunks, BUFFER_SIZE);
      && BUFFER_SIZE <= |g| && g <= Concat(chunks)
      && Perform(chunks, broken) ==
        if |g| > BUFFER_SIZE then Faulty(WriteOutside)
        else if All(g, NotNul) then Faulty(ReadOutside)
        else TooLong()
    ensures forall h :: HeaderText(h) && h <= Concat(chunks) ==> Perform(chunks, broken).end.Undefined?
  {
    hide Run, Classify, Gathered, Find, Concat;
    var seen := Concat(chunks);
    var g := Gathered("", chunks, BUFFER_SIZE);
    assert "" + seen == seen;
    GatheredPart("", chunks, BUFFER_SIZE);
    AnyStream(chunks, broken);
    TerminatorSeen(seen, g);
    FullString(g);
    forall h | HeaderText(h) && h <= seen ensures Perform(chunks, broken).end.Undefined? {
      FirstTerminator(h, seen);
      if |g| == BUFFER_SIZE {
        assert forall i :: 0 <= i < |g| ==> g[i] == h[i];
      }
    }
  }
}
