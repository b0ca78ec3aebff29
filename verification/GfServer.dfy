/** The GETFILE server's side of one connection: the header it prints, and how it takes a
    request apart with `strtok` (ISO C11, section 7.24.5.8) in its header buffer. */
module GfServer {
  import opened Wrappers
  import opened Text
  import opened Wire

  const BUFFER_SIZE: nat := 1024

  // --- The headers it prints ------------------------------------------------------------

  datatype Answer = Found(len: nat) | Missing | Failed

  /** `gfs_sendheader`. */
  function SendHeader(a: Answer): string {
    match a
    case Found(len) => OkHeader(len, " ")
    case Missing => "GETFILE " + ("FILE_NOT_FOUND " + CRLF2)
    case Failed => "GETFILE " + ("ERROR " + CRLF2)
  }

  /** The three texts. */
  lemma ServerTexts(n: nat)
    ensures SendHeader(Answer.Found(n)) == "GETFILE OK " + Dec(n) + " \r\n\r\n"
    ensures SendHeader(Missing) == "GETFILE FILE_NOT_FOUND \r\n\r\n"
    ensures SendHeader(Failed) == "GETFILE ERROR \r\n\r\n"
  {
    assert " \r\n\r\n" == " " + CRLF2;
  }

  // --- strtok(header, " \r") ------------------------------------------------------------

  predicate IsDelim(c: char) { c == ' ' || c == '\r' }

  predicate NotDelim(c: char) { !IsDelim(c) }

  /** The next token of a string and what `strtok` will look at after it. */
  function NextToken(s: string): Option<(string, string)> {
    var t := s[Span(s, IsDelim)..];
    var n := Span(t, NotDelim);
    if t == [] then None else Some((t[..n], t[if n < |t| then n + 1 else n..]))
  }

  /** Scheme, method and path, as far as they are there. */
  datatype Request = Request(scheme: Option<string>, verb: Option<string>, path: Option<string>)

  function Tokenize(text: string): Request {
    match NextToken(text)
    case None => Request(None, None, None)
    case Some((scheme, rest)) =>
      match NextToken(rest)
      case None => Request(Some(scheme), None, None)
      case Some((verb, rest')) =>
        match NextToken(rest')
        case None => Request(Some(scheme), Some(verb), None)
        case Some((path, _)) => Request(Some(scheme), Some(verb), Some(path))
  }

  /** `ReadOutside` is `strstr` in a full buffer without a NUL, which is no string. */
  datatype Reaction = Handle(path: string) | Refuse(answer: Answer) | KeepReading | ReadOutside

  function RouteOf(r: Request): Reaction {
    if r.path == None || r.scheme != Some("GETFILE") || r.verb != Some("GET") || !("/" <= r.path.value) then
      Refuse(Missing)
    else Handle(r.path.value)
  }

  /** The first `read` of a connection; it returns nothing when the client has closed it. Nothing
      happens before the terminator is there. */
  function Receive(received: string): Reaction
    requires |received| <= BUFFER_SIZE
  {
    var text := CStr(received);
    if received == "" then Refuse(Failed)
    else if |text| >= BUFFER_SIZE then ReadOutside
    else if Find(text, CRLF2) >= 0 then RouteOf(Tokenize(text))
    else KeepReading
  }

  // --- The request that the client prints -----------------------------------------------

  function PrintGet(path: string): string { "GETFILE GET " + path + CRLF2 }

  /** The client copies the path into one buffer (`gfc_set_path`) and prints the request into
      another, both of the same size and neither with a check. */
  datatype Sent = Sent(text: string) | WriteOutside

  function ClientRequest(path: string): (r: Sent)
    ensures r.Sent? ==> |r.text| < BUFFER_SIZE
  {
    if |path| >= BUFFER_SIZE || |PrintGet(path)| >= BUFFER_SIZE then WriteOutside else Sent(PrintGet(path))
  }

  predicate PathChar(c: char) { c != '\0' && c != ' ' && c != '\r' }

  lemma TokenOf(token: string, rest: string)
    requires token != [] && All(token, NotDelim) && (rest == [] || IsDelim(rest[0]))
    ensures NextToken(token + rest) == Some((token, if rest == [] then "" else rest[1..]))
  {
    var s := token + rest;
    assert NotDelim(s[0]) by { assert s[0] == token[0]; }
    assert s == "" + s;
    SpanOf("", s, IsDelim);
    SpanOf(token, rest, NotDelim);
    assert s[0..] == s && s[..|token|] == token;
    assert rest != [] ==> s[|token| + 1..] == rest[1..];
  }

  lemma TokenizeOf(scheme: string, verb: string, path: string, tail: string)
    requires scheme != [] && verb != [] && path != [] && tail != [] && IsDelim(tail[0])
    requires All(scheme, NotDelim) && All(verb, NotDelim) && All(path, NotDelim)
    ensures Tokenize(scheme + (" " + (verb + (" " + (path + tail)))))
         == Request(Some(scheme), Some(verb), Some(path))
  {
    var rest2 := path + tail;
    var rest1 := verb + (" " + rest2);
    TokenOf(scheme, " " + rest1);
    assert (" " + rest1)[1..] == rest1;
    TokenOf(verb, " " + rest2);
    assert (" " + rest2)[1..] == rest2;
    TokenOf(path, tail);
  }

  lemma GetTokens(path: string)
    requires path != [] && All(path, PathChar)
    ensures Tokenize(PrintGet(path)) == Request(Some("GETFILE"), Some("GET"), Some(path))
  {
    assert All(path, NotDelim);
    assert PrintGet(path) == "GETFILE" + (" " + ("GET" + (" " + (path + CRLF2))));
    TokenizeOf("GETFILE", "GET", path, CRLF2);
  }

  lemma GetText(verb: string, path: string)
    requires All(verb, NotNul) && All(path, NotNul)
    ensures var get := verb + path + CRLF2; CStr(get) == get && OccursAt(get, CRLF2, |verb| + |path|)
  {
    var get := verb + path + CRLF2;
    assert forall i :: |verb| <= i < |verb| + |path| ==> get[i] == path[i - |verb|];
    assert get + "" == get;
    CStrOf(get, "");
    assert get[|verb| + |path|..] == CRLF2;
  }

  /** The request round trip: a path that starts with a slash and holds no NUL, blank or
      carriage return reaches the handler exactly as the client was given it, if and only if it
      has fewer than 1008 characters. A longer one takes the client out of its buffers. */
  lemma GetRoundTrip(path: string)
    requires "/" <= path && All(path, PathChar)
    ensures match ClientRequest(path)
      case Sent(text) => |path| < 1008 && Receive(text) == Handle(path)
      case WriteOutside => |path| >= 1008
  {
    GetLength(path);
    if |path| < 1008 {
      GetTokens(path);
      assert RouteOf(Tokenize(PrintGet(path))) == Handle(path);
      GetTerminated(path);
    }
  }

  lemma GetLength(path: string)
    ensures |PrintGet(path)| == |path| + 16
  {
  }

  lemma GetTerminated(path: string)
    requires All(path, NotNul)
    ensures CStr(PrintGet(path)) == PrintGet(path) && Find(PrintGet(path), CRLF2) >= 0
  {
    var verb := "GETFILE GET ";
    assert All(verb, NotNul);
    GetText(verb, path);
  }

  // --- Which requests are refused -------------------------------------------------------

  /** A word of a request: it ends at a blank or a carriage return. */
  ghost predicate IsToken(t: string) {
    t != "" && forall i :: 0 <= i < |t| ==> t[i] != ' ' && t[i] != '\r' && t[i] != '\0'
  }

  ghost predicate Blanks(d: string) { forall i :: 0 <= i < |d| ==> d[i] == ' ' || d[i] == '\r' }

  lemma TokenChars(t: string)
    requires IsToken(t)
    ensures All(t, NotDelim) && All(t, NotNul)
  {
  }

  /** A line of words: no NUL, and the terminator where it ends. */
  lemma LineIsText(line: string)
    requires All(line, NotNul)
    ensures CStr(line + CRLF2) == line + CRLF2 && Find(line + CRLF2, CRLF2) >= 0
  {
    hide CStr, Find;
    var text := line + CRLF2;
    assert All(text, NotNul);
    FullString(text);
    CStrPart(text);
    assert text[|line|..|line| + 4] == CRLF2;
    assert OccursAt(text, CRLF2, |line|);
  }

  lemma CStrPart(s: string)
    ensures CStr(s) <= s
  {
  }

  lemma JoinNotNul(a: string, b: string)
    requires All(a, NotNul) && All(b, NotNul)
    ensures All(a + " " + b, NotNul)
  {
  }

  lemma RoutesLine(line: string)
    requires All(line, NotNul) && |line| + 4 < BUFFER_SIZE
    ensures Receive(line + CRLF2) == RouteOf(Tokenize(line + CRLF2))
  {
    LineIsText(line);
  }

  /** Three words reach the handler, with the third as path, if and only if they are GETFILE, GET
      and a path that starts with a slash; all other requests are answered FILE_NOT_FOUND. */
  lemma ThreeWords(x: string, y: string, p: string)
    requires IsToken(x) && IsToken(y) && IsToken(p) && |x| + |y| + |p| + 6 < 1024
    ensures var text := x + " " + y + " " + p + CRLF2;
      && |text| < 1024
      && Receive(text) == if x == "GETFILE" && y == "GET" && p[0] == '/' then Handle(p) else Refuse(Missing)
  {
    hide Tokenize, CStr, Find;
    TokenChars(x);
    TokenChars(y);
    TokenChars(p);
    var line := x + " " + y + " " + p;
    JoinNotNul(x, y);
    JoinNotNul(x + " " + y, p);
    RoutesLine(line);
    assert line + CRLF2 == x + (" " + (y + (" " + (p + CRLF2))));
    TokenizeOf(x, y, p, CRLF2);
  }

  /** With fewer words the line feeds of the terminator take the place of the missing ones, and
      the request is refused as well. */
  lemma FewerWords(x: string, y: string)
    requires IsToken(x) && IsToken(y) && |x| + |y| + 5 < 1024
    ensures Receive(x + " " + y + CRLF2) == Refuse(Missing)
    ensures Receive(x + CRLF2) == Refuse(Missing)
    ensures Receive(CRLF2) == Refuse(Missing)
  {
    hide Receive;
    TokenChars(x);
    TokenChars(y);
    JoinNotNul(x, y);
    RoutesLine(x + " " + y);
    TwoTokens(x, y);
    RoutesLine(x);
    OneToken(x);
    RoutesLine("");
    assert "" + CRLF2 == CRLF2;
    NoToken();
  }

  lemma TwoTokens(x: string, y: string)
    requires x != "" && y != "" && All(x, NotDelim) && All(y, NotDelim)
    ensures Tokenize(x + " " + y + CRLF2).path == Some("\n")
  {
    assert x + " " + y + CRLF2 == x + (" " + (y + CRLF2));
    TokenOf(x, " " + (y + CRLF2));
    assert (" " + (y + CRLF2))[1..] == y + CRLF2;
    TokenOf(y, CRLF2);
    LineFeeds();
  }

  lemma OneToken(x: string)
    requires x != "" && All(x, NotDelim)
    ensures Tokenize(x + CRLF2).path == Some("\n") || Tokenize(x + CRLF2).path == None
  {
    TokenOf(x, CRLF2);
    LineFeeds();
  }

  lemma NoToken()
    ensures Tokenize(CRLF2).path == None
  {
    hide NextToken;
    LineFeeds();
    FirstLineFeed();
  }

  lemma FirstLineFeed()
    ensures NextToken(CRLF2) == NextToken("\n\r\n")
  {
    hide NextToken;
    assert CRLF2 == "\r" + "\n\r\n";
    SkipFirst("\n\r\n");
  }

  lemma SkipFirst(s: string)
    requires s != "" && !IsDelim(s[0])
    ensures NextToken("\r" + s) == NextToken(s)
  {
    SpanOf("\r", s, IsDelim);
    assert s == "" + s;
    SpanOf("", s, IsDelim);
    assert ("\r" + s)[1..] == s && s[0..] == s;
  }

  /** What `strtok` makes of the terminator behind the last word. */
  lemma LineFeeds()
    ensures CRLF2[1..] == "\n\r\n"
    ensures NextToken("\n\r\n") == Some(("\n", "\n"))
    ensures NextToken("\n") == Some(("\n", ""))
    ensures NextToken("") == None
  {
    assert "\n\r\n" == "\n" + "\r\n";
    TokenOf("\n", "\r\n");
    assert "\n" == "\n" + "";
    TokenOf("\n", "");
  }

  /** `text` asks for `p`: GETFILE, GET and `p`, in front of, between and behind any number of
      blanks and carriage returns, and anything behind those. */
  ghost predicate AsksAs(text: string, p: string, d1: string, d2: string, d3: string, e: string) {
    && Blanks(d1) && Blanks(d2) && d2 != "" && Blanks(d3) && d3 != ""
    && p != "" && All(p, NotDelim) && (e == "" || Blanks(e[..1]))
    && text == d1 + ("GETFILE" + (d2 + ("GET" + (d3 + (p + e)))))
  }

  ghost predicate Asks(text: string, p: string) {
    exists d1, d2, d3, e :: AsksAs(text, p, d1, d2, d3, e)
  }

  lemma TokenAfter(d: string, t: string, e: string)
    requires Blanks(d) && t != "" && All(t, NotDelim) && (e == "" || IsDelim(e[0]))
    ensures NextToken(d + (t + e)) == Some((t, if e == "" then "" else e[1..]))
  {
    var s := d + (t + e);
    assert NotDelim((t + e)[0]) by {
      assert (t + e)[0] == t[0];
    }
    SpanOf(d, t + e, IsDelim);
    assert s[|d|..] == t + e;
    SpanOf(t, e, NotDelim);
    assert (t + e)[..|t|] == t && (t + e)[|t|..] == e;
    assert e != "" ==> (t + e)[|t| + 1..] == e[1..];
  }

  lemma TokenSplit(s: string) returns (d: string, e: string)
    requires NextToken(s).Some?
    ensures var (t, rest) := NextToken(s).value;
      && Blanks(d) && t != "" && All(t, NotDelim) && (e == "" || IsDelim(e[0]))
      && s == d + (t + e) && rest == if e == "" then "" else e[1..]
  {
    var k := Span(s, IsDelim);
    var u := s[k..];
    var n := Span(u, NotDelim);
    d, e := s[..k], u[n..];
    assert forall i :: 0 <= i < |d| ==> IsDelim(d[i]);
    assert s == d + u && u == u[..n] + e;
    assert n < |u| ==> u[n + 1..] == e[1..];
  }

  lemma AskedIsHandled(text: string, p: string, d1: string, d2: string, d3: string, e: string)
    requires AsksAs(text, p, d1, d2, d3, e)
    ensures Tokenize(text) == Request(Some("GETFILE"), Some("GET"), Some(p))
  {
    hide NextToken;
    var e3 := p + e;
    var e2 := d3 + e3;
    var e1 := d2 + ("GET" + e2);
    TokenAfter(d1, "GETFILE", e1);
    assert e1[1..] == d2[1..] + ("GET" + e2);
    TokenAfter(d2[1..], "GET", e2);
    assert e2[1..] == d3[1..] + e3;
    TokenAfter(d3[1..], p, e);
  }

  lemma HandledIsAsked(text: string, p: string)
    requires Tokenize(text) == Request(Some("GETFILE"), Some("GET"), Some(p))
    ensures Asks(text, p)
  {
    hide NextToken;
    EmptyHasNoToken();
    var d1, e1 := TokenSplit(text);
    var d2, e2 := TokenSplit(e1[1..]);
    var d3, e3 := TokenSplit(e2[1..]);
    Prepend(e1, d2, "GET" + e2);
    Prepend(e2, d3, p + e3);
    assert AsksAs(text, p, d1, e1[..1] + d2, e2[..1] + d3, e3);
  }

  lemma EmptyHasNoToken()
    ensures NextToken("") == None
  {
  }

  lemma Prepend(e: string, d: string, rest: string)
    requires e != "" && IsDelim(e[0]) && Blanks(d) && e[1..] == d + rest
    ensures Blanks(e[..1] + d) && e == (e[..1] + d) + rest
  {
  }

  /** Of all the texts that hold a terminator, exactly those reach the handler that ask for a
      path with a slash in front; the others are answered FILE_NOT_FOUND. */
  lemma HandledExactly(received: string, p: string)
    requires received != "" && |received| <= 1024 && |CStr(received)| < 1024
    requires Find(CStr(received), "\r\n\r\n") >= 0
    ensures Receive(received) == Handle(p) <==> Asks(CStr(received), p) && p[0] == '/'
    ensures Receive(received).Handle? || Receive(received) == Refuse(Missing)
  {
    hide Tokenize, CStr, Find;
    var text := CStr(received);
    if Tokenize(text) == Request(Some("GETFILE"), Some("GET"), Some(p)) {
      HandledIsAsked(text, p);
      var d1, d2, d3, e :| AsksAs(text, p, d1, d2, d3, e);
    }
    if Asks(text, p) {
      var d1, d2, d3, e :| AsksAs(text, p, d1, d2, d3, e);
      AskedIsHandled(text, p, d1, d2, d3, e);
    }
  }

  /** Nothing, a text without a terminator, and a full buffer without a NUL. */
  lemma OtherReads(received: string)
    requires |received| <= 1024
    ensures received == "" ==> Receive(received) == Refuse(Failed)
    ensures |CStr(received)| == 1024 ==> Receive(received) == ReadOutside
    ensures received != "" && |CStr(received)| < 1024 && (forall i :: !OccursAt(CStr(received), "\r\n\r\n", i))
      ==> Receive(received) == KeepReading
  {
  }

  // --- In place -------------------------------------------------------------------------

  /** The C string that starts at `from`. */
  ghost function StringAt(a: array<char>, from: nat): string
    requires from <= a.Length
    reads a
  {
    CStr(a[from..])
  }

  /** Dropping characters that belong to a C string leaves the rest of it. */
  lemma CStrDrop(s: string, n: nat)
    requires n <= |CStr(s)|
    ensures CStr(s[n..]) == CStr(s)[n..]
  {
    var k := Span(s, NotNul);
    var u := s[n..];
    assert u == u[..k - n] + u[k - n..];
    assert u[..k - n] == s[..k][n..];
    SpanOf(u[..k - n], u[k - n..], NotNul);
  }

  lemma DropDrop(s: string, a: nat, b: nat)
    requires a + b <= |s|
    ensures s[a..][b..] == s[a + b..]
  {
  }

  /** Where the next token of the C string at the front of `u` ends, and what is behind it. */
  lemma TokenEnd(u: string) returns (skip: nat, n: nat, after: nat)
    ensures var s := CStr(u);
      && skip == Span(s, IsDelim) && skip <= |s| && n == Span(s[skip..], NotDelim) && skip + n <= |s|
      && after == (if skip + n < |s| then skip + n + 1 else skip + n) && after <= |s|
      && (s[skip..] != "" ==> NextToken(s) == Some((s[skip..][..n], CStr(u[after..]))))
  {
    var s := CStr(u);
    skip := Span(s, IsDelim);
    n := Span(s[skip..], NotDelim);
    after := if skip + n < |s| then skip + n + 1 else skip + n;
    CStrDrop(u, after);
    DropDrop(s, skip, after - skip);
  }

  /** `strtok`: finds the next token from `from` on, ends it with a NUL in place, and moves the
      saved position behind it. No other character changes. */
  method Strtok(a: array<char>, from: nat) returns (token: Option<string>, next: nat)
    requires from <= a.Length
    modifies a
    ensures from <= next <= a.Length
    ensures forall k :: 0 <= k < a.Length ==> a[k] == old(a[k]) || (token.Some? && k + 1 == next && a[k] == '\0')
    ensures match NextToken(old(StringAt(a, from)))
      case None => token == None && a[..] == old(a[..])
      case Some((t, rest)) => token == Some(t) && StringAt(a, next) == rest
  {
    ghost var u := a[from..];
    ghost var at, len, after := TokenEnd(u);
    var s := CStr(a[from..]);
    var skip := Span(s, IsDelim);
    var t := s[skip..];
    next := from + skip;
    if t == "" {
      return None, next;
    }
    var n := Span(t, NotDelim);
    token := Some(t[..n]);
    next := next + n;
    if n < |t| {
      a[next] := '\0';
      next := next + 1;
    }
    assert a[next..] == u[after..];
  }

  /** The three `strtok` calls on the header buffer. */
  method ParseRequest(header: array<char>) returns (r: Request)
    modifies header
    ensures r == Tokenize(CStr(old(header[..])))
  {
    assert header[0..] == header[..];
    var scheme, n1 := Strtok(header, 0);
    if scheme == None {
      return Request(None, None, None);
    }
    var verb, n2 := Strtok(header, n1);
    if verb == None {
      return Request(scheme, None, None);
    }
    var path, n3 := Strtok(header, n2);
    r := Request(scheme, verb, path);
  }

  /** The cleared header buffer with what has been read copied to its front. */
  method FillHeader(received: string) returns (header: array<char>)
    requires |received| <= BUFFER_SIZE
    ensures fresh(header) && header.Length == BUFFER_SIZE && CStr(header[..]) == CStr(received)
  {
    header := new char[BUFFER_SIZE](_ => '\0');
    forall i | 0 <= i < |received| {
      header[i] := received[i];
    }
    assert header[..] == received + Zeros(BUFFER_SIZE - |received|);
    CStrZeros(received, BUFFER_SIZE - |received|);
  }

  /** What `gfserver_serve` does with the first read of a connection. */
  method Serve(received: string) returns (r: Reaction)
    requires |received| <= BUFFER_SIZE
    ensures r == Receive(received)
  {
    if received == "" {
      return Refuse(Failed);
    }
    var header := FillHeader(received);
    var text := CStr(header[..]);
    if |text| == header.Length {
      return ReadOutside;
    }
    if Find(text, CRLF2) < 0 {
      return KeepReading;
    }
    var request := ParseRequest(header);
    r := RouteOf(request);
  }
}
