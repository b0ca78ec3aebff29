/** C strings as the programs see them: character classes, `strstr`, decimal printing
    (`%d`, `%zu` of a non-negative value) and the part of `sscanf` that the programs use
    (ISO C11, section 7.21.6.2). */
module Text {

  predicate IsSpace(c: char) { c == ' ' || '\t' <= c <= '\r' }

  predicate NotSpace(c: char) { !IsSpace(c) }

  predicate IsDigit(c: char) { '0' <= c <= '9' }

  predicate NotNul(c: char) { c != '\0' }

  ghost predicate All(s: string, p: char -> bool) {
    forall i :: 0 <= i < |s| ==> p(s[i])
  }

  /** Length of the longest prefix whose characters all satisfy `p`. */
  function Span(s: string, p: char -> bool): (n: nat)
    ensures n <= |s| && All(s[..n], p)
    ensures n < |s| ==> !p(s[n])
  {
    if s == [] || !p(s[0]) then 0
    else
      var n := Span(s[1..], p);
      assert s[..n + 1] == [s[0]] + s[1..][..n];
      n + 1
  }

  /** `Span` splits a string exactly where a run of `p` characters ends. */
  lemma SpanOf(run: string, rest: string, p: char -> bool)
    requires All(run, p)
    requires rest == [] || !p(rest[0])
    ensures Span(run + rest, p) == |run|
  {
    var s := run + rest;
    assert forall i :: 0 <= i < |run| ==> s[i] == run[i];
    assert rest != [] ==> s[|run|] == rest[0];
    assert forall i :: 0 <= i < Span(s, p) ==> s[..Span(s, p)][i] == s[i];
  }

  /** A run that ends inside a string ends there whatever is appended to it. */
  lemma SpanMore(s: string, more: string, p: char -> bool)
    requires Span(s, p) < |s|
    ensures Span(s + more, p) == Span(s, p)
  {
    var n := Span(s, p);
    assert s + more == s[..n] + (s[n..] + more);
    SpanOf(s[..n], s[n..] + more, p);
  }

  /** The C string stored at the front of a buffer: everything before the first NUL. */
  function CStr(s: string): string { s[..Span(s, NotNul)] }

  lemma CStrOf(s: string, rest: string)
    requires All(s, NotNul)
    ensures s <= CStr(s + rest)
  {
    assert forall i :: 0 <= i < |s| ==> (s + rest)[i] == s[i];
  }

  /** A string without NUL is its own C string. */
  lemma FullString(g: string)
    ensures |CStr(g)| == |g| <==> All(g, NotNul)
  {
    if All(g, NotNul) {
      assert g + "" == g;
      CStrOf(g, "");
    }
    if |CStr(g)| == |g| {
      assert g[..|g|] == g;
    }
  }

  /** The C string of the first part of a buffer is the first part of its C string. */
  lemma CStrPrefix(s: string, n: nat)
    requires n <= |s|
    ensures CStr(s[..n]) == if n <= |CStr(s)| then s[..n] else CStr(s)
  {
    var k := Span(s, NotNul);
    if n <= k {
      assert All(s[..n], NotNul) by {
        assert forall i :: 0 <= i < n ==> s[..n][i] == s[..k][i];
      }
      SpanOf(s[..n], "", NotNul);
      assert s[..n] + "" == s[..n];
    } else {
      assert s[..n] == s[..k] + s[k..n];
      SpanOf(s[..k], s[k..n], NotNul);
    }
  }

  /** A cleared part of a buffer. */
  function Zeros(n: nat): string { seq(n, _ => '\0') }

  lemma CStrZeros(h: string, n: nat)
    ensures CStr(h + Zeros(n)) == CStr(h)
  {
    var k := Span(h, NotNul);
    var s := h + Zeros(n);
    assert s == h[..k] + (h[k..] + Zeros(n));
    SpanOf(h[..k], h[k..] + Zeros(n), NotNul);
    assert s[..k] == h[..k];
  }

  lemma ZerosPart(m: nat, from: nat, n: nat)
    requires from + n <= m
    ensures Zeros(m)[from..from + n] == Zeros(n)
  {
  }

  // --- strstr ---------------------------------------------------------------------------

  ghost predicate OccursAt(s: string, p: string, i: int) {
    0 <= i && i + |p| <= |s| && s[i..i + |p|] == p
  }

  lemma OccursInRest(s: string, p: string, i: int)
    requires s != [] && i > 0
    ensures OccursAt(s, p, i) <==> OccursAt(s[1..], p, i - 1)
  {
    if i + |p| <= |s| {
      assert s[1..][i - 1..i - 1 + |p|] == s[i..i + |p|];
    }
  }

  /** Index of the first occurrence of `p` in `s`, or -1. */
  function Find(s: string, p: string): (r: int)
    ensures r >= 0 ==> OccursAt(s, p, r)
    ensures forall i :: OccursAt(s, p, i) ==> 0 <= r <= i
  {
    if |s| < |p| then -1
    else if p <= s then 0
    else if s == [] then -1
    else
      var r := Find(s[1..], p);
      assert r >= 0 ==> OccursAt(s, p, r + 1) by {
        if r >= 0 {
          OccursInRest(s, p, r + 1);
        }
      }
      assert forall i :: OccursAt(s, p, i) ==> 0 <= r <= i - 1 by {
        NotBefore(s, p, r);
      }
      if r < 0 then -1 else r + 1
  }

  lemma NotBefore(s: string, p: string, r: int)
    requires s != [] && !(p <= s) && forall i :: OccursAt(s[1..], p, i) ==> 0 <= r <= i
    ensures forall i :: OccursAt(s, p, i) ==> 0 <= r <= i - 1
  {
    forall i | OccursAt(s, p, i) ensures 0 <= r <= i - 1 {
      assert i > 0;
      OccursInRest(s, p, i);
    }
  }

  // --- Decimal numbers ------------------------------------------------------------------

  function Dec(n: nat): (s: string)
    ensures |s| >= 1 && All(s, IsDigit)
  {
    var d := '0' + (n % 10) as char;
    if n < 10 then [d] else Dec(n / 10) + [d]
  }

  function Value(digits: string): nat
    requires All(digits, IsDigit)
  {
    if digits == [] then 0
    else 10 * Value(digits[..|digits| - 1]) + (digits[|digits| - 1] - '0') as nat
  }

  lemma {:induction false} ValueOfDec(n: nat)
    ensures Value(Dec(n)) == n
  {
    var s := Dec(n);
    if n >= 10 {
      ValueOfDec(n / 10);
      assert s[..|s| - 1] == Dec(n / 10);
    } else {
      assert s[..|s| - 1] == [];
    }
  }

  function Pow10(k: nat): (r: nat)
    ensures r >= 1
  {
    if k == 0 then 1 else 10 * Pow10(k - 1)
  }

  lemma {:induction false} DecLength(n: nat, k: nat)
    requires k >= 1 && n < Pow10(k)
    ensures |Dec(n)| <= k
  {
    if n >= 10 {
      DecLength(n / 10, k - 1);
    }
  }

  lemma {:induction false} DecLengthAtLeast(n: nat, k: nat)
    requires n >= Pow10(k)
    ensures |Dec(n)| > k
  {
    if k > 0 {
      assert n >= 10;
      DecLengthAtLeast(n / 10, k - 1);
    }
  }

  /** No leading zeros, but for zero itself. */
  lemma {:induction false} DecLeading(n: nat)
    ensures if n == 0 then Dec(n) == "0" else Dec(n)[0] != '0'
  {
    if n >= 10 {
      DecLeading(n / 10);
      assert Dec(n)[0] == Dec(n / 10)[0];
    }
  }

  /** The decimal notation: each digit counts ten times what the next one does. */
  lemma PlaceValue(s: string, c: char)
    requires All(s, IsDigit) && IsDigit(c)
    ensures All(s + [c], IsDigit) && Value(s + [c]) == 10 * Value(s) + (c as int - '0' as int)
    ensures Value("") == 0
  {
    assert (s + [c])[..|s|] == s;
  }

  /** The six characters of C's `isspace` (ISO C11, section 7.4.1.10), and the ten digits. */
  lemma CharClasses(c: char)
    ensures IsSpace(c) <==> c in {' ', '\t', '\n', 11 as char, 12 as char, '\r'}
    ensures IsDigit(c) <==> c in "0123456789"
  {
    var digits := "0123456789";
    if IsDigit(c) {
      assert digits[c as int - '0' as int] == c;
    }
  }

  /** An `int` prints in at most ten digits. */
  lemma IntLength(n: nat)
    requires n < INT_LIMIT
    ensures |Dec(n)| <= 10
  {
    assert Pow10(3) == 1000;
    assert Pow10(6) == 1000000;
    assert Pow10(9) == 1000000000;
    DecLength(n, 10);
  }

  /** `%d`. */
  function PrintInt(n: int): string { if n < 0 then "-" + Dec(-n) else Dec(n) }

  const INT_LIMIT := 0x8000_0000

  // --- sscanf ---------------------------------------------------------------------------

  function SkipSpace(s: string): string { s[Span(s, IsSpace)..] }

  /** The outcome of one conversion: what it stored and the input left over. */
  datatype Scanned<T> = Mismatch | Match(value: T, rest: string)

  /** `%s`: skips white space, then takes a nonempty run of other characters. */
  function ScanWord(s: string): Scanned<string> {
    var u := SkipSpace(s);
    var n := Span(u, NotSpace);
    if n == 0 then Mismatch else Match(u[..n], u[n..])
  }

  /** A nonempty run of digits. */
  function ScanDigits(u: string): Scanned<int> {
    var n := Span(u, IsDigit);
    if n == 0 then Mismatch else Match(Value(u[..n]), u[n..])
  }

  /** An optional sign in front of the digits. */
  function ScanSigned(t: string): Scanned<int> {
    if t == [] then Mismatch
    else if t[0] == '-' then
      match ScanDigits(t[1..])
      case Mismatch => Mismatch
      case Match(v, rest) => Match(-v, rest)
    else if t[0] == '+' then ScanDigits(t[1..])
    else ScanDigits(t)
  }

  /** `%d` and `%zu`: skips white space, then takes an optional sign and at least one digit. */
  function ScanNumber(s: string): Scanned<int> { ScanSigned(SkipSpace(s)) }

  /** White space in front of a non-space character is skipped, and nothing else. */
  lemma SkipSpaceOf(spaces: string, rest: string)
    requires All(spaces, IsSpace)
    requires rest == [] || !IsSpace(rest[0])
    ensures SkipSpace(spaces + rest) == rest
  {
    SpanOf(spaces, rest, IsSpace);
    assert (spaces + rest)[|spaces|..] == rest;
  }

  lemma NoSpace(s: string)
    requires s != [] && !IsSpace(s[0])
    ensures SkipSpace(s) == s
  {
  }

  /** A printed word scans back as itself, up to the first white space after it. */
  lemma ScanWordOf(word: string, rest: string)
    requires word != [] && All(word, NotSpace)
    requires rest == [] || IsSpace(rest[0])
    ensures ScanWord(word + rest) == Match(word, rest)
  {
    var s := word + rest;
    assert s[0] == word[0];
    NoSpace(s);
    SpanOf(word, rest, NotSpace);
    assert s[..|word|] == word && s[|word|..] == rest;
  }

  lemma ScanDigitsOf(n: nat, rest: string)
    requires rest == [] || !IsDigit(rest[0])
    ensures ScanDigits(Dec(n) + rest) == Match(n, rest)
    ensures IsDigit((Dec(n) + rest)[0])
  {
    var u := Dec(n) + rest;
    SpanOf(Dec(n), rest, IsDigit);
    assert u[..|Dec(n)|] == Dec(n) && u[|Dec(n)|..] == rest && u[0] == Dec(n)[0];
    ValueOfDec(n);
  }

  lemma ScanPositiveOf(n: nat, rest: string)
    requires rest == [] || !IsDigit(rest[0])
    ensures ScanSigned(Dec(n) + rest) == Match(n, rest)
    ensures !IsSpace((Dec(n) + rest)[0])
  {
    ScanDigitsOf(n, rest);
    assert (Dec(n) + rest)[0] != '-' && (Dec(n) + rest)[0] != '+';
  }

  lemma ScanNegativeOf(u: string, v: int, rest: string)
    requires ScanDigits(u) == Match(v, rest)
    ensures ScanSigned("-" + u) == Match(-v, rest)
    ensures !IsSpace(("-" + u)[0])
  {
    assert ("-" + u)[1..] == u;
  }

  lemma ScanPrinted(n: int, rest: string)
    requires rest == [] || !IsDigit(rest[0])
    ensures ScanSigned(PrintInt(n) + rest) == Match(n, rest)
    ensures PrintInt(n) + rest != "" && !IsSpace((PrintInt(n) + rest)[0])
  {
    hide ScanDigits;
    if n < 0 {
      ScanDigitsOf(-n, rest);
      ScanNegativeOf(Dec(-n) + rest, -n, rest);
      assert PrintInt(n) + rest == "-" + (Dec(-n) + rest);
    } else {
      ScanPositiveOf(n, rest);
    }
  }

  /** A printed integer scans back as itself, with any white space in front of it. */
  lemma ScanNumberOf(spaces: string, n: int, rest: string)
    requires All(spaces, IsSpace)
    requires rest == [] || !IsDigit(rest[0])
    ensures ScanNumber(spaces + (PrintInt(n) + rest)) == Match(n, rest)
  {
    hide ScanSigned, PrintInt;
    ScanPrinted(n, rest);
    SkipSpaceOf(spaces, PrintInt(n) + rest);
  }

  lemma ScanDigitsMore(u: string, more: string)
    requires ScanDigits(u).Match? && ScanDigits(u).rest != []
    ensures ScanDigits(u + more) == Match(ScanDigits(u).value, ScanDigits(u).rest + more)
  {
    var n := Span(u, IsDigit);
    SpanMore(u, more, IsDigit);
    assert (u + more)[..n] == u[..n] && (u + more)[n..] == u[n..] + more;
  }

  lemma ScanSignedMore(t: string, more: string)
    requires ScanSigned(t).Match? && ScanSigned(t).rest != []
    ensures ScanSigned(t + more) == Match(ScanSigned(t).value, ScanSigned(t).rest + more)
  {
    assert (t + more)[0] == t[0] && (t + more)[1..] == t[1..] + more;
    ScanDigitsMore(if t[0] == '-' || t[0] == '+' then t[1..] else t, more);
  }

  lemma SkipSpaceMore(s: string, more: string)
    requires SkipSpace(s) != []
    ensures SkipSpace(s + more) == SkipSpace(s) + more
  {
    SpanMore(s, more, IsSpace);
  }

  /** A number that ends inside the input is read as the same number whatever is appended. */
  lemma ScanNumberMore(s: string, more: string)
    requires ScanNumber(s).Match? && ScanNumber(s).rest != []
    ensures ScanNumber(s + more) == Match(ScanNumber(s).value, ScanNumber(s).rest + more)
  {
    SkipSpaceMore(s, more);
    ScanSignedMore(SkipSpace(s), more);
  }

  /** A number that uses up the input ends with a digit. */
  lemma ScanDigitsEnd(u: string)
    requires ScanDigits(u).Match? && ScanDigits(u).rest == []
    ensures u != [] && IsDigit(u[|u| - 1])
  {
    assert u[..|u|][|u| - 1] == u[|u| - 1];
  }

  lemma ScanNumberEnd(s: string)
    requires ScanNumber(s).Match? && ScanNumber(s).rest == []
    ensures s != [] && IsDigit(s[|s| - 1])
  {
    var t := SkipSpace(s);
    ScanDigitsEnd(if t[0] == '-' || t[0] == '+' then t[1..] else t);
  }
}
