/** How the multithreaded client names its local files and creates the directories for them. */
module LocalFiles {
  import opened Text

  // --- Names: "%s-%06d" of the path behind its first character and a counter ------------

  function ZeroDigits(k: nat): string { seq(k, _ => '0') }

  /** `%06d` of a non-negative number. */
  function Pad6(n: nat): string {
    ZeroDigits(if |Dec(n)| < 6 then 6 - |Dec(n)| else 0) + Dec(n)
  }

  function LocalName(request: string, counter: nat): string
    requires request != ""
  {
    request[1..] + "-" + Pad6(counter)
  }

  lemma {:induction false} ValueZeros(k: nat, s: string)
    requires All(s, IsDigit)
    ensures All(ZeroDigits(k) + s, IsDigit) && Value(ZeroDigits(k) + s) == Value(s)
    decreases |s|, k
  {
    var t := ZeroDigits(k) + s;
    if s != "" {
      assert t[..|t| - 1] == ZeroDigits(k) + s[..|s| - 1];
      ValueZeros(k, s[..|s| - 1]);
    } else if k > 0 {
      assert t[..|t| - 1] == ZeroDigits(k - 1) + s;
      ValueZeros(k - 1, s);
    }
  }

  lemma Pad6Digits(n: nat)
    ensures All(Pad6(n), IsDigit) && Value(Pad6(n)) == n
  {
    ValueZeros(if |Dec(n)| < 6 then 6 - |Dec(n)| else 0, Dec(n));
    ValueOfDec(n);
  }

  /** At least six digits; more than six only where they are needed, and then without a leading
      zero. Together with the value this leaves one text only. */
  lemma Pad6Width(n: nat)
    ensures |Pad6(n)| >= 6 && (|Pad6(n)| == 6 <==> n < 1000000)
    ensures n >= 1000000 ==> Pad6(n)[0] != '0'
  {
    assert Pow10(3) == 1000;
    assert Pow10(6) == 1000000;
    DecLeading(n);
    if n < 1000000 {
      DecLength(n, 6);
    } else {
      DecLengthAtLeast(n, 6);
      assert Pad6(n) == Dec(n);
    }
  }

  /** What is behind the dash: the counter in six digits or more. */
  ghost predicate NumberedAs(name: string, request: string, n: nat)
    requires request != ""
  {
    && |request| <= |name| && name[..|request|] == request[1..] + "-"
    && var digits := name[|request|..];
      && All(digits, IsDigit) && Value(digits) == n
      && |digits| >= 6 && (|digits| > 6 ==> digits[0] != '0')
  }

  lemma LocalNameNumbered(request: string, counter: nat)
    requires request != ""
    ensures NumberedAs(LocalName(request, counter), request, counter)
    ensures |LocalName(request, counter)| == |request| + 6 <==> counter < 1000000
  {
    var name := LocalName(request, counter);
    Pad6Digits(counter);
    Pad6Width(counter);
    assert name == (request[1..] + "-") + Pad6(counter);
    assert name[|request|..] == Pad6(counter);
  }

  /** Different counter values give different names, whatever the request paths are: repeated,
      or holding dashes and digits themselves. */
  lemma NamesDistinct(a: string, i: nat, b: string, j: nat)
    requires a != "" && b != "" && LocalName(a, i) == LocalName(b, j)
    ensures i == j && a[1..] == b[1..]
  {
    Pad6Digits(i);
    Pad6Digits(j);
    var x, y := a[1..] + "-", b[1..] + "-";
    assert LocalName(a, i) == x + Pad6(i) && LocalName(b, j) == y + Pad6(j);
    DashDecides(x, Pad6(i), y, Pad6(j));
    DashDecides(y, Pad6(j), x, Pad6(i));
    SplitAt(x, Pad6(i), y, Pad6(j));
    assert x[..|x| - 1] == a[1..] && y[..|y| - 1] == b[1..];
  }

  lemma SplitAt(x: string, u: string, y: string, v: string)
    requires x + u == y + v && |x| == |y|
    ensures x == y && u == v
  {
    assert (x + u)[..|x|] == x && (y + v)[..|y|] == y;
    assert (x + u)[|x|..] == u && (y + v)[|y|..] == v;
  }

  /** The last dash of a name is the one that `sprintf` put there. */
  lemma DashDecides(x: string, u: string, y: string, v: string)
    requires x + u == y + v && x != "" && x[|x| - 1] == '-' && All(v, IsDigit)
    ensures |x| <= |y|
  {
    var k := |x| - 1;
    assert (x + u)[k] == '-';
    assert k >= |y| ==> (y + v)[k] == v[k - |y|] && IsDigit(v[k - |y|]);
  }

  /** The static counter of `localPath`. */
  class Namer {
    var counter: nat

    constructor ()
      ensures counter == 0
    {
      counter := 0;
    }

    method LocalPath(request: string) returns (name: string)
      requires request != ""
      modifies this
      ensures name == LocalName(request, old(counter)) && counter == old(counter) + 1
      ensures NumberedAs(name, request, old(counter))
      ensures |name| == |request| + 6 <==> old(counter) < 1000000
    {
      LocalNameNumbered(request, counter);
      name := request[1..] + "-" + Pad6(counter);
      counter := counter + 1;
    }

    /** One name per request, in order. */
    method NameAll(requests: seq<string>) returns (names: seq<string>)
      requires forall r :: r in requests ==> r != ""
      modifies this
      ensures |names| == |requests| && counter == old(counter) + |requests|
      ensures forall i :: 0 <= i < |names| ==>
        requests[i] != "" && NumberedAs(names[i], requests[i], old(counter) + i)
      ensures forall i, j :: 0 <= i < j < |names| ==> names[i] != names[j]
    {
      hide NumberedAs, LocalName;
      names := [];
      for k := 0 to |requests|
        invariant |names| == k && counter == old(counter) + k
        invariant forall i :: 0 <= i < k ==>
          requests[i] in requests && names[i] == LocalName(requests[i], old(counter) + i)
        invariant forall i, j :: 0 <= i < j < k ==> names[i] != names[j]
      {
        assert requests[k] in requests;
        var name := LocalPath(requests[k]);
        forall i | 0 <= i < k ensures names[i] != name {
          if names[i] == name {
            NamesDistinct(requests[i], old(counter) + i, requests[k], old(counter) + k);
          }
        }
        names := names + [name];
      }
      forall i | 0 <= i < |names| ensures requests[i] != "" && NumberedAs(names[i], requests[i], old(counter) + i) {
        assert requests[i] in requests;
        LocalNameNumbered(requests[i], old(counter) + i);
      }
    }
  }

  // --- Directories ----------------------------------------------------------------------

  /** `strchr(path + from, '/')` as an index, or -1. */
  function NextSlash(s: string, from: nat): (r: int)
    requires from <= |s|
    ensures r == -1 || (from <= r < |s| && s[r] == '/')
    ensures forall i :: from <= i < (if r == -1 then |s| else r) ==> s[i] != '/'
    decreases |s| - from
  {
    if from == |s| then -1 else if s[from] == '/' then from else NextSlash(s, from + 1)
  }

  /** The directories that the walk creates when it goes on from position `from`. */
  function Directories(s: string, from: nat): seq<string>
    requires from <= |s|
    decreases |s| - from
  {
    var j := NextSlash(s, from);
    if j == -1 then [] else [s[..j]] + Directories(s, j + 1)
  }

  lemma DirectoriesFrom(s: string, from: nat)
    requires from <= |s|
    ensures var j := NextSlash(s, from);
      Directories(s, from) == if j == -1 then [] else [s[..j]] + Directories(s, j + 1)
  {
  }

  /** A prefix of the path that ends before a slash at or behind position `from`. */
  ghost predicate SlashPrefix(s: string, from: nat, dir: string) {
    from <= |dir| < |s| && dir == s[..|dir|] && s[|dir|] == '/'
  }

  /** Every directory that the walk creates is such a prefix, and parents come before children. */
  lemma {:induction false} ParentsFirst(s: string, from: nat)
    requires from <= |s|
    ensures forall k :: 0 <= k < |Directories(s, from)| ==> SlashPrefix(s, from, Directories(s, from)[k])
    ensures forall k, l :: 0 <= k < l < |Directories(s, from)| ==>
      |Directories(s, from)[k]| < |Directories(s, from)[l]|
    decreases |s| - from
  {
    var n := NextSlash(s, from);
    if n != -1 {
      ParentsFirst(s, n + 1);
      var d, rest := Directories(s, from), Directories(s, n + 1);
      assert d == [s[..n]] + rest;
      forall k | 0 <= k < |d| ensures SlashPrefix(s, from, d[k]) && (k > 0 ==> n < |d[k]|) {
        if k > 0 {
          assert SlashPrefix(s, n + 1, rest[k - 1]);
        }
      }
      forall k, l | 0 <= k < l < |d| ensures |d[k]| < |d[l]| {
        assert d[l] == rest[l - 1] && SlashPrefix(s, n + 1, rest[l - 1]);
        if k > 0 {
          assert d[k] == rest[k - 1];
        }
      }
    }
  }

  /** And every such prefix is created. */
  lemma {:induction false} AllDirectories(s: string, from: nat, dir: string)
    requires from <= |s| && SlashPrefix(s, from, dir)
    ensures dir in Directories(s, from)
    decreases |s| - from
  {
    var n := NextSlash(s, from);
    assert from <= n <= |dir|;
    if n < |dir| {
      AllDirectories(s, n + 1, dir);
    }
  }

  /** The walk visits exactly the prefixes that end before a slash behind the first character,
      each parent before its children. */
  lemma DirectoriesExact(s: string)
    requires s != ""
    ensures forall dir :: dir in Directories(s, 1) <==> SlashPrefix(s, 1, dir)
    ensures forall k, l :: 0 <= k < l < |Directories(s, 1)| ==> Directories(s, 1)[k] < Directories(s, 1)[l]
  {
    ParentsFirst(s, 1);
    forall dir | SlashPrefix(s, 1, dir) ensures dir in Directories(s, 1) {
      AllDirectories(s, 1, dir);
    }
    var d := Directories(s, 1);
    forall k, l | 0 <= k < l < |d| ensures d[k] < d[l] {
      assert SlashPrefix(s, 1, d[k]) && SlashPrefix(s, 1, d[l]);
    }
  }

  /** A path stored as a C string in an array. */
  ghost predicate Stored(a: array<char>, s: string)
    reads a
  {
    |s| < a.Length && a[..|s|] == s && a[|s|] == '\0' && All(s, NotNul)
  }

  lemma CutString(t: string, n: nat)
    requires n < |t| && All(t[..n], NotNul) && t[n] == '\0'
    ensures CStr(t) == t[..n]
  {
    assert t == t[..n] + t[n..];
    SpanOf(t[..n], t[n..], NotNul);
  }

  lemma WholeString(a: array<char>, s: string)
    requires Stored(a, s)
    ensures CStr(a[..]) == s
  {
    CutString(a[..], |s|);
    assert a[..][..|s|] == s;
  }

  /** One directory: `*cur = 0; mkdir(path); *cur = '/'`. */
  method MakeOne(path: array<char>, cur: nat, ghost s: string) returns (dir: string)
    requires Stored(path, s) && cur < |s| && s[cur] == '/'
    modifies path
    ensures path[..] == old(path[..]) && dir == s[..cur]
  {
    ghost var was := path[..];
    assert was[cur] == s[cur];
    path[cur] := '\0';
    assert path[..cur] == was[..cur] == s[..cur];
    WholeString(path, s[..cur]);
    dir := CStr(path[..]);
    path[cur] := '/';
    assert path[..] == was;
  }

  /** One iteration: the directory at this slash, and where the next slash is. */
  method Advance(path: array<char>, cur: nat, ghost s: string) returns (dir: string, next: int)
    requires Stored(path, s) && 0 < cur < |s| && s[cur] == '/'
    modifies path
    ensures path[..] == old(path[..]) && Stored(path, s) && dir == s[..cur] && next == NextSlash(s, cur + 1)
  {
    dir := MakeOne(path, cur, s);
    SameStored(old(path[..]), path, s);
    WholeString(path, s);
    next := NextSlash(CStr(path[..]), cur + 1);
  }

  lemma SameStored(was: seq<char>, a: array<char>, s: string)
    requires a[..] == was && |s| < |was| && was[..|s|] == s && was[|s|] == '\0' && All(s, NotNul)
    ensures Stored(a, s)
  {
    assert a[..|s|] == a[..][..|s|] && a[|s|] == a[..][|s|];
  }

  /** The loop of `openFile`: cut the path at each slash, create what is in front of it, and put
      the slash back. */
  method MakeDirectories(path: array<char>, ghost s: string) returns (made: seq<string>)
    requires s != "" && Stored(path, s)
    modifies path
    ensures path[..] == old(path[..])
    ensures made == Directories(s, 1)
  {
    made := [];
    WholeString(path, s);
    var cur := NextSlash(CStr(path[..]), 1);
    ghost var from: nat := 1;
    while cur != -1
      invariant path[..] == old(path[..]) && Stored(path, s) && 0 < from <= |s|
      invariant cur == NextSlash(s, from)
      invariant made + Directories(s, from) == Directories(s, 1)
      decreases |s| - from
    {
      ghost var before := made;
      DirectoriesFrom(s, from);
      var dir, next := Advance(path, cur, s);
      made := made + [dir];
      assert made + Directories(s, cur + 1) == before + ([dir] + Directories(s, cur + 1));
      from := cur + 1;
      cur := next;
    }
    DirectoriesFrom(s, from);
  }
}
