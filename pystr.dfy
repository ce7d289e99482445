/**
 * The parts of Python's string and path semantics that the validators and the
 * GDAL wrappers rely on: `startswith`/`endswith`, the substring test `in`,
 * `str.strip(chars)`, `os.path.join` on POSIX, `str.split()`, and `str(int)`.
 */
module PyStr {

  predicate StartsWith(s: string, prefix: string) {
    |prefix| <= |s| && s[..|prefix|] == prefix
  }

  predicate EndsWith(s: string, suffix: string) {
    |suffix| <= |s| && s[|s| - |suffix|..] == suffix
  }

  /** `sub` occurs in `s` starting at index `i`. */
  predicate OccursAt(s: string, sub: string, i: int) {
    0 <= i <= |s| - |sub| && s[i..i + |sub|] == sub
  }

  /** Python's `sub in s` for two strings. */
  predicate Contains(s: string, sub: string) {
    exists i :: 0 <= i <= |s| - |sub| && OccursAt(s, sub, i)
  }

  lemma ConcatStartsWith(x: string, y: string)
    ensures StartsWith(x + y, x)
  {
    assert (x + y)[..|x|] == x;
  }

  lemma ConcatEndsWith(x: string, y: string)
    ensures EndsWith(x + y, y)
  {
    assert (x + y)[|x + y| - |y|..] == y;
  }

  lemma EndsWithPrepend(x: string, y: string, suffix: string)
    requires EndsWith(y, suffix)
    ensures EndsWith(x + y, suffix)
  {
    assert (x + y)[|x + y| - |suffix|..] == y[|y| - |suffix|..];
  }

  /** A substring of the middle part is a substring of the whole. */
  lemma ContainsInfix(x: string, y: string, z: string, sub: string)
    requires Contains(y, sub)
    ensures Contains(x + (y + z), sub)
  {
    var i :| 0 <= i <= |y| - |sub| && OccursAt(y, sub, i);
    assert (x + (y + z))[|x| + i..|x| + i + |sub|] == y[i..i + |sub|];
    assert OccursAt(x + (y + z), sub, |x| + i);
  }

  /** `''.join(ss)`. */
  function Concat(ss: seq<string>): string {
    if ss == [] then "" else ss[0] + Concat(ss[1..])
  }

  /** Each part of a concatenation occurs in it. */
  lemma {:induction false} ConcatContains(ss: seq<string>, i: nat)
    requires i < |ss|
    ensures Contains(Concat(ss), ss[i])
  {
    if i == 0 {
      assert OccursAt(ss[0], ss[0], 0);
      ContainsInfix([], ss[0], Concat(ss[1..]), ss[0]);
      assert [] + (ss[0] + Concat(ss[1..])) == Concat(ss);
    } else {
      ConcatContains(ss[1..], i - 1);
      ContainsInfix(ss[0], Concat(ss[1..]), [], ss[i]);
      assert ss[0] + (Concat(ss[1..]) + []) == Concat(ss);
    }
  }

  // ---------------------------------------------------------------------------
  // str.strip(chars): remove every leading and every trailing character that is
  // a member of the SET `chars` (not a prefix or suffix string).
  // ---------------------------------------------------------------------------

  /** `s.lstrip(chars)`: drop leading members of `cs`. */
  function LStrip(s: string, cs: set<char>): (r: string)
    ensures |r| <= |s|
  {
    if |s| > 0 && s[0] in cs then LStrip(s[1..], cs) else s
  }

  /** `s.rstrip(chars)`: drop trailing members of `cs`. */
  function RStrip(s: string, cs: set<char>): (r: string)
    ensures |r| <= |s|
  {
    if |s| > 0 && s[|s| - 1] in cs then RStrip(s[..|s| - 1], cs) else s
  }

  /** What lstrip keeps is a suffix that does not start with a member; all it dropped were members. */
  lemma {:induction false} LStripSuffix(s: string, cs: set<char>)
    ensures var r := LStrip(s, cs);
            && r == s[|s| - |r|..]
            && (r == [] || r[0] !in cs)
            && (forall k :: 0 <= k < |s| - |r| ==> s[k] in cs)
  {
    if |s| > 0 && s[0] in cs {
      LStripSuffix(s[1..], cs);
      var r := LStrip(s, cs);
      assert forall k :: 1 <= k < |s| - |r| ==> s[k] == s[1..][k - 1];
    }
  }

  /** What rstrip keeps is a prefix that does not end with a member; all it dropped were members. */
  lemma {:induction false} RStripPrefix(s: string, cs: set<char>)
    ensures var r := RStrip(s, cs);
            && r == s[..|r|]
            && (r == [] || r[|r| - 1] !in cs)
            && (forall k :: |r| <= k < |s| ==> s[k] in cs)
  {
    if |s| > 0 && s[|s| - 1] in cs {
      RStripPrefix(s[..|s| - 1], cs);
      var r := RStrip(s, cs);
      assert forall k :: |r| <= k < |s| - 1 ==> s[k] == s[..|s| - 1][k];
    }
  }

  /** `s.strip(chars)`. */
  function Strip(s: string, cs: set<char>): (r: string)
    ensures |r| <= |s|
  {
    RStrip(LStrip(s, cs), cs)
  }

  /**
   * Strip cuts `s` at two points: everything before the first cut and after the
   * second is made of members of `cs`, what is kept is the infix between, and
   * it neither starts nor ends with a member. This determines the result.
   */
  lemma StripIsTrim(s: string, cs: set<char>)
    ensures var r := Strip(s, cs);
            var i := |s| - |LStrip(s, cs)|;
            && i + |r| <= |s|
            && r == s[i..i + |r|]
            && (r == [] || (r[0] !in cs && r[|r| - 1] !in cs))
            && (forall k :: 0 <= k < i ==> s[k] in cs)
            && (forall k :: i + |r| <= k < |s| ==> s[k] in cs)
  {
    var l := LStrip(s, cs);
    var r := RStrip(l, cs);
    var i := |s| - |l|;
    LStripSuffix(s, cs);
    RStripPrefix(l, cs);
    assert l == s[i..];
    assert r == l[..|r|];
    assert r != [] ==> r[0] == l[0];
    forall k | i + |r| <= k < |s|
      ensures s[k] in cs
    {
      assert s[k] == l[k - i];
    }
  }

  /** A string made only of members of `cs` strips to nothing. */
  lemma StripAll(s: string, cs: set<char>)
    requires forall k :: 0 <= k < |s| ==> s[k] in cs
    ensures Strip(s, cs) == []
  {
    LStripSuffix(s, cs);
  }

  /** Stripping twice removes nothing more. */
  lemma StripIdempotent(s: string, cs: set<char>)
    ensures Strip(Strip(s, cs), cs) == Strip(s, cs)
  {
    var r := Strip(s, cs);
    StripIsTrim(s, cs);
    assert LStrip(r, cs) == r;
    assert RStrip(r, cs) == r;
  }

  /**
   * If `s` does not start with a member of `cs`, Strip keeps `s` at least up to
   * and including every position that holds a non-member: in particular every
   * directory separator, when `/` is not in `cs`.
   */
  lemma {:induction false} StripKeepsUpTo(s: string, cs: set<char>, p: nat)
    requires p < |s| && s[0] !in cs && s[p] !in cs
    ensures StartsWith(Strip(s, cs), s[..p + 1])
  {
    assert LStrip(s, cs) == s;
    RStripPrefix(s, cs);
    var r := RStrip(s, cs);
    assert p < |r|;
    assert r[..p + 1] == s[..p + 1];
  }

  // ---------------------------------------------------------------------------
  // os.path.join(a, b) on POSIX.
  // ---------------------------------------------------------------------------

  /**
   * `r` is `name` placed in directory `dir`: `dir`, then exactly one `/`
   * unless `dir` is empty or already ends in one, then `name`.
   */
  ghost predicate PlacedIn(r: string, dir: string, name: string) {
    && StartsWith(r, dir) && EndsWith(r, name)
    && |r| == |dir| + |name| + (if dir == "" || EndsWith(dir, "/") then 0 else 1)
    && (dir != "" ==> EndsWith(r[..|r| - |name|], "/"))
  }

  /** `os.path.join(a, b)`: an absolute `b` replaces `a`; otherwise one `/` separates them. */
  function JoinPath(a: string, b: string): (r: string)
    ensures EndsWith(r, b)
    ensures StartsWith(b, "/") ==> r == b
    ensures !StartsWith(b, "/") ==> StartsWith(r, a)
    ensures StartsWith(a, "/") ==> StartsWith(r, "/")
    ensures NoSpace(a) && NoSpace(b) ==> NoSpace(r)
  {
    if StartsWith(b, "/") then b
    else if a == "" || EndsWith(a, "/") then a + b
    else a + "/" + b
  }

  /** A relative `b` is placed in `a`, with exactly one `/` between them. */
  lemma JoinPathPlacesIn(a: string, b: string)
    requires !StartsWith(b, "/")
    ensures PlacedIn(JoinPath(a, b), a, b)
  {
    var r := JoinPath(a, b);
    if a != "" && !EndsWith(a, "/") {
      assert r[..|r| - |b|] == a + "/";
    } else if a != "" {
      assert r[..|r| - |b|] == a;
    }
  }

  /** A placement is unique: at most one string puts `name` in `dir`. */
  lemma PlacedInUnique(r1: string, r2: string, dir: string, name: string)
    requires PlacedIn(r1, dir, name) && PlacedIn(r2, dir, name)
    ensures r1 == r2
  {
    var n := |r1|;
    assert |r2| == n;
    forall k | 0 <= k < n
      ensures r1[k] == r2[k]
    {
      if k < |dir| {
        assert r1[k] == r1[..|dir|][k] && r2[k] == r2[..|dir|][k];
      } else if k >= n - |name| {
        assert r1[k] == r1[n - |name|..][k - (n - |name|)] && r2[k] == r2[n - |name|..][k - (n - |name|)];
      } else {
        assert k == n - |name| - 1;
        assert r1[k] == r1[..n - |name|][k] && r2[k] == r2[..n - |name|][k];
      }
    }
  }

  // ---------------------------------------------------------------------------
  // str.split() and its inverse on words without whitespace.
  // ---------------------------------------------------------------------------

  /** ASCII whitespace: space, tab, newline, vertical tab, form feed, carriage return. */
  predicate IsSpace(c: char) {
    c == ' ' || ('\t' <= c <= '\r')
  }

  predicate NoSpace(s: string) {
    forall k :: 0 <= k < |s| ==> !IsSpace(s[k])
  }

  /** Whitespace-freedom read off the characters a string contains (cheap for literals). */
  lemma NoSpaceOfChars(s: string)
    requires forall c :: c in s ==> !IsSpace(c)
    ensures NoSpace(s)
  {
    forall k | 0 <= k < |s|
      ensures !IsSpace(s[k])
    {
      assert s[k] in s;
    }
  }

  lemma NoSpaceConcat(x: string, y: string)
    requires NoSpace(x) && NoSpace(y)
    ensures NoSpace(x + y)
  {
    assert forall k :: 0 <= k < |x + y| ==> (x + y)[k] == if k < |x| then x[k] else y[k - |x|];
  }

  /** Stripping keeps a whitespace-free string whitespace-free. */
  lemma StripNoSpace(s: string, cs: set<char>)
    requires NoSpace(s)
    ensures NoSpace(Strip(s, cs))
  {
    StripIsTrim(s, cs);
  }

  /** A word `str.split()` leaves intact. */
  predicate IsWord(s: string) {
    s != [] && NoSpace(s)
  }

  function DropSpaces(s: string): (r: string)
    ensures |r| <= |s| && r == s[|s| - |r|..]
    ensures r == [] || !IsSpace(r[0])
  {
    if |s| > 0 && IsSpace(s[0]) then DropSpaces(s[1..]) else s
  }

  function TakeWord(s: string): (w: string)
    ensures |w| <= |s| && w == s[..|w|]
    ensures NoSpace(w)
    ensures s != [] && !IsSpace(s[0]) ==> w != []
  {
    if |s| > 0 && !IsSpace(s[0]) then [s[0]] + TakeWord(s[1..]) else []
  }

  /** `s.split()`: the maximal runs of non-whitespace characters, in order. */
  function Split(s: string): (ws: seq<string>)
    ensures forall k :: 0 <= k < |ws| ==> IsWord(ws[k])
    decreases |s|
  {
    var t := DropSpaces(s);
    if t == [] then []
    else
      var w := TakeWord(t);
      var rest := t[|w|..];
      assert |rest| < |s|;
      [w] + Split(rest)
  }

  /** `" ".join(ws)`. */
  function JoinWords(ws: seq<string>): string {
    if |ws| == 0 then ""
    else if |ws| == 1 then ws[0]
    else ws[0] + " " + JoinWords(ws[1..])
  }

  lemma {:induction false} TakeWordStops(w: string, rest: string)
    requires NoSpace(w)
    requires rest == [] || IsSpace(rest[0])
    ensures TakeWord(w + rest) == w
  {
    if w != [] {
      assert (w + rest)[1..] == w[1..] + rest;
      TakeWordStops(w[1..], rest);
    } else {
      assert w + rest == rest;
    }
  }

  /** Splitting a space-joined list of words gives back the words. */
  lemma {:induction false} SplitJoinWords(ws: seq<string>)
    requires forall k :: 0 <= k < |ws| ==> IsWord(ws[k])
    ensures Split(JoinWords(ws)) == ws
  {
    if |ws| == 0 {
    } else if |ws| == 1 {
      var w := ws[0];
      assert DropSpaces(w) == w;
      TakeWordStops(w, []);
      assert w + [] == w;
      assert w[|w|..] == [];
    } else {
      var w := ws[0];
      var tail := JoinWords(ws[1..]);
      var s := w + " " + tail;
      assert DropSpaces(s) == s;
      assert s == w + (" " + tail);
      TakeWordStops(w, " " + tail);
      assert s[|w|..] == " " + tail;
      assert (" " + tail)[1..] == tail;
      assert DropSpaces(" " + tail) == DropSpaces(tail);
      SplitJoinWords(ws[1..]);
    }
  }

  // ---------------------------------------------------------------------------
  // str(int) in decimal.
  // ---------------------------------------------------------------------------

  predicate IsDigit(c: char) {
    '0' <= c <= '9'
  }

  function Digit(d: nat): (c: char)
    requires d < 10
    ensures IsDigit(c) && (c as int) - ('0' as int) == d
  {
    "0123456789"[d]
  }

  /** Decimal digits of a natural number, most significant first, no leading zero. */
  function NatToString(n: nat): (s: string)
    ensures s != [] && forall k :: 0 <= k < |s| ==> IsDigit(s[k])
    ensures |s| > 1 ==> s[0] != '0'
  {
    if n < 10 then [Digit(n)] else NatToString(n / 10) + [Digit(n % 10)]
  }

  /** The number a string of decimal digits denotes. */
  function DecimalValue(s: string): int
    requires forall k :: 0 <= k < |s| ==> IsDigit(s[k])
  {
    if s == [] then 0
    else DecimalValue(s[..|s| - 1]) * 10 + ((s[|s| - 1] as int) - ('0' as int))
  }

  /** Reading back the decimal digits of `n` gives `n`: distinct numbers print differently. */
  lemma {:induction false} NatToStringRoundTrip(n: nat)
    ensures DecimalValue(NatToString(n)) == n
  {
    if n >= 10 {
      var s := NatToString(n);
      assert s[..|s| - 1] == NatToString(n / 10);
      NatToStringRoundTrip(n / 10);
    }
  }

  /** `str(i)` for a Python int: an optional `-` followed by decimal digits. */
  function IntToString(i: int): (s: string)
    ensures IsWord(s)
    ensures i >= 0 ==> (forall k :: 0 <= k < |s| ==> IsDigit(s[k])) && DecimalValue(s) == i
    ensures i < 0 ==> s[0] == '-' && (forall k :: 1 <= k < |s| ==> IsDigit(s[k]))
    ensures i < 0 ==> DecimalValue(s[1..]) == -i
  {
    if i >= 0 then
      NatToStringRoundTrip(i);
      NatToString(i)
    else
      NatToStringRoundTrip(-i);
      var d := NatToString(-i);
      assert ("-" + d)[1..] == d;
      "-" + d
  }
}
