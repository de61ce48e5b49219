/** String primitives the backend (Python) and the frontend (TypeScript)
    rely on: white space, trimming, `str.split()`, lower-casing, substring
    tests, decimal rendering and splitting on a separator character. */
module Text {

  /** Which runtime's notion of white space an operation follows. Python's
      `str.isspace` and JavaScript's `trim` agree except on the separators
      U+001C..U+001F and NEXT LINE (Python only) and the byte-order mark
      (JavaScript only). */
  datatype Dialect = Python | JavaScript

  /** An inclusive range of code points. */
  datatype CharRange = CharRange(lo: char, hi: char)

  /** The white-space code points of a dialect, as ranges. */
  function SpaceRanges(d: Dialect): seq<CharRange> {
    [ CharRange(' ', ' '), CharRange('\t', '\r'), CharRange('\U{A0}', '\U{A0}'),
      CharRange('\U{1680}', '\U{1680}'), CharRange('\U{2000}', '\U{200A}'),
      CharRange('\U{2028}', '\U{2029}'), CharRange('\U{202F}', '\U{202F}'),
      CharRange('\U{205F}', '\U{205F}'), CharRange('\U{3000}', '\U{3000}') ]
    + match d
      case Python => [CharRange('\U{1C}', '\U{1F}'), CharRange('\U{85}', '\U{85}')]
      case JavaScript => [CharRange('\U{FEFF}', '\U{FEFF}')]
  }

  predicate InRanges(c: char, rs: seq<CharRange>)
    decreases |rs|
  {
    rs != [] && ((rs[0].lo <= c <= rs[0].hi) || InRanges(c, rs[1..]))
  }

  predicate IsSpace(c: char, d: Dialect) {
    InRanges(c, SpaceRanges(d))
  }

  lemma {:induction false} NotInRanges(c: char, rs: seq<CharRange>)
    requires forall k :: 0 <= k < |rs| ==> !(rs[k].lo <= c <= rs[k].hi)
    ensures !InRanges(c, rs)
    decreases |rs|
  {
    if rs != [] {
      NotInRanges(c, rs[1..]);
    }
  }

  /** Visible ASCII characters (letters, digits, punctuation) are not white
      space in either dialect. */
  lemma VisibleAsciiNotSpace(c: char, d: Dialect)
    requires '!' <= c <= '~'
    ensures !IsSpace(c, d)
  {
    NotInRanges(c, SpaceRanges(d));
  }

  predicate NoSpace(s: string, d: Dialect) {
    forall i :: 0 <= i < |s| ==> !IsSpace(s[i], d)
  }

  predicate AllSpace(s: string, d: Dialect) {
    forall i :: 0 <= i < |s| ==> IsSpace(s[i], d)
  }

  // ---------------------------------------------------------------------
  // Trimming (`str.strip()` in Python, `String.prototype.trim` in JS)
  // ---------------------------------------------------------------------

  /** Drops leading white space (see TrimStartSpec). */
  function TrimStart(s: string, d: Dialect): string
    decreases |s|
  {
    if s == [] || !IsSpace(s[0], d) then s else TrimStart(s[1..], d)
  }

  /** TrimStart keeps the longest suffix that does not start with white
      space: what it drops is all white space. */
  lemma {:induction false} TrimStartSpec(s: string, d: Dialect)
    ensures var r := TrimStart(s, d);
            && |r| <= |s| && r == s[|s| - |r|..]
            && AllSpace(s[..|s| - |r|], d)
            && (r == [] || !IsSpace(r[0], d))
    decreases |s|
  {
    if s != [] && IsSpace(s[0], d) {
      TrimStartSpec(s[1..], d);
      var r := TrimStart(s, d);
      assert s[..|s| - |r|] == [s[0]] + s[1..][..|s| - 1 - |r|];
    }
  }

  /** Drops trailing white space (see TrimEndSpec). */
  function TrimEnd(s: string, d: Dialect): string
    decreases |s|
  {
    if s == [] || !IsSpace(s[|s| - 1], d) then s else TrimEnd(s[..|s| - 1], d)
  }

  /** TrimEnd keeps the longest prefix that does not end with white space:
      what it drops is all white space. */
  lemma {:induction false} TrimEndSpec(s: string, d: Dialect)
    ensures var r := TrimEnd(s, d);
            && |r| <= |s| && r == s[..|r|]
            && AllSpace(s[|r|..], d)
            && (r == [] || !IsSpace(r[|r| - 1], d))
    decreases |s|
  {
    if s != [] && IsSpace(s[|s| - 1], d) {
      var init := s[..|s| - 1];
      TrimEndSpec(init, d);
      var r := TrimEnd(s, d);
      assert s[|r|..] == init[|r|..] + [s[|s| - 1]];
      assert init[..|r|] == s[..|r|];
    }
  }

  /** Drops white space at both ends (`str.strip()` / `String.trim()`). */
  function Trim(s: string, d: Dialect): string {
    TrimEnd(TrimStart(s, d), d)
  }

  /** What Trim removes is white space on either side of what it keeps, and
      what it keeps neither starts nor ends with white space. */
  lemma {:induction false} TrimShape(s: string, d: Dialect) returns (lead: string, trail: string)
    ensures s == lead + Trim(s, d) + trail
    ensures AllSpace(lead, d) && AllSpace(trail, d)
    ensures var r := Trim(s, d); r == [] || (!IsSpace(r[0], d) && !IsSpace(r[|r| - 1], d))
  {
    var t := TrimStart(s, d);
    TrimStartSpec(s, d);
    var r := TrimEnd(t, d);
    TrimEndSpec(t, d);
    var k := |s| - |t|;
    lead := s[..k];
    trail := t[|r|..];
    assert AllSpace(lead, d) && AllSpace(trail, d);
    assert t == r + trail by {
      assert r == t[..|r|];
      assert t == t[..|r|] + t[|r|..];
    }
    assert s == lead + t by {
      assert t == s[k..];
      assert s == s[..k] + s[k..];
    }
    assert s == lead + r + trail;
    if r != [] {
      assert r[0] == t[0];
    }
  }

  /** The three facts TrimEnd ensures determine its result. */
  lemma {:induction false} TrimEndUnique(s: string, r: string, d: Dialect)
    requires |r| <= |s| && r == s[..|r|]
    requires AllSpace(s[|r|..], d)
    requires r == [] || !IsSpace(r[|r| - 1], d)
    ensures TrimEnd(s, d) == r
  {
    TrimEndSpec(s, d);
  }

  /** Trailing white space is trimmed only from the part after a non-space
      character: the prefix `a` survives intact. */
  lemma {:induction false} TrimEndAppend(a: string, b: string, d: Dialect)
    requires a == [] || !IsSpace(a[|a| - 1], d)
    ensures TrimEnd(a + b, d) == a + TrimEnd(b, d)
  {
    var tb := TrimEnd(b, d);
    TrimEndSpec(b, d);
    var r := a + tb;
    assert (a + b)[..|r|] == r;
    assert (a + b)[|r|..] == b[|tb|..];
    TrimEndUnique(a + b, r, d);
  }

  /** Leading white space is trimmed only from the part before a non-space
      character. */
  lemma {:induction false} TrimStartPrepend(a: string, b: string, d: Dialect)
    requires AllSpace(a, d)
    ensures TrimStart(a + b, d) == TrimStart(b, d)
    decreases |a|
  {
    if a == [] {
      assert a + b == b;
    } else {
      assert (a + b)[1..] == a[1..] + b;
      assert IsSpace((a + b)[0], d);
      TrimStartPrepend(a[1..], b, d);
    }
  }

  // ---------------------------------------------------------------------
  // Python's `str.split()` with no argument
  // ---------------------------------------------------------------------

  /** The length of the maximal run of non-space characters `s` starts with. */
  function WordLength(s: string): (n: nat)
    requires s != [] && !IsSpace(s[0], Python)
    ensures 1 <= n <= |s| && NoSpace(s[..n], Python)
    ensures n == |s| || IsSpace(s[n], Python)
    decreases |s|
  {
    if |s| == 1 || IsSpace(s[1], Python) then
      assert s[..1] == [s[0]];
      1
    else
      var m := WordLength(s[1..]);
      assert s[..1 + m] == [s[0]] + s[1..][..m];
      1 + m
  }

  /** The white-space separated tokens of `s`, as `str.split()` returns them:
      runs of white space separate tokens and never produce empty ones. */
  function Words(s: string): (r: seq<string>)
    ensures forall w :: w in r ==> w != [] && NoSpace(w, Python)
    decreases |s|
  {
    if s == [] then []
    else if IsSpace(s[0], Python) then Words(s[1..])
    else
      var n := WordLength(s);
      [s[..n]] + Words(s[n..])
  }

  lemma {:induction false} WordLengthUnique(s: string, k: nat)
    requires s != [] && !IsSpace(s[0], Python)
    requires 1 <= k <= |s| && NoSpace(s[..k], Python)
    requires k == |s| || IsSpace(s[k], Python)
    ensures WordLength(s) == k
  {
    var n := WordLength(s);
  }

  /** Leading white space contributes no token. */
  lemma {:induction false} WordsSkipSpace(p: string, x: string)
    requires AllSpace(p, Python)
    ensures Words(p + x) == Words(x)
    decreases |p|
  {
    if p == [] {
      assert p + x == x;
    } else {
      assert (p + x)[1..] == p[1..] + x;
      WordsSkipSpace(p[1..], x);
    }
  }

  /** A string that is all white space has no tokens. */
  lemma {:induction false} WordsOfSpace(p: string)
    requires AllSpace(p, Python)
    ensures Words(p) == []
  {
    WordsSkipSpace(p, []);
    assert p + [] == p;
  }

  /** Splitting distributes over a concatenation whose second part starts
      with white space (or is empty): no token straddles the seam. */
  lemma {:induction false} WordsConcat(a: string, b: string)
    requires b == [] || IsSpace(b[0], Python)
    ensures Words(a + b) == Words(a) + Words(b)
    decreases |a|
  {
    if a == [] {
      assert a + b == b;
    } else if IsSpace(a[0], Python) {
      assert (a + b)[1..] == a[1..] + b;
      WordsConcat(a[1..], b);
    } else {
      var m := WordLength(a);
      assert (a + b)[..m] == a[..m];
      if m < |a| {
        assert (a + b)[m] == a[m];
      }
      WordLengthUnique(a + b, m);
      assert (a + b)[m..] == a[m..] + b;
      WordsConcat(a[m..], b);
    }
  }

  /** `s.strip().split()` has the same tokens as `s.split()`. */
  lemma {:induction false} WordsTrim(s: string)
    ensures Words(Trim(s, Python)) == Words(s)
  {
    var r := Trim(s, Python);
    var lead, tail := TrimShape(s, Python);
    assert s == lead + (r + tail);
    WordsSkipSpace(lead, r + tail);
    if tail == [] {
      assert r + tail == r;
    } else {
      WordsConcat(r, tail);
      WordsOfSpace(tail);
    }
  }

  // ---------------------------------------------------------------------
  // `sep.join(parts)`
  // ---------------------------------------------------------------------

  function Join(sep: string, parts: seq<string>): string
    decreases |parts|
  {
    if parts == [] then ""
    else if |parts| == 1 then parts[0]
    else parts[0] + sep + Join(sep, parts[1..])
  }

  /** Appending one more part adds the separator and the part. */
  lemma {:induction false} JoinSnoc(sep: string, ps: seq<string>, x: string)
    requires ps != []
    ensures Join(sep, ps + [x]) == Join(sep, ps) + sep + x
    decreases |ps|
  {
    if |ps| > 1 {
      assert (ps + [x])[1..] == ps[1..] + [x];
      JoinSnoc(sep, ps[1..], x);
    } else {
      assert ps + [x] == [ps[0], x];
    }
  }

  /** Characters appended to the last part land at the end of the join. */
  lemma JoinExtendLast(sep: string, ps: seq<string>, x: string, y: string)
    requires ps != []
    ensures Join(sep, ps + [x + y]) == Join(sep, ps + [x]) + y
  {
    JoinSnoc(sep, ps, x + y);
    JoinSnoc(sep, ps, x);
  }

  /** Joining non-empty, space-free tokens with single spaces and splitting
      the result again gives the tokens back. */
  lemma {:induction false} WordsJoinRoundTrip(ws: seq<string>)
    requires forall w :: w in ws ==> w != [] && NoSpace(w, Python)
    ensures Words(Join(" ", ws)) == ws
    decreases |ws|
  {
    if ws == [] {
    } else if |ws| == 1 {
      assert ws[0] in ws;
      WordsOne(ws[0]);
    } else {
      assert ws[0] in ws;
      forall w | w in ws[1..]
        ensures w != [] && NoSpace(w, Python)
      {
        assert w in ws;
      }
      var rest := " " + Join(" ", ws[1..]);
      assert Join(" ", ws) == ws[0] + rest;
      assert IsSpace(rest[0], Python);
      WordsConcat(ws[0], rest);
      WordsOne(ws[0]);
      assert AllSpace(" ", Python);
      WordsSkipSpace(" ", Join(" ", ws[1..]));
      WordsJoinRoundTrip(ws[1..]);
    }
  }

  /** A non-empty space-free string is a single token. */
  lemma {:induction false} WordsOne(w: string)
    requires w != [] && NoSpace(w, Python)
    ensures Words(w) == [w]
  {
    WordLengthUnique(w, |w|);
    assert w[..|w|] == w;
    assert w[|w|..] == [];
  }

  // ---------------------------------------------------------------------
  // Lower-casing, prefixes and substrings
  // ---------------------------------------------------------------------

  /** ASCII lower-casing of one character. */
  function LowerChar(c: char): char {
    if 'A' <= c <= 'Z' then (c as int + 32) as char else c
  }

  /** `str.lower()` restricted to ASCII letters. */
  function Lower(s: string): (r: string)
    ensures |r| == |s|
  {
    seq(|s|, i requires 0 <= i < |s| => LowerChar(s[i]))
  }

  /** `s.startswith(p)` / `s.startsWith(p)`. */
  predicate StartsWith(s: string, p: string) {
    |p| <= |s| && s[..|p|] == p
  }

  /** Python's `sub in s`: `sub` occurs in `s` at some offset. */
  predicate Contains(s: string, sub: string) {
    exists i :: 0 <= i <= |s| && StartsWith(s[i..], sub)
  }

  /** A string occurs in itself, at offset 0. */
  lemma {:induction false} ContainsSelf(s: string)
    ensures Contains(s, s)
  {
    assert StartsWith(s[0..], s);
  }

  // ---------------------------------------------------------------------
  // Decimal rendering of a natural number (`str(n)` / f-string `{n}`)
  // ---------------------------------------------------------------------

  predicate IsDigit(c: char) {
    '0' <= c <= '9'
  }

  function DigitChar(d: nat): (c: char)
    requires d < 10
    ensures IsDigit(c) && c as int - '0' as int == d
  {
    ('0' as int + d) as char
  }

  /** The decimal digits of `n`, most significant first, without leading zeros. */
  function NatToString(n: nat): (r: string)
    ensures r != [] && forall i :: 0 <= i < |r| ==> IsDigit(r[i])
    ensures |r| > 1 ==> r[0] != '0'
    decreases n
  {
    if n < 10 then [DigitChar(n)] else NatToString(n / 10) + [DigitChar(n % 10)]
  }

  /** The value of a string of decimal digits. */
  function ParseDecimal(s: string): nat
    requires forall i :: 0 <= i < |s| ==> IsDigit(s[i])
    decreases |s|
  {
    if s == [] then 0
    else
      assert IsDigit(s[|s| - 1]);
      10 * ParseDecimal(s[..|s| - 1]) + (s[|s| - 1] as int - '0' as int)
  }

  /** Rendering then reading back a number is the identity: the rendering
      loses nothing. */
  lemma {:induction false} ParseNatToString(n: nat)
    ensures ParseDecimal(NatToString(n)) == n
    decreases n
  {
    if n >= 10 {
      var r := NatToString(n);
      assert r[..|r| - 1] == NatToString(n / 10);
      ParseNatToString(n / 10);
    }
  }

  // ---------------------------------------------------------------------
  // `s.split(sep)` for a one-character separator
  // ---------------------------------------------------------------------

  function IndexOf(s: string, c: char): (i: nat)
    requires c in s
    ensures i < |s| && s[i] == c && c !in s[..i]
  {
    if s[0] == c then 0
    else
      var j := IndexOf(s[1..], c);
      assert s[..j + 1] == [s[0]] + s[1..][..j];
      1 + j
  }

  /** The pieces of `s` between occurrences of `sep`, empty pieces kept. */
  function SplitOn(s: string, sep: char): (r: seq<string>)
    ensures |r| >= 1
    ensures forall w :: w in r ==> sep !in w
    decreases |s|
  {
    if sep !in s then [s]
    else
      var i := IndexOf(s, sep);
      [s[..i]] + SplitOn(s[i + 1..], sep)
  }

  /** A separator after a separator-free prefix cuts exactly there. */
  lemma {:induction false} SplitOnCons(a: string, sep: char, b: string)
    requires sep !in a
    ensures SplitOn(a + [sep] + b, sep) == [a] + SplitOn(b, sep)
  {
    var s := a + [sep] + b;
    assert s[|a|] == sep;
    var i := IndexOf(s, sep);
    assert i == |a|;
    assert s[..i] == a;
    assert s[i + 1..] == b;
  }

  /** Splitting a join of separator-free parts on the separator gives the
      parts back. */
  lemma {:induction false} JoinSplitOn(ps: seq<string>, sep: char)
    requires ps != []
    requires forall k :: 0 <= k < |ps| ==> sep !in ps[k]
    ensures SplitOn(Join([sep], ps), sep) == ps
    decreases |ps|
  {
    if |ps| == 1 {
    } else {
      var rest := Join([sep], ps[1..]);
      assert Join([sep], ps) == ps[0] + [sep] + rest;
      SplitOnCons(ps[0], sep, rest);
      JoinSplitOn(ps[1..], sep);
    }
  }

  /** Joining the pieces with the separator rebuilds the string. */
  lemma {:induction false} SplitOnJoin(s: string, sep: char)
    ensures Join([sep], SplitOn(s, sep)) == s
    decreases |s|
  {
    if sep in s {
      var i := IndexOf(s, sep);
      SplitOnJoin(s[i + 1..], sep);
      assert s == s[..i] + [sep] + s[i + 1..];
    }
  }
}
