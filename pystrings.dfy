/** The Python `str` operations the pipeline relies on, written out over
    `seq<char>`: strip, split, join, replace, lower, find, startswith and the
    decimal rendering and parsing of naturals (f"{i}" and int()). */
module PyStrings {
  import opened Wrappers

  /** The characters for which Python's str.isspace() holds, which is what
      str.strip() with no argument removes. */
  predicate IsSpace(c: char) {
    || c == ' ' || ('\t' <= c <= '\r') || ('\U{1C}' <= c <= '\U{1F}')
    || c == '\U{85}' || c == '\U{A0}' || c == '\U{1680}'
    || ('\U{2000}' <= c <= '\U{200A}') || c == '\U{2028}' || c == '\U{2029}'
    || c == '\U{202F}' || c == '\U{205F}' || c == '\U{3000}'
  }

  predicate IsDigit(c: char) {
    '0' <= c <= '9'
  }

  predicate AllDigits(s: string) {
    forall i :: 0 <= i < |s| ==> IsDigit(s[i])
  }

  // ---------------------------------------------------------------- strip

  /** str.lstrip(): drops the leading whitespace. */
  function TrimLeft(s: string): (r: string)
    ensures |r| <= |s|
    ensures r == [] || !IsSpace(r[0])
  {
    if s != [] && IsSpace(s[0]) then TrimLeft(s[1..]) else s
  }

  /** lstrip() keeps a suffix and everything it drops is whitespace. */
  lemma {:induction false} TrimLeftDropsSpaces(s: string)
    ensures TrimLeft(s) == s[|s| - |TrimLeft(s)|..]
    ensures forall i :: 0 <= i < |s| - |TrimLeft(s)| ==> IsSpace(s[i])
  {
    if s != [] && IsSpace(s[0]) {
      TrimLeftDropsSpaces(s[1..]);
      assert forall i :: 1 <= i < |s| ==> s[i] == s[1..][i - 1];
    }
  }

  /** str.rstrip(): drops the trailing whitespace. */
  function TrimRight(s: string): (r: string)
    ensures |r| <= |s|
    ensures r == [] || !IsSpace(r[|r| - 1])
  {
    if s != [] && IsSpace(s[|s| - 1]) then TrimRight(s[..|s| - 1]) else s
  }

  /** rstrip() keeps a prefix and everything it drops is whitespace. */
  lemma {:induction false} TrimRightDropsSpaces(s: string)
    ensures TrimRight(s) == s[..|TrimRight(s)|]
    ensures forall i :: |TrimRight(s)| <= i < |s| ==> IsSpace(s[i])
  {
    if s != [] && IsSpace(s[|s| - 1]) {
      TrimRightDropsSpaces(s[..|s| - 1]);
      assert forall i :: 0 <= i < |s| - 1 ==> s[i] == s[..|s| - 1][i];
    }
  }

  /** str.strip() */
  function Strip(s: string): string {
    TrimRight(TrimLeft(s))
  }

  /** A string with no whitespace at either end is its own strip. */
  lemma {:induction false} StripUnchanged(s: string)
    requires s == [] || (!IsSpace(s[0]) && !IsSpace(s[|s| - 1]))
    ensures Strip(s) == s
  {
  }

  /** strip() is idempotent: a stripped line is stripped. */
  lemma {:induction false} StripIdempotent(s: string)
    ensures Strip(Strip(s)) == Strip(s)
  {
    var t := Strip(s);
    if t != [] {
      var l := TrimLeft(s);
      TrimRightDropsSpaces(l);
      assert t == l[..|t|];
      assert !IsSpace(t[0]);
    }
    StripUnchanged(t);
  }

  /** strip() gives "" exactly for an all-whitespace string, which is what
      Python's truthiness test `if line.strip()` rejects. */
  lemma {:induction false} StripEmptyIff(s: string)
    ensures Strip(s) == [] <==> forall i :: 0 <= i < |s| ==> IsSpace(s[i])
  {
    var l := TrimLeft(s);
    TrimLeftDropsSpaces(s);
    TrimRightDropsSpaces(l);
    if Strip(s) == [] {
      assert l == [];
    } else {
      var t := Strip(s);
      assert t[0] == l[0] == s[|s| - |l|];
    }
  }

  // ---------------------------------------------------------------- find

  predicate OccursAt(s: string, sep: string, k: nat) {
    k + |sep| <= |s| && s[k..k + |sep|] == sep
  }

  /** str.find(sep) for a non-empty sep: the leftmost occurrence, if any
      (that it is the leftmost is FindSpec). */
  function Find(s: string, sep: string): (r: Option<nat>)
    requires |sep| > 0
    ensures r.Some? ==> OccursAt(s, sep, r.value)
    decreases |s|
  {
    if |s| < |sep| then None
    else if s[..|sep|] == sep then Some(0)
    else
      match Find(s[1..], sep)
      case None => None
      case Some(k) =>
        SliceOfTail(s, k + 1, k + 1 + |sep|);
        Some(k + 1)
  }

  /** A slice of s that skips its first character is a slice of s[1..]. */
  lemma SliceOfTail(s: string, i: nat, j: nat)
    requires 1 <= i <= j <= |s|
    ensures s[i..j] == s[1..][i - 1..j - 1]
  {
    forall m | 0 <= m < j - i
      ensures s[i..j][m] == s[1..][i - 1..j - 1][m]
    {
    }
  }

  /** Find reports the leftmost occurrence, and None only when sep occurs
      nowhere. */
  lemma {:induction false} FindSpec(s: string, sep: string)
    requires |sep| > 0
    ensures Find(s, sep).Some? ==> forall k: nat :: k < Find(s, sep).value ==> !OccursAt(s, sep, k)
    ensures Find(s, sep).None? ==> forall k: nat :: !OccursAt(s, sep, k)
    decreases |s|
  {
    if |s| >= |sep| && s[..|sep|] != sep {
      FindSpec(s[1..], sep);
      forall k: nat | k >= 1 ensures OccursAt(s, sep, k) == OccursAt(s[1..], sep, k - 1) {
        if k + |sep| <= |s| {
          SliceOfTail(s, k, k + |sep|);
        }
      }
      assert !OccursAt(s, sep, 0);
    }
  }

  /** The index of the first occurrence of sep, or |s| when there is none:
      the length of the first piece of s.split(sep). */
  function FindOrEnd(s: string, sep: string): (k: nat)
    requires |sep| > 0
    ensures k <= |s|
  {
    match Find(s, sep)
    case Some(k) => k
    case None => |s|
  }

  predicate Contains(s: string, sub: string)
    requires |sub| > 0
  {
    Find(s, sub).Some?
  }

  predicate StartsWith(s: string, prefix: string) {
    |prefix| <= |s| && s[..|prefix|] == prefix
  }

  /** For a single character, "first occurrence" is the first index holding it. */
  lemma {:induction false} FindOrEndChar(s: string, c: char)
    ensures var k := FindOrEnd(s, [c]);
      && (k < |s| ==> s[k] == c)
      && (forall j :: 0 <= j < k ==> s[j] != c)
      && (k == |s| <==> c !in s)
  {
    var k := FindOrEnd(s, [c]);
    FindSpec(s, [c]);
    forall j | 0 <= j < |s| && s[j] == c ensures k <= j && k < |s| {
      assert OccursAt(s, [c], j);
    }
    if k < |s| {
      assert OccursAt(s, [c], k);
    }
  }

  // ---------------------------------------------------------------- split / join

  /** str.split(sep) for a non-empty sep: cut at each occurrence, scanning
      left to right without overlaps. */
  function Split(s: string, sep: string): (parts: seq<string>)
    requires |sep| > 0
    ensures |parts| >= 1
    decreases |s|
  {
    match Find(s, sep)
    case None => [s]
    case Some(k) => [s[..k]] + Split(s[k + |sep|..], sep)
  }

  /** sep.join(parts) */
  function Join(sep: string, parts: seq<string>): string
  {
    if |parts| == 0 then ""
    else if |parts| == 1 then parts[0]
    else parts[0] + sep + Join(sep, parts[1..])
  }

  /** Round trip: joining the pieces of a split with the same separator gives
      back the original string. */
  lemma {:induction false} SplitJoin(s: string, sep: string)
    requires |sep| > 0
    ensures Join(sep, Split(s, sep)) == s
    decreases |s|
  {
    match Find(s, sep)
    case None =>
    case Some(k) =>
      var rest := s[k + |sep|..];
      var parts := Split(rest, sep);
      SplitJoin(rest, sep);
      assert Split(s, sep) == [s[..k]] + parts;
      JoinCons(sep, s[..k], parts);
      assert s[k..k + |sep|] == sep;
      assert s == s[..k] + sep + rest;
  }

  /** Joining a non-empty list behind a first part puts one separator between. */
  lemma {:induction false} JoinCons(sep: string, a: string, parts: seq<string>)
    requires |parts| >= 1
    ensures Join(sep, [a] + parts) == a + sep + Join(sep, parts)
  {
    assert ([a] + parts)[1..] == parts;
  }

  /** The first piece of a split runs up to the first occurrence; the other
      pieces are the split of what follows that occurrence. */
  lemma {:induction false} SplitHead(s: string, sep: string)
    requires |sep| > 0
    ensures Split(s, sep)[0] == s[..FindOrEnd(s, sep)]
    ensures Find(s, sep).None? <==> |Split(s, sep)| == 1
    ensures Find(s, sep).Some? ==>
      Split(s, sep)[1..] == Split(s[FindOrEnd(s, sep) + |sep|..], sep)
  {
  }

  /** When sep occurs, the second piece of the split runs from the end of its
      first occurrence up to the next one. */
  lemma {:induction false} SplitSecond(s: string, sep: string)
    requires |sep| > 0 && FindOrEnd(s, sep) < |s|
    ensures var rest := s[FindOrEnd(s, sep) + |sep|..];
      && |Split(s, sep)| >= 2
      && Split(s, sep)[1] == rest[..FindOrEnd(rest, sep)]
  {
    var k := FindOrEnd(s, sep);
    SplitHead(s, sep);
    assert OccursAt(s, sep, k);
    var rest := s[k + |sep|..];
    SplitHead(rest, sep);
    assert Split(s, sep)[1] == Split(s, sep)[1..][0];
  }

  /** Joining all pieces but the first gives back everything after the first
      separator, and nothing when there is none. */
  lemma {:induction false} SplitTail(s: string, sep: string)
    requires |sep| > 0
    ensures var w := FindOrEnd(s, sep);
      var parts := Split(s, sep);
      && parts[0] == s[..w]
      && Join(sep, parts[1..]) == if w < |s| then s[w + |sep|..] else ""
  {
    var parts := Split(s, sep);
    match Find(s, sep)
    case None =>
      assert parts == [s];
      assert parts[1..] == [];
    case Some(k) =>
      assert k + |sep| <= |s|;
      var rest := s[k + |sep|..];
      assert parts == [s[..k]] + Split(rest, sep);
      assert parts[1..] == Split(rest, sep);
      SplitJoin(rest, sep);
  }

  /** The last piece of a split is a suffix of the input with no occurrence of
      the separator. */
  lemma {:induction false} SplitLastSuffix(s: string, sep: string)
    requires |sep| > 0
    ensures var parts := Split(s, sep); var last := parts[|parts| - 1];
      && |last| <= |s| && s[|s| - |last|..] == last
      && Find(last, sep).None?
  {
    var parts := Split(s, sep);
    var n := |parts| - 1;
    SplitLastNone(s, sep);
    if n > 0 {
      var head := Join(sep, parts[..n]);
      assert parts == parts[..n] + [parts[n]];
      SplitJoin(s, sep);
      JoinSnoc(sep, parts[..n], parts[n]);
      assert s == (head + sep) + parts[n];
    } else {
      SplitHead(s, sep);
    }
  }

  /** The last piece of a split holds no occurrence of the separator. */
  lemma {:induction false} SplitLastNone(s: string, sep: string)
    requires |sep| > 0
    ensures var parts := Split(s, sep); Find(parts[|parts| - 1], sep).None?
    decreases |s|
  {
    match Find(s, sep)
    case None =>
    case Some(k) =>
      var rest := s[k + |sep|..];
      SplitLastNone(rest, sep);
      assert Split(s, sep) == [s[..k]] + Split(rest, sep);
  }

  /** When a split has several pieces, the last one directly follows an
      occurrence of the separator. */
  lemma {:induction false} SplitLastSep(s: string, sep: string)
    requires |sep| > 0 && |Split(s, sep)| > 1
    ensures var parts := Split(s, sep); var last := parts[|parts| - 1];
      |last| + |sep| <= |s| && s[|s| - |last| - |sep|..|s| - |last|] == sep
  {
    var parts := Split(s, sep);
    var n := |parts| - 1;
    var head := Join(sep, parts[..n]);
    assert parts == parts[..n] + [parts[n]];
    SplitJoin(s, sep);
    JoinSnoc(sep, parts[..n], parts[n]);
    assert s == head + sep + parts[n];
    assert s[|head|..|head| + |sep|] == sep;
  }

  /** The last piece of a split: a suffix with no separator in it, which
      follows an occurrence of the separator unless it is the whole input. */
  lemma {:induction false} SplitLast(s: string, sep: string)
    requires |sep| > 0
    ensures var parts := Split(s, sep); var last := parts[|parts| - 1];
      && |last| <= |s| && s[|s| - |last|..] == last
      && !Contains(last, sep)
      && (|last| < |s| ==> |last| + |sep| <= |s| && s[|s| - |last| - |sep|..|s| - |last|] == sep)
  {
    SplitLastSuffix(s, sep);
    SplitHead(s, sep);
    if |Split(s, sep)| > 1 {
      SplitLastSep(s, sep);
    }
  }

  /** Joining a list with one more part puts one separator before it. */
  lemma {:induction false} JoinSnoc(sep: string, parts: seq<string>, x: string)
    requires |parts| >= 1
    ensures Join(sep, parts + [x]) == Join(sep, parts) + sep + x
    decreases |parts|
  {
    if |parts| == 1 {
      assert (parts + [x])[1..] == [x];
    } else {
      assert (parts + [x])[1..] == parts[1..] + [x];
      JoinSnoc(sep, parts[1..], x);
    }
  }

  /** A separator that occurs gives at least two pieces. */
  lemma {:induction false} SplitAtOccurrence(s: string, sep: string, k: nat)
    requires |sep| > 0 && OccursAt(s, sep, k)
    ensures |Split(s, sep)| >= 2
  {
    FindSpec(s, sep);
  }

  // ---------------------------------------------------------------- replace

  /** str.replace(pat, rep) for a non-empty pat: every occurrence found by a
      left-to-right scan without overlaps is replaced; the replacement text is
      not scanned again. */
  function Replace(s: string, pat: string, rep: string): string
    requires |pat| > 0
    decreases |s|
  {
    if s == [] then ""
    else if StartsWith(s, pat) then rep + Replace(s[|pat|..], pat, rep)
    else [s[0]] + Replace(s[1..], pat, rep)
  }

  /** A prefix that holds no character equal to the pattern's first one is
      copied unchanged, and the scan resumes right after it. */
  lemma {:induction false} ReplaceSkipsPrefix(p: string, x: string, pat: string, rep: string)
    requires |pat| > 0 && pat[0] !in p
    ensures Replace(p + x, pat, rep) == p + Replace(x, pat, rep)
    decreases |p|
  {
    if p != [] {
      assert (p + x)[0] == p[0];
      assert p[0] in p;
      assert !StartsWith(p + x, pat);
      assert (p + x)[1..] == p[1..] + x;
      ReplaceSkipsPrefix(p[1..], x, pat, rep);
      calc {
        Replace(p + x, pat, rep);
        [p[0]] + Replace(p[1..] + x, pat, rep);
        [p[0]] + (p[1..] + Replace(x, pat, rep));
        { assert [p[0]] + p[1..] == p; }
        p + Replace(x, pat, rep);
      }
    } else {
      assert p + x == x;
    }
  }

  /** An occurrence at the front is replaced and the scan resumes after it. */
  lemma {:induction false} ReplaceAtStart(x: string, pat: string, rep: string)
    requires |pat| > 0
    ensures Replace(pat + x, pat, rep) == rep + Replace(x, pat, rep)
  {
    assert (pat + x)[..|pat|] == pat;
    assert (pat + x)[|pat|..] == x;
  }

  /** With no occurrence possible the string is unchanged. */
  lemma {:induction false} ReplaceAbsent(s: string, pat: string, rep: string)
    requires |pat| > 0 && pat[0] !in s
    ensures Replace(s, pat, rep) == s
  {
    ReplaceSkipsPrefix(s, "", pat, rep);
    assert s + "" == s;
  }

  /** Replacing in a concatenation is replacing in each part, as long as no
      occurrence can straddle the boundary: the second part does not begin
      with a character that occurs after the pattern's first position. */
  lemma {:induction false} ReplaceAppend(a: string, b: string, pat: string, rep: string)
    requires |pat| > 0
    requires b == [] || b[0] !in pat[1..]
    ensures Replace(a + b, pat, rep) == Replace(a, pat, rep) + Replace(b, pat, rep)
    decreases |a|
  {
    if a == [] {
      assert a + b == b;
    } else if StartsWith(a, pat) {
      assert (a + b)[..|pat|] == a[..|pat|];
      assert (a + b)[|pat|..] == a[|pat|..] + b;
      ReplaceAppend(a[|pat|..], b, pat, rep);
    } else {
      NoStraddle(a, b, pat);
      assert (a + b)[1..] == a[1..] + b;
      ReplaceAppend(a[1..], b, pat, rep);
    }
  }

  /** Under the condition of ReplaceAppend, a non-empty a that does not start
      with the pattern cannot start one that runs on into b. */
  lemma {:induction false} NoStraddle(a: string, b: string, pat: string)
    requires |pat| > 0 && a != [] && !StartsWith(a, pat)
    requires b == [] || b[0] !in pat[1..]
    ensures !StartsWith(a + b, pat)
  {
    if |pat| <= |a| {
      assert (a + b)[..|pat|] == a[..|pat|];
    } else if |pat| <= |a| + |b| {
      assert (a + b)[|a|] == b[0];
      assert pat[1..][|a| - 1] == pat[|a|];
    }
  }

  /** Removing a single character (replace(c, "") and the like) leaves none. */
  lemma {:induction false} ReplaceRemovesChar(s: string, c: char, rep: string)
    requires c !in rep
    ensures c !in Replace(s, [c], rep)
    decreases |s|
  {
    if s != [] {
      ReplaceRemovesChar(s[1..], c, rep);
      if !StartsWith(s, [c]) {
        assert s[0] != c;
      }
    }
  }

  // ---------------------------------------------------------------- lower

  /** A character's lower case, when that is one ASCII letter: the ASCII
      capitals and U+212A KELVIN SIGN, whose lower case is 'k'. */
  function LowerChar(c: char): char {
    if 'A' <= c <= 'Z' then (c as int - 'A' as int + 'a' as int) as char
    else if c == '\U{212A}' then 'k'
    else c
  }

  /** str.lower() on the characters whose lower case is an ASCII letter. */
  function Lower(s: string): (r: string)
    ensures |r| == |s| && forall i :: 0 <= i < |s| ==> r[i] == LowerChar(s[i])
  {
    seq(|s|, i requires 0 <= i < |s| => LowerChar(s[i]))
  }

  // ---------------------------------------------------------------- decimal numbers

  function DigitChar(d: nat): (c: char)
    requires d < 10
    ensures IsDigit(c)
  {
    ('0' as int + d) as char
  }

  function DigitValue(c: char): (d: nat)
    requires IsDigit(c)
    ensures d < 10 && DigitChar(d) == c
  {
    c as int - '0' as int
  }

  /** f"{n}" for a natural number. */
  function NatToString(n: nat): (r: string)
    ensures |r| >= 1 && AllDigits(r)
  {
    if n < 10 then [DigitChar(n)] else NatToString(n / 10) + [DigitChar(n % 10)]
  }

  /** The value of a string of decimal digits. */
  function ParseDigits(s: string): nat
    requires AllDigits(s)
  {
    if s == [] then 0 else ParseDigits(s[..|s| - 1]) * 10 + DigitValue(s[|s| - 1])
  }

  /** int(s) on a str: surrounding whitespace is ignored, then an optional
      '+' or '-' and one or more ASCII digits; anything else raises
      ValueError (None here). */
  function PyInt(s: string): (r: Option<int>)
    ensures r.Some? ==> Strip(s) != []
  {
    var t := Strip(s);
    if |t| >= 2 && (t[0] == '-' || t[0] == '+') && AllDigits(t[1..]) then
      var v: int := ParseDigits(t[1..]);
      Some(if t[0] == '-' then -v else v)
    else if t != [] && AllDigits(t) then Some(ParseDigits(t))
    else None
  }

  /** Round trip: parsing the decimal rendering of n gives n back. */
  lemma {:induction false} ParseNatToString(n: nat)
    ensures ParseDigits(NatToString(n)) == n
  {
    if n >= 10 {
      ParseNatToString(n / 10);
      var s := NatToString(n);
      assert s[..|s| - 1] == NatToString(n / 10);
    }
  }

  /** Distinct naturals render as distinct strings. */
  lemma {:induction false} NatToStringInjective(a: nat, b: nat)
    requires NatToString(a) == NatToString(b)
    ensures a == b
  {
    ParseNatToString(a);
    ParseNatToString(b);
  }

  /** int() reads back what str() writes, for either sign. */
  lemma {:induction false} PyIntRendering(n: nat)
    ensures PyInt(NatToString(n)) == Some(n)
    ensures PyInt("-" + NatToString(n)) == Some(-(n as int))
  {
    ParseNatToString(n);
    PyIntDigits(NatToString(n), n);
  }

  /** int() of a non-empty digit string, bare or after a minus sign, is its
      value with that sign. */
  lemma {:induction false} PyIntDigits(d: string, v: nat)
    requires d != [] && AllDigits(d) && ParseDigits(d) == v
    ensures PyInt(d) == Some(v)
    ensures PyInt("-" + d) == Some(-(v as int))
  {
    assert IsDigit(d[0]) && IsDigit(d[|d| - 1]);
    StripUnchanged(d);
    var m := "-" + d;
    assert m[|m| - 1] == d[|d| - 1];
    StripUnchanged(m);
    assert m[1..] == d;
  }

  /** int() ignores surrounding whitespace. */
  lemma {:induction false} PyIntIgnoresSpace(s: string)
    ensures PyInt(s) == PyInt(Strip(s))
  {
    StripIdempotent(s);
  }
}
