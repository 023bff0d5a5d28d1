/**
 * String helpers shared by every module: the character classes the regular
 * expressions of the system use (`\s`, `\d`, `\w`, the line terminators that
 * `.` and `$` respect), ECMAScript `trim`, `split`, `join`, literal global
 * `replace`, and case mapping restricted to ASCII and the Czech letters that
 * occur in the code's patterns and keywords.
 */
module Text {

  datatype Option<T> = None | Some(value: T)

  /** A value, or the message of the error that prevented it. */
  datatype Result<T> = Success(value: T) | Failure(error: string)

  /** The ECMAScript WhiteSpace and LineTerminator characters: what `\s` and `trim()` match. */
  predicate IsSpace(c: char) {
    c == ' ' || c == '\t' || c == '\n' || c == '\r' || c == '\U{B}' || c == '\U{C}'
    || c == '\U{A0}' || c == '\U{1680}' || ('\U{2000}' <= c <= '\U{200A}')
    || c == '\U{2028}' || c == '\U{2029}' || c == '\U{202F}' || c == '\U{205F}'
    || c == '\U{3000}' || c == '\U{FEFF}'
  }

  /** The characters that `.` does not match and before which a multiline `$` holds. */
  predicate IsLineTerminator(c: char) {
    c == '\n' || c == '\r' || c == '\U{2028}' || c == '\U{2029}'
  }

  predicate NotLineTerminator(c: char) { !IsLineTerminator(c) }

  /** `\n`. */
  predicate IsLineFeed(c: char) { c == '\n' }

  /** `[^\n]`. */
  predicate NotLineFeed(c: char) { c != '\n' }

  predicate IsDigit(c: char) { '0' <= c <= '9' }

  /** `\w`: ASCII letters, digits and the underscore. */
  predicate IsWordChar(c: char) {
    ('a' <= c <= 'z') || ('A' <= c <= 'Z') || IsDigit(c) || c == '_'
  }

  /** The Czech letters with diacritics, lower case. */
  predicate IsCzechLower(c: char) {
    c == 'á' || c == 'č' || c == 'ď' || c == 'é' || c == 'ě' || c == 'í' || c == 'ň' || c == 'ó'
    || c == 'ř' || c == 'š' || c == 'ť' || c == 'ú' || c == 'ů' || c == 'ý' || c == 'ž'
  }

  /** The Czech letters with diacritics, upper case. */
  predicate IsCzechUpper(c: char) {
    c == 'Á' || c == 'Č' || c == 'Ď' || c == 'É' || c == 'Ě' || c == 'Í' || c == 'Ň' || c == 'Ó'
    || c == 'Ř' || c == 'Š' || c == 'Ť' || c == 'Ú' || c == 'Ů' || c == 'Ý' || c == 'Ž'
  }

  /** `toUpperCase` on ASCII and Czech letters; every other character is left alone. */
  function Upper(c: char): (u: char)
    ensures IsCzechLower(c) ==> IsCzechUpper(u)
  {
    if 'a' <= c <= 'z' then (c as int - 32) as char
    else match c
      case 'á' => 'Á' case 'č' => 'Č' case 'ď' => 'Ď' case 'é' => 'É' case 'ě' => 'Ě'
      case 'í' => 'Í' case 'ň' => 'Ň' case 'ó' => 'Ó' case 'ř' => 'Ř' case 'š' => 'Š'
      case 'ť' => 'Ť' case 'ú' => 'Ú' case 'ů' => 'Ů' case 'ý' => 'Ý' case 'ž' => 'Ž'
      case _ => c
  }

  /** `toLowerCase` on ASCII and Czech letters; every other character is left alone. */
  function Lower(c: char): (l: char)
    ensures IsCzechUpper(c) ==> IsCzechLower(l)
  {
    if 'A' <= c <= 'Z' then (c as int + 32) as char
    else match c
      case 'Á' => 'á' case 'Č' => 'č' case 'Ď' => 'ď' case 'É' => 'é' case 'Ě' => 'ě'
      case 'Í' => 'í' case 'Ň' => 'ň' case 'Ó' => 'ó' case 'Ř' => 'ř' case 'Š' => 'š'
      case 'Ť' => 'ť' case 'Ú' => 'ú' case 'Ů' => 'ů' case 'Ý' => 'ý' case 'Ž' => 'ž'
      case _ => c
  }

  function UpperStr(s: string): (r: string)
    ensures |r| == |s|
  {
    seq(|s|, i requires 0 <= i < |s| => Upper(s[i]))
  }

  function LowerStr(s: string): (r: string)
    ensures |r| == |s|
  {
    seq(|s|, i requires 0 <= i < |s| => Lower(s[i]))
  }

  lemma LowerStrConcat(x: string, y: string)
    ensures LowerStr(x + y) == LowerStr(x) + LowerStr(y)
  {
    assert forall k :: 0 <= k < |x + y| ==> LowerStr(x + y)[k] == (LowerStr(x) + LowerStr(y))[k];
  }

  lemma LowerStrAt(s: string, k: nat)
    requires k < |s|
    ensures LowerStr(s)[k] == Lower(s[k])
  {
  }

  /** The end of the longest run of characters satisfying `p` that starts at `i`. */
  function SpanWhile(s: string, i: nat, p: char -> bool): (j: nat)
    requires i <= |s|
    ensures i <= j <= |s|
    ensures forall k :: i <= k < j ==> p(s[k])
    ensures j < |s| ==> !p(s[j])
    decreases |s| - i
  {
    if i < |s| && p(s[i]) then SpanWhile(s, i + 1, p) else i
  }

  /** A run of `p` from `i` that stops at `j` is the span `SpanWhile` finds. */
  lemma {:induction false} SpanWhileStops(s: string, i: nat, j: nat, p: char -> bool)
    requires i <= j <= |s|
    requires forall k :: i <= k < j ==> p(s[k])
    requires j == |s| || !p(s[j])
    ensures SpanWhile(s, i, p) == j
    decreases j - i
  {
    if i < j {
      SpanWhileStops(s, i + 1, j, p);
    }
  }

  predicate AllSpace(s: string) {
    forall k :: 0 <= k < |s| ==> IsSpace(s[k])
  }

  /** What `.*` can consume: no line terminator anywhere. */
  predicate NoLineTerminator(s: string) {
    s == [] || (!IsLineTerminator(s[0]) && NoLineTerminator(s[1..]))
  }

  lemma {:induction false} NoLineTerminatorAt(s: string)
    ensures NoLineTerminator(s) <==> forall k :: 0 <= k < |s| ==> !IsLineTerminator(s[k])
  {
    if s != [] {
      NoLineTerminatorAt(s[1..]);
      assert forall k :: 1 <= k < |s| ==> s[k] == s[1..][k - 1];
    }
  }

  lemma NoLineTerminatorConcat(x: string, y: string)
    ensures NoLineTerminator(x + y) <==> NoLineTerminator(x) && NoLineTerminator(y)
  {
    NoLineTerminatorAt(x);
    NoLineTerminatorAt(y);
    NoLineTerminatorAt(x + y);
    assert forall k :: 0 <= k < |x| ==> (x + y)[k] == x[k];
    assert forall k :: 0 <= k < |y| ==> (x + y)[|x| + k] == y[k];
    if NoLineTerminator(x) && NoLineTerminator(y) {
      forall k | 0 <= k < |x + y|
        ensures !IsLineTerminator((x + y)[k])
      {
        if k >= |x| {
          assert (x + y)[k] == y[k - |x|];
        }
      }
    }
  }

  function TrimLeft(s: string): (r: string)
    ensures |r| <= |s|
    ensures r == [] || !IsSpace(r[0])
  {
    if s != [] && IsSpace(s[0]) then TrimLeft(s[1..]) else s
  }

  /** What `TrimLeft` keeps is a suffix. */
  lemma {:induction false} TrimLeftSlice(s: string)
    ensures TrimLeft(s) == s[|s| - |TrimLeft(s)|..]
    decreases |s|
  {
    if s != [] && IsSpace(s[0]) {
      TrimLeftSlice(s[1..]);
      assert s[1..][|s| - 1 - |TrimLeft(s)|..] == s[|s| - |TrimLeft(s)|..];
    }
  }

  function TrimRight(s: string): (r: string)
    ensures |r| <= |s|
    ensures r == [] || !IsSpace(r[|r| - 1])
  {
    if s != [] && IsSpace(s[|s| - 1]) then TrimRight(s[..|s| - 1]) else s
  }

  /** What `TrimRight` keeps is a prefix. */
  lemma {:induction false} TrimRightSlice(s: string)
    ensures TrimRight(s) == s[..|TrimRight(s)|]
    decreases |s|
  {
    if s != [] && IsSpace(s[|s| - 1]) {
      TrimRightSlice(s[..|s| - 1]);
      assert s[..|s| - 1][..|TrimRight(s)|] == s[..|TrimRight(s)|];
    }
  }

  /** ECMAScript `String.prototype.trim`. */
  function Trim(s: string): (r: string)
    ensures r == [] || (!IsSpace(r[0]) && !IsSpace(r[|r| - 1]))
    ensures |r| <= |s|
  {
    TrimRightSlice(TrimLeft(s));
    TrimRight(TrimLeft(s))
  }

  /** What `Trim` keeps is a slice. */
  lemma TrimSlice(s: string)
    ensures |s| - |TrimLeft(s)| + |Trim(s)| <= |s|
    ensures Trim(s) == s[|s| - |TrimLeft(s)|..|s| - |TrimLeft(s)| + |Trim(s)|]
  {
    var l := TrimLeft(s);
    var r := TrimRight(l);
    var k := |s| - |l|;
    TrimLeftSlice(s);
    TrimRightSlice(l);
    assert s[k..][..|r|] == s[k..k + |r|];
  }

  /** Right-trimming a concatenation whose right part keeps a non-space character. */
  lemma {:induction false} TrimRightConcat(x: string, y: string)
    requires TrimRight(y) != []
    ensures TrimRight(x + y) == x + TrimRight(y)
    decreases |y|
  {
    if IsSpace(y[|y| - 1]) {
      assert (x + y)[..|x + y| - 1] == x + y[..|y| - 1];
      TrimRightConcat(x, y[..|y| - 1]);
    }
  }

  lemma {:induction false} TrimRightKeepsNonSpace(s: string)
    requires s != [] && !IsSpace(s[0])
    ensures TrimRight(s) != [] && TrimRight(s)[0] == s[0]
  {
    if |s| > 1 && IsSpace(s[|s| - 1]) {
      TrimRightKeepsNonSpace(s[..|s| - 1]);
    }
  }

  /** Trimming a text whose first character is not whitespace only trims its right end. */
  lemma TrimFromNonSpace(x: string, y: string)
    requires x != [] && !IsSpace(x[0]) && TrimRight(y) != []
    ensures Trim(x + y) == x + TrimRight(y)
  {
    assert (x + y)[0] == x[0];
    TrimRightConcat(x, y);
  }

  predicate IsTrimmed(s: string) {
    s == [] || (!IsSpace(s[0]) && !IsSpace(s[|s| - 1]))
  }

  lemma TrimOfTrimmed(s: string)
    requires IsTrimmed(s)
    ensures Trim(s) == s
  {
  }

  /** One space in front of a trimmed text is trimmed away. */
  lemma TrimLeadingSpace(x: string)
    requires IsTrimmed(x)
    ensures Trim(" " + x) == x
  {
    assert (" " + x)[1..] == x;
    assert TrimLeft(" " + x) == TrimLeft(x);
    TrimOfTrimmed(x);
  }

  lemma TrimIdempotent(s: string)
    ensures Trim(Trim(s)) == Trim(s)
  {
    TrimOfTrimmed(Trim(s));
  }

  /** `s.replace(/\.$/, "")`: drop one trailing dot. */
  function StripTrailingDot(s: string): (r: string)
    ensures r == s || (s == r + ".")
  {
    if s != [] && s[|s| - 1] == '.' then s[..|s| - 1] else s
  }

  lemma StripTrailingDotConcat(x: string, y: string)
    requires y != []
    ensures StripTrailingDot(x + y) == x + StripTrailingDot(y)
  {
    assert (x + y)[..|x + y| - 1] == x + y[..|y| - 1];
  }

  predicate StartsWith(s: string, p: string) {
    |p| <= |s| && s[..|p|] == p
  }

  /** Prefix test under the `/i` flag. */
  predicate StartsWithI(s: string, p: string) {
    |p| <= |s| && UpperStr(s[..|p|]) == UpperStr(p)
  }

  lemma StartsWithIConcat(s: string, t: string, p: string)
    requires StartsWithI(s, p)
    ensures StartsWithI(s + t, p)
  {
    assert (s + t)[..|p|] == s[..|p|];
  }

  /** The literal `w`, in either case, at position `q`: the end of the match. */
  function WordAt(s: string, q: nat, w: string): (e: Option<nat>)
    requires q <= |s|
    ensures e.Some? ==> e.value == q + |w| <= |s|
  {
    if StartsWithI(s[q..], w) then Some(q + |w|) else None
  }

  /** `\s+` at position `q`: the end of the run. */
  function SpacesAt(s: string, q: nat): (e: Option<nat>)
    requires q <= |s|
    ensures e.Some? ==> q < e.value <= |s|
  {
    var w := SpanWhile(s, q, IsSpace);
    if w == q then None else Some(w)
  }

  predicate AllDigits(s: string) {
    forall k :: 0 <= k < |s| ==> IsDigit(s[k])
  }

  /** `s.includes(p)`. */
  predicate Contains(s: string, p: string)
    decreases |s|
  {
    StartsWith(s, p) || (s != [] && Contains(s[1..], p))
  }

  /** `/p/i.test(s)`. */
  predicate ContainsI(s: string, p: string)
    decreases |s|
  {
    StartsWithI(s, p) || (s != [] && ContainsI(s[1..], p))
  }

  /** `/\d/.test(s)`. */
  predicate HasDigit(s: string) {
    s != [] && (IsDigit(s[0]) || HasDigit(s[1..]))
  }

  lemma {:induction false} HasDigitAt(s: string)
    ensures HasDigit(s) <==> exists k :: 0 <= k < |s| && IsDigit(s[k])
  {
    if s != [] {
      HasDigitAt(s[1..]);
      assert forall k :: 1 <= k < |s| ==> s[k] == s[1..][k - 1];
      if HasDigit(s[1..]) {
        var k :| 0 <= k < |s[1..]| && IsDigit(s[1..][k]);
        assert IsDigit(s[k + 1]);
      }
    }
  }

  /** `s.split(sep)` for a one-character separator. */
  function Split(s: string, sep: char): (parts: seq<string>)
    ensures |parts| >= 1
    ensures forall k :: 0 <= k < |parts| ==> sep !in parts[k]
  {
    if s == [] then [[]]
    else
      var rest := Split(s[1..], sep);
      if s[0] == sep then [[]] + rest else [[s[0]] + rest[0]] + rest[1..]
  }

  /** A text without the separator splits into itself. */
  lemma {:induction false} SplitNoSep(s: string, sep: char)
    requires sep !in s
    ensures Split(s, sep) == [s]
  {
    if s != [] {
      assert sep !in s[1..];
      SplitNoSep(s[1..], sep);
      assert [s[0]] + s[1..] == s;
    }
  }

  /** The first separator ends the first part. */
  lemma {:induction false} SplitAt(x: string, y: string, sep: char)
    requires sep !in x
    ensures Split(x + [sep] + y, sep) == [x] + Split(y, sep)
  {
    if x == [] {
      assert x + [sep] + y == [sep] + y;
      assert ([sep] + y)[1..] == y;
    } else {
      assert (x + [sep] + y)[1..] == x[1..] + [sep] + y;
      assert sep !in x[1..];
      SplitAt(x[1..], y, sep);
      assert [x[0]] + x[1..] == x;
    }
  }

  /** A text with one separator splits into the two sides. */
  lemma SplitTwo(x: string, y: string, sep: char)
    requires sep !in x && sep !in y
    ensures Split(x + [sep] + y, sep) == [x, y]
  {
    SplitAt(x, y, sep);
    SplitNoSep(y, sep);
  }

  /** `parts.join(sep)`. */
  function Join(parts: seq<string>, sep: string): string {
    if |parts| == 0 then []
    else if |parts| == 1 then parts[0]
    else parts[0] + sep + Join(parts[1..], sep)
  }

  lemma JoinThree(a: string, b: string, c: string, sep: string)
    ensures Join([a, b, c], sep) == a + sep + (b + sep + c)
  {
    assert [a, b, c][1..] == [b, c];
    assert [b, c][1..] == [c];
    assert Join([b, c], sep) == b + sep + c;
  }

  /** A join whose first part is not empty is not empty. */
  lemma JoinNonEmpty(ss: seq<string>, sep: string)
    requires ss != [] && ss[0] != []
    ensures Join(ss, sep) != ""
  {
    if |ss| > 1 {
      assert Join(ss, sep) == ss[0] + sep + Join(ss[1..], sep);
    }
  }

  /** Splitting and joining again with the same separator gives back the input. */
  lemma {:induction false} JoinSplit(s: string, sep: char)
    ensures Join(Split(s, sep), [sep]) == s
  {
    if s != [] {
      var rest := Split(s[1..], sep);
      JoinSplit(s[1..], sep);
      if s[0] == sep {
        assert Split(s, sep) == [[]] + rest;
      } else {
        var parts := [[s[0]] + rest[0]] + rest[1..];
        assert Split(s, sep) == parts;
        if |rest| == 1 {
          assert Join(parts, [sep]) == [s[0]] + rest[0];
        } else {
          assert parts[1..] == rest[1..];
          assert Join(parts, [sep]) == [s[0]] + rest[0] + [sep] + Join(rest[1..], [sep]);
          assert Join(rest, [sep]) == rest[0] + [sep] + Join(rest[1..], [sep]);
        }
      }
    }
  }

  /** `s.replace(new RegExp(p, "g"), r)` for a literal, non-empty pattern: leftmost, non-overlapping. */
  function ReplaceAll(s: string, p: string, r: string): string
    requires |p| > 0
    decreases |s|
  {
    if |s| < |p| then s
    else if s[..|p|] == p then r + ReplaceAll(s[|p|..], p, r)
    else [s[0]] + ReplaceAll(s[1..], p, r)
  }

  /** With no occurrence of the pattern, a replacement changes nothing. */
  lemma {:induction false} ReplaceAllAbsent(s: string, p: string, r: string)
    requires |p| > 0 && !Contains(s, p)
    ensures ReplaceAll(s, p, r) == s
  {
    if |s| >= |p| {
      ReplaceAllAbsent(s[1..], p, r);
    }
  }

  /** A replacement that is no longer than its pattern never lengthens the text. */
  lemma {:induction false} ReplaceAllShorter(s: string, p: string, r: string)
    requires |p| > 0 && |r| <= |p|
    ensures |ReplaceAll(s, p, r)| <= |s|
  {
    if |s| >= |p| {
      if s[..|p|] == p {
        ReplaceAllShorter(s[|p|..], p, r);
      } else {
        ReplaceAllShorter(s[1..], p, r);
      }
    }
  }

  /** `s.replace(/[cs]/g, "")`. */
  function RemoveChars(s: string, cs: set<char>): (r: string)
    ensures forall k :: 0 <= k < |r| ==> r[k] !in cs
    ensures |r| <= |s|
  {
    if s == [] then []
    else if s[0] in cs then RemoveChars(s[1..], cs)
    else [s[0]] + RemoveChars(s[1..], cs)
  }

  lemma {:induction false} RemoveCharsNone(s: string, cs: set<char>)
    requires forall k :: 0 <= k < |s| ==> s[k] !in cs
    ensures RemoveChars(s, cs) == s
  {
    if s != [] {
      RemoveCharsNone(s[1..], cs);
      assert [s[0]] + s[1..] == s;
    }
  }

  lemma {:induction false} RemoveCharsConcat(x: string, y: string, cs: set<char>)
    ensures RemoveChars(x + y, cs) == RemoveChars(x, cs) + RemoveChars(y, cs)
  {
    if x == [] {
      assert x + y == y;
    } else {
      assert (x + y)[1..] == x[1..] + y;
      RemoveCharsConcat(x[1..], y, cs);
    }
  }

  /** `s.replace(/\s+/g, " ")`: each maximal whitespace run becomes one space. */
  function CollapseSpaces(s: string): (r: string)
  {
    if s == [] then []
    else if IsSpace(s[0]) && |s| > 1 && IsSpace(s[1]) then CollapseSpaces(s[1..])
    else if IsSpace(s[0]) then " " + CollapseSpaces(s[1..])
    else [s[0]] + CollapseSpaces(s[1..])
  }

  /** `c.repeat(n)`. */
  function Repeat(c: char, n: nat): (r: string)
    ensures |r| == n && forall k :: 0 <= k < n ==> r[k] == c
  {
    if n == 0 then [] else [c] + Repeat(c, n - 1)
  }

  function DigitChar(d: nat): char
    requires d < 10
  {
    "0123456789"[d]
  }

  /** Decimal rendering of a natural number, as a template literal prints it. */
  function NatToString(n: nat): (r: string)
    ensures |r| > 0 && forall k :: 0 <= k < |r| ==> IsDigit(r[k])
  {
    if n < 10 then [DigitChar(n)] else NatToString(n / 10) + [DigitChar(n % 10)]
  }

  /** Value of a decimal digit string, as `parseInt` reads it. */
  function DigitsValue(s: string): nat
    requires forall k :: 0 <= k < |s| ==> IsDigit(s[k])
  {
    if s == [] then 0
    else
      assert IsDigit(s[|s| - 1]);
      10 * DigitsValue(s[..|s| - 1]) + (s[|s| - 1] as int - '0' as int)
  }

  /** Reading back a rendered number gives the number. */
  lemma {:induction false} DigitsOfNat(n: nat)
    ensures DigitsValue(NatToString(n)) == n
  {
    var r := NatToString(n);
    var d := DigitChar(n % 10);
    assert d as int - '0' as int == n % 10 by {
      var k := n % 10;
      assert k == 0 || k == 1 || k == 2 || k == 3 || k == 4 || k == 5 || k == 6 || k == 7 || k == 8 || k == 9;
    }
    if n >= 10 {
      DigitsOfNat(n / 10);
      assert r[..|r| - 1] == NatToString(n / 10);
    }
  }

  /** The number of digits of a rendered number. */
  lemma NatToStringLength(n: nat)
    ensures n < 10 ==> |NatToString(n)| == 1
    ensures 10 <= n < 100 ==> |NatToString(n)| == 2
    ensures 1000 <= n < 10000 ==> |NatToString(n)| == 4
  {
    if n >= 10 {
      var m := n / 10;
      if m >= 10 {
        var m2 := m / 10;
        if m2 >= 10 {
          assert |NatToString(m2)| == 1 + |NatToString(m2 / 10)|;
        }
        assert |NatToString(m)| == 1 + |NatToString(m2)|;
      }
    }
  }

  /** `s.lastIndexOf(c)`. */
  function LastIndexOfChar(s: string, c: char): (k: int)
    ensures -1 <= k < |s|
    ensures k >= 0 ==> s[k] == c
    ensures forall j :: k < j < |s| ==> s[j] != c
  {
    if s == [] then -1
    else if s[|s| - 1] == c then |s| - 1
    else LastIndexOfChar(s[..|s| - 1], c)
  }

  // ---------------------------------------------------------------------------
  // Sequences
  // ---------------------------------------------------------------------------

  /** `f(0)`, ..., `f(n - 1)`, built one element at a time. */
  function Table<T>(n: nat, f: nat --> T): (r: seq<T>)
    requires forall k: nat :: k < n ==> f.requires(k)
    ensures |r| == n
  {
    if n == 0 then [] else Table(n - 1, f) + [f(n - 1)]
  }

  /** The `k`-th element of a table is `f(k)`. */
  lemma {:induction false} TableAt<T>(n: nat, f: nat --> T, k: nat)
    requires forall k: nat :: k < n ==> f.requires(k)
    requires k < n
    ensures Table(n, f)[k] == f(k)
  {
    if k < n - 1 {
      TableAt(n - 1, f, k);
    }
  }

  /** `f` applied to every element, in order. */
  function MapSeq<A, B>(xs: seq<A>, f: A -> B): (ys: seq<B>)
    ensures |ys| == |xs|
  {
    if xs == [] then [] else [f(xs[0])] + MapSeq(xs[1..], f)
  }

  lemma MapOne<A, B>(x: A, f: A -> B)
    ensures MapSeq([x], f) == [f(x)]
  {
    assert [x][1..] == [];
  }

  lemma MapTwo<A, B>(x: A, y: A, f: A -> B)
    ensures MapSeq([x, y], f) == [f(x), f(y)]
  {
    assert [x, y][1..] == [y];
    MapOne(y, f);
  }

  lemma {:induction false} MapSnoc<A, B>(xs: seq<A>, x: A, f: A -> B)
    ensures MapSeq(xs + [x], f) == MapSeq(xs, f) + [f(x)]
    decreases |xs|
  {
    if xs == [] {
      MapOne(x, f);
    } else {
      assert (xs + [x])[1..] == xs[1..] + [x];
      MapSnoc(xs[1..], x, f);
    }
  }

  lemma {:induction false} MapAt<A, B>(xs: seq<A>, f: A -> B, i: nat)
    requires i < |xs|
    ensures MapSeq(xs, f)[i] == f(xs[i])
  {
    if i > 0 {
      MapAt(xs[1..], f, i - 1);
    }
  }

  lemma Assoc<T>(a: seq<T>, b: seq<T>, c: seq<T>)
    ensures a + (b + c) == (a + b) + c
  {
  }

  lemma {:induction false} MapConcat<A, B>(xs: seq<A>, ys: seq<A>, f: A -> B)
    ensures MapSeq(xs + ys, f) == MapSeq(xs, f) + MapSeq(ys, f)
    decreases |xs|
  {
    if xs == [] {
      assert xs + ys == ys;
    } else {
      assert (xs + ys)[1..] == xs[1..] + ys;
      MapConcat(xs[1..], ys, f);
    }
  }

  /** The first index at or after `p` whose entry is present: a leftmost search. */
  function FirstSome<T>(ms: seq<Option<T>>, p: nat): (r: Option<nat>)
    requires p <= |ms|
    ensures r.Some? ==> p <= r.value < |ms| && ms[r.value].Some?
    ensures r.Some? ==> forall k :: p <= k < r.value ==> ms[k].None?
    ensures r.None? <==> forall k :: p <= k < |ms| ==> ms[k].None?
    decreases |ms| - p
  {
    if p == |ms| then None
    else if ms[p].Some? then Some(p)
    else FirstSome(ms, p + 1)
  }

  /** The search finds `k` when `k` is present and nothing before it is. */
  lemma FirstSomeAt<T>(ms: seq<Option<T>>, p: nat, k: nat)
    requires p <= k < |ms| && ms[k].Some?
    requires forall j :: p <= j < k ==> ms[j].None?
    ensures FirstSome(ms, p) == Some(k)
  {
    var r := FirstSome(ms, p);
    assert r.Some?;
  }
}
