/**
 * The reference normaliser of the matching engine: a citation such as
 * "I. Kor. 12, 1—11" or "Mat. 22, 37—46" becomes the canonical key
 * "1Kor 12,1-11" / "Mt 22,37-46" that both the readings page and the postil
 * table are keyed by; and the extraction of such keys from the `##` reading
 * headings of the readings page.
 */
module BiblicalRefs {
  import opened Text

  /**
   * The alias table `BOOK_ALIASES`: the canonical abbreviation a lower-case
   * book token (without its trailing dot) stands for, or None for a token the
   * table does not list. The table's 95 keys are distinct, so a lookup is a
   * case distinction on the key; the cases are grouped by the key's first
   * letter (in the table's order within each group), which keeps every
   * lookup's proof short.
   */
  function BookAlias(key: string): Option<string>
  {
    if key == [] then None
    else match key[0]
    case 'g' => (
      match key
      case "gn" => Some("Gn")
      case "gen" => Some("Gn")
      case "gal" => Some("Gal")
      case _ => None)
    case 'e' => (
      match key
      case "ex" => Some("Ex")
      case "ezd" => Some("Ezd")
      case "est" => Some("Est")
      case "ez" => Some("Ez")
      case "ef" => Some("Ef")
      case _ => None)
    case 'l' => (
      match key
      case "lv" => Some("Lv")
      case "lev" => Some("Lv")
      case "lk" => Some("Lk")
      case "l" => Some("Lk")
      case "luk" => Some("Lk")
      case _ => None)
    case 'n' => (
      match key
      case "nm" => Some("Nm")
      case "num" => Some("Nm")
      case "neh" => Some("Neh")
      case "na" => Some("Na")
      case "nah" => Some("Na")
      case _ => None)
    case 'd' => (
      match key
      case "dt" => Some("Dt")
      case "deut" => Some("Dt")
      case "dan" => Some("Dan")
      case _ => None)
    case 'j' => (
      match key
      case "joz" => Some("Joz")
      case "jdt" => Some("Jdt")
      case "job" => Some("Job")
      case "jób" => Some("Job")
      case "jr" => Some("Jr")
      case "jer" => Some("Jr")
      case "jl" => Some("Jl")
      case "joel" => Some("Jl")
      case "jon" => Some("Jon")
      case "j" => Some("J")
      case "jan" => Some("J")
      case "jk" => Some("Jk")
      case "jak" => Some("Jk")
      case "jud" => Some("Jud")
      case _ => None)
    case 's' => (
      match key
      case "sd" => Some("Sd")
      case "sam" => Some("Sam")
      case "sír" => Some("Sír")
      case "sir" => Some("Sír")
      case "sof" => Some("Sof")
      case "sk" => Some("Sk")
      case "sol" => Some("Sol")
      case _ => None)
    case 'r' => (
      match key
      case "rt" => Some("Rt")
      case "rút" => Some("Rt")
      case _ => None)
    case 'k' => (
      match key
      case "král" => Some("Král")
      case "kr" => Some("Král")
      case "kaz" => Some("Kaz")
      case "kor" => Some("Kor")
      case "kol" => Some("Kol")
      case _ => None)
    case 'p' => (
      match key
      case "pa" => Some("Pa")
      case "par" => Some("Pa")
      case "př" => Some("Př")
      case "přísl" => Some("Př")
      case "pís" => Some("Pís")
      case "pláč" => Some("Pláč")
      case "pt" => Some("Pt")
      case "petr" => Some("Pt")
      case _ => None)
    case 't' => (
      match key
      case "tob" => Some("Tob")
      case "tes" => Some("Sol")
      case "tim" => Some("Tim")
      case "tt" => Some("Tt")
      case "tit" => Some("Tt")
      case _ => None)
    case 'ž' => (
      match key
      case "ž" => Some("Ž")
      case "žalm" => Some("Ž")
      case "žal" => Some("Ž")
      case "žd" => Some("Žd")
      case "žid" => Some("Žd")
      case _ => None)
    case 'm' => (
      match key
      case "mdr" => Some("Mdr")
      case "mudr" => Some("Mdr")
      case "mi" => Some("Mi")
      case "mich" => Some("Mi")
      case "mal" => Some("Mal")
      case "mak" => Some("Mak")
      case "mt" => Some("Mt")
      case "mat" => Some("Mt")
      case "mk" => Some("Mk")
      case "mar" => Some("Mk")
      case _ => None)
    case 'i' => (
      match key
      case "iz" => Some("Iz")
      case _ => None)
    case 'b' => (
      match key
      case "bar" => Some("Bar")
      case _ => None)
    case 'o' => (
      match key
      case "oz" => Some("Oz")
      case _ => None)
    case 'a' => (
      match key
      case "am" => Some("Am")
      case "abd" => Some("Abd")
      case "ag" => Some("Ag")
      case _ => None)
    case 'h' => (
      match key
      case "hab" => Some("Hab")
      case _ => None)
    case 'z' => (
      match key
      case "za" => Some("Za")
      case "zach" => Some("Za")
      case "zj" => Some("Zj")
      case "zjev" => Some("Zj")
      case _ => None)
    case 'ř' => (
      match key
      case "ř" => Some("Ř")
      case "řím" => Some("Ř")
      case _ => None)
    case 'f' => (
      match key
      case "fp" => Some("Fp")
      case "fil" => Some("Fp")
      case "filip" => Some("Fp")
      case "fm" => Some("Fm")
      case "filem" => Some("Fm")
      case _ => None)
    case _ => None
  }

  /** The canonical abbreviations: the values of the alias table, by the table's five groups. */
  const CanonicalBooks: seq<string> :=
    LawAndHistories + WisdomBooks + Prophets + GospelsAndActs + Letters

  const LawAndHistories: seq<string> := ["Gn", "Ex", "Lv", "Nm", "Dt", "Joz", "Sd", "Rt", "Sam", "Král", "Pa", "Ezd", "Neh", "Tob", "Jdt", "Est"]
  const WisdomBooks: seq<string> := ["Job", "Ž", "Př", "Kaz", "Pís", "Mdr", "Sír"]
  const Prophets: seq<string> := ["Iz", "Jr", "Pláč", "Bar", "Ez", "Dan", "Oz", "Jl", "Am", "Abd", "Jon", "Mi", "Na", "Hab", "Sof", "Ag", "Za", "Mal", "Mak"]
  const GospelsAndActs: seq<string> := ["Mt", "Mk", "Lk", "J", "Sk"]
  const Letters: seq<string> := ["Ř", "Kor", "Gal", "Ef", "Fp", "Kol", "Sol", "Tim", "Tt", "Fm", "Žd", "Jk", "Pt", "Jud", "Zj"]

  // ---------------------------------------------------------------------------
  // Scanners for the normaliser's patterns (shared with the older normaliser)
  // ---------------------------------------------------------------------------

  predicate IsRomanChar(c: char) { c == 'I' || c == 'V' || c == 'X' || c == 'i' || c == 'v' || c == 'x' }

  /** A letter of the book-name class `[A-ZŽŘČŠa-zžřčšůúýáéíóďťňě]` under `/i`. */
  predicate IsBookLetter(c: char) {
    ('a' <= c <= 'z') || ('A' <= c <= 'Z') || IsCzechLower(c) || IsCzechUpper(c)
  }

  predicate IsDash(c: char) { c == '—' || c == '–' }

  /**
   * `/^1z\b/i` replaced by "Iz": a leading "1z" that the OCR made of "Iz",
   * provided no word character follows.
   */
  function FixLeadingIz(ref: string): (r: string)
    ensures |r| == |ref|
    ensures r != ref <==> (|ref| >= 2 && ref[0] == '1' && (ref[1] == 'z' || ref[1] == 'Z')
                           && (|ref| == 2 || !IsWordChar(ref[2])))
    ensures r != ref ==> r == "Iz" + ref[2..]
  {
    if |ref| >= 2 && ref[0] == '1' && (ref[1] == 'z' || ref[1] == 'Z')
       && (|ref| == 2 || !IsWordChar(ref[2]))
    then "Iz" + ref[2..]
    else ref
  }

  /** End of the numeral alternative `[IVX]+\.?|<digits>` at the start of `ref`, or 0 when neither applies. */
  function NumeralEnd(ref: string, digits: string): (p: nat)
    ensures p <= |ref|
  {
    if ref == [] then 0
    else if IsRomanChar(ref[0]) then
      var r := SpanWhile(ref, 0, IsRomanChar);
      if r < |ref| && ref[r] == '.' then r + 1 else r
    else if ref[0] in digits then 1
    else 0
  }

  /** `\s+(.+)$` from position `p`: the captured text, if the rest of `ref` has that shape. */
  function SpaceThenLine(ref: string, p: nat): (m: Option<string>)
    requires p <= |ref|
    ensures m.Some? ==> m.value != [] && NoLineTerminator(m.value)
  {
    var w := SpanWhile(ref, p, IsSpace);
    if w == p then None
    else if w < |ref| then
      if NoLineTerminator(ref[w..]) then Some(ref[w..]) else None
    else if w - p >= 2 && !IsLineTerminator(ref[w - 1]) then
      assert ref[w - 1..] == [ref[w - 1]];
      Some(ref[w - 1..])
    else None
  }

  /**
   * `/^([IVX]+\.?|<digits>)\s+(.+)$/i`: on a match, the numeral with its dot
   * removed and the captured rest. `.` stops at line terminators and `$` is the
   * end of the input.
   */
  function MatchNumbered(ref: string, digits: string): (m: Option<(string, string)>)
    ensures m.Some? ==> m.value.1 != [] && NoLineTerminator(m.value.1)
  {
    var p := NumeralEnd(ref, digits);
    if p == 0 then None
    else
      match SpaceThenLine(ref, p)
      case None => None
      case Some(rest) => Some((if ref[p - 1] == '.' then ref[..p - 1] else ref[..p], rest))
  }

  /**
   * `/^([book letters]+\.?)\s*(.*)$/i`: on a match, the book token (with its
   * dot, if any) and the rest after the whitespace that follows it.
   */
  function MatchBook(rest: string): (m: Option<(string, string)>)
  {
    if rest == [] || !IsBookLetter(rest[0]) then None
    else
      var p := BookTokenEnd(rest);
      var w := SpanWhile(rest, p, IsSpace);
      if NoLineTerminator(rest[w..]) then Some((rest[..p], rest[w..])) else None
  }

  /** End of the book token: the letter run plus one dot if a dot follows it. */
  function BookTokenEnd(rest: string): (p: nat)
    ensures p <= |rest|
  {
    var l := SpanWhile(rest, 0, IsBookLetter);
    if l < |rest| && rest[l] == '.' then l + 1 else l
  }

  /** The digit string a matched numeral stands for: I-V or 1-5 exactly, anything else "". */
  function NumeralPrefix(num: string): (prefix: string)
    ensures prefix in {"", "1", "2", "3", "4", "5"}
  {
    if num == "I" || num == "1" then "1"
    else if num == "II" || num == "2" then "2"
    else if num == "III" || num == "3" then "3"
    else if num == "IV" || num == "4" then "4"
    else if num == "V" || num == "5" then "5"
    else ""
  }

  /** Canonical book for a token: alias lookup on the lower-cased, dot-free token, else the token without its dot. */
  function LookupBook(token: string): (book: string)
    ensures BookAlias(StripTrailingDot(LowerStr(token))).Some? ==> book == BookAlias(StripTrailingDot(LowerStr(token))).value
    ensures BookAlias(StripTrailingDot(LowerStr(token))).None? ==> book == StripTrailingDot(token)
  {
    match BookAlias(StripTrailingDot(LowerStr(token)))
    case Some(canonical) => canonical
    case None => StripTrailingDot(token)
  }

  function RemoveSpaces(s: string): string {
    if s == [] then []
    else if IsSpace(s[0]) then RemoveSpaces(s[1..])
    else [s[0]] + RemoveSpaces(s[1..])
  }

  /** `s.replace(/[—–]+/g, "-")`: each maximal run of en/em dashes becomes one "-". */
  function CollapseDashes(s: string): string {
    if s == [] then []
    else if IsDash(s[0]) && |s| > 1 && IsDash(s[1]) then CollapseDashes(s[1..])
    else if IsDash(s[0]) then "-" + CollapseDashes(s[1..])
    else [s[0]] + CollapseDashes(s[1..])
  }

  /** No whitespace survives the removal. */
  lemma {:induction false} RemoveSpacesClean(s: string)
    ensures forall k :: 0 <= k < |RemoveSpaces(s)| ==> !IsSpace(RemoveSpaces(s)[k])
  {
    if s != [] {
      RemoveSpacesClean(s[1..]);
    }
  }

  /** No en/em dash survives the collapse, and it brings in no whitespace. */
  lemma {:induction false} CollapseDashesClean(s: string)
    ensures forall k :: 0 <= k < |CollapseDashes(s)| ==> !IsDash(CollapseDashes(s)[k])
    ensures (forall k :: 0 <= k < |s| ==> !IsSpace(s[k])) ==> forall k :: 0 <= k < |CollapseDashes(s)| ==> !IsSpace(CollapseDashes(s)[k])
  {
    if s != [] {
      CollapseDashesClean(s[1..]);
      assert forall k :: 1 <= k < |s| ==> s[1..][k - 1] == s[k];
    }
  }

  /** The chapter/verse clean-up: whitespace removed, en/em-dash runs to "-", one trailing dot dropped. */
  function NormalizeCv(cv: string): (r: string)
    ensures forall k :: 0 <= k < |r| ==> !IsSpace(r[k]) && !IsDash(r[k])
  {
    var d := CollapseDashes(RemoveSpaces(cv));
    RemoveSpacesClean(cv);
    CollapseDashesClean(RemoveSpaces(cv));
    assert forall k :: 0 <= k < |StripTrailingDot(d)| ==> StripTrailingDot(d)[k] == d[k];
    StripTrailingDot(d)
  }

  /** The canonical key: prefix glued to the book, then " " and the chapter/verse part when there is one. */
  function Render(prefix: string, book: string, cv: string): string {
    if cv == [] then prefix + book else prefix + book + " " + cv
  }

  function Numbered(ref: string): Option<(string, string)> {
    MatchNumbered(ref, "12345")
  }

  /** The first steps of `normalizeBiblicalRef`: trim, drop one trailing dot, repair a leading "1z". */
  function Prepare(raw: string): string {
    FixLeadingIz(StripTrailingDot(Trim(raw)))
  }

  /** The numeral prefix ("" when there is none or it is unmapped) and the text the book pattern sees. */
  function SplitPrefix(ref: string): (string, string) {
    match Numbered(ref)
    case None => ("", ref)
    case Some((num, rest)) => (NumeralPrefix(num), rest)
  }

  /** The book pattern and the rendering; without a book token, the trimmed input comes back. */
  function FromBook(raw: string, prefix: string, rest: string): string {
    match MatchBook(rest)
    case None => Trim(raw)
    case Some((token, cv)) => Render(prefix, LookupBook(token), NormalizeCv(cv))
  }

  /** `normalizeBiblicalRef`. */
  function Normalize(raw: string): string {
    var (prefix, rest) := SplitPrefix(Prepare(raw));
    FromBook(raw, prefix, rest)
  }

  // ---------------------------------------------------------------------------
  // Properties of the normaliser
  // ---------------------------------------------------------------------------

  predicate AllRoman(s: string) {
    forall k :: 0 <= k < |s| ==> IsRomanChar(s[k])
  }

  predicate AllBookLetters(s: string) {
    forall k :: 0 <= k < |s| ==> IsBookLetter(s[k])
  }

  /** A numeral the numbered pattern accepts: a run of I/V/X (either case) with an optional dot, or one of `digits`. */
  predicate IsNumeral(n: string, digits: string) {
    (|n| == 1 && n[0] in digits && IsDigit(n[0]))
    || (n != [] && AllRoman(n))
    || (|n| >= 2 && n[|n| - 1] == '.' && AllRoman(n[..|n| - 1]))
  }

  /** `replace(".", "")` on a numeral: its one dot removed. */
  function DropDot(n: string): string {
    if n != [] && n[|n| - 1] == '.' then n[..|n| - 1] else n
  }

  lemma {:induction false} NoLineTerminatorSlice(s: string, i: nat, j: nat)
    requires i <= j <= |s| && NoLineTerminator(s)
    ensures NoLineTerminator(s[i..j])
  {
    NoLineTerminatorAt(s);
    NoLineTerminatorAt(s[i..j]);
  }

  /** The numbered pattern splits "numeral, whitespace, text" exactly there. */
  lemma {:induction false} NumberedSplits(n: string, ws: string, t: string, digits: string)
    requires IsNumeral(n, digits)
    requires ws != [] && AllSpace(ws)
    requires t != [] && !IsSpace(t[0]) && NoLineTerminator(t)
    ensures MatchNumbered(n + ws + t, digits) == Some((DropDot(n), t))
  {
    var x := n + ws + t;
    assert x[..|n|] == n;
    NumeralEndOf(n, ws + t, digits);
    assert x == n + (ws + t);
    SpanWhileStops(x, |n|, |n| + |ws|, IsSpace);
    assert x[|n| + |ws|..] == t;
    assert SpaceThenLine(x, |n|) == Some(t);
    assert x[..|n| - 1] == n[..|n| - 1];
    assert x[|n| - 1] == n[|n| - 1];
  }

  lemma {:induction false} NumeralEndOf(n: string, y: string, digits: string)
    requires IsNumeral(n, digits)
    requires y != [] && IsSpace(y[0])
    ensures NumeralEnd(n + y, digits) == |n|
  {
    var x := n + y;
    if IsRomanChar(x[0]) {
      var r := |DropDot(n)|;
      assert AllRoman(DropDot(n));
      assert forall k :: 0 <= k < r ==> x[k] == n[k];
      assert x[r] == '.' || x[r] == y[0];
      SpanWhileStops(x, 0, r, IsRomanChar);
    }
  }

  /** The part of a reference the book pattern sees once the numeral is gone. */
  function BookCore(t: string): string {
    StripTrailingDot(TrimRight(t))
  }

  /** A text that starts with a book letter and has no line break keeps a non-empty core that starts the same way. */
  lemma {:induction false} BookCoreShape(t: string)
    requires t != [] && !IsSpace(t[0]) && t[0] != '.' && NoLineTerminator(t)
    ensures BookCore(t) != [] && BookCore(t)[0] == t[0] && NoLineTerminator(BookCore(t))
    ensures BookCore(t) == t[..|BookCore(t)|]
    ensures TrimRight(t) != [] && BookCore(t) == StripTrailingDot(TrimRight(t))
  {
    var tr := TrimRight(t);
    TrimRightSlice(t);
    TrimRightKeepsNonSpace(t);
    var c := StripTrailingDot(tr);
    assert c == tr[..|c|] && tr == t[..|tr|];
    assert c == t[..|c|];
    NoLineTerminatorSlice(t, 0, |c|);
  }

  /** Preparing "numeral, whitespace, text" leaves the numeral and whitespace alone. */
  lemma {:induction false} PrepareGlued(n: string, ws: string, t: string)
    requires IsNumeral(n, "12345")
    requires ws != [] && AllSpace(ws)
    requires t != [] && !IsSpace(t[0]) && t[0] != '.' && NoLineTerminator(t)
    ensures Prepare(n + ws + t) == n + ws + BookCore(t)
  {
    BookCoreShape(t);
    var x := n + ws + t;
    var y := n + ws + BookCore(t);
    assert !IsSpace(n[0]);
    TrimFromNonSpace(n + ws, t);
    StripTrailingDotConcat(n + ws, TrimRight(t));
    assert StripTrailingDot(Trim(x)) == y;
    NumeralNoIz(n, ws, BookCore(t));
  }

  /** A numeral and whitespace in front are never read as the "1z" of Izaiáš. */
  lemma NumeralNoIz(n: string, ws: string, rest: string)
    requires IsNumeral(n, "12345")
    requires ws != [] && AllSpace(ws)
    ensures FixLeadingIz(n + ws + rest) == n + ws + rest
  {
    var y := n + ws + rest;
    if n[0] == '1' {
      assert !(n != [] && AllRoman(n));
      assert |n| == 1;
      assert y[1] == ws[0];
    }
  }

  /**
   * A numeral I-V or 1-5 followed by whitespace becomes the digit glued to the
   * normalised rest; any other numeral the pattern accepts ("VI", "ii") is dropped.
   */
  lemma {:induction false} NormalizePrefixGlued(n: string, ws: string, t: string)
    requires IsNumeral(n, "12345")
    requires ws != [] && AllSpace(ws)
    requires t != [] && IsBookLetter(t[0]) && NoLineTerminator(t)
    requires Numbered(BookCore(t)).None?
    ensures Normalize(n + ws + t) == NumeralPrefix(DropDot(n)) + Normalize(t)
  {
    BookCoreShape(t);
    var c := BookCore(t);
    PrepareGlued(n, ws, t);
    NumberedSplits(n, ws, c, "12345");
    PrepareBookFirst(t);
    BookMatchesCore(t);
    FromBookPrefix(n + ws + t, t, NumeralPrefix(DropDot(n)), c);
  }

  /** A text that starts with a book letter is prepared to its core. */
  lemma {:induction false} PrepareBookFirst(t: string)
    requires t != [] && IsBookLetter(t[0]) && NoLineTerminator(t)
    ensures Prepare(t) == BookCore(t)
  {
    BookCoreShape(t);
    assert TrimLeft(t) == t;
    var c := BookCore(t);
    assert FixLeadingIz(c) == c;
  }

  /** The book pattern matches the core of a text that starts with a book letter. */
  lemma {:induction false} BookMatchesCore(t: string)
    requires t != [] && IsBookLetter(t[0]) && NoLineTerminator(t)
    ensures MatchBook(BookCore(t)).Some?
  {
    CharClassFacts(t[0]);
    BookCoreShape(t);
    var c := BookCore(t);
    var w := SpanWhile(c, BookTokenEnd(c), IsSpace);
    NoLineTerminatorSlice(c, w, |c|);
    assert c[w..|c|] == c[w..];
    assert IsBookLetter(c[0]);
  }

  /** Once a book token is found, the prefix is simply glued in front. */
  lemma FromBookPrefix(raw1: string, raw2: string, prefix: string, rest: string)
    requires MatchBook(rest).Some?
    ensures FromBook(raw1, prefix, rest) == prefix + FromBook(raw2, "", rest)
  {
    var (token, cv) := MatchBook(rest).value;
    RenderPrefix(prefix, LookupBook(token), NormalizeCv(cv));
  }

  lemma RenderPrefix(prefix: string, book: string, cv: string)
    ensures Render(prefix, book, cv) == prefix + Render("", book, cv)
  {
    assert "" + book == book;
    assert prefix + book + " " + cv == prefix + (book + " " + cv);
  }

  /** The book pattern splits "letters, optional dot, whitespace, rest" exactly there. */
  lemma {:induction false} MatchBookShape(b: string, d: string, sp: string, c: string)
    requires b != [] && AllBookLetters(b)
    requires d == "" || d == "."
    requires AllSpace(sp)
    requires c == [] || !IsSpace(c[0])
    requires NoLineTerminator(c)
    requires d == "" && sp == [] && c != [] ==> !IsBookLetter(c[0]) && c[0] != '.'
    ensures MatchBook(b + d + sp + c).Some? && MatchBook(b + d + sp + c).value == (b + d, c)
  {
    var x := b + d + sp + c;
    var p := |b| + |d|;
    var w := p + |sp|;
    if d == "" && sp != [] {
      CharClassFacts(sp[0]);
    }
    assert x == b + d + (sp + c);
    BookTokenOf(b, d, sp + c);
    assert x == (b + d) + sp + c;
    SpacesThen(b + d, sp, c);
    assert x[0] == b[0];
  }

  /** The book token of "letters, optional dot, rest" ends after the dot. */
  lemma BookTokenOf(b: string, d: string, r: string)
    requires b != [] && AllBookLetters(b)
    requires d == "" || d == "."
    requires d == "" && r != [] ==> !IsBookLetter(r[0]) && r[0] != '.'
    ensures BookTokenEnd(b + d + r) == |b| + |d|
  {
    var x := b + d + r;
    assert forall k :: 0 <= k < |b| ==> x[k] == b[k];
    assert |b| < |x| ==> x[|b|] == (if d != [] then '.' else r[0]);
    SpanWhileStops(x, 0, |b|, IsBookLetter);
  }

  /** Whitespace after a prefix is skipped up to a non-space rest. */
  lemma SpacesThen(u: string, sp: string, c: string)
    requires AllSpace(sp)
    requires c == [] || !IsSpace(c[0])
    ensures SpanWhile(u + sp + c, |u|, IsSpace) == |u| + |sp|
    ensures (u + sp + c)[|u| + |sp|..] == c && (u + sp + c)[..|u|] == u
  {
    var x := u + sp + c;
    assert forall k :: |u| <= k < |u| + |sp| ==> x[k] == sp[k - |u|];
    SpanWhileStops(x, |u|, |u| + |sp|, IsSpace);
  }

  /** How the character classes of the patterns relate. */
  lemma CharClassFacts(c: char)
    ensures IsBookLetter(c) ==> !IsSpace(c) && c != '.' && !IsDigit(c) && !IsLineTerminator(c)
    ensures IsRomanChar(c) ==> IsBookLetter(c)
    ensures IsSpace(c) ==> !IsRomanChar(c) && c != '.' && !IsDigit(c)
    ensures IsDigit(c) ==> !IsSpace(c) && !IsRomanChar(c)
  {
  }

  /** A text whose leading letter run holds a non-Roman letter is never taken for a numbered book. */
  lemma {:induction false} NumberedNeedsSpace(x: string, j: nat)
    requires j < |x| && !IsRomanChar(x[j]) && IsBookLetter(x[j])
    requires forall i :: 0 <= i < j ==> IsBookLetter(x[i])
    ensures Numbered(x).None?
  {
    if IsRomanChar(x[0]) {
      var r := SpanWhile(x, 0, IsRomanChar);
      assert r <= j;
      assert IsBookLetter(x[r]);
      CharClassFacts(x[r]);
      assert NumeralEnd(x, "12345") == r;
      assert SpanWhile(x, r, IsSpace) == r;
    } else {
      assert IsBookLetter(x[0]);
      assert NumeralEnd(x, "12345") == 0;
    }
  }

  /** The dot of a book token never changes the lookup. */
  lemma LookupIgnoresDot(b: string)
    requires b != [] && b[|b| - 1] != '.'
    ensures LookupBook(b + ".") == LookupBook(b)
  {
    LowerStrConcat(b, ".");
    assert LowerStr(".") == ".";
    assert StripTrailingDot(LowerStr(b + ".")) == LowerStr(b);
    LowerStrAt(b, |b| - 1);
    assert Lower(b[|b| - 1]) != '.';
    assert StripTrailingDot(LowerStr(b)) == LowerStr(b);
    assert StripTrailingDot(b + ".") == StripTrailingDot(b);
  }

  /** Preparing "letters, optional dot, whitespace, chapter/verse" only drops one trailing dot. */
  lemma {:induction false} PrepareBookForm(b: string, d: string, sp: string, cv: string)
    requires b != [] && AllBookLetters(b)
    requires d == "" || d == "."
    requires AllSpace(sp)
    requires cv != [] && !IsSpace(cv[0]) && !IsSpace(cv[|cv| - 1])
    ensures Prepare(b + d + sp + cv) == b + d + sp + StripTrailingDot(cv)
  {
    var x := b + d + sp;
    assert x[0] == b[0];
    PrepareHeadForm(x, cv);
  }

  /** Preparing a text that starts with a book letter and ends a non-space part only drops one trailing dot. */
  lemma PrepareHeadForm(x: string, cv: string)
    requires x != [] && IsBookLetter(x[0])
    requires cv != [] && !IsSpace(cv[0]) && !IsSpace(cv[|cv| - 1])
    ensures Prepare(x + cv) == x + StripTrailingDot(cv)
  {
    var y := x + StripTrailingDot(cv);
    assert y[0] == x[0];
    KeepsBookHead(y);
    StripTrailingDotConcat(x, cv);
    assert Trim(x + cv) == x + cv by {
      CharClassFacts(x[0]);
      assert TrimRight(cv) == cv;
      TrimFromNonSpace(x, cv);
    }
    PrepareSteps(x + cv, x + cv, y, y);
  }

  /** A bare book token is prepared to its letters. */
  lemma PrepareBookAlone(b: string, d: string)
    requires b != [] && AllBookLetters(b)
    requires d == "" || d == "."
    ensures Prepare(b + d) == b
  {
    TrimBookToken(b, d);
    StripBookDot(b, d);
    KeepsBookHead(b);
    PrepareSteps(b + d, b + d, b, b);
  }

  /** Prepare is the composition of its three steps. */
  lemma PrepareSteps(raw: string, t: string, st: string, r: string)
    requires Trim(raw) == t && StripTrailingDot(t) == st && FixLeadingIz(st) == r
    ensures Prepare(raw) == r
  {
  }

  /** The "1z" slip cannot apply to a text that starts with a book letter. */
  lemma KeepsBookHead(s: string)
    requires s != [] && IsBookLetter(s[0])
    ensures FixLeadingIz(s) == s
  {
  }

  lemma TrimBookToken(b: string, d: string)
    requires b != [] && AllBookLetters(b)
    requires d == "" || d == "."
    ensures Trim(b + d) == b + d
  {
    var x := b + d;
    CharClassFacts(b[0]);
    CharClassFacts(b[|b| - 1]);
    assert TrimLeft(x) == x && TrimRight(x) == x;
  }

  lemma StripBookDot(b: string, d: string)
    requires b != [] && AllBookLetters(b)
    requires d == "" || d == "."
    ensures StripTrailingDot(b + d) == b
  {
    assert IsBookLetter(b[|b| - 1]);
  }

  /** Normalize is the composition of its steps. */
  lemma NormalizeSteps(raw: string, ref: string, rest: string, token: string, cv: string)
    requires Prepare(raw) == ref && Numbered(ref).None? && MatchBook(ref).Some? && MatchBook(ref).value == (token, cv)
    ensures Normalize(raw) == Render("", LookupBook(token), NormalizeCv(cv))
  {
  }

  /**
   * A reference made of a book token (letters with an optional dot), whitespace
   * and a non-empty chapter/verse part normalises to the looked-up book, a space
   * and the cleaned chapter/verse part (one trailing dot already gone).
   */
  lemma {:induction false} NormalizeBookForm(b: string, d: string, sp: string, cv: string)
    requires b != [] && AllBookLetters(b) && !AllRoman(b)
    requires d == "" || d == "."
    requires AllSpace(sp)
    requires cv != [] && !IsSpace(cv[0]) && !IsSpace(cv[|cv| - 1]) && NoLineTerminator(cv)
    requires d == "" && sp == [] ==> !IsBookLetter(cv[0]) && cv[0] != '.'
    ensures Normalize(b + d + sp + cv) == Render("", LookupBook(b), NormalizeCv(StripTrailingDot(cv)))
  {
    var j :| 0 <= j < |b| && !IsRomanChar(b[j]);
    var c := StripTrailingDot(cv);
    var ref := b + d + sp + c;
    assert Numbered(ref).None? by {
      assert ref[..|b|] == b;
      NumberedNeedsSpace(ref, j);
    }
    assert MatchBook(ref).Some? && MatchBook(ref).value == (b + d, c) by {
      assert c == cv[..|c|];
      NoLineTerminatorSlice(cv, 0, |c|);
      MatchBookShape(b, d, sp, c);
    }
    PrepareBookForm(b, d, sp, cv);
    NormalizeSteps(b + d + sp + cv, ref, ref, b + d, c);
    LookupBookToken(b, d);
  }

  lemma LookupBookToken(b: string, d: string)
    requires b != [] && AllBookLetters(b)
    requires d == "" || d == "."
    ensures LookupBook(b + d) == LookupBook(b)
  {
    if d == "." {
      assert IsBookLetter(b[|b| - 1]);
      LookupIgnoresDot(b);
    } else {
      assert b + d == b;
    }
  }

  /** A bare book token normalises to the looked-up book. */
  lemma {:induction false} NormalizeBookAlone(b: string, d: string)
    requires b != [] && AllBookLetters(b) && !AllRoman(b)
    requires d == "" || d == "."
    ensures Normalize(b + d) == LookupBook(b)
  {
    BookAloneMatches(b);
    PrepareBookAlone(b, d);
    NormalizeSteps(b + d, b, b, b, "");
  }

  /** A lone book token is no numbered book and is matched whole, with an empty chapter/verse part. */
  lemma BookAloneMatches(b: string)
    requires b != [] && AllBookLetters(b) && !AllRoman(b)
    ensures Numbered(b).None? && MatchBook(b).Some? && MatchBook(b).value == (b, "")
  {
    var j :| 0 <= j < |b| && !IsRomanChar(b[j]);
    NumberedNeedsSpace(b, j);
    assert b + "" + "" + "" == b;
    MatchBookShape(b, "", "", "");
  }

  /**
   * When the trimmed input neither starts with a book letter nor has a numeral
   * and whitespace (or the "1z" slip) in front, no book token is found and the
   * trimmed input is returned unchanged, e.g. a bare "3,1-7".
   */
  lemma {:induction false} NormalizeWithoutBook(raw: string)
    requires NoBookAhead(Trim(raw))
    ensures Normalize(raw) == Trim(raw)
  {
    var t := Trim(raw);
    var st := StripTrailingDot(t);
    if st != [] {
      assert st[0] == t[0];
      assert |st| >= 2 ==> st[1] == t[1];
      assert |st| >= 3 ==> st[2] == t[2];
      assert FixLeadingIz(st) == st;
      NoNumeralAhead(st);
    } else {
      assert FixLeadingIz(st) == st;
    }
    NoBookKeepsTrim(raw, st);
  }

  /** Text starting with neither a book letter nor a numeral and whitespace has no numeral prefix. */
  lemma NoNumeralAhead(st: string)
    requires st != [] && !IsBookLetter(st[0]) && (|st| >= 2 ==> !IsSpace(st[1]))
    ensures Numbered(st).None?
  {
    CharClassFacts(st[0]);
    if |st| >= 2 {
      CharClassFacts(st[1]);
      assert SpanWhile(st, 1, IsSpace) == 1;
    }
  }

  /** Without a numeral prefix and without a book letter in front, the trimmed input comes back. */
  lemma NoBookKeepsTrim(raw: string, st: string)
    requires Prepare(raw) == st && Numbered(st).None?
    requires st == [] || !IsBookLetter(st[0])
    ensures Normalize(raw) == Trim(raw)
  {
    assert SplitPrefix(st) == ("", st);
    assert MatchBook(st).None?;
  }

  /** The "1z" slip that the OCR fix rewrites: "1z" or "1Z" at a word boundary. */
  predicate IzSlip(t: string) {
    |t| >= 2 && t[0] == '1' && (t[1] == 'z' || t[1] == 'Z') && (|t| == 2 || !IsWordChar(t[2]))
  }

  /**
   * A trimmed text in which neither a book letter nor a numeral and whitespace
   * (nor the "1z" slip) comes first, so no book token can be found.
   */
  predicate NoBookAhead(t: string) {
    t == [] || (!IsBookLetter(t[0]) && (|t| == 1 || (!IsSpace(t[1]) && !IzSlip(t))))
  }

  lemma UnmappedNumeralsDropped()
    ensures NumeralPrefix("VI") == "" && NumeralPrefix("ii") == "" && NumeralPrefix("X") == ""
    ensures NumeralPrefix("Iv") == ""
  {
  }

  // ---------------------------------------------------------------------------
  // Canonical references are fixpoints
  // ---------------------------------------------------------------------------

  /** A chapter/verse part as the normaliser writes it: no whitespace, no en/em dash, no trailing dot. */
  predicate CleanCv(cv: string) {
    NoSpaceNoDash(cv) && (cv != [] ==> cv[|cv| - 1] != '.')
  }

  predicate NoSpaceNoDash(s: string) {
    forall k :: 0 <= k < |s| ==> !IsSpace(s[k]) && !IsDash(s[k])
  }

  lemma {:induction false} RemoveSpacesNone(s: string)
    requires forall k :: 0 <= k < |s| ==> !IsSpace(s[k])
    ensures RemoveSpaces(s) == s
  {
    if s != [] {
      RemoveSpacesNone(s[1..]);
    }
  }

  lemma {:induction false} CollapseDashesNone(s: string)
    requires forall k :: 0 <= k < |s| ==> !IsDash(s[k])
    ensures CollapseDashes(s) == s
  {
    if s != [] {
      CollapseDashesNone(s[1..]);
    }
  }

  lemma {:induction false} RemoveSpacesConcat(x: string, y: string)
    ensures RemoveSpaces(x + y) == RemoveSpaces(x) + RemoveSpaces(y)
  {
    if x != [] {
      assert (x + y)[1..] == x[1..] + y;
      RemoveSpacesConcat(x[1..], y);
    } else {
      assert x + y == y;
    }
  }

  /** Dash runs do not reach across a boundary whose left side ends in a non-dash. */
  lemma {:induction false} CollapseDashesConcat(x: string, y: string)
    requires x == [] || !IsDash(x[|x| - 1])
    ensures CollapseDashes(x + y) == CollapseDashes(x) + CollapseDashes(y)
  {
    if x != [] {
      var xy := x + y;
      assert xy[0] == x[0] && xy[1..] == x[1..] + y;
      if |x| == 1 {
        assert CollapseDashes(xy) == [x[0]] + CollapseDashes(y);
        assert CollapseDashes(x) == [x[0]];
      } else {
        assert xy[1] == x[1] && x[1..][|x| - 2] == x[|x| - 1];
        var h := if IsDash(x[0]) && IsDash(x[1]) then "" else if IsDash(x[0]) then "-" else [x[0]];
        assert CollapseDashes(xy) == h + CollapseDashes(x[1..] + y);
        assert CollapseDashes(x) == h + CollapseDashes(x[1..]);
        CollapseDashesConcat(x[1..], y);
        Assoc(h, CollapseDashes(x[1..]), CollapseDashes(y));
      }
    } else {
      assert x + y == y;
    }
  }

  /** The chapter/verse clean-up leaves a clean part alone. */
  lemma NormalizeCvClean(cv: string)
    requires CleanCv(cv)
    ensures NormalizeCv(cv) == cv
  {
    RemoveSpacesNone(cv);
    CollapseDashesNone(cv);
  }

  /**
   * The chapter/verse clean-up on "a, x—y": the whitespace disappears and the
   * em dash becomes "-", e.g. "22, 37—46" becomes "22,37-46".
   */
  lemma NormalizeCvSpaceAndDash(a: string, x: string, y: string)
    requires NoSpaceNoDash(a) && NoSpaceNoDash(x) && NoSpaceNoDash(y)
    requires y != [] && y[|y| - 1] != '.'
    ensures NormalizeCv(a + " " + x + "—" + y) == a + x + "-" + y
  {
    RemoveOneSpace(a, x, y);
    CollapseOneDash(a + x, y);
    var r := a + x + "-" + y;
    assert r[|r| - 1] == y[|y| - 1];
  }

  /** The same with a trailing dot after the last number, which is dropped. */
  lemma NormalizeCvDotted(a: string, x: string, y: string)
    requires NoSpaceNoDash(a) && NoSpaceNoDash(x) && NoSpaceNoDash(y)
    requires y != [] && y[|y| - 1] == '.'
    ensures NormalizeCv(a + " " + x + "—" + y) == a + x + "-" + y[..|y| - 1]
  {
    RemoveOneSpace(a, x, y);
    CollapseOneDash(a + x, y);
    var r := a + x + "-" + y;
    assert r[..|r| - 1] == a + x + "-" + y[..|y| - 1];
  }

  lemma RemoveOneSpace(a: string, x: string, y: string)
    requires NoSpaceNoDash(a) && NoSpaceNoDash(x) && NoSpaceNoDash(y)
    ensures RemoveSpaces(a + " " + x + "—" + y) == (a + x) + ("—" + y)
  {
    var w := x + ("—" + y);
    RemoveSpacesDashTail(x, y);
    assert (" " + w)[1..] == w;
    RemoveSpacesConcat(a, " " + w);
    RemoveSpacesNone(a);
    Assoc(a + " " + x, "—", y);
    Assoc(a + " ", x, "—" + y);
    Assoc(a, " ", w);
    Assoc(a, x, "—" + y);
  }

  lemma RemoveSpacesDashTail(x: string, y: string)
    requires NoSpaceNoDash(x) && NoSpaceNoDash(y)
    ensures RemoveSpaces(x + ("—" + y)) == x + ("—" + y)
  {
    assert ("—" + y)[1..] == y;
    RemoveSpacesNone(y);
    RemoveSpacesConcat(x, "—" + y);
    RemoveSpacesNone(x);
  }

  lemma CollapseOneDash(u: string, y: string)
    requires NoSpaceNoDash(u) && NoSpaceNoDash(y) && y != []
    ensures CollapseDashes(u + ("—" + y)) == u + "-" + y
  {
    var t := "—" + y;
    assert CollapseDashes(t) == "-" + y by {
      assert t[0] == '—' && t[1..] == y && t[1] == y[0];
      assert !IsDash(y[0]);
      assert CollapseDashes(t) == "-" + CollapseDashes(y);
      CollapseDashesNone(y);
    }
    CollapseDashesConcat(u, t);
    CollapseDashesNone(u);
  }

  /** A canonical abbreviation is its own lookup. */
  lemma LookupCanonical(b: string)
    requires Canonical(b)
    ensures LookupBook(b) == b
  {
    LowerStrAt(b, |b| - 1);
    assert IsBookLetter(b[|b| - 1]);
    assert StripTrailingDot(LowerStr(b)) == LowerStr(b);
  }

  /** A clean part has no line terminator (every line terminator is whitespace). */
  lemma CleanCvOneLine(cv: string)
    requires CleanCv(cv)
    ensures NoLineTerminator(cv)
  {
    NoLineTerminatorAt(cv);
  }

  /**
   * An already-canonical reference "Book chapter,verses" is returned unchanged,
   * e.g. "Mt 4,1-11".
   */
  lemma CanonicalUnchanged(b: string, cv: string)
    requires b in CanonicalBooks
    requires CleanCv(cv) && cv != [] && IsDigit(cv[0])
    ensures Normalize(b + " " + cv) == b + " " + cv
  {
    assert Canonical(b) by {
      CanonicalBooksCanonical(b);
    }
    assert Normalize(b + " " + cv) == Render("", LookupBook(b), NormalizeCv(StripTrailingDot(cv))) by {
      assert b + "" + " " + cv == b + " " + cv;
      CharClassFacts(cv[0]);
      CleanCvOneLine(cv);
      NormalizeBookForm(b, "", " ", cv);
    }
    assert StripTrailingDot(cv) == cv;
    NormalizeCvClean(cv);
    LookupCanonical(b);
    assert Render("", b, cv) == b + " " + cv by {
      assert "" + b == b;
    }
  }

  /** A canonical abbreviation on its own is returned unchanged. */
  lemma CanonicalBookUnchanged(b: string)
    requires b in CanonicalBooks
    ensures Normalize(b) == b
  {
    assert Canonical(b) by {
      CanonicalBooksCanonical(b);
    }
    assert b + "" == b;
    NormalizeBookAlone(b, "");
    LookupCanonical(b);
  }

  /**
   * A canonical numbered reference such as "1Kor 12,1-11" is returned
   * unchanged: the glued digit is no book letter, so the book pattern fails
   * and the trimmed input comes back.
   */
  lemma CanonicalNumberedUnchanged(p: string, b: string, cv: string)
    requires p == "1" || p == "2" || p == "3" || p == "4" || p == "5"
    requires b in CanonicalBooks
    requires CleanCv(cv) && cv != [] && IsDigit(cv[0])
    ensures Normalize(p + b + " " + cv) == p + b + " " + cv
  {
    assert Canonical(b) by {
      CanonicalBooksCanonical(b);
    }
    var t := p + b + " " + cv;
    assert t[0] == p[0] && t[1] == b[0];
    assert |b| >= 2 ==> t[2] == b[1];
    assert t[|t| - 1] == cv[|cv| - 1];
    CharClassFacts(t[0]);
    CharClassFacts(t[1]);
    CharClassFacts(t[|t| - 1]);
    TrimOfTrimmed(t);
    assert NoBookAhead(t);
    NormalizeWithoutBook(t);
  }

  // ---------------------------------------------------------------------------
  // The canonical abbreviations
  // ---------------------------------------------------------------------------
  /**
   * What makes an abbreviation canonical: it is a book token of letters that
   * is not all Roman-numeral letters, a leading Z is followed by a word
   * character, and the alias table maps it back to itself once lower-cased.
   */
  predicate Canonical(v: string) {
    v != [] && AllBookLetters(v) && !AllRoman(v)
    && ((v[0] == 'z' || v[0] == 'Z') ==> |v| >= 2 && IsWordChar(v[1]))
    && BookAlias(LowerStr(v)) == Some(v)
  }

  lemma CanonicalLawAndHistories1()
    ensures Canonical("Gn")
  {
    assert LowerStr("Gn") == "gn";
    assert !IsRomanChar("Gn"[0]);
  }

  lemma CanonicalLawAndHistories2()
    ensures Canonical("Ex")
  {
    assert LowerStr("Ex") == "ex";
    assert !IsRomanChar("Ex"[0]);
  }

  lemma CanonicalLawAndHistories3()
    ensures Canonical("Lv")
  {
    assert LowerStr("Lv") == "lv";
    assert !IsRomanChar("Lv"[0]);
  }

  lemma CanonicalLawAndHistories4()
    ensures Canonical("Nm")
  {
    assert LowerStr("Nm") == "nm";
    assert !IsRomanChar("Nm"[0]);
  }

  lemma CanonicalLawAndHistories5()
    ensures Canonical("Dt")
  {
    assert LowerStr("Dt") == "dt";
    assert !IsRomanChar("Dt"[0]);
  }

  lemma CanonicalLawAndHistories6()
    ensures Canonical("Joz")
  {
    assert LowerStr("Joz") == "joz";
    assert !IsRomanChar("Joz"[0]);
  }

  lemma CanonicalLawAndHistories7()
    ensures Canonical("Sd")
  {
    assert LowerStr("Sd") == "sd";
    assert !IsRomanChar("Sd"[0]);
  }

  lemma CanonicalLawAndHistories8()
    ensures Canonical("Rt")
  {
    assert LowerStr("Rt") == "rt";
    assert !IsRomanChar("Rt"[0]);
  }

  lemma CanonicalLawAndHistories9()
    ensures Canonical("Sam")
  {
    assert LowerStr("Sam") == "sam";
    assert !IsRomanChar("Sam"[0]);
  }

  lemma CanonicalLawAndHistories10()
    ensures Canonical("Král")
  {
    assert LowerStr("Král") == "král";
    assert !IsRomanChar("Král"[0]);
  }

  lemma CanonicalLawAndHistories11()
    ensures Canonical("Pa")
  {
    assert LowerStr("Pa") == "pa";
    assert !IsRomanChar("Pa"[0]);
  }

  lemma CanonicalLawAndHistories12()
    ensures Canonical("Ezd")
  {
    assert LowerStr("Ezd") == "ezd";
    assert !IsRomanChar("Ezd"[0]);
  }

  lemma CanonicalLawAndHistories13()
    ensures Canonical("Neh")
  {
    assert LowerStr("Neh") == "neh";
    assert !IsRomanChar("Neh"[0]);
  }

  lemma CanonicalLawAndHistories14()
    ensures Canonical("Tob")
  {
    assert LowerStr("Tob") == "tob";
    assert !IsRomanChar("Tob"[0]);
  }

  lemma CanonicalLawAndHistories15()
    ensures Canonical("Jdt")
  {
    assert LowerStr("Jdt") == "jdt";
    assert !IsRomanChar("Jdt"[0]);
  }

  lemma CanonicalLawAndHistories16()
    ensures Canonical("Est")
  {
    assert LowerStr("Est") == "est";
    assert !IsRomanChar("Est"[0]);
  }

  lemma LawAndHistoriesPartCanonical1(v: string)
    requires v in ["Gn", "Ex", "Lv", "Nm"]
    ensures Canonical(v)
  {
    CanonicalLawAndHistories1();
    CanonicalLawAndHistories2();
    CanonicalLawAndHistories3();
    CanonicalLawAndHistories4();
  }

  lemma LawAndHistoriesPartCanonical2(v: string)
    requires v in ["Dt", "Joz", "Sd", "Rt"]
    ensures Canonical(v)
  {
    CanonicalLawAndHistories5();
    CanonicalLawAndHistories6();
    CanonicalLawAndHistories7();
    CanonicalLawAndHistories8();
  }

  lemma LawAndHistoriesPartCanonical3(v: string)
    requires v in ["Sam", "Král", "Pa", "Ezd"]
    ensures Canonical(v)
  {
    CanonicalLawAndHistories9();
    CanonicalLawAndHistories10();
    CanonicalLawAndHistories11();
    CanonicalLawAndHistories12();
  }

  lemma LawAndHistoriesPartCanonical4(v: string)
    requires v in ["Neh", "Tob", "Jdt", "Est"]
    ensures Canonical(v)
  {
    CanonicalLawAndHistories13();
    CanonicalLawAndHistories14();
    CanonicalLawAndHistories15();
    CanonicalLawAndHistories16();
  }

  /** Every canonical abbreviation of the law and the histories is canonical. */
  lemma LawAndHistoriesCanonical(v: string)
    requires v in LawAndHistories
    ensures Canonical(v)
  {
    if v in ["Gn", "Ex", "Lv", "Nm"] {
      LawAndHistoriesPartCanonical1(v);
    } else if v in ["Dt", "Joz", "Sd", "Rt"] {
      LawAndHistoriesPartCanonical2(v);
    } else if v in ["Sam", "Král", "Pa", "Ezd"] {
      LawAndHistoriesPartCanonical3(v);
    } else {
      LawAndHistoriesPartCanonical4(v);
    }
  }

  lemma CanonicalWisdomBooks1()
    ensures Canonical("Job")
  {
    assert LowerStr("Job") == "job";
    assert !IsRomanChar("Job"[0]);
  }

  lemma CanonicalWisdomBooks2()
    ensures Canonical("Ž")
  {
    assert LowerStr("Ž") == "ž";
    assert !IsRomanChar("Ž"[0]);
  }

  lemma CanonicalWisdomBooks3()
    ensures Canonical("Př")
  {
    assert LowerStr("Př") == "př";
    assert !IsRomanChar("Př"[0]);
  }

  lemma CanonicalWisdomBooks4()
    ensures Canonical("Kaz")
  {
    assert LowerStr("Kaz") == "kaz";
    assert !IsRomanChar("Kaz"[0]);
  }

  lemma CanonicalWisdomBooks5()
    ensures Canonical("Pís")
  {
    assert LowerStr("Pís") == "pís";
    assert !IsRomanChar("Pís"[0]);
  }

  lemma CanonicalWisdomBooks6()
    ensures Canonical("Mdr")
  {
    assert LowerStr("Mdr") == "mdr";
    assert !IsRomanChar("Mdr"[0]);
  }

  lemma CanonicalWisdomBooks7()
    ensures Canonical("Sír")
  {
    assert LowerStr("Sír") == "sír";
    assert !IsRomanChar("Sír"[0]);
  }

  lemma WisdomBooksPartCanonical1(v: string)
    requires v in ["Job", "Ž", "Př", "Kaz"]
    ensures Canonical(v)
  {
    CanonicalWisdomBooks1();
    CanonicalWisdomBooks2();
    CanonicalWisdomBooks3();
    CanonicalWisdomBooks4();
  }

  lemma WisdomBooksPartCanonical2(v: string)
    requires v in ["Pís", "Mdr", "Sír"]
    ensures Canonical(v)
  {
    CanonicalWisdomBooks5();
    CanonicalWisdomBooks6();
    CanonicalWisdomBooks7();
  }

  /** Every canonical abbreviation of the wisdom books is canonical. */
  lemma WisdomBooksCanonical(v: string)
    requires v in WisdomBooks
    ensures Canonical(v)
  {
    if v in ["Job", "Ž", "Př", "Kaz"] {
      WisdomBooksPartCanonical1(v);
    } else {
      WisdomBooksPartCanonical2(v);
    }
  }

  lemma CanonicalProphets1()
    ensures Canonical("Iz")
  {
    assert LowerStr("Iz") == "iz";
    assert !IsRomanChar("Iz"[1]);
  }

  lemma CanonicalProphets2()
    ensures Canonical("Jr")
  {
    assert LowerStr("Jr") == "jr";
    assert !IsRomanChar("Jr"[0]);
  }

  lemma CanonicalProphets3()
    ensures Canonical("Pláč")
  {
    assert LowerStr("Pláč") == "pláč";
    assert !IsRomanChar("Pláč"[0]);
  }

  lemma CanonicalProphets4()
    ensures Canonical("Bar")
  {
    assert LowerStr("Bar") == "bar";
    assert !IsRomanChar("Bar"[0]);
  }

  lemma CanonicalProphets5()
    ensures Canonical("Ez")
  {
    assert LowerStr("Ez") == "ez";
    assert !IsRomanChar("Ez"[0]);
  }

  lemma CanonicalProphets6()
    ensures Canonical("Dan")
  {
    assert LowerStr("Dan") == "dan";
    assert !IsRomanChar("Dan"[0]);
  }

  lemma CanonicalProphets7()
    ensures Canonical("Oz")
  {
    assert LowerStr("Oz") == "oz";
    assert !IsRomanChar("Oz"[0]);
  }

  lemma CanonicalProphets8()
    ensures Canonical("Jl")
  {
    assert LowerStr("Jl") == "jl";
    assert !IsRomanChar("Jl"[0]);
  }

  lemma CanonicalProphets9()
    ensures Canonical("Am")
  {
    assert LowerStr("Am") == "am";
    assert !IsRomanChar("Am"[0]);
  }

  lemma CanonicalProphets10()
    ensures Canonical("Abd")
  {
    assert LowerStr("Abd") == "abd";
    assert !IsRomanChar("Abd"[0]);
  }

  lemma CanonicalProphets11()
    ensures Canonical("Jon")
  {
    assert LowerStr("Jon") == "jon";
    assert !IsRomanChar("Jon"[0]);
  }

  lemma CanonicalProphets12()
    ensures Canonical("Mi")
  {
    assert LowerStr("Mi") == "mi";
    assert !IsRomanChar("Mi"[0]);
  }

  lemma CanonicalProphets13()
    ensures Canonical("Na")
  {
    assert LowerStr("Na") == "na";
    assert !IsRomanChar("Na"[0]);
  }

  lemma CanonicalProphets14()
    ensures Canonical("Hab")
  {
    assert LowerStr("Hab") == "hab";
    assert !IsRomanChar("Hab"[0]);
  }

  lemma CanonicalProphets15()
    ensures Canonical("Sof")
  {
    assert LowerStr("Sof") == "sof";
    assert !IsRomanChar("Sof"[0]);
  }

  lemma CanonicalProphets16()
    ensures Canonical("Ag")
  {
    assert LowerStr("Ag") == "ag";
    assert !IsRomanChar("Ag"[0]);
  }

  lemma CanonicalProphets17()
    ensures Canonical("Za")
  {
    assert LowerStr("Za") == "za";
    assert !IsRomanChar("Za"[0]);
  }

  lemma CanonicalProphets18()
    ensures Canonical("Mal")
  {
    assert LowerStr("Mal") == "mal";
    assert !IsRomanChar("Mal"[0]);
  }

  lemma CanonicalProphets19()
    ensures Canonical("Mak")
  {
    assert LowerStr("Mak") == "mak";
    assert !IsRomanChar("Mak"[0]);
  }

  lemma ProphetsPartCanonical1(v: string)
    requires v in ["Iz", "Jr", "Pláč", "Bar"]
    ensures Canonical(v)
  {
    CanonicalProphets1();
    CanonicalProphets2();
    CanonicalProphets3();
    CanonicalProphets4();
  }

  lemma ProphetsPartCanonical2(v: string)
    requires v in ["Ez", "Dan", "Oz", "Jl"]
    ensures Canonical(v)
  {
    CanonicalProphets5();
    CanonicalProphets6();
    CanonicalProphets7();
    CanonicalProphets8();
  }

  lemma ProphetsPartCanonical3(v: string)
    requires v in ["Am", "Abd", "Jon", "Mi"]
    ensures Canonical(v)
  {
    CanonicalProphets9();
    CanonicalProphets10();
    CanonicalProphets11();
    CanonicalProphets12();
  }

  lemma ProphetsPartCanonical4(v: string)
    requires v in ["Na", "Hab", "Sof", "Ag"]
    ensures Canonical(v)
  {
    CanonicalProphets13();
    CanonicalProphets14();
    CanonicalProphets15();
    CanonicalProphets16();
  }

  lemma ProphetsPartCanonical5(v: string)
    requires v in ["Za", "Mal", "Mak"]
    ensures Canonical(v)
  {
    CanonicalProphets17();
    CanonicalProphets18();
    CanonicalProphets19();
  }

  /** Every canonical abbreviation of the prophets is canonical. */
  lemma ProphetsCanonical(v: string)
    requires v in Prophets
    ensures Canonical(v)
  {
    if v in ["Iz", "Jr", "Pláč", "Bar"] {
      ProphetsPartCanonical1(v);
    } else if v in ["Ez", "Dan", "Oz", "Jl"] {
      ProphetsPartCanonical2(v);
    } else if v in ["Am", "Abd", "Jon", "Mi"] {
      ProphetsPartCanonical3(v);
    } else if v in ["Na", "Hab", "Sof", "Ag"] {
      ProphetsPartCanonical4(v);
    } else {
      ProphetsPartCanonical5(v);
    }
  }

  lemma CanonicalGospelsAndActs1()
    ensures Canonical("Mt")
  {
    assert LowerStr("Mt") == "mt";
    assert !IsRomanChar("Mt"[0]);
  }

  lemma CanonicalGospelsAndActs2()
    ensures Canonical("Mk")
  {
    assert LowerStr("Mk") == "mk";
    assert !IsRomanChar("Mk"[0]);
  }

  lemma CanonicalGospelsAndActs3()
    ensures Canonical("Lk")
  {
    assert LowerStr("Lk") == "lk";
    assert !IsRomanChar("Lk"[0]);
  }

  lemma CanonicalGospelsAndActs4()
    ensures Canonical("J")
  {
    assert LowerStr("J") == "j";
    assert !IsRomanChar("J"[0]);
  }

  lemma CanonicalGospelsAndActs5()
    ensures Canonical("Sk")
  {
    assert LowerStr("Sk") == "sk";
    assert !IsRomanChar("Sk"[0]);
  }

  lemma GospelsAndActsPartCanonical1(v: string)
    requires v in ["Mt", "Mk", "Lk", "J"]
    ensures Canonical(v)
  {
    CanonicalGospelsAndActs1();
    CanonicalGospelsAndActs2();
    CanonicalGospelsAndActs3();
    CanonicalGospelsAndActs4();
  }

  lemma GospelsAndActsPartCanonical2(v: string)
    requires v in ["Sk"]
    ensures Canonical(v)
  {
    CanonicalGospelsAndActs5();
  }

  /** Every canonical abbreviation of the gospels and Acts is canonical. */
  lemma GospelsAndActsCanonical(v: string)
    requires v in GospelsAndActs
    ensures Canonical(v)
  {
    if v in ["Mt", "Mk", "Lk", "J"] {
      GospelsAndActsPartCanonical1(v);
    } else {
      GospelsAndActsPartCanonical2(v);
    }
  }

  lemma CanonicalLetters1()
    ensures Canonical("Ř")
  {
    assert LowerStr("Ř") == "ř";
    assert !IsRomanChar("Ř"[0]);
  }

  lemma CanonicalLetters2()
    ensures Canonical("Kor")
  {
    assert LowerStr("Kor") == "kor";
    assert !IsRomanChar("Kor"[0]);
  }

  lemma CanonicalLetters3()
    ensures Canonical("Gal")
  {
    assert LowerStr("Gal") == "gal";
    assert !IsRomanChar("Gal"[0]);
  }

  lemma CanonicalLetters4()
    ensures Canonical("Ef")
  {
    assert LowerStr("Ef") == "ef";
    assert !IsRomanChar("Ef"[0]);
  }

  lemma CanonicalLetters5()
    ensures Canonical("Fp")
  {
    assert LowerStr("Fp") == "fp";
    assert !IsRomanChar("Fp"[0]);
  }

  lemma CanonicalLetters6()
    ensures Canonical("Kol")
  {
    assert LowerStr("Kol") == "kol";
    assert !IsRomanChar("Kol"[0]);
  }

  lemma CanonicalLetters7()
    ensures Canonical("Sol")
  {
    assert LowerStr("Sol") == "sol";
    assert !IsRomanChar("Sol"[0]);
  }

  lemma CanonicalLetters8()
    ensures Canonical("Tim")
  {
    assert LowerStr("Tim") == "tim";
    assert !IsRomanChar("Tim"[0]);
  }

  lemma CanonicalLetters9()
    ensures Canonical("Tt")
  {
    assert LowerStr("Tt") == "tt";
    assert !IsRomanChar("Tt"[0]);
  }

  lemma CanonicalLetters10()
    ensures Canonical("Fm")
  {
    assert LowerStr("Fm") == "fm";
    assert !IsRomanChar("Fm"[0]);
  }

  lemma CanonicalLetters11()
    ensures Canonical("Žd")
  {
    assert LowerStr("Žd") == "žd";
    assert !IsRomanChar("Žd"[0]);
  }

  lemma CanonicalLetters12()
    ensures Canonical("Jk")
  {
    assert LowerStr("Jk") == "jk";
    assert !IsRomanChar("Jk"[0]);
  }

  lemma CanonicalLetters13()
    ensures Canonical("Pt")
  {
    assert LowerStr("Pt") == "pt";
    assert !IsRomanChar("Pt"[0]);
  }

  lemma CanonicalLetters14()
    ensures Canonical("Jud")
  {
    assert LowerStr("Jud") == "jud";
    assert !IsRomanChar("Jud"[0]);
  }

  lemma CanonicalLetters15()
    ensures Canonical("Zj")
  {
    assert LowerStr("Zj") == "zj";
    assert !IsRomanChar("Zj"[0]);
  }

  lemma LettersPartCanonical1(v: string)
    requires v in ["Ř", "Kor", "Gal", "Ef"]
    ensures Canonical(v)
  {
    CanonicalLetters1();
    CanonicalLetters2();
    CanonicalLetters3();
    CanonicalLetters4();
  }

  lemma LettersPartCanonical2(v: string)
    requires v in ["Fp", "Kol", "Sol", "Tim"]
    ensures Canonical(v)
  {
    CanonicalLetters5();
    CanonicalLetters6();
    CanonicalLetters7();
    CanonicalLetters8();
  }

  lemma LettersPartCanonical3(v: string)
    requires v in ["Tt", "Fm", "Žd", "Jk"]
    ensures Canonical(v)
  {
    CanonicalLetters9();
    CanonicalLetters10();
    CanonicalLetters11();
    CanonicalLetters12();
  }

  lemma LettersPartCanonical4(v: string)
    requires v in ["Pt", "Jud", "Zj"]
    ensures Canonical(v)
  {
    CanonicalLetters13();
    CanonicalLetters14();
    CanonicalLetters15();
  }

  /** Every canonical abbreviation of the letters and Revelation is canonical. */
  lemma LettersCanonical(v: string)
    requires v in Letters
    ensures Canonical(v)
  {
    if v in ["Ř", "Kor", "Gal", "Ef"] {
      LettersPartCanonical1(v);
    } else if v in ["Fp", "Kol", "Sol", "Tim"] {
      LettersPartCanonical2(v);
    } else if v in ["Tt", "Fm", "Žd", "Jk"] {
      LettersPartCanonical3(v);
    } else {
      LettersPartCanonical4(v);
    }
  }

  /** Every value of the alias table is canonical: in particular it maps to itself once lower-cased. */
  lemma CanonicalBooksCanonical(v: string)
    requires v in CanonicalBooks
    ensures Canonical(v)
  {
    if v in LawAndHistories {
      LawAndHistoriesCanonical(v);
    } else if v in WisdomBooks {
      WisdomBooksCanonical(v);
    } else if v in Prophets {
      ProphetsCanonical(v);
    } else if v in GospelsAndActs {
      GospelsAndActsCanonical(v);
    } else {
      LettersCanonical(v);
    }
  }

  // ---------------------------------------------------------------------------
  // Worked examples
  // ---------------------------------------------------------------------------
  // Each example is assembled from small facts about its pieces and one of the
  // general lemmas above, so that no proof has to evaluate the normaliser on a
  // whole literal.

  /** "Book, optional dot, whitespace, chapter/verse" with every piece's outcome given. */
  lemma BookFormAt(raw: string, b: string, d: string, sp: string, cv: string, cv0: string, book: string, ncv: string)
    requires raw == b + d + sp + cv
    requires b != [] && AllBookLetters(b) && !AllRoman(b)
    requires d == "" || d == "."
    requires AllSpace(sp)
    requires cv != [] && !IsSpace(cv[0]) && !IsSpace(cv[|cv| - 1]) && NoLineTerminator(cv)
    requires d == "" && sp == [] ==> !IsBookLetter(cv[0]) && cv[0] != '.'
    requires StripTrailingDot(cv) == cv0 && LookupBook(b) == book && NormalizeCv(cv0) == ncv && ncv != []
    ensures Normalize(raw) == book + " " + ncv
  {
    NormalizeBookForm(b, d, sp, cv);
    assert "" + book == book;
  }

  /** "Numeral, whitespace, text" whose text starts with a non-Roman book letter, with the text's outcome given. */
  lemma NumberedAt(raw: string, n: string, ws: string, t: string, prefix: string, rest: string)
    requires raw == n + ws + t
    requires IsNumeral(n, "12345") && ws != [] && AllSpace(ws)
    requires t != [] && IsBookLetter(t[0]) && !IsRomanChar(t[0]) && NoLineTerminator(t)
    requires NumeralPrefix(DropDot(n)) == prefix && Normalize(t) == rest
    ensures Normalize(raw) == prefix + rest
  {
    CharClassFacts(t[0]);
    BookCoreShape(t);
    NumberedNeedsSpace(BookCore(t), 0);
    NormalizePrefixGlued(n, ws, t);
  }

  /** The same, with the text given as its book token, optional dot, whitespace and chapter/verse part. */
  lemma NumberedBookFormAt(n: string, ws: string, b: string, d: string, sp: string, cv: string, cv0: string, book: string, ncv: string, prefix: string)
    requires IsNumeral(n, "12345") && ws != [] && AllSpace(ws)
    requires b != [] && AllBookLetters(b) && !AllRoman(b) && !IsRomanChar(b[0])
    requires d == "" || d == "."
    requires AllSpace(sp) && NoLineTerminator(sp)
    requires cv != [] && !IsSpace(cv[0]) && !IsSpace(cv[|cv| - 1]) && NoLineTerminator(cv)
    requires d == "" && sp == [] ==> !IsBookLetter(cv[0]) && cv[0] != '.'
    requires StripTrailingDot(cv) == cv0 && LookupBook(b) == book && NormalizeCv(cv0) == ncv && ncv != []
    requires NumeralPrefix(DropDot(n)) == prefix
    ensures Normalize(n + ws + (b + d + sp + cv)) == prefix + (book + " " + ncv)
  {
    var t := b + d + sp + cv;
    BookFormAt(t, b, d, sp, cv, cv0, book, ncv);
    BookTextOneLine(b, d, sp, cv);
    assert t[0] == b[0];
    NumberedAt(n + ws + t, n, ws, t, prefix, book + " " + ncv);
  }

  /** "Book token, optional dot, whitespace, chapter/verse part" stays on one line when its whitespace and part do. */
  lemma BookTextOneLine(b: string, d: string, sp: string, cv: string)
    requires AllBookLetters(b) && (d == "" || d == ".")
    requires NoLineTerminator(sp) && NoLineTerminator(cv)
    ensures NoLineTerminator(b + d + sp + cv)
  {
    BookLettersOneLine(b);
    assert NoLineTerminator(d);
    NoLineTerminatorConcat(b, d);
    NoLineTerminatorConcat(b + d, sp);
    NoLineTerminatorConcat(b + d + sp, cv);
  }

  lemma BookLettersOneLine(b: string)
    requires AllBookLetters(b)
    ensures NoLineTerminator(b)
  {
    NoLineTerminatorAt(b);
    forall k | 0 <= k < |b|
      ensures !IsLineTerminator(b[k])
    {
      CharClassFacts(b[k]);
    }
  }

  /** Two inputs prepared to the same text, on which a book token is found, normalise alike. */
  lemma SamePrepared(raw1: string, raw2: string)
    requires Prepare(raw1) == Prepare(raw2)
    requires MatchBook(SplitPrefix(Prepare(raw1)).1).Some?
    ensures Normalize(raw1) == Normalize(raw2)
  {
  }

  /** "1z" (or "1Z") and whitespace in front of a chapter/verse part is prepared as Isaiah. */
  lemma {:induction false} IzSlipPrepared(z: char, sp: string, cv: string)
    requires z == 'z' || z == 'Z'
    requires sp != [] && AllSpace(sp)
    requires cv != [] && !IsSpace(cv[0]) && !IsSpace(cv[|cv| - 1])
    ensures Prepare(['1', z] + sp + cv) == "Iz" + sp + StripTrailingDot(cv)
  {
    var raw := ['1', z] + sp + cv;
    var y := ['1', z] + sp + StripTrailingDot(cv);
    assert FixLeadingIz(y) == "Iz" + sp + StripTrailingDot(cv) by {
      assert y[0] == '1' && y[1] == z && y[2] == sp[0];
      assert y[2..] == sp + StripTrailingDot(cv);
    }
    StripTrailingDotConcat(['1', z] + sp, cv);
    assert Trim(raw) == raw by {
      assert raw[0] == '1';
      assert TrimRight(cv) == cv;
      TrimFromNonSpace(['1', z] + sp, cv);
    }
    PrepareSteps(raw, raw, y, "Iz" + sp + StripTrailingDot(cv));
  }

  lemma IzLetters()
    ensures AllBookLetters("Iz")
  {
  }

  /** The book pattern finds "Iz" in "Iz", whitespace and a one-line rest. */
  lemma {:induction false} IzMatches(sp: string, c: string)
    requires sp != [] && AllSpace(sp)
    requires (c == [] || !IsSpace(c[0])) && NoLineTerminator(c)
    ensures Numbered("Iz" + sp + c).None?
    ensures MatchBook("Iz" + sp + c).Some?
  {
    var ref := "Iz" + sp + c;
    assert ref[0] == 'I' && ref[1] == 'z';
    NumberedNeedsSpace(ref, 1);
    assert "Iz" + "" + sp + c == ref;
    IzLetters();
    MatchBookShape("Iz", "", sp, c);
  }

  /**
   * The OCR slip "1z" (or "1Z") in front of whitespace and a chapter/verse part
   * is read as Isaiah: the result is the same as for "Iz".
   */
  lemma {:induction false} NormalizeIzSlip(z: char, sp: string, cv: string)
    requires z == 'z' || z == 'Z'
    requires sp != [] && AllSpace(sp)
    requires cv != [] && !IsSpace(cv[0]) && !IsSpace(cv[|cv| - 1]) && NoLineTerminator(cv)
    ensures Normalize(['1', z] + sp + cv) == Normalize("Iz" + sp + cv)
  {
    var c := StripTrailingDot(cv);
    IzLetters();
    IzSlipPrepared(z, sp, cv);
    assert ("Iz" + sp)[0] == 'I';
    PrepareHeadForm("Iz" + sp, cv);
    assert c == cv[..|c|];
    NoLineTerminatorSlice(cv, 0, |c|);
    IzMatches(sp, c);
    SamePrepared(['1', z] + sp + cv, "Iz" + sp + cv);
  }

  // "Mat. 22, 37—46" becomes "Mt 22,37-46".

  lemma MatthewPieces()
    ensures "Mat. 22, 37—46" == "Mat" + "." + " " + "22, 37—46"
    ensures AllBookLetters("Mat") && !AllRoman("Mat") && AllSpace(" ")
    ensures !IsSpace("22, 37—46"[0]) && !IsSpace("22, 37—46"[8])
    ensures StripTrailingDot("22, 37—46") == "22, 37—46"
  {
    assert !IsRomanChar("Mat"[0]);
  }

  lemma MatthewOneLine()
    ensures NoLineTerminator("22, 37—46")
  {
    var a, b, c := "22,", " 37", "—46";
    assert NoLineTerminator(a) && NoLineTerminator(b) && NoLineTerminator(c);
    NoLineTerminatorConcat(a, b);
    NoLineTerminatorConcat(a + b, c);
    assert "22, 37—46" == a + b + c;
  }

  lemma MatthewVerses()
    ensures NormalizeCv("22, 37—46") == "22,37-46"
  {
    assert NoSpaceNoDash("22,") && NoSpaceNoDash("37") && NoSpaceNoDash("46");
    NormalizeCvSpaceAndDash("22,", "37", "46");
    assert "22, 37—46" == "22," + " " + "37" + "—" + "46";
    assert "22," + "37" + "-" + "46" == "22,37-46";
  }

  lemma MatthewBook()
    ensures LookupBook("Mat") == "Mt"
    ensures "Mt" + " " + "22,37-46" == "Mt 22,37-46"
  {
    assert LowerStr("Mat") == "mat";
  }

  lemma ExampleMatthew()
    ensures Normalize("Mat. 22, 37—46") == "Mt 22,37-46"
  {
    MatthewPieces();
    MatthewOneLine();
    MatthewVerses();
    MatthewBook();
    BookFormAt("Mat. 22, 37—46", "Mat", ".", " ", "22, 37—46", "22, 37—46", "Mt", "22,37-46");
  }

  // "1 Kor 12,1-11" and "I. Kor. 12, 1—11" both become "1Kor 12,1-11".

  lemma KorinthiansPieces()
    ensures "Kor 12,1-11" == "Kor" + "" + " " + "12,1-11"
    ensures AllBookLetters("Kor") && !AllRoman("Kor") && AllSpace(" ")
    ensures CleanCv("12,1-11") && !IsSpace("12,1-11"[0]) && !IsSpace("12,1-11"[6])
    ensures StripTrailingDot("12,1-11") == "12,1-11"
  {
    assert !IsRomanChar("Kor"[0]);
  }

  lemma KorinthiansBook()
    ensures LookupBook("Kor") == "Kor"
    ensures "Kor" + " " + "12,1-11" == "Kor 12,1-11"
  {
    assert LowerStr("Kor") == "kor";
  }

  lemma KorinthiansCanonical()
    ensures Normalize("Kor 12,1-11") == "Kor 12,1-11"
  {
    KorinthiansPieces();
    CleanCvOneLine("12,1-11");
    NormalizeCvClean("12,1-11");
    KorinthiansBook();
    BookFormAt("Kor 12,1-11", "Kor", "", " ", "12,1-11", "12,1-11", "Kor", "12,1-11");
  }

  lemma KorinthiansArabic()
    ensures "1 Kor 12,1-11" == "1" + " " + "Kor 12,1-11"
    ensures IsNumeral("1", "12345") && NumeralPrefix(DropDot("1")) == "1"
    ensures "1" + "Kor 12,1-11" == "1Kor 12,1-11"
  {
  }

  lemma KorinthiansText()
    ensures "Kor 12,1-11"[0] == 'K' && NoLineTerminator("Kor 12,1-11")
  {
    KorinthiansPieces();
    CleanCvOneLine("12,1-11");
    assert NoLineTerminator("Kor ");
    NoLineTerminatorConcat("Kor ", "12,1-11");
    assert "Kor 12,1-11" == "Kor " + "12,1-11";
  }

  lemma ExampleKorinthiansArabic()
    ensures Normalize("1 Kor 12,1-11") == "1Kor 12,1-11"
  {
    KorinthiansArabic();
    KorinthiansText();
    KorinthiansCanonical();
    NumberedAt("1 Kor 12,1-11", "1", " ", "Kor 12,1-11", "1", "Kor 12,1-11");
  }

  lemma KorinthiansDottedPieces()
    ensures "Kor. 12, 1—11" == "Kor" + "." + " " + "12, 1—11"
    ensures !IsSpace("12, 1—11"[0]) && !IsSpace("12, 1—11"[7])
    ensures StripTrailingDot("12, 1—11") == "12, 1—11"
  {
  }

  lemma KorinthiansDottedVerses()
    ensures NoLineTerminator("12, 1—11")
    ensures NormalizeCv("12, 1—11") == "12,1-11"
  {
    var a, b, c := "12,", " 1", "—11";
    assert NoLineTerminator(a) && NoLineTerminator(b) && NoLineTerminator(c);
    NoLineTerminatorConcat(a, b);
    NoLineTerminatorConcat(a + b, c);
    assert "12, 1—11" == a + b + c;
    assert NoSpaceNoDash("12,") && NoSpaceNoDash("1") && NoSpaceNoDash("11");
    NormalizeCvSpaceAndDash("12,", "1", "11");
    assert "12, 1—11" == "12," + " " + "1" + "—" + "11";
    assert "12," + "1" + "-" + "11" == "12,1-11";
  }

  lemma KorinthiansDotted()
    ensures Normalize("Kor. 12, 1—11") == "Kor 12,1-11"
  {
    KorinthiansPieces();
    KorinthiansDottedPieces();
    KorinthiansDottedVerses();
    KorinthiansBook();
    BookFormAt("Kor. 12, 1—11", "Kor", ".", " ", "12, 1—11", "12, 1—11", "Kor", "12,1-11");
  }

  lemma KorinthiansRoman()
    ensures "I. Kor. 12, 1—11" == "I." + " " + "Kor. 12, 1—11"
    ensures IsNumeral("I.", "12345") && NumeralPrefix(DropDot("I.")) == "1"
    ensures "1" + "Kor 12,1-11" == "1Kor 12,1-11"
  {
    assert "I."[..1] == "I";
  }

  lemma ExampleKorinthiansRoman()
    ensures Normalize("I. Kor. 12, 1—11") == "1Kor 12,1-11"
  {
    KorinthiansRoman();
    KorinthiansDottedPieces();
    KorinthiansDottedVerses();
    KorinthiansPieces();
    KorinthiansBook();
    assert NoLineTerminator(" ");
    NumberedBookFormAt("I.", " ", "Kor", ".", " ", "12, 1—11", "12, 1—11", "Kor", "12,1-11", "1");
    assert "I." + " " + ("Kor" + "." + " " + "12, 1—11") == "I. Kor. 12, 1—11";
    assert "1" + ("Kor" + " " + "12,1-11") == "1Kor 12,1-11";
  }

  // "1z 40,1-5" becomes "Iz 40,1-5".

  lemma IsaiahPieces()
    ensures "1z 40,1-5" == ['1', 'z'] + " " + "40,1-5" && "Iz 40,1-5" == "Iz" + "" + " " + "40,1-5"
    ensures AllSpace(" ") && CleanCv("40,1-5") && !IsSpace("40,1-5"[0]) && !IsSpace("40,1-5"[5])
    ensures StripTrailingDot("40,1-5") == "40,1-5"
    ensures AllBookLetters("Iz") && !AllRoman("Iz")
  {
    assert !IsRomanChar("Iz"[1]);
  }

  lemma IsaiahBook()
    ensures LookupBook("Iz") == "Iz"
    ensures "Iz" + " " + "40,1-5" == "Iz 40,1-5"
  {
    assert LowerStr("Iz") == "iz";
  }

  lemma ExampleIsaiahSlip()
    ensures Normalize("1z 40,1-5") == "Iz 40,1-5"
  {
    IsaiahPieces();
    CleanCvOneLine("40,1-5");
    NormalizeCvClean("40,1-5");
    IsaiahBook();
    BookFormAt("Iz 40,1-5", "Iz", "", " ", "40,1-5", "40,1-5", "Iz", "40,1-5");
    NormalizeIzSlip('z', " ", "40,1-5");
  }

  // "Mt 4,1-11" is already canonical.

  lemma TemptationPieces()
    ensures "Mt 4,1-11" == "Mt" + " " + "4,1-11"
    ensures CleanCv("4,1-11") && IsDigit("4,1-11"[0])
  {
  }

  lemma MatthewCanonical()
    ensures "Mt" in CanonicalBooks
  {
    assert GospelsAndActs[0] == "Mt";
  }

  lemma ExampleCanonicalTemptation()
    ensures Normalize("Mt 4,1-11") == "Mt 4,1-11"
  {
    TemptationPieces();
    MatthewCanonical();
    CanonicalUnchanged("Mt", "4,1-11");
  }

  // Normalising twice is not normalising once: "Mt 4..." becomes "Mt 4." and then "Mt 4".

  lemma DotsPieces()
    ensures "Mt 4..." == "Mt" + "" + " " + "4..." && "Mt 4." == "Mt" + "" + " " + "4."
    ensures AllBookLetters("Mt") && !AllRoman("Mt") && AllSpace(" ")
    ensures !IsSpace("4..."[0]) && !IsSpace("4..."[3]) && NoLineTerminator("4...")
    ensures !IsSpace("4."[0]) && !IsSpace("4."[1]) && NoLineTerminator("4.")
    ensures StripTrailingDot("4...") == "4.." && StripTrailingDot("4.") == "4"
  {
    assert !IsRomanChar("Mt"[0]);
  }

  lemma DotsVerses()
    ensures NormalizeCv("4..") == "4." && NormalizeCv("4") == "4"
    ensures LookupBook("Mt") == "Mt"
    ensures "Mt" + " " + "4." == "Mt 4." && "Mt" + " " + "4" == "Mt 4"
  {
    assert CleanCv("4");
    NormalizeCvClean("4");
    RemoveSpacesNone("4..");
    CollapseDashesNone("4..");
    assert LowerStr("Mt") == "mt";
  }

  lemma ExampleNotIdempotent()
    ensures Normalize("Mt 4...") == "Mt 4."
    ensures Normalize("Mt 4.") == "Mt 4"
    ensures Normalize(Normalize("Mt 4...")) != Normalize("Mt 4...")
  {
    DotsPieces();
    DotsVerses();
    BookFormAt("Mt 4...", "Mt", "", " ", "4...", "4..", "Mt", "4.");
    BookFormAt("Mt 4.", "Mt", "", " ", "4.", "4", "Mt", "4");
  }
}
