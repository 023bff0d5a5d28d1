/**
 * The first pass of `parsePostily` in scripts/parse-postily.ts. The lines of an
 * OCR transcript are cut at the marker lines "Český zápas, ročník Y, číslo N".
 * For the segment that follows each marker, a cursor walk reads:
 *   - an optional "(Upraveno ..." line;
 *   - the title lines;
 *   - the parenthesised citation block;
 *   - the body, which loses the page numbers and is then split into the
 *     quoted Bible text and the commentary.
 * The postil number is looked for on the ten lines before the marker.
 */
module PostilSegmenter {
  import opened Text
  import PostilRefs

  /** One postil as the parser emits it. */
  datatype Postil = Postil(
    number: int,
    title: string,
    refs: seq<string>,
    refsRaw: string,
    liturgical: string,
    year: nat,
    issue: nat,
    sourceRef: string,
    biblicalText: string,
    content: string)

  /** A marker line: its index and the year and issue it names. */
  datatype Marker = Marker(line: nat, year: nat, issue: nat)

  // ---------------------------------------------------------------------------
  // Marker lines
  // ---------------------------------------------------------------------------

  /** `\s*,?\s*` from position `q`: the end of the match. */
  function CommaGap(s: string, q: nat): (e: nat)
    requires q <= |s|
    ensures q <= e <= |s|
  {
    var a := SpanWhile(s, q, IsSpace);
    var b := if a < |s| && s[a] == ',' then a + 1 else a;
    SpanWhile(s, b, IsSpace)
  }

  /** `(\d{4})\s*,?\s*číslo\s*(\d{1,2})` from position `f`: the year and the issue. */
  function YearAndIssue(s: string, f: nat): Option<(nat, nat)>
    requires f <= |s|
  {
    if f + 4 <= |s| && AllDigits(s[f..f + 4]) then
      match WordAt(s, CommaGap(s, f + 4), "číslo")
      case None => None
      case Some(h) =>
        var i := SpanWhile(s, h, IsSpace);
        var j := if i < |s| && IsDigit(s[i]) then (if i + 1 < |s| && IsDigit(s[i + 1]) then i + 2 else i + 1) else i;
        if j == i then None
        else
          assert AllDigits(s[i..j]);
          Some((DigitsValue(s[f..f + 4]), DigitsValue(s[i..j])))
    else None
  }

  /**
   * The marker pattern `Český\s*zápas\s*,?\s*ročník\s*(\d{4})\s*,?\s*číslo\s*(\d{1,2})`
   * with /i, tried at position `q`. Every `\s*` and `,?` in it takes all it
   * can, since what follows each of them can start neither with whitespace
   * nor with a comma.
   */
  function MarkerAt(s: string, q: nat): Option<(nat, nat)>
    requires q <= |s|
  {
    match WordAt(s, q, "Český")
    case None => None
    case Some(a) => (
      match WordAt(s, SpanWhile(s, a, IsSpace), "zápas")
      case None => None
      case Some(b) => (
        match WordAt(s, CommaGap(s, b), "ročník")
        case None => None
        case Some(c) => YearAndIssue(s, SpanWhile(s, c, IsSpace))))
  }

  /** The leftmost match of the marker pattern from position `q` on. */
  function MarkerFrom(s: string, q: nat): Option<(nat, nat)>
    requires q <= |s|
    decreases |s| - q
  {
    if MarkerAt(s, q).Some? then MarkerAt(s, q)
    else if q == |s| then None
    else MarkerFrom(s, q + 1)
  }

  /** What `line.match(marker)` yields: the year and the issue of a marker line. */
  function MarkerIn(line: string): Option<(nat, nat)> {
    MarkerFrom(line, 0)
  }

  /** The hits of a line test among the first `n` lines, in order. */
  function Hits(lines: seq<string>, n: nat, find: string -> Option<(nat, nat)>): seq<Marker>
    requires n <= |lines|
  {
    if n == 0 then []
    else
      Hits(lines, n - 1, find) +
      (match find(lines[n - 1])
       case Some((y, i)) => [Marker(n - 1, y, i)]
       case None => [])
  }

  /** The marker lines of the transcript, in order. */
  function Markers(lines: seq<string>): seq<Marker> {
    Hits(lines, |lines|, MarkerIn)
  }

  /** Marker lines inside the text, each after the one before it. */
  predicate Ordered(lines: seq<string>, ms: seq<Marker>) {
    (forall k :: 0 <= k < |ms| ==> ms[k].line < |lines|)
    && (forall k :: 0 < k < |ms| ==> ms[k - 1].line < ms[k].line)
  }

  /** Each marker is a hit of `find`, with the year and the issue it yields. */
  predicate Genuine(lines: seq<string>, ms: seq<Marker>, find: string -> Option<(nat, nat)>) {
    forall k :: 0 <= k < |ms| ==> ms[k].line < |lines| && find(lines[ms[k].line]) == Some((ms[k].year, ms[k].issue))
  }

  /** The hits among the first `n` lines are lines before `n`, in line order. */
  lemma {:induction false} HitsOrdered(lines: seq<string>, n: nat, find: string -> Option<(nat, nat)>)
    requires n <= |lines|
    ensures Ordered(lines, Hits(lines, n, find))
    ensures forall k :: 0 <= k < |Hits(lines, n, find)| ==> Hits(lines, n, find)[k].line < n
  {
    if n > 0 {
      HitsOrdered(lines, n - 1, find);
      var prev := Hits(lines, n - 1, find);
      var ms := Hits(lines, n, find);
      assert forall k :: 0 <= k < |prev| ==> ms[k] == prev[k];
    }
  }

  /** Each hit is a line that `find` matches, with what it yields. */
  lemma {:induction false} HitsGenuine(lines: seq<string>, n: nat, find: string -> Option<(nat, nat)>)
    requires n <= |lines|
    ensures Genuine(lines, Hits(lines, n, find), find)
  {
    if n > 0 {
      HitsGenuine(lines, n - 1, find);
      var prev := Hits(lines, n - 1, find);
      var ms := Hits(lines, n, find);
      assert forall k :: 0 <= k < |prev| ==> ms[k] == prev[k];
    }
  }

  /** Whether some marker is at line `i`. */
  predicate Listed(ms: seq<Marker>, i: nat) {
    exists k :: 0 <= k < |ms| && ms[k].line == i
  }

  /** No line that `find` matches is missed. */
  lemma {:induction false} HitsComplete(lines: seq<string>, n: nat, find: string -> Option<(nat, nat)>)
    requires n <= |lines|
    ensures forall i :: 0 <= i < n && find(lines[i]).Some? ==> Listed(Hits(lines, n, find), i)
  {
    if n > 0 {
      HitsComplete(lines, n - 1, find);
      var prev := Hits(lines, n - 1, find);
      var ms := Hits(lines, n, find);
      forall i | 0 <= i < n && find(lines[i]).Some?
        ensures Listed(ms, i)
      {
        if i < n - 1 {
          var k :| 0 <= k < |prev| && prev[k].line == i;
          assert ms[k] == prev[k];
        } else {
          var v := find(lines[i]).value;
          assert ms == prev + [Marker(i, v.0, v.1)];
          assert ms[|prev|].line == i;
        }
      }
    }
  }

  /** The markers of the transcript are its marker lines, in order. */
  lemma MarkersExact(lines: seq<string>)
    ensures Ordered(lines, Markers(lines)) && Genuine(lines, Markers(lines), MarkerIn)
    ensures forall i :: 0 <= i < |lines| ==>
      (MarkerIn(lines[i]).Some? <==> Listed(Markers(lines), i))
  {
    HitsOrdered(lines, |lines|, MarkerIn);
    HitsGenuine(lines, |lines|, MarkerIn);
    HitsComplete(lines, |lines|, MarkerIn);
  }

  /** The loop over the lines that collects the markers. */
  method FindMarkers(lines: seq<string>) returns (ms: seq<Marker>)
    ensures ms == Markers(lines)
  {
    ms := [];
    for i := 0 to |lines|
      invariant ms == Hits(lines, i, MarkerIn)
    {
      var m := MarkerIn(lines[i]);
      if m.Some? {
        ms := ms + [Marker(i, m.value.0, m.value.1)];
      }
    }
  }

  /** `Český zápas, ročník ${year}, číslo ${issue}`. */
  function SourceRef(year: nat, issue: nat): string {
    "Český zápas, ročník " + NatToString(year) + ", číslo " + NatToString(issue)
  }

  // ---------------------------------------------------------------------------
  // The postil number
  // ---------------------------------------------------------------------------

  /** `^(\d{1,3})\.?\s*$`: a line that holds a number of one to three digits, perhaps a dot, and whitespace. */
  function PageNumber(l: string): Option<nat> {
    var d := SpanWhile(l, 0, IsDigit);
    var e := if d < |l| && l[d] == '.' then d + 1 else d;
    if 1 <= d <= 3 && SpanWhile(l, e, IsSpace) == |l| then
      assert AllDigits(l[..d]);
      Some(DigitsValue(l[..d]))
    else None
  }

  /** A number line is taken when it has a dot or its number is within 5 of the expected one. */
  function Accepted(l: string, expected: int): Option<nat> {
    var candidate := PageNumber(l);
    if candidate.Some? && ('.' in l || (expected - 5 <= candidate.value <= expected + 5)) then candidate else None
  }

  /** The value `take` gives the nearest line of `window` it takes, looking back from the end; 0 when it takes none. */
  function NearestTaken(window: seq<string>, take: string -> Option<nat>): nat
    decreases |window|
  {
    if window == [] then 0
    else match take(window[|window| - 1])
      case Some(v) => v
      case None => NearestTaken(window[..|window| - 1], take)
  }

  /** The postil number read from the lines before its marker. */
  function NumberIn(window: seq<string>, expected: int): nat {
    NearestTaken(window, l => Accepted(l, expected))
  }

  /** The first of the (at most) ten lines before line `at`. */
  function WindowStart(at: nat): (r: nat)
    ensures r <= at && at - r <= 10
  {
    if at >= 10 then at - 10 else 0
  }

  /** When `take` takes no line of the window, the value is 0. */
  lemma {:induction false} NearestTakenNone(window: seq<string>, take: string -> Option<nat>)
    requires forall i :: 0 <= i < |window| ==> take(window[i]).None?
    ensures NearestTaken(window, take) == 0
    decreases |window|
  {
    if window != [] {
      var front := window[..|window| - 1];
      assert forall i :: 0 <= i < |front| ==> front[i] == window[i];
      NearestTakenNone(front, take);
    }
  }

  /** The value comes from the last line `take` takes. */
  lemma {:induction false} NearestTakenAt(window: seq<string>, take: string -> Option<nat>, i: nat)
    requires i < |window| && take(window[i]).Some?
    requires forall j :: i < j < |window| ==> take(window[j]).None?
    ensures NearestTaken(window, take) == take(window[i]).value
    decreases |window|
  {
    var last := |window| - 1;
    if i < last {
      var front := window[..last];
      assert forall j :: i < j < |front| ==> front[j] == window[j];
      assert front[i] == window[i];
      NearestTakenAt(front, take, i);
    }
  }

  /** With no acceptable line before the marker, the number is 0. */
  lemma NumberInNone(window: seq<string>, expected: int)
    requires forall i :: 0 <= i < |window| ==> Accepted(window[i], expected).None?
    ensures NumberIn(window, expected) == 0
  {
    NearestTakenNone(window, l => Accepted(l, expected));
  }

  /** The number is that of the last acceptable line before the marker. */
  lemma NumberInAt(window: seq<string>, expected: int, i: nat)
    requires i < |window| && Accepted(window[i], expected).Some?
    requires forall j :: i < j < |window| ==> Accepted(window[j], expected).None?
    ensures NumberIn(window, expected) == PageNumber(window[i]).value
  {
    NearestTakenAt(window, l => Accepted(l, expected), i);
  }

  /** The backward loop over the ten lines before the marker at line `at`. */
  method RecoverNumber(lines: seq<string>, at: nat, expected: int) returns (postilNumber: nat)
    requires at <= |lines|
    ensures postilNumber == NumberIn(lines[WindowStart(at)..at], expected)
  {
    var lo := WindowStart(at);
    postilNumber := 0;
    var back: int := at - 1;
    while back >= lo
      invariant lo - 1 <= back < at
      invariant NumberIn(lines[lo..at], expected) == NumberIn(lines[lo..back + 1], expected)
      decreases back
    {
      var line := lines[back];
      var candidate := PageNumber(line);
      NumberStep(lines, lo, back, expected);
      if candidate.Some? {
        var hasDot := '.' in line;
        if hasDot || (expected - 5 <= candidate.value && candidate.value <= expected + 5) {
          postilNumber := candidate.value;
          break;
        }
      }
      back := back - 1;
    }
  }

  /** One step of the backward loop: the window's last line is taken, or the window shrinks by one. */
  lemma NumberStep(lines: seq<string>, lo: nat, back: nat, expected: int)
    requires lo <= back < |lines|
    ensures NumberIn(lines[lo..back + 1], expected) ==
      match Accepted(lines[back], expected)
      case Some(v) => v
      case None => NumberIn(lines[lo..back], expected)
  {
    assert lines[lo..back + 1][..back - lo] == lines[lo..back];
  }

  // ---------------------------------------------------------------------------
  // The cursor walk over a segment
  //
  // `seg` holds the lines strictly between a marker and the next one, and
  // `tl` the same lines trimmed: where the source tests or copies
  // `lines[cursor].trim()`, the model reads `tl[cursor]`.
  // ---------------------------------------------------------------------------

  /** The lines of a segment, each trimmed. */
  function TrimLines(seg: seq<string>): (tl: seq<string>)
    ensures |tl| == |seg|
  {
    MapSeq(seg, Trim)
  }

  /** The first line from `c` on that is not blank, or the end of the segment. */
  function SkipBlanks(tl: seq<string>, c: nat): (r: nat)
    requires c <= |tl|
    ensures c <= r <= |tl|
    ensures forall i :: c <= i < r ==> tl[i] == []
    ensures r < |tl| ==> tl[r] != []
    decreases |tl| - c
  {
    if c < |tl| && tl[c] == [] then SkipBlanks(tl, c + 1) else c
  }

  /** The cursor after the blank lines and the optional "(Upraveno ..." line that open a segment. */
  function AfterPreamble(tl: seq<string>): (c: nat)
    ensures c <= |tl|
  {
    var c := SkipBlanks(tl, 0);
    if c < |tl| && StartsWithI(tl[c], "(Upraven") then SkipBlanks(tl, c + 1) else c
  }

  /** The class `[,,„«]` of characters that open a quoted Bible text. */
  predicate IsQuoteOpen(c: char) {
    c == ',' || c == '„' || c == '«'
  }

  /**
   * The title loop from cursor `c`, with the title lines `acc` so far: blank
   * lines are passed over, a line starting with "(" ends the title, and so
   * does a line opening a quotation once the title has a line.
   */
  function TitleScan(tl: seq<string>, c: nat, acc: seq<string>): (r: (seq<string>, nat))
    requires c <= |tl|
    ensures c <= r.1 <= |tl|
    ensures |acc| <= |r.0| && r.0[..|acc|] == acc
    decreases |tl| - c
  {
    if c == |tl| then (acc, c)
    else if tl[c] == [] then TitleScan(tl, c + 1, acc)
    else if StartsWith(tl[c], "(") then (acc, c)
    else if IsQuoteOpen(tl[c][0]) && acc != [] then (acc, c)
    else
      var r := TitleScan(tl, c + 1, acc + [tl[c]]);
      assert r.0[..|acc|] == (acc + [tl[c]])[..|acc|];
      r
  }

  /** The title's quotation marks `„`, `"` and every comma become `"`, as the class `[„"",,]` has them. */
  function QuoteMark(c: char): char {
    if c == '„' || c == '"' || c == ',' then '"' else c
  }

  /** The title lines joined by spaces, whitespace runs collapsed, quotation marks made plain, trimmed. */
  function TitleText(titleLines: seq<string>): string {
    Trim(MapSeq(CollapseSpaces(Join(titleLines, " ")), QuoteMark))
  }

  /**
   * The lines of a citation block from cursor `c`: each trimmed line is added
   * after a space until the text holds a ')'. The text and the cursor after it.
   */
  function RefLines(tl: seq<string>, c: nat, acc: string): (r: (string, nat))
    requires c <= |tl|
    ensures c <= r.1 <= |tl|
    decreases |tl| - c
  {
    if c == |tl| then (acc, c)
    else
      var text := acc + " " + tl[c];
      if ')' in text then (text, c + 1) else RefLines(tl, c + 1, text)
  }

  /** Whether a trimmed line opens a second citation block. */
  predicate SecondBlock(t: string) {
    StartsWith(t, "(Epištola") || (StartsWith(t, "(") && HasDigit(t))
  }

  /**
   * The citation block at cursor `c`, when the line there starts with "(":
   * the raw citation text, what the extractor makes of it, and the cursor
   * after it. Otherwise no citation, and the cursor stays.
   */
  function RefBlock(tl: seq<string>, c: nat): (r: (string, PostilRefs.Citation, nat))
    requires c <= |tl|
    ensures c <= r.2 <= |tl|
  {
    if c < |tl| && StartsWith(tl[c], "(") then
      var (raw, c1) := RawBlocks(tl, c);
      (raw, PostilRefs.Extract(raw), c1)
    else ("", PostilRefs.Citation([], ""), c)
  }

  /** The text of one block, and of a second one on the next non-blank line joined to it after a space. */
  function RawBlocks(tl: seq<string>, c: nat): (r: (string, nat))
    requires c <= |tl|
    ensures c <= r.1 <= |tl|
  {
    var (t1, c1) := RefLines(tl, c, "");
    var c2 := SkipBlanks(tl, c1);
    if c2 < |tl| && SecondBlock(tl[c2]) then
      var (t2, c3) := RefLines(tl, c2, "");
      (Trim(t1) + " " + Trim(t2), c3)
    else (Trim(t1), c2)
  }

  /** `^\d{1,3}$` on a trimmed line: a standalone page number. */
  predicate IsPageLine(t: string) {
    1 <= |t| <= 3 && IsDigit(t[0]) && (|t| < 2 || IsDigit(t[1])) && (|t| < 3 || IsDigit(t[2]))
  }

  /** Whether the content loop drops line `i` of a body that starts at `c`: a page number more than five lines in. */
  predicate Dropped(tl: seq<string>, c: nat, i: nat)
    requires i < |tl|
  {
    IsPageLine(tl[i]) && i > c + 5
  }

  /** The body lines among `seg[c..n]` that the content loop keeps, untrimmed and in order. */
  function Kept(seg: seq<string>, tl: seq<string>, c: nat, n: nat): (r: seq<string>)
    requires c <= n <= |seg| == |tl|
    ensures |r| <= n - c
    decreases n
  {
    if n == c then []
    else if Dropped(tl, c, n - 1) then Kept(seg, tl, c, n - 1)
    else Kept(seg, tl, c, n - 1) + [seg[n - 1]]
  }

  /** The body from cursor `c`: the kept lines joined by line breaks, trimmed. */
  function Body(seg: seq<string>, tl: seq<string>, c: nat): string
    requires c <= |seg| == |tl|
  {
    Trim(Join(Kept(seg, tl, c, |seg|), "\n"))
  }

  /** The class `[,,„«"]` that opens the quoted Bible text. */
  predicate IsQuoteStart(c: char) {
    c == ',' || c == '„' || c == '«' || c == '"'
  }

  /** The class `[A-ZÁČĎÉĚÍŇÓŘŠŤÚŮÝŽ]`. */
  predicate IsCapital(c: char) {
    ('A' <= c <= 'Z') || IsCzechUpper(c)
  }

  /**
   * The first end of the quoted paragraph at or after `p`: a blank line
   * ("\n\n"), or a line break before a capital. Its position and length.
   */
  function QuoteEnd(s: string, p: nat): (r: Option<(nat, nat)>)
    requires p <= |s|
    ensures r.Some? ==> p <= r.value.0 && r.value.0 + r.value.1 <= |s| && 1 <= r.value.1 <= 2
    decreases |s| - p
  {
    if p + 1 >= |s| then None
    else if s[p] == '\n' && s[p + 1] == '\n' then Some((p, 2))
    else if s[p] == '\n' && IsCapital(s[p + 1]) then Some((p, 1))
    else QuoteEnd(s, p + 1)
  }

  /**
   * `^([,,„«"].+?)(?:\n\n|\n(?=[A-ZÁČĎÉĚÍŇÓŘŠŤÚŮÝŽ]))` with /s: the Bible text
   * (at least two characters, trimmed) and the commentary after it; without
   * a match, no Bible text and the whole body as commentary.
   */
  function QuoteSplit(full: string): (r: (string, string))
    ensures r != ("", full) ==> |full| >= 2 && IsQuoteStart(full[0])
  {
    if |full| >= 2 && IsQuoteStart(full[0]) then
      match QuoteEnd(full, 2)
      case Some((p, len)) => (Trim(full[..p]), Trim(full[p + len..]))
      case None => ("", full)
    else ("", full)
  }

  /** What a segment yields, before the number, the marker and the source are added. */
  datatype Parts = Parts(
    title: string,
    refs: seq<string>,
    refsRaw: string,
    liturgical: string,
    biblicalText: string,
    content: string)

  /** The parts from the title, the citation and the body: an empty commentary leaves the whole body as content. */
  function Assemble(title: string, refsRaw: string, citation: PostilRefs.Citation, fullContent: string): Parts {
    var (biblicalText, commentary) := QuoteSplit(fullContent);
    Parts(title, citation.refs, refsRaw, citation.liturgical, biblicalText,
          if commentary != [] then commentary else fullContent)
  }

  /** The cursor walk over a segment and its trimmed lines. */
  function PartsFrom(seg: seq<string>, tl: seq<string>): Parts
    requires |seg| == |tl|
  {
    var (titleLines, c1) := TitleScan(tl, AfterPreamble(tl), []);
    var (raw, citation, c2) := RefBlock(tl, c1);
    Assemble(TitleText(titleLines), raw, citation, Body(seg, tl, SkipBlanks(tl, c2)))
  }

  /** The cursor walk over the lines strictly between a marker and the next one. */
  function PartsOf(seg: seq<string>): Parts {
    PartsFrom(seg, TrimLines(seg))
  }

  /** The line after marker `k`'s segment: the next marker, or the end of the text. */
  function SegmentEnd(lines: seq<string>, ms: seq<Marker>, k: nat): (e: nat)
    requires Ordered(lines, ms) && k < |ms|
    ensures ms[k].line < e <= |lines|
  {
    if k + 1 < |ms| then ms[k + 1].line else |lines|
  }

  /** The record of marker `k`. */
  function Record(lines: seq<string>, ms: seq<Marker>, k: nat): Postil
    requires Ordered(lines, ms) && k < |ms|
  {
    var m := ms[k];
    Build(m, NumberIn(lines[WindowStart(m.line)..m.line], k + 1), PartsOf(lines[m.line + 1..SegmentEnd(lines, ms, k)]))
  }

  /** The record of a marker, its number and its parts. */
  function Build(m: Marker, number: nat, p: Parts): (r: Postil)
    ensures r.year == m.year && r.issue == m.issue && r.sourceRef == SourceRef(m.year, m.issue)
    ensures r.number == number && r.title == p.title && r.refs == p.refs && r.content == p.content
  {
    Postil(number, p.title, p.refs, p.refsRaw, p.liturgical,
           m.year, m.issue, SourceRef(m.year, m.issue), p.biblicalText, p.content)
  }

  /** The records of the first `n` markers, in marker order. */
  function Records(lines: seq<string>, ms: seq<Marker>, n: nat): (ps: seq<Postil>)
    requires Ordered(lines, ms) && n <= |ms|
    ensures |ps| == n
  {
    Table(n, (k: nat) requires Ordered(lines, ms) && k < |ms| => Record(lines, ms, k))
  }

  /** The records of the first pass, one per marker. */
  function Segment(lines: seq<string>): (ps: seq<Postil>)
    ensures |ps| == |Markers(lines)|
  {
    HitsOrdered(lines, |lines|, MarkerIn);
    Records(lines, Markers(lines), |Markers(lines)|)
  }

  // ---------------------------------------------------------------------------
  // The walk as the source does it, with a cursor
  // ---------------------------------------------------------------------------

  /** `while (cursor < next && lines[cursor].trim() === "") cursor++`. */
  method SkipBlankLines(tl: seq<string>, cursor: nat) returns (c: nat)
    requires cursor <= |tl|
    ensures c == SkipBlanks(tl, cursor)
  {
    c := cursor;
    while c < |tl| && tl[c] == ""
      invariant cursor <= c <= |tl|
      invariant SkipBlanks(tl, c) == SkipBlanks(tl, cursor)
      decreases |tl| - c
    {
      c := c + 1;
    }
  }

  /** The title loop. */
  method ReadTitle(tl: seq<string>, cursor: nat) returns (titleLines: seq<string>, c: nat)
    requires cursor <= |tl|
    ensures (titleLines, c) == TitleScan(tl, cursor, [])
  {
    titleLines := [];
    c := cursor;
    while c < |tl|
      invariant cursor <= c <= |tl|
      invariant TitleScan(tl, c, titleLines) == TitleScan(tl, cursor, [])
      decreases |tl| - c
    {
      var line := tl[c];
      if line == "" {
        c := c + 1;
        continue;
      }
      if StartsWith(line, "(") {
        break;
      }
      if IsQuoteOpen(line[0]) && |titleLines| > 0 {
        break;
      }
      titleLines := titleLines + [line];
      c := c + 1;
    }
  }

  /** The loop that gathers the lines of one citation block. */
  method ReadRefLines(tl: seq<string>, cursor: nat) returns (refText: string, c: nat)
    requires cursor <= |tl|
    ensures (refText, c) == RefLines(tl, cursor, "")
  {
    refText := "";
    c := cursor;
    while c < |tl|
      invariant cursor <= c <= |tl|
      invariant RefLines(tl, c, refText) == RefLines(tl, cursor, "")
      decreases |tl| - c
    {
      refText := refText + " " + tl[c];
      c := c + 1;
      if ')' in refText {
        break;
      }
    }
  }

  /** One citation block, and a second one when the next non-blank line opens one. */
  method ReadBlocks(tl: seq<string>, cursor: nat) returns (refsRaw: string, c: nat)
    requires cursor <= |tl|
    ensures (refsRaw, c) == RawBlocks(tl, cursor)
  {
    var refText;
    refText, c := ReadRefLines(tl, cursor);
    refsRaw := Trim(refText);
    c := SkipBlankLines(tl, c);
    if c < |tl| && (StartsWith(tl[c], "(Epištola") || (StartsWith(tl[c], "(") && HasDigit(tl[c]))) {
      var refText2;
      refText2, c := ReadRefLines(tl, c);
      refsRaw := refsRaw + " " + Trim(refText2);
    }
  }

  /** The citation block: one or two parenthesised blocks, handed to the extractor. */
  method ReadCitation(tl: seq<string>, cursor: nat) returns (refsRaw: string, citation: PostilRefs.Citation, c: nat)
    requires cursor <= |tl|
    ensures (refsRaw, citation, c) == RefBlock(tl, cursor)
  {
    refsRaw := "";
    citation := PostilRefs.Citation([], "");
    c := cursor;
    if c < |tl| && StartsWith(tl[c], "(") {
      refsRaw, c := ReadBlocks(tl, c);
      citation := PostilRefs.ExtractBiblicalRefs(refsRaw);
    }
  }

  /** The content loop: every line of the rest except page numbers more than five lines in. */
  method ReadContent(seg: seq<string>, tl: seq<string>, cursor: nat) returns (contentLines: seq<string>)
    requires cursor <= |seg| == |tl|
    ensures contentLines == Kept(seg, tl, cursor, |seg|)
  {
    contentLines := [];
    for i := cursor to |seg|
      invariant contentLines == Kept(seg, tl, cursor, i)
    {
      if IsPageLine(tl[i]) && i > cursor + 5 {
        continue;
      }
      contentLines := contentLines + [seg[i]];
    }
  }

  /** The blank lines and the optional "(Upraveno ..." line that open a segment. */
  method SkipPreamble(tl: seq<string>) returns (cursor: nat)
    ensures cursor == AfterPreamble(tl)
  {
    cursor := SkipBlankLines(tl, 0);
    if cursor < |tl| && StartsWithI(tl[cursor], "(Upraven") {
      cursor := SkipBlankLines(tl, cursor + 1);
    }
  }

  /** The walk over a segment and its trimmed lines: title, citation, body. */
  method Walk(seg: seq<string>, tl: seq<string>) returns (p: Parts)
    requires |seg| == |tl|
    ensures p == PartsFrom(seg, tl)
  {
    var cursor := SkipPreamble(tl);
    var titleLines;
    titleLines, cursor := ReadTitle(tl, cursor);
    var title := TitleText(titleLines);
    var refsRaw, citation;
    refsRaw, citation, cursor := ReadCitation(tl, cursor);
    cursor := SkipBlankLines(tl, cursor);
    var contentLines := ReadContent(seg, tl, cursor);
    var fullContent := Trim(Join(contentLines, "\n"));
    p := Assemble(title, refsRaw, citation, fullContent);
  }

  /** The cursor walk over the lines `lo` to `hi` that follow a marker. */
  method ReadParts(lines: seq<string>, lo: nat, hi: nat) returns (p: Parts)
    requires lo <= hi <= |lines|
    ensures p == PartsOf(lines[lo..hi])
  {
    var seg := lines[lo..hi];
    p := Walk(seg, TrimLines(seg));
  }

  /** The record of the `k`-th marker, numbered from the lines before it. */
  method ReadPostil(lines: seq<string>, ms: seq<Marker>, k: nat, expectedNumber: int) returns (p: Postil)
    requires Ordered(lines, ms) && k < |ms| && expectedNumber == k + 1
    ensures p == Record(lines, ms, k)
  {
    var cz := ms[k];
    var postilNumber := RecoverNumber(lines, ms[k].line, expectedNumber);
    var parts := ReadParts(lines, ms[k].line + 1, SegmentEnd(lines, ms, k));
    p := Build(cz, postilNumber, parts);
  }

  /** The first pass: the markers, then one record per marker. */
  method SegmentPostils(lines: seq<string>) returns (postily: seq<Postil>)
    ensures postily == Segment(lines)
  {
    var czLines := FindMarkers(lines);
    HitsOrdered(lines, |lines|, MarkerIn);
    postily := [];
    for czIdx := 0 to |czLines|
      invariant postily == Records(lines, czLines, czIdx)
    {
      var p := ReadPostil(lines, czLines, czIdx, |postily| + 1);
      postily := postily + [p];
    }
  }

  // ---------------------------------------------------------------------------
  // Properties of the first pass
  // ---------------------------------------------------------------------------

  /** Ordered markers are strictly increasing in their lines. */
  lemma {:induction false} OrderedLess(lines: seq<string>, ms: seq<Marker>, a: nat, b: nat)
    requires Ordered(lines, ms) && a < b < |ms|
    ensures ms[a].line < ms[b].line
    decreases b - a
  {
    if a + 1 < b {
      OrderedLess(lines, ms, a, b - 1);
    }
  }

  /** No line strictly between two consecutive hits, or after the last one, is a hit. */
  lemma NoHitBetween(lines: seq<string>, n: nat, find: string -> Option<(nat, nat)>, k: nat, i: nat)
    requires n <= |lines| && k < |Hits(lines, n, find)| && Hits(lines, n, find)[k].line < i < n
    requires k + 1 < |Hits(lines, n, find)| ==> i < Hits(lines, n, find)[k + 1].line
    ensures find(lines[i]).None?
  {
    HitsOrdered(lines, n, find);
    HitsComplete(lines, n, find);
    OrderedMonotone(lines, Hits(lines, n, find));
  }

  /** Ordered markers are strictly increasing in their lines, any two of them. */
  lemma OrderedMonotone(lines: seq<string>, ms: seq<Marker>)
    requires Ordered(lines, ms)
    ensures forall a, b :: 0 <= a < b < |ms| ==> ms[a].line < ms[b].line
  {
    forall a, b | 0 <= a < b < |ms|
      ensures ms[a].line < ms[b].line
    {
      OrderedLess(lines, ms, a, b);
    }
  }

  /** No line strictly inside a segment is a marker line. */
  lemma NoMarkerInSegment(lines: seq<string>, k: nat, i: nat)
    requires k < |Markers(lines)| && Markers(lines)[k].line < i < |lines|
    requires k + 1 < |Markers(lines)| ==> i < Markers(lines)[k + 1].line
    ensures MarkerIn(lines[i]).None?
  {
    NoHitBetween(lines, |lines|, MarkerIn, k, i);
  }

  /**
   * One record per marker line, in marker order, built from the marker
   * (year, issue, source reference), the number read from the ten lines
   * before it, and the parts of the lines between it and the next marker.
   */
  lemma SegmentRecords(lines: seq<string>)
    ensures |Segment(lines)| == |Markers(lines)| && Ordered(lines, Markers(lines))
    ensures forall k :: 0 <= k < |Segment(lines)| ==> Segment(lines)[k] == Record(lines, Markers(lines), k)
  {
    HitsOrdered(lines, |lines|, MarkerIn);
    forall k | 0 <= k < |Segment(lines)|
      ensures Segment(lines)[k] == Record(lines, Markers(lines), k)
    {
      RecordsAt(lines, Markers(lines), |Markers(lines)|, k);
    }
  }

  /** The `k`-th of the first `n` records is the one built for marker `k`. */
  lemma RecordsAt(lines: seq<string>, ms: seq<Marker>, n: nat, k: nat)
    requires Ordered(lines, ms) && k < n <= |ms|
    ensures Records(lines, ms, n)[k] == Record(lines, ms, k)
  {
    TableAt(n, (k: nat) requires Ordered(lines, ms) && k < |ms| => Record(lines, ms, k), k);
  }

  /** The source reference of a record is itself a marker line naming the same year and issue. */
  lemma SourceRefIsMarker(year: nat, issue: nat)
    requires 1000 <= year <= 9999 && issue <= 99
    ensures MarkerIn(SourceRef(year, issue)) == Some((year, issue))
  {
    var y := NatToString(year);
    var n := NatToString(issue);
    NatToStringLength(year);
    NatToStringLength(issue);
    DigitsOfNat(year);
    DigitsOfNat(issue);
    var tail := y + ("," + (" " + ("číslo" + (" " + n))));
    var s := SourceRef(year, issue);
    SourceRefPieces(y, n);
    MarkerHead(s, tail);
    IssueTail(s, y, n);
  }

  /** `SourceRef` as its words, nested to the right. */
  lemma SourceRefPieces(y: string, n: string)
    ensures "Český zápas, ročník " + y + ", číslo " + n
      == "Český" + (" " + ("zápas" + ("," + (" " + ("ročník" + (" " + (y + ("," + (" " + ("číslo" + (" " + n)))))))))))
    ensures ("Český zápas, ročník " + y + ", číslo " + n)[20..] == y + ("," + (" " + ("číslo" + (" " + n))))
  {
    var h := "Český zápas, ročník ";
    var c := ", číslo ";
    Regroup(h, y, c, n);
    var t := y + (c + n);
    HeadWords();
    Assoc("Český", " " + ("zápas" + ("," + (" " + ("ročník" + " ")))), t);
    Assoc(" ", "zápas" + ("," + (" " + ("ročník" + " "))), t);
    Assoc("zápas", "," + (" " + ("ročník" + " ")), t);
    Assoc(",", " " + ("ročník" + " "), t);
    Assoc(" ", "ročník" + " ", t);
    Assoc("ročník", " ", t);
    assert c == "," + (" " + ("číslo" + " "));
    Assoc(",", " " + ("číslo" + " "), n);
    Assoc(" ", "číslo" + " ", n);
    Assoc("číslo", " ", n);
  }

  /** The marker head, the year, the issue label and the issue, nested to the right; the year starts right after the head. */
  lemma Regroup<T>(h: seq<T>, y: seq<T>, c: seq<T>, n: seq<T>)
    ensures h + y + c + n == h + (y + (c + n))
    ensures (h + y + c + n)[|h|..] == y + (c + n)
  {
    assert h + y + c + n == h + (y + (c + n));
  }

  /** The marker head "Český zápas, ročník " as its words and separators. */
  lemma HeadWords()
    ensures "Český zápas, ročník " == "Český" + (" " + ("zápas" + ("," + (" " + ("ročník" + " ")))))
  {
    assert "Český" + " " == "Český ";
    assert "zápas" + "," == "zápas,";
    assert "ročník" + " " == "ročník ";
  }

  /** The head "Český zápas, ročník " of a marker leaves the year at position 20. */
  lemma MarkerHead(s: string, t: string)
    requires s == "Český" + (" " + ("zápas" + ("," + (" " + ("ročník" + (" " + t))))))
    requires t != [] && !IsSpace(t[0])
    ensures MarkerAt(s, 0) == YearAndIssue(s, 20)
  {
    HeadFirst(s, t);
    HeadSecond(s, t);
  }

  lemma HeadFirst(s: string, t: string)
    requires s == "Český" + (" " + ("zápas" + ("," + (" " + ("ročník" + (" " + t))))))
    ensures WordAt(s, 0, "Český") == Some(5) && SpanWhile(s, 5, IsSpace) == 6 && WordAt(s, 6, "zápas") == Some(11)
  {
    assert s[0..][..5] == "Český";
    SpanWhileStops(s, 5, 6, IsSpace);
    assert s[6..][..5] == "zápas";
  }

  lemma HeadSecond(s: string, t: string)
    requires s == "Český" + (" " + ("zápas" + ("," + (" " + ("ročník" + (" " + t))))))
    requires t != [] && !IsSpace(t[0])
    ensures CommaGap(s, 11) == 13 && WordAt(s, 13, "ročník") == Some(19) && SpanWhile(s, 19, IsSpace) == 20
  {
    SpanWhileStops(s, 11, 11, IsSpace);
    SpanWhileStops(s, 12, 13, IsSpace);
    assert s[13..][..6] == "ročník";
    SpanWhileStops(s, 19, 20, IsSpace);
  }

  /** From the year on: four digits, ", číslo ", and one or two digits. */
  lemma IssueTail(s: string, y: string, n: string)
    requires |y| == 4 && AllDigits(y) && 1 <= |n| <= 2 && AllDigits(n)
    requires |s| >= 20 && s[20..] == y + ("," + (" " + ("číslo" + (" " + n))))
    ensures YearAndIssue(s, 20) == Some((DigitsValue(y), DigitsValue(n)))
  {
    YearGap(s, y, n);
    IssueWord(s, y, n);
    assert s[32..32 + |n|] == n;
    assert IsDigit(s[32]) && (|n| == 2 ==> IsDigit(s[33]));
  }

  lemma YearGap(s: string, y: string, n: string)
    requires |y| == 4 && n != [] && IsDigit(n[0])
    requires |s| >= 20 && s[20..] == y + ("," + (" " + ("číslo" + (" " + n))))
    ensures |s| == 32 + |n| && s[20..24] == y && CommaGap(s, 24) == 26
  {
    assert s[20..24] == s[20..][..4];
    SpanWhileStops(s, 24, 24, IsSpace);
    SpanWhileStops(s, 25, 26, IsSpace);
  }

  lemma IssueWord(s: string, y: string, n: string)
    requires |y| == 4 && 1 <= |n| <= 2 && AllDigits(n)
    requires |s| >= 20 && s[20..] == y + ("," + (" " + ("číslo" + (" " + n))))
    ensures WordAt(s, 26, "číslo") == Some(31) && SpanWhile(s, 31, IsSpace) == 32 && s[32..] == n
  {
    IssueWordOf(s, y, "číslo", n);
  }

  lemma IssueWordOf(s: string, y: string, c: string, n: string)
    requires c == "číslo"
    requires |y| == 4 && 1 <= |n| <= 2 && AllDigits(n)
    requires |s| >= 20 && s[20..] == y + ("," + (" " + (c + (" " + n))))
    ensures WordAt(s, 26, c) == Some(31) && SpanWhile(s, 31, IsSpace) == 32 && s[32..] == n
  {
    var u := s[20..];
    var w := c + (" " + n);
    assert u[6..] == w;
    assert s[26..] == w;
    assert s[26..][..5] == c;
    assert s[31] == ' ' && s[32] == n[0];
    SpanWhileStops(s, 31, 32, IsSpace);
    assert s[32..] == w[6..];
  }

  /** A quoted paragraph closed by a blank line is the Bible text; the rest is the commentary. */
  lemma QuoteParagraph(q: string, rest: string)
    requires |q| >= 2 && IsQuoteStart(q[0]) && '\n' !in q
    ensures QuoteSplit(q + "\n\n" + rest) == (Trim(q), Trim(rest))
  {
    var s := q + "\n\n" + rest;
    forall j | 2 <= j < |q|
      ensures s[j] != '\n'
    {
      assert s[j] == q[j];
    }
    QuoteEndSkips(s, 2, |q|);
    assert s[|q|] == '\n' && s[|q| + 1] == '\n';
    assert QuoteEnd(s, 2).Some? && QuoteEnd(s, 2).value == (|q|, 2);
    assert s[..|q|] == q;
    assert s[|q| + 2..] == rest;
    assert s[0] == q[0];
  }

  /** The search for the end of a quoted paragraph passes over characters that are not line breaks. */
  lemma {:induction false} QuoteEndSkips(s: string, p: nat, e: nat)
    requires p <= e < |s| - 1
    requires forall j :: p <= j < e ==> s[j] != '\n'
    ensures QuoteEnd(s, p) == QuoteEnd(s, e)
    decreases e - p
  {
    if p < e {
      QuoteEndSkips(s, p + 1, e);
    }
  }

  /** A body with no droppable page number loses no line. */
  lemma {:induction false} KeptAll(seg: seq<string>, tl: seq<string>, c: nat, n: nat)
    requires c <= n <= |seg| == |tl|
    requires forall i :: c <= i < n ==> !Dropped(tl, c, i)
    ensures Kept(seg, tl, c, n) == seg[c..n]
    decreases n
  {
    if n > c {
      KeptAll(seg, tl, c, n - 1);
      assert seg[c..n] == seg[c..n - 1] + [seg[n - 1]];
    }
  }

  /** The first six lines of a body are always kept: a page number is dropped only further in. */
  lemma KeptEarly(seg: seq<string>, tl: seq<string>, c: nat, n: nat)
    requires c <= n <= |seg| == |tl| && n <= c + 6
    ensures Kept(seg, tl, c, n) == seg[c..n]
  {
    KeptAll(seg, tl, c, n);
  }

  /** A page number more than five lines into the body is dropped, and the others are kept in order. */
  lemma KeptDrops(seg: seq<string>, tl: seq<string>, c: nat, n: nat)
    requires c < n <= |seg| == |tl|
    ensures Kept(seg, tl, c, n) ==
      Kept(seg, tl, c, n - 1) + (if IsPageLine(tl[n - 1]) && n - 1 > c + 5 then [] else [seg[n - 1]])
  {
  }

  /** A trimmed line that neither starts with "(" nor opens a quotation. */
  predicate Plain(t: string) {
    t == [] || (!StartsWith(t, "(") && !IsQuoteOpen(t[0]))
  }

  /** The title loop runs to the end of a segment whose lines are all plain. */
  lemma {:induction false} TitleSwallows(tl: seq<string>, c: nat, acc: seq<string>)
    requires c <= |tl|
    requires forall i :: c <= i < |tl| ==> Plain(tl[i])
    ensures TitleScan(tl, c, acc).1 == |tl|
    decreases |tl| - c
  {
    if c < |tl| {
      if tl[c] == [] {
        TitleSwallows(tl, c + 1, acc);
      } else {
        TitleSwallows(tl, c + 1, acc + [tl[c]]);
      }
    }
  }

  /**
   * A segment with no line that starts with "(" or opens a quotation is
   * swallowed by its title: no citation, no Bible text and no content.
   */
  lemma SwallowedByTitle(seg: seq<string>)
    requires forall i :: 0 <= i < |seg| ==> Plain(Trim(seg[i]))
    ensures var tl := TrimLines(seg);
      PartsOf(seg) == Parts(TitleText(TitleScan(tl, AfterPreamble(tl), []).0), [], "", "", "", "")
  {
    var tl := TrimLines(seg);
    forall i | 0 <= i < |tl|
      ensures Plain(tl[i])
    {
      MapAt(seg, Trim, i);
    }
    var (titleLines, c1) := TitleScan(tl, AfterPreamble(tl), []);
    TitleSwallows(tl, AfterPreamble(tl), []);
    assert RefBlock(tl, c1) == ("", PostilRefs.Citation([], ""), |tl|);
    assert Body(seg, tl, |seg|) == [];
    assert QuoteSplit("") == ("", "");
  }
}
