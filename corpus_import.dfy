/**
 * The corpus import function: the cleaner that turns parsed-PDF markdown
 * into corpus text (page headers, page numbers, image sections and
 * document links dropped; blank-line runs collapsed), and the handler's
 * dispatch on the requested action with its insert defaults.
 */
module CorpusImport {
  import opened Text

  // ---------------------------------------------------------------------------
  // Line rules
  // ---------------------------------------------------------------------------

  /** `/^## Page \d+/` on a trimmed line. */
  predicate IsPageHeader(t: string) {
    |t| > 8 && t[..8] == "## Page " && IsDigit(t[8])
  }

  /** `/^### Images from page/` on a trimmed line. */
  predicate IsImageHeader(t: string) {
    StartsWith(t, "### Images from page")
  }

  /** A trimmed line that lists an image of the parsed document. */
  predicate IsImageUrl(t: string) {
    StartsWith(t, "- `parsed-documents://")
  }

  /**
   * `/^\s*\d{1,3}\s*$/` on a trimmed line of at most three characters: one
   * to three digits (the line is trimmed, so the `\s*` match nothing).
   */
  predicate IsPageNumber(t: string) {
    1 <= |t| <= 3 && AllDigits(t)
  }

  /** `line.includes("parsed-documents://")`. */
  predicate HasDocumentLink(line: string) {
    Contains(line, "parsed-documents://")
  }

  /** What one line does: whether it is kept, and the skip mode after it. */
  datatype LineOutcome = LineOutcome(keep: bool, skip: bool)

  /** One pass of the loop of `cleanContent`, in the mode `skip` (`skipNextImageLines`). */
  function Step(line: string, skip: bool): LineOutcome {
    var t := Trim(line);
    if IsPageHeader(t) then LineOutcome(false, skip)
    else if IsImageHeader(t) then LineOutcome(false, true)
    else if skip && (IsImageUrl(t) || t == "") then LineOutcome(false, t != "")
    else if IsPageNumber(t) || HasDocumentLink(line) then LineOutcome(false, false)
    else LineOutcome(true, false)
  }

  /** The lines the loop keeps, in order, starting in mode `skip`. */
  function KeptLines(lines: seq<string>, skip: bool): seq<string> {
    if lines == [] then []
    else
      var o := Step(lines[0], skip);
      (if o.keep then [lines[0]] else []) + KeptLines(lines[1..], o.skip)
  }

  /** The skip mode after the loop has read `lines`, starting in mode `skip`. */
  function SkipAfter(lines: seq<string>, skip: bool): bool {
    if lines == [] then skip else SkipAfter(lines[1..], Step(lines[0], skip).skip)
  }

  // ---------------------------------------------------------------------------
  // Blank-line runs
  // ---------------------------------------------------------------------------

  /** Three line feeds from position `k`. */
  predicate TripleAt(s: string, k: nat)
    requires k + 2 < |s|
  {
    s[k] == '\n' && s[k + 1] == '\n' && s[k + 2] == '\n'
  }

  /** No three consecutive line feeds. */
  predicate NoTripleNewline(s: string) {
    forall k: nat :: k + 2 < |s| ==> !TripleAt(s, k)
  }

  /** `s.replace(/\n{3,}/g, "\n\n")`: every run of three or more line feeds becomes two. */
  function CollapseBlankLines(s: string): (r: string)
    ensures NoTripleNewline(r)
    ensures s != [] && s[0] != '\n' ==> r != [] && r[0] == s[0]
    ensures s == [] ==> r == []
    decreases |s|
  {
    if s == [] then []
    else if s[0] == '\n' then
      var n := SpanWhile(s, 0, IsLineFeed);
      var run := if n >= 3 then "\n\n" else s[..n];
      var rest := CollapseBlankLines(s[n..]);
      NewlineRunThen(run, s[n..], rest);
      run + rest
    else
      var rest := CollapseBlankLines(s[1..]);
      CharThen(s[0], rest);
      [s[0]] + rest
  }

  /** At most two line feeds before a text that does not start with one make no triple. */
  lemma NewlineRunThen(run: string, s: string, rest: string)
    requires |run| <= 2 && NoTripleNewline(rest)
    requires s == [] || s[0] != '\n'
    requires s != [] && s[0] != '\n' ==> rest != [] && rest[0] == s[0]
    requires s == [] ==> rest == []
    ensures NoTripleNewline(run + rest)
  {
    var w := run + rest;
    forall k: nat | k + 2 < |w|
      ensures !TripleAt(w, k)
    {
      if k >= |run| {
        assert TripleAt(w, k) == TripleAt(rest, k - |run|);
      } else {
        assert w[|run|] == rest[0];
      }
    }
  }

  /** A character that is not a line feed, before a text without triples, makes none. */
  lemma CharThen(c: char, rest: string)
    requires NoTripleNewline(rest)
    requires c != '\n'
    ensures NoTripleNewline([c] + rest)
  {
    var w := [c] + rest;
    forall k: nat | k + 2 < |w|
      ensures !TripleAt(w, k)
    {
      if k >= 1 {
        assert TripleAt(w, k) == TripleAt(rest, k - 1);
      }
    }
  }

  // ---------------------------------------------------------------------------
  // cleanContent
  // ---------------------------------------------------------------------------

  /** `cleanContent` as a value: the kept lines, joined, blank runs collapsed, trimmed. */
  function Cleaned(raw: string): string {
    Trim(CollapseBlankLines(Join(KeptLines(Split(raw, '\n'), false), "\n")))
  }

  /** `cleanContent`: split into lines, filter them, join, collapse the blank runs, trim. */
  method CleanContent(raw: string) returns (r: string)
    ensures r == Cleaned(raw)
  {
    var lines := Split(raw, '\n');
    var cleaned := CleanLines(lines);
    r := Trim(CollapseBlankLines(Join(cleaned, "\n")));
  }

  /** The loop of `cleanContent` over the lines, with its skip mode. */
  method CleanLines(lines: seq<string>) returns (cleaned: seq<string>)
    ensures cleaned == KeptLines(lines, false)
  {
    cleaned := [];
    var skipNextImageLines := false;
    for i := 0 to |lines|
      invariant cleaned == KeptLines(lines[..i], false)
      invariant skipNextImageLines == SkipAfter(lines[..i], false)
    {
      var line := lines[i];
      KeptLinesSnoc(lines, i);
      var keep;
      keep, skipNextImageLines := StepLine(line, skipNextImageLines);
      if keep {
        cleaned := cleaned + [line];
      }
    }
    assert lines[..|lines|] == lines;
  }

  /** One more line read: its outcome in the mode the earlier lines left. */
  lemma KeptLinesSnoc(lines: seq<string>, i: nat)
    requires i < |lines|
    ensures var o := Step(lines[i], SkipAfter(lines[..i], false));
      KeptLines(lines[..i + 1], false) == KeptLines(lines[..i], false) + (if o.keep then [lines[i]] else [])
      && SkipAfter(lines[..i + 1], false) == o.skip
  {
    assert lines[..i + 1] == lines[..i] + [lines[i]];
    KeptLinesConcat(lines[..i], [lines[i]], false);
    SkipAfterConcat(lines[..i], [lines[i]], false);
    assert [lines[i]][1..] == [];
  }

  lemma {:induction false} SkipAfterConcat(xs: seq<string>, ys: seq<string>, skip: bool)
    ensures SkipAfter(xs + ys, skip) == SkipAfter(ys, SkipAfter(xs, skip))
    decreases |xs|
  {
    if xs == [] {
      assert xs + ys == ys;
    } else {
      assert (xs + ys)[0] == xs[0];
      assert (xs + ys)[1..] == xs[1..] + ys;
      SkipAfterConcat(xs[1..], ys, Step(xs[0], skip).skip);
    }
  }

  /** The body of the loop of `cleanContent` for one line. */
  method StepLine(line: string, skip: bool) returns (keep: bool, skipNextImageLines: bool)
    ensures LineOutcome(keep, skipNextImageLines) == Step(line, skip)
  {
    skipNextImageLines := skip;
    var t := Trim(line);
    keep := false;
    if IsPageHeader(t) {
    } else if IsImageHeader(t) {
      skipNextImageLines := true;
    } else if skipNextImageLines && (IsImageUrl(t) || t == "") {
      if t == "" {
        skipNextImageLines := false;
      }
    } else {
      skipNextImageLines := false;
      if !(IsPageNumber(t) && |t| <= 3) && !HasDocumentLink(line) {
        keep := true;
      }
    }
  }

  // ---------------------------------------------------------------------------
  // Properties of the cleaner
  // ---------------------------------------------------------------------------

  /** The filter reads the lines in order: the lines of a split input are those of both parts. */
  lemma {:induction false} KeptLinesConcat(xs: seq<string>, ys: seq<string>, skip: bool)
    ensures KeptLines(xs + ys, skip) == KeptLines(xs, skip) + KeptLines(ys, SkipAfter(xs, skip))
    decreases |xs|
  {
    if xs == [] {
      assert xs + ys == ys;
    } else {
      assert (xs + ys)[0] == xs[0];
      assert (xs + ys)[1..] == xs[1..] + ys;
      KeptLinesConcat(xs[1..], ys, Step(xs[0], skip).skip);
    }
  }

  /**
   * A kept line is one of the input lines, and is no page header, no image
   * header, no page number and has no document link.
   */
  lemma {:induction false} KeptLinesRules(lines: seq<string>, skip: bool, x: string)
    requires x in KeptLines(lines, skip)
    ensures x in lines
    ensures !IsPageHeader(Trim(x)) && !IsImageHeader(Trim(x)) && !IsPageNumber(Trim(x)) && !HasDocumentLink(x)
  {
    var o := Step(lines[0], skip);
    if o.keep && x == lines[0] {
    } else {
      KeptLinesRules(lines[1..], o.skip, x);
    }
  }

  /** A text line outside an image section is kept and leaves the mode off. */
  lemma PlainLineKept(line: string, skip: bool)
    requires var t := Trim(line); !IsPageHeader(t) && !IsImageHeader(t) && !IsImageUrl(t) && t != ""
    requires !IsPageNumber(Trim(line)) && !HasDocumentLink(line)
    ensures Step(line, skip) == LineOutcome(true, false)
  {
  }

  /**
   * In skip mode, a line that is neither an image line nor blank ends the
   * mode and is then judged by the remaining rules, as outside it.
   */
  lemma SkipEnds(line: string)
    requires !IsImageUrl(Trim(line)) && Trim(line) != ""
    ensures Step(line, true).keep == Step(line, false).keep
    ensures Step(line, true).skip <==> IsImageHeader(Trim(line)) || IsPageHeader(Trim(line))
  {
  }

  /**
   * An image section (its header, then image lines, then a blank line) is
   * dropped entirely, and the mode is off after it.
   */
  lemma ImageSectionDropped(h: string, urls: seq<string>, b: string, rest: seq<string>, skip: bool)
    requires IsImageHeader(Trim(h))
    requires forall k :: 0 <= k < |urls| ==> IsImageUrl(Trim(urls[k]))
    requires Trim(b) == ""
    ensures KeptLines([h] + urls + [b] + rest, skip) == KeptLines(rest, false)
  {
    ImageHeaderStep(h, skip);
    assert ([h] + urls + [b] + rest)[0] == h;
    assert ([h] + urls + [b] + rest)[1..] == urls + ([b] + rest);
    UrlsDropped(urls, [b] + rest);
    assert ([b] + rest)[0] == b;
    assert ([b] + rest)[1..] == rest;
  }

  /** An image header is dropped and turns the mode on. */
  lemma ImageHeaderStep(h: string, skip: bool)
    requires IsImageHeader(Trim(h))
    ensures Step(h, skip) == LineOutcome(false, true)
  {
    var t := Trim(h);
    assert t[2] == '#' by {
      assert t[..20][2] == t[2];
    }
  }

  /** In skip mode, an image line is dropped and keeps the mode on. */
  lemma ImageUrlStep(u: string)
    requires IsImageUrl(Trim(u))
    ensures Step(u, true) == LineOutcome(false, true)
  {
    var t := Trim(u);
    assert t[0] == '-' by {
      assert t[..22][0] == t[0];
    }
  }

  /** In skip mode, image lines are dropped and keep the mode on. */
  lemma {:induction false} UrlsDropped(urls: seq<string>, rest: seq<string>)
    requires forall k :: 0 <= k < |urls| ==> IsImageUrl(Trim(urls[k]))
    ensures KeptLines(urls + rest, true) == KeptLines(rest, true)
    decreases |urls|
  {
    if urls == [] {
      assert urls + rest == rest;
    } else {
      ImageUrlStep(urls[0]);
      assert (urls + rest)[0] == urls[0];
      assert (urls + rest)[1..] == urls[1..] + rest;
      UrlsDropped(urls[1..], rest);
    }
  }

  /** A slice of a text without triple line feeds has none. */
  lemma NoTripleSlice(s: string, i: nat, j: nat)
    requires NoTripleNewline(s) && i <= j <= |s|
    ensures NoTripleNewline(s[i..j])
  {
    var w := s[i..j];
    forall k: nat | k + 2 < |w|
      ensures !TripleAt(w, k)
    {
      assert TripleAt(w, k) == TripleAt(s, i + k);
    }
  }

  /** The cleaned text is trimmed and never holds three consecutive line feeds. */
  lemma CleanedShape(raw: string)
    ensures IsTrimmed(Cleaned(raw))
    ensures NoTripleNewline(Cleaned(raw))
  {
    var c := CollapseBlankLines(Join(KeptLines(Split(raw, '\n'), false), "\n"));
    TrimNoTriple(c);
    assert Cleaned(raw) == Trim(c);
  }

  /** Trimming cannot create three consecutive line feeds. */
  lemma TrimNoTriple(c: string)
    requires NoTripleNewline(c)
    ensures NoTripleNewline(Trim(c))
  {
    TrimSlice(c);
    NoTripleSlice(c, |c| - |TrimLeft(c)|, |c| - |TrimLeft(c)| + |Trim(c)|);
  }

  /** Collapsing keeps every character other than a line feed, in order. */
  lemma {:induction false} CollapseKeepsText(s: string)
    ensures RemoveChars(CollapseBlankLines(s), {'\n'}) == RemoveChars(s, {'\n'})
    decreases |s|
  {
    if s != [] {
      if s[0] == '\n' {
        var n := SpanWhile(s, 0, IsLineFeed);
        var run := if n >= 3 then "\n\n" else s[..n];
        CollapseKeepsText(s[n..]);
        assert CollapseBlankLines(s) == run + CollapseBlankLines(s[n..]);
        NewlinesThen(run, CollapseBlankLines(s[n..]));
        assert s[..n] + s[n..] == s;
        NewlinesThen(s[..n], s[n..]);
      } else {
        CollapseKeepsText(s[1..]);
      }
    }
  }

  /** Removing line feeds drops a leading run of them. */
  lemma NewlinesThen(run: string, t: string)
    requires forall k :: 0 <= k < |run| ==> run[k] == '\n'
    ensures RemoveChars(run + t, {'\n'}) == RemoveChars(t, {'\n'})
  {
    RemoveCharsConcat(run, t, {'\n'});
    NewlinesVanish(run);
  }

  /** A run of line feeds leaves nothing once line feeds are removed. */
  lemma {:induction false} NewlinesVanish(s: string)
    requires forall k :: 0 <= k < |s| ==> s[k] == '\n'
    ensures RemoveChars(s, {'\n'}) == []
  {
    if s != [] {
      NewlinesVanish(s[1..]);
    }
  }

  /** A text without triple line feeds is left as it is by the collapse. */
  lemma {:induction false} CollapseClean(s: string)
    requires NoTripleNewline(s)
    ensures CollapseBlankLines(s) == s
    decreases |s|
  {
    if s != [] {
      if s[0] == '\n' {
        var n := SpanWhile(s, 0, IsLineFeed);
        if |s| > 2 {
          assert !TripleAt(s, 0);
        }
        NoTripleSlice(s, n, |s|);
        assert s[n..|s|] == s[n..];
        CollapseClean(s[n..]);
        assert s[..n] + s[n..] == s;
      } else {
        NoTripleSlice(s, 1, |s|);
        assert s[1..|s|] == s[1..];
        CollapseClean(s[1..]);
        assert [s[0]] + s[1..] == s;
      }
    }
  }

  // ---------------------------------------------------------------------------
  // The handler's dispatch
  // ---------------------------------------------------------------------------

  /** The fields of the request body; a missing or null field is `None`. */
  datatype Request = Request(
    action: Option<string>,
    title: Option<string>,
    category: Option<string>,
    content: Option<string>,
    sortOrder: Option<int>,
    profileSlug: Option<string>,
    clean: bool)

  /** A string field that is present and non-empty. */
  predicate Truthy(s: Option<string>) {
    s.Some? && s.value != ""
  }

  /** `field || fallback`. */
  function OrElse(s: Option<string>, fallback: string): (r: string)
    ensures Truthy(s) ==> r == s.value
    ensures !Truthy(s) ==> r == fallback
  {
    if Truthy(s) then s.value else fallback
  }

  /** The row an insert writes. */
  datatype NewDoc = NewDoc(profileSlug: string, title: string, category: string, content: string, sortOrder: int, isActive: bool)

  /** The database operation a request asks for. */
  datatype Action = DeleteAll(profileSlug: string) | Insert(doc: NewDoc) | List(profileSlug: string)

  const UnknownAction := "Unknown action. Use: delete_all, insert, list"

  const TitleAndContentRequired := "title and content required"

  /**
   * The handler's branches: `delete_all`, `insert` (a 400 without title or
   * content; cleaning only when asked; the defaults) and `list`; any other
   * action is a 400.
   */
  function Dispatch(req: Request): Result<Action> {
    var profile := OrElse(req.profileSlug, "ccsh");
    if req.action == Some("delete_all") then Success(DeleteAll(profile))
    else if req.action == Some("insert") then
      if !Truthy(req.title) || !Truthy(req.content) then Failure(TitleAndContentRequired)
      else
        var finalContent := if req.clean then Cleaned(req.content.value) else req.content.value;
        var sortOrder := if req.sortOrder.Some? && req.sortOrder.value != 0 then req.sortOrder.value else 1;
        Success(Insert(NewDoc(profile, req.title.value, OrElse(req.category, "věrouka"), finalContent, sortOrder, true)))
    else if req.action == Some("list") then Success(List(profile))
    else Failure(UnknownAction)
  }

  /**
   * The response status: 400 for a rejected request, 500 when the database
   * reports an error, 200 otherwise.
   */
  function Status(req: Request, dbError: Option<string>): (status: nat)
    ensures status == 400 <==> Dispatch(req).Failure?
    ensures status == 500 <==> Dispatch(req).Success? && dbError.Some?
    ensures status == 200 <==> Dispatch(req).Success? && dbError.None?
  {
    if Dispatch(req).Failure? then 400 else if dbError.Some? then 500 else 200
  }

  /** A request whose action is none of the three is rejected, naming the three. */
  lemma UnknownActionRejected(req: Request)
    requires req.action != Some("delete_all") && req.action != Some("insert") && req.action != Some("list")
    ensures Dispatch(req).Failure? && Dispatch(req).error == UnknownAction
  {
  }

  /** An insert is rejected exactly when the title or the content is missing or empty. */
  lemma InsertRejected(req: Request)
    requires req.action == Some("insert")
    ensures Dispatch(req).Failure? <==> !Truthy(req.title) || !Truthy(req.content)
    ensures Dispatch(req).Failure? ==> Dispatch(req).error == TitleAndContentRequired
  {
  }

  /**
   * An accepted insert writes an active row with the given title, the
   * content cleaned exactly when asked, and the defaults: profile "ccsh",
   * category "věrouka", sort order 1 for a missing or zero sort order.
   */
  lemma InsertDefaults(req: Request)
    requires req.action == Some("insert") && Truthy(req.title) && Truthy(req.content)
    ensures Dispatch(req).Success? && Dispatch(req).value.Insert?
    ensures var d := Dispatch(req).value.doc;
      d.title == req.title.value && d.isActive
      && d.content == (if req.clean then Cleaned(req.content.value) else req.content.value)
      && (!Truthy(req.profileSlug) ==> d.profileSlug == "ccsh")
      && (!Truthy(req.category) ==> d.category == "věrouka")
      && (req.sortOrder.None? || req.sortOrder == Some(0) ==> d.sortOrder == 1)
      && (req.sortOrder.Some? && req.sortOrder.value != 0 ==> d.sortOrder == req.sortOrder.value)
  {
  }
}
