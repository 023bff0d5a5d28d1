/**
 * The cache-warming job: the readings page is taken from a fresh cache
 * entry, a new scrape or a stale entry; the Sunday's title and the three
 * reading sections are extracted from its markdown.
 *
 * The patterns of `extractReadings` are hand-coded scanners. The SHA-256
 * text hash, the AI generation that follows and the network calls are not
 * part of this model; the clock, the cache row and the scrape response are
 * parameters.
 */
module WarmCache {
  import opened Text

  // ---------------------------------------------------------------------------
  // The Sunday's title
  // ---------------------------------------------------------------------------

  /** The word both title patterns start with. */
  const SundayWord := "neděle"

  /** The end of `/neděle\s+\d+\.\s*\w+/i` matched at `p`, for `word` = `neděle`. */
  function NumberedSundayAt(s: string, p: nat, word: string): (e: Option<nat>)
    requires p <= |s|
    ensures e.Some? ==> p + |word| < e.value <= |s|
  {
    var a := WordAt(s, p, word);
    if a.None? then None
    else
      var b := SpanWhile(s, a.value, IsSpace);
      var c := SpanWhile(s, b, IsDigit);
      if b == a.value || c == b || c == |s| || s[c] != '.' then None
      else
        var d := SpanWhile(s, c + 1, IsSpace);
        var e := SpanWhile(s, d, IsWordChar);
        if e == d then None else Some(e)
  }

  /** The numbered-Sunday match tried at every position of `s`. */
  function NumberedSundays(s: string, word: string): (ms: seq<Option<nat>>)
    ensures |ms| == |s| + 1
  {
    Table(|s| + 1, NumberedSundayFn(s, word))
  }

  function NumberedSundayFn(s: string, word: string): nat --> Option<nat> {
    (k: nat) requires k <= |s| => NumberedSundayAt(s, k, word)
  }

  lemma NumberedSundaysAt(s: string, word: string, k: nat)
    requires k <= |s|
    ensures NumberedSundays(s, word)[k] == NumberedSundayAt(s, k, word)
  {
    TableAt(|s| + 1, NumberedSundayFn(s, word), k);
  }

  /** The case-insensitive word tried at every position of `s`. */
  function WordStarts(s: string, word: string): (ws: seq<Option<nat>>)
    ensures |ws| == |s| + 1
  {
    Table(|s| + 1, WordFn(s, word))
  }

  function WordFn(s: string, word: string): nat --> Option<nat> {
    (k: nat) requires k <= |s| => WordAt(s, k, word)
  }

  lemma WordStartsAt(s: string, word: string, k: nat)
    requires k <= |s|
    ensures WordStarts(s, word)[k] == WordAt(s, k, word)
  {
    TableAt(|s| + 1, WordFn(s, word), k);
  }

  /**
   * `sundayDate`: the first numbered-Sunday match, else `neděle` to the end
   * of its line, trimmed; the empty string when neither matches.
   */
  function SundayTitle(s: string): string {
    TitleFor(s, SundayWord)
  }

  /** `neděle[^\n]*` matched at `k`, for a word of length `n`, trimmed. */
  function LineTitle(s: string, k: nat, n: nat): string
    requires k + n <= |s|
  {
    Trim(s[k..SpanWhile(s, k + n, NotLineFeed)])
  }

  /** The title rule for the word `word`. */
  function TitleFor(s: string, word: string): string {
    var ms := NumberedSundays(s, word);
    var m := FirstSome(ms, 0);
    if m.Some? then
      NumberedSundaysAt(s, word, m.value);
      Trim(s[m.value..ms[m.value].value])
    else
      var w := FirstSome(WordStarts(s, word), 0);
      if w.Some? then
        WordStartsAt(s, word, w.value);
        LineTitle(s, w.value, |word|)
      else ""
  }

  // ---------------------------------------------------------------------------
  // Reading sections
  // ---------------------------------------------------------------------------

  /** Whether the lazy body stops at `f`: the end, or a line feed before `####` or `##` and whitespace. */
  predicate StopsBody(s: string, f: nat)
    requires f <= |s|
  {
    f == |s|
    || (s[f] == '\n'
      && ((f + 4 < |s| && s[f + 1..f + 5] == "####")
        || (f + 3 < |s| && s[f + 1] == '#' && s[f + 2] == '#' && IsSpace(s[f + 3]))))
  }

  /** The end of the lazy `[\s\S]*?` started at `b`: the first stop at or after it. */
  function BodyEnd(s: string, b: nat): (f: nat)
    requires b <= |s|
    ensures b <= f <= |s| && StopsBody(s, f)
    ensures forall g :: b <= g < f ==> !StopsBody(s, g)
    decreases |s| - b
  {
    if StopsBody(s, b) then b else BodyEnd(s, b + 1)
  }

  /** The parts of a section match at `p`: heading line `[q, e)`, body `[b, f)`. */
  datatype SectionMatch = SectionMatch(q: nat, e: nat, b: nat, f: nat)

  /**
   * The regular expression of `extractSection` tried at `p`: `####`, the
   * whitespace after it (line feeds too), the rest of that line, which must
   * contain the keyword and end in a line feed, the line feeds after it,
   * and the body up to the first stop.
   */
  function SectionMatchAt(s: string, p: nat, keyword: string): (m: Option<SectionMatch>)
    requires p <= |s|
    ensures m.Some? ==> p + 4 <= m.value.q <= m.value.e < m.value.b <= m.value.f <= |s|
  {
    if !(p + 4 <= |s| && s[p..p + 4] == "####") then None
    else
      var q := SpanWhile(s, p + 4, IsSpace);
      var e := SpanWhile(s, q, NotLineFeed);
      if e == |s| || !ContainsI(s[q..e], keyword) then None
      else
        var b := SpanWhile(s, e, IsLineFeed);
        Some(SectionMatch(q, e, b, BodyEnd(s, b)))
  }

  /** The section match tried at every position of `s`. */
  function SectionMatches(s: string, keyword: string): (ms: seq<Option<SectionMatch>>)
    ensures |ms| == |s| + 1
  {
    Table(|s| + 1, SectionMatchFn(s, keyword))
  }

  function SectionMatchFn(s: string, keyword: string): nat --> Option<SectionMatch> {
    (k: nat) requires k <= |s| => SectionMatchAt(s, k, keyword)
  }

  lemma SectionMatchesAt(s: string, keyword: string, k: nat)
    requires k <= |s|
    ensures SectionMatches(s, keyword)[k] == SectionMatchAt(s, k, keyword)
  {
    TableAt(|s| + 1, SectionMatchFn(s, keyword), k);
  }

  /** The text of a section match: `## ` and the trimmed heading, a blank line, the trimmed body. */
  function SectionText(s: string, x: SectionMatch): (t: string)
    requires x.q <= x.e <= x.b <= x.f <= |s|
    ensures |t| >= 3 && t[..3] == "## "
  {
    "## " + Trim(s[x.q..x.e]) + "\n\n" + Trim(s[x.b..x.f])
  }

  /** `extractSection(keyword)`: the text of the leftmost section match, if any. */
  function ExtractSection(s: string, keyword: string): (r: Option<string>)
    ensures r.Some? ==> |r.value| >= 3 && r.value[..3] == "## "
  {
    var ms := SectionMatches(s, keyword);
    var m := FirstSome(ms, 0);
    if m.None? then None
    else
      SectionMatchesAt(s, keyword, m.value);
      Some(SectionText(s, ms[m.value].value))
  }

  const FirstReading := "První čtení"
  const SecondReading := "Druhé čtení"
  const GospelReading := "Evangelium"

  /** The value of an optional section as a list of none or one. */
  function Present(o: Option<string>): (ss: seq<string>)
    ensures |ss| <= 1
  {
    if o.Some? then [o.value] else []
  }

  /** The sections found, in the fixed order first reading, second reading, gospel. */
  function SectionList(s: string): (ss: seq<string>)
    ensures |ss| <= 3
  {
    Present(ExtractSection(s, FirstReading)) + Present(ExtractSection(s, SecondReading))
      + Present(ExtractSection(s, GospelReading))
  }

  const SectionSeparator := "\n\n---\n\n"

  /** `extractReadings`: the Sunday's title and the sections joined by rules. */
  method ExtractReadings(markdown: string) returns (sundayTitle: string, readings: string)
    ensures sundayTitle == SundayTitle(markdown)
    ensures readings == Join(SectionList(markdown), SectionSeparator)
  {
    sundayTitle := SundayTitle(markdown);
    var sections: seq<string> := [];
    var first := ExtractSection(markdown, FirstReading);
    if first.Some? {
      sections := sections + [first.value];
    }
    assert sections == Present(first);
    var second := ExtractSection(markdown, SecondReading);
    if second.Some? {
      sections := sections + [second.value];
    }
    assert sections == Present(first) + Present(second);
    var gospel := ExtractSection(markdown, GospelReading);
    if gospel.Some? {
      sections := sections + [gospel.value];
    }
    assert sections == Present(first) + Present(second) + Present(gospel);
    readings := Join(sections, SectionSeparator);
  }

  // ---------------------------------------------------------------------------
  // Properties of the extraction
  // ---------------------------------------------------------------------------

  /** The title comes from the leftmost numbered-Sunday match when there is one. */
  lemma NumberedTitle(s: string, word: string, k: nat)
    requires k <= |s| && NumberedSundayAt(s, k, word).Some?
    requires forall j :: 0 <= j < k ==> NumberedSundayAt(s, j, word).None?
    ensures TitleFor(s, word) == Trim(s[k..NumberedSundayAt(s, k, word).value])
  {
    var ms := NumberedSundays(s, word);
    NumberedSundaysAt(s, word, k);
    forall j | 0 <= j < k
      ensures ms[j].None?
    {
      NumberedSundaysAt(s, word, j);
    }
    FirstSomeAt(ms, 0, k);
  }

  /**
   * Without a numbered-Sunday match anywhere, the title is the leftmost
   * occurrence of the word, in any case, up to the end of its line.
   */
  lemma WordTitle(s: string, word: string, k: nat)
    requires forall j :: 0 <= j <= |s| ==> NumberedSundayAt(s, j, word).None?
    requires k <= |s| && WordAt(s, k, word).Some?
    requires forall j :: 0 <= j < k ==> WordAt(s, j, word).None?
    ensures k + |word| <= |s| && TitleFor(s, word) == LineTitle(s, k, |word|)
  {
    NoNumberedSunday(s, word);
    FirstWord(s, word, k);
    TitleFromWord(s, word, k);
  }

  lemma TitleFromWord(s: string, word: string, k: nat)
    requires FirstSome(NumberedSundays(s, word), 0).None?
    requires k <= |s| && FirstSome(WordStarts(s, word), 0) == Some(k)
    ensures k + |word| <= |s|
    ensures TitleFor(s, word) == LineTitle(s, k, |word|)
  {
    WordStartsAt(s, word, k);
  }

  lemma NoNumberedSunday(s: string, word: string)
    requires forall j :: 0 <= j <= |s| ==> NumberedSundayAt(s, j, word).None?
    ensures FirstSome(NumberedSundays(s, word), 0).None?
  {
    var ms := NumberedSundays(s, word);
    forall j | 0 <= j < |ms|
      ensures ms[j].None?
    {
      NumberedSundaysAt(s, word, j);
    }
  }

  lemma FirstWord(s: string, word: string, k: nat)
    requires k <= |s| && WordAt(s, k, word).Some?
    requires forall j :: 0 <= j < k ==> WordAt(s, j, word).None?
    ensures FirstSome(WordStarts(s, word), 0) == Some(k)
  {
    var ws := WordStarts(s, word);
    WordStartsAt(s, word, k);
    forall j | 0 <= j < k
      ensures ws[j].None?
    {
      WordStartsAt(s, word, j);
    }
    FirstSomeAt(ws, 0, k);
  }

  /** A text without the word, in any case, has the empty title. */
  lemma NoWordNoTitle(s: string, word: string)
    requires forall k :: 0 <= k <= |s| ==> WordAt(s, k, word).None?
    ensures TitleFor(s, word) == ""
  {
    var ms := NumberedSundays(s, word);
    forall j | 0 <= j < |ms|
      ensures ms[j].None?
    {
      NumberedSundaysAt(s, word, j);
    }
    var ws := WordStarts(s, word);
    forall j | 0 <= j < |ws|
      ensures ws[j].None?
    {
      WordStartsAt(s, word, j);
    }
  }

  /**
   * A section match comes from a `####` at `p` whose heading line (after
   * the whitespace that follows it) contains the keyword and ends in a line
   * feed; its body starts after the line feeds that follow and stops at the
   * first later line feed before `####` or `##` and whitespace, or at the end.
   */
  lemma SectionMatchShape(s: string, p: nat, keyword: string)
    requires p <= |s| && SectionMatchAt(s, p, keyword).Some?
    ensures var x := SectionMatchAt(s, p, keyword).value;
      s[p..p + 4] == "####" && x.q == SpanWhile(s, p + 4, IsSpace)
      && x.e < |s| && s[x.e] == '\n' && ContainsI(s[x.q..x.e], keyword)
      && (forall k :: x.q <= k < x.e ==> s[k] != '\n')
      && (forall k :: x.e <= k < x.b ==> s[k] == '\n') && (x.b == |s| || s[x.b] != '\n')
      && StopsBody(s, x.f) && (forall g :: x.b <= g < x.f ==> !StopsBody(s, g))
  {
  }

  /** The section is the text of the leftmost match. */
  lemma SectionFound(s: string, keyword: string, k: nat)
    requires k <= |s| && SectionMatchAt(s, k, keyword).Some?
    requires forall j :: 0 <= j < k ==> SectionMatchAt(s, j, keyword).None?
    ensures ExtractSection(s, keyword) == Some(SectionText(s, SectionMatchAt(s, k, keyword).value))
  {
    var ms := SectionMatches(s, keyword);
    SectionMatchesAt(s, keyword, k);
    forall j | 0 <= j < k
      ensures ms[j].None?
    {
      SectionMatchesAt(s, keyword, j);
    }
    FirstSomeAt(ms, 0, k);
  }

  /** There is no section exactly when no position matches. */
  lemma SectionAbsent(s: string, keyword: string)
    ensures ExtractSection(s, keyword).None? <==> forall k :: 0 <= k <= |s| ==> SectionMatchAt(s, k, keyword).None?
  {
    var ms := SectionMatches(s, keyword);
    if forall k :: 0 <= k <= |s| ==> SectionMatchAt(s, k, keyword).None? {
      forall j | 0 <= j < |ms|
        ensures ms[j].None?
      {
        SectionMatchesAt(s, keyword, j);
      }
    } else {
      var k :| 0 <= k <= |s| && SectionMatchAt(s, k, keyword).Some?;
      SectionMatchesAt(s, keyword, k);
    }
  }

  /** No sections means empty readings. */
  lemma NoSectionsNoReadings(s: string)
    requires ExtractSection(s, FirstReading).None?
    requires ExtractSection(s, SecondReading).None?
    requires ExtractSection(s, GospelReading).None?
    ensures SectionList(s) == [] && Join(SectionList(s), SectionSeparator) == ""
  {
  }

  /** With all three readings present they appear in the fixed order, separated by rules. */
  lemma AllSectionsInOrder(s: string)
    requires ExtractSection(s, FirstReading).Some?
    requires ExtractSection(s, SecondReading).Some?
    requires ExtractSection(s, GospelReading).Some?
    ensures Join(SectionList(s), SectionSeparator)
      == ExtractSection(s, FirstReading).value + SectionSeparator
        + (ExtractSection(s, SecondReading).value + SectionSeparator + ExtractSection(s, GospelReading).value)
  {
    var a := ExtractSection(s, FirstReading).value;
    var b := ExtractSection(s, SecondReading).value;
    var c := ExtractSection(s, GospelReading).value;
    JoinThree(a, b, c, SectionSeparator);
  }

  // ---------------------------------------------------------------------------
  // Choice of the readings source
  // ---------------------------------------------------------------------------

  /** The latest cache row for the readings page. */
  datatype CacheRow = CacheRow(markdown: string, sundayTitle: string, scrapedAt: int)

  /** The scrape response: an error status, or the two places the markdown may be in. */
  datatype Scrape = ScrapeFailed(status: int) | ScrapeOk(dataMarkdown: Option<string>, markdown: Option<string>)

  /** Six hours in milliseconds. */
  const SixHours: int := 6 * 60 * 60 * 1000

  /** Whether a cache row exists and is less than six hours old at `now`. */
  predicate IsFresh(cached: Option<CacheRow>, now: int) {
    cached.Some? && now - cached.value.scrapedAt < SixHours
  }

  /** `scrapeData?.data?.markdown || scrapeData?.markdown || null`, with "" for null. */
  function ScrapedMarkdown(dataMarkdown: Option<string>, markdown: Option<string>): string {
    if dataMarkdown.Some? && dataMarkdown.value != "" then dataMarkdown.value
    else if markdown.Some? then markdown.value
    else ""
  }

  /** The raw markdown and the Sunday's title chosen before extraction ("" for none). */
  datatype Source = Source(rawMarkdown: string, sundayTitle: string)

  /** The branches at lines 88-119: fresh cache, else scrape, else stale cache. */
  function ChooseSource(cached: Option<CacheRow>, now: int, hasFirecrawlKey: bool, scrape: Scrape): Source {
    if IsFresh(cached, now) then Source(cached.value.markdown, cached.value.sundayTitle)
    else if hasFirecrawlKey then
      if scrape.ScrapeFailed? then
        if cached.Some? then Source(cached.value.markdown, cached.value.sundayTitle) else Source("", "")
      else Source(ScrapedMarkdown(scrape.dataMarkdown, scrape.markdown), "")
    else if cached.Some? then Source(cached.value.markdown, cached.value.sundayTitle)
    else Source("", "")
  }

  /** What the readings step ends with. */
  datatype Warmed =
    | Aborted
    | Ready(readingsMarkdown: string, sundayTitle: string, saved: bool, savedMarkdown: string)

  /**
   * The readings step as a value: no markdown aborts; otherwise the
   * extracted readings (the raw markdown when there are none), the chosen
   * title unless empty (else the extracted one), and whether the result is
   * written back to the cache.
   */
  function Warm(cached: Option<CacheRow>, now: int, hasFirecrawlKey: bool, scrape: Scrape): Warmed {
    var src := ChooseSource(cached, now, hasFirecrawlKey, scrape);
    if src.rawMarkdown == "" then Aborted
    else
      var raw := src.rawMarkdown;
      var readings := Join(SectionList(raw), SectionSeparator);
      Ready(if readings != "" then readings else raw,
            if src.sundayTitle != "" then src.sundayTitle else SundayTitle(raw),
            !IsFresh(cached, now) && hasFirecrawlKey, raw)
  }

  /** Lines 73-141 of the handler, reassigning `rawMarkdown` and `sundayTitle` through the branches. */
  method WarmReadings(cached: Option<CacheRow>, now: int, hasFirecrawlKey: bool, scrape: Scrape)
    returns (r: Warmed)
    ensures r == Warm(cached, now, hasFirecrawlKey, scrape)
  {
    var rawMarkdown := "";
    var sundayTitle := "";
    var isFresh := cached.Some? && now - cached.value.scrapedAt < SixHours;
    if isFresh {
      rawMarkdown := cached.value.markdown;
      sundayTitle := cached.value.sundayTitle;
    } else if hasFirecrawlKey {
      if scrape.ScrapeFailed? {
        if cached.Some? {
          rawMarkdown := cached.value.markdown;
          sundayTitle := cached.value.sundayTitle;
        }
      } else {
        rawMarkdown := ScrapedMarkdown(scrape.dataMarkdown, scrape.markdown);
      }
    } else if cached.Some? {
      rawMarkdown := cached.value.markdown;
      sundayTitle := cached.value.sundayTitle;
    }
    if rawMarkdown == "" {
      return Aborted;
    }
    var extractedTitle, extractedReadings := ExtractReadings(rawMarkdown);
    var readingsMarkdown := if extractedReadings != "" then extractedReadings else rawMarkdown;
    if sundayTitle == "" {
      sundayTitle := extractedTitle;
    }
    r := Ready(readingsMarkdown, sundayTitle, !isFresh && hasFirecrawlKey, rawMarkdown);
  }

  /** A fresh cache row is used, and nothing is written back. */
  lemma FreshCacheUsed(cached: Option<CacheRow>, now: int, hasFirecrawlKey: bool, scrape: Scrape)
    requires IsFresh(cached, now) && cached.value.markdown != ""
    ensures var w := Warm(cached, now, hasFirecrawlKey, scrape);
      w.Ready? && w.savedMarkdown == cached.value.markdown && !w.saved
      && (cached.value.sundayTitle != "" ==> w.sundayTitle == cached.value.sundayTitle)
  {
  }

  /** A successful scrape with markdown is used when the cache is not fresh, and it is saved. */
  lemma ScrapeUsed(cached: Option<CacheRow>, now: int, scrape: Scrape)
    requires !IsFresh(cached, now) && scrape.ScrapeOk?
    requires ScrapedMarkdown(scrape.dataMarkdown, scrape.markdown) != ""
    ensures var w := Warm(cached, now, true, scrape); var m := ScrapedMarkdown(scrape.dataMarkdown, scrape.markdown);
      w.Ready? && w.savedMarkdown == m && w.saved && w.sundayTitle == SundayTitle(m)
  {
  }

  /** Without a key or after a failed scrape, a stale cache row is used. */
  lemma StaleCacheUsed(cached: Option<CacheRow>, now: int, hasFirecrawlKey: bool, scrape: Scrape)
    requires !IsFresh(cached, now) && (!hasFirecrawlKey || scrape.ScrapeFailed?)
    requires cached.Some? && cached.value.markdown != ""
    ensures var w := Warm(cached, now, hasFirecrawlKey, scrape);
      w.Ready? && w.savedMarkdown == cached.value.markdown
      && (cached.value.sundayTitle != "" ==> w.sundayTitle == cached.value.sundayTitle)
  {
  }

  /** With no cache row and no usable scrape, the run aborts. */
  lemma NothingAborts(now: int, hasFirecrawlKey: bool, scrape: Scrape)
    requires !hasFirecrawlKey || scrape.ScrapeFailed?
    ensures Warm(None, now, hasFirecrawlKey, scrape) == Aborted
  {
  }

  /**
   * A scrape that succeeds without markdown aborts the run even when a
   * stale cache row exists: the stale row is the fallback only for a
   * failed scrape or a missing key.
   */
  lemma EmptyScrapeAborts(row: CacheRow, now: int, dataMarkdown: Option<string>, markdown: Option<string>)
    requires now - row.scrapedAt >= SixHours && row.markdown != ""
    requires ScrapedMarkdown(dataMarkdown, markdown) == ""
    ensures Warm(Some(row), now, true, ScrapeOk(dataMarkdown, markdown)) == Aborted
  {
  }

  /**
   * After a failed scrape the stale row is written back to the cache (with
   * a new scrape time), so it is fresh for the next six hours.
   */
  lemma StaleRowResaved(row: CacheRow, now: int, status: int)
    requires now - row.scrapedAt >= SixHours && row.markdown != ""
    ensures var w := Warm(Some(row), now, true, ScrapeFailed(status));
      w.Ready? && w.saved && w.savedMarkdown == row.markdown
  {
  }

  /** Readings fall back to the raw markdown when no section is found. */
  lemma ReadingsFallback(cached: Option<CacheRow>, now: int, hasFirecrawlKey: bool, scrape: Scrape)
    requires Warm(cached, now, hasFirecrawlKey, scrape).Ready?
    ensures var w := Warm(cached, now, hasFirecrawlKey, scrape);
      w.readingsMarkdown == (if SectionList(w.savedMarkdown) == [] then w.savedMarkdown
                             else Join(SectionList(w.savedMarkdown), SectionSeparator))
  {
    var w := Warm(cached, now, hasFirecrawlKey, scrape);
    var ss := SectionList(w.savedMarkdown);
    if ss != [] {
      JoinNonEmpty(ss, SectionSeparator);
    }
  }
}
