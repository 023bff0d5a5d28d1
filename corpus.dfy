/**
 * The theological corpus of the system prompt: documents in sort order,
 * each rendered as a section under a `[CATEGORY] title` header, within a
 * character budget; secondary documents without a summary are cut at a
 * sentence end.
 */
module Corpus {
  import opened Text

  /** The total character budget of the corpus sections. */
  const MaxCorpusChars: nat := 15000

  /** The least length a truncated secondary document is allowed. */
  const MinTruncation: nat := 2000

  /** Whether a character ends a sentence for `truncateToSentence`. */
  predicate IsSentenceEnd(c: char) {
    c == '.' || c == '?' || c == '!'
  }

  /** The larger of the three `lastIndexOf` results: the last sentence end of `t`, or -1. */
  function Cutoff(t: string): (c: int)
    ensures -1 <= c < |t|
    ensures c >= 0 ==> IsSentenceEnd(t[c])
    ensures forall j :: c < j < |t| ==> !IsSentenceEnd(t[j])
  {
    var p := LastIndexOfChar(t, '.');
    var q := LastIndexOfChar(t, '?');
    var e := LastIndexOfChar(t, '!');
    var m := if p > q then p else q;
    if m > e then m else e
  }

  /**
   * `truncateToSentence`: the text itself when it fits; else its first
   * `maxLen` characters cut after their last sentence end when that end
   * lies past the middle (`cutoff > maxLen * 0.5`, stated on integers as
   * `2 * cutoff > maxLen`), or followed by an ellipsis otherwise.
   */
  function TruncateToSentence(text: string, maxLen: nat): (r: string)
    ensures |text| <= maxLen ==> r == text
    ensures |r| <= maxLen + 1
  {
    if |text| <= maxLen then text
    else
      var truncated := text[..maxLen];
      var cutoff := Cutoff(truncated);
      if 2 * cutoff > maxLen then truncated[..cutoff + 1] else truncated + "…"
  }

  /** A document of the corpus, as the query selects it. */
  datatype Doc = Doc(title: string, category: string, content: string, summary: Option<string>, sortOrder: int)

  /** Whether the summary is present and non-empty (a truthy string). */
  predicate HasSummary(doc: Doc) {
    doc.summary.Some? && doc.summary.value != ""
  }

  /** `Math.max(MAX_CORPUS_CHARS - totalChars, 2000)`. */
  function Remaining(total: nat): (n: nat)
    ensures n >= MinTruncation && n + total >= MaxCorpusChars
  {
    if MaxCorpusChars - total > MinTruncation then MaxCorpusChars - total else MinTruncation
  }

  /**
   * The body of a document's section, given the characters already used:
   * a primary document (sort order 1) in full, else its summary, else its
   * content truncated to the remaining budget, at least 2000.
   */
  function Body(doc: Doc, total: nat): (b: string)
    ensures doc.sortOrder == 1 ==> b == doc.content
    ensures doc.sortOrder != 1 && HasSummary(doc) ==> b == doc.summary.value
    ensures doc.sortOrder != 1 && !HasSummary(doc) ==> |b| <= Remaining(total) + 1
    ensures doc.sortOrder != 1 && !HasSummary(doc) && |doc.content| <= Remaining(total) ==> b == doc.content
  {
    if doc.sortOrder == 1 then doc.content
    else if HasSummary(doc) then doc.summary.value
    else TruncateToSentence(doc.content, Remaining(total))
  }

  /** `[${doc.category.toUpperCase()}] ${doc.title}`. */
  function Header(doc: Doc): string {
    "[" + UpperStr(doc.category) + "] " + doc.title
  }

  /** A section: separator, header, separator, body, one per line. */
  function Section(doc: Doc, total: nat): string {
    var header := Header(doc);
    Frame(Repeat('=', |header|), header, Body(doc, total))
  }

  /** A separator, a header, the separator again and a body, one per line. */
  function Frame(sep: string, h: string, b: string): string {
    sep + "\n" + h + "\n" + sep + "\n" + b
  }

  /** The characters used by the sections of the first `k` documents, none skipped. */
  function TotalBefore(docs: seq<Doc>, k: nat): nat
    requires k <= |docs|
  {
    if k == 0 then 0 else TotalBefore(docs, k - 1) + |Section(docs[k - 1], TotalBefore(docs, k - 1))|
  }

  /** The section of the `k`-th document. */
  function SectionAt(docs: seq<Doc>, k: nat): string
    requires k < |docs|
  {
    Section(docs[k], TotalBefore(docs, k))
  }

  /**
   * The number of sections, looking on from document `i`: the loop stops
   * after the first section that brings the total to the budget, or at the
   * end of the list.
   */
  function Count(docs: seq<Doc>, i: nat): (n: nat)
    requires i <= |docs|
    ensures i <= n <= |docs|
    decreases |docs| - i
  {
    if i == |docs| then i
    else if TotalBefore(docs, i + 1) >= MaxCorpusChars then i + 1
    else Count(docs, i + 1)
  }

  /** The sections the loop produces, in document order. */
  function Sections(docs: seq<Doc>): (ss: seq<string>)
    ensures |ss| == Count(docs, 0)
    ensures forall k :: 0 <= k < |ss| ==> ss[k] == SectionAt(docs, k)
  {
    Rendered(docs, Count(docs, 0))
  }

  /** The sections of the first `i` documents, in order. */
  function Rendered(docs: seq<Doc>, i: nat): (ss: seq<string>)
    requires i <= |docs|
    ensures |ss| == i
    ensures forall k :: 0 <= k < i ==> ss[k] == SectionAt(docs, k)
  {
    if i == 0 then [] else Rendered(docs, i - 1) + [SectionAt(docs, i - 1)]
  }

  /**
   * `buildTheologicalContext` over the documents the query returns, already
   * in ascending sort order: a query error and an empty list are errors;
   * otherwise the sections joined by blank lines.
   */
  method BuildTheologicalContext(profileSlug: string, docs: seq<Doc>, dbError: Option<string>)
    returns (r: Result<string>)
    ensures dbError.Some? ==> r == Failure("Failed to load theological corpus")
    ensures dbError.None? && docs == [] ==>
      r == Failure("No active corpus documents found for profile \"" + profileSlug + "\"")
    ensures dbError.None? && docs != [] ==> r == Success(Join(Sections(docs), "\n\n"))
  {
    if dbError.Some? {
      return Failure("Failed to load theological corpus");
    }
    if |docs| == 0 {
      return Failure("No active corpus documents found for profile \"" + profileSlug + "\"");
    }
    var sections := BuildSections(docs);
    r := Success(Join(sections, "\n\n"));
  }

  /**
   * The loop of `buildTheologicalContext`: render each document, add its
   * length to the running total, and stop once the total reaches the budget.
   */
  method BuildSections(docs: seq<Doc>) returns (sections: seq<string>)
    ensures sections == Sections(docs)
  {
    var totalChars := 0;
    sections := [];
    var i := 0;
    while i < |docs|
      invariant 0 <= i <= |docs|
      invariant totalChars == TotalBefore(docs, i)
      invariant sections == Rendered(docs, i)
      invariant Count(docs, 0) == Count(docs, i)
      decreases |docs| - i
    {
      var section := RenderSection(docs[i], totalChars);
      LoopStep(docs, i);
      totalChars := totalChars + |section|;
      sections := sections + [section];
      i := i + 1;
      if totalChars >= MaxCorpusChars {
        assert Count(docs, i - 1) == i;
        break;
      }
    }
    assert Count(docs, 0) == i;
  }

  /** What one pass of the loop adds: the `i`-th section and its length. */
  lemma LoopStep(docs: seq<Doc>, i: nat)
    requires i < |docs|
    ensures Rendered(docs, i + 1) == Rendered(docs, i) + [Section(docs[i], TotalBefore(docs, i))]
    ensures TotalBefore(docs, i + 1) == TotalBefore(docs, i) + |Section(docs[i], TotalBefore(docs, i))|
    ensures TotalBefore(docs, i + 1) >= MaxCorpusChars ==> Count(docs, i) == i + 1
    ensures TotalBefore(docs, i + 1) < MaxCorpusChars ==> Count(docs, i) == Count(docs, i + 1)
  {
  }

  /** One pass of the loop body: the header, its separator, the body, and the section they make. */
  method RenderSection(doc: Doc, totalChars: nat) returns (section: string)
    ensures section == Section(doc, totalChars)
  {
    var header := "[" + UpperStr(doc.category) + "] " + doc.title;
    var separator := Repeat('=', |header|);
    var body: string;
    if doc.sortOrder == 1 {
      body := doc.content;
    } else if doc.summary.Some? && doc.summary.value != "" {
      body := doc.summary.value;
    } else {
      var remaining := if MaxCorpusChars - totalChars > MinTruncation then MaxCorpusChars - totalChars else MinTruncation;
      body := TruncateToSentence(doc.content, remaining);
    }
    section := separator + "\n" + header + "\n" + separator + "\n" + body;
  }

  /** `buildContextPrompt`: the corpus context, a blank line, then the fixed instructions. */
  function BuildContextPrompt(theologicalContext: string, instructions: string): (p: string)
    ensures |p| >= |theologicalContext| && p[..|theologicalContext|] == theologicalContext
  {
    theologicalContext + "\n\n" + instructions
  }

  // ---------------------------------------------------------------------------
  // Properties
  // ---------------------------------------------------------------------------

  /**
   * A text longer than `maxLen` is cut either just after a sentence end
   * that lies past the middle of its first `maxLen` characters, with no
   * sentence end after it among them, or, when no sentence end lies past
   * the middle, at `maxLen` with an ellipsis.
   */
  lemma TruncateCut(text: string, maxLen: nat)
    requires |text| > maxLen
    ensures var r := TruncateToSentence(text, maxLen);
      (2 <= |r| <= maxLen && r == text[..|r|] && IsSentenceEnd(r[|r| - 1]) && 2 * (|r| - 1) > maxLen
        && forall j :: |r| <= j < maxLen ==> !IsSentenceEnd(text[j]))
      || (r == text[..maxLen] + "…" && forall j :: 0 <= j < maxLen && 2 * j > maxLen ==> !IsSentenceEnd(text[j]))
  {
    var truncated := text[..maxLen];
    var c := Cutoff(truncated);
    assert forall j :: 0 <= j < maxLen ==> truncated[j] == text[j];
  }

  /** Looking on from document `i`, every section the loop adds starts under the budget. */
  lemma {:induction false} CountUnder(docs: seq<Doc>, i: nat)
    requires i <= |docs|
    ensures forall k :: i < k < Count(docs, i) ==> TotalBefore(docs, k) < MaxCorpusChars
    decreases |docs| - i
  {
    if i < |docs| && TotalBefore(docs, i + 1) < MaxCorpusChars {
      CountUnder(docs, i + 1);
      assert Count(docs, i) == Count(docs, i + 1);
      forall k | i < k < Count(docs, i)
        ensures TotalBefore(docs, k) < MaxCorpusChars
      {
        if k > i + 1 {
          assert i + 1 < k < Count(docs, i + 1);
        }
      }
    }
  }

  /** Looking on from document `i`, the loop stops early only once the budget is reached. */
  lemma {:induction false} CountReached(docs: seq<Doc>, i: nat)
    requires i <= |docs|
    ensures Count(docs, i) < |docs| ==> TotalBefore(docs, Count(docs, i)) >= MaxCorpusChars
    decreases |docs| - i
  {
    if i < |docs| && TotalBefore(docs, i + 1) < MaxCorpusChars {
      CountReached(docs, i + 1);
      assert Count(docs, i) == Count(docs, i + 1);
    } else if i < |docs| {
      assert Count(docs, i) == i + 1;
    }
  }

  /**
   * The sections are those of a prefix of the documents, in order: at least
   * one, every section after the first starts while the total is under
   * the budget, and documents are left out only once it is reached.
   */
  lemma BudgetStops(docs: seq<Doc>)
    requires docs != []
    ensures 1 <= |Sections(docs)| <= |docs|
    ensures forall k :: 0 <= k < |Sections(docs)| ==> Sections(docs)[k] == Section(docs[k], TotalBefore(docs, k))
    ensures forall k :: 0 < k < |Sections(docs)| ==> TotalBefore(docs, k) < MaxCorpusChars
    ensures |Sections(docs)| < |docs| ==> TotalBefore(docs, |Sections(docs)|) >= MaxCorpusChars
  {
    CountUnder(docs, 0);
    CountReached(docs, 0);
  }

  /** A primary document's section always holds its full content, whatever the budget. */
  lemma PrimaryInFull(docs: seq<Doc>, k: nat)
    requires k < |Sections(docs)| && docs[k].sortOrder == 1
    ensures var s := Sections(docs)[k]; |s| >= |docs[k].content| && s[|s| - |docs[k].content|..] == docs[k].content
  {
  }

  /**
   * A section is the separator, the header and the separator again, each
   * on its own line, then the body; the separator is one `=` per header
   * character.
   */
  lemma SectionLayout(doc: Doc, total: nat)
    ensures var h := Header(doc); var s := Section(doc, total); var n := |h|;
      |s| == 3 * n + 3 + |Body(doc, total)|
      && s[..n] == Repeat('=', n) && s[2 * n + 2..3 * n + 2] == Repeat('=', n)
      && s[n] == '\n' && s[2 * n + 1] == '\n' && s[3 * n + 2] == '\n'
      && s[n + 1..2 * n + 1] == h && s[3 * n + 3..] == Body(doc, total)
  {
    var h := Header(doc);
    var sep := Repeat('=', |h|);
    var b := Body(doc, total);
    assert Section(doc, total) == Frame(sep, h, b);
    FrameLines(sep, h, b);
    FrameFirst(sep, h, b);
    FrameHeader(sep, h, b);
    FrameSecond(sep, h, b);
    FrameBody(sep, h, b);
  }

  /** The length of a section and the positions of its three line feeds. */
  lemma FrameLines(sep: string, h: string, b: string)
    requires |sep| == |h|
    ensures var s := Frame(sep, h, b); var n := |h|;
      |s| == 3 * n + 3 + |b| && s[n] == '\n' && s[2 * n + 1] == '\n' && s[3 * n + 2] == '\n'
  {
  }

  /** A section opens with the separator line. */
  lemma FrameFirst(sep: string, h: string, b: string)
    requires |sep| == |h|
    ensures Frame(sep, h, b)[..|h|] == sep
  {
    var s := Frame(sep, h, b);
    assert s[..|h|] == sep;
  }

  /** The header line follows the first line feed. */
  lemma FrameHeader(sep: string, h: string, b: string)
    requires |sep| == |h|
    ensures |Frame(sep, h, b)| >= 2 * |h| + 1 && Frame(sep, h, b)[|h| + 1..2 * |h| + 1] == h
  {
    var s := Frame(sep, h, b);
    assert s[|h| + 1..2 * |h| + 1] == h;
  }

  /** The separator line is repeated after the header. */
  lemma FrameSecond(sep: string, h: string, b: string)
    requires |sep| == |h|
    ensures |Frame(sep, h, b)| >= 3 * |h| + 2 && Frame(sep, h, b)[2 * |h| + 2..3 * |h| + 2] == sep
  {
    var s := Frame(sep, h, b);
    assert s[2 * |h| + 2..3 * |h| + 2] == sep;
  }

  /** The body follows the third line feed. */
  lemma FrameBody(sep: string, h: string, b: string)
    requires |sep| == |h|
    ensures |Frame(sep, h, b)| >= 3 * |h| + 3 && Frame(sep, h, b)[3 * |h| + 3..] == b
  {
    var s := Frame(sep, h, b);
    assert s[3 * |h| + 3..] == b;
  }
}

