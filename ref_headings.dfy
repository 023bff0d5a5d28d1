/**
 * The heading half of the shared reference module: the reading headings of
 * the Sunday-readings markdown ("## Evangelium – Mt 4,1-11") give normalised
 * reference keys, per heading and for the whole document.
 */
module RefHeadings {
  import opened Text
  import opened BiblicalRefs

  // ---------------------------------------------------------------------------
  // Heading markup and reading labels
  // ---------------------------------------------------------------------------

  predicate IsHash(c: char) { c == '#' }

  /** `^#{1,4}\s*` removed: up to four leading '#' and, when there was one, the whitespace after them. */
  function StripHashes(s: string): (r: string)
    ensures |r| <= |s| && r == s[|s| - |r|..]
    ensures s == [] || s[0] != '#' ==> r == s
    ensures s != [] && s[0] == '#' ==> |r| < |s|
  {
    var n := SpanWhile(s, 0, IsHash);
    var m := if n > 4 then 4 else n;
    if m == 0 then s else TrimLeftSlice(s[m..]); TrimLeft(s[m..])
  }

  /** The class `[:–—-]`: colon, en dash, em dash, hyphen. */
  predicate IsLabelDelim(c: char) { c == ':' || c == '–' || c == '—' || c == '-' }

  predicate NotLabelDelim(c: char) { !IsLabelDelim(c) }

  /** The class `[:\s–—-]`. */
  predicate IsLabelSep(c: char) { IsLabelDelim(c) || IsSpace(c) }

  /** The last whitespace position in `s[lo..hi]`. */
  function LastSpace(s: string, lo: nat, hi: nat): (k: Option<nat>)
    requires lo <= hi <= |s|
    ensures k.Some? ==> lo <= k.value < hi && IsSpace(s[k.value])
    ensures k.Some? ==> forall j :: k.value < j < hi ==> !IsSpace(s[j])
    ensures k.None? ==> forall j :: lo <= j < hi ==> !IsSpace(s[j])
    decreases hi - lo
  {
    if lo == hi then None
    else if IsSpace(s[hi - 1]) then Some(hi - 1)
    else LastSpace(s, lo, hi - 1)
  }

  /**
   * `[^:–—-]*[:\s–—-]+` tried at position `q`, with the regular expression's
   * backtracking: the end of the match, if there is one. The greedy first part
   * stops at the first delimiter, which the second part then takes with the
   * separators after it; without a delimiter, the first part gives back
   * characters until the last whitespace character can be the separator.
   */
  function LabelTail(s: string, q: nat): (e: Option<nat>)
    requires q <= |s|
    ensures e.Some? ==> q < e.value <= |s|
  {
    var d := SpanWhile(s, q, NotLabelDelim);
    if d < |s| then Some(SpanWhile(s, d, IsLabelSep))
    else match LastSpace(s, q, |s|)
      case None => None
      case Some(k) => Some(k + 1)
  }

  /** `^(První|Druhé|Třetí)\s+čtení[^:–—-]*[:\s–—-]+` under `/i`: the end of the label, if the text starts with one. */
  function OrdinalLabelEnd(s: string): (e: Option<nat>)
    ensures e.Some? ==> 0 < e.value <= |s|
  {
    if StartsWithI(s, "První") || StartsWithI(s, "Druhé") || StartsWithI(s, "Třetí") then
      var w := SpanWhile(s, 5, IsSpace);
      if w > 5 && StartsWithI(s[w..], "čtení") then LabelTail(s, w + 5) else None
    else None
  }

  /** The ordinal reading label ("První čtení z Písma: ") removed when it is there. */
  function StripOrdinalLabel(s: string): (r: string)
    ensures r == s || (|r| < |s| && r == s[|s| - |r|..])
  {
    match OrdinalLabelEnd(s)
    case None => s
    case Some(e) => s[e..]
  }

  /** `^Evangelium[^:–—-]*[:\s–—-]+` under `/i` removed when it is there. */
  function StripGospelLabel(s: string): (r: string)
    ensures r == s || (|r| < |s| && r == s[|s| - |r|..])
  {
    if StartsWithI(s, "Evangelium") then
      match LabelTail(s, 10)
      case None => s
      case Some(e) => s[e..]
    else s
  }

  /** The heading without its markup and its reading label, trimmed. */
  function HeadingText(heading: string): (text: string)
    ensures IsTrimmed(text)
  {
    Trim(StripGospelLabel(StripOrdinalLabel(StripHashes(heading))))
  }

  // ---------------------------------------------------------------------------
  // extractRefsFromHeading
  // ---------------------------------------------------------------------------

  /** One `;`-separated part, trimmed and normalised. */
  function PartRef(part: string): string {
    Normalize(Trim(part))
  }

  /** Whether a normalised part is kept: it is non-empty and contains a digit. */
  predicate Kept(n: string) {
    n != [] && HasDigit(n)
  }

  /** Every part, trimmed and normalised, in order. */
  function NormalizedParts(parts: seq<string>): (ns: seq<string>)
    ensures |ns| == |parts|
  {
    MapSeq(parts, PartRef)
  }

  /** The normalised parts that are kept, in order. */
  function KeptRefs(ns: seq<string>): (refs: seq<string>)
    ensures |refs| <= |ns|
    ensures forall k :: 0 <= k < |refs| ==> HasDigit(refs[k])
  {
    if ns == [] then []
    else KeptRefs(ns[..|ns| - 1]) + (if Kept(ns[|ns| - 1]) then [ns[|ns| - 1]] else [])
  }

  /**
   * `extractRefsFromHeading` as a value: no reference for an empty remainder,
   * else the kept normalised parts of the remainder split at ';'.
   * `split(/;\s*\/)` is split at ';' here, which gives the same results because
   * every part is trimmed before it is used.
   */
  function HeadingRefs(heading: string): (refs: seq<string>)
    ensures forall k :: 0 <= k < |refs| ==> HasDigit(refs[k])
    ensures HeadingText(heading) == [] ==> refs == []
  {
    var text := HeadingText(heading);
    if text == [] then [] else KeptRefs(NormalizedParts(Split(text, ';')))
  }

  /** `extractRefsFromHeading`: an empty remainder gives no reference, else the kept parts. */
  method ExtractRefsFromHeading(heading: string) returns (refs: seq<string>)
    ensures refs == HeadingRefs(heading)
    ensures forall k :: 0 <= k < |refs| ==> HasDigit(refs[k])
  {
    var text := HeadingText(heading);
    if text == [] {
      return [];
    }
    refs := KeepNormalizedParts(Split(text, ';'));
  }

  /** The loop of `extractRefsFromHeading`: each part is normalised and pushed when it is kept. */
  method KeepNormalizedParts(parts: seq<string>) returns (refs: seq<string>)
    ensures refs == KeptRefs(NormalizedParts(parts))
  {
    ghost var ns := NormalizedParts(parts);
    refs := [];
    for i := 0 to |parts|
      invariant refs == KeptRefs(ns[..i])
    {
      var normalized := PartRef(parts[i]);
      MapAt(parts, PartRef, i);
      KeptRefsStep(ns, i);
      if normalized != [] && HasDigit(normalized) {
        refs := refs + [normalized];
      }
    }
    assert ns[..|parts|] == ns;
  }

  lemma KeptRefsStep(ns: seq<string>, i: nat)
    requires i < |ns|
    ensures KeptRefs(ns[..i + 1]) == KeptRefs(ns[..i]) + (if Kept(ns[i]) then [ns[i]] else [])
  {
    assert ns[..i + 1][..i] == ns[..i];
  }

  /** A reference is kept exactly when it is one of the normalised parts and has a digit. */
  lemma {:induction false} KeptRefsMembers(ns: seq<string>, x: string)
    ensures x in KeptRefs(ns) <==> x in ns && HasDigit(x)
  {
    if ns != [] {
      var init := ns[..|ns| - 1];
      KeptRefsMembers(init, x);
      assert ns == init + [ns[|ns| - 1]];
    }
  }

  /** The kept references keep the order of the parts they come from. */
  lemma {:induction false} KeptRefsConcat(xs: seq<string>, ys: seq<string>)
    ensures KeptRefs(xs + ys) == KeptRefs(xs) + KeptRefs(ys)
    decreases |ys|
  {
    if ys == [] {
      assert xs + ys == xs;
    } else {
      var ys0 := ys[..|ys| - 1];
      assert (xs + ys)[..|xs + ys| - 1] == xs + ys0;
      assert (xs + ys)[|xs + ys| - 1] == ys[|ys| - 1];
      KeptRefsConcat(xs, ys0);
    }
  }

  // ---------------------------------------------------------------------------
  // Properties of the label strippers
  // ---------------------------------------------------------------------------

  /** "## " before a text that does not start with whitespace is the whole markup. */
  lemma StripHashesSpace(x: string)
    requires x == [] || !IsSpace(x[0])
    ensures StripHashes("## " + x) == x
  {
    var s := "## " + x;
    assert s[0] == '#' && s[1] == '#' && s[2] == ' ';
    SpanWhileStops(s, 0, 2, IsHash);
    assert s[2..] == " " + x;
    assert TrimLeft(" " + x) == TrimLeft(x) by {
      assert (" " + x)[1..] == x;
    }
  }

  /** A label-free text passes the ordinal label stripper unchanged. */
  lemma OrdinalLabelAbsent(s: string)
    requires s == [] || (Upper(s[0]) != 'P' && Upper(s[0]) != 'D' && Upper(s[0]) != 'T')
    ensures StripOrdinalLabel(s) == s
  {
    if |s| >= 5 {
      assert UpperStr(s[..5])[0] == Upper(s[0]);
      assert UpperStr("První")[0] == 'P' && UpperStr("Druhé")[0] == 'D' && UpperStr("Třetí")[0] == 'T';
    }
  }

  /** A text that does not start with "Evangelium" passes the gospel label stripper unchanged. */
  lemma GospelLabelAbsent(s: string)
    requires s == [] || Upper(s[0]) != 'E'
    ensures StripGospelLabel(s) == s
  {
    if |s| >= 10 {
      assert UpperStr(s[..10])[0] == Upper(s[0]);
      assert UpperStr("Evangelium")[0] == 'E';
    }
  }

  /**
   * The tail of a label ends after its first delimiter and the whitespace that
   * follows it.
   */
  lemma {:induction false} LabelTailAt(s: string, q: nat, tail: string, c: char, sp: string, rest: string)
    requires q <= |s| && s[q..] == tail + [c] + sp + rest
    requires forall k :: 0 <= k < |tail| ==> !IsLabelDelim(tail[k])
    requires IsLabelDelim(c) && AllSpace(sp)
    requires rest == [] || !IsLabelSep(rest[0])
    ensures LabelTail(s, q).Some? && LabelTail(s, q).value == |s| - |rest|
    ensures s[|s| - |rest|..] == rest
  {
    var d := q + |tail|;
    var e := d + 1 + |sp|;
    assert forall k :: q <= k < d ==> s[k] == s[q..][k - q] == tail[k - q];
    assert s[d] == s[q..][|tail|] == c;
    SpanWhileStops(s, q, d, NotLabelDelim);
    assert forall k :: d + 1 <= k < e ==> s[k] == s[q..][k - q] == sp[k - d - 1];
    assert e < |s| ==> s[e] == s[q..][e - q] == rest[0];
    SpanWhileStops(s, d, e, IsLabelSep);
    assert s[e..] == s[q..][e - q..] == rest;
  }

  lemma StartsWithIPrefix(s: string, p: string, rest: string)
    requires s == p + rest
    ensures StartsWithI(s, p)
  {
    assert s[..|p|] == p;
  }

  /**
   * An ordinal reading label ("První", whitespace, "čtení", anything up to a
   * delimiter, the delimiter and whitespace) is removed in front of a text that
   * does not start with a separator.
   */
  lemma {:induction false} OrdinalLabelStrips(w: string, sp: string, after: string, tail: string, c: char, sp2: string, rest: string)
    requires w == "První" || w == "Druhé" || w == "Třetí"
    requires sp != [] && AllSpace(sp)
    requires after == tail + [c] + sp2 + rest
    requires forall k :: 0 <= k < |tail| ==> !IsLabelDelim(tail[k])
    requires IsLabelDelim(c) && AllSpace(sp2)
    requires rest == [] || !IsLabelSep(rest[0])
    ensures StripOrdinalLabel(w + sp + "čtení" + after) == rest
  {
    OrdinalHead(w, sp, after);
    OrdinalLabelRest(w + sp + "čtení" + after, 5 + |sp|, tail, c, sp2, rest);
  }

  /** After the word, the whitespace and "čtení", the label tail is removed. */
  lemma OrdinalLabelRest(s: string, p: nat, tail: string, c: char, sp2: string, rest: string)
    requires StartsWithI(s, "První") || StartsWithI(s, "Druhé") || StartsWithI(s, "Třetí")
    requires 5 < p && p + 5 <= |s| && SpanWhile(s, 5, IsSpace) == p && StartsWithI(s[p..], "čtení")
    requires s[p + 5..] == tail + [c] + sp2 + rest
    requires forall k :: 0 <= k < |tail| ==> !IsLabelDelim(tail[k])
    requires IsLabelDelim(c) && AllSpace(sp2)
    requires rest == [] || !IsLabelSep(rest[0])
    ensures StripOrdinalLabel(s) == rest
  {
    LabelTailAt(s, p + 5, tail, c, sp2, rest);
    OrdinalLabelSteps(s, p, |s| - |rest|);
  }

  /** The word, the whitespace and "čtení" of an ordinal label. */
  lemma OrdinalHead(w: string, sp: string, after: string)
    requires w == "První" || w == "Druhé" || w == "Třetí"
    requires sp != [] && AllSpace(sp)
    ensures var s := w + sp + "čtení" + after;
      && StartsWithI(s, w)
      && SpanWhile(s, 5, IsSpace) == 5 + |sp|
      && StartsWithI(s[5 + |sp|..], "čtení")
      && s[5 + |sp| + 5..] == after
  {
    var s := w + sp + "čtení" + after;
    assert s == w + (sp + ("čtení" + after));
    StartsWithIPrefix(s, w, sp + ("čtení" + after));
    var p := 5 + |sp|;
    assert SpanWhile(s, 5, IsSpace) == p by {
      assert forall k :: 5 <= k < p ==> s[k] == sp[k - 5];
      assert s[p] == 'č';
      SpanWhileStops(s, 5, p, IsSpace);
    }
    assert s[p..] == "čtení" + after;
    StartsWithIPrefix(s[p..], "čtení", after);
  }

  /** The ordinal label stripper is the composition of its steps. */
  lemma OrdinalLabelSteps(s: string, p: nat, e: nat)
    requires StartsWithI(s, "První") || StartsWithI(s, "Druhé") || StartsWithI(s, "Třetí")
    requires 5 < p <= |s| && SpanWhile(s, 5, IsSpace) == p && StartsWithI(s[p..], "čtení")
    requires LabelTail(s, p + 5).Some? && LabelTail(s, p + 5).value == e
    ensures StripOrdinalLabel(s) == s[e..]
  {
  }

  /** The gospel label ("Evangelium", anything up to a delimiter, the delimiter and whitespace) is removed likewise. */
  lemma {:induction false} GospelLabelStrips(after: string, tail: string, c: char, sp: string, rest: string)
    requires after == tail + [c] + sp + rest
    requires forall k :: 0 <= k < |tail| ==> !IsLabelDelim(tail[k])
    requires IsLabelDelim(c) && AllSpace(sp)
    requires rest == [] || !IsLabelSep(rest[0])
    ensures StripGospelLabel("Evangelium" + after) == rest
  {
    var s := "Evangelium" + after;
    StartsWithIPrefix(s, "Evangelium", after);
    assert s[10..] == after;
    LabelTailAt(s, 10, tail, c, sp, rest);
  }

  // ---------------------------------------------------------------------------
  // Worked heading examples
  // ---------------------------------------------------------------------------

  /** `extractRefsFromHeading` is the composition of its steps. */
  lemma HeadingRefsSteps(heading: string, text: string, parts: seq<string>, ns: seq<string>)
    requires HeadingText(heading) == text && text != []
    requires Split(text, ';') == parts && NormalizedParts(parts) == ns
    ensures HeadingRefs(heading) == KeptRefs(ns)
  {
  }

  lemma NormalizedOne(x: string, r: string)
    requires PartRef(x) == r
    ensures NormalizedParts([x]) == [r]
  {
    MapOne(x, PartRef);
  }

  lemma NormalizedTwo(x: string, y: string, r1: string, r2: string)
    requires PartRef(x) == r1 && PartRef(y) == r2
    ensures NormalizedParts([x, y]) == [r1, r2]
  {
    MapTwo(x, y, PartRef);
  }

  lemma KeptTwo(r1: string, r2: string, k1: seq<string>, k2: seq<string>)
    requires k1 == (if Kept(r1) then [r1] else []) && k2 == (if Kept(r2) then [r2] else [])
    ensures KeptRefs([r1, r2]) == k1 + k2
  {
    assert [r1, r2][..1] == [r1] && [r1][..0] == [];
  }

  /** A heading whose remainder is one part. */
  lemma OnePartHeading(heading: string, text: string, r: string)
    requires HeadingText(heading) == text && text != [] && ';' !in text
    requires PartRef(text) == r && HasDigit(r)
    ensures HeadingRefs(heading) == [r]
  {
    SplitNoSep(text, ';');
    NormalizedOne(text, r);
    assert KeptRefs([r]) == [r] by {
      assert [r][..0] == [];
    }
    HeadingRefsSteps(heading, text, [text], [r]);
  }

  /** A heading whose remainder is two parts. */
  lemma TwoPartHeading(heading: string, text: string, x: string, y: string, r1: string, r2: string)
    requires HeadingText(heading) == text && Split(text, ';') == [x, y]
    requires PartRef(x) == r1 && Kept(r1) && PartRef(y) == r2 && Kept(r2)
    ensures HeadingRefs(heading) == [r1, r2]
  {
    NormalizedTwo(x, y, r1, r2);
    KeptTwo(r1, r2, [r1], [r2]);
    HeadingRefsSteps(heading, text, [x, y], [r1, r2]);
  }

  /** The heading remainder is the composition of its steps. */
  lemma HeadingTextSteps(heading: string, a: string, b: string, c: string, t: string)
    requires StripHashes(heading) == a && StripOrdinalLabel(a) == b && StripGospelLabel(b) == c && Trim(c) == t
    ensures HeadingText(heading) == t
  {
  }

  lemma GospelHeadingPieces()
    ensures "## Evangelium – Mt 4,1-11" == "## " + "Evangelium – Mt 4,1-11"
    ensures "Evangelium – Mt 4,1-11" == "Evangelium" + " – Mt 4,1-11"
    ensures " – Mt 4,1-11" == " " + ['–'] + " " + "Mt 4,1-11"
  {
    GospelHeadingHashes();
    GospelHeadingLabel();
    GospelHeadingDash();
  }

  lemma GospelHeadingHashes()
    ensures "## Evangelium – Mt 4,1-11" == "## " + "Evangelium – Mt 4,1-11"
  {
  }

  lemma GospelHeadingLabel()
    ensures "Evangelium – Mt 4,1-11" == "Evangelium" + " – Mt 4,1-11"
  {
  }

  lemma GospelHeadingDash()
    ensures " – Mt 4,1-11" == " " + ['–'] + " " + "Mt 4,1-11"
  {
  }

  lemma GospelHeadingClasses()
    ensures "Evangelium – Mt 4,1-11"[0] == 'E' && !IsSpace('E') && Upper('E') == 'E'
    ensures !IsLabelDelim(" "[0]) && AllSpace(" ") && IsLabelDelim('–') && !IsLabelSep("Mt 4,1-11"[0])
    ensures IsTrimmed("Mt 4,1-11")
  {
  }

  lemma GospelHeadingText()
    ensures HeadingText("## Evangelium – Mt 4,1-11") == "Mt 4,1-11"
  {
    GospelHeadingPieces();
    GospelHeadingClasses();
    StripHashesSpace("Evangelium – Mt 4,1-11");
    OrdinalLabelAbsent("Evangelium – Mt 4,1-11");
    GospelLabelStrips(" – Mt 4,1-11", " ", '–', " ", "Mt 4,1-11");
    TrimOfTrimmed("Mt 4,1-11");
    HeadingTextSteps("## Evangelium – Mt 4,1-11", "Evangelium – Mt 4,1-11", "Evangelium – Mt 4,1-11", "Mt 4,1-11", "Mt 4,1-11");
  }

  lemma GospelHeadingPart()
    ensures ';' !in "Mt 4,1-11"
    ensures PartRef("Mt 4,1-11") == "Mt 4,1-11" && HasDigit("Mt 4,1-11")
  {
    GospelHeadingNoSemicolon();
    GospelHeadingDigit();
    TrimOfTrimmed("Mt 4,1-11");
    ExampleCanonicalTemptation();
    PartRefAt("Mt 4,1-11", "Mt 4,1-11", "Mt 4,1-11");
  }

  lemma GospelHeadingNoSemicolon()
    ensures ';' !in "Mt 4,1-11"
  {
  }

  lemma GospelHeadingDigit()
    ensures HasDigit("Mt 4,1-11")
  {
    HasDigitAt("Mt 4,1-11");
    assert IsDigit("Mt 4,1-11"[3]);
  }

  lemma ExampleGospelHeading()
    ensures HeadingRefs("## Evangelium – Mt 4,1-11") == ["Mt 4,1-11"]
  {
    GospelHeadingText();
    GospelHeadingPart();
    OnePartHeading("## Evangelium – Mt 4,1-11", "Mt 4,1-11", "Mt 4,1-11");
  }

  /** A part's reference from its trimmed text and that text's normal form. */
  lemma PartRefAt(part: string, t: string, r: string)
    requires Trim(part) == t && Normalize(t) == r
    ensures PartRef(part) == r
  {
  }

  // "## První čtení z Písma: Gn 2,7-9; 3,1-7" gives "Gn 2,7-9" and the bare
  // "3,1-7": the second part does not inherit the book of the first.

  lemma FirstHeadingLabel()
    ensures "První čtení z Písma: Gn 2,7-9; 3,1-7" == "První" + " " + "čtení" + " z Písma: Gn 2,7-9; 3,1-7"
  {
  }

  lemma FirstHeadingLabelTail()
    ensures " z Písma: Gn 2,7-9; 3,1-7" == " z Písma" + [':'] + " " + "Gn 2,7-9; 3,1-7"
  {
  }

  lemma FirstHeadingClasses()
    ensures !IsSpace("První čtení z Písma: Gn 2,7-9; 3,1-7"[0]) && AllSpace(" ")
    ensures forall k :: 0 <= k < |" z Písma"| ==> !IsLabelDelim(" z Písma"[k])
    ensures IsLabelDelim(':') && !IsLabelSep("Gn 2,7-9; 3,1-7"[0])
    ensures "Gn 2,7-9; 3,1-7"[0] == 'G' && Upper('G') == 'G'
    ensures IsTrimmed("Gn 2,7-9; 3,1-7")
  {
  }

  lemma FirstHeadingText()
    ensures HeadingText("## " + "První čtení z Písma: Gn 2,7-9; 3,1-7") == "Gn 2,7-9; 3,1-7"
  {
    FirstHeadingLabel();
    FirstHeadingLabelTail();
    FirstHeadingClasses();
    StripHashesSpace("První čtení z Písma: Gn 2,7-9; 3,1-7");
    OrdinalLabelStrips("První", " ", " z Písma: Gn 2,7-9; 3,1-7", " z Písma", ':', " ", "Gn 2,7-9; 3,1-7");
    GospelLabelAbsent("Gn 2,7-9; 3,1-7");
    TrimOfTrimmed("Gn 2,7-9; 3,1-7");
    HeadingTextSteps("## " + "První čtení z Písma: Gn 2,7-9; 3,1-7", "První čtení z Písma: Gn 2,7-9; 3,1-7",
      "Gn 2,7-9; 3,1-7", "Gn 2,7-9; 3,1-7", "Gn 2,7-9; 3,1-7");
  }

  lemma FirstHeadingSplit()
    ensures Split("Gn 2,7-9; 3,1-7", ';') == ["Gn 2,7-9", " 3,1-7"]
  {
    assert "Gn 2,7-9; 3,1-7" == "Gn 2,7-9" + [';'] + " 3,1-7";
    assert ';' !in "Gn 2,7-9" && ';' !in " 3,1-7";
    SplitTwo("Gn 2,7-9", " 3,1-7", ';');
  }

  lemma GenesisPieces()
    ensures "Gn 2,7-9" == "Gn" + " " + "2,7-9"
    ensures "Gn" in CanonicalBooks && CleanCv("2,7-9") && IsDigit("2,7-9"[0])
  {
    GenesisSplit();
    GenesisBook();
    GenesisVerses();
  }

  lemma GenesisSplit()
    ensures "Gn 2,7-9" == "Gn" + " " + "2,7-9"
  {
  }

  lemma GenesisBook()
    ensures "Gn" in CanonicalBooks
  {
    assert CanonicalBooks[0] == "Gn";
  }

  lemma GenesisVerses()
    ensures CleanCv("2,7-9") && IsDigit("2,7-9"[0])
  {
  }

  lemma GenesisKept()
    ensures IsTrimmed("Gn 2,7-9") && Kept("Gn 2,7-9")
  {
    HasDigitAt("Gn 2,7-9");
    assert IsDigit("Gn 2,7-9"[3]);
  }

  lemma ExampleCanonicalGenesis()
    ensures Normalize("Gn 2,7-9") == "Gn 2,7-9"
  {
    GenesisPieces();
    CanonicalUnchanged("Gn", "2,7-9");
  }

  lemma GenesisPart()
    ensures PartRef("Gn 2,7-9") == "Gn 2,7-9"
  {
    GenesisKept();
    TrimOfTrimmed("Gn 2,7-9");
    ExampleCanonicalGenesis();
    PartRefAt("Gn 2,7-9", "Gn 2,7-9", "Gn 2,7-9");
  }

  lemma BareVersesTrim()
    ensures Trim(" 3,1-7") == "3,1-7"
  {
    assert " 3,1-7" == " " + "3,1-7";
    assert IsTrimmed("3,1-7");
    TrimLeadingSpace("3,1-7");
  }

  lemma BareVersesPieces()
    ensures NoBookAhead("3,1-7") && Kept("3,1-7")
  {
    assert !IzSlip("3,1-7");
    HasDigitAt("3,1-7");
    assert IsDigit("3,1-7"[0]);
  }

  lemma BareVersesPart()
    ensures PartRef(" 3,1-7") == "3,1-7"
  {
    BareVersesTrim();
    BareVersesPieces();
    NormalizeWithoutBook("3,1-7");
    PartRefAt(" 3,1-7", "3,1-7", "3,1-7");
  }

  lemma ExampleNoBookInheritance()
    ensures HeadingRefs("## " + "První čtení z Písma: Gn 2,7-9; 3,1-7") == ["Gn 2,7-9", "3,1-7"]
  {
    FirstHeadingText();
    FirstHeadingSplit();
    GenesisKept();
    GenesisPart();
    BareVersesPieces();
    BareVersesPart();
    TwoPartHeading("## " + "První čtení z Písma: Gn 2,7-9; 3,1-7", "Gn 2,7-9; 3,1-7", "Gn 2,7-9", " 3,1-7", "Gn 2,7-9", "3,1-7");
  }

  // ---------------------------------------------------------------------------
  // extractAllRefsFromMarkdown
  // ---------------------------------------------------------------------------

  /** The last position in `t[lo..hi]` that is not a line terminator. */
  function LastNonTerminator(t: string, lo: nat, hi: nat): (j: Option<nat>)
    requires lo <= hi <= |t|
    ensures j.Some? ==> lo <= j.value < hi && !IsLineTerminator(t[j.value])
    decreases hi - lo
  {
    if lo == hi then None
    else if !IsLineTerminator(t[hi - 1]) then Some(hi - 1)
    else LastNonTerminator(t, lo, hi - 1)
  }

  /**
   * `##\s+(.+)$` (multiline) tried at the start of `t`: the captured heading and
   * the end of the match. `\s+` may run over line breaks; when it runs to the
   * end of the text it gives back characters until `.+` can take one that is not
   * a line terminator, and `.+` then runs to the next line terminator.
   */
  function MatchHeading(t: string): (m: Option<(string, nat)>)
    ensures m.Some? ==> 3 < m.value.1 <= |t|
  {
    if |t| < 3 || t[0] != '#' || t[1] != '#' then None
    else
      var w := SpanWhile(t, 2, IsSpace);
      if w == 2 then None
      else
        var j := if w < |t| then Some(w) else LastNonTerminator(t, 3, w);
        match j
        case None => None
        case Some(j) =>
          var e := SpanWhile(t, j, NotLineTerminator);
          Some((t[j..e], e))
  }

  /** Where a multiline `^` holds: the start of the text or just after a line terminator. */
  predicate LineStart(s: string, i: nat)
    requires i <= |s|
  {
    i == 0 || IsLineTerminator(s[i - 1])
  }

  /**
   * The captures a global, multiline `exec` loop finds in the text `t` that is
   * left, in document order; `bol` says whether `^` holds at its start. A match
   * resumes the search at its end, a failed attempt one character further on.
   */
  function Scan(t: string, bol: bool): seq<string>
    decreases |t|
  {
    if t == [] then []
    else if bol && MatchHeading(t).Some? then
      var e := MatchHeading(t).value.1;
      [MatchHeading(t).value.0] + Scan(t[e..], IsLineTerminator(t[e - 1]))
    else Scan(t[1..], IsLineTerminator(t[0]))
  }

  /** The headings of a markdown document, in order. */
  function Headings(markdown: string): seq<string> {
    Scan(markdown, true)
  }

  datatype ReadingType = First | Second | Gospel | Unknown

  datatype Reading = Reading(kind: ReadingType, refs: seq<string>)

  /** The type of a heading by the first keyword it contains, case-insensitively. */
  function KindOf(heading: string): (k: ReadingType)
    ensures k == First <==> ContainsI(heading, "první")
    ensures k == Second <==> !ContainsI(heading, "první") && ContainsI(heading, "druhé")
    ensures k == Gospel <==> !ContainsI(heading, "první") && !ContainsI(heading, "druhé") && ContainsI(heading, "evangelium")
  {
    if ContainsI(heading, "první") then First
    else if ContainsI(heading, "druhé") then Second
    else if ContainsI(heading, "evangelium") then Gospel
    else Unknown
  }

  function ReadingOf(heading: string): Reading {
    Reading(KindOf(heading), HeadingRefs("## " + heading))
  }

  /** One reading per heading, in order. */
  function ReadingsOf(headings: seq<string>): (rs: seq<Reading>)
    ensures |rs| == |headings|
  {
    MapSeq(headings, ReadingOf)
  }

  /** The `k`-th reading is typed and read from the `k`-th heading alone. */
  lemma ReadingsAt(headings: seq<string>, k: nat)
    requires k < |headings|
    ensures ReadingsOf(headings)[k].kind == KindOf(headings[k])
    ensures ReadingsOf(headings)[k].refs == HeadingRefs("## " + headings[k])
  {
    MapAt(headings, ReadingOf, k);
  }

  /** The references of all readings, concatenated in order. */
  function AllRefsOf(rs: seq<Reading>): seq<string> {
    if rs == [] then [] else AllRefsOf(rs[..|rs| - 1]) + rs[|rs| - 1].refs
  }

  /**
   * `extractAllRefsFromMarkdown`: the `exec` loop over the heading matches,
   * typing each heading and pushing its references.
   */
  method ExtractAllRefsFromMarkdown(markdown: string) returns (readings: seq<Reading>, allRefs: seq<string>)
    ensures readings == ReadingsOf(Headings(markdown))
    ensures allRefs == AllRefsOf(readings)
  {
    readings, allRefs := ReadAllMatches(markdown, ReadingOf);
  }

  /**
   * The `exec` loop of `extractAllRefsFromMarkdown`: every heading match, in
   * order, read into a reading by `read`.
   */
  method ReadAllMatches(markdown: string, read: string -> Reading)
    returns (readings: seq<Reading>, allRefs: seq<string>)
    ensures readings == MapSeq(Headings(markdown), read)
    ensures allRefs == AllRefsOf(readings)
  {
    readings := [];
    allRefs := [];
    ghost var found: seq<string> := [];
    var pos := 0;
    assert ReadsOf(found, read, readings, allRefs);
    while pos < |markdown|
      invariant pos <= |markdown|
      invariant ScanFrom(markdown, 0) == found + ScanFrom(markdown, pos)
      invariant ReadsOf(found, read, readings, allRefs)
      decreases |markdown| - pos
    {
      var r := if LineStart(markdown, pos) then MatchHeading(markdown[pos..]) else None;
      if r.None? {
        ScanFromSkip(markdown, pos);
        pos := pos + 1;
      } else {
        var heading := r.value.0;
        var e := r.value.1;
        ScanFromHit(markdown, pos, heading, e);
        Assoc(found, [heading], ScanFrom(markdown, pos + e));
        var reading := read(heading);
        ReadsOfSnoc(found, read, readings, allRefs, heading);
        readings := readings + [reading];
        allRefs := allRefs + reading.refs;
        found := found + [heading];
        pos := pos + e;
      }
    }
    ScanFromIsScan(markdown, 0);
    assert markdown[0..] == markdown;
    assert found + [] == found;
  }

  /** `readings` reads the headings `found`, and `allRefs` gathers their references. */
  predicate ReadsOf(found: seq<string>, read: string -> Reading, readings: seq<Reading>, allRefs: seq<string>) {
    readings == MapSeq(found, read) && allRefs == AllRefsOf(readings)
  }

  lemma ReadsOfSnoc(found: seq<string>, read: string -> Reading, readings: seq<Reading>, allRefs: seq<string>, h: string)
    requires ReadsOf(found, read, readings, allRefs)
    ensures ReadsOf(found + [h], read, readings + [read(h)], allRefs + read(h).refs)
  {
    MapSnoc(found, h, read);
    AllRefsSnoc(readings, read(h));
  }

  /** The scan of `s` resumed at position `i`, the way `lastIndex` walks it. */
  function ScanFrom(s: string, i: nat): seq<string>
    requires i <= |s|
    decreases |s| - i
  {
    if i == |s| then []
    else if LineStart(s, i) && MatchHeading(s[i..]).Some? then
      [MatchHeading(s[i..]).value.0] + ScanFrom(s, i + MatchHeading(s[i..]).value.1)
    else ScanFrom(s, i + 1)
  }

  /** A heading found at `i` is the next one scanned, and the scan resumes after it. */
  lemma ScanFromHit(s: string, i: nat, heading: string, e: nat)
    requires i < |s| && LineStart(s, i) && MatchHeading(s[i..]) == Some((heading, e))
    ensures i + e <= |s| && ScanFrom(s, i) == [heading] + ScanFrom(s, i + e)
  {
  }

  /** Where no heading starts at `i`, the scan moves on by one character. */
  lemma ScanFromSkip(s: string, i: nat)
    requires i < |s| && (LineStart(s, i) ==> MatchHeading(s[i..]).None?)
    ensures ScanFrom(s, i) == ScanFrom(s, i + 1)
  {
  }

  /** Resuming at a position is scanning the text left from there. */
  lemma {:induction false} ScanFromIsScan(s: string, i: nat)
    requires i <= |s|
    ensures ScanFrom(s, i) == Scan(s[i..], LineStart(s, i))
    decreases |s| - i
  {
    if i < |s| {
      if LineStart(s, i) && MatchHeading(s[i..]).Some? {
        var e := MatchHeading(s[i..]).value.1;
        ScanHitAt(s, i, MatchHeading(s[i..]).value.0, e);
        ScanFromIsScan(s, i + e);
      } else {
        ScanMissAt(s, i);
        ScanFromIsScan(s, i + 1);
      }
    }
  }

  lemma AllRefsSnoc(rs: seq<Reading>, r: Reading)
    ensures AllRefsOf(rs + [r]) == AllRefsOf(rs) + r.refs
  {
    assert (rs + [r])[..|rs|] == rs;
  }

  /** A position of `s` where no match starts: the scan goes on one character further. */
  lemma ScanMissAt(s: string, i: nat)
    requires i < |s| && !(LineStart(s, i) && MatchHeading(s[i..]).Some?)
    ensures Scan(s[i..], LineStart(s, i)) == Scan(s[i + 1..], LineStart(s, i + 1))
  {
    assert s[i..][1..] == s[i + 1..];
    assert s[i..][0] == s[i];
    ScanMiss(s[i..], LineStart(s, i));
  }

  /** A position of `s` where a match starts: its capture, then the scan from its end. */
  lemma ScanHitAt(s: string, i: nat, h: string, e: nat)
    requires i < |s| && LineStart(s, i) && MatchHeading(s[i..]) == Some((h, e))
    ensures 0 < e && i + e <= |s|
    ensures Scan(s[i..], LineStart(s, i)) == [h] + Scan(s[i + e..], LineStart(s, i + e))
  {
    var t := s[i..];
    assert t[e..] == s[i + e..];
    assert t[e - 1] == s[i + e - 1];
    ScanHit(t);
  }

  lemma ScanMiss(t: string, bol: bool)
    requires t != [] && !(bol && MatchHeading(t).Some?)
    ensures Scan(t, bol) == Scan(t[1..], IsLineTerminator(t[0]))
  {
  }

  lemma ScanHit(t: string)
    requires t != [] && MatchHeading(t).Some?
    ensures Scan(t, true) == [MatchHeading(t).value.0] + Scan(t[MatchHeading(t).value.1..], IsLineTerminator(t[MatchHeading(t).value.1 - 1]))
  {
  }

  /** Every reference of the document comes from one of its readings, and every reading's references are there. */
  lemma {:induction false} AllRefsMembers(rs: seq<Reading>, x: string)
    ensures x in AllRefsOf(rs) <==> exists k :: 0 <= k < |rs| && x in rs[k].refs
  {
    if rs != [] {
      var init := rs[..|rs| - 1];
      AllRefsMembers(init, x);
      assert forall k :: 0 <= k < |init| ==> init[k] == rs[k];
      if x in rs[|rs| - 1].refs {
        assert x in AllRefsOf(rs);
      }
    }
  }

  /** Every reference `extractAllRefsFromMarkdown` returns contains a digit. */
  lemma AllRefsHaveDigits(headings: seq<string>, x: string)
    requires x in AllRefsOf(ReadingsOf(headings))
    ensures HasDigit(x)
  {
    var rs := ReadingsOf(headings);
    AllRefsMembers(rs, x);
    var k :| 0 <= k < |rs| && x in rs[k].refs;
    MapAt(headings, ReadingOf, k);
  }

  /** The references of a document split at a reading are those of both parts. */
  lemma {:induction false} AllRefsConcat(xs: seq<Reading>, ys: seq<Reading>)
    ensures AllRefsOf(xs + ys) == AllRefsOf(xs) + AllRefsOf(ys)
    decreases |ys|
  {
    if ys == [] {
      assert xs + ys == xs;
    } else {
      var ys0, last := ys[..|ys| - 1], ys[|ys| - 1];
      assert (xs + ys)[..|xs + ys| - 1] == xs + ys0;
      assert (xs + ys)[|xs + ys| - 1] == last;
      calc {
        AllRefsOf(xs + ys);
        AllRefsOf(xs + ys0) + last.refs;
        { AllRefsConcat(xs, ys0); }
        (AllRefsOf(xs) + AllRefsOf(ys0)) + last.refs;
        { Assoc(AllRefsOf(xs), AllRefsOf(ys0), last.refs); }
        AllRefsOf(xs) + (AllRefsOf(ys0) + last.refs);
      }
    }
  }

  /** The rest of a line away from its start holds no match; the scan goes on at the next line. */
  lemma {:induction false} SkipRest(x: string, rest: string)
    requires NoLineTerminator(x)
    ensures Scan(x + "\n" + rest, false) == Scan(rest, true)
  {
    if x == [] {
      assert (x + "\n" + rest)[1..] == rest;
    } else {
      assert (x + "\n" + rest)[1..] == x[1..] + "\n" + rest;
      NoLineTerminatorAt(x);
      NoLineTerminatorAt(x[1..]);
      SkipRest(x[1..], rest);
    }
  }

  /** A "## heading" line gives one heading, followed by the headings of the lines after it. */
  lemma {:induction false} HeadingLine(h: string, rest: string)
    requires h != [] && !IsSpace(h[0]) && NoLineTerminator(h)
    ensures Headings("## " + h + "\n" + rest) == [h] + Headings(rest)
  {
    var t := "## " + h + "\n" + rest;
    var e := 3 + |h|;
    HeadingLineMatch(h, rest);
    ScanHit(t);
    assert t[e..] == "" + "\n" + rest;
    assert t[e - 1] == h[|h| - 1];
    NoLineTerminatorAt(h);
    SkipRest("", rest);
  }

  lemma HeadingLineMatch(h: string, rest: string)
    requires h != [] && !IsSpace(h[0]) && NoLineTerminator(h)
    ensures MatchHeading("## " + h + "\n" + rest) == Some((h, 3 + |h|))
  {
    var p := "## ";
    assert |p| == 3 && p[0] == '#' && p[1] == '#' && p[2] == ' ';
    HeadingAfter(p, h, rest);
  }

  /** A heading after a three-character "## " prefix, whatever follows its line. */
  lemma HeadingAfter(p: string, h: string, rest: string)
    requires |p| == 3 && p[0] == '#' && p[1] == '#' && p[2] == ' '
    requires h != [] && !IsSpace(h[0]) && NoLineTerminator(h)
    ensures MatchHeading(p + h + "\n" + rest) == Some((h, 3 + |h|))
  {
    var s := p + h + "\n" + rest;
    var e := 3 + |h|;
    NoLineTerminatorAt(h);
    assert s[3..e] == h;
    assert forall k :: 3 <= k < e ==> s[k] == h[k - 3];
    assert s[e] == '\n';
    MatchOneSpace(s, e);
  }

  /** `##`, one space and a heading that starts with a non-space and ends at a line terminator. */
  lemma MatchOneSpace(t: string, e: nat)
    requires 3 < e < |t|
    requires t[0] == '#' && t[1] == '#' && t[2] == ' ' && !IsSpace(t[3])
    requires forall k :: 3 <= k < e ==> !IsLineTerminator(t[k])
    requires IsLineTerminator(t[e])
    ensures MatchHeading(t) == Some((t[3..e], e))
  {
    SpanWhileStops(t, 2, 3, IsSpace);
    SpanWhileStops(t, 3, e, NotLineTerminator);
  }

  /** A line that does not start with "##" contributes no heading. */
  lemma {:induction false} PlainLine(l: string, rest: string)
    requires NoLineTerminator(l) && !StartsWith(l, "##")
    ensures Headings(l + "\n" + rest) == Headings(rest)
  {
    var t := l + "\n" + rest;
    PlainNoMatch(l, rest);
    ScanMiss(t, true);
    ScanMiss(t, false);
    SkipRest(l, rest);
  }

  lemma PlainNoMatch(l: string, rest: string)
    requires NoLineTerminator(l) && !StartsWith(l, "##")
    ensures MatchHeading(l + "\n" + rest).None?
  {
    var t := l + "\n" + rest;
    if |l| >= 2 {
      assert t[..2] == l[..2];
    } else if l != [] {
      assert t[1] == '\n';
    }
  }

  lemma NoHeadingsInEmpty()
    ensures Headings("") == []
  {
  }
}
