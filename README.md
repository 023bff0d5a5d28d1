# Čtení na neděli — a Dafny model of its text engine

Čtení na neděli ("readings for Sunday") helps lectors of the Czechoslovak
Hussite Church prepare the Sunday Bible readings. Its core is a small text
engine that links the postils (sermons) Karel Farský published in the
*Český zápas* serial in 1921–1924 to the readings of a modern Sunday. Around
that core sit a few sequential helpers of the web functions and the client.

This project models that engine and those helpers and proves properties of
the model. There is one Dafny module per source file:

- **Text**: the JavaScript string built-ins the code relies on, written out:
  - `trim`, with the full ECMAScript whitespace set;
  - `split`, `join`, literal `replace`, `lastIndexOf`, `repeat`;
  - case mapping restricted to ASCII and the Czech letters;
  - decimal rendering and `parseInt`.
- **BiblicalRefs**: `normalizeBiblicalRef` of the shared module and its alias
  table `BOOK_ALIASES`. A citation such as `I. Kor. 12, 1—11` becomes the
  key `1Kor 12,1-11` through four steps:
  - a Roman or Arabic book-number prefix;
  - the alias lookup;
  - whitespace removal;
  - dash clean-up.
- **RefHeadings**: `extractRefsFromHeading` and `extractAllRefsFromMarkdown`.
  They take those keys out of the `##` reading headings of the Sunday
  readings page.
- **PostilRefs**: the postil parser's own, older normaliser, with its
  different alias table, its `[12]` prefix and its `1an` repair. Also the
  parenthetical citation extractor `extractBiblicalRefs`, which separates
  the liturgical label from the references.
- **PostilSegmenter**: the first pass of `parsePostily`.
  - The transcript is split at the `Český zápas, ročník …, číslo …` marker
    lines.
  - A postil number is recovered from the ten lines before each marker.
  - A cursor then walks the lines up to the next marker, through the title,
    the citation block, the body and the quoted Bible text.
- **PostilNumbers**: the second pass of `parsePostily`, which fills in
  missing postil numbers in place over an array of records. It also holds
  the whole parser.
- **PostilMatcher**: `findMatchingPostily`. The database overlap query is
  modelled as a filter over a table of rows. The module then chooses each
  match's `matched_ref`.
- **Corpus**: `truncateToSentence`, the character budget of
  `buildTheologicalContext`, and `buildContextPrompt`.
- **CorpusImport**: the PDF-markdown cleaner `cleanContent`, and the action
  and insert-default logic of the corpus import function.
- **WarmCache**: `extractReadings` with `extractSection`. Also the choice
  between a fresh cache row, a scrape and a stale cache row.
- **FirecrawlScrape**: the scrape function's pieces:
  - the per-address rate limiter, a class over a map of entries;
  - the client address;
  - the URL gate;
  - the cache-age rule;
  - the title under which a scrape is saved.
- **TextToSpeech**: the guards of the speech function and the `cleanText`
  marker chain.
- **ReadingContext**: `buildLegacyContext`, `buildLegacyDelivery`, and the
  rule by which the newer `context`/`delivery` fields win over them.
- **LocalCache**: the two single-slot caches the client keeps in
  `localStorage`. They are modelled as a class holding a key → stored value
  map.

Regular expressions are written as scanners over `seq<char>`:
- every pattern is fixed;
- lazy and possessive pieces are resolved by hand;
- `/i` is matched with the case mapping of module Text.

The loops of the source are methods with `while` or `for` loops. Each is proved
equal to a recursive function that defines its result, and the properties are lemmas
about those functions.

Clocks, the presence of API keys, database answers and scrape results are
parameters.

Some behaviour of the code differs from what its comments promise. The
model follows the code and states each difference as a lemma:
- `extractRefsFromHeading` does not carry a book name over to later parts
  of a heading (`RefHeadings.ExampleNoBookInheritance`).
- Normalisation is not idempotent on every input
  (`BiblicalRefs.ExampleNotIdempotent`).
- The `Epištola\s*(?:k\s*)?` pattern is case-blind, so it eats the `K` of
  `Kol.` (`PostilRefs.ExampleCaseBlindK`).
- Counting back from the first known postil number can go below 1
  (`PostilNumbers.ExampleCountBack`).
- A markup marker split by `#` survives the speech clean-up
  (`TextToSpeech.SplitMarkerSurvives`).
- A scrape that succeeds without markdown aborts the warm-up even when a
  stale cache row exists (`WarmCache.EmptyScrapeAborts`).

## Model

| member | source | states |
|---|---|---|
| BiblicalRefs.FixLeadingIz | supabase/functions/_shared/biblical-refs.ts:87 | the text changes exactly when it starts with "1z"/"1Z" not followed by a word character, and then it becomes "Iz" + the rest, same length |
| BiblicalRefs.LookupBook | supabase/functions/_shared/biblical-refs.ts:107-110 | a token found in the alias table (lower-cased, last dot dropped) gives the table's value; an unknown token comes back with only its trailing dot removed |
| BiblicalRefs.NormalizeCv | supabase/functions/_shared/biblical-refs.ts:112-116 | the chapter/verse part never holds whitespace or an en/em dash afterwards |
| BiblicalRefs.NumberedSplits | supabase/functions/_shared/biblical-refs.ts:90 | the numbered pattern splits "numeral, whitespace, one-line text" exactly after the whitespace, with the numeral's dot removed |
| BiblicalRefs.NormalizePrefixGlued | supabase/functions/_shared/biblical-refs.ts:90-101 | a numeral I–V or 1–5 and whitespace before a book becomes the digit glued, without a space, to the normalised rest |
| BiblicalRefs.UnmappedNumeralsDropped | supabase/functions/_shared/biblical-refs.ts:94-99 | numerals the pattern accepts but the mapping does not know ("VI", "ii", "X", "Iv") give an empty prefix |
| BiblicalRefs.NormalizeBookForm | supabase/functions/_shared/biblical-refs.ts:104-119 | "book, optional dot, whitespace, chapter/verse" normalises to the looked-up book, a space and the cleaned chapter/verse part |
| BiblicalRefs.NormalizeBookAlone | supabase/functions/_shared/biblical-refs.ts:104-119 | a bare book token normalises to the looked-up book alone (empty chapter/verse part) |
| BiblicalRefs.NormalizeWithoutBook | supabase/functions/_shared/biblical-refs.ts:104-105 | when no book token can be found after the optional prefix, the result is the trimmed input |
| BiblicalRefs.LookupIgnoresDot | supabase/functions/_shared/biblical-refs.ts:107-110 | a trailing dot on a book token never changes the lookup |
| BiblicalRefs.RemoveSpacesClean | supabase/functions/_shared/biblical-refs.ts:114 | no whitespace survives the removal |
| BiblicalRefs.CollapseDashesClean | supabase/functions/_shared/biblical-refs.ts:115 | no en/em dash survives the collapse, and no whitespace is introduced |
| BiblicalRefs.NormalizeCvClean | supabase/functions/_shared/biblical-refs.ts:112-116 | a chapter/verse part without whitespace, dashes or trailing dot is left unchanged |
| BiblicalRefs.NormalizeCvSpaceAndDash | supabase/functions/_shared/biblical-refs.ts:112-116 | "a, x—y" becomes "a,x-y": the space goes and the em dash becomes "-" |
| BiblicalRefs.NormalizeCvDotted | supabase/functions/_shared/biblical-refs.ts:112-116 | the same with a trailing dot after the last number, which is dropped |
| BiblicalRefs.LookupCanonical | supabase/functions/_shared/biblical-refs.ts:107-110 | a canonical abbreviation is its own lookup |
| BiblicalRefs.CanonicalBooksCanonical | supabase/functions/_shared/biblical-refs.ts:10-76 | every value of the alias table maps to itself once lower-cased |
| BiblicalRefs.CanonicalUnchanged | supabase/functions/_shared/biblical-refs.ts:83-120 | an already-canonical "Book chapter,verses" is returned unchanged |
| BiblicalRefs.CanonicalBookUnchanged | supabase/functions/_shared/biblical-refs.ts:83-120 | an already-canonical book abbreviation alone is returned unchanged |
| BiblicalRefs.CanonicalNumberedUnchanged | supabase/functions/_shared/biblical-refs.ts:83-120 | an already-canonical numbered reference such as "1Kor 12,1-11" is returned unchanged |
| BiblicalRefs.NormalizeIzSlip | supabase/functions/_shared/biblical-refs.ts:87 | "1z"/"1Z" and whitespace before a chapter/verse part normalises as "Iz" |
| BiblicalRefs.ExampleMatthew | supabase/functions/_shared/biblical-refs.ts:80 | "Mat. 22, 37—46" normalises to "Mt 22,37-46" |
| BiblicalRefs.ExampleKorinthiansArabic | supabase/functions/_shared/biblical-refs.ts:81 | "1 Kor 12,1-11" normalises to "1Kor 12,1-11" |
| BiblicalRefs.ExampleKorinthiansRoman | supabase/functions/_shared/biblical-refs.ts:89-101 | "I. Kor. 12, 1—11" normalises to "1Kor 12,1-11" |
| BiblicalRefs.ExampleIsaiahSlip | supabase/functions/_shared/biblical-refs.ts:86-87 | "1z 40,1-5" normalises to "Iz 40,1-5" |
| BiblicalRefs.ExampleCanonicalTemptation | supabase/functions/_shared/biblical-refs.ts:7 | the canonical "Mt 4,1-11" is a fixed point |
| BiblicalRefs.ExampleNotIdempotent | supabase/functions/_shared/biblical-refs.ts:84 | "Mt 4..." gives "Mt 4.", which gives "Mt 4": normalisation is not idempotent |
| RefHeadings.StripHashes | supabase/functions/_shared/biblical-refs.ts:130 | the heading markup removed is a prefix; a text not starting with '#' is untouched, one starting with '#' gets shorter |
| RefHeadings.StripHashesSpace | supabase/functions/_shared/biblical-refs.ts:130 | "## " before a text that does not start with whitespace is removed whole |
| RefHeadings.StripOrdinalLabel | supabase/functions/_shared/biblical-refs.ts:131 | the ordinal label stripper either leaves the text alone or removes a proper prefix |
| RefHeadings.OrdinalLabelStrips | supabase/functions/_shared/biblical-refs.ts:131 | "První/Druhé/Třetí", whitespace, "čtení", anything up to the first delimiter, the delimiter run and the whitespace are removed |
| RefHeadings.OrdinalLabelAbsent | supabase/functions/_shared/biblical-refs.ts:131 | a text not starting with P, D or T in either case is left unchanged |
| RefHeadings.StripGospelLabel | supabase/functions/_shared/biblical-refs.ts:132 | the gospel label stripper either leaves the text alone or removes a proper prefix |
| RefHeadings.GospelLabelStrips | supabase/functions/_shared/biblical-refs.ts:132 | "Evangelium", anything up to the first delimiter, the delimiter and the whitespace are removed |
| RefHeadings.GospelLabelAbsent | supabase/functions/_shared/biblical-refs.ts:132 | a text not starting with E in either case is left unchanged |
| RefHeadings.HeadingText | supabase/functions/_shared/biblical-refs.ts:129-133 | the remainder of a heading is trimmed |
| RefHeadings.KeptRefs | supabase/functions/_shared/biblical-refs.ts:140-145 | no more references than parts, and every kept reference holds a digit |
| RefHeadings.KeptRefsMembers | supabase/functions/_shared/biblical-refs.ts:140-145 | a string is kept exactly when it is one of the normalised parts and holds a digit |
| RefHeadings.KeptRefsConcat | supabase/functions/_shared/biblical-refs.ts:140-145 | the kept references keep the order of the parts |
| RefHeadings.HeadingRefs | supabase/functions/_shared/biblical-refs.ts:135-146 | every reference holds a digit, and an empty remainder gives no reference |
| RefHeadings.ExtractRefsFromHeading | supabase/functions/_shared/biblical-refs.ts:127-147 | the loop returns exactly `HeadingRefs` of the heading, so each reference holds a digit |
| RefHeadings.KeepNormalizedParts | supabase/functions/_shared/biblical-refs.ts:140-145 | the push loop returns exactly the kept normalised parts, in order |
| RefHeadings.OnePartHeading | supabase/functions/_shared/biblical-refs.ts:135-146 | a remainder without ';' whose reference has a digit gives that one reference |
| RefHeadings.TwoPartHeading | supabase/functions/_shared/biblical-refs.ts:138-146 | a remainder split by one ';' into two kept parts gives their two references in order |
| RefHeadings.ExampleGospelHeading | supabase/functions/_shared/biblical-refs.ts:124 | "## Evangelium – Mt 4,1-11" gives ["Mt 4,1-11"] |
| RefHeadings.ExampleCanonicalGenesis | supabase/functions/_shared/biblical-refs.ts:125 | "Gn 2,7-9" is already canonical |
| RefHeadings.ExampleNoBookInheritance | supabase/functions/_shared/biblical-refs.ts:125-145 | "## První čtení z Písma: Gn 2,7-9; 3,1-7" gives ["Gn 2,7-9", "3,1-7"]: the book is not carried over, whatever the comment says |
| RefHeadings.MatchHeading | supabase/functions/_shared/biblical-refs.ts:157 | a heading match ends after the "## " prefix and within the text |
| RefHeadings.HeadingLine | supabase/functions/_shared/biblical-refs.ts:157-172 | a "## heading" line gives that heading, then the headings of the following lines |
| RefHeadings.PlainLine | supabase/functions/_shared/biblical-refs.ts:157-172 | a line not starting with "##" gives no heading |
| RefHeadings.NoHeadingsInEmpty | supabase/functions/_shared/biblical-refs.ts:157-172 | an empty document has no heading |
| RefHeadings.KindOf | supabase/functions/_shared/biblical-refs.ts:164-167 | a heading is first iff it contains "první", else second iff it contains "druhé", else gospel iff it contains "evangelium" (any case), else unknown |
| RefHeadings.ReadingsOf | supabase/functions/_shared/biblical-refs.ts:162-172 | one reading per heading |
| RefHeadings.ReadingsAt | supabase/functions/_shared/biblical-refs.ts:163-170 | the k-th reading has the type and the references of the k-th heading |
| RefHeadings.ExtractAllRefsFromMarkdown | supabase/functions/_shared/biblical-refs.ts:153-175 | the exec loop returns one reading per heading in document order, and allRefs is their references concatenated |
| RefHeadings.ReadAllMatches | supabase/functions/_shared/biblical-refs.ts:161-172 | the while loop visits every heading match in order and accumulates readings and references |
| RefHeadings.AllRefsMembers | supabase/functions/_shared/biblical-refs.ts:171 | a string is in allRefs exactly when some reading holds it |
| RefHeadings.AllRefsHaveDigits | supabase/functions/_shared/biblical-refs.ts:142-171 | every reference of a document holds a digit |
| RefHeadings.AllRefsConcat | supabase/functions/_shared/biblical-refs.ts:171 | the references of readings split in two are those of both parts, in order |
| PostilRefs.FixLeadingJan | scripts/parse-postily.ts:86 | the text changes exactly on a leading "1an" (any case) not followed by a word character, and then it becomes "Jan" + the rest |
| PostilRefs.DottedKeyAgrees | scripts/parse-postily.ts:24-76 | every dotted key of the older table means the same as the key without the dot |
| PostilRefs.LookupOnce | scripts/parse-postily.ts:106-109 | the second lookup with a dot appended never decides: the result is the table's value for the key, or the token without its dot |
| PostilRefs.LookupIgnoresDot | scripts/parse-postily.ts:106-109 | a trailing dot on a book token never changes the lookup |
| PostilRefs.NormalizeBookForm | scripts/parse-postily.ts:103-118 | "book, optional dot, whitespace, chapter/verse" normalises to the looked-up book, a space and the cleaned chapter/verse part |
| PostilRefs.NormalizeNumbered | scripts/parse-postily.ts:89-100 | a Roman numeral or 1/2 and whitespace before a book gives the mapped digit glued to the normalised rest |
| PostilRefs.ThreeIsNoPrefix | scripts/parse-postily.ts:89 | "3 Kor 1,1" is no numbered reference here: it comes back unchanged |
| PostilRefs.NormalizeWithoutBook | scripts/parse-postily.ts:103-104 | an input starting with neither a book letter nor 1/2 comes back trimmed |
| PostilRefs.NormalizeJanSlip | scripts/parse-postily.ts:85-86 | "1an" (any case) and whitespace before a chapter/verse part gives "J" and that part |
| PostilRefs.NormalizeIzSlip | scripts/parse-postily.ts:85 | "1z" (either case) and whitespace before a chapter/verse part gives "Iz" and that part |
| PostilRefs.ExampleMatthew | scripts/parse-postily.ts:79 | "Mat. 22, 37—46" normalises to "Mt 22,37-46" |
| PostilRefs.ExampleJanSlip | scripts/parse-postily.ts:86 | "1an 3,16" normalises to "J 3,16" |
| PostilRefs.NormalizeNonEmpty | scripts/parse-postily.ts:164-165 | a non-blank input never normalises to "", so the `if (normalized)` test always passes |
| PostilRefs.Unwrap | scripts/parse-postily.ts:131 | the unwrapped citation text is trimmed |
| PostilRefs.UnwrapParens | scripts/parse-postily.ts:131 | one pair of surrounding parentheses is dropped and the inside trimmed |
| PostilRefs.ColonLabel | scripts/parse-postily.ts:134 | a colon-label match ends within the text |
| PostilRefs.NoLabel | scripts/parse-postily.ts:134-145 | a text not starting with a keyword initial has no liturgical label and is left whole |
| PostilRefs.ColonLabelSplit | scripts/parse-postily.ts:134-137 | in a keyword-led text, everything up to the first ':' is the label, trimmed; the colon and the whitespace after it go |
| PostilRefs.SeasonLabel | scripts/parse-postily.ts:140 | a season-label match ends within the text |
| PostilRefs.SaintDayLabel | scripts/parse-postily.ts:139-144 | "Ned. N. po sv. D. — " before a reference is taken as the label by the second pattern |
| PostilRefs.EpistolaLabel | scripts/parse-postily.ts:152 | "Epištola" and the whitespace after it are removed |
| PostilRefs.EpistolaK | scripts/parse-postily.ts:152 | "Epištola k" (either case of k) with its whitespace is removed |
| PostilRefs.EvangeliumLabel | scripts/parse-postily.ts:153 | "Evangelium" and the whitespace after it are removed |
| PostilRefs.Fragments | scripts/parse-postily.ts:156 | the split always yields at least one fragment |
| PostilRefs.FragmentsNoSep | scripts/parse-postily.ts:156 | a text without ')' or ';' is one fragment |
| PostilRefs.FragmentsAtSep | scripts/parse-postily.ts:156 | a separator cuts the text into the fragments on either side, in order |
| PostilRefs.Candidate | scripts/parse-postily.ts:159-166 | a fragment contributes exactly when its cleaned text holds a digit, and then contributes its non-empty normal form |
| PostilRefs.RefsAtSep | scripts/parse-postily.ts:156-167 | the references of a body cut at a separator are those of both sides, in order |
| PostilRefs.RefsOfFragment | scripts/parse-postily.ts:158-167 | a single fragment yields its normal form exactly when its cleaned text holds a digit |
| PostilRefs.RefsMembership | scripts/parse-postily.ts:156-167 | a string is a reference exactly when some fragment yields it; no reference is empty |
| PostilRefs.KeepPresent | scripts/parse-postily.ts:158-167 | the push loop keeps the present candidates, in fragment order |
| PostilRefs.ExtractBiblicalRefs | scripts/parse-postily.ts:129-170 | the method returns exactly the citation `Extract` defines (label and references) |
| PostilRefs.ExtractColonLabel | scripts/parse-postily.ts:129-170 | a parenthesised citation with a keyword-led label before ':' gives that label, trimmed, and the references of the rest |
| PostilRefs.ExampleLentCitation | scripts/parse-postily.ts:125 | "(Ned. I. postní: Mat. 4, 1—11.)" gives label "Ned. I. postní" and references ["Mt 4,1-11"] |
| PostilRefs.ExtractEpistolaK | scripts/parse-postily.ts:126 | a citation opening with "Epištola k" has no label, and its references are those of the rest |
| PostilRefs.ExampleEpistolaCitation | scripts/parse-postily.ts:126 | "(Epištola k Řím. 8, 12—17.)" gives no label and ["Ř 8,12-17"] |
| PostilRefs.ExampleCaseBlindK | scripts/parse-postily.ts:152 | "(Epištola Kol. 3, 12—17.)" gives ["ol 3,12-17"]: the case-blind "k" eats the K of "Kol." |
| PostilRefs.ExtractSaintDay | scripts/parse-postily.ts:129-170 | "(Ned. N. po sv. D. — reference)" gives the Sunday as the label and the references of the rest |
| PostilSegmenter.FindMarkers | scripts/parse-postily.ts:181-186 | the loop collects exactly the marker lines with their year and issue, in line order |
| PostilSegmenter.MarkersExact | scripts/parse-postily.ts:181-186 | the markers are ordered, each is a line the marker pattern matches with its year and issue, and every such line is listed |
| PostilSegmenter.OrderedMonotone | scripts/parse-postily.ts:181-186 | marker lines strictly increase |
| PostilSegmenter.NoMarkerInSegment | scripts/parse-postily.ts:190-192 | no line strictly between a marker and the next one (or the end) is a marker line |
| PostilSegmenter.SourceRefIsMarker | scripts/parse-postily.ts:300 | the source reference of a four-digit year and an issue below 100 is itself a line the marker pattern (line 182) accepts, naming the same year and issue |
| PostilSegmenter.WindowStart | scripts/parse-postily.ts:199 | the backward search looks at no more than the ten lines before the marker |
| PostilSegmenter.RecoverNumber | scripts/parse-postily.ts:197-210 | the backward loop returns the number of the nearest acceptable line in the window |
| PostilSegmenter.NumberInAt | scripts/parse-postily.ts:199-208 | the number is that of the last acceptable line of the window (a 1–3 digit line, with a dot or within 5 of the expected number) |
| PostilSegmenter.NumberInNone | scripts/parse-postily.ts:197-210 | without an acceptable line the number is 0 |
| PostilSegmenter.SkipBlanks | scripts/parse-postily.ts:214 | the cursor passes exactly the blank lines and stops at a non-blank line or the end |
| PostilSegmenter.SkipBlankLines | scripts/parse-postily.ts:214 | the while loop stops where `SkipBlanks` does |
| PostilSegmenter.AfterPreamble | scripts/parse-postily.ts:213-218 | the cursor after the preamble stays within the segment |
| PostilSegmenter.SkipPreamble | scripts/parse-postily.ts:213-218 | the loops over blank lines and the optional "(Upraveno" line stop at `AfterPreamble` |
| PostilSegmenter.TitleScan | scripts/parse-postily.ts:221-234 | the title loop only moves forward and only adds lines |
| PostilSegmenter.ReadTitle | scripts/parse-postily.ts:221-234 | the title loop returns the title lines and the cursor of `TitleScan` |
| PostilSegmenter.TitleSwallows | scripts/parse-postily.ts:222-234 | when no line starts with "(" or opens a quotation, the title loop runs to the end of the segment |
| PostilSegmenter.SwallowedByTitle | scripts/parse-postily.ts:220-287 | such a segment is all title: no citation, no body, no Bible text |
| PostilSegmenter.RefLines | scripts/parse-postily.ts:249-254 | the citation loop only moves forward |
| PostilSegmenter.ReadRefLines | scripts/parse-postily.ts:249-254 | the loop gathers lines until the text holds ")" |
| PostilSegmenter.ReadBlocks | scripts/parse-postily.ts:247-268 | one citation block, and a second one when the next non-blank line opens one |
| PostilSegmenter.RefBlock | scripts/parse-postily.ts:247-273 | the citation phase only moves the cursor forward |
| PostilSegmenter.ReadCitation | scripts/parse-postily.ts:247-273 | the raw citation text and what the extractor makes of it |
| PostilSegmenter.Kept | scripts/parse-postily.ts:279-285 | the content loop keeps at most the lines it visits |
| PostilSegmenter.ReadContent | scripts/parse-postily.ts:279-285 | the content loop keeps exactly the lines of `Kept`, untrimmed and in order |
| PostilSegmenter.KeptAll | scripts/parse-postily.ts:279-285 | without a droppable page number no line is lost |
| PostilSegmenter.KeptEarly | scripts/parse-postily.ts:283 | the first six lines of a body are always kept |
| PostilSegmenter.KeptDrops | scripts/parse-postily.ts:283-284 | a standalone page number more than five lines in is dropped; the other lines are kept in order |
| PostilSegmenter.QuoteEnd | scripts/parse-postily.ts:294 | an end found lies at or after the start and within the text, with a break one or two characters long |
| PostilSegmenter.QuoteSplit | scripts/parse-postily.ts:290-298 | a Bible text is split off only from content that opens with a quotation mark and has at least two characters |
| PostilSegmenter.QuoteParagraph | scripts/parse-postily.ts:294-298 | a quoted paragraph closed by a blank line is the Bible text, and the rest is the commentary |
| PostilSegmenter.QuoteEndSkips | scripts/parse-postily.ts:294 | the search for the end of the quotation passes over characters that are not line breaks |
| PostilSegmenter.Walk | scripts/parse-postily.ts:213-298 | the cursor walk over a segment gives `PartsFrom` of its lines |
| PostilSegmenter.ReadParts | scripts/parse-postily.ts:213-298 | the walk over the lines following a marker |
| PostilSegmenter.SegmentEnd | scripts/parse-postily.ts:192 | a segment ends after its marker, at the next marker or the end of the text |
| PostilSegmenter.Build | scripts/parse-postily.ts:302-313 | year, issue and source reference come from the marker; number, title, references and content from the phases |
| PostilSegmenter.ReadPostil | scripts/parse-postily.ts:190-313 | the record of the k-th marker, numbered from the lines before it |
| PostilSegmenter.Records | scripts/parse-postily.ts:190-314 | one record per marker considered |
| PostilSegmenter.Segment | scripts/parse-postily.ts:188-314 | the first pass yields exactly one record per marker |
| PostilSegmenter.RecordsAt | scripts/parse-postily.ts:190-314 | the k-th record is the one built for marker k |
| PostilSegmenter.SegmentPostils | scripts/parse-postily.ts:188-314 | the first pass's loops produce exactly `Segment` of the lines |
| PostilSegmenter.SegmentRecords | scripts/parse-postily.ts:181-314 | one record per marker line in marker order, built from that marker's year and issue, its number and the lines of its segment only |
| PostilNumbers.Numbers | scripts/parse-postily.ts:317-318 | the numbers of the records, in order, one per record |
| PostilNumbers.LastKnown | scripts/parse-postily.ts:321-324 | the nearest index at or before j with a positive number, or -1 when there is none |
| PostilNumbers.FirstKnown | scripts/parse-postily.ts:325-329 | the nearest index at or after j with a positive number, or the length when there is none |
| PostilNumbers.PrevNumber | scripts/parse-postily.ts:321-324 | the backward loop finds the nearest known number before i, or 0 |
| PostilNumbers.NextNumber | scripts/parse-postily.ts:325-329 | the forward loop finds the nearest known number after i, or 0 |
| PostilNumbers.GapBack | scripts/parse-postily.ts:334-338 | the gap is the distance back to the previous known number |
| PostilNumbers.GapForward | scripts/parse-postily.ts:342-346 | the gap is the distance forward to the next known number |
| PostilNumbers.InterpolateAt | scripts/parse-postily.ts:317-348 | one iteration changes only record i's number, and only when it is 0 |
| PostilNumbers.Interpolate | scripts/parse-postily.ts:316-349 | the in-place pass over the array changes only the numbers, and they become `Interpolated` of the old numbers |
| PostilNumbers.InterpolatedMatches | scripts/parse-postily.ts:316-349 | the pass keeps the record count, and every number ends in closed form although the pass reads numbers it has just written |
| PostilNumbers.KnownKept | scripts/parse-postily.ts:318 | a known number is never changed |
| PostilNumbers.FilledFromPrevious | scripts/parse-postily.ts:332-339 | a missing number after a known one is that number plus the distance to it |
| PostilNumbers.FilledFromNext | scripts/parse-postily.ts:340-347 | a missing number before the first known one counts back from it |
| PostilNumbers.AllMissingStays | scripts/parse-postily.ts:317-349 | with no known number at all, nothing is filled in |
| PostilNumbers.ExampleGap | scripts/parse-postily.ts:316-349 | 1, 0, 0, 4, 5 becomes 1, 2, 3, 4, 5 |
| PostilNumbers.ExampleCountBack | scripts/parse-postily.ts:340-347 | 0, 0, 0, 2 becomes -1, 0, 1, 2 |
| PostilNumbers.SegmentNumbersNonNegative | scripts/parse-postily.ts:197-210 | the first pass never recovers a negative number |
| PostilNumbers.ParsedNumbers | scripts/parse-postily.ts:316-351 | the final numbers in closed form over the numbers the first pass recovered |
| PostilNumbers.ParsePostily | scripts/parse-postily.ts:174-352 | one record per marker; every field but the number is the first pass's, and the numbers are the interpolation of its numbers |
| PostilMatcher.Query | supabase/functions/_shared/postily.ts:35-39 | the query returns no more rows than the table holds |
| PostilMatcher.QueryMembers | supabase/functions/_shared/postily.ts:35-39 | a row is returned exactly when some active stored row with it shares a reference with allRefs |
| PostilMatcher.QueryConcat | supabase/functions/_shared/postily.ts:35-39 | the query keeps the table order |
| PostilMatcher.QueryDrops | supabase/functions/_shared/postily.ts:38-39 | an inactive row, or one citing no reading reference, is never returned |
| PostilMatcher.Find | supabase/functions/_shared/postily.ts:55 | what `find` gives is a reference the row cites and one of allRefs |
| PostilMatcher.FindFirst | supabase/functions/_shared/postily.ts:55 | `find` gives the reference at the first index of the row's list that is in allRefs |
| PostilMatcher.FindNone | supabase/functions/_shared/postily.ts:55 | `find` gives nothing exactly when the row shares no reference with allRefs |
| PostilMatcher.MatchedRef | supabase/functions/_shared/postily.ts:55 | the matched reference is always one of allRefs |
| PostilMatcher.FirstMatchedRef | supabase/functions/_shared/postily.ts:55 | when "" is not a reading reference, the matched reference is the first found one |
| PostilMatcher.FallbackMatchedRef | supabase/functions/_shared/postily.ts:55 | a row citing no reading reference falls back to allRefs[0] |
| PostilMatcher.MatchedRefCited | supabase/functions/_shared/postily.ts:55 | for a row that cites a reading reference, the matched one is the first it cites that is in allRefs |
| PostilMatcher.Annotate | supabase/functions/_shared/postily.ts:54-57 | one match per returned row |
| PostilMatcher.AnnotateAt | supabase/functions/_shared/postily.ts:54-57 | the k-th match is the k-th row, unchanged, with its matched reference |
| PostilMatcher.Matches | supabase/functions/_shared/postily.ts:25-57 | no reference and a query error both give no match |
| PostilMatcher.ErrorLooksEmpty | supabase/functions/_shared/postily.ts:41-49 | a query error answers exactly as an empty result does |
| PostilMatcher.MatchesRows | supabase/functions/_shared/postily.ts:46-57 | one match per returned row, in order, with every column copied |
| PostilMatcher.MatchSound | supabase/functions/_shared/postily.ts:35-57 | every match is an active stored row sharing a reference with allRefs, and its matched reference is one of allRefs |
| PostilMatcher.MatchComplete | supabase/functions/_shared/postily.ts:35-57 | every active stored row sharing a reference with allRefs is matched when the query succeeds |
| PostilMatcher.MarkdownMatchedRef | supabase/functions/_shared/postily.ts:25-57 | for the references of a markdown document, every match's reference is the first one the row cites that is a reading reference |
| PostilMatcher.FindMatchingPostily | supabase/functions/_shared/postily.ts:21-58 | extracting the references, querying and annotating give exactly `Matches` of the markdown's references |
| Corpus.Cutoff | supabase/functions/_shared/corpus.ts:14-17 | the last '.', '?' or '!' of the text, or -1 when there is none |
| Corpus.TruncateToSentence | supabase/functions/_shared/corpus.ts:11-19 | a text that fits comes back unchanged, and the result is never longer than maxLen + 1 |
| Corpus.TruncateCut | supabase/functions/_shared/corpus.ts:13-18 | a longer text is cut just after its last sentence end within maxLen when that lies past the middle, else cut at maxLen with "…" appended |
| Corpus.Remaining | supabase/functions/_shared/corpus.ts:77 | the truncation length is at least 2000 and at least what is left of the 15000 budget |
| Corpus.Body | supabase/functions/_shared/corpus.ts:66-79 | a primary document in full, else the summary when present, else the content truncated to the remaining budget |
| Corpus.Count | supabase/functions/_shared/corpus.ts:85-88 | the loop stops within the document list |
| Corpus.Sections | supabase/functions/_shared/corpus.ts:60-89 | the k-th section is the k-th document's |
| Corpus.RenderSection | supabase/functions/_shared/corpus.ts:64-81 | one pass of the loop body renders `Section` of the document at the running total |
| Corpus.BuildSections | supabase/functions/_shared/corpus.ts:60-89 | the budget loop produces exactly `Sections` of the documents |
| Corpus.BuildTheologicalContext | supabase/functions/_shared/corpus.ts:38-93 | a query error and an empty list are errors; otherwise the sections joined by a blank line |
| Corpus.CountUnder | supabase/functions/_shared/corpus.ts:85-88 | every section after the first starts under the budget |
| Corpus.CountReached | supabase/functions/_shared/corpus.ts:85-88 | the loop stops early only once the budget is reached |
| Corpus.BudgetStops | supabase/functions/_shared/corpus.ts:60-89 | at least one section, sections of a prefix of the documents in order, each later one started under 15000 characters, and an early stop only at ≥ 15000 |
| Corpus.PrimaryInFull | supabase/functions/_shared/corpus.ts:69-71 | a primary document's section always ends with its full content |
| Corpus.SectionLayout | supabase/functions/_shared/corpus.ts:64-81 | separator, header, separator and body on their own lines, the separator being '=' repeated to the header's length |
| Corpus.BuildContextPrompt | supabase/functions/_shared/corpus.ts:99-100 | the prompt begins with the given context |
| CorpusImport.CollapseBlankLines | supabase/functions/import-corpus/index.ts:48 | the result has no three consecutive line feeds, and an empty or non-line-feed start is kept |
| CorpusImport.CollapseKeepsText | supabase/functions/import-corpus/index.ts:48 | the collapse keeps every other character in order |
| CorpusImport.CollapseClean | supabase/functions/import-corpus/index.ts:48 | a text without triple line feeds is left as it is |
| CorpusImport.StepLine | supabase/functions/import-corpus/index.ts:23-44 | the loop body decides keep and skip mode as `Step` does |
| CorpusImport.CleanLines | supabase/functions/import-corpus/index.ts:19-45 | the filter loop keeps exactly `KeptLines` of the input, starting outside skip mode |
| CorpusImport.CleanContent | supabase/functions/import-corpus/index.ts:18-49 | the whole cleaner is split, filter, join, collapse, trim |
| CorpusImport.KeptLinesRules | supabase/functions/import-corpus/index.ts:25-42 | a kept line is an input line, no page header, no image header, no page number and without a document link |
| CorpusImport.KeptLinesConcat | supabase/functions/import-corpus/index.ts:23-45 | kept lines keep the input order |
| CorpusImport.PlainLineKept | supabase/functions/import-corpus/index.ts:23-44 | an ordinary text line outside an image section is kept and leaves the mode off |
| CorpusImport.ImageHeaderStep | supabase/functions/import-corpus/index.ts:27-30 | an image header is dropped and starts skip mode |
| CorpusImport.ImageUrlStep | supabase/functions/import-corpus/index.ts:32-36 | in skip mode an image line is dropped and the mode stays on |
| CorpusImport.SkipEnds | supabase/functions/import-corpus/index.ts:32-38 | in skip mode any other non-blank line ends the mode and faces the remaining rules |
| CorpusImport.UrlsDropped | supabase/functions/import-corpus/index.ts:32-36 | a run of image lines in skip mode is dropped |
| CorpusImport.ImageSectionDropped | supabase/functions/import-corpus/index.ts:27-36 | header, image lines and the closing blank line are all dropped, and the mode is off afterwards |
| CorpusImport.CleanedShape | supabase/functions/import-corpus/index.ts:47-48 | the cleaned text is trimmed and has no three consecutive line feeds |
| CorpusImport.OrElse | supabase/functions/import-corpus/index.ts:87-91 | `field || fallback`: a present non-empty field, else the fallback |
| CorpusImport.Status | supabase/functions/import-corpus/index.ts:63-129 | 400 exactly for a rejected request, 500 exactly for an accepted one the database fails, 200 exactly for an accepted one it does not |
| CorpusImport.UnknownActionRejected | supabase/functions/import-corpus/index.ts:119-122 | an action other than delete_all, insert and list is rejected with the message naming them |
| CorpusImport.InsertRejected | supabase/functions/import-corpus/index.ts:77-82 | an insert is rejected exactly when title or content is missing or empty |
| CorpusImport.InsertDefaults | supabase/functions/import-corpus/index.ts:84-92 | an accepted insert is active, cleaned only when asked, with profile "ccsh", category "věrouka" and sort order 1 when those are missing (a sort order of 0 also becomes 1) |
| WarmCache.NumberedSundayAt | supabase/functions/warm-cache/index.ts:16 | a numbered-Sunday match ends past the word and within the text |
| WarmCache.NumberedTitle | supabase/functions/warm-cache/index.ts:16-17 | the title is the leftmost numbered-Sunday match, trimmed |
| WarmCache.WordTitle | supabase/functions/warm-cache/index.ts:16-17 | without such a match, the title runs from the leftmost "neděle" in any case to the end of its line, trimmed |
| WarmCache.NoWordNoTitle | supabase/functions/warm-cache/index.ts:16-17 | without "neděle" the title is "" |
| WarmCache.BodyEnd | supabase/functions/warm-cache/index.ts:22 | the lazy body stops at the first "\n####", "\n##" plus whitespace, or the end |
| WarmCache.SectionMatchAt | supabase/functions/warm-cache/index.ts:22 | the pieces of a section match are in order within the text |
| WarmCache.SectionMatchShape | supabase/functions/warm-cache/index.ts:22 | a match is "####", whitespace, a heading line containing the keyword in any case, line feeds, and a body up to the first stop |
| WarmCache.SectionText | supabase/functions/warm-cache/index.ts:25 | a section text starts with "## " |
| WarmCache.ExtractSection | supabase/functions/warm-cache/index.ts:21-28 | a found section starts with "## " |
| WarmCache.SectionFound | supabase/functions/warm-cache/index.ts:22-25 | the section is the text of the leftmost match |
| WarmCache.SectionAbsent | supabase/functions/warm-cache/index.ts:22-27 | there is no section exactly when no position matches |
| WarmCache.SectionList | supabase/functions/warm-cache/index.ts:30-35 | at most three sections |
| WarmCache.NoSectionsNoReadings | supabase/functions/warm-cache/index.ts:19-39 | no sections means empty readings |
| WarmCache.AllSectionsInOrder | supabase/functions/warm-cache/index.ts:30-39 | with all three present: first reading, second reading, gospel, separated by "\n\n---\n\n" |
| WarmCache.ExtractReadings | supabase/functions/warm-cache/index.ts:15-41 | the method returns `SundayTitle` and the sections of `SectionList` joined by the separator |
| WarmCache.WarmReadings | supabase/functions/warm-cache/index.ts:73-141 | the reassignments through the branches give exactly the outcome `Warm` defines |
| WarmCache.FreshCacheUsed | supabase/functions/warm-cache/index.ts:85-91 | a fresh row is used and nothing is written back; its title wins when it has one |
| WarmCache.ScrapeUsed | supabase/functions/warm-cache/index.ts:92-141 | a successful scrape with markdown is used when the cache is not fresh, titled from the page, and saved |
| WarmCache.StaleCacheUsed | supabase/functions/warm-cache/index.ts:103-119 | without a key or after a failed scrape, a stale row is used |
| WarmCache.NothingAborts | supabase/functions/warm-cache/index.ts:121-127 | with no row and no usable scrape the run aborts |
| WarmCache.EmptyScrapeAborts | supabase/functions/warm-cache/index.ts:111-127 | a scrape that succeeds without markdown aborts even when a stale row exists |
| WarmCache.StaleRowResaved | supabase/functions/warm-cache/index.ts:103-141 | after a failed scrape the stale row is written back as if fresh |
| WarmCache.ReadingsFallback | supabase/functions/warm-cache/index.ts:129-131 | readings fall back to the raw markdown when no section is found |
| FirecrawlScrape.Admit | supabase/functions/firecrawl-scrape/index.ts:13-22 | a new address or an ended window starts count 1 until now + 60000 and is allowed; otherwise the count grows, even past the limit, and the request is allowed iff the count ≤ 10; other addresses are untouched |
| FirecrawlScrape.RateLimiter.constructor | supabase/functions/firecrawl-scrape/index.ts:9 | the limiter starts with no entries |
| FirecrawlScrape.RateLimiter.CheckRateLimit | supabase/functions/firecrawl-scrape/index.ts:13-22 | the map field and the answer are those of the admission rule |
| FirecrawlScrape.WithinWindow | supabase/functions/firecrawl-scrape/index.ts:13-22 | within a window the count grows by one per request and the allowed ones are bounded by what is left of 10 |
| FirecrawlScrape.AtMostTenPerWindow | supabase/functions/firecrawl-scrape/index.ts:10-22 | a request that opens a window, and any before it ends, allow at most 10 |
| FirecrawlScrape.OthersUntouched | supabase/functions/firecrawl-scrape/index.ts:13-22 | requests from one address leave every other entry as it was |
| FirecrawlScrape.ClientIp | supabase/functions/firecrawl-scrape/index.ts:24-27 | never empty; without a usable forwarded address, cf-connecting-ip, else "unknown" |
| FirecrawlScrape.ForwardedFirst | supabase/functions/firecrawl-scrape/index.ts:25 | the forwarded list is read up to its first comma, trimmed |
| FirecrawlScrape.ForwardedOnly | supabase/functions/firecrawl-scrape/index.ts:25 | a forwarded list without commas is one address |
| FirecrawlScrape.HostName | supabase/functions/firecrawl-scrape/index.ts:66-68 | a parsed host name is never empty |
| FirecrawlScrape.UrlGate | supabase/functions/firecrawl-scrape/index.ts:46-79 | every rejection is a 400; a trimmed URL over 500 characters is too long; an accepted URL has a scheme and an allowed host |
| FirecrawlScrape.CheckUrl | supabase/functions/firecrawl-scrape/index.ts:46-79 | the reassignments of `formattedUrl` give exactly `UrlGate` |
| FirecrawlScrape.BlankUrlInvalid | supabase/functions/firecrawl-scrape/index.ts:46-79 | a URL of only whitespace passes the missing-URL test and is then invalid |
| FirecrawlScrape.BareSchemeInvalid | supabase/functions/firecrawl-scrape/index.ts:61-67 | "https://" alone has no host |
| FirecrawlScrape.BareHostAccepted | supabase/functions/firecrawl-scrape/index.ts:54-73 | an allowed bare host with an optional path is accepted with "https://" in front |
| FirecrawlScrape.Respond | supabase/functions/firecrawl-scrape/index.ts:86-179 | a scrape answers only with a key, a successful scrape and no fresh row, and saves its markdown under the URL; a cache answer returns the row's markdown |
| FirecrawlScrape.CacheHitIffFresh | supabase/functions/firecrawl-scrape/index.ts:95-105 | with a key and a successful scrape, the cache answers exactly when its row is under six hours old |
| FirecrawlScrape.StaleFallback | supabase/functions/firecrawl-scrape/index.ts:110-151 | without a key or after a failed scrape a stale row is returned |
| FirecrawlScrape.NoRowErrors | supabase/functions/firecrawl-scrape/index.ts:119-155 | without a row, a missing key is a 500 and a failed scrape a 502 |
| FirecrawlScrape.TitleFallsBackToUrl | supabase/functions/firecrawl-scrape/index.ts:163-164 | a page without "neděle" in any case is saved under its URL |
| FirecrawlScrape.TitleFromPage | supabase/functions/firecrawl-scrape/index.ts:163-164 | a page with "neděle" is saved under the title the cache warmer extracts |
| FirecrawlScrape.Serve | supabase/functions/firecrawl-scrape/index.ts:29-179 | the address is counted first, a refused one gets 429, then the URL gate, then the cache or the scrape answers |
| TextToSpeech.CleanText | supabase/functions/text-to-speech/index.ts:34-40 | the cleaned text has no '#' or '*' and is trimmed |
| TextToSpeech.Handle | supabase/functions/text-to-speech/index.ts:15-40 | a missing key is a 500 before any check; then a missing, empty or over-5000 text is a 400; otherwise the cleaned text is spoken |
| TextToSpeech.PauseReplaced | supabase/functions/text-to-speech/index.ts:35 | "[pauza]" becomes "..." |
| TextToSpeech.LongPauseReplaced | supabase/functions/text-to-speech/index.ts:35-36 | "[dlouhá pauza]" becomes "....." and is not touched by the "[pauza]" pass |
| TextToSpeech.SlowRemoved | supabase/functions/text-to-speech/index.ts:37 | "[pomalu]" is deleted |
| TextToSpeech.NormalRemoved | supabase/functions/text-to-speech/index.ts:38 | "[normálně]" is deleted |
| TextToSpeech.PlainTextUnchanged | supabase/functions/text-to-speech/index.ts:34-40 | a text without markers, '#', '*' or surrounding whitespace is sent unchanged |
| TextToSpeech.SplitMarkerSurvives | supabase/functions/text-to-speech/index.ts:34-40 | "[pom#alu]" becomes "[pomalu]": markers are removed before '#' and '*' |
| TextToSpeech.OnlyMarkupSentEmpty | supabase/functions/text-to-speech/index.ts:26-40 | a text of only "#*" passes the guard and is spoken as "" |
| ReadingContext.CitationLine | src/components/ReadingContext.tsx:173 | a citation line is never empty |
| ReadingContext.CharactersSentence | src/components/ReadingContext.tsx:160 | the characters sentence ends with a full stop |
| ReadingContext.ContextParts | src/components/ReadingContext.tsx:158-163 | at most three parts, none empty |
| ReadingContext.BuildLegacyContext | src/components/ReadingContext.tsx:157-165 | the pushes produce exactly `LegacyContext` |
| ReadingContext.LegacyContextEmpty | src/components/ReadingContext.tsx:157-165 | the context is empty exactly when characters, history and message are all absent |
| ReadingContext.LegacyContextLayout | src/components/ReadingContext.tsx:157-165 | with all three, the characters sentence, the history and the message joined by spaces |
| ReadingContext.BuildLegacyDelivery | src/components/ReadingContext.tsx:168-177 | the tone push and the citation loop produce exactly `LegacyDelivery` |
| ReadingContext.CitationsKept | src/components/ReadingContext.tsx:171-175 | every citation gives one part, in order, after the tone |
| ReadingContext.LegacyDeliveryEmpty | src/components/ReadingContext.tsx:168-177 | the delivery is empty exactly when there is neither tone nor citation |
| ReadingContext.ContextPrecedence | src/components/ReadingContext.tsx:79 | a non-empty context wins; otherwise the legacy context; the shown text is empty exactly when all are absent |
| ReadingContext.DeliveryPrecedence | src/components/ReadingContext.tsx:80 | the same rule for the delivery |
| LocalCache.LoadContextFrom | src/test/cache.test.ts:10-18 | a load answers only from a parsed context slot saved for the same Sunday, and answers that slot's readings |
| LocalCache.LoadAnnotateFrom | src/test/cache.test.ts:24-32 | a load answers only from a parsed annotate slot saved for the same Sunday, with a non-empty text |
| LocalCache.Storage.constructor | src/test/cache.test.ts:35 | the store starts empty |
| LocalCache.Storage.Clear | src/test/cache.test.ts:35 | the store is emptied |
| LocalCache.Storage.SaveContext | src/test/cache.test.ts:6-8 | the context slot is overwritten, nothing else changes |
| LocalCache.Storage.LoadContext | src/test/cache.test.ts:10-18 | the load answers `LoadContextFrom` of the stored items |
| LocalCache.Storage.SaveAnnotate | src/test/cache.test.ts:20-22 | the annotate slot is overwritten, nothing else changes |
| LocalCache.Storage.LoadAnnotate | src/test/cache.test.ts:24-32 | the load answers `LoadAnnotateFrom` of the stored items |
| LocalCache.EmptyStoreLoadsNothing | src/test/cache.test.ts:37-58 | an empty store loads nothing |
| LocalCache.ContextRoundTrip | src/test/cache.test.ts:41-45 | a save then a load for the same Sunday gives back exactly the readings |
| LocalCache.AnnotateRoundTrip | src/test/cache.test.ts:60-63 | a save then a load for the same Sunday gives back a non-empty annotated text |
| LocalCache.EmptyAnnotatedLoadsNothing | src/test/cache.test.ts:29 | an empty annotated text is saved but loads as nothing |
| LocalCache.EmptyReadingsLoad | src/test/cache.test.ts:15 | an empty readings list, being truthy, loads as itself |
| LocalCache.OneSlot | src/test/cache.test.ts:47-68 | after a save for one Sunday, a load for another gives nothing |
| LocalCache.CachesIndependent | src/test/cache.test.ts:3-4 | a save to one cache leaves loads from the other as they were |
| LocalCache.UnparseableLoadsNothing | src/test/cache.test.ts:11-31 | an unparseable slot loads as nothing |
| LocalCache.ContextScenario | src/test/cache.test.ts:34-51 | the context tests' sequence on a fresh store: nothing, then the readings, then nothing for another Sunday |
| LocalCache.AnnotateScenario | src/test/cache.test.ts:53-69 | the annotate tests' sequence: nothing, then the text, then nothing for another Sunday |

## Left out

- **Not modelled at all**:
  - the HTTP handlers' plumbing: `serve`, CORS, the OPTIONS answer and JSON bodies;
  - the calls to the scraping service, the AI gateway and the voice service;
  - base64 audio encoding;
  - SHA-256 hashing;
  - `Promise.all`;
  - the prompt constants beyond their position in `buildContextPrompt`.

  These are foreign services or fixed text with no logic to check.
- **Database queries become inputs.** A query's answer is a parameter:
  - the cache row, the documents and the query error;
  - the corpus query is assumed to return the rows already in ascending sort order;
  - the import function's insert, delete and list answers are reduced to an error flag.

  The postil overlap query is a filter over an abstract table.
- **Clocks and environment become parameters**: `Date.now()`, the parsed `scraped_at` and the presence of API keys. Reading the transcript file and the command-line runner are left out; the parser takes its lines.
- **JSON is abstract.** The local storage holds either a parsed record or an unparseable value, and the timestamp it writes is not read back.
- **Text lengths count code points.** The source counts UTF-16 code units, so lengths differ only for characters outside the Basic Multilingual Plane. This affects the 500- and 5000-character limits, the corpus budget and `truncateToSentence`.
- **Case-insensitive matching is limited.** `/i` and `toLowerCase`/`toUpperCase` cover ASCII and the Czech letters with diacritics, which are all the letters the patterns name. Other letters are left as they are.
- FirecrawlScrape.HostName: a simplified WHATWG URL parser for `http`/`https`. The host is what precedes the first `/`, `?`, `#` or backslash, after the last `@` and before a `:port`, in ASCII lower case. Only an empty host or a bad port makes it fail, and there is no IDNA, percent-decoding or IPv6 handling.
- BiblicalRefs.LookupBook: `BOOK_ALIASES` is a plain object, so the lower-cased book token "constructor" hits `Object.prototype` and the source renders the `Object` function's text as the book (`"Constructor 3"` gives `"function Object() { [native code] } 3"`). The model's table holds only the listed keys and returns `"Constructor 3"`; the same difference reaches `BiblicalRefs.Normalize`, `RefHeadings.ExtractRefsFromHeading` and `RefHeadings.ExtractAllRefsFromMarkdown`. It is the only such key, since every other property of `Object.prototype` has an upper-case letter or an underscore, while the token is letters only and lower-cased first.
- PostilRefs.OldAlias: looking up a key such as "constructor" in the JavaScript object would hit `Object.prototype`. The model's table holds only the listed keys.
- RefHeadings.ExtractRefsFromHeading: `split(/;\s*/)` is modelled as a split on ';'. The two are equivalent because every part is trimmed before use.
- PostilRefs.Fragments: `split(/\)\s*\(?|;\s*/)` is modelled as a split on ')' and ';'. The two are equivalent because every fragment has its parentheses removed and is trimmed afterwards.
- PostilNumbers.Interpolate: the `nextIdx` variable of the pass is written but never read, and is not modelled.
