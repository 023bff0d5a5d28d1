/**
 * The reading guide's fallback texts: entries cached before the guide's
 * fields were consolidated carry the older fields (characters, historical
 * context, main message, tone, citations), from which the context and
 * delivery paragraphs are rebuilt when the newer fields are empty.
 */
module ReadingContext {
  import opened Text

  datatype Character = Character(name: string, description: string)

  datatype Citation = Citation(questionNumber: string, text: string, relevance: string)

  /** A reading's guide entry; every field after `intro` may be absent. */
  datatype Entry = Entry(
    title: string,
    intro: string,
    context: Option<string>,
    delivery: Option<string>,
    characters: Option<seq<Character>>,
    historicalContext: Option<string>,
    mainMessage: Option<string>,
    tone: Option<string>,
    citations: Option<seq<Citation>>)

  /** A field that is present and not the empty string. */
  predicate Truthy(o: Option<string>) {
    o.Some? && o.value != []
  }

  predicate HasCharacters(r: Entry) {
    r.characters.Some? && |r.characters.value| > 0
  }

  predicate HasCitations(r: Entry) {
    r.citations.Some? && |r.citations.value| > 0
  }

  /** `name – description`. */
  function CharacterItem(c: Character): string {
    c.name + " – " + c.description
  }

  /** `question_number: text – relevance`. */
  function CitationLine(c: Citation): (s: string)
    ensures s != []
  {
    c.questionNumber + ": " + c.text + " – " + c.relevance
  }

  /** The characters sentence: the items joined by `; `, then a full stop. */
  function CharactersSentence(cs: seq<Character>): (s: string)
    ensures s != [] && s[|s| - 1] == '.'
  {
    Join(MapSeq(cs, CharacterItem), "; ") + "."
  }

  // ---------------------------------------------------------------------------
  // Context
  // ---------------------------------------------------------------------------

  /** A text field as a part: none when it is absent or empty. */
  function TextPart(o: Option<string>): (ps: seq<string>)
    ensures |ps| <= 1 && forall i :: 0 <= i < |ps| ==> ps[i] != []
  {
    if Truthy(o) then [o.value] else []
  }

  /** The characters sentence as a part: none without characters. */
  function CharacterPart(r: Entry): (ps: seq<string>)
    ensures |ps| <= 1 && forall i :: 0 <= i < |ps| ==> ps[i] != []
  {
    if HasCharacters(r) then [CharactersSentence(r.characters.value)] else []
  }

  /** The parts `buildLegacyContext` pushes, in order. */
  function ContextParts(r: Entry): (ps: seq<string>)
    ensures |ps| <= 3 && forall i :: 0 <= i < |ps| ==> ps[i] != []
  {
    CharacterPart(r) + TextPart(r.historicalContext) + TextPart(r.mainMessage)
  }

  /** The context rebuilt from the older fields. */
  function LegacyContext(r: Entry): string {
    Join(ContextParts(r), " ")
  }

  /** `buildLegacyContext`, pushing onto `parts`. */
  method BuildLegacyContext(r: Entry) returns (s: string)
    ensures s == LegacyContext(r)
  {
    var parts: seq<string> := [];
    if r.characters.Some? && |r.characters.value| > 0 {
      parts := parts + [CharactersSentence(r.characters.value)];
    }
    assert parts == CharacterPart(r);
    if r.historicalContext.Some? && r.historicalContext.value != [] {
      parts := parts + [r.historicalContext.value];
    }
    assert parts == CharacterPart(r) + TextPart(r.historicalContext);
    if r.mainMessage.Some? && r.mainMessage.value != [] {
      parts := parts + [r.mainMessage.value];
    }
    assert parts == CharacterPart(r) + TextPart(r.historicalContext) + TextPart(r.mainMessage);
    s := Join(parts, " ");
  }

  /** The rebuilt context is empty exactly when none of its three fields is there. */
  lemma LegacyContextEmpty(r: Entry)
    ensures LegacyContext(r) == [] <==> !HasCharacters(r) && !Truthy(r.historicalContext) && !Truthy(r.mainMessage)
  {
    var ps := ContextParts(r);
    if ps != [] {
      JoinNonEmpty(ps, " ");
    }
  }

  /** With all three fields there, the characters come first, then the history, then the message. */
  lemma LegacyContextLayout(r: Entry)
    requires HasCharacters(r) && Truthy(r.historicalContext) && Truthy(r.mainMessage)
    ensures LegacyContext(r)
      == CharactersSentence(r.characters.value) + " " + (r.historicalContext.value + " " + r.mainMessage.value)
  {
    var a, b, c := CharactersSentence(r.characters.value), r.historicalContext.value, r.mainMessage.value;
    assert ContextParts(r) == [a, b, c];
    JoinThree(a, b, c, " ");
  }

  // ---------------------------------------------------------------------------
  // Delivery
  // ---------------------------------------------------------------------------

  /** The parts `buildLegacyDelivery` pushes: the tone, then one line per citation. */
  function DeliveryParts(r: Entry): seq<string> {
    (if Truthy(r.tone) then [r.tone.value] else [])
      + (if HasCitations(r) then MapSeq(r.citations.value, CitationLine) else [])
  }

  /** The delivery rebuilt from the older fields. */
  function LegacyDelivery(r: Entry): string {
    Join(DeliveryParts(r), "\n\n")
  }

  /** `buildLegacyDelivery`, pushing the tone and then each citation in a loop. */
  method BuildLegacyDelivery(r: Entry) returns (s: string)
    ensures s == LegacyDelivery(r)
  {
    var parts: seq<string> := [];
    if r.tone.Some? && r.tone.value != [] {
      parts := parts + [r.tone.value];
    }
    ghost var toneParts := parts;
    if r.citations.Some? && |r.citations.value| > 0 {
      var cs := r.citations.value;
      for i := 0 to |cs|
        invariant parts == toneParts + MapSeq(cs[..i], CitationLine)
      {
        MapSnoc(cs[..i], cs[i], CitationLine);
        assert cs[..i + 1] == cs[..i] + [cs[i]];
        parts := parts + [CitationLine(cs[i])];
      }
      assert cs[..|cs|] == cs;
    }
    s := Join(parts, "\n\n");
  }

  /** Every citation gives one part, in the original order, after the tone. */
  lemma CitationsKept(r: Entry, i: nat)
    requires HasCitations(r) && i < |r.citations.value|
    ensures var t := if Truthy(r.tone) then 1 else 0;
      |DeliveryParts(r)| == t + |r.citations.value|
      && DeliveryParts(r)[t + i] == CitationLine(r.citations.value[i])
  {
    MapAt(r.citations.value, CitationLine, i);
  }

  /** The rebuilt delivery is empty exactly when there is neither a tone nor a citation. */
  lemma LegacyDeliveryEmpty(r: Entry)
    ensures LegacyDelivery(r) == [] <==> !Truthy(r.tone) && !HasCitations(r)
  {
    var ps := DeliveryParts(r);
    if Truthy(r.tone) {
      JoinNonEmpty(ps, "\n\n");
    } else if HasCitations(r) {
      MapAt(r.citations.value, CitationLine, 0);
      JoinNonEmpty(ps, "\n\n");
    }
  }

  // ---------------------------------------------------------------------------
  // Precedence
  // ---------------------------------------------------------------------------

  /** `reading.context || buildLegacyContext(reading)`. */
  function ContextText(r: Entry): string {
    if Truthy(r.context) then r.context.value else LegacyContext(r)
  }

  /** `reading.delivery || buildLegacyDelivery(reading)`. */
  function DeliveryText(r: Entry): string {
    if Truthy(r.delivery) then r.delivery.value else LegacyDelivery(r)
  }

  /**
   * A non-empty context wins over the older fields, which are used only
   * when it is absent or empty; the shown context is empty exactly when
   * all of them are.
   */
  lemma ContextPrecedence(r: Entry)
    ensures Truthy(r.context) ==> ContextText(r) == r.context.value
    ensures !Truthy(r.context) ==> ContextText(r) == LegacyContext(r)
    ensures ContextText(r) == []
      <==> !Truthy(r.context) && !HasCharacters(r) && !Truthy(r.historicalContext) && !Truthy(r.mainMessage)
  {
    LegacyContextEmpty(r);
  }

  /** The same rule for the delivery paragraph. */
  lemma DeliveryPrecedence(r: Entry)
    ensures Truthy(r.delivery) ==> DeliveryText(r) == r.delivery.value
    ensures !Truthy(r.delivery) ==> DeliveryText(r) == LegacyDelivery(r)
    ensures DeliveryText(r) == [] <==> !Truthy(r.delivery) && !Truthy(r.tone) && !HasCitations(r)
  {
    LegacyDeliveryEmpty(r);
  }
}
