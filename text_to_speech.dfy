/**
 * The text-to-speech endpoint: the key check, the input guard and the
 * clean-up of annotation markers before the text is sent to the voice
 * service. The voice service call and the audio encoding are not part of
 * this model; whether the API key is configured is a parameter.
 */
module TextToSpeech {
  import opened Text

  const MaxTextLength: nat := 5000

  const Pause := "[pauza]"
  const LongPause := "[dlouhá pauza]"
  const Slow := "[pomalu]"
  const Normal := "[normálně]"

  /** The four marker replacements, in the order the handler applies them. */
  function ReplaceMarkers(t: string): string {
    ReplaceAll(ReplaceAll(ReplaceAll(ReplaceAll(t, Pause, "..."), LongPause, "....."), Slow, ""), Normal, "")
  }

  /** `cleanText`: the markers replaced, every `#` and `*` removed, then trimmed. */
  function CleanText(t: string): (c: string)
    ensures forall k :: 0 <= k < |c| ==> c[k] != '#' && c[k] != '*'
    ensures IsTrimmed(c)
  {
    var removed := RemoveChars(ReplaceMarkers(t), {'#', '*'});
    TrimSlice(removed);
    Trim(removed)
  }

  /** The handler's response before the voice service is called. */
  datatype Outcome =
    | Rejected(status: int, error: string)
    | Speak(cleanText: string)

  const KeyMissing := "ElevenLabs API klíč není nakonfigurován."
  const BadText := "Text je prázdný nebo příliš dlouhý (max 5000 znaků)."

  /** The key check comes first, then the text guard, then the clean-up. */
  function Handle(hasApiKey: bool, text: Option<string>): (o: Outcome)
    ensures !hasApiKey ==> o == Rejected(500, KeyMissing)
    ensures hasApiKey ==> (o.Rejected? <==> text.None? || text.value == [] || |text.value| > MaxTextLength)
    ensures hasApiKey && o.Rejected? ==> o == Rejected(400, BadText)
    ensures o.Speak? ==> text.Some? && 0 < |text.value| <= MaxTextLength && o.cleanText == CleanText(text.value)
  {
    if !hasApiKey then Rejected(500, KeyMissing)
    else if text.None? || text.value == [] || |text.value| > MaxTextLength then Rejected(400, BadText)
    else Speak(CleanText(text.value))
  }

  // ---------------------------------------------------------------------------
  // Properties of the replacement chain
  // ---------------------------------------------------------------------------

  /** A replacement passes over a prefix without the pattern's first character. */
  lemma {:induction false} ReplaceSkips(x: string, y: string, p: string, r: string)
    requires |p| > 0 && p[0] !in x
    ensures ReplaceAll(x + y, p, r) == x + ReplaceAll(y, p, r)
    decreases |x|
  {
    if x != [] {
      var s := x + y;
      if |s| >= |p| {
        assert s[..|p|][0] == x[0];
        assert s[..|p|] != p;
        assert s[1..] == x[1..] + y;
        ReplaceSkips(x[1..], y, p, r);
        calc {
          ReplaceAll(s, p, r);
          [s[0]] + ReplaceAll(s[1..], p, r);
          [x[0]] + (x[1..] + ReplaceAll(y, p, r));
          { assert x == [x[0]] + x[1..]; }
          x + ReplaceAll(y, p, r);
        }
      } else {
        ReplaceShort(y, p, r);
      }
    } else {
      assert x + y == y;
    }
  }

  lemma ReplaceShort(y: string, p: string, r: string)
    requires |p| > 0 && |y| < |p|
    ensures ReplaceAll(y, p, r) == y
  {
  }

  /** A replacement stops at a leading occurrence of its pattern. */
  lemma ReplaceHead(p: string, y: string, r: string)
    requires |p| > 0
    ensures ReplaceAll(p + y, p, r) == r + ReplaceAll(y, p, r)
  {
    assert (p + y)[..|p|] == p;
    assert (p + y)[|p|..] == y;
  }

  /** A marker that differs from the pattern at `k` is passed over whole. */
  lemma ReplaceMisses(m: string, y: string, p: string, r: string, k: nat)
    requires 0 < k < |m| && k < |p| && m[k] != p[k] && p[0] !in m[1..]
    ensures ReplaceAll(m + y, p, r) == m + ReplaceAll(y, p, r)
  {
    var s := m + y;
    assert s[1..] == m[1..] + y;
    ReplaceSkips(m[1..], y, p, r);
    if |s| >= |p| {
      assert s[..|p|][k] == m[k];
      assert s[..|p|] != p;
      var rest := ReplaceAll(y, p, r);
      assert ReplaceAll(s[1..], p, r) == m[1..] + rest;
      calc {
        ReplaceAll(s, p, r);
        [s[0]] + ReplaceAll(s[1..], p, r);
        [m[0]] + (m[1..] + rest);
        { Assoc([m[0]], m[1..], rest); }
        ([m[0]] + m[1..]) + rest;
        { assert m == [m[0]] + m[1..]; }
        m + rest;
      }
    } else {
      ReplaceShort(y, p, r);
    }
  }

  /** The passes after the one that replaced a marker leave the replaced prefix alone. */
  lemma PassesSkip(x: string, y: string)
    requires '[' !in x
    ensures ReplaceAll(x + y, LongPause, ".....") == x + ReplaceAll(y, LongPause, ".....")
    ensures ReplaceAll(x + y, Slow, "") == x + ReplaceAll(y, Slow, "")
    ensures ReplaceAll(x + y, Normal, "") == x + ReplaceAll(y, Normal, "")
  {
    ReplaceSkips(x, y, LongPause, ".....");
    ReplaceSkips(x, y, Slow, "");
    ReplaceSkips(x, y, Normal, "");
  }

  /** `[pauza]` becomes three dots. */
  lemma PauseReplaced(x: string, y: string)
    requires '[' !in x
    ensures ReplaceMarkers(x + Pause + y) == x + "..." + ReplaceMarkers(y)
  {
    var y1 := ReplaceAll(y, Pause, "...");
    var y2 := ReplaceAll(y1, LongPause, ".....");
    var y3 := ReplaceAll(y2, Slow, "");
    ReplaceSkips(x, Pause + y, Pause, "...");
    ReplaceHead(Pause, y, "...");
    Assoc(x, Pause, y);
    Assoc(x, "...", y1);
    PassesSkip(x + "...", y1);
    Assoc(x, "...", y2);
    PassesSkip(x + "...", y2);
    Assoc(x, "...", y3);
    PassesSkip(x + "...", y3);
  }

  /** `[dlouhá pauza]` becomes five dots; the earlier `[pauza]` pass does not touch it. */
  lemma LongPauseReplaced(x: string, y: string)
    requires '[' !in x
    ensures ReplaceMarkers(x + LongPause + y) == x + "....." + ReplaceMarkers(y)
  {
    var y1 := ReplaceAll(y, Pause, "...");
    var y2 := ReplaceAll(y1, LongPause, ".....");
    var y3 := ReplaceAll(y2, Slow, "");
    ReplaceSkips(x, LongPause + y, Pause, "...");
    ReplaceMisses(LongPause, y, Pause, "...", 1);
    Assoc(x, LongPause, y);
    Assoc(x, LongPause, y1);
    ReplaceSkips(x, LongPause + y1, LongPause, ".....");
    ReplaceHead(LongPause, y1, ".....");
    Assoc(x, ".....", y2);
    PassesSkip(x + ".....", y2);
    Assoc(x, ".....", y3);
    PassesSkip(x + ".....", y3);
  }

  /** `[pomalu]` is deleted. */
  lemma SlowRemoved(x: string, y: string)
    requires '[' !in x
    ensures ReplaceMarkers(x + Slow + y) == x + ReplaceMarkers(y)
  {
    var y1 := ReplaceAll(y, Pause, "...");
    var y2 := ReplaceAll(y1, LongPause, ".....");
    var y3 := ReplaceAll(y2, Slow, "");
    ReplaceSkips(x, Slow + y, Pause, "...");
    ReplaceMisses(Slow, y, Pause, "...", 2);
    Assoc(x, Slow, y);
    Assoc(x, Slow, y1);
    ReplaceSkips(x, Slow + y1, LongPause, ".....");
    ReplaceMisses(Slow, y1, LongPause, ".....", 1);
    Assoc(x, Slow, y2);
    ReplaceSkips(x, Slow + y2, Slow, "");
    ReplaceHead(Slow, y2, "");
    assert "" + y3 == y3;
    PassesSkip(x, y3);
  }

  /** `[normálně]` is deleted. */
  lemma NormalRemoved(x: string, y: string)
    requires '[' !in x
    ensures ReplaceMarkers(x + Normal + y) == x + ReplaceMarkers(y)
  {
    var y1 := ReplaceAll(y, Pause, "...");
    var y2 := ReplaceAll(y1, LongPause, ".....");
    var y3 := ReplaceAll(y2, Slow, "");
    ReplaceSkips(x, Normal + y, Pause, "...");
    ReplaceMisses(Normal, y, Pause, "...", 1);
    Assoc(x, Normal, y);
    Assoc(x, Normal, y1);
    ReplaceSkips(x, Normal + y1, LongPause, ".....");
    ReplaceMisses(Normal, y1, LongPause, ".....", 1);
    Assoc(x, Normal, y2);
    ReplaceSkips(x, Normal + y2, Slow, "");
    ReplaceMisses(Normal, y2, Slow, "", 1);
    Assoc(x, Normal, y3);
    ReplaceSkips(x, Normal + y3, Normal, "");
    ReplaceHead(Normal, y3, "");
    assert "" + ReplaceAll(y3, Normal, "") == ReplaceAll(y3, Normal, "");
  }

  /** A text without markers, `#`, `*` or surrounding whitespace is sent unchanged. */
  lemma PlainTextUnchanged(t: string)
    requires '[' !in t && '#' !in t && '*' !in t && IsTrimmed(t)
    ensures CleanText(t) == t
  {
    assert t + [] == t;
    ReplaceSkips(t, [], Pause, "...");
    ReplaceSkips(t, [], LongPause, ".....");
    ReplaceSkips(t, [], Slow, "");
    ReplaceSkips(t, [], Normal, "");
    RemoveCharsNone(t, {'#', '*'});
    TrimOfTrimmed(t);
  }

  /**
   * The markers are removed before `#` and `*`, so a marker split by one of
   * them survives the clean-up: `[pom#alu]` is sent as `[pomalu]`.
   */
  lemma SplitMarkerSurvives()
    ensures CleanText("[pom" + "#" + "alu]") == Slow
  {
    SplitMarkerKept("[pom", "alu]");
    SplitMarkerJoined("[pom", "alu]");
    TrimOfTrimmed(Slow);
  }

  lemma SplitMarkerKept(a: string, c: string)
    requires a == "[pom" && c == "alu]"
    ensures ReplaceMarkers(a + "#" + c) == a + "#" + c
  {
    var t := a + "#" + c;
    ReplaceMisses(t, [], Pause, "...", 2);
    ReplaceMisses(t, [], LongPause, ".....", 1);
    ReplaceMisses(t, [], Slow, "", 4);
    ReplaceMisses(t, [], Normal, "", 1);
    assert t + [] == t;
  }

  lemma SplitMarkerJoined(a: string, c: string)
    requires a == "[pom" && c == "alu]"
    ensures RemoveChars(a + "#" + c, {'#', '*'}) == Slow
  {
    RemoveCharsConcat(a + "#", c, {'#', '*'});
    RemoveCharsConcat(a, "#", {'#', '*'});
    RemoveCharsNone(a, {'#', '*'});
    RemoveCharsNone(c, {'#', '*'});
    assert RemoveChars("#", {'#', '*'}) == [];
    assert a + [] == a;
    assert |a + c| == |Slow|;
    assert forall k :: 0 <= k < |Slow| ==> (a + c)[k] == Slow[k];
  }

  /** A text of only `#` and `*` passes the guard and is sent empty. */
  lemma OnlyMarkupSentEmpty()
    ensures Handle(true, Some("#*")) == Speak("")
  {
    var t := "#*";
    assert t + [] == t;
    ReplaceSkips(t, [], Pause, "...");
    ReplaceSkips(t, [], LongPause, ".....");
    ReplaceSkips(t, [], Slow, "");
    ReplaceSkips(t, [], Normal, "");
  }
}
