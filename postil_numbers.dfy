/**
 * The second pass of the postil parser: records whose number could not be
 * recovered (number 0) get one by interpolation, in place, in record order.
 * A missing number after a known one becomes that number plus the distance;
 * a missing number before the first known one counts back from it. The pass
 * reads the numbers as they stand when it reaches a record, including the ones
 * it has already written, and only numbers greater than 0 count as known.
 */
module PostilNumbers {
  import opened Text
  import opened PostilSegmenter

  /** The postil numbers of a record sequence, in order. */
  function Numbers(ps: seq<Postil>): (ns: seq<int>)
    ensures |ns| == |ps|
    ensures forall k :: 0 <= k < |ps| ==> ns[k] == ps[k].number
  {
    seq(|ps|, k requires 0 <= k < |ps| => ps[k].number)
  }

  predicate NonNegative(s: seq<int>) {
    forall k :: 0 <= k < |s| ==> s[k] >= 0
  }

  // ---------------------------------------------------------------------------
  // The searches of one step
  // ---------------------------------------------------------------------------

  /** The index of the nearest known (positive) number at or before `j`, or -1. */
  function LastKnown(s: seq<int>, j: int): (p: int)
    requires -1 <= j < |s|
    ensures -1 <= p <= j
    ensures p >= 0 ==> s[p] > 0
    ensures forall k :: p < k <= j ==> s[k] <= 0
    decreases j + 1
  {
    if j < 0 then -1 else if s[j] > 0 then j else LastKnown(s, j - 1)
  }

  /** The index of the nearest known (positive) number at or after `j`, or |s|. */
  function FirstKnown(s: seq<int>, j: nat): (q: nat)
    requires j <= |s|
    ensures j <= q <= |s|
    ensures q < |s| ==> s[q] > 0
    ensures forall k :: j <= k < q ==> s[k] <= 0
    decreases |s| - j
  {
    if j == |s| then |s| else if s[j] > 0 then j else FirstKnown(s, j + 1)
  }

  /**
   * The number the pass writes at a missing position `i` of the numbers `t` as
   * they stand: the previous known number plus the run of unknowns back to it,
   * else the next known number minus the run of unknowns up to it, else the
   * number stays what it is.
   */
  function Fill(t: seq<int>, i: nat): int
    requires i < |t|
  {
    var p := LastKnown(t, i - 1);
    var prevNum := if p >= 0 then t[p] else 0;
    var q := FirstKnown(t, i + 1);
    var nextNum := if q < |t| then t[q] else 0;
    if prevNum > 0 then prevNum + (i - LastKnown(t, i))
    else if nextNum > 0 then nextNum - (FirstKnown(t, i) - i)
    else t[i]
  }

  /** One iteration of the pass: only a number equal to 0 is filled in. */
  function Step(t: seq<int>, i: nat): seq<int>
    requires i < |t|
  {
    if t[i] != 0 then t else t[i := Fill(t, i)]
  }

  /** The pass from position `i` on. */
  function InterpolateFrom(t: seq<int>, i: nat): (r: seq<int>)
    requires i <= |t|
    ensures |r| == |t|
    decreases |t| - i
  {
    if i == |t| then t else InterpolateFrom(Step(t, i), i + 1)
  }

  function Interpolated(s: seq<int>): (r: seq<int>)
    ensures |r| == |s|
  {
    InterpolateFrom(s, 0)
  }

  // ---------------------------------------------------------------------------
  // The pass over the records, in place
  // ---------------------------------------------------------------------------

  method Interpolate(a: array<Postil>)
    modifies a
    ensures Numbers(a[..]) == Interpolated(Numbers(old(a[..])))
    ensures forall k :: 0 <= k < a.Length ==> a[k] == old(a[k]).(number := a[k].number)
  {
    ghost var s0 := Numbers(a[..]);
    for i := 0 to a.Length
      invariant InterpolateFrom(Numbers(a[..]), i) == Interpolated(s0)
      invariant forall k :: 0 <= k < a.Length ==> a[k] == old(a[k]).(number := a[k].number)
    {
      ghost var t := Numbers(a[..]);
      InterpolateAt(a, i);
      assert InterpolateFrom(t, i) == InterpolateFrom(Step(t, i), i + 1);
    }
  }

  /** One iteration: a record whose number is 0 gets the number the step computes. */
  method InterpolateAt(a: array<Postil>, i: nat)
    requires i < a.Length
    modifies a
    ensures Numbers(a[..]) == Step(Numbers(old(a[..])), i)
    ensures forall k :: 0 <= k < a.Length ==> a[k] == old(a[k]).(number := a[k].number)
  {
    ghost var before := a[..];
    ghost var t := Numbers(before);
    if a[i].number == 0 {
      var prevNum := PrevNumber(a, i);
      var nextNum := NextNumber(a, i);
      var v := 0;
      if prevNum > 0 {
        var gap := GapBack(a, i);
        v := prevNum + gap;
      } else if nextNum > 0 {
        var gap := GapForward(a, i);
        v := nextNum - gap;
      }
      assert v == Fill(t, i);
      if prevNum > 0 || nextNum > 0 {
        a[i] := a[i].(number := v);
        assert a[..] == before[i := before[i].(number := v)];
        SetNumber(before, i, v);
      } else {
        assert t[i := v] == t;
      }
    }
  }

  /** Writing one record's number changes that number in the sequence of numbers and nothing else. */
  lemma SetNumber(ps: seq<Postil>, i: nat, v: int)
    requires i < |ps|
    ensures Numbers(ps[i := ps[i].(number := v)]) == Numbers(ps)[i := v]
  {
  }

  /** The nearest known number before `i`, or 0. */
  method PrevNumber(a: array<Postil>, i: nat) returns (prevNum: int)
    requires i < a.Length
    ensures var p := LastKnown(Numbers(a[..]), i - 1); prevNum == if p >= 0 then a[p].number else 0
  {
    ghost var t := Numbers(a[..]);
    prevNum := 0;
    var j := i - 1;
    while j >= 0
      invariant -1 <= j < i
      invariant LastKnown(t, i - 1) == LastKnown(t, j)
      invariant prevNum == 0
      decreases j + 1
    {
      if a[j].number > 0 {
        prevNum := a[j].number;
        break;
      }
      j := j - 1;
    }
  }

  /** The nearest known number after `i`, or 0. */
  method NextNumber(a: array<Postil>, i: nat) returns (nextNum: int)
    requires i < a.Length
    ensures var q := FirstKnown(Numbers(a[..]), i + 1); nextNum == if q < a.Length then a[q].number else 0
  {
    ghost var t := Numbers(a[..]);
    nextNum := 0;
    var j := i + 1;
    while j < a.Length
      invariant i + 1 <= j <= a.Length
      invariant FirstKnown(t, i + 1) == FirstKnown(t, j)
      invariant nextNum == 0
      decreases a.Length - j
    {
      if a[j].number > 0 {
        nextNum := a[j].number;
        break;
      }
      j := j + 1;
    }
  }

  /** The run of unknown numbers ending at `i`, counted back to the previous known one. */
  method GapBack(a: array<Postil>, i: nat) returns (gap: int)
    requires i < a.Length
    ensures gap == i - LastKnown(Numbers(a[..]), i)
  {
    ghost var t := Numbers(a[..]);
    gap := 0;
    var j := i;
    while j >= 0
      invariant -1 <= j <= i && gap == i - j
      invariant LastKnown(t, i) == LastKnown(t, j)
      decreases j + 1
    {
      if a[j].number > 0 {
        break;
      }
      gap := gap + 1;
      j := j - 1;
    }
  }

  /** The run of unknown numbers starting at `i`, counted up to the next known one. */
  method GapForward(a: array<Postil>, i: nat) returns (gap: int)
    requires i < a.Length
    ensures gap == FirstKnown(Numbers(a[..]), i) - i
  {
    ghost var t := Numbers(a[..]);
    gap := 0;
    var j := i;
    while j < a.Length
      invariant i <= j <= a.Length && gap == j - i
      invariant FirstKnown(t, i) == FirstKnown(t, j)
      decreases a.Length - j
    {
      if a[j].number > 0 {
        break;
      }
      gap := gap + 1;
      j := j + 1;
    }
  }

  /** The whole parser: the first pass over the lines, then the interpolation over its records. */
  method ParsePostily(lines: seq<string>) returns (postily: seq<Postil>)
    ensures |postily| == |Segment(lines)|
    ensures Numbers(postily) == Interpolated(Numbers(Segment(lines)))
    ensures forall k :: 0 <= k < |postily| ==> postily[k] == Segment(lines)[k].(number := postily[k].number)
  {
    var first := SegmentPostils(lines);
    var a := new Postil[|first|](k requires 0 <= k < |first| => first[k]);
    assert a[..] == first;
    Interpolate(a);
    postily := a[..];
    assert |postily| == |first|;
    assert Numbers(postily) == Interpolated(Numbers(first));
    assert forall k :: 0 <= k < |postily| ==> postily[k] == first[k].(number := postily[k].number);
  }

  // ---------------------------------------------------------------------------
  // What the pass computes, in closed form
  // ---------------------------------------------------------------------------

  /**
   * The number record `i` ends up with, read off the original numbers: a known
   * number stays; a missing one after the last known number before it is that
   * number plus the distance; a missing one with no known number before it
   * counts back from the first known number after it; with no known number at
   * all it stays 0.
   */
  function Expected(s: seq<int>, i: nat): int
    requires i < |s|
  {
    if s[i] != 0 then s[i]
    else
      var p := LastKnown(s, i - 1);
      if p >= 0 then s[p] + (i - p)
      else
        var q := FirstKnown(s, i + 1);
        if q < |s| then s[q] - (q - i) else 0
  }

  /** The numbers after the pass has reached `i`: settled before `i`, original from `i` on. */
  function Partial(s: seq<int>, i: nat): (t: seq<int>)
    requires i <= |s|
    ensures |t| == |s|
    ensures forall k :: 0 <= k < i ==> t[k] == Expected(s, k)
    ensures forall k :: i <= k < |s| ==> t[k] == s[k]
  {
    seq(|s|, k requires 0 <= k < |s| => if k < i then Expected(s, k) else s[k])
  }

  /** A run of unknown numbers does not move the next known one. */
  lemma {:induction false} FirstKnownSkip(s: seq<int>, j: nat, m: nat)
    requires j <= m <= |s|
    requires forall k :: j <= k < m ==> s[k] <= 0
    ensures FirstKnown(s, j) == FirstKnown(s, m)
    decreases m - j
  {
    if j < m {
      FirstKnownSkip(s, j + 1, m);
    }
  }

  /** Two number sequences that agree from `j` on have the same next known number there. */
  lemma {:induction false} FirstKnownAgree(t: seq<int>, s: seq<int>, j: nat)
    requires |t| == |s| && j <= |s|
    requires forall k :: j <= k < |s| ==> t[k] == s[k]
    ensures FirstKnown(t, j) == FirstKnown(s, j)
    decreases |s| - j
  {
    if j < |s| {
      FirstKnownAgree(t, s, j + 1);
    }
  }

  /** Before the first known number, every settled number counts back from it. */
  lemma LeadingExpected(s: seq<int>, i: nat, k: nat)
    requires NonNegative(s) && k < i < |s| && s[i] == 0
    requires LastKnown(s, i - 1) == -1
    ensures var q := FirstKnown(s, i + 1); Expected(s, k) == if q < |s| then s[q] - (q - k) else 0
  {
    assert s[k] == 0;
    assert LastKnown(s, k - 1) == -1;
    FirstKnownSkip(s, k + 1, i + 1);
  }

  /** After a known number, the settled number just before `i` is that number plus its distance. */
  lemma AfterKnownExpected(s: seq<int>, i: nat)
    requires NonNegative(s) && 0 < i < |s| && s[i] == 0
    requires LastKnown(s, i - 1) >= 0
    ensures var p := LastKnown(s, i - 1); Expected(s, i - 1) == s[p] + (i - 1 - p) && Expected(s, i - 1) > 0
  {
    var p := LastKnown(s, i - 1);
    if p < i - 1 {
      assert s[i - 1] == 0;
      assert LastKnown(s, i - 2) == p;
    }
  }

  /** The step at a missing number, on the numbers as the pass has left them, writes the closed form. */
  lemma FillPartial(s: seq<int>, i: nat)
    requires NonNegative(s) && i < |s| && s[i] == 0
    ensures Fill(Partial(s, i), i) == Expected(s, i)
  {
    var t := Partial(s, i);
    FirstKnownAgree(t, s, i + 1);
    assert FirstKnown(t, i) == FirstKnown(t, i + 1);
    assert LastKnown(t, i) == LastKnown(t, i - 1);
    if LastKnown(s, i - 1) >= 0 {
      AfterKnownExpected(s, i);
      assert LastKnown(t, i - 1) == i - 1;
    } else {
      LeadingPrevious(s, i);
    }
  }

  /**
   * Before the first known number, the previous number the step sees is the
   * settled one just before `i` when that is positive, and there is none otherwise.
   */
  lemma LeadingPrevious(s: seq<int>, i: nat)
    requires NonNegative(s) && i < |s| && s[i] == 0
    requires LastKnown(s, i - 1) == -1
    ensures var t := Partial(s, i); var q := FirstKnown(s, i + 1);
      if i > 0 && q < |s| && s[q] - (q - i + 1) > 0
      then LastKnown(t, i - 1) == i - 1 && t[i - 1] == s[q] - (q - i + 1)
      else LastKnown(t, i - 1) == -1
  {
    var t := Partial(s, i);
    var q := FirstKnown(s, i + 1);
    if i > 0 && q < |s| && s[q] - (q - i + 1) > 0 {
      LeadingExpected(s, i, i - 1);
    } else {
      forall k | 0 <= k < i
        ensures t[k] <= 0
      {
        LeadingExpected(s, i, k);
      }
    }
  }

  lemma StepPartial(s: seq<int>, i: nat)
    requires NonNegative(s) && i < |s|
    ensures Step(Partial(s, i), i) == Partial(s, i + 1)
  {
    var t := Partial(s, i);
    if s[i] != 0 {
      assert Partial(s, i + 1) == t;
    } else {
      FillPartial(s, i);
      assert t[i := Expected(s, i)] == Partial(s, i + 1);
    }
  }

  lemma {:induction false} FromPartial(s: seq<int>, i: nat)
    requires NonNegative(s) && i <= |s|
    ensures InterpolateFrom(Partial(s, i), i) == Partial(s, |s|)
    decreases |s| - i
  {
    if i < |s| {
      StepPartial(s, i);
      FromPartial(s, i + 1);
    }
  }

  /**
   * The pass over numbers recovered from the text (never negative) keeps the
   * record count and gives every record its closed-form number.
   */
  lemma InterpolatedMatches(s: seq<int>)
    requires NonNegative(s)
    ensures |Interpolated(s)| == |s|
    ensures forall i :: 0 <= i < |s| ==> Interpolated(s)[i] == Expected(s, i)
  {
    assert Partial(s, 0) == s;
    FromPartial(s, 0);
  }

  /** Known numbers are never changed. */
  lemma KnownKept(s: seq<int>, i: nat)
    requires NonNegative(s) && i < |s| && s[i] != 0
    ensures Interpolated(s)[i] == s[i]
  {
    InterpolatedMatches(s);
  }

  /** A missing number after a known one is that number plus the distance to it. */
  lemma FilledFromPrevious(s: seq<int>, p: nat, i: nat)
    requires NonNegative(s) && p < i < |s| && s[p] > 0
    requires forall k :: p < k <= i ==> s[k] == 0
    ensures Interpolated(s)[i] == s[p] + (i - p)
  {
    InterpolatedMatches(s);
    assert LastKnown(s, i - 1) == p;
  }

  /** A missing number before the first known one counts back from it. */
  lemma FilledFromNext(s: seq<int>, i: nat, q: nat)
    requires NonNegative(s) && i < q < |s| && s[q] > 0
    requires forall k :: 0 <= k < q ==> s[k] == 0
    ensures Interpolated(s)[i] == s[q] - (q - i)
  {
    InterpolatedMatches(s);
    assert LastKnown(s, i - 1) == -1;
    assert FirstKnown(s, i + 1) == q;
  }

  /** With no known number at all, nothing is filled in. */
  lemma AllMissingStays(s: seq<int>)
    requires forall k :: 0 <= k < |s| ==> s[k] == 0
    ensures Interpolated(s) == s
  {
    InterpolatedMatches(s);
    forall i | 0 <= i < |s|
      ensures Interpolated(s)[i] == s[i]
    {
      assert LastKnown(s, i - 1) == -1;
      assert FirstKnown(s, i + 1) == |s|;
    }
  }

  /** A gap between known numbers is counted through: 1, 0, 0, 4, 5 becomes 1, 2, 3, 4, 5. */
  lemma ExampleGap()
    ensures Interpolated([1, 0, 0, 4, 5]) == [1, 2, 3, 4, 5]
  {
    var s := [1, 0, 0, 4, 5];
    InterpolatedMatches(s);
    FilledFromPrevious(s, 0, 1);
    FilledFromPrevious(s, 0, 2);
    KnownKept(s, 0);
    KnownKept(s, 3);
    KnownKept(s, 4);
  }

  /**
   * Counting back can run below 1: 0, 0, 0, 2 becomes -1, 0, 1, 2, and the
   * record given 0 still reads as missing.
   */
  lemma ExampleCountBack()
    ensures Interpolated([0, 0, 0, 2]) == [-1, 0, 1, 2]
  {
    var s := [0, 0, 0, 2];
    InterpolatedMatches(s);
    FilledFromNext(s, 0, 3);
    FilledFromNext(s, 1, 3);
    FilledFromNext(s, 2, 3);
    KnownKept(s, 3);
  }

  /** The numbers the first pass recovers are never negative. */
  lemma SegmentNumbersNonNegative(lines: seq<string>)
    ensures NonNegative(Numbers(Segment(lines)))
  {
    SegmentRecords(lines);
  }

  /** The numbers the parser ends with, in closed form over the numbers the first pass recovered. */
  lemma ParsedNumbers(lines: seq<string>)
    ensures var s := Numbers(Segment(lines));
      forall i :: 0 <= i < |s| ==> Interpolated(s)[i] == Expected(s, i)
  {
    SegmentNumbersNonNegative(lines);
    InterpolatedMatches(Numbers(Segment(lines)));
  }
}
