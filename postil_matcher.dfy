/**
 * The postil matcher: the references of a Sunday's readings select the
 * active postils that cite one of them, and each selected postil is
 * annotated with the reference it matched.
 *
 * The database query ("is_active = true and biblical_references overlaps
 * the readings' references") is modelled as a filter over an abstract
 * table; a failing query is an error message passed in.
 */
module PostilMatcher {
  import opened Text
  import RefHeadings

  /** The columns of a `postily` row that the query selects. */
  datatype Row = Row(
    id: string,
    postilNumber: int,
    title: string,
    biblicalReferences: seq<string>,
    liturgicalContext: Option<string>,
    year: int,
    issueNumber: int,
    sourceRef: string,
    biblicalText: Option<string>,
    content: string)

  /** A stored row: the selected columns and the `is_active` flag the query filters on. */
  datatype StoredRow = StoredRow(isActive: bool, row: Row)

  /** A selected row together with the reading reference it matched. */
  datatype PostilaMatch = PostilaMatch(row: Row, matchedRef: string)

  /** Whether two reference lists share an element (the `overlaps` operator). */
  predicate Overlaps(refs: seq<string>, allRefs: seq<string>) {
    exists r :: r in refs && r in allRefs
  }

  /** Whether the query selects a stored row. */
  predicate Selected(s: StoredRow, allRefs: seq<string>) {
    s.isActive && Overlaps(s.row.biblicalReferences, allRefs)
  }

  /** The rows the query returns: the selected rows of the table, in table order. */
  function Query(table: seq<StoredRow>, allRefs: seq<string>): (data: seq<Row>)
    ensures |data| <= |table|
  {
    if table == [] then []
    else (if Selected(table[0], allRefs) then [table[0].row] else []) + Query(table[1..], allRefs)
  }

  /** `find`: the first reference of `refs` that is one of `allRefs`. */
  function Find(refs: seq<string>, allRefs: seq<string>): (f: Option<string>)
    ensures f.Some? ==> f.value in refs && f.value in allRefs
  {
    if refs == [] then None
    else if refs[0] in allRefs then Some(refs[0])
    else Find(refs[1..], allRefs)
  }

  /**
   * The matched reference: the one `find` gives, unless it gives none or the
   * (falsy) empty string, in which case the first reading reference.
   */
  function MatchedRef(refs: seq<string>, allRefs: seq<string>): (m: string)
    requires allRefs != []
    ensures m in allRefs
  {
    var f := Find(refs, allRefs);
    if f.Some? && f.value != "" then f.value else allRefs[0]
  }

  /** The `map` over the returned rows: every row with its matched reference. */
  function Annotate(data: seq<Row>, allRefs: seq<string>): (ms: seq<PostilaMatch>)
    requires allRefs != []
    ensures |ms| == |data|
  {
    if data == [] then []
    else [PostilaMatch(data[0], MatchedRef(data[0].biblicalReferences, allRefs))] + Annotate(data[1..], allRefs)
  }

  /**
   * `findMatchingPostily` after the references are extracted: no reference
   * means no query and no match; a query error or an empty result gives no
   * match; otherwise every returned row, annotated.
   */
  function Matches(allRefs: seq<string>, table: seq<StoredRow>, dbError: Option<string>): (ms: seq<PostilaMatch>)
    ensures allRefs == [] ==> ms == []
    ensures dbError.Some? ==> ms == []
  {
    if allRefs == [] then []
    else if dbError.Some? then []
    else
      var data := Query(table, allRefs);
      if data == [] then [] else Annotate(data, allRefs)
  }

  /** `findMatchingPostily`: extract the references of the markdown, query, annotate. */
  method FindMatchingPostily(markdown: string, table: seq<StoredRow>, dbError: Option<string>)
    returns (matches: seq<PostilaMatch>)
    ensures matches == Matches(RefHeadings.AllRefsOf(RefHeadings.ReadingsOf(RefHeadings.Headings(markdown))), table, dbError)
  {
    var _, allRefs := RefHeadings.ExtractAllRefsFromMarkdown(markdown);
    if |allRefs| == 0 {
      return [];
    }
    if dbError.Some? {
      return [];
    }
    var data := Query(table, allRefs);
    if |data| == 0 {
      return [];
    }
    matches := Annotate(data, allRefs);
  }

  // ---------------------------------------------------------------------------
  // The query filter
  // ---------------------------------------------------------------------------

  /** A row is returned exactly when some stored row with those columns is selected. */
  lemma {:induction false} QueryMembers(table: seq<StoredRow>, allRefs: seq<string>, row: Row)
    ensures row in Query(table, allRefs) <==> exists k :: 0 <= k < |table| && table[k].row == row && Selected(table[k], allRefs)
  {
    if table != [] {
      QueryMembers(table[1..], allRefs, row);
      assert forall k :: 1 <= k < |table| ==> table[1..][k - 1] == table[k];
      if row in Query(table[1..], allRefs) {
        var k :| 0 <= k < |table[1..]| && table[1..][k].row == row && Selected(table[1..][k], allRefs);
        assert table[k + 1] == table[1..][k];
      }
    }
  }

  /** The returned rows keep the table order: the query of a split table is the two queries joined. */
  lemma {:induction false} QueryConcat(xs: seq<StoredRow>, ys: seq<StoredRow>, allRefs: seq<string>)
    ensures Query(xs + ys, allRefs) == Query(xs, allRefs) + Query(ys, allRefs)
  {
    if xs == [] {
      assert xs + ys == ys;
    } else {
      var head := if Selected(xs[0], allRefs) then [xs[0].row] else [];
      assert (xs + ys)[0] == xs[0];
      assert (xs + ys)[1..] == xs[1..] + ys;
      QueryConcat(xs[1..], ys, allRefs);
      calc {
        Query(xs + ys, allRefs);
        head + Query(xs[1..] + ys, allRefs);
        head + (Query(xs[1..], allRefs) + Query(ys, allRefs));
        { Assoc(head, Query(xs[1..], allRefs), Query(ys, allRefs)); }
        Query(xs, allRefs) + Query(ys, allRefs);
      }
    }
  }

  /** An inactive row, or one that cites no reading reference, is never returned. */
  lemma QueryDrops(s: StoredRow, allRefs: seq<string>)
    requires !Selected(s, allRefs)
    ensures Query([s], allRefs) == []
  {
    assert [s][1..] == [];
  }

  // ---------------------------------------------------------------------------
  // The matched reference
  // ---------------------------------------------------------------------------

  /** `find` gives the reference at the first index of `refs` that is one of `allRefs`. */
  lemma {:induction false} FindFirst(refs: seq<string>, allRefs: seq<string>, i: nat)
    requires i < |refs| && refs[i] in allRefs
    requires forall j :: 0 <= j < i ==> refs[j] !in allRefs
    ensures Find(refs, allRefs).Some? && Find(refs, allRefs).value == refs[i]
  {
    if i > 0 {
      assert refs[0] !in allRefs;
      FindFirst(refs[1..], allRefs, i - 1);
    }
  }

  /** `find` gives nothing exactly when no reference of `refs` is one of `allRefs`. */
  lemma {:induction false} FindNone(refs: seq<string>, allRefs: seq<string>)
    ensures Find(refs, allRefs).None? <==> !Overlaps(refs, allRefs)
  {
    if refs != [] && refs[0] !in allRefs {
      FindNone(refs[1..], allRefs);
      if Overlaps(refs, allRefs) {
        var r :| r in refs && r in allRefs;
        assert r in refs[1..];
      }
    }
  }

  /**
   * When the first reference of `refs` found in `allRefs` is at index `i`
   * and the empty string is not a reading reference, `matched_ref` is
   * `refs[i]`.
   */
  lemma FirstMatchedRef(refs: seq<string>, allRefs: seq<string>, i: nat)
    requires allRefs != [] && "" !in allRefs
    requires i < |refs| && refs[i] in allRefs
    requires forall j :: 0 <= j < i ==> refs[j] !in allRefs
    ensures MatchedRef(refs, allRefs) == refs[i]
  {
    FindFirst(refs, allRefs, i);
  }

  /** A row that cites no reading reference is matched to the first reading reference. */
  lemma FallbackMatchedRef(refs: seq<string>, allRefs: seq<string>)
    requires allRefs != [] && !Overlaps(refs, allRefs)
    ensures MatchedRef(refs, allRefs) == allRefs[0]
  {
    FindNone(refs, allRefs);
  }

  /**
   * For a row that cites a reading reference, the matched reference is one
   * the row cites, and no earlier reference of the row is a reading reference.
   */
  lemma {:induction false} MatchedRefCited(refs: seq<string>, allRefs: seq<string>)
    requires allRefs != [] && "" !in allRefs && Overlaps(refs, allRefs)
    ensures exists i :: 0 <= i < |refs| && refs[i] == MatchedRef(refs, allRefs) && forall j :: 0 <= j < i ==> refs[j] !in allRefs
  {
    if refs[0] in allRefs {
      assert refs[0] == MatchedRef(refs, allRefs);
    } else {
      var r :| r in refs && r in allRefs;
      assert r in refs[1..];
      MatchedRefCited(refs[1..], allRefs);
      var i :| 0 <= i < |refs[1..]| && refs[1..][i] == MatchedRef(refs[1..], allRefs) && forall j :: 0 <= j < i ==> refs[1..][j] !in allRefs;
      assert refs[i + 1] == MatchedRef(refs, allRefs);
      assert forall j :: 0 <= j < i + 1 ==> refs[j] !in allRefs by {
        forall j | 0 <= j < i + 1
          ensures refs[j] !in allRefs
        {
          if j > 0 {
            assert refs[j] == refs[1..][j - 1];
          }
        }
      }
    }
  }

  // ---------------------------------------------------------------------------
  // The annotation and the whole matcher
  // ---------------------------------------------------------------------------

  /** The `k`-th match is the `k`-th row, unchanged, with its matched reference. */
  lemma {:induction false} AnnotateAt(data: seq<Row>, allRefs: seq<string>, k: nat)
    requires allRefs != [] && k < |data|
    ensures Annotate(data, allRefs)[k].row == data[k]
    ensures Annotate(data, allRefs)[k].matchedRef == MatchedRef(data[k].biblicalReferences, allRefs)
  {
    if k > 0 {
      AnnotateAt(data[1..], allRefs, k - 1);
    }
  }

  /** A query error gives the same answer as a query that returns nothing. */
  lemma ErrorLooksEmpty(allRefs: seq<string>, table: seq<StoredRow>, message: string)
    ensures Matches(allRefs, table, Some(message)) == Matches(allRefs, [], None)
    ensures Matches(allRefs, table, Some(message)) == []
  {
  }

  /**
   * The matches of a successful query: one per returned row, in the order
   * the rows are returned, with every column copied and the matched
   * reference attached.
   */
  lemma MatchesRows(allRefs: seq<string>, table: seq<StoredRow>)
    requires allRefs != []
    ensures |Matches(allRefs, table, None)| == |Query(table, allRefs)|
    ensures forall k :: 0 <= k < |Query(table, allRefs)| ==>
      Matches(allRefs, table, None)[k].row == Query(table, allRefs)[k] &&
      Matches(allRefs, table, None)[k].matchedRef == MatchedRef(Query(table, allRefs)[k].biblicalReferences, allRefs)
  {
    var data := Query(table, allRefs);
    forall k | 0 <= k < |data|
      ensures Matches(allRefs, table, None)[k].row == data[k]
      ensures Matches(allRefs, table, None)[k].matchedRef == MatchedRef(data[k].biblicalReferences, allRefs)
    {
      AnnotateAt(data, allRefs, k);
    }
  }

  /**
   * Every match is an active stored row that cites a reading reference, and
   * its matched reference is a reading reference.
   */
  lemma MatchSound(allRefs: seq<string>, table: seq<StoredRow>, dbError: Option<string>, k: nat)
    requires k < |Matches(allRefs, table, dbError)|
    ensures exists t :: 0 <= t < |table| && table[t].row == Matches(allRefs, table, dbError)[k].row && Selected(table[t], allRefs)
    ensures Matches(allRefs, table, dbError)[k].matchedRef in allRefs
  {
    var data := Query(table, allRefs);
    AnnotateAt(data, allRefs, k);
    QueryMembers(table, allRefs, data[k]);
  }

  /** Every active stored row that cites a reading reference is matched, when the query succeeds. */
  lemma MatchComplete(allRefs: seq<string>, table: seq<StoredRow>, t: nat)
    requires allRefs != [] && t < |table| && Selected(table[t], allRefs)
    ensures exists k :: 0 <= k < |Matches(allRefs, table, None)| && Matches(allRefs, table, None)[k].row == table[t].row
  {
    var data := Query(table, allRefs);
    QueryMembers(table, allRefs, table[t].row);
    var k :| 0 <= k < |data| && data[k] == table[t].row;
    AnnotateAt(data, allRefs, k);
    assert Matches(allRefs, table, None)[k].row == table[t].row;
  }

  /**
   * For the references of a markdown document, every match's reference is
   * one the row itself cites, the first in the row's order that is a
   * reading reference: the references carry digits, so `find` never gives
   * the falsy empty string.
   */
  lemma MarkdownMatchedRef(markdown: string, allRefs: seq<string>, table: seq<StoredRow>, k: nat)
    requires allRefs == RefHeadings.AllRefsOf(RefHeadings.ReadingsOf(RefHeadings.Headings(markdown)))
    requires k < |Matches(allRefs, table, None)|
    ensures exists i :: (0 <= i < |Matches(allRefs, table, None)[k].row.biblicalReferences| &&
      Matches(allRefs, table, None)[k].row.biblicalReferences[i] == Matches(allRefs, table, None)[k].matchedRef &&
      forall j :: 0 <= j < i ==> Matches(allRefs, table, None)[k].row.biblicalReferences[j] !in allRefs)
  {
    assert "" !in allRefs by {
      if "" in allRefs {
        RefHeadings.AllRefsHaveDigits(RefHeadings.Headings(markdown), "");
      }
    }
    var data := Query(table, allRefs);
    AnnotateAt(data, allRefs, k);
    QueryMembers(table, allRefs, data[k]);
    MatchedRefCited(data[k].biblicalReferences, allRefs);
  }
}
