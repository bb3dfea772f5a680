/**
 * The filter chain (lines 126-131): starting from a copy of the full
 * derived table, each of the five sidebar selections that is not "All"
 * keeps only the rows whose column equals it exactly.
 */
module Filters {
  import opened Wrappers
  import opened Records
  import opened Options

  /** The five sidebar selections, each "All" or one option string. */
  datatype Selection = Selection(weather: string, traffic: string, vehicle: string, area: string, category: string)
  {
    function Get(col: Column): string {
      match col
      case Weather => weather
      case Traffic => traffic
      case Vehicle => vehicle
      case Area => area
      case Category => category
    }
  }

  /** The selection that leaves every column unfiltered. */
  const AllSelected: Selection := Selection(All, All, All, All, All)

  /**
   * Boolean-mask indexing `df[mask]`: the records satisfying `p`, in their
   * original order.
   */
  function Where(recs: seq<Record>, p: Record -> bool): (r: seq<Record>)
    ensures |r| <= |recs|
  {
    if recs == [] then []
    else
      var init := Where(recs[..|recs| - 1], p);
      var last := recs[|recs| - 1];
      if p(last) then init + [last] else init
  }

  lemma WhereSnoc(xs: seq<Record>, y: Record, p: Record -> bool)
    ensures Where(xs + [y], p) == Where(xs, p) + (if p(y) then [y] else [])
  {
    assert (xs + [y])[..|xs + [y]| - 1] == xs;
  }

  /** Filtering by `p` and then by `q` is filtering once by their conjunction. */
  lemma {:induction false} WhereWhere(recs: seq<Record>, p: Record -> bool, q: Record -> bool, pq: Record -> bool)
    requires forall r :: pq(r) == (p(r) && q(r))
    ensures Where(Where(recs, p), q) == Where(recs, pq)
  {
    if recs != [] {
      var init := recs[..|recs| - 1];
      var last := recs[|recs| - 1];
      WhereWhere(init, p, q, pq);
      if p(last) {
        WhereSnoc(Where(init, p), last, q);
      }
    }
  }

  /** A filter whose predicate holds of every record keeps them all. */
  lemma {:induction false} WhereAll(recs: seq<Record>, p: Record -> bool)
    requires forall i :: 0 <= i < |recs| ==> p(recs[i])
    ensures Where(recs, p) == recs
  {
    if recs != [] {
      WhereAll(recs[..|recs| - 1], p);
    }
  }

  /** A record is kept exactly when it occurs in the input and satisfies `p`. */
  lemma {:induction false} WhereMembers(recs: seq<Record>, p: Record -> bool)
    ensures forall r :: r in Where(recs, p) <==> r in recs && p(r)
  {
    if recs != [] {
      var init := recs[..|recs| - 1];
      WhereMembers(init, p);
      assert recs == init + [recs[|recs| - 1]];
    }
  }

  /** The positions `Where` keeps, in increasing order. */
  function WhereIndices(recs: seq<Record>, p: Record -> bool): (idx: seq<nat>)
    ensures forall k :: 0 <= k < |idx| ==> idx[k] < |recs|
    ensures forall k, l :: 0 <= k < l < |idx| ==> idx[k] < idx[l]
    ensures forall i :: 0 <= i < |recs| ==> (i in idx <==> p(recs[i]))
  {
    if recs == [] then []
    else
      var n := |recs| - 1;
      var init := WhereIndices(recs[..n], p);
      assert forall i :: 0 <= i < n ==> recs[..n][i] == recs[i];
      if p(recs[n]) then init + [n] else init
  }

  /**
   * `Where` is an order-preserving subsequence: its k-th record is the
   * record at the k-th kept position.
   */
  lemma {:induction false} WhereAtIndices(recs: seq<Record>, p: Record -> bool)
    ensures |Where(recs, p)| == |WhereIndices(recs, p)|
    ensures forall k :: 0 <= k < |Where(recs, p)| ==> Where(recs, p)[k] == recs[WhereIndices(recs, p)[k]]
  {
    if recs != [] {
      var n := |recs| - 1;
      WhereAtIndices(recs[..n], p);
    }
  }

  /** Kept and dropped records together make up the table. */
  lemma {:induction false} WhereSplit(recs: seq<Record>, p: Record -> bool, notP: Record -> bool)
    requires forall r :: notP(r) == !p(r)
    ensures multiset(Where(recs, p)) + multiset(Where(recs, notP)) == multiset(recs)
    ensures |Where(recs, p)| + |Where(recs, notP)| == |recs|
  {
    if recs != [] {
      var init := recs[..|recs| - 1];
      WhereSplit(init, p, notP);
      assert recs == init + [recs[|recs| - 1]];
    }
  }

  // ------------------------------------------------------------ predicates

  /** One line of the chain: skipped for "All", otherwise exact equality (a null equals nothing). */
  predicate Passes(rec: Record, sel: Selection, col: Column)
    ensures sel.Get(col) == All ==> Passes(rec, sel, col)
    ensures sel.Get(col) != All && rec.row.Cat(col).None? ==> !Passes(rec, sel, col)
  {
    sel.Get(col) == All || rec.row.Cat(col) == Some(sel.Get(col))
  }

  /** The first k lines of the chain all let the record through. */
  predicate PassesFirst(rec: Record, sel: Selection, k: nat) {
    forall j :: 0 <= j < k && j < |CatCols| ==> Passes(rec, sel, CatCols[j])
  }

  /** The whole chain lets the record through. */
  predicate Selected(rec: Record, sel: Selection) {
    PassesFirst(rec, sel, |CatCols|)
  }

  function PassesBy(sel: Selection, col: Column): Record -> bool {
    (r: Record) => r.row.Cat(col) == Some(sel.Get(col))
  }

  function FirstBy(sel: Selection, k: nat): Record -> bool {
    (r: Record) => PassesFirst(r, sel, k)
  }

  /** Passing the chain is passing every column's predicate. */
  lemma SelectedMeans(rec: Record, sel: Selection)
    ensures Selected(rec, sel) <==> forall col :: Passes(rec, sel, col)
  {
    if Selected(rec, sel) {
      forall col
        ensures Passes(rec, sel, col)
      {
        assert CatCols[Index(col)] == col;
      }
    }
  }

  /** `filtered_df` as a function of the full table and the selections. */
  function KeepSelected(recs: seq<Record>, sel: Selection): (f: seq<Record>)
    ensures |f| <= |recs|
    ensures forall i :: 0 <= i < |f| ==> f[i] in recs && Selected(f[i], sel)
  {
    WhereMembers(recs, FirstBy(sel, |CatCols|));
    Where(recs, FirstBy(sel, |CatCols|))
  }

  /** A line of the chain whose selection is "All" keeps the table as it is. */
  lemma ChainSkip(recs: seq<Record>, sel: Selection, k: nat)
    requires k < |CatCols| && sel.Get(CatCols[k]) == All
    ensures Where(recs, FirstBy(sel, k)) == Where(recs, FirstBy(sel, k + 1))
  {
    assert forall r :: FirstBy(sel, k)(r) == FirstBy(sel, k + 1)(r);
    WhereEquiv(recs, FirstBy(sel, k), FirstBy(sel, k + 1));
  }

  /** Any other line narrows the table filtered so far by one more column. */
  lemma ChainNarrow(recs: seq<Record>, sel: Selection, k: nat)
    requires k < |CatCols| && sel.Get(CatCols[k]) != All
    ensures Where(Where(recs, FirstBy(sel, k)), PassesBy(sel, CatCols[k])) == Where(recs, FirstBy(sel, k + 1))
  {
    WhereWhere(recs, FirstBy(sel, k), PassesBy(sel, CatCols[k]), FirstBy(sel, k + 1));
  }

  lemma {:induction false} WhereEquiv(recs: seq<Record>, p: Record -> bool, q: Record -> bool)
    requires forall r :: p(r) == q(r)
    ensures Where(recs, p) == Where(recs, q)
  {
    if recs != [] {
      WhereEquiv(recs[..|recs| - 1], p, q);
    }
  }

  /** Before any line of the chain, `filtered_df` is a copy of the whole table. */
  lemma ChainStart(recs: seq<Record>, sel: Selection)
    ensures Where(recs, FirstBy(sel, 0)) == recs
  {
    WhereAll(recs, FirstBy(sel, 0));
  }

  /**
   * The chain of lines 126-131: copy the table, then for each column in
   * order narrow it to the rows equal to the selection unless that is "All".
   */
  method ApplyFilters(table: seq<Record>, sel: Selection) returns (filtered: seq<Record>)
    ensures filtered == KeepSelected(table, sel)
  {
    filtered := table;
    ChainStart(table, sel);
    for k := 0 to |CatCols|
      invariant filtered == Where(table, FirstBy(sel, k))
    {
      var col := CatCols[k];
      var v := sel.Get(col);
      if v != All {
        filtered := Where(filtered, PassesBy(sel, col));
        ChainNarrow(table, sel, k);
      } else {
        ChainSkip(table, sel, k);
      }
    }
  }

  // ------------------------------------------------------------ properties

  /**
   * The filtered table is the full table's rows at the positions that pass
   * every selection, in their original order.
   */
  lemma FilterIsOrderedSubsequence(table: seq<Record>, sel: Selection)
    ensures var idx := WhereIndices(table, FirstBy(sel, |CatCols|));
      && |KeepSelected(table, sel)| == |idx| <= |table|
      && (forall k, l :: 0 <= k < l < |idx| ==> idx[k] < idx[l])
      && (forall k :: 0 <= k < |idx| ==> idx[k] < |table| && KeepSelected(table, sel)[k] == table[idx[k]])
      && (forall i :: 0 <= i < |table| ==> (i in idx <==> Selected(table[i], sel)))
  {
    WhereAtIndices(table, FirstBy(sel, |CatCols|));
  }

  /** Every kept row equals each selection that is not "All" on its column. */
  lemma KeptRowsMatch(table: seq<Record>, sel: Selection)
    ensures forall r, col :: r in KeepSelected(table, sel) && sel.Get(col) != All ==>
      r.row.Cat(col) == Some(sel.Get(col))
  {
    var kept := KeepSelected(table, sel);
    WhereAtIndices(table, FirstBy(sel, |CatCols|));
    forall r, col | r in kept && sel.Get(col) != All
      ensures r.row.Cat(col) == Some(sel.Get(col))
    {
      var k :| 0 <= k < |kept| && kept[k] == r;
      var i := WhereIndices(table, FirstBy(sel, |CatCols|))[k];
      assert table[i] == r;
      assert i in WhereIndices(table, FirstBy(sel, |CatCols|));
      assert FirstBy(sel, |CatCols|)(r);
      SelectedMeans(r, sel);
      assert Passes(r, sel, col);
    }
  }

  /** Every dropped row differs from some selection that is not "All". */
  lemma DroppedRowsMismatch(table: seq<Record>, sel: Selection, i: nat)
    requires i < |table| && i !in WhereIndices(table, FirstBy(sel, |CatCols|))
    ensures exists col :: sel.Get(col) != All && table[i].row.Cat(col) != Some(sel.Get(col))
  {
    SelectedMeans(table[i], sel);
    var col :| !Passes(table[i], sel, col);
  }

  /** With every selection at "All" the filtered table is the full table, row for row. */
  lemma AllSelectionsKeepEverything(table: seq<Record>)
    ensures KeepSelected(table, AllSelected) == table
  {
    forall i | 0 <= i < |table|
      ensures FirstBy(AllSelected, |CatCols|)(table[i])
    {
      SelectedMeans(table[i], AllSelected);
    }
    WhereAll(table, FirstBy(AllSelected, |CatCols|));
  }

  /** The rows that fail the chain. */
  function DropSelected(recs: seq<Record>, sel: Selection): seq<Record> {
    Where(recs, (r: Record) => !Selected(r, sel))
  }

  /** Kept rows plus dropped rows are all the rows. */
  lemma FilterComplement(table: seq<Record>, sel: Selection)
    ensures multiset(KeepSelected(table, sel)) + multiset(DropSelected(table, sel)) == multiset(table)
    ensures |KeepSelected(table, sel)| + |DropSelected(table, sel)| == |table|
  {
    WhereSplit(table, FirstBy(sel, |CatCols|), (r: Record) => !Selected(r, sel));
  }
}
