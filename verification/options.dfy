/**
 * The sidebar option lists of `options(series)`: "All" followed by the
 * distinct non-null values of a column of the full derived table, in
 * Python's string order.
 */
module Options {
  import opened Wrappers
  import opened Records

  const All: string := "All"

  /** Python's `<` on strings: by code point, a proper prefix first. */
  predicate StrLess(a: string, b: string)
    ensures StrLess(a, b) ==> a != b
    ensures |a| < |b| && a == b[..|a|] ==> StrLess(a, b)
    decreases |a|
  {
    if |a| == 0 then |b| > 0
    else if |b| == 0 then false
    else if a[0] != b[0] then a[0] < b[0]
    else StrLess(a[1..], b[1..])
  }

  lemma {:induction false} StrLessIrreflexive(a: string)
    ensures !StrLess(a, a)
    decreases |a|
  {
    if |a| > 0 {
      StrLessIrreflexive(a[1..]);
    }
  }

  lemma {:induction false} StrLessTransitive(a: string, b: string, c: string)
    requires StrLess(a, b) && StrLess(b, c)
    ensures StrLess(a, c)
    decreases |a|
  {
    if |a| > 0 && a[0] == b[0] && b[0] == c[0] {
      StrLessTransitive(a[1..], b[1..], c[1..]);
    }
  }

  lemma {:induction false} StrLessTotal(a: string, b: string)
    requires a != b
    ensures StrLess(a, b) || StrLess(b, a)
    decreases |a|
  {
    if |a| > 0 && |b| > 0 && a[0] == b[0] {
      assert a == [a[0]] + a[1..] && b == [b[0]] + b[1..];
      StrLessTotal(a[1..], b[1..]);
    }
  }

  predicate StrictlyAscending(s: seq<string>) {
    forall i, j :: 0 <= i < j < |s| ==> StrLess(s[i], s[j])
  }

  /** A strictly ascending list holds no value twice. */
  lemma AscendingDistinct(s: seq<string>)
    requires StrictlyAscending(s)
    ensures forall i, j :: 0 <= i < j < |s| ==> s[i] != s[j]
  {
    forall i, j | 0 <= i < j < |s|
      ensures s[i] != s[j]
    {
      StrLessIrreflexive(s[i]);
    }
  }

  /** Add `x` to an ascending list of distinct values, unless it is already there. */
  function InsertDistinct(x: string, s: seq<string>): seq<string> {
    if s == [] then [x]
    else if x == s[0] then s
    else if StrLess(x, s[0]) then [x] + s
    else [s[0]] + InsertDistinct(x, s[1..])
  }

  lemma {:induction false} InsertDistinctMembers(x: string, s: seq<string>)
    ensures forall v :: v in InsertDistinct(x, s) <==> v == x || v in s
  {
    if s != [] && x != s[0] && !StrLess(x, s[0]) {
      InsertDistinctMembers(x, s[1..]);
      assert s == [s[0]] + s[1..];
    }
  }

  lemma {:induction false} InsertDistinctAscending(x: string, s: seq<string>)
    requires StrictlyAscending(s)
    ensures StrictlyAscending(InsertDistinct(x, s))
  {
    if s == [] || x == s[0] {
    } else if StrLess(x, s[0]) {
      var r := [x] + s;
      forall i, j | 0 <= i < j < |r|
        ensures StrLess(r[i], r[j])
      {
        if i == 0 && j > 1 {
          StrLessTransitive(x, s[0], s[j - 1]);
        }
      }
    } else {
      StrLessTotal(x, s[0]);
      var t := InsertDistinct(x, s[1..]);
      InsertDistinctAscending(x, s[1..]);
      InsertDistinctMembers(x, s[1..]);
      var r := [s[0]] + t;
      forall i, j | 0 <= i < j < |r|
        ensures StrLess(r[i], r[j])
      {
        if i == 0 {
          assert r[j] in t;
          if r[j] != x {
            assert r[j] in s[1..];
            var k :| 0 <= k < |s[1..]| && s[1..][k] == r[j];
            assert s[k + 1] == r[j];
          }
        }
      }
    }
  }

  /** `sorted(set(xs))`: the distinct values of `xs` in ascending order. */
  function SortedDistinct(xs: seq<string>): (r: seq<string>)
    ensures StrictlyAscending(r)
    ensures forall v :: v in r <==> v in xs
  {
    if xs == [] then []
    else
      var t := SortedDistinct(xs[1..]);
      InsertDistinctAscending(xs[0], t);
      InsertDistinctMembers(xs[0], t);
      assert xs == [xs[0]] + xs[1..];
      InsertDistinct(xs[0], t)
  }

  /** `series.dropna().unique()` before sorting: the non-null values of a column. */
  function Values(recs: seq<Record>, col: Column): (vs: seq<string>)
    ensures forall v :: v in vs <==> exists i :: 0 <= i < |recs| && recs[i].row.Cat(col) == Some(v)
  {
    if recs == [] then []
    else
      var rest := Values(recs[1..], col);
      assert forall i :: 1 <= i < |recs| ==> recs[1..][i - 1] == recs[i];
      match recs[0].row.Cat(col)
      case Some(v) => [v] + rest
      case None => rest
  }

  /**
   * `options(df[col])`: "All" first, then every non-null value of the
   * column once, in strictly ascending order.
   */
  function FilterOptions(recs: seq<Record>, col: Column): (r: seq<string>)
    ensures |r| >= 1 && r[0] == All
    ensures StrictlyAscending(r[1..])
    ensures forall i, j :: 1 <= i < j < |r| ==> r[i] != r[j]
    ensures forall v :: v in r[1..] <==> exists i :: 0 <= i < |recs| && recs[i].row.Cat(col) == Some(v)
  {
    var vs := SortedDistinct(Values(recs, col));
    AscendingDistinct(vs);
    assert ([All] + vs)[1..] == vs;
    [All] + vs
  }
}
