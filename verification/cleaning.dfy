/**
 * The cleaning block: nulls of every categorical column that exists become
 * "Unknown", nulls of Agent_Rating become the column's mean and nulls of
 * Agent_Age the column's median, each fill value computed from the column
 * before it is filled.
 */
module Cleaning {
  import opened Wrappers
  import opened Records
  import opened Stats

  const Unknown: string := "Unknown"

  /** `fillna("Unknown")` on one value of a column, applied only when the column exists. */
  function FillCat(present: bool, v: Option<string>): Option<string> {
    if present && v.None? then Some(Unknown) else v
  }

  /** One row as the `for col in cat_cols` loop leaves it. */
  function CleanCats(cats: set<Column>, r: Row): (c: Row)
    ensures forall col :: col in cats ==> c.Cat(col).Some?
    ensures forall col :: r.Cat(col).Some? ==> c.Cat(col) == r.Cat(col)
    ensures forall col :: col !in cats ==> c.Cat(col) == r.Cat(col)
    ensures forall col :: col in cats && r.Cat(col).None? ==> c.Cat(col) == Some(Unknown)
    ensures c.rating == r.rating && c.age == r.age && c.time == r.time
  {
    Row(FillCat(Weather in cats, r.weather),
        FillCat(Traffic in cats, r.traffic),
        FillCat(Vehicle in cats, r.vehicle),
        FillCat(Area in cats, r.area),
        FillCat(Category in cats, r.category),
        r.rating, r.age, r.time)
  }

  /** The whole table after the categorical cleaning loop. */
  function CleanCategoricals(cats: set<Column>, rows: seq<Row>): (r: seq<Row>)
    ensures |r| == |rows|
    ensures forall i, col :: 0 <= i < |rows| && col in cats ==> r[i].Cat(col).Some?
    ensures forall i, col :: 0 <= i < |rows| && col in cats && rows[i].Cat(col).None? ==> r[i].Cat(col) == Some(Unknown)
    ensures forall i, col :: 0 <= i < |rows| && (rows[i].Cat(col).Some? || col !in cats) ==> r[i].Cat(col) == rows[i].Cat(col)
    ensures forall i :: 0 <= i < |rows| ==> r[i].rating == rows[i].rating && r[i].age == rows[i].age && r[i].time == rows[i].time
  {
    seq(|rows|, i requires 0 <= i < |rows| => CleanCats(cats, rows[i]))
  }

  /** `df[col] = df[col].fillna("Unknown")` for one column. */
  function FillColumn(rows: seq<Row>, col: Column): (r: seq<Row>)
    ensures |r| == |rows|
    ensures forall i :: 0 <= i < |rows| && rows[i].Cat(col).None? ==> r[i].Cat(col) == Some(Unknown)
    ensures forall i :: 0 <= i < |rows| && rows[i].Cat(col).Some? ==> r[i].Cat(col) == rows[i].Cat(col)
    ensures forall i, c :: 0 <= i < |rows| && c != col ==> r[i].Cat(c) == rows[i].Cat(c)
    ensures forall i :: 0 <= i < |rows| ==> r[i].rating == rows[i].rating && r[i].age == rows[i].age && r[i].time == rows[i].time
  {
    seq(|rows|, i requires 0 <= i < |rows| => rows[i].WithCat(col, FillCat(true, rows[i].Cat(col))))
  }

  /**
   * The cleaning loop: visits `cat_cols` in order and fills the nulls of
   * each column the table has; absent columns are skipped.
   */
  method FillCategoricals(cats: set<Column>, rows: seq<Row>) returns (df: seq<Row>)
    ensures df == CleanCategoricals(cats, rows)
  {
    df := rows;
    for k := 0 to |CatCols|
      invariant |df| == |rows|
      invariant forall i, c :: 0 <= i < |rows| ==>
        df[i].Cat(c) == FillCat(c in cats && Index(c) < k, rows[i].Cat(c))
      invariant forall i :: 0 <= i < |rows| ==>
        df[i].rating == rows[i].rating && df[i].age == rows[i].age && df[i].time == rows[i].time
    {
      var col := CatCols[k];
      CatColsDistinct(k);
      if col in cats {
        df := FillColumn(df, col);
      }
    }
    forall i | 0 <= i < |rows|
      ensures df[i] == CleanCats(cats, rows[i])
    {
      RowsEqual(df[i], CleanCats(cats, rows[i]));
    }
  }

  // ------------------------------------------------------------ Agent_Rating

  /** The value Agent_Rating's nulls are filled with: the mean of the observed ratings. */
  function RatingFill(rows: seq<Row>): (m: Option<real>)
    ensures m.Some? <==> exists i :: 0 <= i < |rows| && rows[i].rating.Some?
  {
    ObservedEmpty(Ratings(rows));
    Mean(Observed(Ratings(rows)))
  }

  /** `df["Agent_Rating"].fillna(df["Agent_Rating"].mean())`. */
  function FillRatings(rows: seq<Row>): (r: seq<Row>)
    ensures |r| == |rows|
    ensures forall i :: 0 <= i < |rows| && rows[i].rating.Some? ==> r[i] == rows[i]
    ensures forall i :: 0 <= i < |rows| && rows[i].rating.None? ==>
      r[i] == rows[i].(rating := Mean(Observed(Ratings(rows))))
  {
    var m := RatingFill(rows);
    seq(|rows|, i requires 0 <= i < |rows| =>
      if rows[i].rating.Some? then rows[i] else rows[i].(rating := m))
  }

  /** On the column, the rating fill is `fillna` with the pre-fill mean. */
  lemma FillRatingsColumn(rows: seq<Row>)
    ensures Ratings(FillRatings(rows)) == FillNone(Ratings(rows), RatingFill(rows))
  {
  }

  /** Once one rating is observed, no row is left without a rating. */
  lemma FillRatingsComplete(rows: seq<Row>)
    requires exists i :: 0 <= i < |rows| && rows[i].rating.Some?
    ensures forall i :: 0 <= i < |rows| ==> FillRatings(rows)[i].rating.Some?
  {
    var i :| 0 <= i < |rows| && rows[i].rating.Some?;
    ObservedEmpty(Ratings(rows));
    assert Ratings(rows)[i].Some?;
  }

  /** Filling with the mean does not move the mean. */
  lemma FillRatingsKeepsMean(rows: seq<Row>)
    ensures RatingFill(FillRatings(rows)) == RatingFill(rows)
  {
    FillRatingsColumn(rows);
    FillWithMeanKeepsMean(Ratings(rows));
  }

  /** Every filled rating lies in any range that holds all observed ratings. */
  lemma FillRatingsInRange(rows: seq<Row>, lo: real, hi: real)
    requires forall i :: 0 <= i < |rows| && rows[i].rating.Some? ==> lo <= rows[i].rating.value <= hi
    ensures forall i :: 0 <= i < |rows| && FillRatings(rows)[i].rating.Some? ==>
      lo <= FillRatings(rows)[i].rating.value <= hi
  {
    var obs := Observed(Ratings(rows));
    if obs != [] {
      ObservedWithin(Ratings(rows), lo, hi);
      MeanBetween(obs, lo, hi);
    }
  }

  /** Filling twice is filling once. */
  lemma FillRatingsIdempotent(rows: seq<Row>)
    ensures FillRatings(FillRatings(rows)) == FillRatings(rows)
  {
    var once := FillRatings(rows);
    if exists i :: 0 <= i < |rows| && rows[i].rating.Some? {
      FillRatingsComplete(rows);
    } else {
      ObservedEmpty(Ratings(rows));
      assert RatingFill(rows) == None;
      assert once == rows;
    }
  }

  // --------------------------------------------------------------- Agent_Age

  /** The value Agent_Age's nulls are filled with: the median of the observed ages. */
  function AgeFill(rows: seq<Row>): (m: Option<real>)
    ensures m.Some? <==> exists i :: 0 <= i < |rows| && rows[i].age.Some?
  {
    ObservedEmpty(Ages(rows));
    Median(Observed(Ages(rows)))
  }

  /** `df["Agent_Age"].fillna(df["Agent_Age"].median())`. */
  function FillAges(rows: seq<Row>): (r: seq<Row>)
    ensures |r| == |rows|
    ensures forall i :: 0 <= i < |rows| && rows[i].age.Some? ==> r[i] == rows[i]
    ensures forall i :: 0 <= i < |rows| && rows[i].age.None? ==>
      r[i] == rows[i].(age := Median(Observed(Ages(rows))))
  {
    var m := AgeFill(rows);
    seq(|rows|, i requires 0 <= i < |rows| =>
      if rows[i].age.Some? then rows[i] else rows[i].(age := m))
  }

  /** Once one age is observed, no row is left without an age. */
  lemma FillAgesComplete(rows: seq<Row>)
    requires exists i :: 0 <= i < |rows| && rows[i].age.Some?
    ensures forall i :: 0 <= i < |rows| ==> FillAges(rows)[i].age.Some?
  {
    var i :| 0 <= i < |rows| && rows[i].age.Some?;
    ObservedEmpty(Ages(rows));
    assert Ages(rows)[i].Some?;
  }

  /**
   * The age fill value is a median of the observed ages: at most half of
   * them lie below it, at most half above it.
   */
  lemma AgeFillIsMedian(rows: seq<Row>)
    requires exists i :: 0 <= i < |rows| && rows[i].age.Some?
    ensures AgeFill(rows).Some?
    ensures CountBelow(Observed(Ages(rows)), AgeFill(rows).value) <= |Observed(Ages(rows))| / 2
    ensures CountAbove(Observed(Ages(rows)), AgeFill(rows).value) <= |Observed(Ages(rows))| / 2
  {
    var i :| 0 <= i < |rows| && rows[i].age.Some?;
    ObservedEmpty(Ages(rows));
    assert Ages(rows)[i].Some?;
    MedianBalanced(Observed(Ages(rows)));
  }

  /** Every filled age lies in any range that holds all observed ages. */
  lemma FillAgesInRange(rows: seq<Row>, lo: real, hi: real)
    requires forall i :: 0 <= i < |rows| && rows[i].age.Some? ==> lo <= rows[i].age.value <= hi
    ensures forall i :: 0 <= i < |rows| && FillAges(rows)[i].age.Some? ==>
      lo <= FillAges(rows)[i].age.value <= hi
  {
    var obs := Observed(Ages(rows));
    if obs != [] {
      ObservedWithin(Ages(rows), lo, hi);
      MedianWithinRange(obs);
      var m := Median(obs).value;
      assert lo <= m <= hi;
      forall i | 0 <= i < |rows| && FillAges(rows)[i].age.Some?
        ensures lo <= FillAges(rows)[i].age.value <= hi
      {
        if rows[i].age.None? {
          assert FillAges(rows)[i].age == Some(m);
        }
      }
    }
  }

  /** Filling twice is filling once. */
  lemma FillAgesIdempotent(rows: seq<Row>)
    ensures FillAges(FillAges(rows)) == FillAges(rows)
  {
    var once := FillAges(rows);
    if exists i :: 0 <= i < |rows| && rows[i].age.Some? {
      FillAgesComplete(rows);
    } else {
      ObservedEmpty(Ages(rows));
      assert AgeFill(rows) == None;
      assert once == rows;
    }
  }

  /** The two numeric fills touch different columns, so their order does not matter. */
  lemma FillsIndependent(rows: seq<Row>)
    ensures FillAges(FillRatings(rows)) == FillRatings(FillAges(rows))
  {
    assert Ages(FillRatings(rows)) == Ages(rows);
    assert Ratings(FillAges(rows)) == Ratings(rows);
  }

  // ----------------------------------------------------------- whole block

  /** Two rows that agree on every column except the two numeric fills. */
  predicate SameExceptFills(a: Row, b: Row) {
    a.weather == b.weather && a.traffic == b.traffic && a.vehicle == b.vehicle &&
    a.area == b.area && a.category == b.category && a.time == b.time
  }

  lemma SameExceptFillsCats(a: Row, b: Row)
    requires SameExceptFills(a, b)
    ensures forall col :: a.Cat(col) == b.Cat(col)
  {
  }

  lemma NumericFillsKeepOthers(rows: seq<Row>, i: nat)
    requires i < |rows|
    ensures SameExceptFills(FillRatings(rows)[i], rows[i])
    ensures SameExceptFills(FillAges(rows)[i], rows[i])
  {
  }

  /** The table after lines 89-98: categorical, rating and age fills, in that order. */
  function Cleaned(schema: Schema, raw: seq<Row>): (rows: seq<Row>)
    ensures |rows| == |raw|
  {
    var c := CleanCategoricals(schema.cats, raw);
    var r := if schema.hasRating then FillRatings(c) else c;
    if schema.hasAge then FillAges(r) else r
  }

  /**
   * Cleaning as seen from one categorical column: present columns lose
   * their nulls to "Unknown", observed values and absent columns are kept,
   * and Delivery_Time is never touched.
   */
  lemma CleanedCategoricals(schema: Schema, raw: seq<Row>, i: nat)
    requires i < |raw|
    ensures Cleaned(schema, raw)[i].time == raw[i].time
    ensures forall col :: col in schema.cats ==> Cleaned(schema, raw)[i].Cat(col).Some?
    ensures forall col :: col !in schema.cats || raw[i].Cat(col).Some? ==>
      Cleaned(schema, raw)[i].Cat(col) == raw[i].Cat(col)
    ensures forall col :: col in schema.cats && raw[i].Cat(col).None? ==>
      Cleaned(schema, raw)[i].Cat(col) == Some(Unknown)
  {
    var c := CleanCategoricals(schema.cats, raw);
    var r := if schema.hasRating then FillRatings(c) else c;
    var a := if schema.hasAge then FillAges(r) else r;
    NumericFillsKeepOthers(c, i);
    if schema.hasRating { assert SameExceptFills(r[i], c[i]); }
    NumericFillsKeepOthers(r, i);
    if schema.hasAge { assert SameExceptFills(a[i], r[i]); }
    assert Cleaned(schema, raw)[i] == a[i];
    assert c[i] == CleanCats(schema.cats, raw[i]);
    SameExceptFillsCats(a[i], c[i]);
  }

  /** The rating fill uses the mean of the raw column: categorical cleaning does not touch ratings. */
  lemma CleanedRatings(schema: Schema, raw: seq<Row>, i: nat)
    requires i < |raw|
    ensures Cleaned(schema, raw)[i].rating ==
      if schema.hasRating && raw[i].rating.None? then RatingFill(raw) else raw[i].rating
  {
    var c := CleanCategoricals(schema.cats, raw);
    assert Ratings(c) == Ratings(raw);
    var r := if schema.hasRating then FillRatings(c) else c;
    var a := if schema.hasAge then FillAges(r) else r;
    assert a[i].rating == r[i].rating;
  }

  /** The age fill uses the median of the raw column: neither earlier fill touches ages. */
  lemma CleanedAges(schema: Schema, raw: seq<Row>, i: nat)
    requires i < |raw|
    ensures Cleaned(schema, raw)[i].age ==
      if schema.hasAge && raw[i].age.None? then AgeFill(raw) else raw[i].age
  {
    var c := CleanCategoricals(schema.cats, raw);
    assert Ages(c) == Ages(raw);
    var r := if schema.hasRating then FillRatings(c) else c;
    assert Ages(r) == Ages(raw);
  }
}
