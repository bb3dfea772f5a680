/**
 * Derived features (lines 100-110): the lateness flag against a threshold
 * fixed once over the full cleaned table, the share of late deliveries,
 * and the agent age bucket.
 */
module Features {
  import opened Wrappers
  import opened Records
  import opened Stats
  import opened Cleaning

  /**
   * `age_group`: below 25, 25 to 40 inclusive, above 40. A NaN age fails
   * both comparisons and falls through to "40+".
   */
  function AgeGroup(age: Option<real>): (g: string)
    ensures g == "<25" || g == "25-40" || g == "40+"
    ensures g == "<25" <==> age.Some? && age.value < 25.0
    ensures g == "25-40" <==> age.Some? && 25.0 <= age.value <= 40.0
    ensures g == "40+" <==> age.None? || age.value > 40.0
  {
    if age.Some? && age.value < 25.0 then "<25"
    else if age.Some? && age.value <= 40.0 then "25-40"
    else "40+"
  }

  /** The boundary ages. */
  lemma AgeGroupBoundaries()
    ensures AgeGroup(Some(24.0)) == "<25"
    ensures AgeGroup(Some(25.0)) == "25-40"
    ensures AgeGroup(Some(40.0)) == "25-40"
    ensures AgeGroup(Some(41.0)) == "40+"
  {
  }

  /** `avg_delivery_time + std_delivery_time`; NaN when either is NaN. */
  function Threshold(avg: Option<real>, std: Option<real>): (th: Option<real>)
    ensures th.Some? <==> avg.Some? && std.Some?
    ensures th.Some? && std.value >= 0.0 ==> th.value >= avg.value
  {
    if avg.Some? && std.Some? then Some(avg.value + std.value) else None
  }

  /** `Delivery_Time > threshold`; a comparison with NaN is false. */
  predicate IsLate(time: real, threshold: Option<real>)
    ensures threshold.None? ==> !IsLate(time, threshold)
  {
    threshold.Some? && time > threshold.value
  }

  /** The `Is_Late` column as numbers, the way `mean` reads booleans. */
  function LateIndicators(recs: seq<Record>): (xs: seq<real>)
    ensures |xs| == |recs|
  {
    seq(|recs|, i requires 0 <= i < |recs| => if recs[i].isLate then 1.0 else 0.0)
  }

  /** `df["Is_Late"].mean() * 100`; NaN for an empty table. */
  function LatePercentage(recs: seq<Record>): (p: Option<real>)
    ensures p.Some? <==> |recs| > 0
  {
    var m := Mean(LateIndicators(recs));
    if m.Some? then Some(m.value * 100.0) else None
  }

  lemma {:induction false} SumLateIndicators(recs: seq<Record>)
    ensures Sum(LateIndicators(recs)) == CountLate(recs) as real
  {
    if recs != [] {
      SumLateIndicators(recs[1..]);
      assert LateIndicators(recs)[1..] == LateIndicators(recs[1..]);
    }
  }

  lemma LateMean(recs: seq<Record>)
    requires |recs| > 0
    ensures Mean(LateIndicators(recs)).value == Share(CountLate(recs), |recs|)
  {
    SumLateIndicators(recs);
  }

  /** The late percentage is 100 times the share of late rows, so it lies in [0, 100]. */
  lemma LatePercentageIsShare(recs: seq<Record>)
    ensures LatePercentage(recs).Some? <==> |recs| > 0
    ensures |recs| > 0 ==> LatePercentage(recs).value == 100.0 * Share(CountLate(recs), |recs|)
    ensures |recs| > 0 ==> 0.0 <= LatePercentage(recs).value <= 100.0
  {
    if |recs| > 0 {
      LateMean(recs);
    }
  }

  /** The table and the scalars built once per run from the loaded file. */
  datatype Context = Context(
    records: seq<Record>,
    avgTime: Option<real>,
    threshold: Option<real>,
    latePercentage: Option<real>)

  /** A `KeyError` on a column the script reads but the file lacks. */
  datatype PipelineError = MissingColumn(name: string)

  /**
   * Lines 89-110 as a function of the loaded rows. `std` is what pandas'
   * `std` returns for the Delivery_Time column.
   */
  function DeriveSpec(schema: Schema, raw: seq<Row>, std: Option<real>): (r: Result<Context, PipelineError>)
    requires schema.hasTime ==> IsSampleStdDev(Times(raw), std)
    ensures r.Err? <==> !schema.hasTime || !schema.hasAge
    ensures r.Ok? ==> |r.value.records| == |raw|
  {
    if !schema.hasTime then Err(MissingColumn("Delivery_Time"))
    else
      var rows := Cleaned(schema, raw);
      var avg := Mean(Times(rows));
      var th := Threshold(avg, std);
      if !schema.hasAge then Err(MissingColumn("Agent_Age"))
      else
        var recs := seq(|rows|, i requires 0 <= i < |rows| =>
          Record(rows[i], IsLate(rows[i].time, th), AgeGroup(rows[i].age)));
        Ok(Context(recs, avg, th, LatePercentage(recs)))
  }

  /**
   * The script's cleaning and feature block, step by step: categorical
   * loop, rating fill, age fill, statistics, flags and buckets.
   */
  method Derive(schema: Schema, raw: seq<Row>, std: Option<real>) returns (res: Result<Context, PipelineError>)
    requires schema.hasTime ==> IsSampleStdDev(Times(raw), std)
    ensures res == DeriveSpec(schema, raw, std)
  {
    var df := FillCategoricals(schema.cats, raw);
    if schema.hasRating {
      df := FillRatings(df);
    }
    if schema.hasAge {
      df := FillAges(df);
    }
    if !schema.hasTime {
      return Err(MissingColumn("Delivery_Time"));
    }
    var avg := Mean(Times(df));
    var th := Threshold(avg, std);
    if !schema.hasAge {
      return Err(MissingColumn("Agent_Age"));
    }
    var recs := seq(|df|, i requires 0 <= i < |df| =>
      Record(df[i], IsLate(df[i].time, th), AgeGroup(df[i].age)));
    var late := LatePercentage(recs);
    res := Ok(Context(recs, avg, th, late));
  }

  /** Every derived record holds the cleaned row at its position. */
  lemma DerivedRows(schema: Schema, raw: seq<Row>, std: Option<real>, i: nat)
    requires schema.hasTime ==> IsSampleStdDev(Times(raw), std)
    requires DeriveSpec(schema, raw, std).Ok? && i < |raw|
    ensures DeriveSpec(schema, raw, std).value.records[i].row == Cleaned(schema, raw)[i]
    ensures DeriveSpec(schema, raw, std).value.records[i].ageGroup ==
      AgeGroup(if raw[i].age.None? then AgeFill(raw) else raw[i].age)
  {
    CleanedAges(schema, raw, i);
  }

  /**
   * The threshold is the mean plus the standard deviation of the raw
   * Delivery_Time column, and a record is late exactly when its time is
   * above it.
   */
  lemma DerivedLateness(schema: Schema, raw: seq<Row>, std: Option<real>)
    requires schema.hasTime ==> IsSampleStdDev(Times(raw), std)
    requires DeriveSpec(schema, raw, std).Ok?
    ensures DeriveSpec(schema, raw, std).value.avgTime == Mean(Times(raw))
    ensures DeriveSpec(schema, raw, std).value.threshold == Threshold(Mean(Times(raw)), std)
    ensures forall i :: 0 <= i < |raw| ==>
      (DeriveSpec(schema, raw, std).value.records[i].isLate <==>
       IsLate(raw[i].time, Threshold(Mean(Times(raw)), std)))
  {
    var rows := Cleaned(schema, raw);
    forall i | 0 <= i < |raw|
      ensures rows[i].time == raw[i].time
    {
      CleanedCategoricals(schema, raw, i);
    }
    assert Times(rows) == Times(raw);
  }

  /** The late percentage is 100 x late rows / all rows of the full table. */
  lemma DerivedLatePercentage(schema: Schema, raw: seq<Row>, std: Option<real>)
    requires schema.hasTime ==> IsSampleStdDev(Times(raw), std)
    requires DeriveSpec(schema, raw, std).Ok?
    ensures DeriveSpec(schema, raw, std).value.latePercentage.Some? <==> |raw| > 0
    ensures |raw| > 0 ==>
      var ctx := DeriveSpec(schema, raw, std).value;
      ctx.latePercentage.value == 100.0 * Share(CountLate(ctx.records), |raw|)
  {
    var ctx := DeriveSpec(schema, raw, std).value;
    LatePercentageIsShare(ctx.records);
  }

  /** With fewer than two rows `std` is NaN, the threshold is NaN and nothing is late. */
  lemma NothingLateWithoutStd(schema: Schema, raw: seq<Row>, std: Option<real>)
    requires schema.hasTime ==> IsSampleStdDev(Times(raw), std)
    requires DeriveSpec(schema, raw, std).Ok? && |raw| < 2
    ensures forall i :: 0 <= i < |raw| ==> !DeriveSpec(schema, raw, std).value.records[i].isLate
  {
    DerivedLateness(schema, raw, std);
  }

  /** The statistics of the delivery times 10, 20, 30, 100. */
  lemma ExampleStatistics(ts: seq<real>)
    requires ts == [10.0, 20.0, 30.0, 100.0]
    ensures Mean(ts) == Some(40.0)
    ensures SampleVariance(ts) == 5000.0 / 3.0
  {
    assert ts[3..] == [100.0] && ts[2..] == [30.0, 100.0] && ts[1..] == [20.0, 30.0, 100.0];
    assert Sum(ts[3..]) == 100.0;
    assert Sum(ts[2..]) == 130.0;
    assert Sum(ts[1..]) == 150.0;
    assert Sum(ts) == 160.0;
    assert SumSqDev([100.0], 40.0) == 3600.0;
    assert SumSqDev(ts[2..], 40.0) == 100.0 + 3600.0;
    assert SumSqDev(ts[1..], 40.0) == 400.0 + 3700.0;
  }

  /** sqrt(5000 / 3) is below 60. */
  lemma ExampleStdBound(s: real)
    requires s >= 0.0 && s * s == 5000.0 / 3.0
    ensures s < 60.0
  {
    if s >= 60.0 {
      assert false;
    }
  }

  lemma CountOneLate(recs: seq<Record>)
    requires |recs| == 4
    requires !recs[0].isLate && !recs[1].isLate && !recs[2].isLate && recs[3].isLate
    ensures CountLate(recs) == 1
  {
    assert recs[3..][1..] == [];
    assert CountLate(recs[3..]) == 1;
    assert recs[2..][1..] == recs[3..];
    assert CountLate(recs[2..]) == 1;
    assert recs[1..][1..] == recs[2..];
    assert CountLate(recs[1..]) == 1;
  }

  /**
   * Delivery times 10, 20, 30, 100: the mean is 40 and the sample
   * standard deviation is sqrt(5000 / 3), about 40.8, so only the
   * 100-minute delivery is late.
   */
  lemma ThresholdExample(schema: Schema, raw: seq<Row>, std: Option<real>)
    requires schema.hasTime && schema.hasAge
    requires Times(raw) == [10.0, 20.0, 30.0, 100.0]
    requires IsSampleStdDev(Times(raw), std)
    ensures DeriveSpec(schema, raw, std).Ok?
    ensures var recs := DeriveSpec(schema, raw, std).value.records;
      !recs[0].isLate && !recs[1].isLate && !recs[2].isLate && recs[3].isLate
  {
    ExampleStatistics(Times(raw));
    ExampleStdBound(std.value);
    DerivedLateness(schema, raw, std);
    var th := Threshold(Mean(Times(raw)), std);
    assert 40.0 <= th.value < 100.0;
    assert raw[0].time == 10.0 && raw[1].time == 20.0 && raw[2].time == 30.0 && raw[3].time == 100.0;
  }

  /** In the same example one delivery in four is late: 25 percent. */
  lemma LatePercentageExample(schema: Schema, raw: seq<Row>, std: Option<real>)
    requires schema.hasTime && schema.hasAge
    requires Times(raw) == [10.0, 20.0, 30.0, 100.0]
    requires IsSampleStdDev(Times(raw), std)
    ensures DeriveSpec(schema, raw, std).Ok?
    ensures DeriveSpec(schema, raw, std).value.latePercentage == Some(25.0)
  {
    ThresholdExample(schema, raw, std);
    var recs := DeriveSpec(schema, raw, std).value.records;
    CountOneLate(recs);
    LatePercentageIsShare(recs);
    assert Share(1, 4) == 0.25;
  }
}
