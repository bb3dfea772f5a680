/**
 * One run of the script over a loaded table: derive the features, build the
 * five option lists, apply the sidebar selections and aggregate the
 * filtered rows for the KPI cards and the charts.
 */
module Dashboard {
  import opened Wrappers
  import opened Records
  import opened Stats
  import opened Cleaning
  import opened Features
  import opened Options
  import opened Filters
  import opened Aggregate

  /** What a run puts on the page, apart from rendering. */
  datatype View = View(
    options: seq<seq<string>>,
    filtered: seq<Record>,
    avgTime: Option<real>,
    latePercentage: Option<real>,
    shown: nat,
    byWeatherTraffic: map<(string, string), real>,
    byVehicle: map<string, real>,
    byArea: map<string, real>,
    lateByWeather: map<string, real>)

  /** The first categorical column, in sidebar order, that the table lacks. */
  function FirstMissing(cats: set<Column>): (m: Option<Column>)
    ensures m.None? <==> forall col :: col in cats
    ensures m.Some? ==> m.value !in cats && forall j :: 0 <= j < Index(m.value) ==> CatCols[j] in cats
  {
    if Weather !in cats then Some(Weather)
    else if Traffic !in cats then Some(Traffic)
    else if Vehicle !in cats then Some(Vehicle)
    else if Area !in cats then Some(Area)
    else if Category !in cats then Some(Category)
    else
      assert forall col :: col in cats by {
        forall col ensures col in cats { assert col == CatCols[Index(col)]; }
      }
      None
  }

  /**
   * Lines 120-124: the five option lists in sidebar order, or the `KeyError`
   * of the first categorical column the table lacks.
   */
  function OptionLists(cats: set<Column>, recs: seq<Record>): (r: Result<seq<seq<string>>, PipelineError>)
    ensures r.Err? <==> exists col :: col !in cats
    ensures r.Err? ==> exists k ::
      && 0 <= k < |CatCols| && CatCols[k] !in cats && r.error == MissingColumn(ColumnName(CatCols[k]))
      && (forall j :: 0 <= j < k ==> CatCols[j] in cats)
    ensures r.Ok? ==> |r.value| == |CatCols|
    ensures r.Ok? ==> forall k :: 0 <= k < |CatCols| ==> |r.value[k]| >= 1 && r.value[k][0] == All
  {
    var missing := FirstMissing(cats);
    if missing.Some? then
      assert CatCols[Index(missing.value)] == missing.value;
      Err(MissingColumn(ColumnName(missing.value)))
    else Ok(seq(|CatCols|, k requires 0 <= k < |CatCols| => FilterOptions(recs, CatCols[k])))
  }

  /** The five `options` calls, one column at a time. */
  method BuildOptions(cats: set<Column>, recs: seq<Record>) returns (r: Result<seq<seq<string>>, PipelineError>)
    ensures r == OptionLists(cats, recs)
  {
    var opts: seq<seq<string>> := [];
    for k := 0 to |CatCols|
      invariant |opts| == k
      invariant forall j :: 0 <= j < k ==> CatCols[j] in cats && opts[j] == FilterOptions(recs, CatCols[j])
    {
      var col := CatCols[k];
      if col !in cats {
        FirstMissingAt(cats, k);
        return Err(MissingColumn(ColumnName(col)));
      }
      opts := opts + [FilterOptions(recs, col)];
    }
    assert forall col :: col in cats by {
      forall col ensures col in cats { assert col == CatCols[Index(col)]; }
    }
    assert opts == seq(|CatCols|, k requires 0 <= k < |CatCols| => FilterOptions(recs, CatCols[k]));
    r := Ok(opts);
  }

  /** The first absent column is the one at position k when all before it are present. */
  lemma FirstMissingAt(cats: set<Column>, k: nat)
    requires k < |CatCols| && CatCols[k] !in cats
    requires forall j :: 0 <= j < k ==> CatCols[j] in cats
    ensures FirstMissing(cats) == Some(CatCols[k])
  {
    var m := FirstMissing(cats).value;
    CatColsDistinct(k);
    assert CatCols[Index(m)] == m;
  }

  /** The page for one derived table, its option lists and the selections. */
  function ViewOf(ctx: Context, opts: seq<seq<string>>, sel: Selection): (v: View)
    ensures v.shown == |v.filtered| <= |ctx.records|
    ensures forall i :: 0 <= i < |v.filtered| ==> v.filtered[i] in ctx.records && Selected(v.filtered[i], sel)
    ensures v.avgTime == ctx.avgTime && v.latePercentage == ctx.latePercentage
  {
    var f := KeepSelected(ctx.records, sel);
    View(opts, f, ctx.avgTime, ctx.latePercentage, |f|,
      MeanTimeByWeatherTraffic(f), MeanTimeByVehicle(f), MeanTimeByArea(f), LateRateByWeather(f))
  }

  /** A run as a function of the loaded rows, the standard deviation and the selections. */
  function DashboardSpec(schema: Schema, raw: seq<Row>, std: Option<real>, sel: Selection): (r: Result<View, PipelineError>)
    requires schema.hasTime ==> IsSampleStdDev(Times(raw), std)
    ensures r.Err? <==> !schema.hasTime || !schema.hasAge || exists col :: col !in schema.cats
    ensures r.Ok? ==> |r.value.options| == |CatCols| && r.value.shown == |r.value.filtered| <= |raw|
    ensures r.Ok? ==> forall k :: 0 <= k < |CatCols| ==> |r.value.options[k]| >= 1 && r.value.options[k][0] == All
  {
    var d := DeriveSpec(schema, raw, std);
    if d.Err? then Err(d.error)
    else
      var opts := OptionLists(schema.cats, d.value.records);
      if opts.Err? then Err(opts.error)
      else Ok(ViewOf(d.value, opts.value, sel))
  }

  /**
   * Lines 89-131 and the group-bys of lines 169-198, in order: features,
   * then the five option lists, then the filter chain and the aggregations.
   */
  method RunDashboard(schema: Schema, raw: seq<Row>, std: Option<real>, sel: Selection)
    returns (res: Result<View, PipelineError>)
    requires schema.hasTime ==> IsSampleStdDev(Times(raw), std)
    ensures res == DashboardSpec(schema, raw, std, sel)
  {
    var derived := Derive(schema, raw, std);
    if derived.Err? {
      return Err(derived.error);
    }
    var ctx := derived.value;
    var opts := BuildOptions(schema.cats, ctx.records);
    if opts.Err? {
      return Err(opts.error);
    }
    var filtered := ApplyFilters(ctx.records, sel);
    res := Ok(View(opts.value, filtered, ctx.avgTime, ctx.latePercentage, |filtered|,
      MeanTimeByWeatherTraffic(filtered), MeanTimeByVehicle(filtered),
      MeanTimeByArea(filtered), LateRateByWeather(filtered)));
  }

  // ------------------------------------------------------------ properties

  /** A filtered record is a derived record of the full table. */
  lemma FilteredFromFull(ctx: Context, sel: Selection, r: Record)
    requires r in KeepSelected(ctx.records, sel)
    ensures exists i :: 0 <= i < |ctx.records| && ctx.records[i] == r
  {
    WhereMembers(ctx.records, FirstBy(sel, |CatCols|));
  }

  /**
   * The late flag of a filtered row is the one computed over the full table:
   * its time is above the full table's mean plus standard deviation.
   */
  lemma LatenessSurvivesFiltering(schema: Schema, raw: seq<Row>, std: Option<real>, sel: Selection)
    requires schema.hasTime ==> IsSampleStdDev(Times(raw), std)
    requires schema.hasTime && schema.hasAge && forall col :: col in schema.cats
    ensures forall r :: r in DashboardSpec(schema, raw, std, sel).value.filtered ==>
      (r.isLate <==> IsLate(r.row.time, Threshold(Mean(Times(raw)), std)))
  {
    var ctx := DeriveSpec(schema, raw, std).value;
    DerivedLateness(schema, raw, std);
    forall r | r in DashboardSpec(schema, raw, std, sel).value.filtered
      ensures r.isLate <==> IsLate(r.row.time, Threshold(Mean(Times(raw)), std))
    {
      FilteredFromFull(ctx, sel, r);
      var i :| 0 <= i < |ctx.records| && ctx.records[i] == r;
      DerivedRows(schema, raw, std, i);
      CleanedCategoricals(schema, raw, i);
    }
  }

  /** The late-percentage card shows 100 x late rows / all rows of the unfiltered table, whatever the selections. */
  lemma LatePercentageIgnoresSelection(schema: Schema, raw: seq<Row>, std: Option<real>, sel: Selection)
    requires schema.hasTime ==> IsSampleStdDev(Times(raw), std)
    requires schema.hasTime && schema.hasAge && forall col :: col in schema.cats
    ensures var v := DashboardSpec(schema, raw, std, sel).value;
      && (v.latePercentage.Some? <==> |raw| > 0)
      && (|raw| > 0 ==>
            v.latePercentage.value == 100.0 * Share(CountLate(DeriveSpec(schema, raw, std).value.records), |raw|))
  {
    DerivedLatePercentage(schema, raw, std);
  }

  /** With every selection at "All" the filtered table is the derived table and the count card shows every row. */
  lemma AllSelectionsShowEverything(schema: Schema, raw: seq<Row>, std: Option<real>)
    requires schema.hasTime ==> IsSampleStdDev(Times(raw), std)
    requires schema.hasTime && schema.hasAge && forall col :: col in schema.cats
    ensures DashboardSpec(schema, raw, std, AllSelected).value.filtered == DeriveSpec(schema, raw, std).value.records
    ensures DashboardSpec(schema, raw, std, AllSelected).value.shown == |raw|
  {
    AllSelectionsKeepEverything(DeriveSpec(schema, raw, std).value.records);
  }

  /**
   * Each option list is "All" then the sorted distinct values of the cleaned
   * column, so a null in the loaded column shows up as "Unknown".
   */
  lemma OptionsOfCleanedColumn(schema: Schema, raw: seq<Row>, std: Option<real>, sel: Selection, k: nat)
    requires schema.hasTime ==> IsSampleStdDev(Times(raw), std)
    requires schema.hasTime && schema.hasAge && forall col :: col in schema.cats
    requires k < |CatCols|
    ensures var o := DashboardSpec(schema, raw, std, sel).value.options[k];
      && o[0] == All
      && StrictlyAscending(o[1..])
      && (forall v :: v in o[1..] <==> exists i :: 0 <= i < |raw| && Cleaned(schema, raw)[i].Cat(CatCols[k]) == Some(v))
      && ((exists i :: 0 <= i < |raw| && raw[i].Cat(CatCols[k]).None?) ==> Unknown in o[1..])
  {
    DashboardOptions(schema, raw, std, sel, k);
    OptionsOfDerivedColumn(schema, raw, std, CatCols[k]);
  }

  /** The k-th option list of a run is `options` of the k-th column of the derived table. */
  lemma DashboardOptions(schema: Schema, raw: seq<Row>, std: Option<real>, sel: Selection, k: nat)
    requires schema.hasTime ==> IsSampleStdDev(Times(raw), std)
    requires schema.hasTime && schema.hasAge && forall col :: col in schema.cats
    requires k < |CatCols|
    ensures DashboardSpec(schema, raw, std, sel).value.options[k]
         == FilterOptions(DeriveSpec(schema, raw, std).value.records, CatCols[k])
  {
    var d := DeriveSpec(schema, raw, std);
    assert d.Ok?;
    var opts := OptionLists(schema.cats, d.value.records);
    assert opts.Ok?;
    assert DashboardSpec(schema, raw, std, sel) == Ok(ViewOf(d.value, opts.value, sel));
  }

  /** The option list of a derived column lists the cleaned values, "Unknown" included when a raw value was null. */
  lemma OptionsOfDerivedColumn(schema: Schema, raw: seq<Row>, std: Option<real>, col: Column)
    requires schema.hasTime ==> IsSampleStdDev(Times(raw), std)
    requires schema.hasTime && schema.hasAge && col in schema.cats
    ensures var o := FilterOptions(DeriveSpec(schema, raw, std).value.records, col);
      && (forall v :: v in o[1..] <==> exists i :: 0 <= i < |raw| && Cleaned(schema, raw)[i].Cat(col) == Some(v))
      && ((exists i :: 0 <= i < |raw| && raw[i].Cat(col).None?) ==> Unknown in o[1..])
  {
    var recs := DeriveSpec(schema, raw, std).value.records;
    var rows := Cleaned(schema, raw);
    var o := FilterOptions(recs, col);
    forall i | 0 <= i < |raw|
      ensures recs[i].row == rows[i]
    {
      DerivedRows(schema, raw, std, i);
    }
    forall v
      ensures v in o[1..] <==> exists i :: 0 <= i < |raw| && rows[i].Cat(col) == Some(v)
    {
      if v in o[1..] {
        var i :| 0 <= i < |recs| && recs[i].row.Cat(col) == Some(v);
        assert rows[i].Cat(col) == Some(v);
      }
      if exists i :: 0 <= i < |raw| && rows[i].Cat(col) == Some(v) {
        var i :| 0 <= i < |raw| && rows[i].Cat(col) == Some(v);
        assert recs[i].row.Cat(col) == Some(v);
      }
    }
    if exists i :: 0 <= i < |raw| && raw[i].Cat(col).None? {
      var i :| 0 <= i < |raw| && raw[i].Cat(col).None?;
      CleanedCategoricals(schema, raw, i);
      assert rows[i].Cat(col) == Some(Unknown);
    }
  }

  /** A chosen value narrows every chart keyed by its column to that one value. */
  lemma SelectionNarrowsGroups(ctx: Context, sel: Selection)
    ensures var f := KeepSelected(ctx.records, sel);
      && (sel.vehicle != All ==> forall x :: x in MeanTimeByVehicle(f) ==> x == sel.vehicle)
      && (sel.area != All ==> forall x :: x in MeanTimeByArea(f) ==> x == sel.area)
      && (sel.weather != All ==> forall x :: x in LateRateByWeather(f) ==> x == sel.weather)
      && (forall w, t :: (w, t) in MeanTimeByWeatherTraffic(f) ==>
            (sel.weather != All ==> w == sel.weather) && (sel.traffic != All ==> t == sel.traffic))
  {
    var f := KeepSelected(ctx.records, sel);
    if sel.vehicle != All {
      KeysMatchSelection(ctx.records, sel, Vehicle);
      GroupKeysNarrowed(f, Vehicle, sel.vehicle);
    }
    if sel.area != All {
      KeysMatchSelection(ctx.records, sel, Area);
      GroupKeysNarrowed(f, Area, sel.area);
    }
    if sel.weather != All {
      KeysMatchSelection(ctx.records, sel, Weather);
      GroupKeysNarrowed(f, Weather, sel.weather);
    }
    PairGroupsNarrowed(ctx.records, sel);
  }

  /** Chosen weather and traffic values are the only parts of the delay chart's pair keys. */
  lemma PairGroupsNarrowed(recs: seq<Record>, sel: Selection)
    ensures forall w, t :: (w, t) in MeanTimeByWeatherTraffic(KeepSelected(recs, sel)) ==>
      (sel.weather != All ==> w == sel.weather) && (sel.traffic != All ==> t == sel.traffic)
  {
    var f := KeepSelected(recs, sel);
    KeysMatchSelection(recs, sel, Weather);
    KeysMatchSelection(recs, sel, Traffic);
    forall w, t | (w, t) in MeanTimeByWeatherTraffic(f)
      ensures (sel.weather != All ==> w == sel.weather) && (sel.traffic != All ==> t == sel.traffic)
    {
      var i :| 0 <= i < |f| && f[i].row.weather == Some(w) && f[i].row.traffic == Some(t);
      assert f[i].row.Cat(Weather) == Some(w) && f[i].row.Cat(Traffic) == Some(t);
    }
  }

  /** When every value of a column is `s`, the only group keyed by that column is `s`. */
  lemma GroupKeysNarrowed(f: seq<Record>, col: Column, s: string)
    requires forall i, v :: 0 <= i < |f| && f[i].row.Cat(col) == Some(v) ==> v == s
    ensures forall x :: x in MeanTimeBy(f, CatKey(col)) ==> x == s
    ensures col == Weather ==> forall x :: x in LateRateByWeather(f) ==> x == s
  {
    forall x | x in Keys(f, CatKey(col)) ensures x == s {
      var i :| 0 <= i < |f| && CatKey(col)(f[i]) == Some(x);
    }
  }

  /** Every value a filtered row holds in a selected column is the selection. */
  lemma KeysMatchSelection(recs: seq<Record>, sel: Selection, col: Column)
    ensures var f := KeepSelected(recs, sel);
      sel.Get(col) != All ==> forall i, v :: 0 <= i < |f| && f[i].row.Cat(col) == Some(v) ==> v == sel.Get(col)
  {
    var f := KeepSelected(recs, sel);
    KeptRowsMatch(recs, sel);
    assert forall i :: 0 <= i < |f| ==> f[i] in f;
  }

  /** A selection that matches no row leaves every chart without groups. */
  lemma EmptySelectionNoGroups(schema: Schema, raw: seq<Row>, std: Option<real>, sel: Selection)
    requires schema.hasTime ==> IsSampleStdDev(Times(raw), std)
    requires schema.hasTime && schema.hasAge && forall col :: col in schema.cats
    requires DashboardSpec(schema, raw, std, sel).value.shown == 0
    ensures var v := DashboardSpec(schema, raw, std, sel).value;
      v.byWeatherTraffic == map[] && v.byVehicle == map[] && v.byArea == map[] && v.lateByWeather == map[]
  {
  }
}
