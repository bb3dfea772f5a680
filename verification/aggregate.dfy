/**
 * The group-by aggregations behind the delay, vehicle, area and weather
 * charts (lines 169, 175, 187, 197-198). Pandas drops rows whose group key
 * is null; a two-column key is dropped when either part is null. The result
 * of each aggregation is a map from group key to value; the ascending order
 * in which pandas lists the groups is not modelled.
 */
module Aggregate {
  import opened Wrappers
  import opened Records
  import opened Stats
  import opened Filters
  import opened Features

  /** One group: the records whose key is `k`, in order. */
  function Group<K(==,!new)>(recs: seq<Record>, key: Record -> Option<K>, k: K): (g: seq<Record>)
    ensures |g| <= |recs|
    ensures forall i :: 0 <= i < |g| ==> g[i] in recs && key(g[i]) == Some(k)
  {
    var p := (r: Record) => key(r) == Some(k);
    WhereMembers(recs, p);
    assert forall i :: 0 <= i < |Where(recs, p)| ==> Where(recs, p)[i] in Where(recs, p) && p(Where(recs, p)[i]);
    Where(recs, p)
  }

  /** The distinct non-null keys occurring in the records. */
  function Keys<K(==,!new)>(recs: seq<Record>, key: Record -> Option<K>): (ks: set<K>)
    ensures forall k :: k in ks <==> exists i :: 0 <= i < |recs| && key(recs[i]) == Some(k)
  {
    set i | 0 <= i < |recs| && key(recs[i]).Some? :: key(recs[i]).value
  }

  /** A group holds exactly the records with its key. */
  lemma GroupMembers<K(!new)>(recs: seq<Record>, key: Record -> Option<K>, k: K)
    ensures forall r :: r in Group(recs, key, k) <==> r in recs && key(r) == Some(k)
  {
    WhereMembers(recs, (r: Record) => key(r) == Some(k));
  }

  /** The group of a key is non-empty exactly when the key occurs. */
  lemma GroupOfKey<K(!new)>(recs: seq<Record>, key: Record -> Option<K>, k: K)
    ensures |Group(recs, key, k)| > 0 <==> k in Keys(recs, key)
  {
    GroupMembers(recs, key, k);
    if k in Keys(recs, key) {
      var i :| 0 <= i < |recs| && key(recs[i]) == Some(k);
      assert recs[i] in Group(recs, key, k);
    }
    var g := Group(recs, key, k);
    if |g| > 0 {
      assert g[0] in g;
      var i :| 0 <= i < |recs| && recs[i] == g[0];
      assert key(recs[i]) == Some(k);
    }
  }

  /** `groupby(key)["Delivery_Time"].mean()`. */
  function MeanTimeBy<K(==,!new)>(recs: seq<Record>, key: Record -> Option<K>): (m: map<K, real>)
    ensures m.Keys == Keys(recs, key)
  {
    map k | k in Keys(recs, key) ::
      GroupOfKey(recs, key, k);
      Mean(RecordTimes(Group(recs, key, k))).value
  }

  /** Each entry is the mean delivery time of a non-empty group: times the group size it is the group's total. */
  lemma MeanTimeByIsGroupMean<K(!new)>(recs: seq<Record>, key: Record -> Option<K>, k: K)
    requires k in Keys(recs, key)
    ensures |Group(recs, key, k)| > 0
    ensures MeanTimeBy(recs, key)[k] * (|Group(recs, key, k)| as real) == Sum(RecordTimes(Group(recs, key, k)))
  {
    var g := Group(recs, key, k);
    GroupOfKey(recs, key, k);
    assert MeanTimeBy(recs, key)[k] == Mean(RecordTimes(g)).value;
    MeanOfTimesTimesCount(MeanTimeBy(recs, key)[k], g);
  }

  /** The mean delivery time of a non-empty group, times its size, is its total. */
  lemma MeanOfTimesTimesCount(a: real, g: seq<Record>)
    requires |g| > 0 && a == Mean(RecordTimes(g)).value
    ensures a * (|g| as real) == Sum(RecordTimes(g))
  {
    MeanTimesCount(RecordTimes(g));
  }

  /** Each entry lies within any bounds on its group's delivery times. */
  lemma MeanTimeByWithinBounds<K(!new)>(recs: seq<Record>, key: Record -> Option<K>, k: K, lo: real, hi: real)
    requires k in Keys(recs, key)
    requires forall r :: r in Group(recs, key, k) ==> lo <= r.row.time <= hi
    ensures lo <= MeanTimeBy(recs, key)[k] <= hi
  {
    var g := Group(recs, key, k);
    GroupOfKey(recs, key, k);
    GroupMembers(recs, key, k);
    assert MeanTimeBy(recs, key)[k] == Mean(RecordTimes(g)).value;
    forall i | 0 <= i < |g|
      ensures lo <= RecordTimes(g)[i] <= hi
    {
      assert g[i] in g;
    }
    MeanBetween(RecordTimes(g), lo, hi);
  }

  /** An empty table has no groups. */
  lemma NoRowsNoGroups<K(!new)>(key: Record -> Option<K>)
    ensures MeanTimeBy([], key) == map[]
  {
  }

  // ------------------------------------------------------------ the keys

  function WeatherTraffic(r: Record): Option<(string, string)> {
    if r.row.weather.Some? && r.row.traffic.Some? then Some((r.row.weather.value, r.row.traffic.value)) else None
  }

  function CatKey(col: Column): Record -> Option<string> {
    (r: Record) => r.row.Cat(col)
  }

  /** Line 169: mean delivery time per (Weather, Traffic) pair. */
  function MeanTimeByWeatherTraffic(recs: seq<Record>): (m: map<(string, string), real>)
    ensures forall w, t :: (w, t) in m <==>
      exists i :: 0 <= i < |recs| && recs[i].row.weather == Some(w) && recs[i].row.traffic == Some(t)
  {
    MeanTimeBy(recs, WeatherTraffic)
  }

  /** Line 175: mean delivery time per Vehicle. */
  function MeanTimeByVehicle(recs: seq<Record>): (m: map<string, real>)
    ensures forall v :: v in m <==> exists i :: 0 <= i < |recs| && recs[i].row.vehicle == Some(v)
  {
    MeanTimeBy(recs, CatKey(Vehicle))
  }

  /** Line 187: mean delivery time per Area. */
  function MeanTimeByArea(recs: seq<Record>): (m: map<string, real>)
    ensures forall a :: a in m <==> exists i :: 0 <= i < |recs| && recs[i].row.area == Some(a)
  {
    MeanTimeBy(recs, CatKey(Area))
  }

  /** Lines 197-198: the mean of Is_Late per Weather, times 100. */
  function LateRateByWeather(recs: seq<Record>): (m: map<string, real>)
    ensures forall w :: w in m <==> exists i :: 0 <= i < |recs| && recs[i].row.weather == Some(w)
  {
    map w | w in Keys(recs, CatKey(Weather)) ::
      GroupOfKey(recs, CatKey(Weather), w);
      LatePercentage(Group(recs, CatKey(Weather), w)).value
  }

  /** Each weather's late rate is 100 times its late share, a percentage of a non-empty group. */
  lemma LateRateIsShare(recs: seq<Record>, w: string)
    requires w in Keys(recs, CatKey(Weather))
    ensures var g := Group(recs, CatKey(Weather), w);
      && |g| > 0
      && LateRateByWeather(recs)[w] == 100.0 * Share(CountLate(g), |g|)
      && 0.0 <= LateRateByWeather(recs)[w] <= 100.0
  {
    var g := Group(recs, CatKey(Weather), w);
    GroupOfKey(recs, CatKey(Weather), w);
    LatePercentageIsShare(g);
  }
}
