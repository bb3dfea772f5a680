/**
 * Column statistics in exact real arithmetic: pandas' `dropna`, `fillna`,
 * `mean`, `median` and the sample variance behind `std`. A column is a
 * sequence of optional values; `None` stands for a null or NaN entry, and
 * a statistic of a column with no observed value is `None` (pandas
 * returns NaN there).
 */
module Stats {
  import opened Wrappers

  function Sum(xs: seq<real>): real {
    if xs == [] then 0.0 else xs[0] + Sum(xs[1..])
  }

  /** The fraction k / n of a count k out of n. */
  function Share(k: nat, n: nat): (s: real)
    requires 0 < n
    ensures k <= n ==> 0.0 <= s <= 1.0
  {
    (k as real) / (n as real)
  }

  /** Arithmetic mean; `None` for an empty sequence. */
  function Mean(xs: seq<real>): (m: Option<real>)
    ensures m.Some? <==> |xs| > 0
  {
    if |xs| == 0 then None else Some(Sum(xs) / (|xs| as real))
  }

  /** The mean times the count gives back the total. */
  lemma MeanTimesCount(xs: seq<real>)
    requires |xs| > 0
    ensures Mean(xs).value * (|xs| as real) == Sum(xs)
  {}

  /** A sum of values in [lo, hi] lies between n * lo and n * hi. */
  lemma {:induction false} SumBounds(xs: seq<real>, lo: real, hi: real)
    requires forall i :: 0 <= i < |xs| ==> lo <= xs[i] <= hi
    ensures (|xs| as real) * lo <= Sum(xs) <= (|xs| as real) * hi
  {
    if xs != [] {
      SumBounds(xs[1..], lo, hi);
    }
  }

  /** The mean of values in [lo, hi] lies in [lo, hi]. */
  lemma MeanBetween(xs: seq<real>, lo: real, hi: real)
    requires |xs| > 0
    requires forall i :: 0 <= i < |xs| ==> lo <= xs[i] <= hi
    ensures lo <= Mean(xs).value <= hi
  {
    SumBounds(xs, lo, hi);
    var n := |xs| as real;
    var m := Mean(xs).value;
    MeanTimesCount(xs);
  }

  /** `dropna`: the observed values of a column, in order. */
  function Observed(xs: seq<Option<real>>): (vs: seq<real>)
    ensures |vs| <= |xs|
  {
    if xs == [] then []
    else if xs[0].Some? then [xs[0].value] + Observed(xs[1..])
    else Observed(xs[1..])
  }

  /** `dropna` keeps exactly the observed values. */
  lemma {:induction false} ObservedMembers(xs: seq<Option<real>>)
    ensures forall v :: v in Observed(xs) <==> Some(v) in xs
  {
    if xs != [] {
      ObservedMembers(xs[1..]);
      assert xs == [xs[0]] + xs[1..];
    }
  }

  /** Every value `dropna` keeps comes from some observed entry. */
  lemma {:induction false} ObservedFrom(xs: seq<Option<real>>, j: nat)
    requires j < |Observed(xs)|
    ensures exists i :: 0 <= i < |xs| && xs[i] == Some(Observed(xs)[j])
  {
    if xs[0].Some? && j == 0 {
      assert xs[0] == Some(Observed(xs)[0]);
    } else {
      var j' := if xs[0].Some? then j - 1 else j;
      ObservedFrom(xs[1..], j');
      var i :| 0 <= i < |xs[1..]| && xs[1..][i] == Some(Observed(xs[1..])[j']);
      assert xs[i + 1] == Some(Observed(xs)[j]);
    }
  }

  /** `dropna` keeps only values within any bounds the observed entries respect. */
  lemma ObservedWithin(xs: seq<Option<real>>, lo: real, hi: real)
    requires forall i :: 0 <= i < |xs| && xs[i].Some? ==> lo <= xs[i].value <= hi
    ensures forall j :: 0 <= j < |Observed(xs)| ==> lo <= Observed(xs)[j] <= hi
  {
    forall j | 0 <= j < |Observed(xs)|
      ensures lo <= Observed(xs)[j] <= hi
    {
      ObservedFrom(xs, j);
    }
  }

  /** Number of null entries of a column. */
  function CountNone(xs: seq<Option<real>>): (n: nat)
    ensures n <= |xs|
  {
    if xs == [] then 0
    else (if xs[0].None? then 1 else 0) + CountNone(xs[1..])
  }

  /** A column has an observed value exactly when `dropna` leaves something. */
  lemma {:induction false} ObservedEmpty(xs: seq<Option<real>>)
    ensures Observed(xs) == [] <==> forall i :: 0 <= i < |xs| ==> xs[i].None?
    ensures Observed(xs) == [] <==> CountNone(xs) == |xs|
  {
    if xs != [] {
      ObservedEmpty(xs[1..]);
      assert forall i :: 1 <= i < |xs| ==> xs[1..][i - 1] == xs[i];
    }
  }

  /** `fillna(v)`: replace every null entry by `v` (a `None` fill value leaves nulls). */
  function FillNone(xs: seq<Option<real>>, v: Option<real>): (r: seq<Option<real>>)
    ensures |r| == |xs|
    ensures forall i :: 0 <= i < |xs| ==> r[i] == if xs[i].Some? then xs[i] else v
  {
    if xs == [] then []
    else [if xs[0].Some? then xs[0] else v] + FillNone(xs[1..], v)
  }

  /** After filling with a value, every entry is observed. */
  lemma {:induction false} FillNoneObservedLength(xs: seq<Option<real>>, m: real)
    ensures |Observed(FillNone(xs, Some(m)))| == |xs|
  {
    if xs != [] {
      FillNoneObservedLength(xs[1..], m);
      assert FillNone(xs, Some(m)) == [if xs[0].Some? then xs[0] else Some(m)] + FillNone(xs[1..], Some(m));
    }
  }

  /** `m` counted once per null entry. */
  function NullMass(xs: seq<Option<real>>, m: real): real {
    if xs == [] then 0.0 else (if xs[0].None? then m else 0.0) + NullMass(xs[1..], m)
  }

  lemma {:induction false} NullMassIsProduct(xs: seq<Option<real>>, m: real)
    ensures NullMass(xs, m) == (CountNone(xs) as real) * m
  {
    if xs != [] {
      NullMassIsProduct(xs[1..], m);
      var k := CountNone(xs[1..]) as real;
      if xs[0].None? {
        assert CountNone(xs) as real == k + 1.0;
        ScaleSucc(m, k);
      }
    }
  }

  /** Filling with `m` observes the old values plus one copy of `m` per null. */
  lemma {:induction false} FillNoneObservedSum(xs: seq<Option<real>>, m: real)
    ensures Sum(Observed(FillNone(xs, Some(m)))) == Sum(Observed(xs)) + NullMass(xs, m)
  {
    if xs != [] {
      var rest := FillNone(xs[1..], Some(m));
      FillNoneObservedSum(xs[1..], m);
      var head := if xs[0].Some? then xs[0] else Some(m);
      var f := FillNone(xs, Some(m));
      assert f == [head] + rest;
      assert f[0] == head && f[1..] == rest;
      assert Sum(Observed(f)) == head.value + Sum(Observed(rest));
    }
  }

  /** The observed count and the null count make up the column. */
  lemma {:induction false} ObservedCount(xs: seq<Option<real>>)
    ensures |Observed(xs)| + CountNone(xs) == |xs|
  {
    if xs != [] {
      ObservedCount(xs[1..]);
    }
  }

  /** Mean imputation leaves the mean of the observed values unchanged. */
  lemma FillWithMeanKeepsMean(xs: seq<Option<real>>)
    ensures Mean(Observed(FillNone(xs, Mean(Observed(xs))))) == Mean(Observed(xs))
  {
    var obs := Observed(xs);
    if obs == [] {
      ObservedEmpty(xs);
      assert FillNone(xs, None) == xs;
    } else {
      MeanHasNoExcess(obs);
      FillWithValueKeepsMean(xs, Mean(obs).value);
    }
  }

  /** Filling the nulls with a value `m` the observed values do not exceed on balance makes `m` the mean. */
  lemma FillWithValueKeepsMean(xs: seq<Option<real>>, m: real)
    requires Observed(xs) != [] && Excess(Observed(xs), m) == 0.0
    ensures Mean(Observed(FillNone(xs, Some(m)))) == Some(m)
  {
    FillNoneKeepsExcess(xs, m);
    FillNoneObservedLength(xs, m);
    NoExcessMean(Observed(FillNone(xs, Some(m))), m);
  }

  /** The values exceed their mean by nothing on balance. */
  lemma MeanHasNoExcess(vs: seq<real>)
    requires |vs| > 0
    ensures Excess(vs, Mean(vs).value) == 0.0
  {
    MeanTimesCount(vs);
    ExcessIsSumMinus(vs, Mean(vs).value);
  }

  /** A value the values do not exceed on balance is their mean. */
  lemma NoExcessMean(vs: seq<real>, m: real)
    requires |vs| > 0 && Excess(vs, m) == 0.0
    ensures Mean(vs) == Some(m)
  {
    ExcessIsSumMinus(vs, m);
    DivideMultiple(Sum(vs), m, |vs| as real);
  }

  /** The total amount by which the values exceed `m`. */
  function Excess(vs: seq<real>, m: real): real {
    if vs == [] then 0.0 else (vs[0] - m) + Excess(vs[1..], m)
  }

  lemma {:induction false} ExcessIsSumMinus(vs: seq<real>, m: real)
    ensures Excess(vs, m) == Sum(vs) - m * (|vs| as real)
  {
    if vs != [] {
      ExcessIsSumMinus(vs[1..], m);
      ScaleSucc(m, |vs[1..]| as real);
    }
  }

  /** A filled-in null is exactly `m`, so it adds nothing to the excess over `m`. */
  lemma {:induction false} FillNoneKeepsExcess(xs: seq<Option<real>>, m: real)
    ensures Excess(Observed(FillNone(xs, Some(m))), m) == Excess(Observed(xs), m)
  {
    if xs != [] {
      var head := if xs[0].Some? then xs[0] else Some(m);
      var tail := FillNone(xs[1..], Some(m));
      FillNoneKeepsExcess(xs[1..], m);
      assert FillNone(xs, Some(m)) == [head] + tail;
      assert ([head] + tail)[1..] == tail;
      assert Observed(FillNone(xs, Some(m))) == [head.value] + Observed(tail);
      assert ([head.value] + Observed(tail))[1..] == Observed(tail);
    }
  }

  lemma ScaleSucc(m: real, n: real)
    ensures m * (n + 1.0) == m * n + m
  {
  }

  lemma DivideMultiple(t: real, m: real, n: real)
    requires n > 0.0 && t == m * n
    ensures t / n == m
  {
  }

  // ---------------------------------------------------------------- sorting

  predicate Sorted(s: seq<real>) {
    forall i, j :: 0 <= i < j < |s| ==> s[i] <= s[j]
  }

  lemma SortedCons(h: real, t: seq<real>)
    requires Sorted(t) && (t != [] ==> h <= t[0])
    ensures Sorted([h] + t)
  {
    forall i, j | 0 <= i < j < |[h] + t|
      ensures ([h] + t)[i] <= ([h] + t)[j]
    {
      if i == 0 {
        assert ([h] + t)[j] == t[j - 1];
        assert t[0] <= t[j - 1];
      } else {
        assert ([h] + t)[i] == t[i - 1] && ([h] + t)[j] == t[j - 1];
      }
    }
  }

  function Insert(x: real, s: seq<real>): (r: seq<real>)
    requires Sorted(s)
    ensures Sorted(r)
    ensures |r| == |s| + 1 && (r[0] == x || (s != [] && r[0] == s[0]))
  {
    if s == [] then [x]
    else if x <= s[0] then
      SortedCons(x, s);
      [x] + s
    else
      var rest := s[1..];
      assert s == [s[0]] + rest;
      assert Sorted(rest);
      var t := Insert(x, rest);
      SortedCons(s[0], t);
      [s[0]] + t
  }

  /** Inserting adds exactly the one value. */
  lemma {:induction false} InsertPermutes(x: real, s: seq<real>)
    requires Sorted(s)
    ensures multiset(Insert(x, s)) == multiset(s) + multiset{x}
  {
    if s != [] && x > s[0] {
      var rest := s[1..];
      assert s == [s[0]] + rest;
      InsertPermutes(x, rest);
      assert Insert(x, s) == [s[0]] + Insert(x, rest);
    }
  }

  /** Ascending order (insertion sort), the order `median` works on. */
  function SortAsc(xs: seq<real>): (r: seq<real>)
    ensures Sorted(r)
    ensures multiset(r) == multiset(xs)
  {
    if xs == [] then []
    else
      assert xs == [xs[0]] + xs[1..];
      InsertPermutes(xs[0], SortAsc(xs[1..]));
      Insert(xs[0], SortAsc(xs[1..]))
  }

  /**
   * pandas' `median` of the observed values: the middle element of the
   * sorted values, or the average of the two middle ones for an even count.
   */
  function Median(xs: seq<real>): (m: Option<real>)
    ensures m.Some? <==> |xs| > 0
  {
    var s := SortAsc(xs);
    assert |s| == |multiset(s)| == |multiset(xs)| == |xs|;
    if |s| == 0 then None else Some(MiddleOf(s))
  }

  function CountBelow(xs: seq<real>, m: real): (n: nat)
    ensures n <= |xs|
  {
    if xs == [] then 0 else (if xs[0] < m then 1 else 0) + CountBelow(xs[1..], m)
  }

  function CountAbove(xs: seq<real>, m: real): (n: nat)
    ensures n <= |xs|
  {
    if xs == [] then 0 else (if xs[0] > m then 1 else 0) + CountAbove(xs[1..], m)
  }

  lemma {:induction false} CountsAppend(xs: seq<real>, ys: seq<real>, m: real)
    ensures CountBelow(xs + ys, m) == CountBelow(xs, m) + CountBelow(ys, m)
    ensures CountAbove(xs + ys, m) == CountAbove(xs, m) + CountAbove(ys, m)
  {
    if xs == [] {
      assert xs + ys == ys;
    } else {
      assert (xs + ys)[1..] == xs[1..] + ys;
      CountsAppend(xs[1..], ys, m);
    }
  }

  lemma {:induction false} CountBelowInsert(x: real, s: seq<real>, m: real)
    requires Sorted(s)
    ensures CountBelow(Insert(x, s), m) == CountBelow([x] + s, m)
  {
    if s != [] && x > s[0] {
      var rest := s[1..];
      var t := Insert(x, rest);
      assert Insert(x, s) == [s[0]] + t;
      assert ([s[0]] + t)[1..] == t;
      CountBelowInsert(x, rest, m);
      assert ([x] + rest)[1..] == rest;
      assert ([x] + s)[1..] == s;
    }
  }

  lemma {:induction false} CountAboveInsert(x: real, s: seq<real>, m: real)
    requires Sorted(s)
    ensures CountAbove(Insert(x, s), m) == CountAbove([x] + s, m)
  {
    if s != [] && x > s[0] {
      var rest := s[1..];
      var t := Insert(x, rest);
      assert Insert(x, s) == [s[0]] + t;
      assert ([s[0]] + t)[1..] == t;
      CountAboveInsert(x, rest, m);
      assert ([x] + rest)[1..] == rest;
      assert ([x] + s)[1..] == s;
    }
  }

  /** Sorting does not change how many values lie below or above a bound. */
  lemma {:induction false} CountsSort(xs: seq<real>, m: real)
    ensures CountBelow(SortAsc(xs), m) == CountBelow(xs, m)
    ensures CountAbove(SortAsc(xs), m) == CountAbove(xs, m)
  {
    if xs != [] {
      CountsSort(xs[1..], m);
      CountBelowInsert(xs[0], SortAsc(xs[1..]), m);
      CountAboveInsert(xs[0], SortAsc(xs[1..]), m);
      assert ([xs[0]] + SortAsc(xs[1..]))[1..] == SortAsc(xs[1..]);
    }
  }

  lemma {:induction false} NoneBelow(xs: seq<real>, m: real)
    requires forall i :: 0 <= i < |xs| ==> xs[i] >= m
    ensures CountBelow(xs, m) == 0
  {
    if xs != [] {
      NoneBelow(xs[1..], m);
    }
  }

  lemma {:induction false} NoneAbove(xs: seq<real>, m: real)
    requires forall i :: 0 <= i < |xs| ==> xs[i] <= m
    ensures CountAbove(xs, m) == 0
  {
    if xs != [] {
      NoneAbove(xs[1..], m);
    }
  }

  /** In ascending order, nothing from index k on lies below a bound <= s[k]. */
  lemma SortedBelow(s: seq<real>, k: nat, m: real)
    requires Sorted(s) && k <= |s|
    requires k < |s| ==> m <= s[k]
    ensures CountBelow(s, m) <= k
  {
    assert s == s[..k] + s[k..];
    CountsAppend(s[..k], s[k..], m);
    NoneBelow(s[k..], m);
  }

  /** In ascending order, nothing before index k lies above a bound >= s[k - 1]. */
  lemma SortedAbove(s: seq<real>, k: nat, m: real)
    requires Sorted(s) && k <= |s|
    requires 0 < k ==> s[k - 1] <= m
    ensures CountAbove(s, m) <= |s| - k
  {
    assert s == s[..k] + s[k..];
    CountsAppend(s[..k], s[k..], m);
    NoneAbove(s[..k], m);
  }

  /**
   * The median splits the values in half: at most half of them lie
   * strictly below it and at most half strictly above it.
   */
  lemma MedianBalanced(xs: seq<real>)
    requires |xs| > 0
    ensures CountBelow(xs, Median(xs).value) <= |xs| / 2
    ensures CountAbove(xs, Median(xs).value) <= |xs| / 2
  {
    var s := SortAsc(xs);
    var m := Median(xs).value;
    assert |s| == |multiset(s)| == |xs|;
    assert m == MiddleOf(s);
    CountsSort(xs, m);
    MiddleBalanced(s);
  }

  /** The middle element of a non-empty sequence, or the average of the two middle ones. */
  function MiddleOf(s: seq<real>): real
    requires |s| > 0
  {
    if |s| % 2 == 1 then s[|s| / 2] else (s[|s| / 2 - 1] + s[|s| / 2]) / 2.0
  }

  lemma MiddleBalanced(s: seq<real>)
    requires Sorted(s) && |s| > 0
    ensures CountBelow(s, MiddleOf(s)) <= |s| / 2
    ensures CountAbove(s, MiddleOf(s)) <= |s| / 2
  {
    var m := MiddleOf(s);
    var h := |s| / 2;
    if |s| % 2 == 1 {
      SortedBelow(s, h, m);
      SortedAbove(s, h + 1, m);
    } else {
      assert s[h - 1] <= s[h];
      SortedBelow(s, h, m);
      SortedAbove(s, h, m);
    }
  }

  lemma {:induction false} SomeNotBelow(xs: seq<real>, m: real)
    requires CountBelow(xs, m) < |xs|
    ensures exists i :: 0 <= i < |xs| && m <= xs[i]
  {
    if xs[0] < m {
      SomeNotBelow(xs[1..], m);
      var i :| 0 <= i < |xs[1..]| && m <= xs[1..][i];
      assert m <= xs[i + 1];
    }
  }

  lemma {:induction false} SomeNotAbove(xs: seq<real>, m: real)
    requires CountAbove(xs, m) < |xs|
    ensures exists i :: 0 <= i < |xs| && xs[i] <= m
  {
    if xs[0] > m {
      SomeNotAbove(xs[1..], m);
      var i :| 0 <= i < |xs[1..]| && xs[1..][i] <= m;
      assert xs[i + 1] <= m;
    }
  }

  /** The median lies between the smallest and the largest value. */
  lemma MedianWithinRange(xs: seq<real>)
    requires |xs| > 0
    ensures exists i :: 0 <= i < |xs| && xs[i] <= Median(xs).value
    ensures exists j :: 0 <= j < |xs| && Median(xs).value <= xs[j]
  {
    MedianBalanced(xs);
    SomeNotBelow(xs, Median(xs).value);
    SomeNotAbove(xs, Median(xs).value);
  }

  // ------------------------------------------------------------- deviation

  /** Sum of squared deviations from `c`. */
  function SumSqDev(xs: seq<real>, c: real): (d: real)
    ensures d >= 0.0
  {
    if xs == [] then 0.0
    else
      var d := xs[0] - c;
      assert d * d == (-d) * (-d);
      d * d + SumSqDev(xs[1..], c)
  }

  /** pandas' `var` with one degree of freedom, as `std` uses it. */
  function SampleVariance(xs: seq<real>): (v: real)
    requires |xs| >= 2
    ensures v >= 0.0
  {
    SumSqDev(xs, Mean(xs).value) / ((|xs| - 1) as real)
  }

  /**
   * `std` is the sample standard deviation: the non-negative square root
   * of the sample variance, and NaN (`None`) for fewer than two values.
   */
  predicate IsSampleStdDev(xs: seq<real>, std: Option<real>)
    ensures IsSampleStdDev(xs, std) ==> (std.Some? <==> |xs| >= 2)
  {
    if |xs| < 2 then std.None?
    else std.Some? && std.value >= 0.0 && std.value * std.value == SampleVariance(xs)
  }
}
