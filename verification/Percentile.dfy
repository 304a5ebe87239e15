/** Interpolated percentiles of a list of timings. */
module Percentile {
  import opened Wrappers
  import opened Rounding

  function Insert(x: real, xs: seq<real>): seq<real> {
    if xs == [] || x <= xs[0] then [x] + xs else [xs[0]] + Insert(x, xs[1..])
  }

  function Sort(xs: seq<real>): seq<real> { if xs == [] then [] else Insert(xs[0], Sort(xs[1..])) }

  ghost predicate Ascending(xs: seq<real>) { forall i, j :: 0 <= i <= j < |xs| ==> xs[i] <= xs[j] }

  lemma {:induction false} InsertSame(x: real, xs: seq<real>)
    ensures multiset(Insert(x, xs)) == multiset{x} + multiset(xs)
  {
    if xs != [] && x > xs[0] {
      InsertSame(x, xs[1..]);
      assert xs == [xs[0]] + xs[1..];
    }
  }

  lemma InFront(x: real, rest: seq<real>)
    requires Ascending(rest) && forall v :: v in rest ==> x <= v
    ensures Ascending([x] + rest)
  {
    var all := [x] + rest;
    forall i, j | 0 <= i <= j < |all| ensures all[i] <= all[j] {
      if i > 0 { assert rest[i - 1] <= rest[j - 1]; } else if j > 0 { assert rest[j - 1] in rest; }
    }
  }

  lemma {:induction false} InsertAscending(x: real, xs: seq<real>)
    requires Ascending(xs)
    ensures Ascending(Insert(x, xs))
  {
    if xs == [] || x <= xs[0] {
      forall v | v in xs ensures x <= v {}
      InFront(x, xs);
    } else {
      InsertAscending(x, xs[1..]);
      var rest := Insert(x, xs[1..]);
      InsertSame(x, xs[1..]);
      forall v | v in rest ensures xs[0] <= v { assert v in multiset(rest); }
      InFront(xs[0], rest);
    }
  }

  lemma {:induction false} SortFacts(xs: seq<real>)
    ensures Ascending(Sort(xs)) && multiset(Sort(xs)) == multiset(xs) && |Sort(xs)| == |xs|
  {
    if xs != [] {
      SortFacts(xs[1..]);
      InsertSame(xs[0], Sort(xs[1..]));
      InsertAscending(xs[0], Sort(xs[1..]));
      assert xs == [xs[0]] + xs[1..];
    }
    assert |multiset(Sort(xs))| == |Sort(xs)| && |multiset(xs)| == |xs|;
  }

  function Ceil(x: real): int { if x == x.Floor as real then x.Floor else x.Floor + 1 }

  /** The part `w` of `d`. */
  function Part(d: real, w: real): real { d * w }

  lemma PartBounds(d: real, w: real)
    requires d >= 0.0 && 0.0 <= w <= 1.0
    ensures 0.0 <= Part(d, w) <= d
  {
    assert d - d * w == d * (1.0 - w);
  }

  lemma PartMonotone(d: real, v: real, w: real)
    requires d >= 0.0 && v <= w
    ensures Part(d, v) <= Part(d, w)
  {
    assert d * w - d * v == d * (w - v);
  }

  /** Linear interpolation between the neighbours of `position`. */
  function Interpolate(ordered: seq<real>, position: real): real
    requires 0.0 <= position && Ceil(position) < |ordered|
  {
    var lower, upper := position.Floor, Ceil(position);
    if lower == upper then ordered[lower]
    else ordered[lower] + Part(ordered[upper] - ordered[lower], position - lower as real)
  }

  function Position(n: nat, fraction: real): real { Part(n as real - 1.0, fraction) }

  lemma PositionInRange(n: nat, fraction: real)
    requires n >= 1 && 0.0 <= fraction <= 1.0
    ensures 0.0 <= Position(n, fraction) <= n as real - 1.0 && Ceil(Position(n, fraction)) < n
  {
    PartBounds(n as real - 1.0, fraction);
  }

  function Percentile(values: seq<real>, fraction: real): Option<real>
    requires 0.0 <= fraction <= 1.0
  {
    if values == [] then None
    else
      SortFacts(values);
      PositionInRange(|values|, fraction);
      Some(Round3(Interpolate(Sort(values), Position(|values|, fraction))))
  }

  /** An interpolated value lies between its neighbours. */
  lemma Between(ordered: seq<real>, x: real)
    requires Ascending(ordered) && 0.0 <= x && Ceil(x) < |ordered|
    ensures ordered[x.Floor] <= Interpolate(ordered, x) <= ordered[Ceil(x)]
  {
    PartBounds(ordered[Ceil(x)] - ordered[x.Floor], x - x.Floor as real);
  }

  lemma InterpolateMonotone(ordered: seq<real>, x: real, y: real)
    requires Ascending(ordered) && 0.0 <= x <= y && Ceil(y) < |ordered|
    ensures Ceil(x) < |ordered| && Interpolate(ordered, x) <= Interpolate(ordered, y)
  {
    if x.Floor == y.Floor {
      Between(ordered, y);
      if x != x.Floor as real && y != y.Floor as real {
        PartMonotone(ordered[Ceil(y)] - ordered[y.Floor], x - x.Floor as real, y - y.Floor as real);
      }
    } else {
      assert Ceil(x) <= y.Floor;
      Between(ordered, x);
      Between(ordered, y);
    }
  }

  /** At the fraction `k / (n - 1)` the percentile is the value of rank `k`; so fraction 0 gives the
      smallest and fraction 1 the largest. */
  lemma PercentileAtRank(values: seq<real>, k: nat)
    requires |values| >= 2 && k < |values|
    ensures 0.0 <= k as real / (|values| as real - 1.0) <= 1.0
    ensures |Sort(values)| == |values| && Ascending(Sort(values)) && multiset(Sort(values)) == multiset(values)
    ensures Percentile(values, k as real / (|values| as real - 1.0)) == Some(Round3(Sort(values)[k]))
  {
    SortFacts(values);
    var last := |values| as real - 1.0;
    RankFraction(k as real, last);
    assert Position(|values|, k as real / last) == k as real;
    assert (k as real).Floor == k;
  }

  lemma RankFraction(k: real, last: real)
    requires 0.0 <= k <= last && last > 0.0
    ensures 0.0 <= k / last <= 1.0 && Part(last, k / last) == k
  {
    assert k / last * last == k;
  }

  lemma InterpolateIsLinear(ordered: seq<real>, k: nat, w: real)
    requires k + 1 < |ordered| && 0.0 <= w < 1.0
    ensures Ceil(k as real + w) < |ordered|
    ensures Interpolate(ordered, k as real + w) == Mix(ordered[k], ordered[k + 1], w)
  {
    var a, b := ordered[k], ordered[k + 1];
    assert (k as real + w).Floor == k;
    assert Mix(a, b, w) == a + (b - a) * w;
    if w == 0.0 { assert (b - a) * w == 0.0; }
  }

  /** `w` of the way from one value to another. */
  function Mix(a: real, b: real, w: real): real { (1.0 - w) * a + w * b }

  /** Between two ranks the percentile is linear in the fraction: at the fraction that falls `w` of the
      way from rank `k` to the next rank it has gone `w` of the way between their values. */
  lemma PercentileIsLinear(values: seq<real>, fraction: real, k: nat, w: real)
    requires k + 1 < |values| && 0.0 <= w < 1.0 && 0.0 <= fraction <= 1.0
    requires (|values| as real - 1.0) * fraction == k as real + w
    ensures |Sort(values)| == |values|
    ensures Percentile(values, fraction) == Some(Round3(Mix(Sort(values)[k], Sort(values)[k + 1], w)))
  {
    SortFacts(values);
    assert Position(|values|, fraction) == k as real + w;
    InterpolateIsLinear(Sort(values), k, w);
  }

  /** A larger fraction never gives a smaller percentile. */
  lemma PercentileMonotone(values: seq<real>, f: real, g: real)
    requires values != [] && 0.0 <= f <= g <= 1.0
    ensures Percentile(values, f).value <= Percentile(values, g).value
  {
    SortFacts(values);
    PositionInRange(|values|, f);
    PositionInRange(|values|, g);
    PartMonotone(|values| as real - 1.0, f, g);
    InterpolateMonotone(Sort(values), Position(|values|, f), Position(|values|, g));
    Round3Monotone(Interpolate(Sort(values), Position(|values|, f)), Interpolate(Sort(values), Position(|values|, g)));
  }

  ghost predicate IsMin(values: seq<real>, m: real) { m in values && forall v :: v in values ==> m <= v }

  ghost predicate IsMax(values: seq<real>, m: real) { m in values && forall v :: v in values ==> v <= m }

  /** The summary is in order: min <= p50 <= p95 <= p99 <= max, after rounding. */
  lemma SummaryOrdered(values: seq<real>, min: real, max: real)
    requires IsMin(values, min) && IsMax(values, max)
    ensures Round3(min) <= Percentile(values, 0.50).value <= Percentile(values, 0.95).value
    ensures Percentile(values, 0.95).value <= Percentile(values, 0.99).value <= Round3(max)
  {
    SortFacts(values);
    var sorted := Sort(values);
    var n := |sorted|;
    PercentileMonotone(values, 0.50, 0.95);
    PercentileMonotone(values, 0.95, 0.99);
    PositionInRange(n, 0.50);
    PositionInRange(n, 0.99);
    Between(sorted, Position(n, 0.50));
    Between(sorted, Position(n, 0.99));
    forall i | 0 <= i < n ensures min <= sorted[i] <= max {
      assert sorted[i] in multiset(sorted);
      assert sorted[i] in values;
    }
    Round3Monotone(min, Interpolate(sorted, Position(n, 0.50)));
    Round3Monotone(Interpolate(sorted, Position(n, 0.99)), max);
  }
}
