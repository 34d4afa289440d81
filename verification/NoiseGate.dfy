/**
  When an A/B/A measurement counts (diagnostics/perf_tune.py:642-680): medians of the test
  against the mean of the two baseline medians, and a floor from the noise measured.
  Arithmetic is over the reals; the relative deviation of a list is any function of it.
*/
module NoiseGate {
  const MIN_EFFECT_PCT := 3.0

  // ----- statistics.median

  function Insert(x: real, s: seq<real>): seq<real> {
    if |s| == 0 || x <= s[0] then [x] + s else [s[0]] + Insert(x, s[1..])
  }

  function Sorted(s: seq<real>): (r: seq<real>)
    ensures |r| == |s|
  {
    if |s| == 0 then []
    else
      InsertLength(s[0], Sorted(s[1..]));
      Insert(s[0], Sorted(s[1..]))
  }

  lemma {:induction false} InsertLength(x: real, s: seq<real>)
    ensures |Insert(x, s)| == |s| + 1
  {
    if |s| > 0 && x > s[0] { InsertLength(x, s[1..]); }
  }

  function Median(s: seq<real>): real
    requires |s| > 0
  {
    var t := Sorted(s);
    if |t| % 2 == 1 then t[|t| / 2] else (t[|t| / 2 - 1] + t[|t| / 2]) / 2.0
  }

  predicate Ascending(s: seq<real>) {
    forall i, j | 0 <= i < j < |s| :: s[i] <= s[j]
  }

  function AtLeast(s: seq<real>, x: real): nat {
    if |s| == 0 then 0 else (if s[0] >= x then 1 else 0) + AtLeast(s[1..], x)
  }

  function AtMost(s: seq<real>, x: real): nat {
    if |s| == 0 then 0 else (if s[0] <= x then 1 else 0) + AtMost(s[1..], x)
  }

  lemma {:induction false} InsertAscends(x: real, s: seq<real>)
    requires Ascending(s)
    ensures Ascending(Insert(x, s))
    ensures forall y | y in Insert(x, s) :: y == x || y in s
  {
    if |s| > 0 && x > s[0] {
      InsertAscends(x, s[1..]);
      var t := Insert(x, s[1..]);
      assert Insert(x, s) == [s[0]] + t;
      forall i | 0 <= i < |t| ensures s[0] <= t[i] { assert t[i] in t; }
    }
  }

  lemma {:induction false} InsertCounts(x: real, s: seq<real>, y: real)
    ensures AtLeast(Insert(x, s), y) == AtLeast(s, y) + (if x >= y then 1 else 0)
    ensures AtMost(Insert(x, s), y) == AtMost(s, y) + (if x <= y then 1 else 0)
  {
    var r := Insert(x, s);
    if |s| == 0 || x <= s[0] {
      assert r[1..] == s;
    } else {
      InsertCounts(x, s[1..], y);
      assert r[1..] == Insert(x, s[1..]);
    }
  }

  lemma {:induction false} SortedSorts(s: seq<real>, y: real)
    ensures Ascending(Sorted(s))
    ensures AtLeast(Sorted(s), y) == AtLeast(s, y) && AtMost(Sorted(s), y) == AtMost(s, y)
  {
    if |s| > 0 {
      SortedSorts(s[1..], y);
      InsertAscends(s[0], Sorted(s[1..]));
      InsertCounts(s[0], Sorted(s[1..]), y);
    }
  }

  lemma {:induction false} CountInAscending(s: seq<real>, i: nat)
    requires Ascending(s) && i < |s|
    ensures AtLeast(s, s[i]) >= |s| - i && AtMost(s, s[i]) >= i + 1
  {
    if i == 0 {
      AllCount(s, s[0]);
      assert AtMost(s, s[0]) >= 1;
    } else {
      CountInAscending(s[1..], i - 1);
    }
  }

  lemma {:induction false} AllCount(s: seq<real>, x: real)
    requires forall i | 0 <= i < |s| :: s[i] >= x
    ensures AtLeast(s, x) == |s|
  {
    if |s| > 0 { AllCount(s[1..], x); }
  }

  lemma {:induction false} CountsAreMonotone(s: seq<real>, x: real, y: real)
    requires x <= y
    ensures AtLeast(s, y) <= AtLeast(s, x) && AtMost(s, x) <= AtMost(s, y)
  {
    if |s| > 0 { CountsAreMonotone(s[1..], x, y); }
  }

  /** At least half of a list is on each side of its median. */
  lemma HalfOnEachSide(s: seq<real>)
    requires |s| > 0
    ensures 2 * AtLeast(s, Median(s)) >= |s| && 2 * AtMost(s, Median(s)) >= |s|
  {
    var t, m := Sorted(s), Median(s);
    SortedSorts(s, m);
    hide Sorted;
    CountInAscending(t, |t| / 2);
    CountsAreMonotone(t, m, t[|t| / 2]);
    if |t| % 2 == 0 {
      CountInAscending(t, |t| / 2 - 1);
      CountsAreMonotone(t, t[|t| / 2 - 1], m);
    }
  }

  lemma {:induction false} SortedElements(s: seq<real>, x: real)
    ensures x in Sorted(s) <==> x in s
  {
    if |s| > 0 {
      assert s == [s[0]] + s[1..];
      SortedElements(s[1..], x);
      InsertElements(s[0], Sorted(s[1..]), x);
    }
  }

  lemma {:induction false} InsertElements(x: real, s: seq<real>, y: real)
    ensures y in Insert(x, s) <==> y == x || y in s
  {
    if |s| > 0 && x > s[0] {
      InsertElements(x, s[1..], y);
      assert s == [s[0]] + s[1..];
    }
  }

  /** Whatever is below position `i` of an ascending list is at most `i` of its elements. */
  lemma {:induction false} FewBelow(s: seq<real>, i: nat, x: real)
    requires Ascending(s) && i < |s| && x < s[i]
    ensures AtMost(s, x) <= i
  {
    if i == 0 {
      NoneAtMost(s, x);
    } else {
      FewBelow(s[1..], i - 1, x);
    }
  }

  lemma {:induction false} NoneAtMost(s: seq<real>, x: real)
    requires forall i | 0 <= i < |s| :: s[i] > x
    ensures AtMost(s, x) == 0
  {
    if |s| > 0 { NoneAtMost(s[1..], x); }
  }

  lemma {:induction false} FewAbove(s: seq<real>, i: nat, x: real)
    requires Ascending(s) && i < |s| && x > s[i]
    ensures AtLeast(s, x) <= |s| - 1 - i
  {
    if i == 0 {
      AtLeastBound(s[1..], x);
    } else {
      FewAbove(s[1..], i - 1, x);
    }
  }

  lemma {:induction false} AtLeastBound(s: seq<real>, x: real)
    ensures AtLeast(s, x) <= |s|
  {
    if |s| > 0 { AtLeastBound(s[1..], x); }
  }

  /** The smallest element that at least half the list does not exceed. */
  ghost predicate LowerMiddle(s: seq<real>, x: real) {
    x in s && 2 * AtMost(s, x) >= |s| && forall y | y in s && 2 * AtMost(s, y) >= |s| :: x <= y
  }

  /** The greatest element that at least half the list reaches. */
  ghost predicate UpperMiddle(s: seq<real>, x: real) {
    x in s && 2 * AtLeast(s, x) >= |s| && forall y | y in s && 2 * AtLeast(s, y) >= |s| :: x >= y
  }

  /** The median is midway between the two. */
  lemma MedianIsMidway(s: seq<real>)
    requires |s| > 0
    ensures exists lo, hi | LowerMiddle(s, lo) && UpperMiddle(s, hi) :: Median(s) == (lo + hi) / 2.0
  {
    LowerIs(s);
    UpperIs(s);
    hide LowerMiddle, UpperMiddle, Sorted;
    var t, n := Sorted(s), |s|;
    assert Median(s) == (t[(n - 1) / 2] + t[n / 2]) / 2.0;
  }

  lemma LowerIs(s: seq<real>)
    requires |s| > 0
    ensures LowerMiddle(s, Sorted(s)[(|s| - 1) / 2])
  {
    var t, k := Sorted(s), (|s| - 1) / 2;
    SortedSorts(s, t[k]);
    SortedElements(s, t[k]);
    hide Sorted, AtMost, AtLeast;
    CountInAscending(t, k);
    forall y | y in s && 2 * AtMost(s, y) >= |s| ensures t[k] <= y {
      SortedSorts(s, y);
      if y < t[k] { FewBelow(t, k, y); }
    }
  }

  lemma UpperIs(s: seq<real>)
    requires |s| > 0
    ensures UpperMiddle(s, Sorted(s)[|s| / 2])
  {
    var t, k := Sorted(s), |s| / 2;
    SortedSorts(s, t[k]);
    SortedElements(s, t[k]);
    hide Sorted, AtMost, AtLeast;
    CountInAscending(t, k);
    forall y | y in s && 2 * AtLeast(s, y) >= |s| ensures t[k] >= y {
      SortedSorts(s, y);
      if y > t[k] { FewAbove(t, k, y); }
    }
  }

  // ----- the comparison

  datatype Metric = Metric(name: string, higher: bool)

  datatype Verdict = Better | Worse | NoChange

  datatype Row = Row(metric: string, base: real, test: real, gain: real, noise: real, floor: real, verdict: Verdict)

  type Reps = map<string, seq<real>>

  function Max(a: real, b: real): real {
    if a >= b then a else b
  }

  function Min(a: real, b: real): real {
    if a <= b then a else b
  }

  function Abs(a: real): real {
    if a >= 0.0 then a else -a
  }

  function Get(reps: Reps, name: string): seq<real> {
    if name in reps then reps[name] else []
  }

  function Base(a: seq<real>, b: seq<real>): real
    requires |a| > 0 && |b| > 0
  {
    (Median(a) + Median(b)) / 2.0
  }

  /** `x` as a percentage of `base`. */
  function Share(x: real, base: real): real
    requires base != 0.0
  {
    x / base * 100.0
  }

  predicate Comparable(a: seq<real>, t: seq<real>, b: seq<real>) {
    |a| > 0 && |t| > 0 && |b| > 0 && Base(a, b) != 0.0
  }

  function Judge(gain: real, floor: real): Verdict {
    if gain > floor then Better else if gain < -floor then Worse else NoChange
  }

  function RowOf(m: Metric, a: seq<real>, t: seq<real>, b: seq<real>, spread: seq<real> -> real): Row
    requires Comparable(a, t, b)
  {
    var base := Base(a, b);
    var change := Share(Median(t) - base, base);
    var gain := if m.higher then change else -change;
    var drift := Share(Abs(Median(a) - Median(b)), base);
    var noise := Max(Max(spread(a), spread(t)), Max(spread(b), drift));
    var floor := Max(MIN_EFFECT_PCT, 2.0 * noise);
    Row(m.name, base, Median(t), gain, noise, floor, Judge(gain, floor))
  }

  function RowsFor(m: Metric, a: Reps, t: Reps, b: Reps, spread: seq<real> -> real): seq<Row> {
    var x, y, z := Get(a, m.name), Get(t, m.name), Get(b, m.name);
    if Comparable(x, y, z) then [RowOf(m, x, y, z, spread)] else []
  }

  function Rows(metrics: seq<Metric>, a: Reps, t: Reps, b: Reps, spread: seq<real> -> real): seq<Row> {
    if |metrics| == 0 then []
    else Rows(metrics[..|metrics| - 1], a, t, b, spread) + RowsFor(metrics[|metrics| - 1], a, t, b, spread)
  }

  method Compare(metrics: seq<Metric>, baseA: Reps, test: Reps, baseB: Reps, spread: seq<real> -> real) returns (rows: seq<Row>)
    ensures rows == Rows(metrics, baseA, test, baseB, spread)
  {
    hide Comparable, RowOf;
    rows := [];
    for i := 0 to |metrics|
      invariant rows == Rows(metrics[..i], baseA, test, baseB, spread)
    {
      assert metrics[..i + 1][..i] == metrics[..i];
      var name := metrics[i].name;
      var a, t, b := Get(baseA, name), Get(test, name), Get(baseB, name);
      if Comparable(a, t, b) { rows := rows + [RowOf(metrics[i], a, t, b, spread)]; }
    }
    assert metrics[..|metrics|] == metrics;
  }

  /** There is a row for exactly the metrics all three passes measured, the base not zero. */
  lemma {:induction false} RowsIff(metrics: seq<Metric>, a: Reps, t: Reps, b: Reps, spread: seq<real> -> real, r: Row)
    ensures r in Rows(metrics, a, t, b, spread) <==>
      exists m | m in metrics && m.name in a && m.name in t && m.name in b
                 && a[m.name] != [] && t[m.name] != [] && b[m.name] != [] && Base(a[m.name], b[m.name]) != 0.0 ::
        r == RowOf(m, a[m.name], t[m.name], b[m.name], spread)
  {
    hide RowOf, Base;
    if |metrics| > 0 {
      var init, m := metrics[..|metrics| - 1], metrics[|metrics| - 1];
      assert metrics == init + [m];
      RowsIff(init, a, t, b, spread, r);
    }
  }

  datatype Outcome = Win | Loss | Mixed | NoEffect

  predicate Has(rows: seq<Row>, v: Verdict) {
    exists i | 0 <= i < |rows| :: rows[i].verdict == v
  }

  function Overall(rows: seq<Row>): Outcome {
    if Has(rows, Better) && !Has(rows, Worse) then Win
    else if Has(rows, Worse) && !Has(rows, Better) then Loss
    else if Has(rows, Better) && Has(rows, Worse) then Mixed
    else NoEffect
  }

  // ----- what a verdict means

  /** `t` is past both baselines, in the given direction, by more than one and a half times their gap. */
  predicate Beyond(higher: bool, a: real, t: real, b: real) {
    if higher then t > Max(a, b) + 1.5 * Abs(a - b) else t < Min(a, b) - 1.5 * Abs(a - b)
  }

  lemma Percent(x: real, base: real, pct: real)
    requires base > 0.0 && Share(x, base) > pct
    ensures x > pct * base / 100.0
  {
    var q := x / base;
    assert x == q * base;
    assert (q * 100.0 - pct) * base > 0.0;
  }

  lemma PercentOf(x: real, base: real)
    requires base > 0.0
    ensures Share(x, base) * base / 100.0 == x
  {
  }

  lemma MoreOf(p: real, q: real, base: real)
    requires p >= q && base > 0.0
    ensures p * base / 100.0 >= q * base / 100.0
  {
  }

  /** A gain over the floor, unit by unit. */
  lemma OverTheFloor(x: real, gap: real, base: real, floor: real)
    requires base > 0.0 && Share(x, base) > floor
    requires floor >= MIN_EFFECT_PCT && floor >= 2.0 * Share(gap, base)
    ensures x > 2.0 * gap && x > 0.03 * base
  {
    Percent(x, base, floor);
    MoreOf(floor, MIN_EFFECT_PCT, base);
    MoreOf(floor, 2.0 * Share(gap, base), base);
    PercentOf(gap, base);
  }

  lemma NegatedShare(x: real, base: real)
    requires base > 0.0
    ensures -Share(x, base) == Share(-x, base)
  {
  }

  /** A verdict other than "no change", in medians. */
  lemma VerdictMeans(m: Metric, a: seq<real>, t: seq<real>, b: seq<real>, spread: seq<real> -> real)
    requires Comparable(a, t, b) && Base(a, b) > 0.0
    ensures var r := RowOf(m, a, t, b, spread);
      && (r.verdict == Better ==> Beyond(m.higher, Median(a), Median(t), Median(b)))
      && (r.verdict == Worse ==> Beyond(!m.higher, Median(a), Median(t), Median(b)))
      && (r.verdict != NoChange ==> Abs(Median(t) - Base(a, b)) > 0.03 * Base(a, b))
  {
    var r, base := RowOf(m, a, t, b, spread), Base(a, b);
    var x, gap := Median(t) - base, Abs(Median(a) - Median(b));
    NegatedShare(x, base);
    hide Median;
    if r.verdict != NoChange {
      var up := (r.verdict == Better) == m.higher;
      OverTheFloor(if up then x else -x, gap, base, r.floor);
    }
  }

  lemma ShareSign(x: real, base: real)
    requires base > 0.0
    ensures Share(x, base) > 0.0 ==> x > 0.0
    ensures Share(x, base) < 0.0 ==> x < 0.0
  {
    assert Share(x, base) * base == x * 100.0;
  }

  lemma ShareOver(x: real, y: real, base: real)
    requires base > 0.0
    ensures Share(x, base) > 2.0 * Share(y, base) <==> x > 2.0 * y
    ensures Share(x, base) > MIN_EFFECT_PCT <==> x > 0.03 * base
  {
    var p, q := x / base, y / base;
    assert x == p * base && y == q * base;
    assert (p - 2.0 * q) * base == x - 2.0 * y;
    assert (p - 0.03) * base == x - 0.03 * base;
  }

  /** How far the test median is off the mean of the baselines is more than the noise of all three
      lists: over 3%, and over twice each one's relative deviation. */
  predicate ClearsNoise(a: seq<real>, t: seq<real>, b: seq<real>, spread: seq<real> -> real)
    requires Comparable(a, t, b)
  {
    var off := Abs(Median(t) - Base(a, b));
    && off > 0.03 * Base(a, b)
    && Share(off, Base(a, b)) > 2.0 * spread(a)
    && Share(off, Base(a, b)) > 2.0 * spread(t)
    && Share(off, Base(a, b)) > 2.0 * spread(b)
  }

  /** Exactly when a metric counts as better or worse: the test is past both baselines that way by
      more than one and a half times their gap, and clears the noise. */
  lemma VerdictIff(m: Metric, a: seq<real>, t: seq<real>, b: seq<real>, spread: seq<real> -> real)
    requires Comparable(a, t, b) && Base(a, b) > 0.0
    ensures var v := RowOf(m, a, t, b, spread).verdict;
      && (v == Better <==> Beyond(m.higher, Median(a), Median(t), Median(b)) && ClearsNoise(a, t, b, spread))
      && (v == Worse <==> Beyond(!m.higher, Median(a), Median(t), Median(b)) && ClearsNoise(a, t, b, spread))
  {
    var base := Base(a, b);
    var x, gap := Median(t) - base, Abs(Median(a) - Median(b));
    NegatedShare(x, base);
    ShareOver(x, gap, base);
    ShareOver(-x, gap, base);
    assert Median(a) + Median(b) == 2.0 * base;
    hide Median, Share;
    OneWay(true, Median(a), Median(t), Median(b), base);
    OneWay(false, Median(a), Median(t), Median(b), base);
  }

  lemma OneWay(higher: bool, a: real, t: real, b: real, base: real)
    requires a + b == 2.0 * base
    ensures Beyond(higher, a, t, b) <==> (if higher then t - base else base - t) > 2.0 * Abs(a - b)
  {
  }

  /** And past twice the relative deviation of each of the three lists. */
  lemma VerdictClearsSpread(m: Metric, a: seq<real>, t: seq<real>, b: seq<real>, spread: seq<real> -> real, s: seq<real>)
    requires Comparable(a, t, b) && Base(a, b) > 0.0 && (s == a || s == t || s == b)
    requires RowOf(m, a, t, b, spread).verdict != NoChange
    ensures Share(Abs(Median(t) - Base(a, b)), Base(a, b)) > 2.0 * spread(s)
  {
    var r, base := RowOf(m, a, t, b, spread), Base(a, b);
    var x := Median(t) - base;
    NegatedShare(x, base);
    ShareSign(x, base);
    hide Median, Share;
  }

  /** So at least half the test repeats beat both baselines by that much. */
  lemma BetterMeansHalfBeat(m: Metric, a: seq<real>, t: seq<real>, b: seq<real>, spread: seq<real> -> real)
    requires Comparable(a, t, b) && Base(a, b) > 0.0 && RowOf(m, a, t, b, spread).verdict == Better
    ensures var gap := Abs(Median(a) - Median(b));
      exists bar: real ::
        if m.higher then bar > Max(Median(a), Median(b)) + 1.5 * gap && 2 * AtLeast(t, bar) >= |t|
        else bar < Min(Median(a), Median(b)) - 1.5 * gap && 2 * AtMost(t, bar) >= |t|
  {
    VerdictMeans(m, a, t, b, spread);
    HalfOnEachSide(t);
    var bar := Median(t);
    hide Median, AtLeast, AtMost;
  }

  /** A test median between the two baselines is never a change. */
  lemma BetweenIsNoChange(m: Metric, a: seq<real>, t: seq<real>, b: seq<real>, spread: seq<real> -> real)
    requires Comparable(a, t, b) && Base(a, b) > 0.0
    requires Min(Median(a), Median(b)) <= Median(t) <= Max(Median(a), Median(b))
    ensures RowOf(m, a, t, b, spread).verdict == NoChange
  {
    VerdictMeans(m, a, t, b, spread);
    hide Median;
  }

  /** Which baseline came first never matters, row by row and overall. */
  lemma {:induction false} BaselinesCommute(metrics: seq<Metric>, a: Reps, t: Reps, b: Reps, spread: seq<real> -> real)
    ensures Rows(metrics, a, t, b, spread) == Rows(metrics, b, t, a, spread)
    ensures Overall(Rows(metrics, a, t, b, spread)) == Overall(Rows(metrics, b, t, a, spread))
  {
    if |metrics| > 0 {
      BaselinesCommute(metrics[..|metrics| - 1], a, t, b, spread);
      var m := metrics[|metrics| - 1];
      RowCommutes(m, Get(a, m.name), Get(t, m.name), Get(b, m.name), spread);
    }
  }

  lemma RowCommutes(m: Metric, a: seq<real>, t: seq<real>, b: seq<real>, spread: seq<real> -> real)
    ensures Comparable(a, t, b) <==> Comparable(b, t, a)
    ensures Comparable(a, t, b) ==> RowOf(m, a, t, b, spread) == RowOf(m, b, t, a, spread)
  {
    hide Median;
  }

  function Mirrored(v: Verdict): Verdict {
    match v
    case Better => Worse
    case Worse => Better
    case NoChange => NoChange
  }

  function Mirror(rows: seq<Row>): (r: seq<Row>)
    ensures |r| == |rows| && forall i | 0 <= i < |rows| :: r[i] == rows[i].(verdict := Mirrored(rows[i].verdict))
  {
    seq(|rows|, i requires 0 <= i < |rows| => rows[i].(verdict := Mirrored(rows[i].verdict)))
  }

  /** Had every metric moved the other way, a win would be a loss; one change is enough for an
      effect, and one in each direction for a trade-off. */
  lemma OverallMirrors(rows: seq<Row>)
    ensures Overall(Mirror(rows)) == match Overall(rows) { case Win => Loss case Loss => Win case o => o }
    ensures Overall(rows) == Win <==> Has(rows, Better) && forall i | 0 <= i < |rows| :: rows[i].verdict != Worse
    ensures Overall(rows) == NoEffect <==> forall i | 0 <= i < |rows| :: rows[i].verdict == NoChange
    ensures Overall(rows) == Mixed <==> exists i, j | 0 <= i < |rows| && 0 <= j < |rows| ::
              rows[i].verdict == Better && rows[j].verdict == Worse
  {
    assert Has(Mirror(rows), Better) <==> Has(rows, Worse) by {
      if i :| 0 <= i < |rows| && rows[i].verdict == Worse { assert Mirror(rows)[i].verdict == Better; }
    }
    assert Has(Mirror(rows), Worse) <==> Has(rows, Better) by {
      if i :| 0 <= i < |rows| && rows[i].verdict == Better { assert Mirror(rows)[i].verdict == Worse; }
    }
  }
}
