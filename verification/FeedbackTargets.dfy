/** The targets the feedback loop computes from marketplace metrics. */
module FeedbackTargets {
  import opened Sequences
  import opened Weights

  /** One metric row; a column may be missing. */
  type Metric = map<string, real>

  function Columns(metrics: seq<Metric>): set<string> {
    if metrics == [] then {} else metrics[0].Keys + Columns(metrics[1..])
  }

  /** nansum: missing values count as nothing. */
  function NanSum(metrics: seq<Metric>, column: string): real {
    if metrics == [] then 0.0
    else (if column in metrics[0] then metrics[0][column] else 0.0) + NanSum(metrics[1..], column)
  }

  function Present(metrics: seq<Metric>, column: string): nat {
    if metrics == [] then 0 else (if column in metrics[0] then 1 else 0) + Present(metrics[1..], column)
  }

  lemma {:induction false} ColumnIsPresent(metrics: seq<Metric>, column: string)
    ensures column in Columns(metrics) <==> Present(metrics, column) > 0
  {
    if metrics != [] { ColumnIsPresent(metrics[1..], column); }
  }

  /** nanmean: the mean of what is there. */
  function NanMean(metrics: seq<Metric>, column: string): real
    requires column in Columns(metrics)
  {
    ColumnIsPresent(metrics, column);
    NanSum(metrics, column) / Present(metrics, column) as real
  }

  /** Ratio of sums, 0 for an empty denominator. */
  function Ratio(metrics: seq<Metric>, top: string, bottom: string): real {
    if NanSum(metrics, bottom) == 0.0 then 0.0 else NanSum(metrics, top) / NanSum(metrics, bottom)
  }

  function ClickRate(metrics: seq<Metric>): real {
    var cols := Columns(metrics);
    if {"clicks", "impressions"} <= cols then Ratio(metrics, "clicks", "impressions")
    else if {"favorites", "views"} <= cols then Ratio(metrics, "favorites", "views")
    else if "ctr" in cols then NanMean(metrics, "ctr")
    else 0.0
  }

  function ConversionRate(metrics: seq<Metric>): real {
    var cols := Columns(metrics);
    if {"purchases", "clicks"} <= cols then Ratio(metrics, "purchases", "clicks")
    else if {"orders", "favorites"} <= cols then Ratio(metrics, "orders", "favorites")
    else if {"orders", "views"} <= cols then Ratio(metrics, "orders", "views")
    else if {"conversions", "impressions"} <= cols then Ratio(metrics, "conversions", "impressions")
    else if "conversion_rate" in cols then NanMean(metrics, "conversion_rate")
    else 0.0
  }

  /** The arguments sent to the scoring engine. */
  function Targets(metrics: seq<Metric>): Arguments {
    [(Freshness, 1.0), (Engagement, ClickRate(metrics)), (Novelty, 1.0),
     (CommunityFit, ConversionRate(metrics)), (Seasonality, 1.0)]
  }

  // The ratio of sums lies between the rows' own ratios

  function Cell(m: Metric, column: string): real {
    if column in m then m[column] else 0.0
  }

  /** Each row has a positive denominator. */
  ghost predicate PositiveIn(metrics: seq<Metric>, bottom: string) {
    forall m :: m in metrics ==> Cell(m, bottom) > 0.0
  }

  function RowRate(m: Metric, top: string, bottom: string): real {
    if Cell(m, bottom) == 0.0 then 0.0 else Cell(m, top) / Cell(m, bottom)
  }

  lemma {:induction false} SumBetween(metrics: seq<Metric>, top: string, bottom: string, lo: real, hi: real)
    requires PositiveIn(metrics, bottom)
    requires forall m :: m in metrics ==> lo <= RowRate(m, top, bottom) <= hi
    ensures lo * NanSum(metrics, bottom) <= NanSum(metrics, top) <= hi * NanSum(metrics, bottom)
    ensures metrics != [] ==> NanSum(metrics, bottom) > 0.0
    decreases |metrics|
  {
    if metrics != [] {
      var m, rest := metrics[0], metrics[1..];
      assert metrics == [m] + rest;
      SumBetween(rest, top, bottom, lo, hi);
      TimesDenominator(m, top, bottom, lo, hi);
      BoundsAdd(lo, hi, Cell(m, bottom), NanSum(rest, bottom), Cell(m, top), NanSum(rest, top));
    }
  }

  lemma BoundsAdd(lo: real, hi: real, d: real, s: real, x: real, y: real)
    requires lo * d <= x <= hi * d && lo * s <= y <= hi * s
    ensures lo * (d + s) <= x + y <= hi * (d + s)
  {
    assert lo * (d + s) == lo * d + lo * s && hi * (d + s) == hi * d + hi * s;
  }

  lemma TimesDenominator(m: Metric, top: string, bottom: string, lo: real, hi: real)
    requires Cell(m, bottom) > 0.0 && lo <= RowRate(m, top, bottom) <= hi
    ensures lo * Cell(m, bottom) <= Cell(m, top) <= hi * Cell(m, bottom)
  {
    var d := Cell(m, bottom);
    var rate := RowRate(m, top, bottom);
    assert rate * d == Cell(m, top);
    assert lo * d <= rate * d <= hi * d;
  }

  lemma DivideBySum(top: real, bottom: real, lo: real, hi: real)
    requires bottom > 0.0 && lo * bottom <= top <= hi * bottom
    ensures lo <= top / bottom <= hi
  {
    var q := top / bottom;
    assert q * bottom == top;
    assert q < lo ==> q * bottom < lo * bottom;
    assert q > hi ==> q * bottom > hi * bottom;
  }

  /** Bounds on every row's own rate bound the ratio of sums. */
  lemma RatioBetween(metrics: seq<Metric>, top: string, bottom: string, lo: real, hi: real)
    requires metrics != [] && PositiveIn(metrics, bottom)
    requires forall m :: m in metrics ==> lo <= RowRate(m, top, bottom) <= hi
    ensures lo <= Ratio(metrics, top, bottom) <= hi
  {
    SumBetween(metrics, top, bottom, lo, hi);
    DivideBySum(NanSum(metrics, top), NanSum(metrics, bottom), lo, hi);
  }

  function LeastRate(metrics: seq<Metric>, top: string, bottom: string): (lo: real)
    requires metrics != []
    ensures forall m :: m in metrics ==> lo <= RowRate(m, top, bottom)
    ensures exists m :: m in metrics && lo == RowRate(m, top, bottom)
    decreases |metrics|
  {
    var rate := RowRate(metrics[0], top, bottom);
    if |metrics| == 1 then rate
    else
      var rest := LeastRate(metrics[1..], top, bottom);
      assert metrics == [metrics[0]] + metrics[1..];
      if rate <= rest then rate else rest
  }

  function GreatestRate(metrics: seq<Metric>, top: string, bottom: string): (hi: real)
    requires metrics != []
    ensures forall m :: m in metrics ==> RowRate(m, top, bottom) <= hi
    ensures exists m :: m in metrics && hi == RowRate(m, top, bottom)
    decreases |metrics|
  {
    var rate := RowRate(metrics[0], top, bottom);
    if |metrics| == 1 then rate
    else
      var rest := GreatestRate(metrics[1..], top, bottom);
      assert metrics == [metrics[0]] + metrics[1..];
      if rate >= rest then rate else rest
  }

  /** The click-rate target lies between the least and the greatest per-row rate when every row has impressions. */
  lemma ClickRateBetween(metrics: seq<Metric>)
    requires metrics != [] && "clicks" in Columns(metrics) && PositiveIn(metrics, "impressions")
    ensures LeastRate(metrics, "clicks", "impressions") <= ClickRate(metrics)
            <= GreatestRate(metrics, "clicks", "impressions")
  {
    assert metrics[0] in metrics;
    RatioBetween(metrics, "clicks", "impressions",
                 LeastRate(metrics, "clicks", "impressions"), GreatestRate(metrics, "clicks", "impressions"));
  }

  // Exactly when the bound holds

  /** The rows with one column replaced. */
  function WithColumn(metrics: seq<Metric>, column: string, values: seq<real>): (rows: seq<Metric>)
    requires |values| == |metrics|
    ensures |rows| == |metrics|
    ensures forall i :: 0 <= i < |rows| ==> rows[i] == metrics[i][column := values[i]]
  {
    if metrics == [] then []
    else [metrics[0][column := values[0]]] + WithColumn(metrics[1..], column, values[1..])
  }

  predicate NonNegative(values: seq<real>) {
    forall i :: 0 <= i < |values| ==> values[i] >= 0.0
  }

  /** The ratio of sums lies between the least and the greatest row rate; a row without denominator has rate 0. */
  ghost predicate InHull(metrics: seq<Metric>, top: string, bottom: string) {
    metrics != [] ==>
      LeastRate(metrics, top, bottom) <= Ratio(metrics, top, bottom) <= GreatestRate(metrics, top, bottom)
  }

  /** Whatever non-negative numerators the rows have, the ratio is in the hull of their rates. */
  ghost predicate AlwaysInHull(metrics: seq<Metric>, top: string, bottom: string) {
    forall values: seq<real> :: |values| == |metrics| && NonNegative(values) ==>
      InHull(WithColumn(metrics, top, values), top, bottom)
  }

  ghost predicate NoneIn(metrics: seq<Metric>, bottom: string) {
    forall m :: m in metrics ==> Cell(m, bottom) == 0.0
  }

  lemma {:induction false} SumOfNone(metrics: seq<Metric>, column: string)
    requires NoneIn(metrics, column)
    ensures NanSum(metrics, column) == 0.0
    decreases |metrics|
  {
    if metrics != [] {
      assert metrics[0] in metrics;
      SumOfNone(metrics[1..], column);
    }
  }

  lemma {:induction false} SumOfSome(metrics: seq<Metric>, column: string, k: nat)
    requires k < |metrics| && forall m :: m in metrics ==> Cell(m, column) >= 0.0
    ensures NanSum(metrics, column) >= Cell(metrics[k], column)
    decreases |metrics|
  {
    assert metrics[0] in metrics;
    if k > 0 {
      SumOfSome(metrics[1..], column, k - 1);
    } else {
      SumIsNonNegative(metrics[1..], column);
    }
  }

  lemma {:induction false} SumIsNonNegative(metrics: seq<Metric>, column: string)
    requires forall m :: m in metrics ==> Cell(m, column) >= 0.0
    ensures NanSum(metrics, column) >= 0.0
    decreases |metrics|
  {
    if metrics != [] {
      assert metrics[0] in metrics;
      SumIsNonNegative(metrics[1..], column);
    }
  }

  lemma {:induction false} SumKept(metrics: seq<Metric>, column: string, values: seq<real>, other: string)
    requires |values| == |metrics| && other != column
    ensures NanSum(WithColumn(metrics, column, values), other) == NanSum(metrics, other)
    decreases |metrics|
  {
    if metrics != [] {
      var rows := WithColumn(metrics, column, values);
      assert rows[1..] == WithColumn(metrics[1..], column, values[1..]);
      SumKept(metrics[1..], column, values[1..], other);
    }
  }

  lemma CellsKept(metrics: seq<Metric>, column: string, values: seq<real>, other: string)
    requires |values| == |metrics| && other != column
    requires PositiveIn(metrics, other) || NoneIn(metrics, other)
    ensures PositiveIn(metrics, other) ==> PositiveIn(WithColumn(metrics, column, values), other)
    ensures NoneIn(metrics, other) ==> NoneIn(WithColumn(metrics, column, values), other)
  {
    var rows := WithColumn(metrics, column, values);
    forall m | m in rows ensures exists q :: q in metrics && Cell(m, other) == Cell(q, other) {
      var i :| 0 <= i < |rows| && rows[i] == m;
      assert metrics[i] in metrics && Cell(m, other) == Cell(metrics[i], other);
    }
  }

  lemma AllPositiveInHull(metrics: seq<Metric>, top: string, bottom: string)
    requires PositiveIn(metrics, bottom)
    ensures InHull(metrics, top, bottom)
  {
    if metrics != [] {
      RatioBetween(metrics, top, bottom, LeastRate(metrics, top, bottom), GreatestRate(metrics, top, bottom));
    }
  }

  lemma NoneInHull(metrics: seq<Metric>, top: string, bottom: string)
    requires NoneIn(metrics, bottom)
    ensures InHull(metrics, top, bottom)
  {
    SumOfNone(metrics, bottom);
    assert forall m :: m in metrics ==> RowRate(m, top, bottom) == 0.0;
  }

  /** One in row k and nothing anywhere else. */
  function OneAt(n: nat, k: nat): (values: seq<real>)
    ensures |values| == n && forall i :: 0 <= i < n ==> values[i] == if i == k then 1.0 else 0.0
  {
    seq(n, i => if i == k then 1.0 else 0.0)
  }

  /** One click on a row without impressions, beside a row that has some: the ratio is above every row's rate. */
  lemma StrayClickEscapes(metrics: seq<Metric>, top: string, bottom: string, k: nat, l: nat)
    requires top != bottom && k < |metrics| && l < |metrics|
    requires forall m :: m in metrics ==> Cell(m, bottom) >= 0.0
    requires Cell(metrics[k], bottom) == 0.0 && Cell(metrics[l], bottom) > 0.0
    ensures var rows := WithColumn(metrics, top, OneAt(|metrics|, k));
            Ratio(rows, top, bottom) > GreatestRate(rows, top, bottom)
  {
    var rows := WithColumn(metrics, top, OneAt(|metrics|, k));
    SumKept(metrics, top, OneAt(|metrics|, k), bottom);
    SumOfSome(metrics, bottom, l);
    StrayRates(metrics, top, bottom, k);
    SumOfSome(rows, top, k);
    PositiveQuotient(NanSum(rows, top), NanSum(rows, bottom));
  }

  lemma StrayRates(metrics: seq<Metric>, top: string, bottom: string, k: nat)
    requires top != bottom && k < |metrics| && Cell(metrics[k], bottom) == 0.0
    ensures forall m :: m in WithColumn(metrics, top, OneAt(|metrics|, k)) ==>
              Cell(m, top) >= 0.0 && RowRate(m, top, bottom) == 0.0
  {
    var rows := WithColumn(metrics, top, OneAt(|metrics|, k));
    forall m | m in rows ensures Cell(m, top) >= 0.0 && RowRate(m, top, bottom) == 0.0 {
      var i :| 0 <= i < |rows| && rows[i] == m;
      assert Cell(m, bottom) == Cell(metrics[i], bottom);
      assert Cell(m, top) == if i == k then 1.0 else 0.0;
      if Cell(m, bottom) != 0.0 { ZeroQuotient(Cell(m, bottom)); }
    }
  }

  lemma ZeroQuotient(y: real)
    requires y != 0.0
    ensures 0.0 / y == 0.0
  {
  }

  lemma PositiveQuotient(x: real, y: real)
    requires x > 0.0 && y > 0.0
    ensures x / y > 0.0
  {
  }

  /**
   For rows with non-negative impressions, the ratio of sums lies between the least and the greatest row
   rate for every click column exactly when all rows have impressions, or none has.
   */
  lemma HullIff(metrics: seq<Metric>, top: string, bottom: string)
    requires top != bottom && forall m :: m in metrics ==> Cell(m, bottom) >= 0.0
    ensures AlwaysInHull(metrics, top, bottom) <==> PositiveIn(metrics, bottom) || NoneIn(metrics, bottom)
  {
    if PositiveIn(metrics, bottom) || NoneIn(metrics, bottom) {
      forall values: seq<real> | |values| == |metrics| && NonNegative(values)
        ensures InHull(WithColumn(metrics, top, values), top, bottom)
      {
        var rows := WithColumn(metrics, top, values);
        CellsKept(metrics, top, values, bottom);
        if PositiveIn(metrics, bottom) {
          AllPositiveInHull(rows, top, bottom);
        } else {
          NoneInHull(rows, top, bottom);
        }
      }
    } else {
      var m :| m in metrics && Cell(m, bottom) == 0.0;
      var k :| 0 <= k < |metrics| && metrics[k] == m;
      var q :| q in metrics && Cell(q, bottom) > 0.0;
      var l :| 0 <= l < |metrics| && metrics[l] == q;
      StrayClickEscapes(metrics, top, bottom, k, l);
      assert NonNegative(OneAt(|metrics|, k));
      assert !InHull(WithColumn(metrics, top, OneAt(|metrics|, k)), top, bottom);
    }
  }

  /** The same for the click-rate target, which is that ratio for rows that report clicks and impressions. */
  ghost predicate ClickRateInHull(metrics: seq<Metric>) {
    metrics != [] ==>
      LeastRate(metrics, "clicks", "impressions") <= ClickRate(metrics)
      <= GreatestRate(metrics, "clicks", "impressions")
  }

  ghost predicate ClickRateAlwaysInHull(metrics: seq<Metric>) {
    forall clicks: seq<real> :: |clicks| == |metrics| && NonNegative(clicks) ==>
      ClickRateInHull(WithColumn(metrics, "clicks", clicks))
  }

  lemma ClickRateIsRatio(metrics: seq<Metric>, clicks: seq<real>)
    requires "impressions" in Columns(metrics) && |clicks| == |metrics|
    ensures var rows := WithColumn(metrics, "clicks", clicks);
            ClickRate(rows) == Ratio(rows, "clicks", "impressions")
  {
    ColumnsAfter(metrics, "clicks", clicks);
  }

  lemma SameHull(metrics: seq<Metric>, clicks: seq<real>)
    requires "impressions" in Columns(metrics) && |clicks| == |metrics|
    ensures var rows := WithColumn(metrics, "clicks", clicks);
            ClickRateInHull(rows) <==> InHull(rows, "clicks", "impressions")
  {
    ClickRateIsRatio(metrics, clicks);
  }

  lemma ClickRateInHullIff(metrics: seq<Metric>)
    requires "impressions" in Columns(metrics) && forall m :: m in metrics ==> Cell(m, "impressions") >= 0.0
    ensures ClickRateAlwaysInHull(metrics) <==> PositiveIn(metrics, "impressions") || NoneIn(metrics, "impressions")
  {
    HullIff(metrics, "clicks", "impressions");
    forall clicks: seq<real> | |clicks| == |metrics|
      ensures ClickRateInHull(WithColumn(metrics, "clicks", clicks))
              <==> InHull(WithColumn(metrics, "clicks", clicks), "clicks", "impressions")
    {
      SameHull(metrics, clicks);
    }
  }

  /** The smallest example: a row with clicks but no impressions beside an ordinary one. */
  lemma MissingImpressionsEscape(clicks: real)
    requires clicks > 0.0
    ensures var metrics := [map["clicks" := 1.0, "impressions" := 1.0], map["clicks" := clicks]];
            ClickRate(metrics) == 1.0 + clicks > GreatestRate(metrics, "clicks", "impressions")
  {
    var whole: Metric := map["clicks" := 1.0, "impressions" := 1.0];
    var stray: Metric := map["clicks" := clicks];
    var metrics := [whole, stray];
    assert metrics[1..] == [stray] && [stray][1..] == [];
    assert NanSum([stray], "impressions") == 0.0 && NanSum([stray], "clicks") == clicks;
    assert Columns(metrics) == whole.Keys + Columns([stray]);
    assert RowRate(whole, "clicks", "impressions") == 1.0;
    assert RowRate(stray, "clicks", "impressions") == 0.0;
  }

  lemma {:induction false} ColumnsAfter(metrics: seq<Metric>, column: string, values: seq<real>)
    requires |values| == |metrics|
    ensures Columns(WithColumn(metrics, column, values)) == Columns(metrics) + if metrics == [] then {} else {column}
    decreases |metrics|
  {
    if metrics != [] {
      var rows := WithColumn(metrics, column, values);
      assert rows[1..] == WithColumn(metrics[1..], column, values[1..]);
      ColumnsAfter(metrics[1..], column, values[1..]);
      assert rows[0].Keys == metrics[0].Keys + {column};
    }
  }

  // What the targets depend on

  lemma {:induction false} SumConcat(a: seq<Metric>, b: seq<Metric>, column: string)
    ensures NanSum(a + b, column) == NanSum(a, column) + NanSum(b, column)
    ensures Present(a + b, column) == Present(a, column) + Present(b, column)
    ensures Columns(a + b) == Columns(a) + Columns(b)
    decreases |a|
  {
    if a == [] {
      assert a + b == b;
    } else {
      assert (a + b)[1..] == a[1..] + b;
      SumConcat(a[1..], b, column);
    }
  }

  /** Moving the first row of a batch anywhere else changes no sum, no count and no column. */
  lemma SumMoved(a: seq<Metric>, b: seq<Metric>, m: Metric, column: string)
    ensures NanSum(a + [m] + b, column) == NanSum([m] + (a + b), column)
    ensures Present(a + [m] + b, column) == Present([m] + (a + b), column)
    ensures Columns(a + [m] + b) == Columns([m] + (a + b))
  {
    SumConcat(a + [m], b, column);
    SumConcat(a, [m], column);
    SumConcat([m], a + b, column);
    SumConcat(a, b, column);
  }

  lemma {:induction false} SumPermuted(a: seq<Metric>, b: seq<Metric>, column: string)
    requires multiset(a) == multiset(b)
    ensures NanSum(a, column) == NanSum(b, column) && Present(a, column) == Present(b, column)
    ensures Columns(a) == Columns(b)
    decreases |a|
  {
    assert |multiset(a)| == |a| && |multiset(b)| == |b|;
    if a != [] {
      assert a[0] in multiset(b);
      var k :| 0 <= k < |b| && b[k] == a[0];
      var rest := b[..k] + b[k + 1..];
      assert b == b[..k] + [b[k]] + b[k + 1..];
      assert multiset([a[0]] + rest) == multiset(b);
      TailsAgree(a, [a[0]] + rest);
      assert ([a[0]] + rest)[1..] == rest;
      SumPermuted(a[1..], rest, column);
      SumMoved(b[..k], b[k + 1..], b[k], column);
    }
  }

  /** The targets do not depend on the order in which the metric rows arrive. */
  lemma TargetsIgnoreRowOrder(a: seq<Metric>, b: seq<Metric>)
    requires multiset(a) == multiset(b)
    ensures Targets(a) == Targets(b)
  {
    forall column ensures NanSum(a, column) == NanSum(b, column) && Present(a, column) == Present(b, column) {
      SumPermuted(a, b, column);
    }
    SumPermuted(a, b, "");
  }

  /** `part` times the total of `whole` is the total of `of`, as long as there is any of `whole`. */
  ghost predicate Share(metrics: seq<Metric>, part: real, of: string, whole: string) {
    if NanSum(metrics, whole) == 0.0 then part == 0.0 else part * NanSum(metrics, whole) == NanSum(metrics, of)
  }

  /** The rows that report the column. */
  function Reporting(metrics: seq<Metric>, column: string): set<nat> {
    set i: nat | i < |metrics| && column in metrics[i]
  }

  /** `x` times the number of rows that report the column is their total. */
  ghost predicate Average(metrics: seq<Metric>, x: real, column: string) {
    x * |Reporting(metrics, column)| as real == NanSum(metrics, column)
  }

  lemma ReportingGrows(front: seq<Metric>, m: Metric, column: string)
    ensures |Reporting(front + [m], column)| == |Reporting(front, column)| + if column in m then 1 else 0
  {
    var n := |front|;
    assert n !in Reporting(front, column);
    assert Reporting(front + [m], column) == Reporting(front, column) + if column in m then {n} else {};
  }

  lemma {:induction false} PresentCounts(metrics: seq<Metric>, column: string)
    ensures Present(metrics, column) == |Reporting(metrics, column)|
    decreases |metrics|
  {
    if metrics != [] {
      var n := |metrics| - 1;
      var front, m := metrics[..n], metrics[n];
      PresentCounts(front, column);
      assert metrics == front + [m] && [m][1..] == [];
      SumConcat(front, [m], column);
      ReportingGrows(front, m, column);
    }
  }

  /** A total is that of its parts; a row without the column adds nothing. */
  lemma SumAdds(m: Metric, a: seq<Metric>, b: seq<Metric>, column: string)
    ensures NanSum([], column) == 0.0
    ensures NanSum([m], column) == if column in m then m[column] else 0.0
    ensures NanSum(a + b, column) == NanSum(a, column) + NanSum(b, column)
  {
    SumConcat(a, b, column);
    assert NanSum([m][1..], column) == 0.0;
  }

  predicate Reports(metrics: seq<Metric>, column: string) {
    exists m :: m in metrics && column in m
  }

  predicate ReportBoth(metrics: seq<Metric>, a: string, b: string) {
    Reports(metrics, a) && Reports(metrics, b)
  }

  /**
   The click rate is the share of clicks in impressions if both are reported, else of favourites in views,
   else the average of the rates reported, else nothing.
   */
  ghost predicate IsClickRate(metrics: seq<Metric>, ctr: real) {
    if ReportBoth(metrics, "clicks", "impressions") then Share(metrics, ctr, "clicks", "impressions")
    else if ReportBoth(metrics, "favorites", "views") then Share(metrics, ctr, "favorites", "views")
    else if Reports(metrics, "ctr") then Average(metrics, ctr, "ctr")
    else ctr == 0.0
  }

  /** The conversion rate: purchases per click, orders per favourite, orders per view, conversions per impression. */
  ghost predicate IsConversionRate(metrics: seq<Metric>, rate: real) {
    if ReportBoth(metrics, "purchases", "clicks") then Share(metrics, rate, "purchases", "clicks")
    else if ReportBoth(metrics, "orders", "favorites") then Share(metrics, rate, "orders", "favorites")
    else if ReportBoth(metrics, "orders", "views") then Share(metrics, rate, "orders", "views")
    else if ReportBoth(metrics, "conversions", "impressions") then Share(metrics, rate, "conversions", "impressions")
    else if Reports(metrics, "conversion_rate") then Average(metrics, rate, "conversion_rate")
    else rate == 0.0
  }

  lemma {:induction false} ReportedColumns(metrics: seq<Metric>, column: string)
    ensures column in Columns(metrics) <==> Reports(metrics, column)
    decreases |metrics|
  {
    if metrics != [] {
      ReportedColumns(metrics[1..], column);
      assert metrics == [metrics[0]] + metrics[1..];
    }
  }

  lemma RatioIsShare(metrics: seq<Metric>, top: string, bottom: string)
    ensures Share(metrics, Ratio(metrics, top, bottom), top, bottom)
  {
  }

  lemma MeanIsAverage(metrics: seq<Metric>, column: string)
    requires column in Columns(metrics)
    ensures Average(metrics, NanMean(metrics, column), column)
  {
    ColumnIsPresent(metrics, column);
    PresentCounts(metrics, column);
  }

  lemma PairReported(metrics: seq<Metric>, a: string, b: string)
    ensures {a, b} <= Columns(metrics) <==> ReportBoth(metrics, a, b)
    ensures Share(metrics, Ratio(metrics, a, b), a, b)
  {
    ReportedColumns(metrics, a);
    ReportedColumns(metrics, b);
    RatioIsShare(metrics, a, b);
  }

  lemma OneReported(metrics: seq<Metric>, column: string)
    ensures column in Columns(metrics) <==> Reports(metrics, column)
    ensures column in Columns(metrics) ==> Average(metrics, NanMean(metrics, column), column)
  {
    ReportedColumns(metrics, column);
    if column in Columns(metrics) { MeanIsAverage(metrics, column); }
  }

  lemma ClickRateMeans(metrics: seq<Metric>)
    ensures IsClickRate(metrics, ClickRate(metrics))
  {
    PairReported(metrics, "clicks", "impressions");
    PairReported(metrics, "favorites", "views");
    OneReported(metrics, "ctr");
  }

  lemma ConversionRateMeans(metrics: seq<Metric>)
    ensures IsConversionRate(metrics, ConversionRate(metrics))
  {
    PairReported(metrics, "purchases", "clicks");
    PairReported(metrics, "orders", "favorites");
    PairReported(metrics, "orders", "views");
    PairReported(metrics, "conversions", "impressions");
    OneReported(metrics, "conversion_rate");
  }

  // The loop as a whole

  /** One feedback round: the targets of its metrics, blended with the feedback smoothing. */
  function Round(metrics: seq<Metric>): Update {
    Update(FEEDBACK_SMOOTHING, Targets(metrics))
  }

  function Rounds(batches: seq<seq<Metric>>): (updates: seq<Update>)
    ensures |updates| == |batches|
    ensures forall i :: 0 <= i < |batches| ==> updates[i] == Round(batches[i])
  {
    if batches == [] then [] else [Round(batches[0])] + Rounds(batches[1..])
  }

  /** Every row of the batch was shown, and its own click rate is within the bounds. */
  ghost predicate RatesWithin(metrics: seq<Metric>, lo: real, hi: real) {
    && metrics != [] && "clicks" in Columns(metrics) && PositiveIn(metrics, "impressions")
    && forall m :: m in metrics ==> lo <= RowRate(m, "clicks", "impressions") <= hi
  }

  /**
   Over any number of feedback rounds the engagement weight never leaves an interval that holds its start
   and every click rate seen on a single row.
   */
  lemma EngagementStaysInRange(w: Row, batches: seq<seq<Metric>>, lo: real, hi: real)
    requires lo <= w.engagement <= hi
    requires forall b :: b in batches ==> RatesWithin(b, lo, hi)
    ensures lo <= Run(w, Rounds(batches)).engagement <= hi
  {
    var updates := Rounds(batches);
    forall u | u in updates ensures 0.0 <= u.smoothing <= 1.0 && TargetsWithin(u.arguments, Engagement, lo, hi) {
      var i :| 0 <= i < |updates| && updates[i] == u;
      RoundStays(batches[i], lo, hi);
    }
    WeightsStayInHull(w, updates, Engagement, lo, hi);
  }

  lemma RoundStays(metrics: seq<Metric>, lo: real, hi: real)
    requires RatesWithin(metrics, lo, hi)
    ensures TargetsWithin(Targets(metrics), Engagement, lo, hi)
  {
    assert metrics[0] in metrics;
    RatioBetween(metrics, "clicks", "impressions", lo, hi);
    assert lo <= ClickRate(metrics) <= hi;
  }

  /**
   The branches of the updater, in order: the engagement target is a click rate and the community-fit target
   a conversion rate of the metrics, and the other targets are 1.
   */
  method ComputeWeights(metrics: seq<Metric>) returns (weights: Arguments)
    ensures weights == Targets(metrics)
    ensures exists ctr, rate :: IsClickRate(metrics, ctr) && IsConversionRate(metrics, rate)
              && weights == [(Freshness, 1.0), (Engagement, ctr), (Novelty, 1.0), (CommunityFit, rate),
                             (Seasonality, 1.0)]
  {
    ClickRateMeans(metrics);
    ConversionRateMeans(metrics);
    var cols := Columns(metrics);
    var ctr := 0.0;
    if {"clicks", "impressions"} <= cols {
      ctr := Ratio(metrics, "clicks", "impressions");
    } else if {"favorites", "views"} <= cols {
      ctr := Ratio(metrics, "favorites", "views");
    } else if "ctr" in cols {
      ctr := NanMean(metrics, "ctr");
    }
    var conversions := 0.0;
    if {"purchases", "clicks"} <= cols {
      conversions := Ratio(metrics, "purchases", "clicks");
    } else if {"orders", "favorites"} <= cols {
      conversions := Ratio(metrics, "orders", "favorites");
    } else if {"orders", "views"} <= cols {
      conversions := Ratio(metrics, "orders", "views");
    } else if {"conversions", "impressions"} <= cols {
      conversions := Ratio(metrics, "conversions", "impressions");
    } else if "conversion_rate" in cols {
      conversions := NanMean(metrics, "conversion_rate");
    }
    weights := [(Freshness, 1.0), (Engagement, ctr), (Novelty, 1.0), (CommunityFit, conversions), (Seasonality, 1.0)];
  }
}
