/** The scoring weights row and its smoothed updates. */
module Weights {
  import opened Options

  const FEEDBACK_SMOOTHING := 0.1

  /** The columns of the row; a keyword argument that names none of them is ignored. */
  datatype Field = Freshness | Engagement | Novelty | CommunityFit | Seasonality | Unknown

  datatype Row = Row(freshness: real, engagement: real, novelty: real, communityFit: real, seasonality: real)

  /** Keyword arguments in call order. */
  type Arguments = seq<(Field, real)>

  datatype Update = Update(smoothing: real, arguments: Arguments)

  /** float(None) on the attributes of a row that was never stored. */
  datatype Outcome = Updated(row: Row) | TypeError

  const DEFAULTS := Row(1.0, 1.0, 1.0, 1.0, 1.0)

  function Get(w: Row, f: Field): real {
    match f
    case Freshness => w.freshness
    case Engagement => w.engagement
    case Novelty => w.novelty
    case CommunityFit => w.communityFit
    case Seasonality => w.seasonality
    case Unknown => 0.0
  }

  function Set(w: Row, f: Field, x: real): (r: Row)
    ensures forall g :: g != f ==> Get(r, g) == Get(w, g)
    ensures f != Unknown ==> Get(r, f) == x
  {
    match f
    case Freshness => w.(freshness := x)
    case Engagement => w.(engagement := x)
    case Novelty => w.(novelty := x)
    case CommunityFit => w.(communityFit := x)
    case Seasonality => w.(seasonality := x)
    case Unknown => w
  }

  function Blend(current: real, target: real, smoothing: real): real {
    current * (1.0 - smoothing) + target * smoothing
  }

  /** The row after the arguments have been blended in one by one. */
  function Blended(w: Row, smoothing: real, arguments: Arguments): Row
    decreases |arguments|
  {
    if arguments == [] then w
    else
      var n := |arguments| - 1;
      var before := Blended(w, smoothing, arguments[..n]);
      var (f, target) := arguments[n];
      Set(before, f, Blend(Get(before, f), target, smoothing))
  }

  predicate NamesAColumn(arguments: Arguments) {
    exists a :: a in arguments && a.0 != Unknown
  }

  /** The stored row and the outcome of one call. */
  function Applied(stored: Option<Row>, u: Update): (Option<Row>, Outcome) {
    match stored
    case Some(w) =>
      var r := Blended(w, u.smoothing, u.arguments);
      (Some(r), Updated(r))
    case None =>
      if NamesAColumn(u.arguments) then (None, TypeError) else (Some(DEFAULTS), Updated(DEFAULTS))
  }

  function Run(w: Row, updates: seq<Update>): Row
    decreases |updates|
  {
    if updates == [] then w
    else
      var last := updates[|updates| - 1];
      Blended(Run(w, updates[..|updates| - 1]), last.smoothing, last.arguments)
  }

  class WeightRepository {
    var stored: Option<Row>

    constructor ()
      ensures stored == None
    {
      stored := None;
    }

    /** The row, created with defaults if there is none. */
    method GetWeights() returns (w: Row)
      modifies this
      ensures stored == Some(w)
      ensures w == if old(stored).Some? then old(stored).value else Row(1.0, 1.0, 1.0, 1.0, 1.0)
    {
      if stored.None? {
        stored := Some(DEFAULTS);
      }
      w := stored.value;
    }

    /**
     Blend every argument into its column. On a row that does not exist yet the attributes are None, so the
     first argument that names a column raises and nothing is stored.
     */
    method UpdateWeights(smoothing: real, arguments: Arguments) returns (outcome: Outcome)
      modifies this
      ensures (stored, outcome) == Applied(old(stored), Update(smoothing, arguments))
    {
      var current := stored;
      for i := 0 to |arguments|
        invariant stored == old(stored)
        invariant stored.None? ==> current.None? && forall k :: 0 <= k < i ==> arguments[k].0 == Unknown
        invariant stored.Some? ==> current == Some(Blended(stored.value, smoothing, arguments[..i]))
      {
        var (f, target) := arguments[i];
        assert arguments[..i + 1][..i] == arguments[..i];
        if f != Unknown {
          if current.None? {
            assert arguments[i] in arguments;
            return TypeError;
          }
          current := Some(Set(current.value, f, Blend(Get(current.value, f), target, smoothing)));
        }
      }
      assert arguments[..|arguments|] == arguments;
      stored := Some(if current.Some? then current.value else DEFAULTS);
      outcome := Updated(stored.value);
    }
  }

  /** A call raises exactly when there is no row yet and some argument names a column; then nothing is stored. */
  lemma RaisesIff(stored: Option<Row>, u: Update)
    ensures Applied(stored, u).1 == TypeError <==> stored.None? && NamesAColumn(u.arguments)
    ensures Applied(stored, u).1 == TypeError <==> Applied(stored, u).0 == None
  {
  }

  /** The first feedback of a fresh installation raises. */
  lemma FirstUpdateRaises(target: real)
    ensures Applied(None, Update(FEEDBACK_SMOOTHING, [(Freshness, target)])) == (None, TypeError)
  {
    assert (Freshness, target) in [(Freshness, target)];
  }

  // Staying between start and targets

  ghost predicate BlendStays(current: real, target: real, smoothing: real, lo: real, hi: real) {
    lo <= current <= hi && lo <= target <= hi ==> lo <= Blend(current, target, smoothing) <= hi
  }

  /** A blend lies between its ends for every pair of ends exactly when the smoothing is in [0, 1]. */
  lemma BlendInHull(smoothing: real)
    ensures 0.0 <= smoothing <= 1.0 <==>
            forall current, target, lo, hi :: BlendStays(current, target, smoothing, lo, hi)
  {
    if 0.0 <= smoothing <= 1.0 {
      forall current, target, lo, hi ensures BlendStays(current, target, smoothing, lo, hi) {
        if lo <= current <= hi && lo <= target <= hi {
          BlendBetween(current, target, smoothing, lo, hi);
        }
      }
    } else {
      assert Blend(0.0, 1.0, smoothing) == smoothing;
      assert !BlendStays(0.0, 1.0, smoothing, 0.0, 1.0);
    }
  }

  lemma Split(x: real, part: real, rest: real)
    requires part + rest == 1.0
    ensures x * rest + x * part == x
  {
  }

  lemma WeightedAtMost(x: real, y: real, part: real, rest: real, hi: real)
    requires part + rest == 1.0 && part >= 0.0 && rest >= 0.0 && x <= hi && y <= hi
    ensures x * rest + y * part <= hi
  {
    Split(hi, part, rest);
    assert (hi - x) * rest >= 0.0;
    assert (hi - y) * part >= 0.0;
  }

  lemma WeightedAtLeast(x: real, y: real, part: real, rest: real, lo: real)
    requires part + rest == 1.0 && part >= 0.0 && rest >= 0.0 && lo <= x && lo <= y
    ensures lo <= x * rest + y * part
  {
    Split(lo, part, rest);
    assert (x - lo) * rest >= 0.0;
    assert (y - lo) * part >= 0.0;
  }

  lemma BlendBetween(current: real, target: real, smoothing: real, lo: real, hi: real)
    requires 0.0 <= smoothing <= 1.0 && lo <= current <= hi && lo <= target <= hi
    ensures lo <= Blend(current, target, smoothing) <= hi
  {
    WeightedAtMost(current, target, smoothing, 1.0 - smoothing, hi);
    WeightedAtLeast(current, target, smoothing, 1.0 - smoothing, lo);
  }

  /** Every argument for this column lies between the bounds. */
  ghost predicate TargetsWithin(arguments: Arguments, f: Field, lo: real, hi: real) {
    forall a :: a in arguments && a.0 == f ==> lo <= a.1 <= hi
  }

  lemma {:induction false} BlendedStays(w: Row, smoothing: real, arguments: Arguments, f: Field, lo: real, hi: real)
    requires f != Unknown && 0.0 <= smoothing <= 1.0
    requires lo <= Get(w, f) <= hi && TargetsWithin(arguments, f, lo, hi)
    ensures lo <= Get(Blended(w, smoothing, arguments), f) <= hi
    decreases |arguments|
  {
    if arguments != [] {
      var n := |arguments| - 1;
      assert arguments == arguments[..n] + [arguments[n]];
      BlendedStays(w, smoothing, arguments[..n], f, lo, hi);
      if arguments[n].0 == f {
        BlendBetween(Get(Blended(w, smoothing, arguments[..n]), f), arguments[n].1, smoothing, lo, hi);
      }
    }
  }

  /**
   Over any run of updates with smoothing in [0, 1], each weight stays inside every interval that holds its
   start and the targets it was given.
   */
  lemma {:induction false} WeightsStayInHull(w: Row, updates: seq<Update>, f: Field, lo: real, hi: real)
    requires f != Unknown && lo <= Get(w, f) <= hi
    requires forall u :: u in updates ==> 0.0 <= u.smoothing <= 1.0 && TargetsWithin(u.arguments, f, lo, hi)
    ensures lo <= Get(Run(w, updates), f) <= hi
    decreases |updates|
  {
    if updates != [] {
      var n := |updates| - 1;
      assert updates == updates[..n] + [updates[n]];
      WeightsStayInHull(w, updates[..n], f, lo, hi);
      BlendedStays(Run(w, updates[..n]), updates[n].smoothing, updates[n].arguments, f, lo, hi);
    }
  }

  // Repeated updates towards one target

  function Power(base: real, k: nat): real {
    if k == 0 then 1.0 else base * Power(base, k - 1)
  }

  /** The column is named once, with this target; keyword arguments have distinct names. */
  ghost predicate Sets(arguments: Arguments, f: Field, target: real) {
    exists i :: 0 <= i < |arguments| && arguments[i] == (f, target)
                && forall k :: 0 <= k < |arguments| && k != i ==> arguments[k].0 != f
  }

  lemma {:induction false} BlendedElsewhere(w: Row, smoothing: real, arguments: Arguments, f: Field)
    requires forall k :: 0 <= k < |arguments| ==> arguments[k].0 != f
    ensures Get(Blended(w, smoothing, arguments), f) == Get(w, f)
    decreases |arguments|
  {
    if arguments != [] { BlendedElsewhere(w, smoothing, arguments[..|arguments| - 1], f); }
  }

  lemma {:induction false} BlendedOnce(w: Row, smoothing: real, arguments: Arguments, f: Field, i: nat)
    requires f != Unknown && i < |arguments| && arguments[i].0 == f
    requires forall k :: 0 <= k < |arguments| && k != i ==> arguments[k].0 != f
    ensures Get(Blended(w, smoothing, arguments), f) == Blend(Get(w, f), arguments[i].1, smoothing)
    decreases |arguments|
  {
    var n := |arguments| - 1;
    if i == n {
      BlendedElsewhere(w, smoothing, arguments[..n], f);
    } else {
      BlendedOnce(w, smoothing, arguments[..n], f, i);
    }
  }

  lemma SetsOnce(w: Row, u: Update, f: Field, target: real)
    requires f != Unknown && Sets(u.arguments, f, target)
    ensures Get(Blended(w, u.smoothing, u.arguments), f) == Blend(Get(w, f), target, u.smoothing)
  {
    var arguments := u.arguments;
    var i :| 0 <= i < |arguments| && arguments[i] == (f, target)
             && forall k :: 0 <= k < |arguments| && k != i ==> arguments[k].0 != f;
    BlendedOnce(w, u.smoothing, arguments, f, i);
  }

  /** k updates towards one target T leave T + (1 - smoothing)^k * (start - T). */
  lemma {:induction false} GeometricApproach(w: Row, updates: seq<Update>, f: Field, target: real, smoothing: real)
    requires f != Unknown
    requires forall u :: u in updates ==> u.smoothing == smoothing && Sets(u.arguments, f, target)
    ensures Get(Run(w, updates), f) == target + Power(1.0 - smoothing, |updates|) * (Get(w, f) - target)
    decreases |updates|
  {
    if updates != [] {
      var n := |updates| - 1;
      assert updates == updates[..n] + [updates[n]];
      GeometricApproach(w, updates[..n], f, target, smoothing);
      ApproachStep(Run(w, updates[..n]), updates[n], f, target, Power(1.0 - smoothing, n), Get(w, f) - target);
    }
  }

  lemma ApproachStep(before: Row, u: Update, f: Field, target: real, power: real, gap: real)
    requires f != Unknown && Sets(u.arguments, f, target)
    requires Get(before, f) == target + power * gap
    ensures Get(Blended(before, u.smoothing, u.arguments), f) == target + ((1.0 - u.smoothing) * power) * gap
  {
    SetsOnce(before, u, f, target);
    OneMoreFactor(Get(before, f), target, u.smoothing, power, (1.0 - u.smoothing) * power, gap);
  }

  lemma OneMoreFactor(current: real, target: real, smoothing: real, power: real, next: real, gap: real)
    requires current == target + power * gap && next == (1.0 - smoothing) * power
    ensures Blend(current, target, smoothing) == target + next * gap
  {
    var rest := 1.0 - smoothing;
    assert current * rest == target * rest + (power * gap) * rest;
    Split(target, smoothing, rest);
    assert (power * gap) * rest == next * gap;
  }

  /** With the feedback smoothing the gap shrinks to nine tenths each time. */
  lemma FeedbackApproach(w: Row, updates: seq<Update>, f: Field, target: real)
    requires f != Unknown
    requires forall u :: u in updates ==> u.smoothing == FEEDBACK_SMOOTHING && Sets(u.arguments, f, target)
    ensures Get(Run(w, updates), f) == target + Power(0.9, |updates|) * (Get(w, f) - target)
  {
    GeometricApproach(w, updates, f, target, FEEDBACK_SMOOTHING);
  }
}
