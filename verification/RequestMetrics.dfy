/** Request durations buffered per label and flushed in batches, against observing each request at once. */
module RequestMetrics {
  const BATCH_SIZE := 100

  /** Method and normalised path. */
  type Label = (string, string)

  datatype Bound = Finite(value: real) | Infinity

  predicate Within(v: real, bound: Bound) {
    bound.Infinity? || v <= bound.value
  }

  datatype Histogram = Histogram(sum: real, buckets: seq<nat>)

  /** What one label exports: the request counter and the latency histogram. */
  datatype Series = Series(count: nat, latency: Histogram)

  type Buffer = map<Label, seq<real>>
  type Exported = map<Label, Series>

  datatype State = State(buffer: Buffer, exported: Exported)

  datatype Event = Request(key: Label, duration: real) | Scrape

  // Observing one value

  /** The first bucket whose bound admits v; |bounds| if there is none. */
  function BucketOf(bounds: seq<Bound>, v: real): (i: nat)
    ensures i <= |bounds|
    ensures i < |bounds| ==> Within(v, bounds[i])
    ensures forall j :: 0 <= j < i ==> !Within(v, bounds[j])
  {
    if bounds == [] || Within(v, bounds[0]) then 0 else 1 + BucketOf(bounds[1..], v)
  }

  function Observe(bounds: seq<Bound>, h: Histogram, v: real): (r: Histogram)
    requires |h.buckets| == |bounds|
    ensures |r.buckets| == |bounds|
  {
    var i := BucketOf(bounds, v);
    Histogram(h.sum + v, if i < |bounds| then h.buckets[i := h.buckets[i] + 1] else h.buckets)
  }

  function ObserveAll(bounds: seq<Bound>, h: Histogram, vals: seq<real>): (r: Histogram)
    requires |h.buckets| == |bounds|
    ensures |r.buckets| == |bounds|
    decreases |vals|
  {
    if vals == [] then h
    else Observe(bounds, ObserveAll(bounds, h, vals[..|vals| - 1]), vals[|vals| - 1])
  }

  function Blank(bounds: seq<Bound>): Histogram {
    Histogram(0.0, seq(|bounds|, _ => 0))
  }

  predicate Fits(bounds: seq<Bound>, exported: Exported) {
    forall l :: l in exported ==> |exported[l].latency.buckets| == |bounds|
  }

  /** labels(): the label's series, created empty at first use. */
  function Child(bounds: seq<Bound>, exported: Exported, l: Label): Series {
    if l in exported then exported[l] else Series(0, Blank(bounds))
  }

  function Buffered(buffer: Buffer, l: Label): seq<real> {
    if l in buffer then buffer[l] else []
  }

  // The batched form

  function Absorb(bounds: seq<Bound>, s: Series, vals: seq<real>): (r: Series)
    requires |s.latency.buckets| == |bounds|
  {
    Series(s.count + |vals|, ObserveAll(bounds, s.latency, vals))
  }

  /** What is exported once everything buffered is flushed. */
  function Flushed(bounds: seq<Bound>, buffer: Buffer, exported: Exported): (r: Exported)
    requires Fits(bounds, exported)
    ensures Fits(bounds, r)
  {
    map l | l in exported.Keys + buffer.Keys :: Absorb(bounds, Child(bounds, exported, l), Buffered(buffer, l))
  }

  /** _flush_metrics(), if it is due. */
  function Settle(bounds: seq<Bound>, buffer: Buffer, exported: Exported, due: bool): (r: State)
    requires Fits(bounds, exported)
    ensures Fits(bounds, r.exported)
  {
    if due then State(map[], Flushed(bounds, buffer, exported)) else State(buffer, exported)
  }

  function Step(bounds: seq<Bound>, s: State, e: Event): (r: State)
    requires Fits(bounds, s.exported)
    ensures Fits(bounds, r.exported)
  {
    match e
    case Scrape => Settle(bounds, s.buffer, s.exported, true)
    case Request(l, v) =>
      var buffer := s.buffer[l := Buffered(s.buffer, l) + [v]];
      Settle(bounds, buffer, s.exported, |buffer| >= BATCH_SIZE)
  }

  const IDLE := State(map[], map[])

  function Run(bounds: seq<Bound>, events: seq<Event>): (s: State)
    ensures Fits(bounds, s.exported)
    decreases |events|
  {
    if events == [] then IDLE
    else Step(bounds, Run(bounds, events[..|events| - 1]), events[|events| - 1])
  }

  // The reference: every request is observed when it happens

  function EagerStep(bounds: seq<Bound>, exported: Exported, e: Event): (r: Exported)
    requires Fits(bounds, exported)
    ensures Fits(bounds, r)
  {
    match e
    case Scrape => exported
    case Request(l, v) =>
      var s := Child(bounds, exported, l);
      exported[l := Series(s.count + 1, Observe(bounds, s.latency, v))]
  }

  function Eager(bounds: seq<Bound>, events: seq<Event>): (exported: Exported)
    ensures Fits(bounds, exported)
    decreases |events|
  {
    if events == [] then map[]
    else EagerStep(bounds, Eager(bounds, events[..|events| - 1]), events[|events| - 1])
  }

  /** Requests of one label. */
  function Requests(events: seq<Event>, l: Label): nat
    decreases |events|
  {
    if events == [] then 0
    else
      var last := events[|events| - 1];
      Requests(events[..|events| - 1], l) + (if last.Request? && last.key == l then 1 else 0)
  }

  function Total(buckets: seq<nat>): nat {
    if buckets == [] then 0 else buckets[0] + Total(buckets[1..])
  }

  function Sum(vals: seq<real>): real
    decreases |vals|
  {
    if vals == [] then 0.0 else Sum(vals[..|vals| - 1]) + vals[|vals| - 1]
  }

  // One batch is many observations

  /** Tallying a batch from zero and adding the tallies is the same as observing its values one by one. */
  lemma {:induction false} TallyThenAdd(bounds: seq<Bound>, h: Histogram, vals: seq<real>)
    requires |h.buckets| == |bounds|
    ensures var r := ObserveAll(bounds, h, vals); var t := ObserveAll(bounds, Blank(bounds), vals);
            && r.sum == h.sum + Sum(vals)
            && forall i :: 0 <= i < |bounds| ==> r.buckets[i] == h.buckets[i] + t.buckets[i]
    decreases |vals|
  {
    if vals != [] {
      TallyThenAdd(bounds, h, vals[..|vals| - 1]);
    }
  }

  lemma FlushNothing(bounds: seq<Bound>, exported: Exported)
    requires Fits(bounds, exported)
    ensures Flushed(bounds, map[], exported) == exported
  {
    var none: Buffer := map[];
    var r := Flushed(bounds, none, exported);
    forall l | l in r ensures r[l] == exported[l] {
      assert Buffered(none, l) == [];
    }
  }

  /** Flushing one more label changes only that label. */
  lemma FlushKey(bounds: seq<Bound>, buffer: Buffer, exported: Exported, l: Label, vals: seq<real>)
    requires Fits(bounds, exported)
    requires l !in buffer
    ensures var before := Flushed(bounds, buffer, exported);
            Flushed(bounds, buffer[l := vals], exported) == before[l := Absorb(bounds, Child(bounds, before, l), vals)]
  {
    var before := Flushed(bounds, buffer, exported);
    assert Child(bounds, before, l) == Child(bounds, exported, l);
    FlushReplaced(bounds, buffer, exported, l, vals);
  }

  /** Changing what one label has buffered changes what is flushed for that label alone. */
  lemma FlushReplaced(bounds: seq<Bound>, buffer: Buffer, exported: Exported, l: Label, vals: seq<real>)
    requires Fits(bounds, exported)
    ensures Flushed(bounds, buffer[l := vals], exported)
            == Flushed(bounds, buffer, exported)[l := Absorb(bounds, Child(bounds, exported, l), vals)]
  {
    var more := buffer[l := vals];
    forall k | k != l ensures Buffered(more, k) == Buffered(buffer, k) {}
    SameExport(Flushed(bounds, more, exported),
               Flushed(bounds, buffer, exported)[l := Absorb(bounds, Child(bounds, exported, l), vals)]);
  }

  /** `flushed` is the part of the buffer whose labels are no longer pending. */
  ghost predicate Covers(flushed: Buffer, buffer: Buffer, pending: set<Label>) {
    && pending <= buffer.Keys
    && flushed.Keys == buffer.Keys - pending
    && forall l :: l in flushed ==> flushed[l] == buffer[l]
  }

  lemma CoverOneMore(flushed: Buffer, buffer: Buffer, pending: set<Label>, l: Label)
    requires Covers(flushed, buffer, pending) && l in pending
    ensures l in buffer && l !in flushed && Covers(flushed[l := buffer[l]], buffer, pending - {l})
  {
  }

  lemma CoversAll(flushed: Buffer, buffer: Buffer)
    requires Covers(flushed, buffer, {})
    ensures flushed == buffer
  {
  }

  lemma SameExport(a: Exported, b: Exported)
    requires a.Keys == b.Keys && forall l :: l in a ==> a[l] == b[l]
    ensures a == b
  {
  }

  // The methods

  class Metrics {
    const bounds: seq<Bound>
    var buffer: Buffer
    var exported: Exported

    ghost predicate Valid()
      reads this
    {
      Fits(bounds, exported)
    }

    ghost function Now(): State
      reads this
    {
      State(buffer, exported)
    }

    constructor (bounds: seq<Bound>)
      ensures Valid() && this.bounds == bounds && Now() == IDLE
    {
      this.bounds := bounds;
      buffer := map[];
      exported := map[];
    }

    /** Tally the batch into one array, then add the tallies to the buckets. */
    method BatchObserve(h: Histogram, vals: seq<real>) returns (r: Histogram)
      requires |h.buckets| == |bounds|
      ensures r == ObserveAll(bounds, h, vals)
    {
      if vals == [] { return h; }
      var sum := 0.0;
      var tally := new nat[|bounds|](_ => 0);
      ghost var blank := Blank(bounds);
      assert tally[..] == blank.buckets;
      for k := 0 to |vals|
        invariant sum == Sum(vals[..k])
        invariant tally[..] == ObserveAll(bounds, blank, vals[..k]).buckets
      {
        ghost var before := tally[..];
        assert vals[..k + 1][..k] == vals[..k];
        sum := sum + vals[k];
        var i := 0;
        while i < |bounds| && !Within(vals[k], bounds[i])
          invariant 0 <= i <= |bounds|
          invariant forall j :: 0 <= j < i ==> !Within(vals[k], bounds[j])
        {
          i := i + 1;
        }
        assert i == BucketOf(bounds, vals[k]);
        if i < |bounds| {
          tally[i] := tally[i] + 1;
          assert tally[..] == before[i := before[i] + 1];
        }
      }
      assert vals[..|vals|] == vals;
      TallyThenAdd(bounds, h, vals);
      var buckets := h.buckets;
      for i := 0 to |bounds|
        invariant |buckets| == |bounds|
        invariant tally[..] == ObserveAll(bounds, blank, vals).buckets
        invariant forall j :: 0 <= j < i ==> buckets[j] == h.buckets[j] + tally[j]
        invariant forall j :: i <= j < |bounds| ==> buckets[j] == h.buckets[j]
      {
        if tally[i] != 0 {
          buckets := buckets[i := buckets[i] + tally[i]];
        }
      }
      r := Histogram(h.sum + sum, buckets);
      assert r.buckets == ObserveAll(bounds, h, vals).buckets;
    }

    method FlushLabel(l: Label, vals: seq<real>, ghost flushed: Buffer, ghost before: Exported)
      requires Fits(bounds, before) && l !in flushed
      requires exported == Flushed(bounds, flushed, before)
      modifies this`exported
      ensures exported == Flushed(bounds, flushed[l := vals], before)
    {
      var s := Child(bounds, exported, l);
      FlushKey(bounds, flushed, before, l, vals);
      var latency := BatchObserve(s.latency, vals);
      exported := exported[l := Series(s.count + |vals|, latency)];
    }

    method Flush()
      requires Valid()
      modifies this
      ensures Valid()
      ensures Now() == State(map[], Flushed(bounds, old(buffer), old(exported)))
    {
      var pending := buffer.Keys;
      ghost var flushed: Buffer := map[];
      FlushNothing(bounds, exported);
      while pending != {}
        invariant buffer == old(buffer) && Covers(flushed, buffer, pending)
        invariant exported == Flushed(bounds, flushed, old(exported))
        decreases |pending|
      {
        var l :| l in pending;
        CoverOneMore(flushed, buffer, pending, l);
        FlushLabel(l, buffer[l], flushed, old(exported));
        pending := pending - {l};
        flushed := flushed[l := buffer[l]];
      }
      CoversAll(flushed, buffer);
      buffer := map[];
    }

    method RecordRequest(l: Label, duration: real)
      requires Valid()
      modifies this
      ensures Valid()
      ensures Now() == Step(bounds, old(Now()), Request(l, duration))
    {
      buffer := buffer[l := (if l in buffer then buffer[l] else []) + [duration]];
      if |buffer| >= BATCH_SIZE {
        Flush();
      }
    }

    /** The /metrics endpoint: flush, then export. */
    method Expose() returns (page: Exported)
      requires Valid()
      modifies this
      ensures Valid()
      ensures Now() == Step(bounds, old(Now()), Scrape) && page == exported
    {
      Flush();
      page := exported;
    }
  }

  // Any schedule of requests and flushes

  /** Buffering one more value and flushing is flushing and observing that value. */
  lemma FlushOneMore(bounds: seq<Bound>, buffer: Buffer, exported: Exported, l: Label, v: real)
    requires Fits(bounds, exported)
    ensures var before := Flushed(bounds, buffer, exported); var s := Child(bounds, before, l);
            Flushed(bounds, buffer[l := Buffered(buffer, l) + [v]], exported)
            == before[l := Series(s.count + 1, Observe(bounds, s.latency, v))]
  {
    var vals := Buffered(buffer, l);
    FlushReplaced(bounds, buffer, exported, l, vals + [v]);
    AbsorbOneMore(bounds, Child(bounds, exported, l), vals, v);
    assert Child(bounds, Flushed(bounds, buffer, exported), l) == Absorb(bounds, Child(bounds, exported, l), vals);
  }

  lemma AbsorbOneMore(bounds: seq<Bound>, s: Series, vals: seq<real>, v: real)
    requires |s.latency.buckets| == |bounds|
    ensures var r := Absorb(bounds, s, vals);
            Absorb(bounds, s, vals + [v]) == Series(r.count + 1, Observe(bounds, r.latency, v))
  {
    assert (vals + [v])[..|vals|] == vals;
  }

  /**
   After any schedule of requests and scrapes, flushing what is still buffered exports exactly what
   observing every request at once would have: counters, sums and every bucket of every label.
   */
  lemma {:induction false} BatchingIsExact(bounds: seq<Bound>, events: seq<Event>)
    ensures var s := Run(bounds, events); Flushed(bounds, s.buffer, s.exported) == Eager(bounds, events)
    decreases |events|
  {
    if events == [] {
      FlushNothing(bounds, map[]);
    } else {
      BatchingIsExact(bounds, events[..|events| - 1]);
      FlushStep(bounds, Run(bounds, events[..|events| - 1]), events[|events| - 1]);
    }
  }

  lemma FlushStep(bounds: seq<Bound>, s: State, e: Event)
    requires Fits(bounds, s.exported)
    ensures var after := Step(bounds, s, e);
            Flushed(bounds, after.buffer, after.exported)
            == EagerStep(bounds, Flushed(bounds, s.buffer, s.exported), e)
  {
    match e
    case Scrape => SettleExact(bounds, s.buffer, s.exported, true);
    case Request(l, v) => RequestExact(bounds, s.buffer, s.exported, l, v);
  }

  lemma RequestExact(bounds: seq<Bound>, buffer: Buffer, exported: Exported, l: Label, v: real)
    requires Fits(bounds, exported)
    ensures var after := Step(bounds, State(buffer, exported), Request(l, v));
            Flushed(bounds, after.buffer, after.exported)
            == EagerStep(bounds, Flushed(bounds, buffer, exported), Request(l, v))
  {
    var more := buffer[l := Buffered(buffer, l) + [v]];
    FlushOneMore(bounds, buffer, exported, l, v);
    var eager := EagerStep(bounds, Flushed(bounds, buffer, exported), Request(l, v));
    assert Flushed(bounds, more, exported) == eager;
    SettleExact(bounds, more, exported, |more| >= BATCH_SIZE);
  }

  lemma SettleExact(bounds: seq<Bound>, buffer: Buffer, exported: Exported, due: bool)
    requires Fits(bounds, exported)
    ensures var after := Settle(bounds, buffer, exported, due);
            Flushed(bounds, after.buffer, after.exported) == Flushed(bounds, buffer, exported)
  {
    FlushNothing(bounds, Flushed(bounds, buffer, exported));
  }

  // What a scrape shows

  /** The durations of one label's requests, in order. */
  function Durations(events: seq<Event>, l: Label): seq<real>
    decreases |events|
  {
    if events == [] then []
    else
      var last := events[|events| - 1];
      Durations(events[..|events| - 1], l) + if last.Request? && last.key == l then [last.duration] else []
  }

  /** The i-th bound is the first that is not below v. */
  predicate FirstAdmits(bounds: seq<Bound>, i: nat, v: real)
    requires i < |bounds|
  {
    && (bounds[i].Infinity? || v <= bounds[i].value)
    && forall j :: 0 <= j < i ==> bounds[j].Finite? && bounds[j].value < v
  }

  /** Which of the values belong to bucket i. */
  function InBucket(bounds: seq<Bound>, i: nat, vals: seq<real>): set<nat>
    requires i < |bounds|
  {
    set k: nat | k < |vals| && FirstAdmits(bounds, i, vals[k])
  }

  /** The series counts these values, adds them up and has each in its bucket. */
  ghost predicate Shows(bounds: seq<Bound>, s: Series, vals: seq<real>) {
    && s.count == |vals| && s.latency.sum == Sum(vals) && |s.latency.buckets| == |bounds|
    && forall i :: 0 <= i < |bounds| ==> s.latency.buckets[i] == |InBucket(bounds, i, vals)|
  }

  lemma BucketGrows(bounds: seq<Bound>, i: nat, vals: seq<real>, v: real)
    requires i < |bounds|
    ensures |InBucket(bounds, i, vals + [v])|
            == |InBucket(bounds, i, vals)| + if i == BucketOf(bounds, v) then 1 else 0
  {
    assert FirstAdmits(bounds, i, v) <==> i == BucketOf(bounds, v) by {
      assert Within(v, bounds[i]) <==> bounds[i].Infinity? || v <= bounds[i].value;
    }
    var more := vals + [v];
    assert forall k :: 0 <= k < |vals| ==> more[k] == vals[k];
    assert |vals| !in InBucket(bounds, i, vals);
    assert InBucket(bounds, i, more)
           == InBucket(bounds, i, vals) + if FirstAdmits(bounds, i, v) then {|vals|} else {};
  }

  lemma ShowsOneMore(bounds: seq<Bound>, s: Series, vals: seq<real>, v: real)
    requires Shows(bounds, s, vals)
    ensures Shows(bounds, Series(s.count + 1, Observe(bounds, s.latency, v)), vals + [v])
  {
    assert (vals + [v])[..|vals|] == vals;
    forall i | 0 <= i < |bounds|
      ensures Observe(bounds, s.latency, v).buckets[i] == |InBucket(bounds, i, vals + [v])|
    {
      BucketGrows(bounds, i, vals, v);
    }
  }

  lemma BlankShows(bounds: seq<Bound>)
    ensures Shows(bounds, Series(0, Blank(bounds)), [])
  {
    forall i | 0 <= i < |bounds| ensures InBucket(bounds, i, []) == {} {}
  }

  lemma {:induction false} EagerShows(bounds: seq<Bound>, events: seq<Event>, l: Label)
    ensures l in Eager(bounds, events) <==> Durations(events, l) != []
    ensures Shows(bounds, Child(bounds, Eager(bounds, events), l), Durations(events, l))
    decreases |events|
  {
    if events == [] {
      BlankShows(bounds);
    } else {
      var n := |events| - 1;
      EagerShows(bounds, events[..n], l);
      if events[n].Request? && events[n].key == l {
        ShowsOneMore(bounds, Child(bounds, Eager(bounds, events[..n]), l), Durations(events[..n], l),
                     events[n].duration);
      } else {
        assert Durations(events, l) == Durations(events[..n], l);
      }
    }
  }

  /**
   After any requests and scrapes, a scrape shows the labels requested and for each of them the number of
   requests, the sum of their durations, and in every bucket the durations that its bound is the first to
   admit.
   */
  lemma ScrapeShows(bounds: seq<Bound>, events: seq<Event>, l: Label)
    ensures var page := Step(bounds, Run(bounds, events), Scrape).exported;
            && (l in page <==> Durations(events, l) != [])
            && (l in page ==> Shows(bounds, page[l], Durations(events, l)))
  {
    BatchingIsExact(bounds, events);
    EagerShows(bounds, events, l);
  }

  lemma {:induction false} TotalOfUpdate(buckets: seq<nat>, i: nat)
    requires i < |buckets|
    ensures Total(buckets[i := buckets[i] + 1]) == Total(buckets) + 1
    decreases |buckets|
  {
    var more := buckets[i := buckets[i] + 1];
    if i == 0 {
      assert more[1..] == buckets[1..];
    } else {
      assert more[1..] == buckets[1..][i - 1 := buckets[1..][i - 1] + 1];
      TotalOfUpdate(buckets[1..], i - 1);
    }
  }

  lemma {:induction false} TotalOfAll(bounds: seq<Bound>, h: Histogram, vals: seq<real>)
    requires |h.buckets| == |bounds| > 0 && bounds[|bounds| - 1] == Infinity
    ensures Total(ObserveAll(bounds, h, vals).buckets) == Total(h.buckets) + |vals|
    decreases |vals|
  {
    if vals != [] {
      var v := vals[|vals| - 1];
      var before := ObserveAll(bounds, h, vals[..|vals| - 1]);
      TotalOfAll(bounds, h, vals[..|vals| - 1]);
      assert BucketOf(bounds, v) < |bounds| by { assert Within(v, bounds[|bounds| - 1]); }
      TotalOfUpdate(before.buckets, BucketOf(bounds, v));
    }
  }

  lemma {:induction false} TotalOfZeros(n: nat)
    ensures Total(seq(n, _ => 0)) == 0
  {
    if n > 0 {
      assert seq(n, _ => 0)[1..] == seq(n - 1, _ => 0);
      TotalOfZeros(n - 1);
    }
  }

  ghost predicate Balanced(s: Series) {
    s.count == Total(s.latency.buckets)
  }

  /** Exported and buffered requests of one label, when its series is balanced. */
  function Seen(bounds: seq<Bound>, s: State, l: Label): nat {
    Child(bounds, s.exported, l).count + |Buffered(s.buffer, l)|
  }

  lemma SettleBalances(bounds: seq<Bound>, buffer: Buffer, exported: Exported, due: bool, l: Label)
    requires Fits(bounds, exported)
    requires |bounds| > 0 && bounds[|bounds| - 1] == Infinity
    requires Balanced(Child(bounds, exported, l))
    ensures var after := Settle(bounds, buffer, exported, due);
            && Balanced(Child(bounds, after.exported, l))
            && Seen(bounds, after, l) == Seen(bounds, State(buffer, exported), l)
  {
    TotalOfZeros(|bounds|);
    TotalOfAll(bounds, Child(bounds, exported, l).latency, Buffered(buffer, l));
  }

  /** Per label the counter, the sum of the buckets and the requests no longer buffered are always one number. */
  lemma {:induction false} NothingLost(bounds: seq<Bound>, events: seq<Event>, l: Label)
    requires |bounds| > 0 && bounds[|bounds| - 1] == Infinity
    ensures var s := Run(bounds, events); var series := Child(bounds, s.exported, l);
            series.count == Total(series.latency.buckets) == Requests(events, l) - |Buffered(s.buffer, l)|
    decreases |events|
  {
    if events == [] {
      TotalOfZeros(|bounds|);
    } else {
      NothingLost(bounds, events[..|events| - 1], l);
      StepBalances(bounds, Run(bounds, events[..|events| - 1]), events[|events| - 1], l);
    }
  }

  lemma StepBalances(bounds: seq<Bound>, s: State, e: Event, l: Label)
    requires Fits(bounds, s.exported)
    requires |bounds| > 0 && bounds[|bounds| - 1] == Infinity
    requires Balanced(Child(bounds, s.exported, l))
    ensures var after := Step(bounds, s, e);
            && Balanced(Child(bounds, after.exported, l))
            && Seen(bounds, after, l) == Seen(bounds, s, l) + if e.Request? && e.key == l then 1 else 0
  {
    match e
    case Scrape =>
      SettleBalances(bounds, s.buffer, s.exported, true, l);
    case Request(k, v) =>
      var more := s.buffer[k := Buffered(s.buffer, k) + [v]];
      SettleBalances(bounds, more, s.exported, |more| >= BATCH_SIZE, l);
  }

  /** The batch size counts labels: fewer than a hundred are ever left buffered. */
  lemma {:induction false} FewLabelsWait(bounds: seq<Bound>, events: seq<Event>)
    ensures |Run(bounds, events).buffer| < 100
    decreases |events|
  {
    if events != [] { FewLabelsWait(bounds, events[..|events| - 1]); }
  }

  // When traffic alone flushes

  /** The labels requested. */
  function Labels(events: seq<Event>): set<Label> {
    set e | e in events && e.Request? :: e.key
  }

  ghost predicate OnlyRequests(events: seq<Event>) {
    forall e :: e in events ==> e.Request?
  }

  lemma {:induction false} LabelsWait(bounds: seq<Bound>, events: seq<Event>)
    requires OnlyRequests(events)
    ensures var s := Run(bounds, events);
            if |Labels(events)| < BATCH_SIZE then s.exported == map[] && s.buffer.Keys == Labels(events)
            else s.exported != map[]
    decreases |events|
  {
    if events != [] {
      var n := |events| - 1;
      var s := Run(bounds, events[..n]);
      assert events == events[..n] + [events[n]];
      LabelsWait(bounds, events[..n]);
      assert Labels(events) == Labels(events[..n]) + {events[n].key};
      LabelArrives(bounds, s, events[n].key, events[n].duration, Labels(events[..n]), Labels(events));
    } else {
      assert Labels(events) == {};
    }
  }

  lemma LabelArrives(bounds: seq<Bound>, s: State, l: Label, v: real, before: set<Label>, after: set<Label>)
    requires Fits(bounds, s.exported) && after == before + {l}
    requires if |before| < BATCH_SIZE then s.exported == map[] && s.buffer.Keys == before else s.exported != map[]
    ensures var s' := Step(bounds, s, Request(l, v));
            if |after| < BATCH_SIZE then s'.exported == map[] && s'.buffer.Keys == after else s'.exported != map[]
  {
    var buffer := s.buffer[l := Buffered(s.buffer, l) + [v]];
    SettleExports(bounds, buffer, s.exported, |buffer| >= BATCH_SIZE);
    SizeGrows(before, after, l);
    if |before| < BATCH_SIZE {
      assert buffer.Keys == after;
      assert |buffer| == |buffer.Keys|;
    }
  }

  lemma SizeGrows(before: set<Label>, after: set<Label>, l: Label)
    requires after == before + {l}
    ensures |before| <= |after|
  {
    assert after == before + (after - before);
  }

  /** A flush exports something exactly if something was buffered or exported before. */
  lemma SettleExports(bounds: seq<Bound>, buffer: Buffer, exported: Exported, due: bool)
    requires Fits(bounds, exported) && buffer != map[]
    ensures var after := Settle(bounds, buffer, exported, due);
            if due then after.exported != map[] else after == State(buffer, exported)
  {
    assert buffer.Keys != {};
    var l :| l in buffer;
    assert due ==> l in Settle(bounds, buffer, exported, due).exported;
  }

  /**
   Without a scrape, requests are exported exactly when a hundred different labels have been requested,
   however many requests there were.
   */
  lemma TrafficFlushesIff(bounds: seq<Bound>, events: seq<Event>)
    requires OnlyRequests(events)
    ensures Run(bounds, events).exported == map[] <==> |Labels(events)| < 100
  {
    LabelsWait(bounds, events);
  }

  function Repeated(l: Label, durations: seq<real>): (events: seq<Event>)
    ensures |events| == |durations|
    decreases |durations|
  {
    if durations == [] then []
    else Repeated(l, durations[..|durations| - 1]) + [Request(l, durations[|durations| - 1])]
  }

  /** It does not count requests: however many one label gets, they all wait for the next scrape. */
  lemma {:induction false} OneLabelWaits(bounds: seq<Bound>, l: Label, durations: seq<real>)
    requires durations != []
    ensures Run(bounds, Repeated(l, durations)) == State(map[l := durations], map[])
    decreases |durations|
  {
    var front := durations[..|durations| - 1];
    var events := Repeated(l, durations);
    assert events[..|events| - 1] == Repeated(l, front);
    assert front + [durations[|durations| - 1]] == durations;
    if front == [] {
      assert Run(bounds, []) == IDLE;
    } else {
      OneLabelWaits(bounds, l, front);
    }
    assert |map[l := durations]| == 1;
  }
}
