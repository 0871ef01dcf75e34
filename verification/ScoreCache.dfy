/** The score table with its two cached read-outs, over any run of inserts, reads and waiting. */
module ScoreCache {
  import opened Options
  import opened ScoreQueries

  const TTL := 300

  /**
   A cached value and its deadline. The cache key does not record the bound the value was computed for;
   `since` is kept here only to speak about it.
   */
  datatype Count = Count(value: nat, since: int, until: int)
  datatype Fraction = Fraction(value: real, since: int, until: int)

  datatype Store = Store(rows: seq<Row>, active: Option<Count>, rate: Option<Fraction>, now: nat)

  /** Which database answers: PostgreSQL sorts the table first, ordering ties as it likes. */
  datatype Backend = Sqlite | Postgres(ordered: seq<Row>)

  datatype Event =
    | AddScore(row: Row)
    | AddLatency
    | AddLatencies(count: nat)
    | Wait(seconds: nat)
    | ReadActive(since: int, backend: Backend)
    | ReadRate(since: int, backend: Backend)

  predicate CountIsLive(s: Store) {
    s.active.Some? && s.now < s.active.value.until
  }

  predicate RateIsLive(s: Store) {
    s.rate.Some? && s.now < s.rate.value.until
  }

  /** The row (errors, total) the database returns. */
  function Fetched(rows: seq<Row>, since: int, backend: Backend): Answer {
    match backend
    case Sqlite => Summary(JoinOnMax(rows, since))
    case Postgres(ordered) => Summary(DistinctOn(ordered, since))
  }

  /** The error-rate query, past the cache. */
  function ErrorRate(rows: seq<Row>, since: int, backend: Backend): real {
    Rate(Fetched(rows, since, backend))
  }

  /**
   The count, or None for the TypeError: the PostgreSQL branch hands the driver its statement wrapped in
   a tuple, so there only a live cached count can be returned.
   */
  function ActiveAnswer(s: Store, since: int, backend: Backend): Option<nat> {
    if CountIsLive(s) then Some(s.active.value.value)
    else if backend.Postgres? then None
    else Some(ActiveUsers(s.rows, since))
  }

  function RateAnswer(s: Store, since: int, backend: Backend): real {
    if RateIsLive(s) then s.rate.value.value else ErrorRate(s.rows, since, backend)
  }

  /** The cached count after a read: the live one, or what the query returned. */
  function FilledCount(s: Store, since: int, backend: Backend): Option<Count> {
    if CountIsLive(s) || backend.Postgres? then s.active
    else Some(Count(ActiveUsers(s.rows, since), since, s.now + TTL))
  }

  function FilledRate(s: Store, since: int, backend: Backend): Option<Fraction> {
    if RateIsLive(s) then s.rate else Some(Fraction(ErrorRate(s.rows, since, backend), since, s.now + TTL))
  }

  function Step(s: Store, e: Event): Store {
    match e
    case AddScore(row) => s.(rows := s.rows + [row], active := None, rate := None)
    case AddLatency => s.(active := None, rate := None)
    case AddLatencies(count) => if count == 0 then s else s.(active := None, rate := None)
    case Wait(seconds) => s.(now := s.now + seconds)
    case ReadActive(since, backend) => s.(active := FilledCount(s, since, backend))
    case ReadRate(since, backend) => s.(rate := FilledRate(s, since, backend))
  }

  /** PostgreSQL really sorts the table it is asked about. */
  ghost predicate Legal(s: Store, e: Event) {
    e.ReadRate? && e.backend.Postgres? ==> SortOf(e.backend.ordered, s.rows)
  }

  function Run(s: Store, events: seq<Event>): Store
    decreases |events|
  {
    if events == [] then s else Step(Run(s, events[..|events| - 1]), events[|events| - 1])
  }

  ghost predicate LegalRun(s: Store, events: seq<Event>)
    decreases |events|
  {
    events == [] ||
    (LegalRun(s, events[..|events| - 1]) && Legal(Run(s, events[..|events| - 1]), events[|events| - 1]))
  }

  function Fresh(rows: seq<Row>, now: nat): Store {
    Store(rows, None, None, now)
  }

  // The methods

  class MetricsStore {
    var rows: seq<Row>
    var active: Option<Count>
    var rate: Option<Fraction>
    var now: nat

    ghost function State(): Store
      reads this
    {
      Store(rows, active, rate, now)
    }

    constructor (rows: seq<Row>, now: nat)
      ensures State() == Fresh(rows, now)
    {
      this.rows := rows;
      active := None;
      rate := None;
      this.now := now;
    }

    method InvalidateAnalyticsCache()
      modifies `active, `rate
      ensures active == None && rate == None
    {
      active := None;
      rate := None;
    }

    method InsertScore(row: Row)
      modifies this
      ensures State() == Step(old(State()), AddScore(row))
      ensures rows == old(rows) + [row] && active == None && rate == None
    {
      rows := rows + [row];
      InvalidateAnalyticsCache();
    }

    method InsertLatency()
      modifies this
      ensures State() == Step(old(State()), AddLatency)
      ensures rows == old(rows) && active == None && rate == None
    {
      InvalidateAnalyticsCache();
    }

    method InsertLatencies(count: nat)
      modifies this
      ensures State() == Step(old(State()), AddLatencies(count))
      ensures rows == old(rows)
      ensures if count == 0 then active == old(active) && rate == old(rate) else active == None && rate == None
    {
      if count == 0 { return; }
      InvalidateAnalyticsCache();
    }

    /** None when the query raises. */
    method GetActiveUsers(since: int, backend: Backend) returns (count: Option<nat>)
      modifies `active
      ensures State() == Step(old(State()), ReadActive(since, backend))
      ensures count == ActiveAnswer(old(State()), since, backend)
    {
      if active.Some? && now < active.value.until { return Some(active.value.value); }
      if backend.Postgres? { return None; }
      var found := ActiveUsers(rows, since);
      active := Some(Count(found, since, now + TTL));
      count := Some(found);
    }

    /** Unless a live rate is cached, query it and cache it. */
    method FillErrorRate(since: int, backend: Backend)
      modifies `rate
      ensures rate == FilledRate(old(State()), since, backend)
    {
      if rate.Some? && now < rate.value.until { return; }
      rate := Some(Fraction(ErrorRate(rows, since, backend), since, now + TTL));
    }

    method GetErrorRate(since: int, backend: Backend) returns (fraction: real)
      modifies `rate
      ensures State() == Step(old(State()), ReadRate(since, backend))
      ensures fraction == RateAnswer(old(State()), since, backend)
    {
      ghost var before := State();
      FillErrorRate(since, backend);
      RateIsStored(before, since, backend);
      fraction := rate.value.value;
    }
  }

  lemma RateIsStored(s: Store, since: int, backend: Backend)
    ensures var after := FilledRate(s, since, backend);
            after.Some? && after.value.value == RateAnswer(s, since, backend)
  {
  }

  // What the answers mean

  /** The rows that are their idea's latest, at or after the bound. */
  function LatestAt(rows: seq<Row>, since: int): set<nat> {
    set i: nat | i < |rows| && rows[i].time >= since && NothingLater(rows, rows[i])
  }

  predicate NothingLater(rows: seq<Row>, r: Row) {
    forall q :: q in rows && q.idea == r.idea ==> q.time <= r.time
  }

  /** Of these, those with a score below one half. */
  function FailingAt(rows: seq<Row>, since: int): set<nat> {
    set i: nat | i < |rows| && i in LatestAt(rows, since) && rows[i].score < 0.5
  }

  lemma LatestIsMax(rows: seq<Row>, since: int, r: Row)
    requires r in rows
    ensures LatestSince(rows, since)(r) <==> r.time >= since && NothingLater(rows, r)
  {
    var q :| q in rows && q.idea == r.idea && q.time == MaxTime(rows, r.idea).value;
  }

  lemma JoinMeans(rows: seq<Row>, since: int)
    ensures |JoinOnMax(rows, since)| == |LatestAt(rows, since)|
    ensures ScoreQueries.Count(JoinOnMax(rows, since), Failing) == |FailingAt(rows, since)|
  {
    var p := LatestSince(rows, since);
    forall i | 0 <= i < |rows| ensures p(rows[i]) <==> rows[i].time >= since && NothingLater(rows, rows[i]) {
      LatestIsMax(rows, since, rows[i]);
    }
    WherePositions(rows, p);
    CountPositions(rows, p, Failing);
    assert Positions(rows, p) == LatestAt(rows, since);
    assert Positions(rows, Both(p, Failing)) == FailingAt(rows, since);
  }

  lemma RateOfSummary(selected: seq<Row>)
    ensures var n := ScoreQueries.Count(selected, Failing);
            Rate(Summary(selected)) == if |selected| == 0 then 0.0 else n as real / |selected| as real
  {
  }

  /**
   The error rate is the share of failing rows among the latest ones, and zero if there are none: on SQLite
   for every table, on PostgreSQL where an idea has one row per timestamp.
   */
  lemma RateMeans(rows: seq<Row>, since: int, backend: Backend)
    requires backend.Postgres? ==> OneRowPerTime(rows) && SortOf(backend.ordered, rows)
    ensures var latest, failing := LatestAt(rows, since), FailingAt(rows, since);
            var rate := ErrorRate(rows, since, backend);
            && failing <= latest
            && rate == if |latest| == 0 then 0.0 else |failing| as real / |latest| as real
  {
    if backend.Postgres? {
      QueriesAgreeOnKeyedTables(rows, backend.ordered, since);
    }
    JoinMeans(rows, since);
    RateOfSummary(JoinOnMax(rows, since));
  }

  /**
   A count that was read stays the answer for 300 seconds, whoever asks and for whatever bound; after that
   SQLite counts for the bound asked about, and PostgreSQL raises.
   */
  lemma CountLives300(s: Store, since: int, wait: nat, other: int, backend: Backend)
    requires !CountIsLive(s)
    ensures var t := Step(Step(s, ReadActive(since, Sqlite)), Wait(wait));
            ActiveAnswer(t, other, backend)
            == if wait < 300 then Some(ActiveUsers(s.rows, since))
               else if backend.Sqlite? then Some(ActiveUsers(s.rows, other)) else None
  {
  }

  /** The same for the error rate, which either database computes. */
  lemma RateLives300(s: Store, since: int, first: Backend, wait: nat, other: int, second: Backend)
    requires !RateIsLive(s)
    ensures var t := Step(Step(s, ReadRate(since, first)), Wait(wait));
            && (wait < 300 ==> RateAnswer(t, other, second) == ErrorRate(s.rows, since, first))
            && (wait >= 300 ==> RateAnswer(t, other, second) == ErrorRate(s.rows, other, second))
  {
    RateFilled(s, since, first, wait);
    AnswerUntil(Step(Step(s, ReadRate(since, first)), Wait(wait)), ErrorRate(s.rows, since, first), since, s.now + 300,
                other, second);
  }

  lemma RateFilled(s: Store, since: int, backend: Backend, wait: nat)
    requires !RateIsLive(s)
    ensures var t := Step(Step(s, ReadRate(since, backend)), Wait(wait));
            && t.rows == s.rows && t.now == s.now + wait
            && t.rate == Some(Fraction(ErrorRate(s.rows, since, backend), since, s.now + 300))
  {
  }

  lemma AnswerUntil(s: Store, x: real, since: int, until: int, other: int, backend: Backend)
    requires s.rate == Some(Fraction(x, since, until))
    ensures RateAnswer(s, other, backend) == if s.now < until then x else ErrorRate(s.rows, other, backend)
  {
  }

  // Any run

  /** On a table with one row per idea and timestamp the error rate does not depend on the database. */
  lemma BackendsAgree(rows: seq<Row>, since: int, backend: Backend)
    requires OneRowPerTime(rows)
    requires backend.Postgres? ==> SortOf(backend.ordered, rows)
    ensures ErrorRate(rows, since, backend) == ErrorRate(rows, since, Sqlite)
  {
    if backend.Postgres? {
      QueriesAgreeOnKeyedTables(rows, backend.ordered, since);
    }
  }

  /** A cached value is the present table's, for the bound of the read that cached it. */
  ghost predicate Inv(s: Store) {
    CountInv(s.rows, s.active) && RateInv(s.rows, s.rate)
  }

  ghost predicate CountInv(rows: seq<Row>, active: Option<Count>) {
    active.Some? ==> active.value.value == ActiveUsers(rows, active.value.since)
  }

  ghost predicate RateInv(rows: seq<Row>, rate: Option<Fraction>) {
    rate.Some? && OneRowPerTime(rows) ==> rate.value.value == ErrorRate(rows, rate.value.since, Sqlite)
  }

  lemma ReadKeepsCount(s: Store, since: int, backend: Backend)
    requires CountInv(s.rows, s.active)
    ensures CountInv(s.rows, FilledCount(s, since, backend))
  {
  }

  lemma ReadKeepsRate(s: Store, since: int, backend: Backend)
    requires RateInv(s.rows, s.rate) && Legal(s, ReadRate(since, backend))
    ensures RateInv(s.rows, FilledRate(s, since, backend))
  {
    if OneRowPerTime(s.rows) {
      BackendsAgree(s.rows, since, backend);
    }
  }

  lemma StepKeepsInv(s: Store, e: Event)
    requires Inv(s) && Legal(s, e)
    ensures Inv(Step(s, e))
  {
    match e
    case ReadActive(since, backend) => ReadKeepsCount(s, since, backend);
    case ReadRate(since, backend) => ReadKeepsRate(s, since, backend);
    case AddScore(_) =>
    case AddLatency =>
    case AddLatencies(_) =>
    case Wait(_) =>
  }

  lemma {:induction false} RunKeepsInv(s: Store, events: seq<Event>)
    requires Inv(s) && LegalRun(s, events)
    ensures Inv(Run(s, events))
    decreases |events|
  {
    if events != [] {
      RunKeepsInv(s, events[..|events| - 1]);
      StepKeepsInv(Run(s, events[..|events| - 1]), events[|events| - 1]);
    }
  }

  /** Every read in the run asks about the one bound. */
  ghost predicate OneBound(events: seq<Event>, since: int) {
    forall e :: e in events ==> (e.ReadActive? || e.ReadRate? ==> e.since == since)
  }

  ghost predicate FilledFor(s: Store, since: int) {
    (s.active.Some? ==> s.active.value.since == since) && (s.rate.Some? ==> s.rate.value.since == since)
  }

  lemma {:induction false} RunFillsFor(s: Store, events: seq<Event>, since: int)
    requires OneBound(events, since) && FilledFor(s, since)
    ensures FilledFor(Run(s, events), since)
    decreases |events|
  {
    if events != [] {
      assert events == events[..|events| - 1] + [events[|events| - 1]];
      RunFillsFor(s, events[..|events| - 1], since);
    }
  }

  /**
   After any run of inserts, waits and reads of one bound, what either read returns, cached or not, is what
   the direct query gives on the table as it is now; only the active-user read on PostgreSQL returns
   nothing unless a count is cached. For the error rate the table has one row per idea and timestamp;
   then it also does not matter which database answers.
   */
  lemma CachedAnswersAreDirect(rows: seq<Row>, start: nat, events: seq<Event>, since: int, backend: Backend)
    requires LegalRun(Fresh(rows, start), events) && OneBound(events, since)
    requires Legal(Run(Fresh(rows, start), events), ReadRate(since, backend))
    ensures var s := Run(Fresh(rows, start), events);
            && ActiveAnswer(s, since, backend)
               == (if backend.Sqlite? || CountIsLive(s) then Some(ActiveUsers(s.rows, since)) else None)
            && (OneRowPerTime(s.rows) ==> RateAnswer(s, since, backend) == ErrorRate(s.rows, since, Sqlite))
  {
    var s := Run(Fresh(rows, start), events);
    RunKeepsInv(Fresh(rows, start), events);
    RunFillsFor(Fresh(rows, start), events, since);
    if OneRowPerTime(s.rows) {
      BackendsAgree(s.rows, since, backend);
    }
  }

  /** Where every reader uses PostgreSQL, no active-user read ever returns a count. */
  lemma {:induction false} PostgresNeverCounts(rows: seq<Row>, start: nat, events: seq<Event>, since: int,
                                               ordered: seq<Row>)
    requires forall e :: e in events && e.ReadActive? ==> e.backend.Postgres?
    ensures Run(Fresh(rows, start), events).active == None
    ensures ActiveAnswer(Run(Fresh(rows, start), events), since, Postgres(ordered)) == None
    decreases |events|
  {
    if events != [] {
      assert events == events[..|events| - 1] + [events[|events| - 1]];
      PostgresNeverCounts(rows, start, events[..|events| - 1], since, ordered);
    }
  }
}
