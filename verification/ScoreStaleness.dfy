/** When an answer cached for one bound is the answer for another, over any run and for both read-outs. */
module ScoreStaleness {
  import opened Options
  import opened ScoreCache
  import opened ScoreQueries
  import opened Sequences

  function Min(a: int, b: int): int {
    if a < b then a else b
  }

  function Max(a: int, b: int): int {
    if a < b then b else a
  }

  /** The idea was last scored between the two bounds. */
  predicate FallsBetween(rows: seq<Row>, idea: int, a: int, b: int) {
    MaxTime(rows, idea).Some? && Min(a, b) <= MaxTime(rows, idea).value < Max(a, b)
  }

  /** No idea was last scored between the two bounds. */
  ghost predicate NoLatestBetween(rows: seq<Row>, a: int, b: int) {
    forall r :: r in rows ==> !FallsBetween(rows, r.idea, a, b)
  }

  // The active users

  lemma SubsetOfEqualSize<T>(a: set<T>, b: set<T>)
    requires a <= b && |a| == |b|
    ensures a == b
  {
    assert b == a + (b - a);
    assert |b| == |a| + |b - a|;
  }

  /** An idea is active for the lower bound and not for the higher one exactly if it was last scored between them. */
  lemma ActiveSplit(rows: seq<Row>, lo: int, hi: int)
    requires lo <= hi
    ensures Active(rows, hi) <= Active(rows, lo)
    ensures Active(rows, hi) == Active(rows, lo) <==> NoLatestBetween(rows, lo, hi)
  {
    if Active(rows, hi) == Active(rows, lo) {
      forall r | r in rows ensures !(lo <= MaxTime(rows, r.idea).value < hi) {
        ActiveByLatest(rows, lo, r);
        ActiveByLatest(rows, hi, r);
      }
    } else {
      var k :| k in Active(rows, lo) && k !in Active(rows, hi);
      var r :| r in rows && r.time >= lo && r.idea == k;
      ActiveByLatest(rows, lo, r);
      ActiveByLatest(rows, hi, r);
    }
  }

  lemma ActiveByLatest(rows: seq<Row>, since: int, r: Row)
    requires r in rows
    ensures r.idea in Active(rows, since) <==> MaxTime(rows, r.idea).value >= since
  {
    if MaxTime(rows, r.idea).value >= since {
      var q :| q in rows && q.idea == r.idea && q.time == MaxTime(rows, r.idea).value;
      assert q.idea in Active(rows, since);
    }
  }

  lemma SameCountIff(rows: seq<Row>, a: int, b: int)
    ensures ActiveUsers(rows, a) == ActiveUsers(rows, b) <==> NoLatestBetween(rows, a, b)
  {
    ActiveUsersMeans(rows, a);
    ActiveUsersMeans(rows, b);
    ActiveSplit(rows, Min(a, b), Max(a, b));
    if ActiveUsers(rows, a) == ActiveUsers(rows, b) {
      SubsetOfEqualSize(Active(rows, Max(a, b)), Active(rows, Min(a, b)));
    }
  }

  /**
   After any run, with any bounds in it, an active-user read returns the count for its own bound exactly if
   a count is cached and no idea was last scored between that bound and the one the cache was filled for,
   or none is cached and the reader uses SQLite.
   */
  lemma ActiveAnswerIsOwnIff(rows: seq<Row>, start: nat, events: seq<Event>, since: int, backend: Backend)
    requires LegalRun(Fresh(rows, start), events)
    ensures var s := Run(Fresh(rows, start), events);
            ActiveAnswer(s, since, backend) == Some(ActiveUsers(s.rows, since)) <==>
            if CountIsLive(s) then NoLatestBetween(s.rows, s.active.value.since, since) else backend.Sqlite?
  {
    var s := Run(Fresh(rows, start), events);
    RunKeepsInv(Fresh(rows, start), events);
    if CountIsLive(s) {
      SameCountIff(s.rows, s.active.value.since, since);
    }
  }

  /** A single idea, scored at time 0: the reader that asks about 10 is told of one active user and there is none. */
  lemma StaleCount(score: real)
    ensures var s := Run(Fresh([Row(1, 0, score)], 0), [ReadActive(0, Sqlite)]);
            ActiveAnswer(s, 10, Sqlite) == Some(1) && ActiveUsers(s.rows, 10) == 0
  {
    var rows := [Row(1, 0, score)];
    RunOneEvent(rows, ReadActive(0, Sqlite));
    ActiveUsersMeans(rows, 0);
    ActiveUsersMeans(rows, 10);
    assert rows[0] in rows;
    assert Active(rows, 0) == {1};
    assert Active(rows, 10) == {};
  }

  lemma RunOneEvent(rows: seq<Row>, e: Event)
    ensures Run(Fresh(rows, 0), [e]) == Step(Fresh(rows, 0), e)
  {
    assert [e][..0] == [];
    assert Run(Fresh(rows, 0), []) == Fresh(rows, 0);
  }

  // The error rate of one table

  lemma {:induction false} WhereSame(rows: seq<Row>, p: Row -> bool, q: Row -> bool)
    requires forall r :: r in rows ==> p(r) == q(r)
    ensures Where(rows, p) == Where(rows, q)
    decreases |rows|
  {
    if rows != [] {
      assert rows == rows[..|rows| - 1] + [rows[|rows| - 1]];
      WhereSame(rows[..|rows| - 1], p, q);
    }
  }

  /** With nobody last scored between two bounds the same rows are selected for both. */
  lemma SameRate(rows: seq<Row>, a: int, b: int)
    requires NoLatestBetween(rows, a, b)
    ensures ErrorRate(rows, a, Sqlite) == ErrorRate(rows, b, Sqlite)
  {
    forall r | r in rows ensures LatestSince(rows, a)(r) == LatestSince(rows, b)(r) {
      assert !FallsBetween(rows, r.idea, a, b);
    }
    WhereSame(rows, LatestSince(rows, a), LatestSince(rows, b));
  }

  lemma {:induction false} CountSome(rows: seq<Row>, p: Row -> bool, r: Row)
    requires r in rows && p(r)
    ensures ScoreQueries.Count(rows, p) > 0
    decreases |rows|
  {
    var n := |rows| - 1;
    assert rows == rows[..n] + [rows[n]];
    if rows[n] != r {
      CountSome(rows[..n], p, r);
    }
  }

  lemma {:induction false} CountNone(rows: seq<Row>, p: Row -> bool)
    requires forall r :: r in rows ==> !p(r)
    ensures ScoreQueries.Count(rows, p) == 0
    decreases |rows|
  {
    if rows != [] {
      assert rows == rows[..|rows| - 1] + [rows[|rows| - 1]];
      CountNone(rows[..|rows| - 1], p);
    }
  }

  lemma SomeFailing(selected: seq<Row>, r: Row)
    requires r in selected && Failing(r)
    ensures Rate(Summary(selected)) > 0.0
  {
    CountSome(selected, Failing, r);
    PositiveQuotient(ScoreQueries.Count(selected, Failing) as real, |selected| as real);
  }

  lemma PositiveQuotient(x: real, y: real)
    requires x > 0.0 && y > 0.0
    ensures x / y > 0.0
  {
  }

  lemma NoneFailing(selected: seq<Row>)
    requires forall r :: r in selected ==> !Failing(r)
    ensures Rate(Summary(selected)) == 0.0
  {
    CountNone(selected, Failing);
  }

  /** If everything scored before `hi` failed and everything since did not, an idea last scored in between tells. */
  lemma RatesDiffer(rows: seq<Row>, lo: int, hi: int)
    requires lo <= hi && !NoLatestBetween(rows, lo, hi)
    requires forall r :: r in rows ==> (Failing(r) <==> r.time < hi)
    ensures ErrorRate(rows, lo, Sqlite) > 0.0
    ensures ErrorRate(rows, hi, Sqlite) == 0.0
  {
    var r :| r in rows && lo <= MaxTime(rows, r.idea).value < hi;
    var q :| q in rows && q.idea == r.idea && q.time == MaxTime(rows, r.idea).value;
    assert q in JoinOnMax(rows, lo);
    SomeFailing(JoinOnMax(rows, lo), q);
    NoneFailing(JoinOnMax(rows, hi));
  }

  // The same run with other scores

  /** A score for every idea and time. */
  type Scores = (int, int) -> real

  /** The row with the score given for its idea and time. */
  function Rescored(r: Row, scores: Scores): Row {
    r.(score := scores(r.idea, r.time))
  }

  function RescoredRows(rows: seq<Row>, scores: Scores): seq<Row> {
    seq(|rows|, i requires 0 <= i < |rows| => Rescored(rows[i], scores))
  }

  function RescoredEvent(e: Event, scores: Scores): Event {
    match e
    case AddScore(row) => AddScore(Rescored(row, scores))
    case ReadActive(since, Postgres(ordered)) => ReadActive(since, Postgres(RescoredRows(ordered, scores)))
    case ReadRate(since, Postgres(ordered)) => ReadRate(since, Postgres(RescoredRows(ordered, scores)))
    case _ => e
  }

  function RescoredEvents(events: seq<Event>, scores: Scores): seq<Event> {
    seq(|events|, i requires 0 <= i < |events| => RescoredEvent(events[i], scores))
  }

  /** Same rows up to scores, same clock, same fill of the rate cache. */
  ghost predicate Parallel(s: Store, t: Store, scores: Scores) {
    && t.rows == RescoredRows(s.rows, scores) && t.now == s.now
    && (t.rate.Some? <==> s.rate.Some?)
    && (s.rate.Some? ==> t.rate.value.since == s.rate.value.since && t.rate.value.until == s.rate.value.until)
  }

  lemma StepParallel(s: Store, t: Store, e: Event, scores: Scores)
    requires Parallel(s, t, scores)
    ensures Parallel(Step(s, e), Step(t, RescoredEvent(e, scores)), scores)
  {
    match e
    case AddScore(row) =>
      assert RescoredRows(s.rows + [row], scores) == RescoredRows(s.rows, scores) + [Rescored(row, scores)];
    case ReadRate(since, backend) =>
      assert RateIsLive(s) <==> RateIsLive(t);
    case _ =>
  }

  lemma {:induction false} RunParallel(rows: seq<Row>, start: nat, events: seq<Event>, scores: Scores)
    ensures Parallel(Run(Fresh(rows, start), events),
                     Run(Fresh(RescoredRows(rows, scores), start), RescoredEvents(events, scores)), scores)
    decreases |events|
  {
    if events != [] {
      var n := |events| - 1;
      RunParallel(rows, start, events[..n], scores);
      var more := RescoredEvents(events, scores);
      assert more[..n] == RescoredEvents(events[..n], scores) && more[n] == RescoredEvent(events[n], scores);
      StepParallel(Run(Fresh(rows, start), events[..n]),
                   Run(Fresh(RescoredRows(rows, scores), start), more[..n]), events[n], scores);
    }
  }

  lemma RescoredConcat(a: seq<Row>, b: seq<Row>, scores: Scores)
    ensures RescoredRows(a + b, scores) == RescoredRows(a, scores) + RescoredRows(b, scores)
  {
  }

  lemma {:induction false} RescoredPermutes(a: seq<Row>, b: seq<Row>, scores: Scores)
    requires multiset(a) == multiset(b)
    ensures multiset(RescoredRows(a, scores)) == multiset(RescoredRows(b, scores))
    decreases |a|
  {
    assert |multiset(a)| == |a| && |multiset(b)| == |b|;
    if a != [] {
      assert a[0] in multiset(b);
      var k :| 0 <= k < |b| && b[k] == a[0];
      var rest := b[..k] + b[k + 1..];
      assert b == b[..k] + [b[k]] + b[k + 1..];
      assert multiset([a[0]] + rest) == multiset(b);
      TailsAgree(a, [a[0]] + rest);
      assert ([a[0]] + rest)[1..] == rest;
      RescoredPermutes(a[1..], rest, scores);
      assert a == [a[0]] + a[1..];
      RescoredConcat([a[0]], a[1..], scores);
      RescoredConcat(b[..k] + [b[k]], b[k + 1..], scores);
      RescoredConcat(b[..k], [b[k]], scores);
      RescoredConcat(b[..k], b[k + 1..], scores);
    }
  }

  lemma LegalParallel(s: Store, t: Store, e: Event, scores: Scores)
    requires Parallel(s, t, scores) && Legal(s, e)
    ensures Legal(t, RescoredEvent(e, scores))
  {
    if e.ReadRate? && e.backend.Postgres? {
      RescoredPermutes(e.backend.ordered, s.rows, scores);
    }
  }

  lemma {:induction false} LegalRescored(rows: seq<Row>, start: nat, events: seq<Event>, scores: Scores)
    requires LegalRun(Fresh(rows, start), events)
    ensures LegalRun(Fresh(RescoredRows(rows, scores), start), RescoredEvents(events, scores))
    decreases |events|
  {
    if events != [] {
      var n := |events| - 1;
      LegalRescored(rows, start, events[..n], scores);
      RunParallel(rows, start, events[..n], scores);
      var more := RescoredEvents(events, scores);
      assert more[..n] == RescoredEvents(events[..n], scores) && more[n] == RescoredEvent(events[n], scores);
      LegalParallel(Run(Fresh(rows, start), events[..n]),
                    Run(Fresh(RescoredRows(rows, scores), start), more[..n]), events[n], scores);
    }
  }

  lemma {:induction false} SameMaxTime(rows: seq<Row>, scores: Scores, idea: int)
    ensures MaxTime(RescoredRows(rows, scores), idea) == MaxTime(rows, idea)
    decreases |rows|
  {
    if rows != [] {
      var n := |rows| - 1;
      SameMaxTime(rows[..n], scores, idea);
      assert RescoredRows(rows, scores)[..n] == RescoredRows(rows[..n], scores);
    }
  }

  lemma SameLatest(rows: seq<Row>, scores: Scores, a: int, b: int)
    ensures NoLatestBetween(RescoredRows(rows, scores), a, b) <==> NoLatestBetween(rows, a, b)
  {
    var other := RescoredRows(rows, scores);
    LatestByPosition(rows, a, b);
    LatestByPosition(other, a, b);
    forall i | 0 <= i < |rows|
      ensures FallsBetween(other, other[i].idea, a, b) == FallsBetween(rows, rows[i].idea, a, b)
    {
      SameMaxTime(rows, scores, rows[i].idea);
    }
  }

  lemma LatestByPosition(rows: seq<Row>, a: int, b: int)
    ensures NoLatestBetween(rows, a, b) <==>
            forall i :: 0 <= i < |rows| ==> !FallsBetween(rows, rows[i].idea, a, b)
  {
    if !NoLatestBetween(rows, a, b) {
      var r :| r in rows && FallsBetween(rows, r.idea, a, b);
      var i :| 0 <= i < |rows| && rows[i] == r;
    }
  }

  /** Scores that fail exactly the rows before `hi`. */
  function FailBefore(hi: int): Scores {
    (idea, time) => if time < hi then 0.0 else 1.0
  }

  lemma FailingBefore(rows: seq<Row>, hi: int)
    ensures forall r :: r in RescoredRows(rows, FailBefore(hi)) ==> (Failing(r) <==> r.time < hi)
  {
  }

  /** With an idea last scored between two bounds, there are scores for which the rates differ. */
  lemma SomeScoresTell(rows: seq<Row>, a: int, b: int)
    requires !NoLatestBetween(rows, a, b)
    ensures var other := RescoredRows(rows, FailBefore(Max(a, b)));
            ErrorRate(other, a, Sqlite) != ErrorRate(other, b, Sqlite)
  {
    var hi := Max(a, b);
    SameLatest(rows, FailBefore(hi), a, b);
    FailingBefore(rows, hi);
    RatesDiffer(RescoredRows(rows, FailBefore(hi)), Min(a, b), hi);
  }

  // The error rate over any run

  /** In the run with these scores, a reader of the error rate gets the rate for its own bound. */
  ghost predicate RateIsOwn(rows: seq<Row>, start: nat, events: seq<Event>, since: int, scores: Scores) {
    var t := Run(Fresh(RescoredRows(rows, scores), start), RescoredEvents(events, scores));
    RateAnswer(t, since, Sqlite) == ErrorRate(t.rows, since, Sqlite)
  }

  lemma KeyedRescored(rows: seq<Row>, scores: Scores)
    requires OneRowPerTime(rows)
    ensures OneRowPerTime(RescoredRows(rows, scores))
  {
  }

  /** What a live cache answers in the run with other scores: the rate for the bound that filled it. */
  lemma CachedRate(rows: seq<Row>, start: nat, events: seq<Event>, since: int, scores: Scores)
    requires LegalRun(Fresh(rows, start), events)
    requires OneRowPerTime(Run(Fresh(rows, start), events).rows)
    ensures var s := Run(Fresh(rows, start), events);
            var t := Run(Fresh(RescoredRows(rows, scores), start), RescoredEvents(events, scores));
            && t.rows == RescoredRows(s.rows, scores)
            && RateAnswer(t, since, Sqlite)
               == ErrorRate(t.rows, if RateIsLive(s) then s.rate.value.since else since, Sqlite)
  {
    RunParallel(rows, start, events, scores);
    LegalRescored(rows, start, events, scores);
    KeyedRescored(Run(Fresh(rows, start), events).rows, scores);
    RunKeepsInv(Fresh(RescoredRows(rows, scores), start), RescoredEvents(events, scores));
  }

  /**
   After any run that leaves one row per idea and timestamp, an error-rate read returns the rate for its own
   bound, whatever the scores are, exactly if no rate is cached or no idea was last scored between its bound
   and that of the read that filled the cache.
   */
  lemma RateAnswerIsOwnIff(rows: seq<Row>, start: nat, events: seq<Event>, since: int)
    requires LegalRun(Fresh(rows, start), events)
    requires OneRowPerTime(Run(Fresh(rows, start), events).rows)
    ensures var s := Run(Fresh(rows, start), events);
            (forall scores: Scores :: RateIsOwn(rows, start, events, since, scores)) <==>
            !RateIsLive(s) || NoLatestBetween(s.rows, s.rate.value.since, since)
  {
    if forall scores: Scores :: RateIsOwn(rows, start, events, since, scores) {
      OwnRateNeedsNoLatest(rows, start, events, since);
    } else {
      var scores: Scores :| !RateIsOwn(rows, start, events, since, scores);
      ForeignRateNeedsLatest(rows, start, events, since, scores);
    }
  }

  lemma ForeignRateNeedsLatest(rows: seq<Row>, start: nat, events: seq<Event>, since: int, scores: Scores)
    requires LegalRun(Fresh(rows, start), events)
    requires OneRowPerTime(Run(Fresh(rows, start), events).rows)
    requires !RateIsOwn(rows, start, events, since, scores)
    ensures var s := Run(Fresh(rows, start), events);
            RateIsLive(s) && !NoLatestBetween(s.rows, s.rate.value.since, since)
  {
    var s := Run(Fresh(rows, start), events);
    CachedRate(rows, start, events, since, scores);
    if RateIsLive(s) && NoLatestBetween(s.rows, s.rate.value.since, since) {
      SameLatest(s.rows, scores, s.rate.value.since, since);
      SameRate(RescoredRows(s.rows, scores), s.rate.value.since, since);
    }
  }

  lemma OwnRateNeedsNoLatest(rows: seq<Row>, start: nat, events: seq<Event>, since: int)
    requires LegalRun(Fresh(rows, start), events)
    requires OneRowPerTime(Run(Fresh(rows, start), events).rows)
    requires forall scores: Scores :: RateIsOwn(rows, start, events, since, scores)
    ensures var s := Run(Fresh(rows, start), events);
            !RateIsLive(s) || NoLatestBetween(s.rows, s.rate.value.since, since)
  {
    var s := Run(Fresh(rows, start), events);
    if RateIsLive(s) && !NoLatestBetween(s.rows, s.rate.value.since, since) {
      var scores := FailBefore(Max(s.rate.value.since, since));
      assert RateIsOwn(rows, start, events, since, scores);
      CachedRate(rows, start, events, since, scores);
      SomeScoresTell(s.rows, s.rate.value.since, since);
    }
  }

  /**
   Two ideas scored once each, the earlier one failing: the reader that asks about the later time alone is
   told that half the ideas fail, and none of those it asks about does.
   */
  lemma StaleRate(bad: Row, good: Row)
    requires bad.idea != good.idea && bad.time < good.time && Failing(bad) && !Failing(good)
    ensures var s := Run(Fresh([bad, good], 0), [ReadRate(bad.time, Sqlite)]);
            RateAnswer(s, good.time, Sqlite) == 0.5 && ErrorRate(s.rows, good.time, Sqlite) == 0.0
  {
    var rows := [bad, good];
    RunOneEvent(rows, ReadRate(bad.time, Sqlite));
    HalfFail(bad, good);
    NoneFail(bad, good);
    FirstRead(rows, bad.time);
    AnswerUntil(Step(Fresh(rows, 0), ReadRate(bad.time, Sqlite)), 0.5, bad.time, TTL, good.time, Sqlite);
  }

  lemma FirstRead(rows: seq<Row>, since: int)
    ensures var s := Step(Fresh(rows, 0), ReadRate(since, Sqlite));
            s.rows == rows && s.now == 0 && s.rate == Some(Fraction(ErrorRate(rows, since, Sqlite), since, TTL))
  {
  }

  lemma HalfFail(bad: Row, good: Row)
    requires bad.idea != good.idea && bad.time < good.time && Failing(bad) && !Failing(good)
    ensures ErrorRate([bad, good], bad.time, Sqlite) == 0.5
  {
    var rows := [bad, good];
    assert rows[..1] == [bad] && [bad][..0] == [];
    assert JoinOnMax(rows, bad.time) == rows by {
      var p := LatestSince(rows, bad.time);
      assert rows[0] in rows && rows[1] in rows;
      assert p(bad) && p(good);
      assert Where([bad], p) == [bad];
      assert Where(rows, p) == Where([bad], p) + [good];
    }
    assert ScoreQueries.Count([bad], Failing) == 1;
    assert ScoreQueries.Count(rows, Failing) == 1;
  }

  lemma NoneFail(bad: Row, good: Row)
    requires bad.time < good.time && !Failing(good)
    ensures ErrorRate([bad, good], good.time, Sqlite) == 0.0
  {
    NoneFailing(JoinOnMax([bad, good], good.time));
  }
}
