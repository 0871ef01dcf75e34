/** Ingestion runs and process starts at given times, with the expiry of the set of seen keys. */
module DedupExpiry {
  import opened Options
  import opened Ingestion
  import opened IngestionRuns

  /** Something at a time: a run, or the start of a process, which refreshes the set. */
  datatype Event = Event(at: nat, run: Option<Input>)

  datatype Timed<E> = Timed(st: State<E>, deadline: nat)

  function TimedStep<E>(t: Timed<E>, e: Event, ttl: nat, embed: string -> E): Timed<E>
    requires e.run.Some? ==> e.run.value.chunk > 0
  {
    var st := Alive(t.st, t.deadline, e.at);
    match e.run
    case None => Timed(st, e.at + ttl)
    case Some(input) =>
      var after := RunOne(st, input, embed);
      Timed(after, DeadlineAfter(st.marked, after.marked, t.deadline, e.at, ttl))
  }

  function TimedRun<E>(t: Timed<E>, events: seq<Event>, ttl: nat, embed: string -> E): Timed<E>
    requires ChunksPositive(events)
    decreases |events|
  {
    if events == [] then t else TimedRun(TimedStep(t, events[0], ttl, embed), events[1..], ttl, embed)
  }

  predicate ChunksPositive(events: seq<Event>) {
    forall i :: 0 <= i < |events| && events[i].run.Some? ==> events[i].run.value.chunk > 0
  }

  ghost predicate InOrder(events: seq<Event>) {
    forall i, j :: 0 <= i < j < |events| ==> events[i].at <= events[j].at
  }

  function Start<E>(): Timed<E> {
    Timed(Fresh(), 0)
  }

  /** The runs among the events, without their times. */
  function Inputs(events: seq<Event>): (inputs: seq<Input>)
    ensures ChunksPositive(events) ==> forall i :: 0 <= i < |inputs| ==> inputs[i].chunk > 0
  {
    if events == [] then []
    else
      (if events[0].run.Some? then [events[0].run.value] else []) + Inputs(events[1..])
  }

  predicate NoRuns(events: seq<Event>) {
    forall i :: 0 <= i < |events| ==> events[i].run.None?
  }

  // The condition

  /** A set with this deadline lives to see every run, even if none of them brings a new key. */
  predicate Survives(deadline: nat, events: seq<Event>, ttl: nat)
    decreases |events|
  {
    if events == [] then true
    else
      var e := events[0];
      match e.run
      case Some(_) => e.at < deadline && Survives(deadline, events[1..], ttl)
      case None => if e.at < deadline then Survives(e.at + ttl, events[1..], ttl) else NoRuns(events[1..])
  }

  /** The set filled by the first run lives to see every later run, even if none of them brings a new key. */
  predicate WithinTtl(events: seq<Event>, ttl: nat) {
    events == [] ||
    if events[0].run.Some? then Survives(events[0].at + ttl, events[1..], ttl) else WithinTtl(events[1..], ttl)
  }

  /** With runs alone: the last of them starts less than a TTL after the first. */
  lemma {:induction false} RunsWithin(events: seq<Event>, ttl: nat)
    requires InOrder(events) && events != [] && forall e :: e in events ==> e.run.Some?
    ensures WithinTtl(events, ttl) <==> |events| == 1 || events[|events| - 1].at < events[0].at + ttl
  {
    assert events[0] in events;
    if |events| > 1 {
      SurvivesUntilLast(events[0].at + ttl, events[1..], ttl);
    }
  }

  lemma {:induction false} SurvivesUntilLast(deadline: nat, events: seq<Event>, ttl: nat)
    requires InOrder(events) && events != [] && forall e :: e in events ==> e.run.Some?
    ensures Survives(deadline, events, ttl) <==> events[|events| - 1].at < deadline
    decreases |events|
  {
    assert events[0] in events;
    if |events| > 1 {
      SurvivesUntilLast(deadline, events[1..], ttl);
    }
  }

  // Within the TTL the clock makes no difference

  /** The two agree in everything but the keys a dead set has lost. */
  ghost predicate SameOutput<E>(a: State<E>, b: State<E>) {
    a.(marked := {}) == b.(marked := {})
  }

  lemma {:induction false} OnlyStarts<E>(t: Timed<E>, events: seq<Event>, ttl: nat, embed: string -> E)
    requires NoRuns(events)
    ensures SameOutput(TimedRun(t, events, ttl, embed).st, t.st) && Inputs(events) == []
    decreases |events|
  {
    if events != [] {
      OnlyStarts(TimedStep(t, events[0], ttl, embed), events[1..], ttl, embed);
    }
  }

  ghost predicate LivesUntil<E>(t: Timed<E>, deadline: nat) {
    t.st.marked == {} || t.deadline >= deadline
  }

  lemma RunInTime<E>(t: Timed<E>, e: Event, ttl: nat, embed: string -> E, deadline: nat)
    requires e.run.Some? && e.run.value.chunk > 0 && e.at < deadline <= e.at + ttl && LivesUntil(t, deadline)
    ensures var next := TimedStep(t, e, ttl, embed);
            next.st == RunOne(t.st, e.run.value, embed) && LivesUntil(next, deadline)
  {
    assert Alive(t.st, t.deadline, e.at) == t.st;
  }

  lemma StartInTime<E>(t: Timed<E>, e: Event, ttl: nat, embed: string -> E, deadline: nat)
    requires e.run.None? && e.at < deadline && LivesUntil(t, deadline)
    ensures TimedStep(t, e, ttl, embed) == Timed(t.st, e.at + ttl)
  {
    assert Alive(t.st, t.deadline, e.at) == t.st;
  }

  /** While the set survives, the timed run puts out what the run without clock does. */
  lemma {:induction false} TimedIsUntimed<E>(t: Timed<E>, events: seq<Event>, ttl: nat, embed: string -> E,
                                             deadline: nat)
    requires ChunksPositive(events) && InOrder(events) && Survives(deadline, events, ttl)
    requires LivesUntil(t, deadline)
    requires events != [] ==> deadline <= events[0].at + ttl
    ensures SameOutput(TimedRun(t, events, ttl, embed).st, RunAll(t.st, Inputs(events), embed))
    decreases |events|
  {
    if events != [] {
      var e, rest := events[0], events[1..];
      var next := TimedStep(t, e, ttl, embed);
      if e.run.Some? {
        assert Inputs(events) == [e.run.value] + Inputs(rest);
        RunInTime(t, e, ttl, embed, deadline);
        TimedIsUntimed(next, rest, ttl, embed, deadline);
      } else if e.at < deadline {
        assert Inputs(events) == Inputs(rest);
        StartInTime(t, e, ttl, embed, deadline);
        TimedIsUntimed(next, rest, ttl, embed, e.at + ttl);
      } else {
        assert SameOutput(next.st, t.st) && Inputs(events) == Inputs(rest);
        OnlyStarts(next, rest, ttl, embed);
      }
    }
  }

  lemma {:induction false} WithinIsUntimed<E>(t: Timed<E>, events: seq<Event>, ttl: nat, embed: string -> E)
    requires ChunksPositive(events) && InOrder(events) && WithinTtl(events, ttl) && t.st.marked == {}
    ensures SameOutput(TimedRun(t, events, ttl, embed).st, RunAll(t.st, Inputs(events), embed))
    decreases |events|
  {
    if events != [] {
      var e, rest := events[0], events[1..];
      var next := TimedStep(t, e, ttl, embed);
      if e.run.Some? {
        assert Inputs(events) == [e.run.value] + Inputs(rest);
        TimedIsUntimed(next, rest, ttl, embed, e.at + ttl);
      } else {
        assert next.st == t.st && Inputs(events) == Inputs(rest);
        WithinIsUntimed(next, rest, ttl, embed);
      }
    }
  }

  // Beyond it the same signal is published again

  /** The same signal, offered by a run in which nothing fails. */
  const SAME := Input([Good("same", "")], {}, Faults(false, false, None, false, None), 1)

  /** The same times, with that signal in every run. */
  function SameEachTime(events: seq<Event>): (same: seq<Event>)
    ensures SameTimes(events, same) && ChunksPositive(same)
  {
    seq(|events|, i requires 0 <= i < |events| =>
      if events[i].run.Some? then Event(events[i].at, Some(SAME)) else events[i])
  }

  ghost predicate SameTimes(a: seq<Event>, b: seq<Event>) {
    |a| == |b| && forall i :: 0 <= i < |a| ==> a[i].at == b[i].at && (a[i].run.Some? <==> b[i].run.Some?)
  }

  lemma SameStep<E>(st: State<E>, embed: string -> E)
    ensures var after := RunOne(st, SAME, embed);
            if "same" in st.marked then after.marked == st.marked && after.published == st.published
            else after.marked == st.marked + {"same"} && after.published == st.published + ["same"]
  {
    assert SAME.rows[..0] == [];
    assert Sanitize(SAME.rows, st.marked) == SanitizeRow(Sanitize([], st.marked), SAME.rows[0]);
  }

  lemma {:induction false} PublishedGrows<E>(t: Timed<E>, events: seq<Event>, ttl: nat, embed: string -> E)
    requires ChunksPositive(events)
    ensures t.st.published <= TimedRun(t, events, ttl, embed).st.published
    decreases |events|
  {
    if events != [] {
      PublishedGrows(TimedStep(t, events[0], ttl, embed), events[1..], ttl, embed);
    }
  }

  /** With the key lost, the next run publishes it a second time. */
  lemma {:induction false} LostIsRepeated<E>(t: Timed<E>, events: seq<Event>, ttl: nat, embed: string -> E)
    requires t.st.marked == {} && "same" in t.st.published && !NoRuns(events)
    ensures !Once(TimedRun(t, SameEachTime(events), ttl, embed).st.published)
    decreases |events|
  {
    var same := SameEachTime(events);
    assert same[1..] == SameEachTime(events[1..]);
    var next := TimedStep(t, same[0], ttl, embed);
    if events[0].run.Some? {
      RepeatShows(t, same, ttl, embed);
    } else {
      LostIsRepeated(next, events[1..], ttl, embed);
    }
  }

  /** A run on a set without the key, or on a dead one, repeats it for good. */
  lemma RepeatShows<E>(t: Timed<E>, same: seq<Event>, ttl: nat, embed: string -> E)
    requires ChunksPositive(same) && same != [] && same[0].run == Some(SAME)
    requires "same" in t.st.published && (t.st.marked == {} || t.deadline <= same[0].at)
    ensures !Once(TimedRun(t, same, ttl, embed).st.published)
  {
    var next := TimedStep(t, same[0], ttl, embed);
    SameStep(Alive(t.st, t.deadline, same[0].at), embed);
    PublishedGrows(next, same[1..], ttl, embed);
    var i :| 0 <= i < |t.st.published| && t.st.published[i] == "same";
    var j := |t.st.published|;
    var out := TimedRun(t, same, ttl, embed).st.published;
    assert next.st.published[i] == next.st.published[j] == "same";
    assert out[i] == out[j];
  }

  lemma {:induction false} DeathIsSeen<E>(t: Timed<E>, events: seq<Event>, ttl: nat, embed: string -> E)
    requires t.st.marked == {"same"} && "same" in t.st.published && !Survives(t.deadline, events, ttl)
    ensures !Once(TimedRun(t, SameEachTime(events), ttl, embed).st.published)
    decreases |events|
  {
    var same, e, rest := SameEachTime(events), events[0], events[1..];
    assert same[1..] == SameEachTime(rest);
    var next := TimedStep(t, same[0], ttl, embed);
    if e.at < t.deadline {
      SameStep(t.st, embed);
      DeathIsSeen(next, rest, ttl, embed);
    } else if e.run.Some? {
      RepeatShows(t, same, ttl, embed);
    } else {
      LostIsRepeated(next, rest, ttl, embed);
    }
  }

  lemma {:induction false} SameIsRepeated<E>(t: Timed<E>, events: seq<Event>, ttl: nat, embed: string -> E)
    requires t.st.marked == {} && !WithinTtl(events, ttl)
    ensures !Once(TimedRun(t, SameEachTime(events), ttl, embed).st.published)
    decreases |events|
  {
    var same := SameEachTime(events);
    assert same[1..] == SameEachTime(events[1..]);
    var next := TimedStep(t, same[0], ttl, embed);
    if events[0].run.Some? {
      SameStep(t.st, embed);
      assert "same" in next.st.published;
      DeathIsSeen(next, events[1..], ttl, embed);
    } else {
      SameIsRepeated(next, events[1..], ttl, embed);
    }
  }

  /** Whatever the runs at these times bring and wherever they fail, no key is published twice. */
  ghost predicate NeverTwice<E(!new)>(events: seq<Event>, ttl: nat, embed: string -> E) {
    forall other :: SameTimes(events, other) && ChunksPositive(other) ==>
      Once(TimedRun(Start(), other, ttl, embed).st.published)
  }

  lemma {:induction false} SameWithin(a: seq<Event>, b: seq<Event>, ttl: nat)
    requires SameTimes(a, b)
    ensures WithinTtl(a, ttl) <==> WithinTtl(b, ttl)
    decreases |a|
  {
    if a != [] {
      assert SameTimes(a[1..], b[1..]);
      if a[0].run.Some? {
        SameSurvival(a[0].at + ttl, a[1..], b[1..], ttl);
      } else {
        SameWithin(a[1..], b[1..], ttl);
      }
    }
  }

  lemma {:induction false} SameSurvival(deadline: nat, a: seq<Event>, b: seq<Event>, ttl: nat)
    requires SameTimes(a, b)
    ensures Survives(deadline, a, ttl) <==> Survives(deadline, b, ttl)
    decreases |a|
  {
    if a != [] {
      assert SameTimes(a[1..], b[1..]);
      if a[0].run.None? && a[0].at < deadline {
        SameSurvival(a[0].at + ttl, a[1..], b[1..], ttl);
      } else {
        SameSurvival(deadline, a[1..], b[1..], ttl);
      }
    }
  }

  /**
   Runs and process starts at given times never publish a key twice, whatever they bring, exactly if the set
   filled by the first run lives to see every later one. Only new keys and process starts move its deadline,
   so runs that come in time but bring the same signal do not keep it alive.
   */
  lemma NothingTwiceIff<E(!new)>(events: seq<Event>, ttl: nat, embed: string -> E)
    requires InOrder(events)
    ensures NeverTwice(events, ttl, embed) <==> WithinTtl(events, ttl)
  {
    if WithinTtl(events, ttl) {
      forall other | SameTimes(events, other) && ChunksPositive(other)
        ensures Once(TimedRun(Start(), other, ttl, embed).st.published)
      {
        SameWithin(events, other, ttl);
        WithinIsUntimed(Start(), other, ttl, embed);
        NothingTwice(Inputs(other), embed);
      }
    } else {
      SameIsRepeated(Start(), events, ttl, embed);
      assert !Once(TimedRun(Start(), SameEachTime(events), ttl, embed).st.published);
    }
  }
}
