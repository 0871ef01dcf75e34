/** What the limiter protocol guarantees over every interleaving of its clients. */
module TokenBucketTheorems {
  import opened Options
  import opened TokenBucket

  // The atomic fixed-window counter

  datatype Window = Closed | Open(used: int, born: int)

  datatype Event = Granted(client: nat) | Denied(client: nat) | Waited(elapsed: nat)

  /** One indivisible request: the first one opens the window, later ones are counted against the limit. */
  function AtomicAcquire(cfg: Config, a: Window, now: int): (Window, bool) {
    match a
    case Closed => (Open(1, now), true)
    case Open(used, born) => if used < cfg.limit then (Open(used + 1, born), true) else (a, false)
  }

  function AtomicWait(cfg: Config, a: Window, now: int): Window {
    if a.Open? && a.born + cfg.window <= now then Closed else a
  }

  /** Replays events on the counter; None when an event claims an answer the counter would not give. */
  function AtomicRun(cfg: Config, a: Window, now: int, events: seq<Event>): Option<(Window, int)>
    decreases |events|
  {
    if events == [] then Some((a, now))
    else
      match events[0]
      case Waited(elapsed) => AtomicRun(cfg, AtomicWait(cfg, a, now + elapsed), now + elapsed, events[1..])
      case Granted(_) =>
        var (a', granted) := AtomicAcquire(cfg, a, now);
        if granted then AtomicRun(cfg, a', now, events[1..]) else None
      case Denied(_) =>
        var (a', granted) := AtomicAcquire(cfg, a, now);
        if granted then None else AtomicRun(cfg, a', now, events[1..])
  }

  function Abs(cfg: Config, w: World): Window {
    match w.key
    case Absent => Closed
    case Present(tokens, deadline) =>
      Open(cfg.limit - tokens, if deadline.Some? then deadline.value - cfg.window else w.now)
  }

  /** What one action adds to the record: a grant, a denial, the passing of time, or nothing. */
  function Observed(w: World, a: Action, w': World): seq<Event> {
    match a
    case Tick(elapsed) => [Waited(elapsed)]
    case Step(c) =>
      if |w'.grants| > |w.grants| then [Granted(w'.grants[|w'.grants| - 1].client)]
      else if |w'.denials| > |w.denials| then [Denied(w'.denials[|w'.denials| - 1].client)]
      else []
  }

  function Trace(cfg: Config, w: World, schedule: seq<Action>): seq<Event>
    decreases |schedule|
  {
    if schedule == [] then []
    else
      var w' := Do(cfg, w, schedule[0]);
      Observed(w, schedule[0], w') + Trace(cfg, w', schedule[1..])
  }

  /** The events replay on the counter from w to w'. */
  ghost predicate Replays(cfg: Config, w: World, events: seq<Event>, w': World) {
    AtomicRun(cfg, Abs(cfg, w), w.now, events) == Some((Abs(cfg, w'), w'.now))
  }

  lemma ReplaysOne(cfg: Config, a: Window, now: int, e: Event)
    ensures AtomicRun(cfg, a, now, [e]) ==
            match e
            case Waited(elapsed) => Some((AtomicWait(cfg, a, now + elapsed), now + elapsed))
            case Granted(_) => if AtomicAcquire(cfg, a, now).1 then Some((AtomicAcquire(cfg, a, now).0, now)) else None
            case Denied(_) => if AtomicAcquire(cfg, a, now).1 then None else Some((AtomicAcquire(cfg, a, now).0, now))
  {
    assert [e][1..] == [];
  }

  lemma ExecuteRefines(cfg: Config, w: World, c: nat)
    requires Inv(cfg, w) && c < |w.conns| && w.conns[c].Queued? && w.conns[c].seen == w.version
    ensures Replays(cfg, w, Observed(w, Step(c), ClientStep(cfg, w, c)), ClientStep(cfg, w, c))
  {
    assert ConnInv(cfg, w, w.conns[c]);
    var w' := ClientStep(cfg, w, c);
    ReplaysOne(cfg, Abs(cfg, w), w.now, Granted(w'.grants[|w.grants|].client));
  }

  lemma ReadRefines(cfg: Config, w: World, c: nat)
    requires Inv(cfg, w) && c < |w.conns| && w.conns[c].Watching?
    ensures Replays(cfg, w, Observed(w, Step(c), ClientStep(cfg, w, c)), ClientStep(cfg, w, c))
  {
    var w' := ClientStep(cfg, w, c);
    if |w'.denials| > |w.denials| {
      ReplaysOne(cfg, Abs(cfg, w), w.now, Denied(w'.denials[|w.denials|].client));
    }
  }

  lemma AdvanceRefines(cfg: Config, w: World, elapsed: nat)
    requires Inv(cfg, w)
    ensures Replays(cfg, w, [Waited(elapsed)], Advance(w, elapsed))
  {
    ReplaysOne(cfg, Abs(cfg, w), w.now, Waited(elapsed));
  }

  lemma StepRefines(cfg: Config, w: World, a: Action)
    requires Inv(cfg, w)
    ensures var w' := Do(cfg, w, a);
            AtomicRun(cfg, Abs(cfg, w), w.now, Observed(w, a, w')) == Some((Abs(cfg, w'), w'.now))
  {
    match a
    case Tick(elapsed) => AdvanceRefines(cfg, w, elapsed);
    case Step(c) =>
      if c < |w.conns| {
        match w.conns[c]
        case Queued(seen, _) => if seen == w.version { ExecuteRefines(cfg, w, c); }
        case Watching(_) => ReadRefines(cfg, w, c);
        case _ =>
      }
  }

  lemma {:induction false} AtomicRunConcat(cfg: Config, a: Window, now: int, first: seq<Event>, second: seq<Event>)
    ensures AtomicRun(cfg, a, now, first + second)
            == match AtomicRun(cfg, a, now, first)
               case None => None
               case Some((a', now')) => AtomicRun(cfg, a', now', second)
    decreases |first|
  {
    if first == [] {
      assert first + second == second;
    } else {
      assert (first + second)[1..] == first[1..] + second;
      match first[0]
      case Waited(elapsed) =>
        AtomicRunConcat(cfg, AtomicWait(cfg, a, now + elapsed), now + elapsed, first[1..], second);
      case _ =>
        AtomicRunConcat(cfg, AtomicAcquire(cfg, a, now).0, now, first[1..], second);
    }
  }

  /** Every interleaving, with expiry at any point, is a run of the atomic fixed-window counter. */
  lemma {:induction false} RunRefinesAtomicCounter(cfg: Config, w: World, schedule: seq<Action>)
    requires Inv(cfg, w)
    ensures var w' := Run(cfg, w, schedule);
            AtomicRun(cfg, Abs(cfg, w), w.now, Trace(cfg, w, schedule)) == Some((Abs(cfg, w'), w'.now))
    decreases |schedule|
  {
    if schedule != [] {
      var w1 := Do(cfg, w, schedule[0]);
      StepRefines(cfg, w, schedule[0]);
      StepKeepsInv(cfg, w, schedule[0]);
      RunRefinesAtomicCounter(cfg, w1, schedule[1..]);
      AtomicRunConcat(cfg, Abs(cfg, w), w.now, Observed(w, schedule[0], w1), Trace(cfg, w1, schedule[1..]));
    }
  }

  /**
   In every life of the key, grants plus stored tokens equal the limit; a life never grants more
   than its quota, and whenever a client is refused its life's quota has been granted in full.
   */
  lemma LifeConservation(cfg: Config, clients: nat, now: int, schedule: seq<Action>)
    requires cfg.window > 0
    ensures var w := Run(cfg, Start(clients, now), schedule);
            && (w.key.Present? ==> GrantsIn(w.grants, CurrentLife(w)) + w.key.tokens == cfg.limit)
            && (forall life: nat :: GrantsIn(w.grants, life) <= Quota(cfg))
            && (forall i :: 0 <= i < |w.denials| ==> GrantsIn(w.grants, w.denials[i].life) == Quota(cfg))
  {
    StartInv(cfg, clients, now);
    RunKeepsInv(cfg, Start(clients, now), schedule);
  }

  /**
   A stored bucket always expires within one window and holds fewer tokens than the limit; its tokens
   are never negative when the limit is at least one, and never other than limit - 1 when it is not.
   */
  lemma StoredBucketInRange(cfg: Config, clients: nat, now: int, schedule: seq<Action>)
    requires cfg.window > 0
    ensures var w := Run(cfg, Start(clients, now), schedule);
            w.key.Present? ==>
              && w.key.deadline.Some?
              && w.now < w.key.deadline.value <= w.now + cfg.window
              && w.key.tokens < cfg.limit
              && (if cfg.limit >= 1 then w.key.tokens >= 0 else w.key.tokens == cfg.limit - 1)
  {
    StartInv(cfg, clients, now);
    RunKeepsInv(cfg, Start(clients, now), schedule);
  }

  // A limit below one

  /** Over all runs, no life of the key grants more than the limit. */
  ghost predicate LimitHolds(cfg: Config) {
    forall clients: nat, now: int, schedule: seq<Action>, life: nat ::
      GrantsIn(Run(cfg, Start(clients, now), schedule).grants, life) <= cfg.limit
  }

  /** The first acquire finds no key and is granted without a look at the limit. */
  lemma FirstAcquireIsGranted(cfg: Config, now: int)
    ensures Run(cfg, Start(1, now), Burst(1)).grants == [Grant(0, now, 0)]
  {
    var w0 := Start(1, now);
    var w1 := Do(cfg, w0, Step(0));
    var w2 := Do(cfg, w1, Step(0));
    var w3 := Do(cfg, w2, Step(0));
    assert w1.conns == [Watching(0)];
    assert w2.conns == [Queued(0, SetEx(cfg.limit - 1, cfg.window))];
    assert Burst(0) == [];
    assert Burst(1) == [Step(0), Step(0), Step(0)];
    assert Burst(1)[1..] == [Step(0), Step(0)] && Burst(1)[1..][1..] == [Step(0)] && Burst(1)[1..][1..][1..] == [];
    assert Run(cfg, w0, Burst(1)) == Run(cfg, w1, [Step(0), Step(0)]) == Run(cfg, w2, [Step(0)]) == Run(cfg, w3, []);
  }

  /** One client, one acquire: a limit below one is exceeded in the very first life. */
  lemma LowLimitIsExceeded(cfg: Config)
    requires cfg.limit < 1
    ensures GrantsIn(Run(cfg, Start(1, 0), Burst(1)).grants, 0) == 1 > cfg.limit
  {
    FirstAcquireIsGranted(cfg, 0);
    assert [Grant(0, 0, 0)][..0] == [];
    assert GrantsIn([Grant(0, 0, 0)], 0) == GrantsIn([], 0) + 1;
  }

  /** Grants per life stay within the limit, in every run, exactly when the limit is at least one. */
  lemma LimitHoldsIff(cfg: Config)
    requires cfg.window > 0
    ensures LimitHolds(cfg) <==> cfg.limit >= 1
  {
    if cfg.limit >= 1 {
      forall clients: nat, now: int, schedule: seq<Action>, life: nat
        ensures GrantsIn(Run(cfg, Start(clients, now), schedule).grants, life) <= cfg.limit
      {
        LifeConservation(cfg, clients, now, schedule);
      }
    } else {
      LowLimitIsExceeded(cfg);
    }
  }

  // Grants in any interval as long as the window

  /** The first life that has not ended at `time`. */
  function FirstOpen(cfg: Config, lives: seq<Life>, time: int, i: nat := 0): (e: nat)
    requires i <= |lives|
    ensures i <= e <= |lives|
    ensures e < |lives| ==> lives[e].born + cfg.window > time
    ensures forall k :: i <= k < e ==> lives[k].born + cfg.window <= time
    decreases |lives| - i
  {
    if i == |lives| || lives[i].born + cfg.window > time then i
    else FirstOpen(cfg, lives, time, i + 1)
  }

  /**
   When the grants of an interval all belong to lives `e` and `f`, counting the two lives counts
   the interval, and one more if grant `k` of life `e` lies outside it.
   */
  lemma {:induction false} IntervalWithinLives(grants: seq<Grant>, from: int, to: int, e: nat, f: nat, k: nat)
    requires e != f
    requires forall i :: 0 <= i < |grants| && from <= grants[i].time < to ==> grants[i].life == e || grants[i].life == f
    requires k < |grants| ==> grants[k].life == e && !(from <= grants[k].time < to)
    ensures GrantsBetween(grants, from, to) + (if k < |grants| then 1 else 0)
            <= GrantsIn(grants, e) + GrantsIn(grants, f)
    decreases |grants|
  {
    if grants != [] {
      IntervalWithinLives(grants[..|grants| - 1], from, to, e, f, k);
    }
  }

  lemma LivesApart(cfg: Config, w: World, e: nat)
    requires Inv(cfg, w)
    ensures forall life :: e + 1 < life < |w.lives| ==> w.lives[e].born + 2 * cfg.window <= w.lives[life].born
  {
    forall life | e + 1 < life < |w.lives|
      ensures w.lives[e].born + 2 * cfg.window <= w.lives[life].born
    {
      assert w.lives[e].born + cfg.window <= w.lives[e + 1].born;
    }
  }

  /**
   In any half-open interval as long as the window, one key grants at most 2 * quota - 1 requests:
   an interval that meets two lives misses the grant with which the first of them began.
   */
  lemma TwoWindowBound(cfg: Config, clients: nat, now: int, schedule: seq<Action>, from: int)
    requires cfg.window > 0
    ensures GrantsBetween(Run(cfg, Start(clients, now), schedule).grants, from, from + cfg.window)
            <= 2 * Quota(cfg) - 1
  {
    StartInv(cfg, clients, now);
    RunKeepsInv(cfg, Start(clients, now), schedule);
    var w := Run(cfg, Start(clients, now), schedule);
    var to := from + cfg.window;
    var e := FirstOpen(cfg, w.lives, from);
    TwoLivesMeet(cfg, w, from, e);
    if e == |w.lives| || from <= w.lives[e].born {
      IntervalWithinLives(w.grants, from, to, e, |w.lives| + 1, |w.grants|);
    } else {
      IntervalWithinLives(w.grants, from, to, e, e + 1, w.lives[e].first);
    }
  }

  /** A window-long interval meets the first life open at its start, and the next only if that one is older. */
  lemma TwoLivesMeet(cfg: Config, w: World, from: int, e: nat)
    requires Inv(cfg, w) && e <= |w.lives|
    requires e < |w.lives| ==> w.lives[e].born + cfg.window > from
    requires forall k :: 0 <= k < e ==> w.lives[k].born + cfg.window <= from
    ensures forall i :: 0 <= i < |w.grants| && from <= w.grants[i].time < from + cfg.window ==>
              w.grants[i].life == e || (w.grants[i].life == e + 1 && w.lives[e].born < from)
  {
    LivesApart(cfg, w, e);
    forall i | 0 <= i < |w.grants| && from <= w.grants[i].time < from + cfg.window
      ensures w.grants[i].life == e || (w.grants[i].life == e + 1 && w.lives[e].born < from)
    {
      assert During(cfg, w, w.grants[i].time, w.grants[i].life);
    }
  }

  // The bound is reached

  /** `n` complete acquires of client 0, nobody interfering. */
  function Burst(n: nat): (schedule: seq<Action>) {
    if n == 0 then [] else [Step(0), Step(0), Step(0)] + Burst(n - 1)
  }

  lemma BetweenAppend(grants: seq<Grant>, g: Grant, from: int, to: int)
    ensures GrantsBetween(grants + [g], from, to)
            == GrantsBetween(grants, from, to) + (if from <= g.time < to then 1 else 0)
  {
    assert (grants + [g])[..|grants|] == grants;
  }

  lemma {:induction false} OneAcquire(cfg: Config, w: World, from: int, to: int)
    requires w.conns == [Idle] && from <= w.now < to
    requires w.key.Absent? || w.key.tokens > 0
    ensures var w' := Run(cfg, w, Burst(1));
            && w'.conns == [Idle] && w'.now == w.now
            && w'.key == (if w.key.Absent? then Present(cfg.limit - 1, Some(w.now + cfg.window))
                          else w.key.(tokens := w.key.tokens - 1))
            && GrantsBetween(w'.grants, from, to) == GrantsBetween(w.grants, from, to) + 1
  {
    var w1 := Do(cfg, w, Step(0));
    var w2 := Do(cfg, w1, Step(0));
    var w3 := Do(cfg, w2, Step(0));
    assert w1.conns == [Watching(w.version)];
    assert w2.conns == [Queued(w.version, if w.key.Absent? then SetEx(cfg.limit - 1, cfg.window) else Decr)];
    assert w3.conns == [Idle];
    BetweenAppend(w.grants, w3.grants[|w.grants|], from, to);
    BurstOfOne(cfg, w);
  }

  lemma BurstOfOne(cfg: Config, w: World)
    ensures Run(cfg, w, Burst(1)) == Do(cfg, Do(cfg, Do(cfg, w, Step(0)), Step(0)), Step(0))
  {
    var w1 := Do(cfg, w, Step(0));
    var w2 := Do(cfg, w1, Step(0));
    assert Burst(0) == [];
    assert Burst(1) == [Step(0), Step(0), Step(0)];
    assert Burst(1)[1..] == [Step(0), Step(0)] && Burst(1)[1..][1..] == [Step(0)] && Burst(1)[1..][1..][1..] == [];
    assert Run(cfg, w, Burst(1)) == Run(cfg, w1, [Step(0), Step(0)]) == Run(cfg, w2, [Step(0)])
           == Run(cfg, Do(cfg, w2, Step(0)), []);
  }

  lemma RunBurst(cfg: Config, w: World, n: nat) returns (w1: World)
    requires n > 0
    ensures w1 == Run(cfg, w, Burst(1)) && Run(cfg, w, Burst(n)) == Run(cfg, w1, Burst(n - 1))
  {
    assert Burst(0) == [] && Burst(n) == Burst(1) + Burst(n - 1);
    RunConcat(cfg, w, Burst(1), Burst(n - 1));
    w1 := Run(cfg, w, Burst(1));
  }

  /** n tokens have gone from the stored bucket, all of them granted within the interval. */
  ghost predicate Took(w: World, w': World, n: nat, from: int, to: int) {
    && w.key.Present? && w'.conns == [Idle] && w'.now == w.now
    && w'.key == w.key.(tokens := w.key.tokens - n)
    && GrantsBetween(w'.grants, from, to) == GrantsBetween(w.grants, from, to) + n
  }

  lemma FirstTaken(cfg: Config, w: World, n: nat, from: int, to: int) returns (w1: World)
    requires w.conns == [Idle] && from <= w.now < to
    requires w.key.Present? && 0 < n <= w.key.tokens
    ensures Took(w, w1, 1, from, to) && Run(cfg, w, Burst(n)) == Run(cfg, w1, Burst(n - 1))
  {
    OneAcquire(cfg, w, from, to);
    w1 := RunBurst(cfg, w, n);
  }

  lemma {:induction false} BurstTakes(cfg: Config, w: World, n: nat, from: int, to: int)
    requires w.conns == [Idle] && from <= w.now < to
    requires w.key.Present? && n <= w.key.tokens
    ensures Took(w, Run(cfg, w, Burst(n)), n, from, to)
    decreases n
  {
    if n > 0 {
      var w1 := FirstTaken(cfg, w, n, from, to);
      BurstTakes(cfg, w1, n - 1, from, to);
    }
  }

  lemma OpenAtZero(cfg: Config)
    requires cfg.window >= 2 && cfg.limit >= 1
    ensures var w := Run(cfg, Start(1, 0), Burst(1));
            && w.conns == [Idle] && w.now == 0
            && w.key == Present(cfg.limit - 1, Some(cfg.window))
            && GrantsBetween(w.grants, 1, 1 + cfg.window) == 0
  {
    OneAcquire(cfg, Start(1, 0), 0, 1);
    NowBoundsGrants(cfg, Start(1, 0), Burst(1));
    NothingBefore(Run(cfg, Start(1, 0), Burst(1)).grants, 1, 1 + cfg.window);
  }

  lemma {:induction false} NowBoundsGrants(cfg: Config, w: World, schedule: seq<Action>)
    requires forall i :: 0 <= i < |w.grants| ==> w.grants[i].time <= w.now
    ensures var w' := Run(cfg, w, schedule);
            forall i :: 0 <= i < |w'.grants| ==> w'.grants[i].time <= w'.now
    decreases |schedule|
  {
    if schedule != [] {
      assert Run(cfg, w, schedule) == Run(cfg, Do(cfg, w, schedule[0]), schedule[1..]);
      NowBoundsGrants(cfg, Do(cfg, w, schedule[0]), schedule[1..]);
    }
  }

  /** A window opened at 0 and drained in its last tick: `limit - 1` grants just before it closes. */
  lemma DrainLate(cfg: Config) returns (schedule: seq<Action>)
    requires cfg.window >= 2 && cfg.limit >= 1
    ensures var w := Run(cfg, Start(1, 0), schedule);
            && w.conns == [Idle] && w.now == cfg.window && w.key == Absent
            && GrantsBetween(w.grants, 1, 1 + cfg.window) == cfg.limit - 1
  {
    var w0 := Start(1, 0);
    OpenAtZero(cfg);
    var w2 := AfterTick(cfg, w0, Burst(1), cfg.window - 1);
    BurstTakes(cfg, w2, cfg.limit - 1, 1, 1 + cfg.window);
    var s := Burst(1) + [Tick(cfg.window - 1)];
    RunConcat(cfg, w0, s, Burst(cfg.limit - 1));
    var w3 := AfterTick(cfg, w0, s + Burst(cfg.limit - 1), 1);
    schedule := s + Burst(cfg.limit - 1) + [Tick(1)];
  }

  lemma AfterTick(cfg: Config, w: World, schedule: seq<Action>, elapsed: nat) returns (w': World)
    ensures w' == Run(cfg, w, schedule + [Tick(elapsed)]) == Advance(Run(cfg, w, schedule), elapsed)
  {
    RunConcat(cfg, w, schedule, [Tick(elapsed)]);
    w' := Advance(Run(cfg, w, schedule), elapsed);
    assert Run(cfg, Run(cfg, w, schedule), [Tick(elapsed)]) == Run(cfg, w', []);
  }

  /** Requests held back until the last tick of a window reach the bound of `TwoWindowBound`. */
  lemma LateBurst(cfg: Config) returns (schedule: seq<Action>)
    requires cfg.window >= 2 && cfg.limit >= 1
    ensures ReachesBound(cfg, 1, 0, schedule, 1)
  {
    var w0 := Start(1, 0);
    var from, to := 1, 1 + cfg.window;
    var s := DrainLate(cfg);
    var w1 := Run(cfg, w0, s);
    OneAcquire(cfg, w1, from, to);
    RunConcat(cfg, w0, s, Burst(1));
    var w2 := Run(cfg, w0, s + Burst(1));
    BurstTakes(cfg, w2, cfg.limit - 1, from, to);
    schedule := s + Burst(1) + Burst(cfg.limit - 1);
    RunConcat(cfg, w0, s + Burst(1), Burst(cfg.limit - 1));
  }

  /** Some window-long interval of the run sees as many grants as `TwoWindowBound` allows. */
  ghost predicate ReachesBound(cfg: Config, clients: nat, now: int, schedule: seq<Action>, from: int) {
    GrantsBetween(Run(cfg, Start(clients, now), schedule).grants, from, from + cfg.window) == 2 * Quota(cfg) - 1
  }

  /** A window of one tick is a single moment, which meets only one life. */
  lemma OneTickBound(cfg: Config, clients: nat, now: int, schedule: seq<Action>, from: int)
    requires cfg.window == 1
    ensures GrantsBetween(Run(cfg, Start(clients, now), schedule).grants, from, from + 1) <= Quota(cfg)
  {
    StartInv(cfg, clients, now);
    RunKeepsInv(cfg, Start(clients, now), schedule);
    var w := Run(cfg, Start(clients, now), schedule);
    var e := FirstOpen(cfg, w.lives, from);
    LivesApart(cfg, w, e);
    forall i | 0 <= i < |w.grants| && from <= w.grants[i].time < from + 1 ensures w.grants[i].life == e {
      assert During(cfg, w, w.grants[i].time, w.grants[i].life);
    }
    IntervalWithinLives(w.grants, from, from + 1, e, |w.lives| + e + 1, |w.grants|);
  }

  /**
   The bound of `TwoWindowBound` is met by some run exactly when a window is longer than one tick, or
   the quota is one and there is nothing to hold back.
   */
  lemma TwoWindowBoundIsTight(cfg: Config)
    requires cfg.window > 0
    ensures (exists clients: nat, now: int, schedule: seq<Action>, from: int ::
               ReachesBound(cfg, clients, now, schedule, from))
            <==> cfg.window >= 2 || Quota(cfg) == 1
  {
    if Quota(cfg) == 1 {
      FirstAcquireIsGranted(cfg, 0);
      BetweenAppend([], Grant(0, 0, 0), 0, cfg.window);
      assert [] + [Grant(0, 0, 0)] == [Grant(0, 0, 0)];
      assert ReachesBound(cfg, 1, 0, Burst(1), 0);
    } else if cfg.window >= 2 {
      var schedule := LateBurst(cfg);
      assert ReachesBound(cfg, 1, 0, schedule, 1);
    } else {
      forall clients: nat, now: int, schedule: seq<Action>, from: int
        ensures !ReachesBound(cfg, clients, now, schedule, from)
      {
        OneTickBound(cfg, clients, now, schedule, from);
      }
    }
  }

  lemma {:induction false} NothingBefore(grants: seq<Grant>, from: int, to: int)
    requires forall i :: 0 <= i < |grants| ==> grants[i].time < from
    ensures GrantsBetween(grants, from, to) == 0
    decreases |grants|
  {
    if grants != [] {
      NothingBefore(grants[..|grants| - 1], from, to);
    }
  }

  // Retries

  lemma {:induction false} DirtyUpdate(conns: seq<Conn>, c: nat, conn: Conn, version: nat)
    requires c < |conns|
    ensures Dirty(conns[c := conn], version)
            == Dirty(conns, version)
               + (if Stale(conn, version) then 1 else 0) - (if Stale(conns[c], version) then 1 else 0)
    decreases |conns|
  {
    var n := |conns| - 1;
    if c == n {
      assert conns[c := conn][..n] == conns[..n];
    } else {
      DirtyUpdate(conns[..n], c, conn, version);
      assert conns[c := conn][..n] == conns[..n][c := conn];
    }
  }

  lemma {:induction false} DirtyBound(conns: seq<Conn>, version: nat)
    ensures Dirty(conns, version) <= |conns|
    decreases |conns|
  {
    if conns != [] { DirtyBound(conns[..|conns| - 1], version); }
  }

  ghost predicate RetryInv(w: World) {
    && SeenInv(w)
    && w.retries + Dirty(w.conns, w.version) <= (|w.conns| - 1) * |w.grants| + |w.conns| * w.expiries
  }

  ghost predicate SeenInv(w: World) {
    forall c :: 0 <= c < |w.conns| && (w.conns[c].Watching? || w.conns[c].Queued?) ==>
      w.conns[c].seen <= w.version
  }

  lemma StepKeepsSeenInv(cfg: Config, w: World, a: Action)
    requires SeenInv(w)
    ensures SeenInv(Do(cfg, w, a)) && |Do(cfg, w, a).conns| == |w.conns|
  {
  }

  lemma CommitKeepsRetryCount(cfg: Config, w: World, c: nat)
    requires RetryInv(w) && c < |w.conns| && w.conns[c].Queued? && w.conns[c].seen == w.version
    ensures RetryInv(ClientStep(cfg, w, c))
  {
    var w' := ClientStep(cfg, w, c);
    var n := |w.conns|;
    StepKeepsSeenInv(cfg, w, Step(c));
    DirtyAfterCommit(w'.conns, c, w'.version);
    assert (n - 1) * |w'.grants| == (n - 1) * |w.grants| + (n - 1);
  }

  lemma ExpiryKeepsRetryCount(w: World, elapsed: nat)
    requires RetryInv(w)
    ensures RetryInv(Advance(w, elapsed))
  {
    DirtyBound(w.conns, w.version + 1);
    assert |w.conns| * (w.expiries + 1) == |w.conns| * w.expiries + |w.conns|;
  }

  lemma StepKeepsRetryInv(cfg: Config, w: World, a: Action)
    requires RetryInv(w)
    ensures RetryInv(Do(cfg, w, a)) && |Do(cfg, w, a).conns| == |w.conns|
  {
    StepKeepsSeenInv(cfg, w, a);
    var w' := Do(cfg, w, a);
    match a
    case Tick(elapsed) => ExpiryKeepsRetryCount(w, elapsed);
    case Step(c) =>
      if c < |w.conns| {
        if w.conns[c].Queued? && w.conns[c].seen == w.version {
          CommitKeepsRetryCount(cfg, w, c);
        } else {
          DirtyUpdate(w.conns, c, w'.conns[c], w.version);
          assert w.conns[c := w'.conns[c]] == w'.conns;
          assert w'.grants == w.grants && w'.expiries == w.expiries && w'.version == w.version;
        }
      }
  }

  /** The client that committed is not among the dirty ones. */
  lemma DirtyAfterCommit(conns: seq<Conn>, c: nat, version: nat)
    requires c < |conns| && conns[c] == Idle && version > 0
    ensures Dirty(conns, version) <= |conns| - 1
  {
    DirtyUpdate(conns, c, Watching(0), version);
    DirtyBound(conns[c := Watching(0)], version);
  }

  lemma {:induction false} RunKeepsRetryInv(cfg: Config, w: World, schedule: seq<Action>)
    requires RetryInv(w)
    ensures RetryInv(Run(cfg, w, schedule)) && |Run(cfg, w, schedule).conns| == |w.conns|
    decreases |schedule|
  {
    if schedule != [] {
      StepKeepsRetryInv(cfg, w, schedule[0]);
      RunKeepsRetryInv(cfg, Do(cfg, w, schedule[0]), schedule[1..]);
    }
  }

  lemma {:induction false} AllIdleIsClean(conns: seq<Conn>, version: nat)
    requires forall c :: 0 <= c < |conns| ==> conns[c] == Idle
    ensures Dirty(conns, version) == 0
    decreases |conns|
  {
    if conns != [] { AllIdleIsClean(conns[..|conns| - 1], version); }
  }

  /** A run of n clients retries at most (n-1) times per grant and n times per expiry. */
  lemma RetryBound(cfg: Config, clients: nat, now: int, schedule: seq<Action>)
    requires clients > 0
    ensures var w := Run(cfg, Start(clients, now), schedule);
            w.retries <= (clients - 1) * |w.grants| + clients * w.expiries
  {
    AllIdleIsClean(Start(clients, now).conns, 0);
    RunKeepsRetryInv(cfg, Start(clients, now), schedule);
  }

  // The blocking limiter

  /** A client refused in the life at hand is still asleep, and will be until that life is over. */
  ghost predicate SleepInv(cfg: Config, w: World) {
    && (forall i :: 0 <= i < |w.denials| ==>
          && w.denials[i].client < |w.conns|
          && (w.key.Present? && w.denials[i].life == CurrentLife(w) ==> AwaitsExpiry(w, w.conns[w.denials[i].client])))
    && (forall i, j :: 0 <= i < j < |w.denials| && w.denials[i].client == w.denials[j].client ==>
          w.denials[i].life < w.denials[j].life)
  }

  ghost predicate AwaitsExpiry(w: World, conn: Conn) {
    match conn
    case Refused => true
    case Asleep(until) => w.key.Present? && w.key.deadline.Some? && w.key.deadline.value <= until
    case _ => false
  }

  lemma DenialKeepsSleepInv(cfg: Config, w: World, c: nat)
    requires Inv(cfg, w) && SleepInv(cfg, w)
    requires c < |w.conns| && w.conns[c].Watching? && w.key.Present? && w.key.tokens <= 0
    ensures SleepInv(cfg, ClientStep(cfg, w, c))
  {
    forall i | 0 <= i < |w.denials|
      ensures w.denials[i].client == c ==> w.denials[i].life < CurrentLife(w)
    {
      assert During(cfg, w, w.denials[i].time, w.denials[i].life);
    }
  }

  lemma CommitKeepsSleepInv(cfg: Config, w: World, c: nat)
    requires Inv(cfg, w) && SleepInv(cfg, w)
    requires c < |w.conns| && w.conns[c].Queued? && w.conns[c].seen == w.version
    ensures SleepInv(cfg, ClientStep(cfg, w, c))
  {
    assert ConnInv(cfg, w, w.conns[c]);
    assert forall i :: 0 <= i < |w.denials| ==> During(cfg, w, w.denials[i].time, w.denials[i].life);
  }

  /** Steps that leave the key and the record alone, by a client that is not waiting for an expiry. */
  lemma QuietKeepsSleepInv(cfg: Config, w: World, c: nat)
    requires cfg.blocking && Inv(cfg, w) && SleepInv(cfg, w) && c < |w.conns|
    requires match w.conns[c]
             case Watching(_) => w.key.Absent? || w.key.tokens > 0
             case Queued(seen, _) => seen != w.version
             case _ => true
    ensures SleepInv(cfg, ClientStep(cfg, w, c))
  {
  }

  lemma StepKeepsSleepInv(cfg: Config, w: World, a: Action)
    requires cfg.blocking && Inv(cfg, w) && SleepInv(cfg, w)
    ensures SleepInv(cfg, Do(cfg, w, a))
  {
    match a
    case Tick(elapsed) =>
    case Step(c) =>
      if c < |w.conns| {
        if w.conns[c].Watching? && w.key.Present? && w.key.tokens <= 0 {
          DenialKeepsSleepInv(cfg, w, c);
        } else if w.conns[c].Queued? && w.conns[c].seen == w.version {
          CommitKeepsSleepInv(cfg, w, c);
        } else {
          QuietKeepsSleepInv(cfg, w, c);
        }
      }
  }

  lemma {:induction false} RunKeepsSleepInv(cfg: Config, w: World, schedule: seq<Action>)
    requires cfg.blocking && Inv(cfg, w) && SleepInv(cfg, w)
    ensures SleepInv(cfg, Run(cfg, w, schedule))
    decreases |schedule|
  {
    if schedule != [] {
      StepKeepsInv(cfg, w, schedule[0]);
      StepKeepsSleepInv(cfg, w, schedule[0]);
      RunKeepsSleepInv(cfg, Do(cfg, w, schedule[0]), schedule[1..]);
    }
  }

  /** Sleeping one window is enough: a blocked client never finds the same exhausted bucket twice. */
  lemma BlockedClientSeesFreshBucket(cfg: Config, clients: nat, now: int, schedule: seq<Action>, i: nat, j: nat)
    requires cfg.window > 0 && cfg.blocking
    requires var w := Run(cfg, Start(clients, now), schedule);
             i < j < |w.denials| && w.denials[i].client == w.denials[j].client
    ensures var w := Run(cfg, Start(clients, now), schedule);
            w.denials[i].life < w.denials[j].life
  {
    StartInv(cfg, clients, now);
    RunKeepsSleepInv(cfg, Start(clients, now), schedule);
  }
}
