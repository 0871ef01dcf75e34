/**
 GPU slots leased through Redis locks. A lock is set-if-absent with a deadline and a fresh token;
 releasing it deletes it only while it still holds that token. Workers and the clock interleave freely.
 */
module GpuSlots {
  import opened Options

  datatype Lease = Lease(token: nat, deadline: int)

  /** A worker waiting for a slot of its choice or any slot, running its body, or about to release. */
  datatype Worker =
    | Idle
    | Waiting(wanted: Option<nat>)
    | Running(slot: nat, token: nat, since: int, anySlot: bool)
    | Releasing(slot: nat, token: nat)

  /**
   `locks` maps a slot to its lease; `nextToken` makes tokens fresh. `inUse` is the gauge, `acquired`
   the counter, `lost` counts the releases that found the lease gone or somebody else's.
   */
  datatype World = World(
    now: int,
    locks: map<nat, Lease>,
    nextToken: nat,
    workers: seq<Worker>,
    inUse: int,
    acquired: nat,
    lost: nat)

  /** `TryLock`: one attempt at one slot. `Finish`: the body ends, normally or by an exception. */
  datatype Action =
    | Ask(worker: nat, wanted: Option<nat>)
    | TryLock(worker: nat, slot: nat)
    | Finish(worker: nat)
    | Release(worker: nat)
    | Tick(elapsed: nat)

  /** `slots` is the configured number of slots, the range an unspecific request searches. */
  datatype Config = Config(slots: nat, timeout: int)

  function Start(workers: nat): World {
    World(0, map[], 0, seq(workers, _ => Idle), 0, 0, 0)
  }

  function Surviving(locks: map<nat, Lease>, now: int): map<nat, Lease> {
    map s | s in locks && locks[s].deadline > now :: locks[s]
  }

  function Acquire(cfg: Config, w: World, i: nat, slot: nat): World
    requires i < |w.workers| && w.workers[i].Waiting?
  {
    w.(locks := w.locks[slot := Lease(w.nextToken, w.now + cfg.timeout)],
       nextToken := w.nextToken + 1,
       workers := w.workers[i := Running(slot, w.nextToken, w.now, w.workers[i].wanted.None?)],
       inUse := w.inUse + 1,
       acquired := w.acquired + 1)
  }

  /** A slot the search may take: the one asked for, or any configured one. */
  predicate Candidate(cfg: Config, wanted: Option<nat>, slot: nat) {
    if wanted.Some? then slot == wanted.value else slot < cfg.slots
  }

  /** Compare and delete. */
  function ReleaseLock(w: World, i: nat): World
    requires i < |w.workers| && w.workers[i].Releasing?
  {
    var Releasing(slot, token) := w.workers[i];
    if slot in w.locks && w.locks[slot].token == token then
      w.(locks := w.locks - {slot}, workers := w.workers[i := Idle])
    else
      w.(lost := w.lost + 1, workers := w.workers[i := Idle])
  }

  function Do(cfg: Config, w: World, a: Action): World {
    match a
    case Tick(elapsed) => w.(now := w.now + elapsed, locks := Surviving(w.locks, w.now + elapsed))
    case Ask(i, wanted) =>
      if i < |w.workers| && w.workers[i].Idle? then w.(workers := w.workers[i := Waiting(wanted)]) else w
    case TryLock(i, slot) =>
      if i < |w.workers| && w.workers[i].Waiting? && slot !in w.locks && Candidate(cfg, w.workers[i].wanted, slot)
      then Acquire(cfg, w, i, slot)
      else w
    case Finish(i) =>
      if i < |w.workers| && w.workers[i].Running? then
        w.(inUse := w.inUse - 1, workers := w.workers[i := Releasing(w.workers[i].slot, w.workers[i].token)])
      else w
    case Release(i) =>
      if i < |w.workers| && w.workers[i].Releasing? then ReleaseLock(w, i) else w
  }

  function Run(cfg: Config, w: World, schedule: seq<Action>): World
    decreases |schedule|
  {
    if schedule == [] then w else Run(cfg, Do(cfg, w, schedule[0]), schedule[1..])
  }

  // The invariant

  /** The body has been running for less than the lock's timeout. */
  predicate InTime(cfg: Config, w: World, body: Worker)
    requires body.Running?
  {
    w.now < body.since + cfg.timeout
  }

  ghost predicate Inv(cfg: Config, w: World) {
    && (forall s :: s in w.locks ==> w.locks[s].token < w.nextToken)
    && (forall i :: 0 <= i < |w.workers| ==> WorkerInv(cfg, w, w.workers[i]))
    && (forall i, j :: 0 <= i < j < |w.workers| && Holds(w.workers[i]) && Holds(w.workers[j]) ==>
          w.workers[i].token != w.workers[j].token)
  }

  predicate Holds(v: Worker) {
    v.Running? || v.Releasing?
  }

  /** A body in time owns the lease of its slot. */
  ghost predicate WorkerInv(cfg: Config, w: World, v: Worker) {
    && (Holds(v) ==> v.token < w.nextToken)
    && (v.Running? ==>
          && v.since <= w.now
          && (InTime(cfg, w, v) ==> v.slot in w.locks && w.locks[v.slot] == Lease(v.token, v.since + cfg.timeout))
          && (v.anySlot ==> v.slot < cfg.slots))
  }

  lemma StartInv(cfg: Config, workers: nat)
    ensures Inv(cfg, Start(workers))
  {
  }

  lemma AcquireKeepsInv(cfg: Config, w: World, i: nat, slot: nat)
    requires Inv(cfg, w) && i < |w.workers| && w.workers[i].Waiting? && slot !in w.locks
    requires w.workers[i].wanted.None? ==> slot < cfg.slots
    ensures Inv(cfg, Acquire(cfg, w, i, slot))
  {
    var w' := Acquire(cfg, w, i, slot);
    forall j | 0 <= j < |w'.workers| ensures WorkerInv(cfg, w', w'.workers[j]) {
      assert WorkerInv(cfg, w, w.workers[j]);
    }
  }

  /** Deleting a lease with one's own token leaves every other body's lease alone. */
  lemma ReleaseKeepsInv(cfg: Config, w: World, i: nat)
    requires Inv(cfg, w) && i < |w.workers| && w.workers[i].Releasing?
    ensures Inv(cfg, ReleaseLock(w, i))
  {
    var w' := ReleaseLock(w, i);
    forall j | 0 <= j < |w'.workers| ensures WorkerInv(cfg, w', w'.workers[j]) {
      assert WorkerInv(cfg, w, w.workers[j]);
      assert j < i && Holds(w.workers[j]) ==> w.workers[j].token != w.workers[i].token;
      assert i < j && Holds(w.workers[j]) ==> w.workers[j].token != w.workers[i].token;
    }
  }

  lemma StepKeepsInv(cfg: Config, w: World, a: Action)
    requires Inv(cfg, w)
    ensures Inv(cfg, Do(cfg, w, a))
  {
    var w' := Do(cfg, w, a);
    match a
    case TryLock(i, slot) => if w' != w { AcquireKeepsInv(cfg, w, i, slot); }
    case Release(i) => if w' != w { ReleaseKeepsInv(cfg, w, i); }
    case _ =>
      forall j | 0 <= j < |w'.workers| ensures WorkerInv(cfg, w', w'.workers[j]) {
        assert WorkerInv(cfg, w, w.workers[j]);
      }
  }

  lemma {:induction false} RunKeepsInv(cfg: Config, w: World, schedule: seq<Action>)
    requires Inv(cfg, w)
    ensures Inv(cfg, Run(cfg, w, schedule))
    decreases |schedule|
  {
    if schedule != [] {
      StepKeepsInv(cfg, w, schedule[0]);
      RunKeepsInv(cfg, Do(cfg, w, schedule[0]), schedule[1..]);
    }
  }

  // Mutual exclusion

  lemma BodiesInTimeDiffer(cfg: Config, w: World, i: nat, j: nat)
    requires Inv(cfg, w) && i < j < |w.workers|
    requires w.workers[i].Running? && w.workers[j].Running?
    requires InTime(cfg, w, w.workers[i]) && InTime(cfg, w, w.workers[j])
    ensures w.workers[i].slot != w.workers[j].slot
  {
    assert WorkerInv(cfg, w, w.workers[i]) && WorkerInv(cfg, w, w.workers[j]);
  }

  /** Two bodies meet on a slot only when one of them has outrun the lock's timeout. */
  lemma OverlapNeedsOverrun(cfg: Config, workers: nat, schedule: seq<Action>, i: nat, j: nat)
    requires var w := Run(cfg, Start(workers), schedule);
             && i < j < |w.workers| && w.workers[i].Running? && w.workers[j].Running?
             && w.workers[i].slot == w.workers[j].slot
    ensures var w := Run(cfg, Start(workers), schedule);
            !InTime(cfg, w, w.workers[i]) || !InTime(cfg, w, w.workers[j])
  {
    var w := Run(cfg, Start(workers), schedule);
    StartInv(cfg, workers);
    RunKeepsInv(cfg, Start(workers), schedule);
    assert WorkerInv(cfg, w, w.workers[i]) && WorkerInv(cfg, w, w.workers[j]);
  }

  /** Worker 0 takes slot 0 and stays past the timeout; then worker 1 takes it too. */
  function OverrunSchedule(cfg: Config): seq<Action>
    requires cfg.timeout >= 0
  {
    [Ask(0, Some(0)), TryLock(0, 0), Tick(cfg.timeout), Ask(1, Some(0)), TryLock(1, 0)]
  }

  /** An overrun does let a second body in: the bound on the body is needed. */
  lemma OverrunOverlaps(cfg: Config)
    requires cfg.timeout >= 0
    ensures var w := Run(cfg, Start(2), OverrunSchedule(cfg));
            w.now == cfg.timeout && w.workers == [Running(0, 0, 0, false), Running(0, 1, cfg.timeout, false)]
  {
    var s := OverrunSchedule(cfg);
    var w1 := Do(cfg, Do(cfg, Start(2), s[0]), s[1]);
    assert w1.workers[0] == Running(0, 0, 0, false);
    var w2 := Do(cfg, w1, s[2]);
    assert 0 !in w2.locks;
    var w3 := Do(cfg, Do(cfg, w2, s[3]), s[4]);
    assert w3.workers[1] == Running(0, 1, cfg.timeout, false);
    assert s[1..][0] == s[1] && s[1..][1..][0] == s[2] && s[1..][1..][1..][0] == s[3];
    assert s[1..][1..][1..][1..] == [s[4]];
    assert Run(cfg, Start(2), s) == Run(cfg, Do(cfg, Start(2), s[0]), s[1..]);
    assert Run(cfg, Do(cfg, Start(2), s[0]), s[1..]) == Run(cfg, w1, s[1..][1..]);
    assert Run(cfg, w1, s[1..][1..]) == Run(cfg, w2, s[1..][1..][1..]);
    assert Run(cfg, w2, s[1..][1..][1..]) == Run(cfg, Do(cfg, w2, s[3]), [s[4]]);
    assert Run(cfg, Do(cfg, w2, s[3]), [s[4]]) == Run(cfg, w3, []);
  }

  /** No body has been running for longer than `longest`. */
  ghost predicate BodiesWithin(w: World, longest: int) {
    forall i :: 0 <= i < |w.workers| && w.workers[i].Running? ==> w.now - w.workers[i].since <= longest
  }

  ghost predicate Overlap(w: World) {
    exists i, j :: 0 <= i < j < |w.workers| && w.workers[i].Running? && w.workers[j].Running?
                   && w.workers[i].slot == w.workers[j].slot
  }

  /** In every run, at a moment when no body has run for longer than `longest`, no slot has two bodies. */
  ghost predicate Exclusive(cfg: Config, longest: int) {
    forall workers: nat, schedule: seq<Action> ::
      BodiesWithin(Run(cfg, Start(workers), schedule), longest) ==> !Overlap(Run(cfg, Start(workers), schedule))
  }

  /** A bound on the bodies keeps the slots exclusive exactly when it is below the lock's timeout. */
  lemma ExclusiveIff(cfg: Config, longest: int)
    requires cfg.timeout >= 0
    ensures Exclusive(cfg, longest) <==> longest < cfg.timeout
  {
    if longest < cfg.timeout {
      forall workers: nat, schedule: seq<Action> | BodiesWithin(Run(cfg, Start(workers), schedule), longest)
        ensures !Overlap(Run(cfg, Start(workers), schedule))
      {
        var w := Run(cfg, Start(workers), schedule);
        if Overlap(w) {
          var i, j :| 0 <= i < j < |w.workers| && w.workers[i].Running? && w.workers[j].Running?
                      && w.workers[i].slot == w.workers[j].slot;
          OverlapNeedsOverrun(cfg, workers, schedule, i, j);
        }
      }
    } else {
      OverrunOverlaps(cfg);
      var w := Run(cfg, Start(2), OverrunSchedule(cfg));
      assert w.workers[0].slot == w.workers[1].slot;
      assert Overlap(w) && BodiesWithin(w, longest);
    }
  }

  /** The workers that run in any of the configured slots. */
  function AnySlotBodies(workers: seq<Worker>): set<nat> {
    set i: nat | i < |workers| && workers[i].Running? && workers[i].anySlot
  }

  ghost predicate AllInTime(cfg: Config, w: World) {
    forall i :: 0 <= i < |w.workers| && w.workers[i].Running? ==> InTime(cfg, w, w.workers[i])
  }

  /** As long as every body is in time, at most as many any-slot bodies run as there are slots. */
  lemma AtMostSlotsBodies(cfg: Config, workers: nat, schedule: seq<Action>)
    requires AllInTime(cfg, Run(cfg, Start(workers), schedule))
    ensures |AnySlotBodies(Run(cfg, Start(workers), schedule).workers)| <= cfg.slots
  {
    var w := Run(cfg, Start(workers), schedule);
    StartInv(cfg, workers);
    RunKeepsInv(cfg, Start(workers), schedule);
    var bodies := AnySlotBodies(w.workers);
    forall i, j | i in bodies && j in bodies && i != j ensures w.workers[i].slot != w.workers[j].slot {
      if i < j { BodiesInTimeDiffer(cfg, w, i, j); } else { BodiesInTimeDiffer(cfg, w, j, i); }
    }
    forall i | i in bodies ensures w.workers[i].slot < cfg.slots {
      assert WorkerInv(cfg, w, w.workers[i]);
    }
    DistinctSlotsFit(w.workers, bodies, cfg.slots);
  }

  lemma {:induction false} DistinctSlotsFit(workers: seq<Worker>, bodies: set<nat>, slots: nat)
    requires forall i :: i in bodies ==> i < |workers| && workers[i].Running? && workers[i].slot < slots
    requires forall i, j :: i in bodies && j in bodies && i != j ==> workers[i].slot != workers[j].slot
    ensures |bodies| <= slots
    decreases slots
  {
    if slots == 0 {
      assert bodies == {};
    } else if exists i :: i in bodies && workers[i].slot == slots - 1 {
      var i :| i in bodies && workers[i].slot == slots - 1;
      DistinctSlotsFit(workers, bodies - {i}, slots - 1);
      assert |bodies| == |bodies - {i}| + 1;
    } else {
      DistinctSlotsFit(workers, bodies, slots - 1);
    }
  }

  /** A worker, running or about to release, whose token is still the one on its slot's lock. */
  predicate Owns(w: World, v: Worker) {
    Holds(v) && v.slot in w.locks && w.locks[v.slot].token == v.token
  }

  /**
   A release, however late, never takes away a lease another worker still owns, whether that worker's
   body is running or has ended; and a body in time does own its lease.
   */
  lemma ReleaseSparesOthers(cfg: Config, workers: nat, schedule: seq<Action>, i: nat, j: nat)
    requires var w := Run(cfg, Start(workers), schedule);
             i < |w.workers| && j < |w.workers| && i != j && w.workers[i].Releasing?
    ensures var w := Run(cfg, Start(workers), schedule);
            var w' := Do(cfg, w, Release(i));
            && (w.workers[j].Running? && InTime(cfg, w, w.workers[j]) ==> Owns(w, w.workers[j]))
            && (Owns(w, w.workers[j]) ==>
                  Owns(w', w'.workers[j]) && w'.locks[w.workers[j].slot] == w.locks[w.workers[j].slot])
  {
    var w := Run(cfg, Start(workers), schedule);
    StartInv(cfg, workers);
    RunKeepsInv(cfg, Start(workers), schedule);
    assert WorkerInv(cfg, w, w.workers[j]);
    if Owns(w, w.workers[j]) {
      assert w.workers[i].token != w.workers[j].token;
    }
  }

  // The slot asked for

  /** The worker waits for, or runs in, what it asked for at some point of the schedule. */
  ghost predicate AskedFor(cfg: Config, schedule: seq<Action>, i: nat, v: Worker) {
    match v
    case Waiting(wanted) => Ask(i, wanted) in schedule
    case Running(slot, _, _, anySlot) =>
      if anySlot then slot < cfg.slots && Ask(i, None) in schedule else Ask(i, Some(slot)) in schedule
    case _ => true
  }

  ghost predicate AllAskedFor(cfg: Config, schedule: seq<Action>, w: World) {
    forall i :: 0 <= i < |w.workers| ==> AskedFor(cfg, schedule, i, w.workers[i])
  }

  lemma StepKeepsAskedFor(cfg: Config, done: seq<Action>, w: World, a: Action)
    requires AllAskedFor(cfg, done, w)
    ensures AllAskedFor(cfg, done + [a], Do(cfg, w, a))
  {
    var w' := Do(cfg, w, a);
    forall i | 0 <= i < |w'.workers| ensures AskedFor(cfg, done + [a], i, w'.workers[i]) {
      assert AskedFor(cfg, done, i, w.workers[i]);
      assert a in done + [a];
    }
  }

  lemma {:induction false} RunKeepsAskedFor(cfg: Config, done: seq<Action>, w: World, schedule: seq<Action>)
    requires AllAskedFor(cfg, done, w)
    ensures AllAskedFor(cfg, done + schedule, Run(cfg, w, schedule))
    decreases |schedule|
  {
    if schedule == [] {
      assert done + schedule == done;
    } else {
      StepKeepsAskedFor(cfg, done, w, schedule[0]);
      RunKeepsAskedFor(cfg, done + [schedule[0]], Do(cfg, w, schedule[0]), schedule[1..]);
      assert done + [schedule[0]] + schedule[1..] == done + schedule;
    }
  }

  /** In every run a body that asked for one slot runs in that slot, and any other in a configured one. */
  lemma BodiesRunWhereAsked(cfg: Config, workers: nat, schedule: seq<Action>, i: nat)
    requires var w := Run(cfg, Start(workers), schedule); i < |w.workers| && w.workers[i].Running?
    ensures var body := Run(cfg, Start(workers), schedule).workers[i];
            if body.anySlot then body.slot < cfg.slots && Ask(i, None) in schedule
            else Ask(i, Some(body.slot)) in schedule
  {
    RunKeepsAskedFor(cfg, [], Start(workers), schedule);
    assert [] + schedule == schedule;
    var w := Run(cfg, Start(workers), schedule);
    assert AskedFor(cfg, schedule, i, w.workers[i]);
  }

  // The gauge

  function Bodies(workers: seq<Worker>): nat {
    if workers == [] then 0
    else Bodies(workers[..|workers| - 1]) + (if workers[|workers| - 1].Running? then 1 else 0)
  }

  lemma {:induction false} BodiesUpdate(workers: seq<Worker>, i: nat, v: Worker)
    requires i < |workers|
    ensures Bodies(workers[i := v])
            == Bodies(workers) + (if v.Running? then 1 else 0) - (if workers[i].Running? then 1 else 0)
    decreases |workers|
  {
    var n := |workers| - 1;
    if i == n {
      assert workers[i := v][..n] == workers[..n];
    } else {
      BodiesUpdate(workers[..n], i, v);
      assert workers[i := v][..n] == workers[..n][i := v];
    }
  }

  lemma {:induction false} RunKeepsGauge(cfg: Config, w: World, schedule: seq<Action>)
    requires w.inUse == Bodies(w.workers)
    ensures Run(cfg, w, schedule).inUse == Bodies(Run(cfg, w, schedule).workers)
    decreases |schedule|
  {
    if schedule != [] {
      var w' := Do(cfg, w, schedule[0]);
      var i := if schedule[0].Tick? then 0 else schedule[0].worker;
      if i < |w.workers| {
        BodiesUpdate(w.workers, i, w'.workers[i]);
        assert w'.workers == w.workers[i := w'.workers[i]];
      }
      RunKeepsGauge(cfg, w', schedule[1..]);
    }
  }

  /** On every path the gauge is the number of bodies in flight, overruns and lost leases included. */
  lemma GaugeCountsBodies(cfg: Config, workers: nat, schedule: seq<Action>)
    ensures var w := Run(cfg, Start(workers), schedule);
            w.inUse == Bodies(w.workers)
  {
    NobodyRuns(Start(workers).workers);
    RunKeepsGauge(cfg, Start(workers), schedule);
  }

  // The counters

  /** The steps in which a worker that waited begins to run. */
  function Entries(cfg: Config, w: World, schedule: seq<Action>): nat
    decreases |schedule|
  {
    if schedule == [] then 0
    else
      var w' := Do(cfg, w, schedule[0]);
      var i := if schedule[0].Tick? then 0 else schedule[0].worker;
      (if i < |w.workers| && i < |w'.workers| && w.workers[i].Waiting? && w'.workers[i].Running? then 1 else 0)
      + Entries(cfg, w', schedule[1..])
  }

  /** The steps in which a worker releases a lease that is no longer its own. */
  function LateReleases(cfg: Config, w: World, schedule: seq<Action>): nat
    decreases |schedule|
  {
    if schedule == [] then 0
    else
      var a := schedule[0];
      (if a.Release? && a.worker < |w.workers| && w.workers[a.worker].Releasing? && !Owns(w, w.workers[a.worker])
       then 1 else 0)
      + LateReleases(cfg, Do(cfg, w, a), schedule[1..])
  }

  lemma {:induction false} RunCounts(cfg: Config, w: World, schedule: seq<Action>)
    ensures var w' := Run(cfg, w, schedule);
            && w'.acquired == w.acquired + Entries(cfg, w, schedule)
            && w'.lost == w.lost + LateReleases(cfg, w, schedule)
    decreases |schedule|
  {
    if schedule != [] {
      RunCounts(cfg, Do(cfg, w, schedule[0]), schedule[1..]);
    }
  }

  /** In every run the one counter counts the bodies begun, and the other the releases that came too late. */
  lemma CountersCount(cfg: Config, workers: nat, schedule: seq<Action>)
    ensures var w := Run(cfg, Start(workers), schedule);
            && w.acquired == Entries(cfg, Start(workers), schedule)
            && w.lost == LateReleases(cfg, Start(workers), schedule)
  {
    RunCounts(cfg, Start(workers), schedule);
  }

  lemma {:induction false} NobodyRuns(workers: seq<Worker>)
    requires forall i :: 0 <= i < |workers| ==> workers[i] == Idle
    ensures Bodies(workers) == 0
    decreases |workers|
  {
    if workers != [] { NobodyRuns(workers[..|workers| - 1]); }
  }
}
