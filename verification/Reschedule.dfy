/** The sensor that requests retries of failed runs, and the run store that honours each run key once. */
module Reschedule {
  import opened Options

  const MAX_RESCHEDULE_ATTEMPTS := 3

  datatype Status = Started | Succeeded | Failed

  /** A run; its id is its position in the store. An absent retry_attempt tag counts as 0. */
  datatype Job = Job(status: Status, attempt: int, parent: Option<nat>)

  /** A RunRequest: the run key is run:attempt, the new tag is retry_attempt = attempt. */
  datatype Request = Request(run: nat, attempt: int)

  datatype State = State(jobs: seq<Job>, honoured: set<Request>)

  datatype Event = Launch(attempt: int) | Finish(run: nat, ok: bool) | Tick

  /** The requests for the first n runs: one for each failed run below the limit. */
  function Requests(jobs: seq<Job>, n: nat): (rs: seq<Request>)
    requires n <= |jobs|
    ensures forall r :: r in rs <==>
              r.run < n && jobs[r.run].status == Failed && jobs[r.run].attempt < MAX_RESCHEDULE_ATTEMPTS
              && r.attempt == jobs[r.run].attempt + 1
    ensures forall i, j :: 0 <= i < j < |rs| ==> rs[i].run < rs[j].run
  {
    if n == 0 then []
    else
      var job := jobs[n - 1];
      Requests(jobs, n - 1)
      + if job.status == Failed && job.attempt < MAX_RESCHEDULE_ATTEMPTS then [Request(n - 1, job.attempt + 1)] else []
  }

  /** A request starts a run unless its key was honoured before. */
  function Honour(s: State, r: Request): State {
    if r in s.honoured then s
    else State(s.jobs + [Job(Started, r.attempt, Some(r.run))], s.honoured + {r})
  }

  function HonourAll(s: State, rs: seq<Request>): State
    decreases |rs|
  {
    if rs == [] then s else Honour(HonourAll(s, rs[..|rs| - 1]), rs[|rs| - 1])
  }

  function Step(s: State, e: Event): State {
    match e
    case Launch(attempt) => s.(jobs := s.jobs + [Job(Started, attempt, None)])
    case Finish(run, ok) =>
      if run < |s.jobs| && s.jobs[run].status == Started then
        s.(jobs := s.jobs[run := s.jobs[run].(status := if ok then Succeeded else Failed)])
      else s
    case Tick => HonourAll(s, Requests(s.jobs, |s.jobs|))
  }

  const IDLE := State([], {})

  function Run(events: seq<Event>): State
    decreases |events|
  {
    if events == [] then IDLE else Step(Run(events[..|events| - 1]), events[|events| - 1])
  }

  // Conservation: runs started plus retries still possible

  /** Retries a run with this tag can still lead to. */
  function Left(attempt: int): nat {
    if attempt < MAX_RESCHEDULE_ATTEMPTS then MAX_RESCHEDULE_ATTEMPTS - attempt else 0
  }

  function Key(jobs: seq<Job>, i: nat): Request
    requires i < |jobs|
  {
    Request(i, jobs[i].attempt + 1)
  }

  /** Retries still possible from the first n runs, those already retried aside. */
  function Pending(s: State, n: nat): nat
    requires n <= |s.jobs|
  {
    if n == 0 then 0
    else Pending(s, n - 1) + if Key(s.jobs, n - 1) in s.honoured then 0 else Left(s.jobs[n - 1].attempt)
  }

  /** One run for each original, and the retries its tag leaves. */
  function Budget(events: seq<Event>): nat
    decreases |events|
  {
    if events == [] then 0
    else
      var last := events[|events| - 1];
      Budget(events[..|events| - 1]) + if last.Launch? then 1 + Left(last.attempt) else 0
  }

  function Originals(events: seq<Event>): nat
    decreases |events|
  {
    if events == [] then 0
    else Originals(events[..|events| - 1]) + if events[|events| - 1].Launch? then 1 else 0
  }

  function Account(s: State): nat {
    |s.jobs| + Pending(s, |s.jobs|)
  }

  // The invariant

  /** Every honoured key is the key of a failed run below the limit. */
  ghost predicate KeysInv(s: State) {
    forall r :: r in s.honoured ==>
      r.run < |s.jobs| && r == Key(s.jobs, r.run) && s.jobs[r.run].status == Failed
      && s.jobs[r.run].attempt < MAX_RESCHEDULE_ATTEMPTS
  }

  /** A retry comes after the run it retries, carries the next attempt, and is that run's only retry. */
  ghost predicate ParentsInv(s: State) {
    && (forall j :: 0 <= j < |s.jobs| && s.jobs[j].parent.Some? ==>
          s.jobs[j].parent.value < j && Request(s.jobs[j].parent.value, s.jobs[j].attempt) in s.honoured)
    && (forall i, j :: 0 <= i < j < |s.jobs| && s.jobs[i].parent.Some? ==> s.jobs[i].parent != s.jobs[j].parent)
  }

  ghost predicate Inv(s: State) {
    KeysInv(s) && ParentsInv(s)
  }

  lemma {:induction false} PendingFrame(s: State, t: State, n: nat)
    requires n <= |s.jobs| <= |t.jobs|
    requires forall i :: 0 <= i < n ==> s.jobs[i].attempt == t.jobs[i].attempt
    requires forall i :: 0 <= i < n ==> (Key(s.jobs, i) in s.honoured <==> Key(s.jobs, i) in t.honoured)
    ensures Pending(s, n) == Pending(t, n)
  {
    if n > 0 { PendingFrame(s, t, n - 1); }
  }

  /** Honouring one more key below n takes away what that run left. */
  lemma {:induction false} PendingSpends(s: State, t: State, n: nat, i: nat)
    requires i < n <= |s.jobs| <= |t.jobs|
    requires forall k :: 0 <= k < n ==> s.jobs[k] == t.jobs[k]
    requires Key(s.jobs, i) !in s.honoured && t.honoured == s.honoured + {Key(s.jobs, i)}
    ensures Pending(s, n) == Pending(t, n) + Left(s.jobs[i].attempt)
  {
    if i < n - 1 {
      PendingSpends(s, t, n - 1, i);
    } else {
      PendingFrame(s, t, n - 1);
    }
  }

  ghost predicate Due(s: State, r: Request) {
    r.run < |s.jobs| && r == Key(s.jobs, r.run) && s.jobs[r.run].status == Failed
    && s.jobs[r.run].attempt < MAX_RESCHEDULE_ATTEMPTS
  }

  lemma HonourKeepsKeys(s: State, r: Request)
    requires KeysInv(s) && Due(s, r)
    ensures KeysInv(Honour(s, r))
  {
  }

  lemma HonourKeepsParents(s: State, r: Request)
    requires Inv(s) && Due(s, r)
    ensures ParentsInv(Honour(s, r))
  {
    var t := Honour(s, r);
    if r !in s.honoured {
      assert forall i :: 0 <= i < |s.jobs| && s.jobs[i].parent == Some(r.run) ==>
          Request(r.run, s.jobs[i].attempt) in s.honoured;
    }
  }

  lemma HonourConserves(s: State, r: Request)
    requires KeysInv(s) && Due(s, r)
    ensures Account(Honour(s, r)) == Account(s)
  {
    var t := Honour(s, r);
    if r !in s.honoured {
      PendingSpends(s, t, |s.jobs|, r.run);
      assert Key(t.jobs, |s.jobs|) !in t.honoured;
    }
  }

  lemma {:induction false} HonourAllKeeps(s: State, rs: seq<Request>)
    requires Inv(s) && forall r :: r in rs ==> Due(s, r)
    ensures var t := HonourAll(s, rs);
            && Inv(t) && Account(t) == Account(s)
            && |t.jobs| >= |s.jobs| && t.jobs[..|s.jobs|] == s.jobs
    decreases |rs|
  {
    if rs != [] {
      var n := |rs| - 1;
      assert forall r :: r in rs[..n] ==> r in rs;
      HonourAllKeeps(s, rs[..n]);
      var t := HonourAll(s, rs[..n]);
      DueLater(s, t, rs[n]);
      HonourKeepsKeys(t, rs[n]);
      HonourKeepsParents(t, rs[n]);
      HonourConserves(t, rs[n]);
    }
  }

  lemma DueLater(s: State, t: State, r: Request)
    requires Due(s, r) && |t.jobs| >= |s.jobs| && t.jobs[..|s.jobs|] == s.jobs
    ensures Due(t, r)
  {
    assert t.jobs[r.run] == s.jobs[r.run];
  }

  lemma FinishKeeps(s: State, run: nat, ok: bool)
    requires Inv(s)
    ensures Inv(Step(s, Finish(run, ok))) && Account(Step(s, Finish(run, ok))) == Account(s)
  {
    var t := Step(s, Finish(run, ok));
    assert forall i :: 0 <= i < |s.jobs| ==>
        t.jobs[i].attempt == s.jobs[i].attempt && t.jobs[i].parent == s.jobs[i].parent;
    PendingFrame(s, t, |s.jobs|);
  }

  lemma LaunchKeeps(s: State, attempt: int)
    requires Inv(s)
    ensures Inv(Step(s, Launch(attempt))) && Account(Step(s, Launch(attempt))) == Account(s) + 1 + Left(attempt)
  {
    var t := Step(s, Launch(attempt));
    PendingFrame(s, t, |s.jobs|);
  }

  lemma {:induction false} RunKeepsInv(events: seq<Event>)
    ensures Inv(Run(events)) && Account(Run(events)) == Budget(events)
    decreases |events|
  {
    if events != [] {
      RunKeepsInv(events[..|events| - 1]);
      var s := Run(events[..|events| - 1]);
      match events[|events| - 1]
      case Launch(attempt) => LaunchKeeps(s, attempt);
      case Finish(run, ok) => FinishKeeps(s, run, ok);
      case Tick => HonourAllKeeps(s, Requests(s.jobs, |s.jobs|));
    }
  }

  // Main results

  /** Originals carry no tag, which counts as 0, or a tag that is not negative. */
  ghost predicate TagsNotNegative(events: seq<Event>) {
    forall e :: e in events && e.Launch? ==> e.attempt >= 0
  }

  lemma {:induction false} BudgetBound(events: seq<Event>)
    requires TagsNotNegative(events)
    ensures Budget(events) <= 4 * Originals(events)
    decreases |events|
  {
    if events != [] {
      assert events == events[..|events| - 1] + [events[|events| - 1]];
      BudgetBound(events[..|events| - 1]);
    }
  }

  /** However many ticks there are, the runs never outnumber four times the originals. */
  lemma RunsBound(events: seq<Event>)
    requires TagsNotNegative(events)
    ensures |Run(events).jobs| <= 4 * Originals(events)
  {
    RunKeepsInv(events);
    BudgetBound(events);
  }

  /** The run a chain of retries began with, and how many retries lie in between. */
  function Root(s: State, i: nat): (r: nat)
    requires i < |s.jobs|
    requires forall j :: 0 <= j < |s.jobs| && s.jobs[j].parent.Some? ==> s.jobs[j].parent.value < j
    ensures r <= i && s.jobs[r].parent == None
    decreases i
  {
    if s.jobs[i].parent.None? then i else Root(s, s.jobs[i].parent.value)
  }

  function Depth(s: State, i: nat): nat
    requires i < |s.jobs|
    requires forall j :: 0 <= j < |s.jobs| && s.jobs[j].parent.Some? ==> s.jobs[j].parent.value < j
    decreases i
  {
    if s.jobs[i].parent.None? then 0 else 1 + Depth(s, s.jobs[i].parent.value)
  }

  /** Along a chain retry_attempt goes up by one, and no retry passes the limit. */
  lemma {:induction false} ChainCounts(s: State, i: nat)
    requires Inv(s) && i < |s.jobs|
    ensures s.jobs[i].attempt == s.jobs[Root(s, i)].attempt + Depth(s, i)
    ensures Depth(s, i) <= Left(s.jobs[Root(s, i)].attempt)
    decreases i
  {
    if s.jobs[i].parent.Some? {
      var p := s.jobs[i].parent.value;
      assert Request(p, s.jobs[i].attempt) in s.honoured;
      ChainCounts(s, p);
    }
  }

  lemma {:induction false} OneChain(s: State, i: nat, j: nat)
    requires Inv(s) && i < |s.jobs| && j < |s.jobs|
    requires Root(s, i) == Root(s, j) && Depth(s, i) == Depth(s, j)
    ensures i == j
    decreases i
  {
    if s.jobs[i].parent.Some? {
      OneChain(s, s.jobs[i].parent.value, s.jobs[j].parent.value);
    }
  }

  /**
   After any run, every retry of an original lies on one chain: its attempt is the original's plus its
   place on the chain, no two retries share a place, and the chain has at most three places.
   */
  lemma RetriesFormOneChain(events: seq<Event>)
    ensures var s := Run(events);
            && Inv(s)
            && (forall i :: 0 <= i < |s.jobs| ==>
                  && s.jobs[i].attempt == s.jobs[Root(s, i)].attempt + Depth(s, i)
                  && Depth(s, i) <= Left(s.jobs[Root(s, i)].attempt))
            && (forall i, j :: 0 <= i < j < |s.jobs| && Root(s, i) == Root(s, j) ==> Depth(s, i) != Depth(s, j))
  {
    var s := Run(events);
    RunKeepsInv(events);
    forall i | 0 <= i < |s.jobs|
      ensures s.jobs[i].attempt == s.jobs[Root(s, i)].attempt + Depth(s, i)
      ensures Depth(s, i) <= Left(s.jobs[Root(s, i)].attempt)
    {
      ChainCounts(s, i);
    }
    forall i, j | 0 <= i < j < |s.jobs| && Root(s, i) == Root(s, j) ensures Depth(s, i) != Depth(s, j) {
      if Depth(s, i) == Depth(s, j) { OneChain(s, i, j); }
    }
  }

  // Ticks

  lemma {:induction false} HonouredAlready(s: State, rs: seq<Request>)
    requires forall r :: r in rs ==> r in s.honoured
    ensures HonourAll(s, rs) == s
    decreases |rs|
  {
    if rs != [] {
      assert rs[|rs| - 1] in rs;
      HonouredAlready(s, rs[..|rs| - 1]);
    }
  }

  lemma {:induction false} HonourAllStarts(s: State, rs: seq<Request>)
    ensures var t := HonourAll(s, rs);
            && (forall r :: r in rs ==> r in t.honoured)
            && |t.jobs| >= |s.jobs| && t.jobs[..|s.jobs|] == s.jobs
            && forall i :: |s.jobs| <= i < |t.jobs| ==> t.jobs[i].status == Started
    decreases |rs|
  {
    if rs != [] {
      HonourAllStarts(s, rs[..|rs| - 1]);
      assert rs == rs[..|rs| - 1] + [rs[|rs| - 1]];
    }
  }

  /** A second tick before anything else happens starts no run: every run key is honoured once. */
  lemma SecondTickIsIdle(s: State)
    ensures Step(Step(s, Tick), Tick) == Step(s, Tick)
  {
    var rs := Requests(s.jobs, |s.jobs|);
    var t := Step(s, Tick);
    HonourAllStarts(s, rs);
    var again := Requests(t.jobs, |t.jobs|);
    forall r | r in again ensures r in t.honoured {
      assert r.run < |s.jobs| && t.jobs[r.run] == s.jobs[r.run];
      assert r in rs;
    }
    HonouredAlready(t, again);
  }

  /** One original and its retries in a row, the first `failed` of them failed and the first k keys honoured. */
  ghost predicate Chained(s: State, k: nat, failed: nat) {
    && |s.jobs| == k + 1
    && (forall i :: 0 <= i <= k ==>
          s.jobs[i] == Job(if i < failed then Failed else Started, i, if i == 0 then None else Some(i - 1)))
    && (forall i :: 0 <= i < k ==> Key(s.jobs, i) in s.honoured)
    && (forall r :: r in s.honoured ==> r.run < k)
  }

  lemma LastFails(s: State, k: nat)
    requires Chained(s, k, k)
    ensures Chained(Step(s, Finish(k, false)), k, k + 1)
  {
    var t := Step(s, Finish(k, false));
    assert forall i :: 0 <= i < k ==> Key(t.jobs, i) == Key(s.jobs, i);
  }

  lemma LastIsRetried(t: State, k: nat)
    requires Chained(t, k, k + 1) && k < MAX_RESCHEDULE_ATTEMPTS
    ensures Step(t, Tick) == State(t.jobs + [Job(Started, k + 1, Some(k))], t.honoured + {Key(t.jobs, k)})
  {
    var rs := Requests(t.jobs, k);
    forall r | r in rs ensures r in t.honoured {
      assert r == Key(t.jobs, r.run);
    }
    HonouredAlready(t, rs);
    var all := Requests(t.jobs, k + 1);
    assert all == rs + [Key(t.jobs, k)];
    assert all[..|all| - 1] == rs;
  }

  lemma FailsAgain(s: State, k: nat)
    requires Chained(s, k, k) && k < MAX_RESCHEDULE_ATTEMPTS
    ensures Chained(Step(Step(s, Finish(k, false)), Tick), k + 1, k + 1)
  {
    LastFails(s, k);
    var t := Step(s, Finish(k, false));
    LastIsRetried(t, k);
    ChainGrows(t, State(t.jobs + [Job(Started, k + 1, Some(k))], t.honoured + {Key(t.jobs, k)}), k);
  }

  lemma ChainGrows(t: State, u: State, k: nat)
    requires Chained(t, k, k + 1)
    requires u == State(t.jobs + [Job(Started, k + 1, Some(k))], t.honoured + {Key(t.jobs, k)})
    ensures Chained(u, k + 1, k + 1)
  {
    assert forall i :: 0 <= i <= k ==> Key(u.jobs, i) == Key(t.jobs, i);
  }

  /** A run that keeps failing, with a tick after each failure. */
  function Failures(k: nat): seq<Event> {
    if k == 0 then [Launch(0)] else Failures(k - 1) + [Finish(k - 1, false), Tick]
  }

  lemma RunTwoMore(events: seq<Event>, a: Event, b: Event)
    ensures Run(events + [a, b]) == Step(Step(Run(events), a), b)
  {
    var mid := events + [a];
    assert (events + [a, b])[..|events| + 1] == mid && mid[..|events|] == events;
  }

  lemma OneMoreFailure(k: nat)
    requires k > 0
    ensures Run(Failures(k)) == Step(Step(Run(Failures(k - 1)), Finish(k - 1, false)), Tick)
  {
    RunTwoMore(Failures(k - 1), Finish(k - 1, false), Tick);
  }

  lemma {:induction false} FailuresRun(k: nat)
    requires k <= MAX_RESCHEDULE_ATTEMPTS
    ensures Chained(Run(Failures(k)), k, k)
  {
    if k == 0 {
      OneRun();
    } else {
      FailuresRun(k - 1);
      FailsAgain(Run(Failures(k - 1)), k - 1);
      OneMoreFailure(k);
    }
  }

  lemma NoLaunches(events: seq<Event>, a: Event, b: Event)
    requires !a.Launch? && !b.Launch?
    ensures Originals(events + [a, b]) == Originals(events)
    ensures TagsNotNegative(events) ==> TagsNotNegative(events + [a, b])
  {
    var mid := events + [a];
    assert (events + [a, b])[..|events| + 1] == mid && mid[..|events|] == events;
  }

  lemma {:induction false} FailuresLaunchOnce(k: nat)
    ensures TagsNotNegative(Failures(k)) && Originals(Failures(k)) == 1
  {
    if k == 0 {
      OneRun();
    } else {
      FailuresLaunchOnce(k - 1);
      NoLaunches(Failures(k - 1), Finish(k - 1, false), Tick);
    }
  }

  lemma OneRun()
    ensures Chained(Run([Launch(0)]), 0, 0) && Originals([Launch(0)]) == 1
  {
    assert [Launch(0)][..0] == [];
    assert Run([Launch(0)]) == Step(IDLE, Launch(0));
  }

  /** The bound of four runs per original is reached. */
  lemma RunsBoundIsTight()
    ensures var events := Failures(3);
            TagsNotNegative(events) && Originals(events) == 1 && |Run(events).jobs| == 4
  {
    FailuresRun(3);
    FailuresLaunchOnce(3);
  }
}
