/**
 Several launches of one publish task at once. Each launch (the first publish or a manual retry) is a
 chain that keeps rescheduling itself; the chains interleave at every read and write of the row.
 */
module PublishChains {
  import opened Options
  import opened PublishTasks

  datatype Chain =
    | Scheduled             // queued, about to mark the task in progress
    | Begun                 // about to validate and publish
    | Accepted              // published, about to record success
    | Refused               // rejected by policy, about to record failure and announce it
    | Failing               // exception caught, about to count it
    | Counted               // about to record failure
    | Marked                // about to read the count and decide on the announcement
    | Judged                // about to re-read the row and decide on another round
    | Again                 // about to schedule the next round
    | Done(exhausted: bool)

  datatype World = World(
    attempts: int,
    status: Status,
    chains: seq<Chain>,
    failures: nat,
    notified: nat)

  /** `Step(i, outcome)`: chain i moves; `outcome` matters only where it publishes. */
  datatype Action = Launch | Step(chain: nat, outcome: Outcome)

  function Start(attempts: int, launches: nat): World {
    World(attempts, Pending, seq(launches, _ => Scheduled), 0, 0)
  }

  function ChainStep(max: int, w: World, i: nat, outcome: Outcome): World
    requires i < |w.chains|
  {
    match w.chains[i]
    case Scheduled => w.(status := InProgress, chains := w.chains[i := Begun])
    case Begun =>
      w.(chains := w.chains[i := match outcome
                                 case Published => Accepted
                                 case Rejected => Refused
                                 case Raised => Failing])
    case Accepted => w.(status := Succeeded, chains := w.chains[i := Done(false)])
    case Refused => w.(status := Failed, notified := w.notified + 1, chains := w.chains[i := Done(false)])
    case Failing => w.(attempts := w.attempts + 1, failures := w.failures + 1, chains := w.chains[i := Counted])
    case Counted => w.(status := Failed, chains := w.chains[i := Marked])
    case Marked =>
      w.(notified := w.notified + (if w.attempts >= max then 1 else 0), chains := w.chains[i := Judged])
    case Judged => w.(chains := w.chains[i := if w.attempts < max then Again else Done(true)])
    case Again => w.(chains := w.chains[i := Scheduled])
    case Done(_) => w
  }

  function Do(max: int, w: World, a: Action): World {
    match a
    case Launch => w.(chains := w.chains + [Scheduled])
    case Step(i, outcome) => if i < |w.chains| then ChainStep(max, w, i, outcome) else w
  }

  function Run(max: int, w: World, schedule: seq<Action>): World
    decreases |schedule|
  {
    if schedule == [] then w else Run(max, Do(max, w, schedule[0]), schedule[1..])
  }

  // Counting chains

  /** A chain that will count one more failure, or may, before it looks at the count again. */
  predicate Armed(c: Chain) {
    c.Scheduled? || c.Begun? || c.Failing? || c.Again?
  }

  function ArmedIn(chains: seq<Chain>): nat {
    if chains == [] then 0
    else ArmedIn(chains[..|chains| - 1]) + (if Armed(chains[|chains| - 1]) then 1 else 0)
  }

  lemma {:induction false} ArmedUpdate(chains: seq<Chain>, i: nat, c: Chain)
    requires i < |chains|
    ensures ArmedIn(chains[i := c])
            == ArmedIn(chains) + (if Armed(c) then 1 else 0) - (if Armed(chains[i]) then 1 else 0)
    decreases |chains|
  {
    var n := |chains| - 1;
    if i == n {
      assert chains[i := c][..n] == chains[..n];
    } else {
      ArmedUpdate(chains[..n], i, c);
      assert chains[i := c][..n] == chains[..n][i := c];
    }
  }

  lemma {:induction false} ArmedBound(chains: seq<Chain>)
    ensures ArmedIn(chains) <= |chains|
    decreases |chains|
  {
    if chains != [] { ArmedBound(chains[..|chains| - 1]); }
  }

  // The invariant

  /** The count at which c launches starting from `start` can leave the row. */
  function Ceiling(max: int, start: int, launches: nat): int {
    Max(max, start + 1) + launches - 1
  }

  ghost predicate MayAnnounce(c: Chain) {
    c.Counted? || c.Marked?
  }

  ghost predicate Inv(max: int, start: int, w: World) {
    && w.attempts == start + w.failures
    && w.attempts + ArmedIn(w.chains) <= Ceiling(max, start, |w.chains|)
    && (w.failures > 0 && w.attempts >= max && w.notified == 0 ==>
          exists i :: 0 <= i < |w.chains| && MayAnnounce(w.chains[i]))
    && (forall i :: 0 <= i < |w.chains| && w.chains[i] == Done(true) ==> w.attempts >= max)
  }

  lemma StartInv(max: int, start: int, launches: nat)
    ensures Inv(max, start, Start(start, launches))
  {
    ArmedBound(Start(start, launches).chains);
  }

  lemma LaunchKeepsInv(max: int, start: int, w: World)
    requires Inv(max, start, w)
    ensures Inv(max, start, Do(max, w, Launch))
  {
    var w' := Do(max, w, Launch);
    assert w'.chains[..|w.chains|] == w.chains;
    assert forall i :: 0 <= i < |w.chains| ==> w'.chains[i] == w.chains[i];
  }

  /** A step keeps the counter, and the room left for chains that may still count a failure. */
  lemma StepKeepsRoom(max: int, start: int, w: World, i: nat, outcome: Outcome)
    requires Inv(max, start, w) && i < |w.chains| && !w.chains[i].Done?
    ensures var w' := ChainStep(max, w, i, outcome);
            w'.attempts == start + w'.failures
            && w'.attempts + ArmedIn(w'.chains) <= Ceiling(max, start, |w'.chains|)
  {
    var w' := ChainStep(max, w, i, outcome);
    assert w'.chains == w.chains[i := w'.chains[i]];
    ArmedUpdate(w.chains, i, w'.chains[i]);
    ArmedBound(w'.chains);
  }

  lemma StepKeepsNews(max: int, start: int, w: World, i: nat, outcome: Outcome)
    requires Inv(max, start, w) && i < |w.chains| && !w.chains[i].Done?
    ensures var w' := ChainStep(max, w, i, outcome);
            && (w'.failures > 0 && w'.attempts >= max && w'.notified == 0 ==>
                  exists j :: 0 <= j < |w'.chains| && MayAnnounce(w'.chains[j]))
            && (forall j :: 0 <= j < |w'.chains| && w'.chains[j] == Done(true) ==> w'.attempts >= max)
  {
    var w' := ChainStep(max, w, i, outcome);
    assert MayAnnounce(w'.chains[i]) ==> exists j :: 0 <= j < |w'.chains| && MayAnnounce(w'.chains[j]);
    assert forall j :: 0 <= j < |w.chains| && j != i ==> w'.chains[j] == w.chains[j];
  }

  lemma StepKeepsInv(max: int, start: int, w: World, a: Action)
    requires Inv(max, start, w)
    ensures Inv(max, start, Do(max, w, a))
  {
    match a
    case Launch => LaunchKeepsInv(max, start, w);
    case Step(i, outcome) =>
      if i < |w.chains| && !w.chains[i].Done? {
        StepKeepsRoom(max, start, w, i, outcome);
        StepKeepsNews(max, start, w, i, outcome);
      }
  }

  lemma {:induction false} RunKeepsInv(max: int, start: int, w: World, schedule: seq<Action>)
    requires Inv(max, start, w)
    ensures Inv(max, start, Run(max, w, schedule))
    decreases |schedule|
  {
    if schedule != [] {
      StepKeepsInv(max, start, w, schedule[0]);
      RunKeepsInv(max, start, Do(max, w, schedule[0]), schedule[1..]);
    }
  }

  /**
   Over any run with c launches in all, the stored count is its start plus the failures handled, and
   passes `max` by at most c - 1 (a first round always runs, whatever the start).
   */
  lemma AttemptsBound(max: int, start: int, launches: nat, schedule: seq<Action>)
    ensures var w := Run(max, Start(start, launches), schedule);
            && w.attempts == start + w.failures
            && (|w.chains| > 0 ==> w.attempts <= Max(max, start + 1) + |w.chains| - 1)
  {
    StartInv(max, start, launches);
    RunKeepsInv(max, start, Start(start, launches), schedule);
  }

  /** No chain gives up before `max` failures are on record. */
  lemma NoEarlySurrender(max: int, start: int, launches: nat, schedule: seq<Action>, i: nat)
    requires var w := Run(max, Start(start, launches), schedule);
             i < |w.chains| && w.chains[i] == Done(true)
    ensures Run(max, Start(start, launches), schedule).attempts >= max
  {
    StartInv(max, start, launches);
    RunKeepsInv(max, start, Start(start, launches), schedule);
  }

  /** When all chains have ended and the count has reached `max` through failures, somebody announced it. */
  lemma ExhaustionIsAnnounced(max: int, start: int, launches: nat, schedule: seq<Action>)
    requires var w := Run(max, Start(start, launches), schedule);
             && w.failures > 0 && w.attempts >= max
             && forall i :: 0 <= i < |w.chains| ==> w.chains[i].Done?
    ensures Run(max, Start(start, launches), schedule).notified >= 1
  {
    StartInv(max, start, launches);
    RunKeepsInv(max, start, Start(start, launches), schedule);
  }

  // The status the row is left with

  /** Between the first and the last write of one round. */
  predicate MidRound(c: Chain) {
    c.Begun? || c.Accepted? || c.Refused? || c.Failing? || c.Counted?
  }

  /** The row is in progress only while some chain is mid-round, and pending only while none has begun. */
  ghost predicate StatusInv(w: World) {
    && (w.status == InProgress ==> exists i :: 0 <= i < |w.chains| && MidRound(w.chains[i]))
    && (w.status == Pending ==> forall i :: 0 <= i < |w.chains| ==> w.chains[i] == Scheduled)
  }

  lemma StepKeepsStatus(max: int, w: World, a: Action)
    requires StatusInv(w)
    ensures StatusInv(Do(max, w, a))
  {
    var w' := Do(max, w, a);
    match a
    case Launch =>
      assert forall i :: 0 <= i < |w.chains| ==> w'.chains[i] == w.chains[i];
    case Step(i, outcome) =>
      if i < |w.chains| {
        assert forall j :: 0 <= j < |w.chains| && j != i ==> w'.chains[j] == w.chains[j];
        assert MidRound(w'.chains[i]) || w'.status != InProgress || !MidRound(w.chains[i]);
      }
  }

  lemma {:induction false} RunKeepsStatus(max: int, w: World, schedule: seq<Action>)
    requires StatusInv(w)
    ensures StatusInv(Run(max, w, schedule))
    decreases |schedule|
  {
    if schedule != [] {
      StepKeepsStatus(max, w, schedule[0]);
      RunKeepsStatus(max, Do(max, w, schedule[0]), schedule[1..]);
    }
  }

  /** However the chains interleave, once all of them have ended the row is succeeded or failed. */
  lemma NeverStuckInProgress(max: int, start: int, launches: nat, schedule: seq<Action>)
    requires var w := Run(max, Start(start, launches), schedule);
             |w.chains| > 0 && forall i :: 0 <= i < |w.chains| ==> w.chains[i].Done?
    ensures Run(max, Start(start, launches), schedule).status in {Succeeded, Failed}
  {
    RunKeepsStatus(max, Start(start, launches), schedule);
    var w := Run(max, Start(start, launches), schedule);
    assert w.chains[0].Done?;
  }

  // What the attempts amount to

  /** The outcomes of each chain's attempts so far, and that of the round whose final status was written last. */
  datatype Log = Log(tried: seq<seq<Outcome>>, written: Option<Outcome>)

  function Latest(tried: seq<Outcome>): Option<Outcome> {
    if tried == [] then None else Some(tried[|tried| - 1])
  }

  /** The chain is about to write the final status of its round. */
  predicate Writes(c: Chain) {
    c.Accepted? || c.Refused? || c.Counted?
  }

  function Logged(log: Log, w: World, a: Action): Log {
    match a
    case Launch => log.(tried := log.tried + [[]])
    case Step(i, outcome) =>
      if i >= |w.chains| || i >= |log.tried| then log
      else if w.chains[i].Begun? then log.(tried := log.tried[i := log.tried[i] + [outcome]])
      else if Writes(w.chains[i]) then log.(written := Latest(log.tried[i]))
      else log
  }

  function LogOf(max: int, w: World, log: Log, schedule: seq<Action>): Log
    decreases |schedule|
  {
    if schedule == [] then log
    else LogOf(max, Do(max, w, schedule[0]), Logged(log, w, schedule[0]), schedule[1..])
  }

  function StartLog(launches: nat): Log {
    Log(seq(launches, _ => []), None)
  }

  /** The attempts of a chain, by where it stands: all but the last of them raised. */
  ghost predicate Attempted(c: Chain, tried: seq<Outcome>) {
    && (forall k :: 0 <= k < |tried| - 1 ==> tried[k] == Raised)
    && match c
       case Scheduled | Begun => tried == [] || Latest(tried) == Some(Raised)
       case Accepted => Latest(tried) == Some(Published)
       case Refused => Latest(tried) == Some(Rejected)
       case Failing | Counted | Marked | Judged | Again => Latest(tried) == Some(Raised)
       case Done(exhausted) =>
         if exhausted then Latest(tried) == Some(Raised) else Latest(tried) in {Some(Published), Some(Rejected)}
  }

  predicate AfterCount(c: Chain) {
    c.Counted? || c.Marked? || c.Judged? || c.Again? || c == Done(true)
  }

  predicate RefusedFor(c: Chain, tried: seq<Outcome>) {
    c == Done(false) && Latest(tried) == Some(Rejected)
  }

  /** This chain has announced a failure, or has seen the count at its limit and ends. */
  ghost predicate Hopeless(max: int, w: World, c: Chain, tried: seq<Outcome>) {
    c == Done(true) || RefusedFor(c, tried) || (c.Judged? && w.attempts >= max)
  }

  ghost predicate LogInv(max: int, w: World, log: Log) {
    && |log.tried| == |w.chains|
    && (forall i :: 0 <= i < |w.chains| ==> Attempted(w.chains[i], log.tried[i]))
    && (forall i :: 0 <= i < |w.chains| && AfterCount(w.chains[i]) ==> w.failures > 0)
    && (w.status == Succeeded ==> log.written == Some(Published))
    && (w.status == Failed ==> log.written in {Some(Rejected), Some(Raised)})
    && (w.notified > 0 ==> exists i :: 0 <= i < |w.chains| && Hopeless(max, w, w.chains[i], log.tried[i]))
    && (forall i :: 0 <= i < |w.chains| && RefusedFor(w.chains[i], log.tried[i]) ==> w.notified > 0)
  }

  lemma LaunchKeepsLog(max: int, w: World, log: Log)
    requires LogInv(max, w, log)
    ensures LogInv(max, Do(max, w, Launch), Logged(log, w, Launch))
  {
    var w', log' := Do(max, w, Launch), Logged(log, w, Launch);
    assert forall i :: 0 <= i < |w.chains| ==> w'.chains[i] == w.chains[i] && log'.tried[i] == log.tried[i];
    assert Attempted(Scheduled, []);
  }

  lemma StepKeepsAttempts(max: int, w: World, log: Log, i: nat, outcome: Outcome)
    requires LogInv(max, w, log) && i < |w.chains|
    ensures var w', log' := ChainStep(max, w, i, outcome), Logged(log, w, Step(i, outcome));
            && |log'.tried| == |w'.chains|
            && (forall j :: 0 <= j < |w'.chains| ==> Attempted(w'.chains[j], log'.tried[j]))
            && (forall j :: 0 <= j < |w'.chains| && AfterCount(w'.chains[j]) ==> w'.failures > 0)
            && (w'.status == Succeeded ==> log'.written == Some(Published))
            && (w'.status == Failed ==> log'.written in {Some(Rejected), Some(Raised)})
  {
    assert Attempted(w.chains[i], log.tried[i]);
  }

  lemma StepKeepsAnnouncements(max: int, w: World, log: Log, i: nat, outcome: Outcome)
    requires LogInv(max, w, log) && i < |w.chains|
    ensures var w', log' := ChainStep(max, w, i, outcome), Logged(log, w, Step(i, outcome));
            && |log'.tried| == |w'.chains|
            && (w'.notified > 0 ==> exists j :: 0 <= j < |w'.chains| && Hopeless(max, w', w'.chains[j], log'.tried[j]))
            && (forall j :: 0 <= j < |w'.chains| && RefusedFor(w'.chains[j], log'.tried[j]) ==> w'.notified > 0)
  {
    var w', log' := ChainStep(max, w, i, outcome), Logged(log, w, Step(i, outcome));
    assert Attempted(w.chains[i], log.tried[i]);
    if w'.notified > 0 {
      if w.notified == 0 {
        assert Hopeless(max, w', w'.chains[i], log'.tried[i]);
      } else {
        var j :| 0 <= j < |w.chains| && Hopeless(max, w, w.chains[j], log.tried[j]);
        assert Hopeless(max, w', w'.chains[j], log'.tried[j]);
      }
    }
  }

  lemma {:induction false} RunKeepsLog(max: int, w: World, log: Log, schedule: seq<Action>)
    requires LogInv(max, w, log)
    ensures LogInv(max, Run(max, w, schedule), LogOf(max, w, log, schedule))
    decreases |schedule|
  {
    if schedule != [] {
      match schedule[0] {
        case Launch => LaunchKeepsLog(max, w, log);
        case Step(i, outcome) =>
          if i < |w.chains| {
            StepKeepsAttempts(max, w, log, i, outcome);
            StepKeepsAnnouncements(max, w, log, i, outcome);
          }
      }
      RunKeepsLog(max, Do(max, w, schedule[0]), Logged(log, w, schedule[0]), schedule[1..]);
    }
  }

  ghost predicate Ended(w: World) {
    |w.chains| > 0 && forall i :: 0 <= i < |w.chains| ==> w.chains[i].Done?
  }

  /**
   However the chains interleave, once all of them have ended the row says success exactly if the round
   whose final status was written last had published, and failure otherwise.
   */
  lemma LastWriteDecides(max: int, start: int, launches: nat, schedule: seq<Action>)
    requires Ended(Run(max, Start(start, launches), schedule))
    ensures var w := Run(max, Start(start, launches), schedule);
            var written := LogOf(max, Start(start, launches), StartLog(launches), schedule).written;
            && written.Some?
            && w.status == if written == Some(Published) then Succeeded else Failed
  {
    NeverStuckInProgress(max, start, launches, schedule);
    RunKeepsLog(max, Start(start, launches), StartLog(launches), schedule);
  }

  /** Once all chains have ended, nobody announced a failure exactly if the last attempt of every chain published. */
  lemma SilentIffPublished(max: int, start: int, launches: nat, schedule: seq<Action>)
    requires Ended(Run(max, Start(start, launches), schedule))
    ensures var w := Run(max, Start(start, launches), schedule);
            var tried := LogOf(max, Start(start, launches), StartLog(launches), schedule).tried;
            && |tried| == |w.chains|
            && (w.notified == 0 <==> forall i :: 0 <= i < |tried| ==> Latest(tried[i]) == Some(Published))
  {
    var w := Run(max, Start(start, launches), schedule);
    var tried := LogOf(max, Start(start, launches), StartLog(launches), schedule).tried;
    StartInv(max, start, launches);
    RunKeepsInv(max, start, Start(start, launches), schedule);
    RunKeepsLog(max, Start(start, launches), StartLog(launches), schedule);
    if w.notified == 0 {
      forall i | 0 <= i < |tried| ensures Latest(tried[i]) == Some(Published) {
        var c := w.chains[i];
        assert Attempted(c, tried[i]) && (c == Done(true) ==> AfterCount(c));
      }
    } else {
      var i :| 0 <= i < |w.chains| && Hopeless(max, w, w.chains[i], tried[i]);
      assert Attempted(w.chains[i], tried[i]);
    }
  }

  ghost predicate OnlyPublishes(schedule: seq<Action>) {
    forall i :: 0 <= i < |schedule| && schedule[i].Step? ==> schedule[i].outcome == Published
  }

  lemma {:induction false} LogOnlyPublishes(max: int, w: World, log: Log, schedule: seq<Action>)
    requires OnlyPublishes(schedule)
    requires log.written in {None, Some(Published)}
    requires forall i, k :: 0 <= i < |log.tried| && 0 <= k < |log.tried[i]| ==> log.tried[i][k] == Published
    ensures LogOf(max, w, log, schedule).written in {None, Some(Published)}
    ensures var tried := LogOf(max, w, log, schedule).tried;
            forall i, k :: 0 <= i < |tried| && 0 <= k < |tried[i]| ==> tried[i][k] == Published
    decreases |schedule|
  {
    if schedule != [] {
      assert schedule[0].Step? ==> schedule[0].outcome == Published;
      LogOnlyPublishes(max, Do(max, w, schedule[0]), Logged(log, w, schedule[0]), schedule[1..]);
    }
  }

  /** If every attempt publishes, the row ends as succeeded, nothing is counted and nobody is notified. */
  lemma AllPublished(max: int, start: int, launches: nat, schedule: seq<Action>)
    requires OnlyPublishes(schedule) && Ended(Run(max, Start(start, launches), schedule))
    ensures var w := Run(max, Start(start, launches), schedule);
            w.status == Succeeded && w.notified == 0 && w.attempts == start
  {
    LogOnlyPublishes(max, Start(start, launches), StartLog(launches), schedule);
    LastWriteDecides(max, start, launches, schedule);
    SilentIffPublished(max, start, launches, schedule);
    RunKeepsLog(max, Start(start, launches), StartLog(launches), schedule);
    NothingCounted(max, Start(start, launches), schedule);
    var w := Run(max, Start(start, launches), schedule);
    var tried := LogOf(max, Start(start, launches), StartLog(launches), schedule).tried;
    forall i | 0 <= i < |tried| ensures Latest(tried[i]) == Some(Published) {
      assert Attempted(w.chains[i], tried[i]);
    }
  }

  lemma {:induction false} NothingCounted(max: int, w: World, schedule: seq<Action>)
    requires OnlyPublishes(schedule)
    requires forall i :: 0 <= i < |w.chains| ==> w.chains[i] in {Scheduled, Begun, Accepted, Done(false)}
    ensures Run(max, w, schedule).attempts == w.attempts
    decreases |schedule|
  {
    if schedule != [] {
      assert schedule[0].Step? ==> schedule[0].outcome == Published;
      NothingCounted(max, Do(max, w, schedule[0]), schedule[1..]);
    }
  }

  // A chain on its own

  ghost predicate SoloInv(max: int, start: int, w: World, tried: seq<Outcome>) {
    var n := |tried|;
    && |w.chains| == 1 && Attempted(w.chains[0], tried)
    && (n > 1 ==> start + n - 1 < max)
    && match w.chains[0]
       case Scheduled | Begun => w.attempts == start + n && w.notified == 0 && (n > 0 ==> w.attempts < max)
       case Accepted | Refused | Failing => w.attempts == start + n - 1 && w.notified == 0
       case Counted => w.attempts == start + n && w.notified == 0
       case Marked => w.attempts == start + n && w.notified == 0 && w.status == Failed
       case Judged => w.attempts == start + n && w.status == Failed && w.notified == if w.attempts >= max then 1 else 0
       case Again => w.attempts == start + n < max && w.notified == 0
       case Done(exhausted) =>
         if exhausted then w.attempts == start + n >= max && w.status == Failed && w.notified == 1
         else
           && w.attempts == start + n - 1
           && if Latest(tried) == Some(Published) then w.status == Succeeded && w.notified == 0
              else w.status == Failed && w.notified == 1
  }

  lemma StepKeepsSolo(max: int, start: int, w: World, log: Log, a: Action)
    requires |log.tried| == 1 && SoloInv(max, start, w, log.tried[0]) && a.Step?
    ensures |Logged(log, w, a).tried| == 1 && SoloInv(max, start, Do(max, w, a), Logged(log, w, a).tried[0])
  {
  }

  lemma {:induction false} RunKeepsSolo(max: int, start: int, w: World, log: Log, schedule: seq<Action>)
    requires |log.tried| == 1 && SoloInv(max, start, w, log.tried[0])
    requires forall i :: 0 <= i < |schedule| ==> schedule[i].Step?
    ensures var log' := LogOf(max, w, log, schedule);
            |log'.tried| == 1 && SoloInv(max, start, Run(max, w, schedule), log'.tried[0])
    decreases |schedule|
  {
    if schedule != [] {
      StepKeepsSolo(max, start, w, log, schedule[0]);
      RunKeepsSolo(max, start, Do(max, w, schedule[0]), Logged(log, w, schedule[0]), schedule[1..]);
    }
  }

  /** The outcomes of the attempts of a single launch. */
  function TriedAlone(max: int, start: int, schedule: seq<Action>): seq<Outcome> {
    var tried := LogOf(max, Start(start, 1), StartLog(1), schedule).tried;
    if tried == [] then [] else tried[0]
  }

  /** The chain's attempts went as `outcomes` says. */
  ghost predicate WentAs(tried: seq<Outcome>, outcomes: nat -> Outcome) {
    forall k :: 0 <= k < |tried| ==> tried[k] == outcomes(k)
  }

  /**
   A single launch driven to its end, in whatever steps, makes the attempts `BackgroundPublish` makes for the
   same outcomes, and leaves the count, the status and the announcements that method leaves.
   */
  lemma SoloIsBackground(max: int, start: int, schedule: seq<Action>, outcomes: nat -> Outcome, runs: nat)
    requires forall i :: 0 <= i < |schedule| ==> schedule[i].Step?
    requires Ended(Run(max, Start(start, 1), schedule)) && EndsAfter(outcomes, max, start, runs)
    requires WentAs(TriedAlone(max, start, schedule), outcomes)
    ensures var w := Run(max, Start(start, 1), schedule); var last := outcomes(runs - 1);
            && |TriedAlone(max, start, schedule)| == runs
            && w.attempts == start + (if last == Raised then runs else runs - 1)
            && w.status == (if last == Published then Succeeded else Failed)
            && w.notified == if w.status == Failed then 1 else 0
  {
    RunKeepsSolo(max, start, Start(start, 1), StartLog(1), schedule);
    EndsOnce(outcomes, max, start, |TriedAlone(max, start, schedule)|, runs);
  }

  // Every interleaving ends

  function Rank(c: Chain): nat {
    match c
    case Counted => 12
    case Marked => 11
    case Judged => 10
    case Again => 9
    case Scheduled => 8
    case Begun => 7
    case Failing | Accepted | Refused => 6
    case Done(_) => 0
  }

  function Ranks(chains: seq<Chain>): nat {
    if chains == [] then 0 else Ranks(chains[..|chains| - 1]) + Rank(chains[|chains| - 1])
  }

  lemma {:induction false} RanksUpdate(chains: seq<Chain>, i: nat, c: Chain)
    requires i < |chains|
    ensures Ranks(chains[i := c]) == Ranks(chains) + Rank(c) - Rank(chains[i])
    decreases |chains|
  {
    var n := |chains| - 1;
    if i == n {
      assert chains[i := c][..n] == chains[..n];
    } else {
      RanksUpdate(chains[..n], i, c);
      assert chains[i := c][..n] == chains[..n][i := c];
    }
  }

  lemma {:induction false} RanksBound(chains: seq<Chain>)
    ensures Ranks(chains) <= 12 * |chains|
    decreases |chains|
  {
    if chains != [] { RanksBound(chains[..|chains| - 1]); }
  }

  /** The steps of a schedule in which a chain that has not ended moves. */
  function Moves(max: int, w: World, schedule: seq<Action>): nat
    decreases |schedule|
  {
    if schedule == [] then 0
    else
      (match schedule[0]
       case Step(i, _) => if i < |w.chains| && !w.chains[i].Done? then 1 else 0
       case Launch => 0)
      + Moves(max, Do(max, w, schedule[0]), schedule[1..])
  }

  ghost function Fuel(max: int, start: int, w: World): int {
    8 * (Ceiling(max, start, |w.chains|) - w.attempts) + Ranks(w.chains)
  }

  lemma MoveBurnsFuel(max: int, start: int, w: World, i: nat, outcome: Outcome)
    requires i < |w.chains| && !w.chains[i].Done?
    ensures Fuel(max, start, ChainStep(max, w, i, outcome)) <= Fuel(max, start, w) - 1
  {
    var w' := ChainStep(max, w, i, outcome);
    RanksUpdate(w.chains, i, w'.chains[i]);
    assert w'.chains == w.chains[i := w'.chains[i]];
  }

  /** Manual retries posted during the schedule. */
  function Launches(schedule: seq<Action>): nat {
    if schedule == [] then 0 else (if schedule[0].Launch? then 1 else 0) + Launches(schedule[1..])
  }

  /** A launch brings the fuel of one more round and of its own first round. */
  lemma LaunchAddsFuel(max: int, start: int, w: World)
    requires |w.chains| > 0
    ensures Fuel(max, start, Do(max, w, Launch)) == Fuel(max, start, w) + 16
  {
    assert (w.chains + [Scheduled])[..|w.chains|] == w.chains;
  }

  /** The chains make boundedly many moves, in any order, whatever fails and whenever retries are posted. */
  lemma {:induction false} ChainsTerminate(max: int, start: int, w: World, schedule: seq<Action>)
    requires Inv(max, start, w) && |w.chains| > 0
    ensures Moves(max, w, schedule) <= Fuel(max, start, w) + 16 * Launches(schedule)
    decreases |schedule|
  {
    if schedule != [] {
      StepKeepsInv(max, start, w, schedule[0]);
      ChainsTerminate(max, start, Do(max, w, schedule[0]), schedule[1..]);
      match schedule[0]
      case Launch => LaunchAddsFuel(max, start, w);
      case Step(i, outcome) =>
        if i < |w.chains| && !w.chains[i].Done? {
          MoveBurnsFuel(max, start, w, i, outcome);
        }
    } else {
      ArmedBound(w.chains);
    }
  }

  /** c launches at the start and any number of retries posted meanwhile make at most this many moves in all. */
  lemma AllLaunchesTerminate(max: int, start: int, launches: nat, schedule: seq<Action>)
    requires launches > 0
    ensures Moves(max, Start(start, launches), schedule)
            <= 8 * (Max(max, start + 1) + launches - 1 - start) + 12 * launches + 16 * Launches(schedule)
  {
    StartInv(max, start, launches);
    ChainsTerminate(max, start, Start(start, launches), schedule);
    RanksBound(Start(start, launches).chains);
  }

  // The ceiling is reached

  lemma {:induction false} RunConcat(max: int, w: World, first: seq<Action>, second: seq<Action>)
    ensures Run(max, w, first + second) == Run(max, Run(max, w, first), second)
    decreases |first|
  {
    if first == [] {
      assert first + second == second;
    } else {
      assert (first + second)[1..] == first[1..] + second;
      RunConcat(max, Do(max, w, first[0]), first[1..], second);
    }
  }

  lemma RunOne(max: int, w: World, schedule: seq<Action>, a: Action)
    ensures Run(max, w, schedule + [a]) == Do(max, Run(max, w, schedule), a)
  {
    RunConcat(max, w, schedule, [a]);
    assert Run(max, Run(max, w, schedule), [a]) == Run(max, Do(max, Run(max, w, schedule), a), []);
  }

  /** Chain i takes n steps, publishing in vain. */
  lemma {:induction false} Drive(max: int, w: World, schedule: seq<Action>, i: nat, n: nat)
    returns (longer: seq<Action>)
    ensures Run(max, w, longer) == Driven(max, Run(max, w, schedule), i, n)
    decreases n
  {
    longer := schedule;
    if n > 0 {
      RunOne(max, w, schedule, Step(i, Raised));
      longer := Drive(max, w, schedule + [Step(i, Raised)], i, n - 1);
    }
  }

  function Driven(max: int, w: World, i: nat, n: nat): World
    decreases n
  {
    if n == 0 then w else Driven(max, Do(max, w, Step(i, Raised)), i, n - 1)
  }

  /** Chains from i on walk up to the point where they have caught an exception but not counted it. */
  lemma {:induction false} ParkFrom(max: int, w: World, schedule: seq<Action>, i: nat) returns (longer: seq<Action>)
    requires var v := Run(max, w, schedule);
             i <= |v.chains| && forall k :: i <= k < |v.chains| ==> v.chains[k] == Scheduled
    ensures var v, v' := Run(max, w, schedule), Run(max, w, longer);
            && v'.attempts == v.attempts && |v'.chains| == |v.chains| && v'.chains[..i] == v.chains[..i]
            && forall k :: i <= k < |v.chains| ==> v'.chains[k] == Failing
    decreases |Run(max, w, schedule).chains| - i
  {
    longer := schedule;
    var v := Run(max, w, schedule);
    if i < |v.chains| {
      longer := Drive(max, w, schedule, i, 2);
      var v1 := Run(max, w, longer);
      assert v1.chains == v.chains[i := Failing] by {
        var u := Do(max, v, Step(i, Raised));
        assert u.chains == v.chains[i := Begun];
        assert v1 == Driven(max, u, i, 1) == Do(max, u, Step(i, Raised));
      }
      longer := ParkFrom(max, w, longer, i + 1);
    }
  }

  /** The parked chains count their failures, one after the other. */
  lemma {:induction false} FireFrom(max: int, w: World, schedule: seq<Action>, i: nat) returns (longer: seq<Action>)
    requires var v := Run(max, w, schedule);
             i <= |v.chains| && forall k :: i <= k < |v.chains| ==> v.chains[k] == Failing
    ensures var v, v' := Run(max, w, schedule), Run(max, w, longer);
            |v'.chains| == |v.chains| && v'.attempts == v.attempts + |v.chains| - i
    decreases |Run(max, w, schedule).chains| - i
  {
    longer := schedule;
    if i < |Run(max, w, schedule).chains| {
      RunOne(max, w, schedule, Step(i, Raised));
      longer := FireFrom(max, w, schedule + [Step(i, Raised)], i + 1);
    }
  }

  /** Chain 0 fails round after round, until the next failure it counts is number `top`. */
  lemma {:induction false} FailUpTo(max: int, w: World, schedule: seq<Action>, top: int) returns (longer: seq<Action>)
    requires var v := Run(max, w, schedule);
             |v.chains| > 0 && v.chains[0] == Scheduled && v.attempts < top && (top <= max || v.attempts == top - 1)
    ensures var v, v' := Run(max, w, schedule), Run(max, w, longer);
            |v'.chains| == |v.chains| && v'.chains[1..] == v.chains[1..] && v'.attempts == top
    decreases top - Run(max, w, schedule).attempts
  {
    var v := Run(max, w, schedule);
    longer := Drive(max, w, schedule, 0, 3);
    var v3 := Run(max, w, longer);
    assert v3 == Counts(v);
    if v3.attempts < top {
      longer := Drive(max, w, longer, 0, 4);
      assert Run(max, w, longer) == Returns(max, v3);
      longer := FailUpTo(max, w, longer, top);
    }
  }

  /** What the first three steps of a round do to chain 0, and the four that bring it back. */
  function Counts(v: World): World
    requires |v.chains| > 0 && v.chains[0] == Scheduled
  {
    v.(status := InProgress, attempts := v.attempts + 1, failures := v.failures + 1, chains := v.chains[0 := Counted])
  }

  function Returns(max: int, v: World): World
    requires |v.chains| > 0 && v.chains[0] == Counted && v.attempts < max
  {
    v.(status := Failed, chains := v.chains[0 := Scheduled])
  }

  /** The bound of `AttemptsBound` is met by some interleaving, for every number of launches. */
  lemma AttemptsBoundIsTight(max: int, start: int, launches: nat)
    requires launches > 0
    ensures exists schedule ::
              var w := Run(max, Start(start, launches), schedule);
              && |w.chains| == launches
              && w.attempts == Max(max, start + 1) + launches - 1
  {
    var w := Start(start, launches);
    assert Run(max, w, []) == w;
    var s := ParkFrom(max, w, [], 1);
    assert Run(max, w, s).chains[0] == Run(max, w, s).chains[..1][0] == Scheduled;
    s := FailUpTo(max, w, s, Max(max, start + 1));
    var v := Run(max, w, s);
    forall k | 1 <= k < |v.chains| ensures v.chains[k] == Failing {
      assert v.chains[k] == v.chains[1..][k - 1];
    }
    s := FireFrom(max, w, s, 1);
    assert |Run(max, w, s).chains| == launches;
  }
}
