/** One publish task: its row, one attempt at publishing it, and a chain of attempts run to its end. */
module PublishTasks {
  import opened Options

  datatype Status = Pending | InProgress | Succeeded | Failed

  /**
   How one attempt ends: a listing, a policy rejection (nsfw or trademarked), or one of the caught
   exception kinds.
   */
  datatype Outcome = Published | Rejected | Raised

  function Max(a: int, b: int): int {
    if a < b then b else a
  }

  /**
   A chain that starts at count `start` and whose k-th attempt goes as `outcomes(k)` ends after `runs`
   attempts: each but the last raised and left room for another, and the last did not.
   */
  predicate EndsAfter(outcomes: nat -> Outcome, maxAttempts: int, start: int, runs: nat) {
    && runs >= 1
    && (forall k: nat :: k < runs - 1 ==> outcomes(k) == Raised && start + k + 1 < maxAttempts)
    && (outcomes(runs - 1) == Raised ==> start + runs >= maxAttempts)
  }

  /** The outcomes determine how many attempts there are. */
  lemma EndsOnce(outcomes: nat -> Outcome, maxAttempts: int, start: int, a: nat, b: nat)
    requires EndsAfter(outcomes, maxAttempts, start, a) && EndsAfter(outcomes, maxAttempts, start, b)
    ensures a == b
  {
    var k, l := a - 1, b - 1;
    assert outcomes(k) == Raised || outcomes(k) != Raised;
    assert outcomes(l) == Raised || outcomes(l) != Raised;
  }

  class PublishTask {
    var status: Status
    var attempts: int
    /** How often notify_failure has been called for this task. */
    var notified: nat

    constructor ()
      ensures status == Pending && attempts == 0 && notified == 0
    {
      status, attempts, notified := Pending, 0, 0;
    }

    method UpdateStatus(s: Status)
      modifies this`status
      ensures status == s
    {
      status := s;
    }

    method IncrementAttempts()
      modifies this`attempts
      ensures attempts == old(attempts) + 1
    {
      attempts := attempts + 1;
    }

    /** One attempt; None means it raised and may be tried again. */
    method PublishWithRetry(outcome: Outcome, maxAttempts: int) returns (listing: Option<Outcome>)
      modifies this
      ensures listing == if outcome.Raised? then None else Some(outcome)
      ensures status == if outcome.Published? then Succeeded else Failed
      ensures attempts == old(attempts) + (if outcome.Raised? then 1 else 0)
      ensures notified == old(notified)
                          + (if outcome.Rejected? || (outcome.Raised? && attempts >= maxAttempts) then 1 else 0)
    {
      UpdateStatus(InProgress);
      match outcome
      case Published =>
        UpdateStatus(Succeeded);
        return Some(Published);
      case Rejected =>
        UpdateStatus(Failed);
        notified := notified + 1;
        return Some(Rejected);
      case Raised =>
        IncrementAttempts();
        UpdateStatus(Failed);
        if attempts >= maxAttempts {
          notified := notified + 1;
        }
        return None;
    }

    /**
     A launch and every reschedule it causes, nothing else touching the task; `outcomes(k)` is how
     the k-th attempt goes. The chain ends after `runs` attempts, all but the last of which raised;
     a failed ending is announced exactly once, a success never.
     */
    method BackgroundPublish(outcomes: nat -> Outcome, maxAttempts: int) returns (runs: nat)
      modifies this
      ensures EndsAfter(outcomes, maxAttempts, old(attempts), runs)
      ensures 1 <= runs <= Max(1, maxAttempts - old(attempts))
      ensures forall k :: 0 <= k < runs - 1 ==> outcomes(k) == Raised
      ensures outcomes(runs - 1) == Raised ==> attempts >= maxAttempts
      ensures attempts == old(attempts) + (if outcomes(runs - 1) == Raised then runs else runs - 1)
      ensures status == if outcomes(runs - 1) == Published then Succeeded else Failed
      ensures notified == old(notified) + (if status == Failed then 1 else 0)
    {
      runs := 0;
      while true
        invariant attempts == old(attempts) + runs && notified == old(notified)
        invariant forall k: nat :: k < runs ==> outcomes(k) == Raised && old(attempts) + k + 1 < maxAttempts
        invariant runs > 0 ==> attempts < maxAttempts
        decreases maxAttempts - attempts
      {
        var listing := PublishWithRetry(outcomes(runs), maxAttempts);
        runs := runs + 1;
        if listing == None && attempts < maxAttempts {
          continue;
        }
        return;
      }
    }
  }
}
