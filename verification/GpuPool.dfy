/** The slot code itself: the search for a free lock, the body, and the cleanup, between interruptions. */
module GpuPool {
  import opened GpuSlots
  import opened Interleaving
  import opened Options

  predicate ForeignBatch(batch: seq<Action>, me: nat) {
    forall j :: 0 <= j < |batch| ==> batch[j].Tick? || batch[j].worker != me
  }

  predicate Foreign(noise: seq<seq<Action>>, me: nat) {
    forall i :: 0 <= i < |noise| ==> ForeignBatch(noise[i], me)
  }

  class Pool {
    const cfg: Config
    var now: int
    var locks: map<nat, Lease>
    var nextToken: nat
    var workers: seq<Worker>
    var inUse: int
    var acquired: nat
    var lost: nat
    /** What has happened since `start`. */
    ghost var moves: seq<Move<Action>>
    ghost var start: World

    constructor (cfg: Config, n: nat)
      ensures this.cfg == cfg && View() == Start(n) && moves == [] && start == View()
    {
      this.cfg := cfg;
      now, locks, nextToken, workers := 0, map[], 0, seq(n, _ => Idle);
      inUse, acquired, lost := 0, 0, 0;
      moves, start := [], Start(n);
    }

    function View(): World
      reads this
    {
      World(now, locks, nextToken, workers, inUse, acquired, lost)
    }

    /**
     Everything since `start` is a run of the slot protocol, made of the interference consumed so far, in
     order and complete, and of this worker's own steps, each of which had an effect.
     */
    ghost predicate Live(me: nat, noise: seq<seq<Action>>, rest: seq<seq<Action>>)
      reads this
    {
      && me < |workers|
      && View() == Run(cfg, start, Actions(moves))
      && Others(moves) + Flatten(rest) == Flatten(noise)
      && Effective(cfg, start, moves)
      && Foreign(rest, me)
    }

    /** An await: the next batch of foreign actions takes place, if there is one. */
    method Yield(me: nat, ghost noise: seq<seq<Action>>, rest: seq<seq<Action>>) returns (left: seq<seq<Action>>)
      requires Live(me, noise, rest)
      modifies this
      ensures Live(me, noise, left) && workers[me] == old(workers)[me]
      ensures Own(moves) == old(Own(moves)) && start == old(start)
      ensures rest == [] ==> left == [] && View() == old(View())
      ensures rest != [] ==> |left| == |rest| - 1
    {
      left := rest;
      if rest != [] {
        assert ForeignBatch(rest[0], me);
        RunByOthers(cfg, View(), rest[0], me);
        BatchAppend(cfg, start, moves, rest[0]);
        BatchAppended(moves, rest[0]);
        BatchWoven(moves, rest);
        var w := Run(cfg, View(), rest[0]);
        moves := moves + Foreigners(rest[0]);
        now, locks, nextToken, workers := w.now, w.locks, w.nextToken, w.workers;
        inUse, acquired, lost := w.inUse, w.acquired, w.lost;
        left := rest[1..];
      }
    }

    /** SET NX with the timeout; None when the slot is taken. */
    method Lock(slot: nat) returns (token: Option<nat>)
      modifies this`locks, this`nextToken
      ensures if slot in old(locks) then token == None && locks == old(locks) && nextToken == old(nextToken)
              else token == Some(old(nextToken)) && nextToken == old(nextToken) + 1
                   && locks == old(locks)[slot := Lease(old(nextToken), now + cfg.timeout)]
    {
      if slot in locks {
        return None;
      }
      token := Some(nextToken);
      locks := locks[slot := Lease(nextToken, now + cfg.timeout)];
      nextToken := nextToken + 1;
    }

    /** Records one own step that has just been taken. */
    ghost method Note(me: nat, noise: seq<seq<Action>>, rest: seq<seq<Action>>, before: World, a: Action)
      requires before == Run(cfg, start, Actions(moves)) && View() == Do(cfg, before, a) && View() != before
      requires Others(moves) + Flatten(rest) == Flatten(noise) && Effective(cfg, start, moves)
      requires Foreign(rest, me) && me < |workers|
      modifies this`moves
      ensures Live(me, noise, rest) && Own(moves) == old(Own(moves)) + [a]
    {
      MoveAppend(cfg, start, moves, Mine(a));
      moves := moves + [Mine(a)];
    }

    /** Tries one slot; on success the worker is running, and counted, before anything else can happen. */
    method TryEnter(me: nat, slot: nat, ghost noise: seq<seq<Action>>, ghost rest: seq<seq<Action>>)
      returns (entered: bool)
      requires Live(me, noise, rest) && workers[me].Waiting? && Candidate(cfg, workers[me].wanted, slot)
      modifies this
      ensures Live(me, noise, rest) && start == old(start)
      ensures entered <==> slot !in old(locks)
      ensures entered ==> workers[me].Running? && workers[me].slot == slot
      ensures entered ==> inUse == old(inUse) + 1 && acquired == old(acquired) + 1
      ensures Own(moves) == old(Own(moves)) + (if entered then [TryLock(me, slot)] else [])
      ensures !entered ==> View() == old(View())
    {
      ghost var before := View();
      var token := Lock(slot);
      if token.None? {
        return false;
      }
      Count(me, slot, token.value);
      Note(me, noise, rest, before, TryLock(me, slot));
      entered := true;
    }

    /** The worker runs with this lease, and is counted. */
    method Count(me: nat, slot: nat, token: nat)
      requires me < |workers| && workers[me].Waiting?
      modifies this`workers, this`inUse, this`acquired
      ensures workers == old(workers)[me := Running(slot, token, now, old(workers)[me].wanted.None?)]
      ensures inUse == old(inUse) + 1 && acquired == old(acquired) + 1
    {
      workers := workers[me := Running(slot, token, now, workers[me].wanted.None?)];
      inUse := inUse + 1;
      acquired := acquired + 1;
    }

    /**
     The search: the slot asked for, or every configured slot in turn, again and again. It stops
     without a lock only when nothing else is going to happen and every candidate is taken.
     */
    method AcquireSlot(me: nat, ghost noise: seq<seq<Action>>, rest: seq<seq<Action>>)
      returns (entered: bool, left: seq<seq<Action>>)
      requires Live(me, noise, rest) && workers[me].Waiting?
      modifies this
      ensures Live(me, noise, left) && start == old(start)
      ensures entered ==>
                && workers[me].Running? && Own(moves) == old(Own(moves)) + [TryLock(me, workers[me].slot)]
                && match old(workers)[me].wanted
                   case Some(slot) => workers[me].slot == slot
                   case None => workers[me].slot < cfg.slots
      ensures !entered ==>
                && workers[me] == old(workers)[me] && Own(moves) == old(Own(moves)) && left == []
                && match workers[me].wanted
                   case Some(slot) => slot in locks
                   case None => forall s: nat :: s < cfg.slots ==> s in locks
    {
      var wanted := workers[me].wanted;
      left := rest;
      while true
        invariant Live(me, noise, left) && workers[me] == old(workers)[me]
        invariant Own(moves) == old(Own(moves)) && start == old(start)
        decreases |left|
      {
        var quiet := left == [];
        entered, left := SearchOnce(me, noise, left);
        if entered || quiet {
          return;
        }
        left := Yield(me, noise, left);
      }
    }

    /** One pass over the candidates, an await before each. */
    method SearchOnce(me: nat, ghost noise: seq<seq<Action>>, rest: seq<seq<Action>>)
      returns (entered: bool, left: seq<seq<Action>>)
      requires Live(me, noise, rest) && workers[me].Waiting?
      modifies this
      ensures Live(me, noise, left) && start == old(start) && |left| <= |rest|
      ensures entered ==>
                && workers[me].Running? && Candidate(cfg, old(workers)[me].wanted, workers[me].slot)
                && Own(moves) == old(Own(moves)) + [TryLock(me, workers[me].slot)]
      ensures !entered ==> workers[me] == old(workers)[me] && Own(moves) == old(Own(moves))
      ensures !entered && rest == [] ==> forall s: nat :: Candidate(cfg, workers[me].wanted, s) ==> s in locks
    {
      var wanted := workers[me].wanted;
      var idx := if wanted.Some? then wanted.value else 0;
      var last := if wanted.Some? then wanted.value + 1 else cfg.slots;
      left := rest;
      while idx < last
        invariant Live(me, noise, left) && workers[me] == old(workers)[me] && |left| <= |rest|
        invariant Own(moves) == old(Own(moves)) && start == old(start)
        invariant wanted.Some? ==> wanted.value <= idx
        invariant rest == [] ==> left == [] && forall s: nat :: Candidate(cfg, wanted, s) && s < idx ==> s in locks
      {
        left := Yield(me, noise, left);
        entered := TryEnter(me, idx, noise, left);
        if entered {
          return;
        }
        idx := idx + 1;
      }
      entered := false;
    }

    /**
     One `gpu_slot` block: wait for a slot, run the body while others act, and clean up whether the
     body ended well or raised. The gauge goes down before the lock is given back, and the lock is
     deleted only if it is still this worker's. Since the call began the pool has made a run of the slot
     protocol out of the interference and exactly four steps of this worker, each of which took effect;
     only if every slot it could take stays locked for good it never gets past the first.
     */
    method GpuSlot(me: nat, wanted: Option<nat>, noise: seq<seq<Action>>)
      returns (ran: bool, slot: nat, left: seq<seq<Action>>)
      requires Foreign(noise, me) && me < |workers| && workers[me] == Idle
      modifies this
      ensures start == old(View()) && Live(me, noise, left)
      ensures ran ==> workers[me] == Idle && if wanted.Some? then slot == wanted.value else slot < cfg.slots
      ensures ran ==> Own(moves) == [Ask(me, wanted), TryLock(me, slot), Finish(me), Release(me)]
      ensures !ran ==> workers[me] == Waiting(wanted) && Own(moves) == [Ask(me, wanted)] && left == []
      ensures !ran && wanted.Some? ==> wanted.value in locks
      ensures !ran && wanted.None? ==> forall s: nat :: s < cfg.slots ==> s in locks
    {
      slot := 0;
      start, moves := View(), [];
      workers := workers[me := Waiting(wanted)];
      Note(me, noise, noise, start, Ask(me, wanted));
      ran, left := AcquireSlot(me, noise, noise);
      if !ran {
        return;
      }
      slot := workers[me].slot;
      left := RunBody(me, noise, left);
    }

    /** The body, during which others act, and the cleanup, with one more await before the release. */
    method RunBody(me: nat, ghost noise: seq<seq<Action>>, rest: seq<seq<Action>>) returns (left: seq<seq<Action>>)
      requires Live(me, noise, rest) && workers[me].Running?
      modifies this
      ensures Live(me, noise, left) && start == old(start) && workers[me] == Idle
      ensures Own(moves) == old(Own(moves)) + [Finish(me), Release(me)]
    {
      left := Yield(me, noise, rest);
      Leave(me, noise, left);
      left := Yield(me, noise, left);
      Unlock(me, noise, left);
    }

    method Leave(me: nat, ghost noise: seq<seq<Action>>, ghost rest: seq<seq<Action>>)
      requires Live(me, noise, rest) && workers[me].Running?
      modifies this
      ensures Live(me, noise, rest) && start == old(start) && Own(moves) == old(Own(moves)) + [Finish(me)]
      ensures workers[me].Releasing? && inUse == old(inUse) - 1 && locks == old(locks)
    {
      ghost var before := View();
      inUse := inUse - 1;
      workers := workers[me := Releasing(workers[me].slot, workers[me].token)];
      Note(me, noise, rest, before, Finish(me));
    }

    /** Compare and delete; a lease that is gone, or held by another token, is left as it is. */
    method Unlock(me: nat, ghost noise: seq<seq<Action>>, ghost rest: seq<seq<Action>>)
      requires Live(me, noise, rest) && workers[me].Releasing?
      modifies this
      ensures Live(me, noise, rest) && start == old(start) && Own(moves) == old(Own(moves)) + [Release(me)]
      ensures workers[me] == Idle && inUse == old(inUse)
      ensures var Releasing(slot, token) := old(workers)[me];
              var owned := slot in old(locks) && old(locks)[slot].token == token;
              && locks == (if owned then old(locks) - {slot} else old(locks))
              && lost == old(lost) + (if owned then 0 else 1)
    {
      ghost var before := View();
      var Releasing(slot, token) := workers[me];
      if slot in locks && locks[slot].token == token {
        locks := locks - {slot};
      } else {
        lost := lost + 1;
      }
      workers := workers[me := Idle];
      Note(me, noise, rest, before, Release(me));
    }
  }

  // The bookkeeping of a call

  /** Each own step changed the state it was taken in. */
  ghost predicate Effective(cfg: Config, w0: World, moves: seq<Move<Action>>)
    decreases |moves|
  {
    moves == [] ||
    (var n := |moves| - 1;
     && Effective(cfg, w0, moves[..n])
     && (moves[n].Mine? ==>
           Run(cfg, w0, Actions(moves[..n]) + [moves[n].action]) != Run(cfg, w0, Actions(moves[..n]))))
  }

  lemma MoveAppend(cfg: Config, w0: World, moves: seq<Move<Action>>, m: Move<Action>)
    ensures Run(cfg, w0, Actions(moves + [m])) == Do(cfg, Run(cfg, w0, Actions(moves)), m.action)
    ensures Others(moves + [m]) == Others(moves) + (if m.Theirs? then [m.action] else [])
    ensures Own(moves + [m]) == Own(moves) + (if m.Mine? then [m.action] else [])
    ensures Effective(cfg, w0, moves + [m]) <==>
            Effective(cfg, w0, moves)
            && (m.Mine? ==> Do(cfg, Run(cfg, w0, Actions(moves)), m.action) != Run(cfg, w0, Actions(moves)))
  {
    MoveAppended(moves, m);
    assert (moves + [m])[..|moves|] == moves;
    RunOne(cfg, w0, Actions(moves), m.action);
  }

  lemma {:induction false} BatchAppend(cfg: Config, w0: World, moves: seq<Move<Action>>, batch: seq<Action>)
    ensures var more := moves + Foreigners(batch);
            && Run(cfg, w0, Actions(more)) == Run(cfg, Run(cfg, w0, Actions(moves)), batch)
            && (Effective(cfg, w0, moves) ==> Effective(cfg, w0, more))
    decreases |batch|
  {
    if batch == [] {
      assert moves + Foreigners(batch) == moves;
    } else {
      var n := |batch| - 1;
      BatchAppend(cfg, w0, moves, batch[..n]);
      ForeignersSplit(moves, batch);
      MoveAppend(cfg, w0, moves + Foreigners(batch[..n]), Theirs(batch[n]));
      RunOne(cfg, Run(cfg, w0, Actions(moves)), batch[..n], batch[n]);
    }
  }

  /** An attempt that takes effect is an acquisition: a fresh lease, a running body, one more in the counters. */
  lemma EffectiveTryLock(cfg: Config, w: World, me: nat, slot: nat)
    requires Do(cfg, w, TryLock(me, slot)) != w
    ensures var w' := Do(cfg, w, TryLock(me, slot));
            && me < |w.workers| && w.workers[me].Waiting? && Candidate(cfg, w.workers[me].wanted, slot)
            && slot !in w.locks && slot in w'.locks && w'.locks[slot] == Lease(w.nextToken, w.now + cfg.timeout)
            && w'.workers[me].Running? && w'.inUse == w.inUse + 1 && w'.acquired == w.acquired + 1
  {
  }

  lemma {:induction false} RunConcat(cfg: Config, w: World, first: seq<Action>, second: seq<Action>)
    ensures Run(cfg, w, first + second) == Run(cfg, Run(cfg, w, first), second)
    decreases |first|
  {
    if first == [] {
      assert first + second == second;
    } else {
      assert (first + second)[1..] == first[1..] + second;
      RunConcat(cfg, Do(cfg, w, first[0]), first[1..], second);
    }
  }

  lemma RunOne(cfg: Config, w: World, trace: seq<Action>, a: Action)
    ensures Run(cfg, w, trace + [a]) == Do(cfg, Run(cfg, w, trace), a)
  {
    RunConcat(cfg, w, trace, [a]);
    assert Run(cfg, Run(cfg, w, trace), [a]) == Run(cfg, Do(cfg, Run(cfg, w, trace), a), []);
  }

  lemma {:induction false} RunByOthers(cfg: Config, w: World, batch: seq<Action>, me: nat)
    requires me < |w.workers| && ForeignBatch(batch, me)
    ensures var w' := Run(cfg, w, batch);
            |w'.workers| == |w.workers| && w'.workers[me] == w.workers[me]
    decreases |batch|
  {
    if batch != [] {
      assert batch[0].Tick? || batch[0].worker != me;
      RunByOthers(cfg, Do(cfg, w, batch[0]), batch[1..], me);
      assert Run(cfg, w, batch) == Run(cfg, Do(cfg, w, batch[0]), batch[1..]);
    }
  }
}
