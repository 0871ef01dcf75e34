/**
 The limiters as the source writes them: a retry loop that talks to Redis one command at a time.

 At every await the other clients and the clock may act. What they do there is an argument, one
 batch of actions per await, so the contracts hold for every interference. Each loop is shown to
 be a run of the protocol of TokenBucket, to which the theorems about all schedules apply.
 */
module RateLimiters {
  import opened Interleaving
  import opened Options
  import opened TokenBucket

  /**
   The key of one bucket in Redis, with the connections of its clients. Each command is shown to be
   the step the protocol has a client take in that state.
   */
  class RedisBucket {
    const cfg: Config
    var w: World

    constructor (cfg: Config, clients: nat, now: int)
      requires cfg.window > 0
      ensures this.cfg == cfg && w == Start(clients, now) && Inv(cfg, w)
    {
      this.cfg := cfg;
      w := Start(clients, now);
      StartInv(cfg, clients, now);
    }

    method Watch(me: nat)
      requires me < |w.conns|
      requires w.conns[me].Idle? || (w.conns[me].Asleep? && w.conns[me].until <= w.now)
      modifies this
      ensures w == ClientStep(cfg, old(w), me)
      ensures w == old(w).(conns := old(w).conns[me := Watching(old(w).version)])
    {
      w := w.(conns := w.conns[me := Watching(w.version)]);
    }

    /**
     The stored tokens, or None. In a reachable state None means that no life of the key is current, and
     a number is what the current life has left of the limit.
     */
    method Get() returns (raw: Option<int>)
      ensures raw == if w.key.Absent? then None else Some(w.key.tokens)
      ensures Inv(cfg, w) && raw.Some? ==>
                |w.lives| > 0 && w.now < w.lives[CurrentLife(w)].born + cfg.window
                && raw.value == cfg.limit - GrantsIn(w.grants, CurrentLife(w))
      ensures Inv(cfg, w) && raw.None? ==> forall i :: 0 <= i < |w.lives| ==> w.lives[i].born + cfg.window <= w.now
    {
      raw := if w.key.Absent? then None else Some(w.key.tokens);
    }

    /** MULTI and the command that suits the answer of GET, buffered until EXEC. */
    method Multi(me: nat, command: Command)
      requires me < |w.conns| && w.conns[me].Watching?
      requires command == if w.key.Absent? then SetEx(cfg.limit - 1, cfg.window) else Decr
      requires w.key.Present? ==> w.key.tokens > 0
      modifies this
      ensures w == ClientStep(cfg, old(w), me)
      ensures w == old(w).(conns := old(w).conns[me := Queued(old(w).conns[me].seen, command)])
    {
      w := w.(conns := w.conns[me := Queued(w.conns[me].seen, command)]);
    }

    /** EXEC; false stands for the WatchError it raises when the key changed since WATCH. */
    method Exec(me: nat) returns (committed: bool)
      requires me < |w.conns| && w.conns[me].Queued?
      modifies this
      ensures committed <==> old(w).version == old(w).conns[me].seen
      ensures w == ClientStep(cfg, old(w), me) && w.conns[me] == Idle
      ensures |w.grants| == |old(w).grants| + (if committed then 1 else 0) && w.denials == old(w).denials
      ensures w.now == old(w).now
    {
      var Queued(seen, command) := w.conns[me];
      committed := w.version == seen;
      if committed {
        w := w.(key := Apply(command, w.key, w.now),
                version := w.version + 1,
                lives := if command.SetEx? then w.lives + [Life(w.now, |w.grants|)] else w.lives,
                conns := w.conns[me := Idle]);
        w := w.(grants := w.grants + [Grant(me, w.now, CurrentLife(w))]);
      } else {
        w := w.(conns := w.conns[me := Idle], retries := w.retries + 1);
      }
    }

    /** The client gives up on what GET returned. */
    method GiveUp(me: nat)
      requires me < |w.conns| && w.conns[me].Watching? && w.key.Present? && w.key.tokens <= 0
      modifies this
      ensures w == ClientStep(cfg, old(w), me) && w.conns[me] == Refused
      ensures |w.denials| == |old(w).denials| + 1 && w.grants == old(w).grants
      ensures w.key == old(w).key && w.now == old(w).now
    {
      w := w.(conns := w.conns[me := Refused], denials := w.denials + [Denial(me, w.now, CurrentLife(w))]);
    }

    method Unwatch(me: nat)
      requires me < |w.conns| && w.conns[me] == Refused
      modifies this
      ensures w == ClientStep(cfg, old(w), me)
      ensures w == old(w).(conns := old(w).conns[me := if cfg.blocking then Asleep(old(w).now + cfg.window) else Idle])
    {
      w := w.(conns := w.conns[me := if cfg.blocking then Asleep(w.now + cfg.window) else Idle]);
    }
  }

  /** How one pass of the loop ends; a conflict is a WatchError. */
  datatype Attempt = Committed | Conflict | Refusal

  /** What time does to a key. */
  function Swept(key: Key, now: int): Key {
    if Expired(key, now) then Absent else key
  }

  /** So many windows, n * window. */
  function Windows(n: nat, window: int): int {
    if n == 0 then 0 else Windows(n - 1, window) + window
  }

  /** A request made now would be granted. */
  predicate HasToken(w: World) {
    w.key.Absent? || w.key.tokens > 0
  }

  /**
   One client's pipeline. `rest` holds the interference still to come; `moves` what has happened
   since `start`, foreign actions and own steps interleaved.
   */
  class Pipeline {
    const redis: RedisBucket
    const me: nat
    const noise: seq<seq<Action>>
    ghost const start: World
    var rest: seq<seq<Action>>
    var moves: seq<Move<Action>>

    constructor (redis: RedisBucket, me: nat, noise: seq<seq<Action>>)
      requires me < |redis.w.conns| && Foreign(noise, me)
      ensures this.redis == redis && this.me == me && this.noise == noise && start == redis.w
      ensures rest == noise && Live(0, 0) && Naps(moves) == 0
    {
      this.redis := redis;
      this.me := me;
      this.noise := noise;
      this.start := redis.w;
      rest := noise;
      moves := [];
    }

    /**
     The call so far is a run of the protocol with so many grants and denials to this client, in which
     the foreign actions are the interference consumed so far, in order and complete.
     */
    ghost predicate Live(grants: nat, denials: nat)
      reads this, redis
    {
      && InCall(redis.cfg, start, redis.w, moves, me, grants, denials)
      && Foreign(rest, me)
      && Others(moves) + Flatten(rest) == Flatten(noise)
    }

    /** One nap per refusal, and a window gone by in each, exactly so without interference. */
    ghost predicate Waited(refusals: nat)
      reads this, redis
    {
      && Naps(moves) == refusals
      && redis.w.now >= start.now + Windows(refusals, redis.cfg.window)
      && (noise == [] ==> rest == [] && redis.w.now == start.now + Windows(refusals, redis.cfg.window))
    }

    /** Without interference an empty bucket costs one nap, after which there is a token. */
    ghost predicate Quiet(refusals: nat)
      reads this, redis
    {
      noise == [] ==>
        if refusals == 0 then HasToken(redis.w) == HasToken(start)
        else refusals == 1 && !HasToken(start) && HasToken(redis.w)
    }

    /** The naps of a call that has got its token. */
    ghost predicate Settled(refusals: nat)
      reads this, redis
    {
      Waited(refusals) && (noise == [] ==> refusals == if HasToken(start) then 0 else 1)
    }

    /** Between two passes of the blocking loop. */
    ghost predicate Ready(refusals: nat)
      reads this, redis
    {
      && Live(0, refusals) && Waited(refusals) && Quiet(refusals)
      && (redis.w.conns[me].Idle? || (redis.w.conns[me].Asleep? && redis.w.conns[me].until <= redis.w.now))
    }

    ghost function Conn(): Conn
      reads redis
      requires me < |redis.w.conns|
    {
      redis.w.conns[me]
    }

    /** An await: the next batch of foreign actions takes place, if there is one. */
    method Yield(ghost grants: nat, ghost denials: nat)
      requires Live(grants, denials)
      modifies this, redis
      ensures Live(grants, denials) && Conn() == old(Conn()) && old(redis.w).now <= redis.w.now
      ensures Naps(moves) == old(Naps(moves))
      ensures old(rest) == [] ==> rest == [] && redis.w == old(redis.w)
      ensures old(rest) != [] ==> |rest| == |old(rest)| - 1
    {
      if rest != [] {
        NoiseInCall(redis.cfg, start, redis.w, moves, me, grants, denials, rest);
        redis.w := Run(redis.cfg, redis.w, rest[0]);
        moves, rest := moves + Foreigners(rest[0]), rest[1..];
      }
    }

    method Watch(ghost grants: nat, ghost denials: nat)
      requires Live(grants, denials)
      requires Conn().Idle? || (Conn().Asleep? && Conn().until <= redis.w.now)
      modifies this, redis
      ensures Live(grants, denials) && Conn() == Watching(redis.w.version)
      ensures Naps(moves) == old(Naps(moves)) && old(redis.w).now <= redis.w.now
      ensures old(rest) == [] ==> rest == [] && redis.w.key == old(redis.w).key && redis.w.now == old(redis.w).now
      ensures old(rest) != [] ==> |rest| == |old(rest)| - 1
    {
      Yield(grants, denials);
      WatchInCall(redis.cfg, start, redis.w, moves, me, grants, denials);
      redis.Watch(me);
      moves := moves + [Mine(Step(me))];
    }

    method Get(ghost grants: nat, ghost denials: nat) returns (raw: Option<int>)
      requires Live(grants, denials)
      modifies this, redis
      ensures Live(grants, denials) && Conn() == old(Conn())
      ensures Naps(moves) == old(Naps(moves)) && old(redis.w).now <= redis.w.now
      ensures raw == if redis.w.key.Absent? then None else Some(redis.w.key.tokens)
      ensures old(rest) == [] ==> rest == [] && redis.w == old(redis.w)
      ensures old(rest) != [] ==> |rest| == |old(rest)| - 1
    {
      Yield(grants, denials);
      raw := redis.Get();
    }

    /** Queues a command without an await, then awaits EXEC. */
    method MultiExec(command: Command, ghost grants: nat, ghost denials: nat) returns (committed: bool)
      requires Live(grants, denials) && Conn().Watching?
      requires command == if redis.w.key.Absent? then SetEx(redis.cfg.limit - 1, redis.cfg.window) else Decr
      requires redis.w.key.Present? ==> redis.w.key.tokens > 0
      modifies this, redis
      ensures Live(grants + (if committed then 1 else 0), denials) && Conn() == Idle
      ensures Naps(moves) == old(Naps(moves)) && old(redis.w).now <= redis.w.now
      ensures old(rest) == [] ==>
                rest == [] && redis.w.now == old(redis.w).now
                && (old(Conn()).seen == old(redis.w).version ==> committed)
      ensures old(rest) != [] ==> |rest| == |old(rest)| - 1
    {
      StepInCall(redis.cfg, start, redis.w, moves, me, grants, denials, grants, denials);
      redis.Multi(me, command);
      moves := moves + [Mine(Step(me))];
      Yield(grants, denials);
      committed := Execute(grants, denials);
    }

    method Execute(ghost grants: nat, ghost denials: nat) returns (committed: bool)
      requires Live(grants, denials) && Conn().Queued?
      modifies this`moves, redis
      ensures Live(grants + (if committed then 1 else 0), denials) && Conn() == Idle
      ensures Naps(moves) == old(Naps(moves)) && old(redis.w).now == redis.w.now
      ensures committed <==> old(Conn()).seen == old(redis.w).version
    {
      ExecInCall(redis.cfg, start, redis.w, moves, me, grants, denials);
      committed := redis.Exec(me);
      moves := moves + [Mine(Step(me))];
    }

    /** Gives up on the answer of GET, then awaits UNWATCH. */
    method Refuse(ghost grants: nat, ghost denials: nat)
      requires Live(grants, denials) && Conn().Watching?
      requires redis.w.key.Present? && redis.w.key.tokens <= 0
      modifies this, redis
      ensures Live(grants, denials + 1) && Naps(moves) == old(Naps(moves))
      ensures Conn() == if redis.cfg.blocking then Asleep(redis.w.now + redis.cfg.window) else Idle
      ensures old(redis.w).now <= redis.w.now
      ensures old(rest) == [] ==> rest == [] && redis.w.key == old(redis.w).key && redis.w.now == old(redis.w).now
      ensures old(rest) != [] ==> |rest| == |old(rest)| - 1
    {
      Deny(grants, denials);
      Yield(grants, denials + 1);
      Unwatch(grants, denials + 1);
    }

    method Deny(ghost grants: nat, ghost denials: nat)
      requires Live(grants, denials) && Conn().Watching?
      requires redis.w.key.Present? && redis.w.key.tokens <= 0
      modifies this`moves, redis
      ensures Live(grants, denials + 1) && Conn() == Refused && Naps(moves) == old(Naps(moves))
      ensures redis.w.key == old(redis.w).key && redis.w.now == old(redis.w).now
    {
      StepInCall(redis.cfg, start, redis.w, moves, me, grants, denials, grants, denials + 1);
      redis.GiveUp(me);
      moves := moves + [Mine(Step(me))];
    }

    method Unwatch(ghost grants: nat, ghost denials: nat)
      requires Live(grants, denials) && Conn() == Refused
      modifies this`moves, redis
      ensures Live(grants, denials) && Naps(moves) == old(Naps(moves))
      ensures Conn() == if redis.cfg.blocking then Asleep(redis.w.now + redis.cfg.window) else Idle
      ensures redis.w.key == old(redis.w).key && redis.w.now == old(redis.w).now
    {
      StepInCall(redis.cfg, start, redis.w, moves, me, grants, denials, grants, denials);
      redis.Unwatch(me);
      moves := moves + [Mine(Step(me))];
    }

    /** One pass of the retry loop. With no interference left a bucket with a token is granted. */
    method Attempt(ghost grants: nat, ghost denials: nat) returns (result: Attempt)
      requires Live(grants, denials)
      requires Conn().Idle? || (Conn().Asleep? && Conn().until <= redis.w.now)
      modifies this, redis
      ensures Live(if result.Committed? then grants + 1 else grants, if result.Refusal? then denials + 1 else denials)
      ensures Conn() == if result.Refusal? && redis.cfg.blocking then Asleep(redis.w.now + redis.cfg.window) else Idle
      ensures Naps(moves) == old(Naps(moves)) && old(redis.w).now <= redis.w.now
      ensures |rest| <= |old(rest)| && (result.Conflict? ==> |rest| < |old(rest)|)
      ensures old(rest) != [] ==> |rest| < |old(rest)|
      ensures old(rest) == [] ==>
                rest == [] && redis.w.now == old(redis.w).now
                && result == if HasToken(old(redis.w)) then Committed else Refusal
      ensures old(rest) == [] && result.Refusal? ==> redis.w.key == old(redis.w).key
    {
      Watch(grants, denials);
      var raw := Get(grants, denials);
      var committed: bool;
      if raw.None? {
        committed := MultiExec(SetEx(redis.cfg.limit - 1, redis.cfg.window), grants, denials);
      } else if raw.value <= 0 {
        Refuse(grants, denials);
        return Refusal;
      } else {
        committed := MultiExec(Decr, grants, denials);
      }
      result := if committed then Committed else Conflict;
    }

    /** One pass of the blocking loop: a refused client sleeps a window, in which the bucket expires. */
    method AttemptOrSleep(ghost refusals: nat) returns (result: Attempt)
      requires redis.cfg.blocking && Inv(redis.cfg, start) && Ready(refusals)
      modifies this, redis
      ensures result.Committed? ==> Live(1, refusals) && Settled(refusals) && Conn() == Idle
      ensures result.Conflict? ==> Ready(refusals) && |rest| < |old(rest)|
      ensures result.Refusal? ==> Ready(refusals + 1)
      ensures result.Refusal? ==>
                |rest| < |old(rest)| || (rest == [] && old(redis.w).key.Present? && redis.w.key.Absent?)
    {
      result := Attempt(0, refusals);
      if result.Refusal? {
        KeyExpiresWithinWindow(redis.cfg, start, redis.w, Actions(moves));
        Sleep(redis.w.now + redis.cfg.window, 0, refusals + 1);
      }
    }

    /** The blocking loop: passes and naps until one pass commits. */
    method Block() returns (refusals: nat)
      requires redis.cfg.blocking && Inv(redis.cfg, start) && Ready(0)
      modifies this, redis
      ensures Live(1, refusals) && Settled(refusals) && Conn() == Idle
    {
      refusals := 0;
      while true
        invariant Ready(refusals)
        decreases |rest|, if redis.w.key.Present? then 1 else 0
      {
        var result := AttemptOrSleep(refusals);
        if result.Committed? {
          return;
        }
        if result.Refusal? {
          refusals := refusals + 1;
        }
      }
    }

    /**
     `asyncio.sleep`: whatever happens meanwhile, the client resumes no earlier than `until`. Time the
     interference has not used up passes in one tick of this client's own.
     */
    method Sleep(until: int, ghost grants: nat, ghost denials: nat)
      requires Live(grants, denials)
      modifies this, redis
      ensures Live(grants, denials) && Conn() == old(Conn())
      ensures until <= redis.w.now && old(redis.w).now <= redis.w.now
      ensures Naps(moves) == old(Naps(moves)) + 1
      ensures old(rest) == [] ==>
                rest == [] && redis.w.key == Swept(old(redis.w).key, redis.w.now)
                && redis.w.now == if until > old(redis.w).now then until else old(redis.w).now
      ensures old(rest) != [] ==> |rest| == |old(rest)| - 1
    {
      Yield(grants, denials);
      Nap(if until > redis.w.now then until - redis.w.now else 0, grants, denials);
    }

    method Nap(elapsed: nat, ghost grants: nat, ghost denials: nat)
      requires Live(grants, denials)
      modifies this`moves, redis
      ensures Live(grants, denials) && Conn() == old(Conn())
      ensures redis.w.now == old(redis.w).now + elapsed && redis.w.key == Swept(old(redis.w).key, redis.w.now)
      ensures Naps(moves) == old(Naps(moves)) + 1
    {
      NapInCall(redis.cfg, start, redis.w, moves, me, grants, denials, elapsed);
      redis.w := Advance(redis.w, elapsed);
      moves := moves + [Mine(Tick(elapsed))];
    }
  }

  // The bookkeeping of a call in progress

  predicate Foreign(noise: seq<seq<Action>>, me: nat) {
    forall i :: 0 <= i < |noise| ==> ForeignBatch(noise[i], me)
  }

  predicate ForeignBatch(batch: seq<Action>, me: nat) {
    forall j :: 0 <= j < |batch| ==> batch[j] != Step(me)
  }

  /** How often this client let time pass by sleeping. */
  function Naps(moves: seq<Move<Action>>): nat {
    Ticks(Own(moves))
  }

  function Ticks(actions: seq<Action>): nat {
    if actions == [] then 0
    else Ticks(actions[..|actions| - 1]) + (if actions[|actions| - 1].Tick? then 1 else 0)
  }

  /** `w` is where `moves` lead from `w0`, with so many grants and denials to this client on the way. */
  ghost predicate InCall(cfg: Config, w0: World, w: World, moves: seq<Move<Action>>, me: nat, grants: nat,
                         denials: nat) {
    && w == Run(cfg, w0, Actions(moves))
    && me < |w.conns|
    && GrantsOf(w.grants, me) == GrantsOf(w0.grants, me) + grants
    && DenialsOf(w.denials, me) == DenialsOf(w0.denials, me) + denials
    && OwnSteps(moves, me)
  }

  /** What the client did itself is take steps and sleep. */
  ghost predicate OwnSteps(moves: seq<Move<Action>>, me: nat) {
    forall i :: 0 <= i < |moves| && moves[i].Mine? ==> moves[i].action.Tick? || moves[i].action == Step(me)
  }

  lemma RunAppend(cfg: Config, w0: World, schedule: seq<Action>, a: Action)
    ensures Run(cfg, w0, schedule + [a]) == Do(cfg, Run(cfg, w0, schedule), a)
  {
    RunConcat(cfg, w0, schedule, [a]);
    assert [a][1..] == [];
    assert Run(cfg, Run(cfg, w0, schedule), [a]) == Run(cfg, Do(cfg, Run(cfg, w0, schedule), a), []);
  }

  lemma OwnStepsAppend(moves: seq<Move<Action>>, m: Move<Action>, me: nat)
    requires OwnSteps(moves, me) && (m.Mine? ==> m.action.Tick? || m.action == Step(me))
    ensures OwnSteps(moves + [m], me)
  {
  }

  lemma OwnMove(moves: seq<Move<Action>>, a: Action)
    ensures Actions(moves + [Mine(a)]) == Actions(moves) + [a] && Others(moves + [Mine(a)]) == Others(moves)
    ensures Naps(moves + [Mine(a)]) == Naps(moves) + (if a.Tick? then 1 else 0)
  {
    MoveAppended(moves, Mine(a));
    assert (Own(moves) + [a])[..|Own(moves)|] == Own(moves);
  }

  lemma GrantsOfAppend(grants: seq<Grant>, g: Grant, me: nat)
    ensures GrantsOf(grants + [g], me) == GrantsOf(grants, me) + (if g.client == me then 1 else 0)
  {
    assert (grants + [g])[..|grants|] == grants;
  }

  lemma DenialsOfAppend(denials: seq<Denial>, d: Denial, me: nat)
    ensures DenialsOf(denials + [d], me) == DenialsOf(denials, me) + (if d.client == me then 1 else 0)
  {
    assert (denials + [d])[..|denials|] == denials;
  }

  lemma DoByOther(cfg: Config, w: World, a: Action, me: nat)
    requires me < |w.conns| && a != Step(me)
    ensures var w' := Do(cfg, w, a);
            && |w'.conns| == |w.conns| && w'.conns[me] == w.conns[me] && w.now <= w'.now
            && GrantsOf(w'.grants, me) == GrantsOf(w.grants, me)
            && DenialsOf(w'.denials, me) == DenialsOf(w.denials, me)
  {
    var w' := Do(cfg, w, a);
    if |w'.grants| > |w.grants| { GrantsOfAppend(w.grants, w'.grants[|w.grants|], me); }
    if |w'.denials| > |w.denials| { DenialsOfAppend(w.denials, w'.denials[|w.denials|], me); }
  }

  /** Foreign actions neither move this client's connection nor grant or deny it anything. */
  lemma {:induction false} RunByOthers(cfg: Config, w: World, batch: seq<Action>, me: nat)
    requires me < |w.conns| && ForeignBatch(batch, me)
    ensures var w' := Run(cfg, w, batch);
            && |w'.conns| == |w.conns| && w'.conns[me] == w.conns[me] && w.now <= w'.now
            && GrantsOf(w'.grants, me) == GrantsOf(w.grants, me)
            && DenialsOf(w'.denials, me) == DenialsOf(w.denials, me)
    decreases |batch|
  {
    if batch != [] {
      assert batch[0] != Step(me);
      DoByOther(cfg, w, batch[0], me);
      RunByOthers(cfg, Do(cfg, w, batch[0]), batch[1..], me);
      assert Run(cfg, w, batch) == Run(cfg, Do(cfg, w, batch[0]), batch[1..]);
    }
  }

  lemma NoiseInCall(cfg: Config, w0: World, w: World, moves: seq<Move<Action>>, me: nat, grants: nat, denials: nat,
                    noise: seq<seq<Action>>)
    requires InCall(cfg, w0, w, moves, me, grants, denials)
    requires noise != [] && Foreign(noise, me)
    ensures var w' := Run(cfg, w, noise[0]);
            && InCall(cfg, w0, w', moves + Foreigners(noise[0]), me, grants, denials)
            && w'.conns[me] == w.conns[me] && w.now <= w'.now
    ensures Foreign(noise[1..], me)
    ensures Others(moves + Foreigners(noise[0])) + Flatten(noise[1..]) == Others(moves) + Flatten(noise)
    ensures Naps(moves + Foreigners(noise[0])) == Naps(moves)
  {
    assert ForeignBatch(noise[0], me);
    BatchInCall(cfg, w0, w, moves, me, grants, denials, noise[0]);
    BatchAppended(moves, noise[0]);
    BatchWoven(moves, noise);
  }

  lemma BatchInCall(cfg: Config, w0: World, w: World, moves: seq<Move<Action>>, me: nat, grants: nat, denials: nat,
                    batch: seq<Action>)
    requires InCall(cfg, w0, w, moves, me, grants, denials) && ForeignBatch(batch, me)
    ensures var w' := Run(cfg, w, batch);
            && InCall(cfg, w0, w', moves + Foreigners(batch), me, grants, denials)
            && w'.conns[me] == w.conns[me] && w.now <= w'.now
  {
    RunByOthers(cfg, w, batch, me);
    RunConcat(cfg, w0, Actions(moves), batch);
    BatchAppended(moves, batch);
  }

  lemma NapInCall(cfg: Config, w0: World, w: World, moves: seq<Move<Action>>, me: nat, grants: nat, denials: nat,
                  elapsed: nat)
    requires InCall(cfg, w0, w, moves, me, grants, denials)
    ensures InCall(cfg, w0, Advance(w, elapsed), moves + [Mine(Tick(elapsed))], me, grants, denials)
    ensures Others(moves + [Mine(Tick(elapsed))]) == Others(moves)
    ensures Naps(moves + [Mine(Tick(elapsed))]) == Naps(moves) + 1
    ensures var w' := Advance(w, elapsed);
            w'.conns == w.conns && w'.now == w.now + elapsed && w'.key == Swept(w.key, w'.now)
  {
    OwnMove(moves, Tick(elapsed));
    OwnStepsAppend(moves, Mine(Tick(elapsed)), me);
    RunAppend(cfg, w0, Actions(moves), Tick(elapsed));
  }

  lemma CountStep(cfg: Config, w: World, me: nat)
    requires me < |w.conns|
    ensures var w' := ClientStep(cfg, w, me);
            && GrantsOf(w'.grants, me) == GrantsOf(w.grants, me) + |w'.grants| - |w.grants|
            && DenialsOf(w'.denials, me) == DenialsOf(w.denials, me) + |w'.denials| - |w.denials|
  {
    var w' := ClientStep(cfg, w, me);
    if |w'.grants| > |w.grants| { GrantsOfAppend(w.grants, w'.grants[|w.grants|], me); }
    if |w'.denials| > |w.denials| { DenialsOfAppend(w.denials, w'.denials[|w.denials|], me); }
  }

  lemma StepInCall(cfg: Config, w0: World, w: World, moves: seq<Move<Action>>, me: nat, grants: nat, denials: nat,
                   moreGrants: nat, moreDenials: nat)
    requires InCall(cfg, w0, w, moves, me, grants, denials)
    requires var w' := ClientStep(cfg, w, me);
             && |w'.grants| == |w.grants| + moreGrants - grants
             && |w'.denials| == |w.denials| + moreDenials - denials
    ensures InCall(cfg, w0, ClientStep(cfg, w, me), moves + [Mine(Step(me))], me, moreGrants, moreDenials)
    ensures Others(moves + [Mine(Step(me))]) == Others(moves) && Naps(moves + [Mine(Step(me))]) == Naps(moves)
  {
    OwnMove(moves, Step(me));
    CountStep(cfg, w, me);
    OwnStepsAppend(moves, Mine(Step(me)), me);
    RunAppend(cfg, w0, Actions(moves), Step(me));
  }

  lemma ExecInCall(cfg: Config, w0: World, w: World, moves: seq<Move<Action>>, me: nat, grants: nat, denials: nat)
    requires InCall(cfg, w0, w, moves, me, grants, denials) && w.conns[me].Queued?
    ensures InCall(cfg, w0, ClientStep(cfg, w, me), moves + [Mine(Step(me))], me,
                   grants + (if w.version == w.conns[me].seen then 1 else 0), denials)
    ensures Others(moves + [Mine(Step(me))]) == Others(moves) && Naps(moves + [Mine(Step(me))]) == Naps(moves)
  {
    StepInCall(cfg, w0, w, moves, me, grants, denials,
               grants + (if w.version == w.conns[me].seen then 1 else 0), denials);
  }

  lemma WatchInCall(cfg: Config, w0: World, w: World, moves: seq<Move<Action>>, me: nat, grants: nat, denials: nat)
    requires InCall(cfg, w0, w, moves, me, grants, denials)
    requires w.conns[me].Idle? || (w.conns[me].Asleep? && w.conns[me].until <= w.now)
    ensures var w' := w.(conns := w.conns[me := Watching(w.version)]);
            InCall(cfg, w0, w', moves + [Mine(Step(me))], me, grants, denials)
    ensures Others(moves + [Mine(Step(me))]) == Others(moves) && Naps(moves + [Mine(Step(me))]) == Naps(moves)
  {
    StepInCall(cfg, w0, w, moves, me, grants, denials, grants, denials);
  }

  // The three limiters

  /**
   A finished call: a run of the protocol made of the interference, in order, and of this client's own
   steps, with so many grants, denials and naps of this client; it leaves the client idle.
   */
  ghost predicate Called(cfg: Config, w0: World, w: World, me: nat, noise: seq<seq<Action>>, rest: seq<seq<Action>>,
                         moves: seq<Move<Action>>, grants: nat, denials: nat, naps: nat)
  {
    && InCall(cfg, w0, w, moves, me, grants, denials)
    && Others(moves) + Flatten(rest) == Flatten(noise)
    && Naps(moves) == naps
    && w.conns[me] == Idle
    && Inv(cfg, w)
  }

  lemma CallEnds(cfg: Config, w0: World, w: World, me: nat, noise: seq<seq<Action>>, rest: seq<seq<Action>>,
                 moves: seq<Move<Action>>, grants: nat, denials: nat, naps: nat)
    requires Inv(cfg, w0) && InCall(cfg, w0, w, moves, me, grants, denials) && w.conns[me] == Idle
    requires Others(moves) + Flatten(rest) == Flatten(noise) && Naps(moves) == naps
    ensures Called(cfg, w0, w, me, noise, rest, moves, grants, denials, naps)
  {
    RunKeepsInv(cfg, w0, Actions(moves));
  }

  /**
   The retry loop the user and marketplace limiters share: one `acquire` against a bucket. The call
   is a run of the protocol in which this client completes exactly one request: a grant when it
   answers true, a denial otherwise; left alone, it is granted exactly if there is a token.
   */
  method AcquireToken(redis: RedisBucket, me: nat, noise: seq<seq<Action>>)
    returns (granted: bool, moves: seq<Move<Action>>, rest: seq<seq<Action>>)
    requires !redis.cfg.blocking && Inv(redis.cfg, redis.w)
    requires me < |redis.w.conns| && redis.w.conns[me] == Idle && Foreign(noise, me)
    modifies redis
    ensures Called(redis.cfg, old(redis.w), redis.w, me, noise, rest, moves,
                   if granted then 1 else 0, if granted then 0 else 1, 0)
    ensures noise == [] ==> granted == HasToken(old(redis.w))
  {
    var pipe := new Pipeline(redis, me, noise);
    while true
      invariant pipe.redis == redis && pipe.me == me && pipe.noise == noise && pipe.start == old(redis.w)
      invariant fresh(pipe) && pipe.Live(0, 0) && pipe.Conn() == Idle && Naps(pipe.moves) == 0
      invariant noise == [] ==> pipe.rest == [] && redis.w == old(redis.w)
      decreases |pipe.rest|
    {
      var result := pipe.Attempt(0, 0);
      if result.Conflict? {
        continue;
      }
      granted := result.Committed?;
      break;
    }
    moves, rest := pipe.moves, pipe.rest;
    CallEnds(redis.cfg, old(redis.w), redis.w, me, noise, rest, moves,
             if granted then 1 else 0, if granted then 0 else 1, 0);
  }

  function Lookup(limits: map<string, int>, name: string): Option<int> {
    if name in limits then Some(limits[name]) else None
  }

  /** A marketplace without a limit is let through untouched; any other shares one bucket per marketplace. */
  method AcquireForMarketplace(limits: map<string, int>, marketplace: string, redis: RedisBucket, me: nat,
                               noise: seq<seq<Action>>)
    returns (granted: bool, moves: seq<Move<Action>>, rest: seq<seq<Action>>)
    requires marketplace in limits ==> redis.cfg == Config(limits[marketplace], redis.cfg.window, false)
    requires Inv(redis.cfg, redis.w)
    requires me < |redis.w.conns| && redis.w.conns[me] == Idle && Foreign(noise, me)
    modifies redis
    ensures marketplace !in limits ==> granted && redis.w == old(redis.w) && moves == [] && rest == noise
    ensures marketplace in limits ==>
              Called(redis.cfg, old(redis.w), redis.w, me, noise, rest, moves,
                     if granted then 1 else 0, if granted then 0 else 1, 0)
              && (noise == [] ==> granted == HasToken(old(redis.w)))
  {
    var limit := Lookup(limits, marketplace);
    if limit.None? {
      return true, [], noise;
    }
    granted, moves, rest := AcquireToken(redis, me, noise);
  }

  /**
   The blocking limiter: an adapter with a limit of its own shares that bucket, any other one the default
   limit, and without a default it is let through untouched. A limited call returns only with a grant,
   after as many denials as naps, each of which let a window pass, and returns whenever the interference
   ends, because a client that slept a window wakes to a bucket that has expired. Left alone it never naps
   twice: not at all when the bucket has a token, and otherwise for exactly one window.
   */
  method AcquireForAdapter(limits: map<string, int>, adapter: string, redis: RedisBucket, me: nat,
                           noise: seq<seq<Action>>)
    returns (moves: seq<Move<Action>>, rest: seq<seq<Action>>, refusals: nat)
    requires adapter in limits ==> redis.cfg == Config(limits[adapter], redis.cfg.window, true)
    requires adapter !in limits && "default" in limits ==>
               redis.cfg == Config(limits["default"], redis.cfg.window, true)
    requires Inv(redis.cfg, redis.w)
    requires me < |redis.w.conns| && redis.w.conns[me] == Idle && Foreign(noise, me)
    modifies redis
    ensures adapter !in limits && "default" !in limits ==>
              redis.w == old(redis.w) && moves == [] && rest == noise && refusals == 0
    ensures adapter in limits || "default" in limits ==>
              && Called(redis.cfg, old(redis.w), redis.w, me, noise, rest, moves, 1, refusals, refusals)
              && redis.w.now >= old(redis.w).now + Windows(refusals, redis.cfg.window)
              && (noise == [] ==>
                    && refusals == (if HasToken(old(redis.w)) then 0 else 1)
                    && redis.w.now == old(redis.w).now + Windows(refusals, redis.cfg.window))
  {
    var limit := Lookup(limits, adapter);
    if limit.None? {
      limit := Lookup(limits, "default");
    }
    if limit.None? {
      return [], noise, 0;
    }
    moves, rest, refusals := AcquireBlocking(redis, me, noise);
  }

  /** The loop of the blocking limiter. */
  method AcquireBlocking(redis: RedisBucket, me: nat, noise: seq<seq<Action>>)
    returns (moves: seq<Move<Action>>, rest: seq<seq<Action>>, refusals: nat)
    requires redis.cfg.blocking && Inv(redis.cfg, redis.w)
    requires me < |redis.w.conns| && redis.w.conns[me] == Idle && Foreign(noise, me)
    modifies redis
    ensures Called(redis.cfg, old(redis.w), redis.w, me, noise, rest, moves, 1, refusals, refusals)
    ensures redis.w.now >= old(redis.w).now + Windows(refusals, redis.cfg.window)
    ensures noise == [] ==> refusals == (if HasToken(old(redis.w)) then 0 else 1)
                            && redis.w.now == old(redis.w).now + Windows(refusals, redis.cfg.window)
  {
    var pipe := new Pipeline(redis, me, noise);
    refusals := pipe.Block();
    moves, rest := pipe.moves, pipe.rest;
    CallEnds(redis.cfg, old(redis.w), redis.w, me, noise, rest, moves, 1, refusals, refusals);
  }

  lemma KeyExpiresWithinWindow(cfg: Config, w0: World, w: World, schedule: seq<Action>)
    requires Inv(cfg, w0) && w == Run(cfg, w0, schedule)
    ensures Expired(w.key, w.now + cfg.window) || w.key.Absent?
  {
    RunKeepsInv(cfg, w0, schedule);
  }
}
