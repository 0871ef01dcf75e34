/**
 The WATCH / GET / MULTI / EXEC protocol of the three limiters, over one Redis key.

 A client is its connection: what it watches and which command it has queued. One scheduler
 action lets one client take its next atomic step, or moves the clock. Every interleaving
 of any number of clients is therefore some sequence of actions, and the theorems below are
 about all sequences.
 */
module TokenBucket {
  import opened Options

  /**
   Times and the window count ticks of the clock, of whatever resolution. `blocking` is true for the
   adapter limiter, which sleeps a window instead of refusing.
   */
  datatype Config = Config(limit: int, window: int, blocking: bool)

  datatype Key = Absent | Present(tokens: int, deadline: Option<int>)

  datatype Command = SetEx(tokens: int, ex: int) | Decr

  datatype Conn =
    | Idle
    | Watching(seen: nat)
    | Queued(seen: nat, command: Command)
    | Refused
    | Asleep(until: int)

  datatype Grant = Grant(client: nat, time: int, life: nat)
  datatype Denial = Denial(client: nat, time: int, life: nat)

  /** One incarnation of the key: when it was created, and the index of the grant that created it. */
  datatype Life = Life(born: int, first: nat)

  /**
   `version` counts the changes of the key (writes and expiries), which is what WATCH observes.
   `lives`, `grants`, `denials`, `retries` and `expiries` record the run.
   */
  datatype World = World(
    now: int,
    key: Key,
    version: nat,
    conns: seq<Conn>,
    lives: seq<Life>,
    grants: seq<Grant>,
    denials: seq<Denial>,
    retries: nat,
    expiries: nat)

  datatype Action = Step(client: nat) | Tick(elapsed: nat)

  function Start(clients: nat, now: int): World {
    World(now, Absent, 0, seq(clients, _ => Idle), [], [], [], 0, 0)
  }

  // Redis commands

  /** What EXEC does to the key: SET with EX starts a life; DECR creates a missing key without an expiry. */
  function Apply(command: Command, key: Key, now: int): Key {
    match command
    case SetEx(tokens, ex) => Present(tokens, Some(now + ex))
    case Decr =>
      if key.Absent? then Present(-1, None) else key.(tokens := key.tokens - 1)
  }

  function Expired(key: Key, now: int): bool {
    key.Present? && key.deadline.Some? && key.deadline.value <= now
  }

  /** The clock moves; a key whose deadline has passed disappears, which dirties its watchers. */
  function Advance(w: World, elapsed: nat): World {
    var now := w.now + elapsed;
    if Expired(w.key, now) then
      w.(now := now, key := Absent, version := w.version + 1, expiries := w.expiries + 1)
    else
      w.(now := now)
  }

  // One client

  function WatchKey(w: World, c: nat): World
    requires c < |w.conns|
  {
    w.(conns := w.conns[c := Watching(w.version)])
  }

  /** GET, and the branch the client takes on its answer: queue a SET, queue a DECR, or give up. */
  function ReadKey(cfg: Config, w: World, c: nat, seen: nat): World
    requires c < |w.conns|
  {
    match w.key
    case Absent =>
      w.(conns := w.conns[c := Queued(seen, SetEx(cfg.limit - 1, cfg.window))])
    case Present(tokens, _) =>
      if tokens <= 0 then
        w.(conns := w.conns[c := Refused],
           denials := w.denials + [Denial(c, w.now, CurrentLife(w))])
      else
        w.(conns := w.conns[c := Queued(seen, Decr)])
  }

  /** EXEC: applies the queued command unless the key changed since WATCH. */
  function Execute(w: World, c: nat, seen: nat, command: Command): World
    requires c < |w.conns|
  {
    if w.version != seen then
      w.(conns := w.conns[c := Idle], retries := w.retries + 1)
    else
      var lives := if command.SetEx? then w.lives + [Life(w.now, |w.grants|)] else w.lives;
      var life := if |lives| == 0 then 0 else |lives| - 1;
      w.(key := Apply(command, w.key, w.now),
         version := w.version + 1,
         conns := w.conns[c := Idle],
         lives := lives,
         grants := w.grants + [Grant(c, w.now, life)])
  }

  function CurrentLife(w: World): nat {
    if |w.lives| == 0 then 0 else |w.lives| - 1
  }

  function ClientStep(cfg: Config, w: World, c: nat): World
    requires c < |w.conns|
  {
    match w.conns[c]
    case Idle => WatchKey(w, c)
    case Watching(seen) => ReadKey(cfg, w, c, seen)
    case Queued(seen, command) => Execute(w, c, seen, command)
    case Refused =>
      w.(conns := w.conns[c := if cfg.blocking then Asleep(w.now + cfg.window) else Idle])
    case Asleep(until) =>
      if w.now < until then w else WatchKey(w, c)
  }

  function Do(cfg: Config, w: World, a: Action): World {
    match a
    case Tick(elapsed) => Advance(w, elapsed)
    case Step(c) => if c < |w.conns| then ClientStep(cfg, w, c) else w
  }

  function Run(cfg: Config, w: World, schedule: seq<Action>): World
    decreases |schedule|
  {
    if schedule == [] then w
    else Run(cfg, Do(cfg, w, schedule[0]), schedule[1..])
  }

  lemma {:induction false} RunConcat(cfg: Config, w: World, first: seq<Action>, second: seq<Action>)
    ensures Run(cfg, w, first + second) == Run(cfg, Run(cfg, w, first), second)
    decreases |first|
  {
    if first == [] {
      assert first + second == second;
    } else {
      assert (first + second)[1..] == first[1..] + second;
      RunConcat(cfg, Do(cfg, w, first[0]), first[1..], second);
    }
  }

  // Counting over the recorded run

  function GrantsIn(grants: seq<Grant>, life: nat): nat {
    if grants == [] then 0
    else GrantsIn(grants[..|grants| - 1], life) + (if grants[|grants| - 1].life == life then 1 else 0)
  }

  function GrantsBetween(grants: seq<Grant>, from: int, to: int): nat {
    if grants == [] then 0
    else GrantsBetween(grants[..|grants| - 1], from, to)
         + (if from <= grants[|grants| - 1].time < to then 1 else 0)
  }

  function GrantsOf(grants: seq<Grant>, client: nat): nat {
    if grants == [] then 0
    else GrantsOf(grants[..|grants| - 1], client) + (if grants[|grants| - 1].client == client then 1 else 0)
  }

  function DenialsOf(denials: seq<Denial>, client: nat): nat {
    if denials == [] then 0
    else DenialsOf(denials[..|denials| - 1], client)
         + (if denials[|denials| - 1].client == client then 1 else 0)
  }

  /** The connections whose watched version is out of date: each will fail its EXEC once. */
  function Dirty(conns: seq<Conn>, version: nat): nat {
    if conns == [] then 0
    else Dirty(conns[..|conns| - 1], version) + (if Stale(conns[|conns| - 1], version) then 1 else 0)
  }

  predicate Stale(conn: Conn, version: nat) {
    match conn
    case Watching(seen) => seen < version
    case Queued(seen, _) => seen < version
    case _ => false
  }

  /** The most one life can grant: the first request of a window is let through whatever the limit. */
  function Quota(cfg: Config): int {
    if cfg.limit < 1 then 1 else cfg.limit
  }

  // The invariant

  ghost predicate KeyInv(cfg: Config, w: World) {
    match w.key
    case Absent => |w.lives| > 0 ==> w.lives[|w.lives| - 1].born + cfg.window <= w.now
    case Present(tokens, deadline) =>
      && |w.lives| > 0
      && deadline == Some(w.lives[|w.lives| - 1].born + cfg.window)
      && w.now < deadline.value
      && GrantsIn(w.grants, |w.lives| - 1) + tokens == cfg.limit
      && GrantsIn(w.grants, |w.lives| - 1) >= 1
      && (cfg.limit >= 1 ==> tokens >= 0)
  }

  ghost predicate LivesInv(cfg: Config, w: World) {
    && (forall i :: 0 <= i < |w.lives| ==> w.lives[i].born <= w.now)
    && (forall i, j :: 0 <= i < j < |w.lives| ==> w.lives[i].born + cfg.window <= w.lives[j].born)
    && (forall i :: 0 <= i < |w.lives| ==>
          && w.lives[i].first < |w.grants|
          && w.grants[w.lives[i].first].life == i
          && w.grants[w.lives[i].first].time == w.lives[i].born)
    && (forall life: nat :: GrantsIn(w.grants, life) <= Quota(cfg))
    && (forall life: nat :: life >= |w.lives| ==> GrantsIn(w.grants, life) == 0)
  }

  ghost predicate LogInv(cfg: Config, w: World) {
    && (forall i :: 0 <= i < |w.grants| ==> During(cfg, w, w.grants[i].time, w.grants[i].life))
    && (forall i :: 0 <= i < |w.denials| ==>
          && During(cfg, w, w.denials[i].time, w.denials[i].life)
          && GrantsIn(w.grants, w.denials[i].life) == Quota(cfg))
  }

  /** `time` lies in the half-open window of the given life. */
  ghost predicate During(cfg: Config, w: World, time: int, life: nat) {
    life < |w.lives| && w.lives[life].born <= time < w.lives[life].born + cfg.window
  }

  ghost predicate ConnInv(cfg: Config, w: World, conn: Conn) {
    match conn
    case Watching(seen) => seen <= w.version
    case Queued(seen, command) =>
      && seen <= w.version
      && (command == Decr || command == SetEx(cfg.limit - 1, cfg.window))
      && (seen == w.version ==>
            if command == Decr then w.key.Present? && w.key.tokens > 0 else w.key.Absent?)
    case _ => true
  }

  ghost predicate Inv(cfg: Config, w: World) {
    && cfg.window > 0
    && HistoryInv(cfg, w)
    && ConnsInv(cfg, w)
  }

  lemma StartInv(cfg: Config, clients: nat, now: int)
    requires cfg.window > 0
    ensures Inv(cfg, Start(clients, now))
  {
  }

  lemma GrantsInAppend(grants: seq<Grant>, g: Grant)
    ensures forall life: nat ::
              GrantsIn(grants + [g], life) == GrantsIn(grants, life) + (if g.life == life then 1 else 0)
  {
    assert (grants + [g])[..|grants|] == grants;
  }

  ghost predicate HistoryInv(cfg: Config, w: World) {
    KeyInv(cfg, w) && LivesInv(cfg, w) && LogInv(cfg, w)
  }

  ghost predicate ConnsInv(cfg: Config, w: World) {
    forall c :: 0 <= c < |w.conns| ==> ConnInv(cfg, w, w.conns[c])
  }

  /** The committed SET opens a life whose one grant is this one. */
  lemma CreateKeepsHistory(cfg: Config, w: World, c: nat)
    requires Inv(cfg, w) && c < |w.conns|
    requires w.conns[c] == Queued(w.version, SetEx(cfg.limit - 1, cfg.window))
    ensures HistoryInv(cfg, ClientStep(cfg, w, c))
  {
    CreateKeepsKey(cfg, w, c);
    CreateKeepsLives(cfg, w, c);
    CreateKeepsLog(cfg, w, c);
  }

  lemma CreateKeepsKey(cfg: Config, w: World, c: nat)
    requires Inv(cfg, w) && c < |w.conns|
    requires w.conns[c] == Queued(w.version, SetEx(cfg.limit - 1, cfg.window))
    ensures KeyInv(cfg, ClientStep(cfg, w, c))
  {
    assert ConnInv(cfg, w, w.conns[c]);
    KeyCreated(cfg, w, ClientStep(cfg, w, c), Grant(c, w.now, |w.lives|));
  }

  lemma KeyCreated(cfg: Config, w: World, w': World, g: Grant)
    requires GrantsIn(w.grants, |w.lives|) == 0 && cfg.window > 0 && g.life == |w.lives|
    requires w'.now == w.now && w'.lives == w.lives + [Life(w.now, |w.grants|)] && w'.grants == w.grants + [g]
    requires w'.key == Present(cfg.limit - 1, Some(w.now + cfg.window))
    ensures KeyInv(cfg, w')
  {
    GrantAppend(w.grants, g, |w.lives|);
  }

  lemma CreateKeepsLives(cfg: Config, w: World, c: nat)
    requires Inv(cfg, w) && c < |w.conns|
    requires w.conns[c] == Queued(w.version, SetEx(cfg.limit - 1, cfg.window))
    ensures LivesInv(cfg, ClientStep(cfg, w, c))
  {
    assert ConnInv(cfg, w, w.conns[c]);
    LifeOpens(cfg, w, ClientStep(cfg, w, c), Grant(c, w.now, |w.lives|));
  }

  /** A new life, a window after the last one, with its first grant. */
  lemma LifeOpens(cfg: Config, w: World, w': World, g: Grant)
    requires LivesInv(cfg, w) && w'.now == w.now && g.time == w.now && g.life == |w.lives|
    requires w'.lives == w.lives + [Life(w.now, |w.grants|)] && w'.grants == w.grants + [g]
    requires forall i :: 0 <= i < |w.lives| ==> w.lives[i].born + cfg.window <= w.now
    ensures LivesInv(cfg, w')
  {
    forall life: nat ensures GrantsIn(w'.grants, life) == GrantsIn(w.grants, life) + (if g.life == life then 1 else 0) {
      GrantAppend(w.grants, g, life);
    }
    forall i | 0 <= i < |w'.lives|
      ensures && w'.lives[i].first < |w'.grants|
              && w'.grants[w'.lives[i].first].life == i
              && w'.grants[w'.lives[i].first].time == w'.lives[i].born
    {
      assert i < |w.lives| ==> w'.lives[i] == w.lives[i];
    }
  }

  lemma CreateKeepsLog(cfg: Config, w: World, c: nat)
    requires Inv(cfg, w) && c < |w.conns|
    requires w.conns[c] == Queued(w.version, SetEx(cfg.limit - 1, cfg.window))
    ensures LogInv(cfg, ClientStep(cfg, w, c))
  {
    assert ConnInv(cfg, w, w.conns[c]);
    GrantsInAppend(w.grants, Grant(c, w.now, |w.lives|));
  }

  /** The committed DECR moves one token of the current life to its grants. */
  lemma TakeKeepsHistory(cfg: Config, w: World, c: nat)
    requires Inv(cfg, w) && c < |w.conns|
    requires w.conns[c] == Queued(w.version, Decr)
    ensures HistoryInv(cfg, ClientStep(cfg, w, c))
  {
    TakeKeepsKey(cfg, w, c);
    TakeKeepsLives(cfg, w, c);
    TakeKeepsLog(cfg, w, c);
  }

  lemma TakeKeepsKey(cfg: Config, w: World, c: nat)
    requires Inv(cfg, w) && c < |w.conns|
    requires w.conns[c] == Queued(w.version, Decr)
    ensures KeyInv(cfg, ClientStep(cfg, w, c))
  {
    assert ConnInv(cfg, w, w.conns[c]);
    KeyTaken(cfg, w, ClientStep(cfg, w, c), Grant(c, w.now, |w.lives| - 1));
  }

  lemma KeyTaken(cfg: Config, w: World, w': World, g: Grant)
    requires KeyInv(cfg, w) && w.key.Present? && w.key.tokens > 0 && g.life == |w.lives| - 1
    requires w'.now == w.now && w'.lives == w.lives && w'.grants == w.grants + [g]
    requires w'.key == w.key.(tokens := w.key.tokens - 1)
    ensures KeyInv(cfg, w')
  {
    GrantAppend(w.grants, g, |w.lives| - 1);
  }

  lemma TakeKeepsLives(cfg: Config, w: World, c: nat)
    requires Inv(cfg, w) && c < |w.conns|
    requires w.conns[c] == Queued(w.version, Decr)
    ensures LivesInv(cfg, ClientStep(cfg, w, c))
  {
    assert ConnInv(cfg, w, w.conns[c]);
    assert GrantsIn(w.grants, |w.lives| - 1) < Quota(cfg);
    LivesGrow(cfg, w, ClientStep(cfg, w, c), Grant(c, w.now, |w.lives| - 1));
  }

  lemma TakeKeepsLog(cfg: Config, w: World, c: nat)
    requires Inv(cfg, w) && c < |w.conns|
    requires w.conns[c] == Queued(w.version, Decr)
    ensures LogInv(cfg, ClientStep(cfg, w, c))
  {
    assert ConnInv(cfg, w, w.conns[c]);
    assert GrantsIn(w.grants, |w.lives| - 1) < Quota(cfg);
    LogGrows(cfg, w, ClientStep(cfg, w, c), Grant(c, w.now, |w.lives| - 1));
  }

  lemma GrantAppend(grants: seq<Grant>, g: Grant, life: nat)
    ensures GrantsIn(grants + [g], life) == GrantsIn(grants, life) + (if g.life == life then 1 else 0)
  {
    assert (grants + [g])[..|grants|] == grants;
  }

  /** One more grant to a life that has not used up its quota. */
  lemma LivesGrow(cfg: Config, w: World, w': World, g: Grant)
    requires LivesInv(cfg, w) && w'.now == w.now && w'.lives == w.lives && w'.grants == w.grants + [g]
    requires g.life < |w.lives| && GrantsIn(w.grants, g.life) < Quota(cfg)
    ensures LivesInv(cfg, w')
  {
    forall life: nat ensures GrantsIn(w'.grants, life) == GrantsIn(w.grants, life) + (if g.life == life then 1 else 0) {
      GrantAppend(w.grants, g, life);
    }
  }

  lemma LogGrows(cfg: Config, w: World, w': World, g: Grant)
    requires LogInv(cfg, w) && w'.lives == w.lives && w'.grants == w.grants + [g] && w'.denials == w.denials
    requires During(cfg, w, g.time, g.life) && GrantsIn(w.grants, g.life) < Quota(cfg)
    ensures LogInv(cfg, w')
  {
    forall i | 0 <= i < |w'.denials|
      ensures During(cfg, w', w'.denials[i].time, w'.denials[i].life)
      ensures GrantsIn(w'.grants, w'.denials[i].life) == Quota(cfg)
    {
      assert During(cfg, w, w.denials[i].time, w.denials[i].life);
      GrantAppend(w.grants, g, w.denials[i].life);
    }
    forall i | 0 <= i < |w'.grants| ensures During(cfg, w', w'.grants[i].time, w'.grants[i].life) {
      assert i < |w.grants| ==> During(cfg, w, w.grants[i].time, w.grants[i].life);
    }
  }

  lemma ReadKeepsHistory(cfg: Config, w: World, c: nat)
    requires Inv(cfg, w) && c < |w.conns| && w.conns[c].Watching?
    ensures HistoryInv(cfg, ClientStep(cfg, w, c))
  {
    if w.key.Present? && w.key.tokens <= 0 {
      assert GrantsIn(w.grants, |w.lives| - 1) <= Quota(cfg);
    } else {
      SameHistory(cfg, w, ClientStep(cfg, w, c));
    }
  }

  lemma AdvanceKeepsHistory(cfg: Config, w: World, elapsed: nat)
    requires Inv(cfg, w)
    ensures HistoryInv(cfg, Advance(w, elapsed))
  {
    AdvanceKeepsKey(cfg, w, elapsed);
    AdvanceKeepsLives(cfg, w, Advance(w, elapsed));
    AdvanceKeepsLog(cfg, w, Advance(w, elapsed));
  }

  /** A key outlives the tick exactly if its window does. */
  lemma AdvanceKeepsKey(cfg: Config, w: World, elapsed: nat)
    requires KeyInv(cfg, w)
    ensures KeyInv(cfg, Advance(w, elapsed))
  {
  }

  lemma AdvanceKeepsLives(cfg: Config, w: World, w': World)
    requires LivesInv(cfg, w) && w'.lives == w.lives && w'.grants == w.grants && w.now <= w'.now
    ensures LivesInv(cfg, w')
  {
  }

  lemma AdvanceKeepsLog(cfg: Config, w: World, w': World)
    requires LogInv(cfg, w) && w'.lives == w.lives && w'.grants == w.grants && w'.denials == w.denials
    ensures LogInv(cfg, w')
  {
    forall i | 0 <= i < |w'.grants| ensures During(cfg, w', w'.grants[i].time, w'.grants[i].life) {
      assert During(cfg, w, w.grants[i].time, w.grants[i].life);
    }
    forall i | 0 <= i < |w'.denials|
      ensures During(cfg, w', w'.denials[i].time, w'.denials[i].life)
      ensures GrantsIn(w'.grants, w'.denials[i].life) == Quota(cfg)
    {
      assert During(cfg, w, w.denials[i].time, w.denials[i].life);
    }
  }

  /** Steps that only move a connection, or count a retry, leave the record as it is. */
  lemma SameHistory(cfg: Config, w: World, w': World)
    requires HistoryInv(cfg, w)
    requires w' == w.(conns := w'.conns, retries := w'.retries)
    ensures HistoryInv(cfg, w')
  {
  }

  lemma StepKeepsHistory(cfg: Config, w: World, a: Action)
    requires Inv(cfg, w)
    ensures HistoryInv(cfg, Do(cfg, w, a))
  {
    match a
    case Tick(elapsed) => AdvanceKeepsHistory(cfg, w, elapsed);
    case Step(c) =>
      if c < |w.conns| {
        assert ConnInv(cfg, w, w.conns[c]);
        match w.conns[c]
        case Queued(seen, command) =>
          if seen != w.version {
            SameHistory(cfg, w, Do(cfg, w, a));
          } else if command.Decr? {
            TakeKeepsHistory(cfg, w, c);
          } else {
            CreateKeepsHistory(cfg, w, c);
          }
        case Watching(_) => ReadKeepsHistory(cfg, w, c);
        case _ => SameHistory(cfg, w, Do(cfg, w, a));
      }
  }

  /** What a connection watches stays sound while the version moves on, or the key stays as it is. */
  lemma ConnStays(cfg: Config, w: World, w': World, conn: Conn)
    requires ConnInv(cfg, w, conn) && w.version <= w'.version && (w'.version == w.version ==> w'.key == w.key)
    ensures ConnInv(cfg, w', conn)
  {
  }

  lemma StepKeepsConns(cfg: Config, w: World, a: Action)
    requires Inv(cfg, w)
    ensures ConnsInv(cfg, Do(cfg, w, a))
  {
    match a
    case Tick(elapsed) => TickKeepsConns(cfg, w, elapsed);
    case Step(c) => if c < |w.conns| { ClientKeepsConns(cfg, w, c); }
  }

  lemma TickKeepsConns(cfg: Config, w: World, elapsed: nat)
    requires ConnsInv(cfg, w)
    ensures ConnsInv(cfg, Advance(w, elapsed))
  {
    var w' := Advance(w, elapsed);
    forall d | 0 <= d < |w'.conns| ensures ConnInv(cfg, w', w'.conns[d]) {
      ConnStays(cfg, w, w', w.conns[d]);
    }
  }

  lemma ClientKeepsConns(cfg: Config, w: World, c: nat)
    requires ConnsInv(cfg, w) && c < |w.conns|
    ensures ConnsInv(cfg, ClientStep(cfg, w, c))
  {
    var w' := ClientStep(cfg, w, c);
    OwnConn(cfg, w, c);
    forall d | 0 <= d < |w'.conns| ensures ConnInv(cfg, w', w'.conns[d]) {
      if d != c { ConnStays(cfg, w, w', w.conns[d]); }
    }
  }

  /** A client's step sets its own connection alone, and moves the version on if it moves the key. */
  lemma OwnConn(cfg: Config, w: World, c: nat)
    requires ConnsInv(cfg, w) && c < |w.conns|
    ensures var w' := ClientStep(cfg, w, c);
            && w.version <= w'.version && (w'.version == w.version ==> w'.key == w.key)
            && |w'.conns| == |w.conns| && ConnInv(cfg, w', w'.conns[c])
            && forall d :: 0 <= d < |w.conns| && d != c ==> w'.conns[d] == w.conns[d]
  {
    assert ConnInv(cfg, w, w.conns[c]);
  }

  lemma StepKeepsInv(cfg: Config, w: World, a: Action)
    requires Inv(cfg, w)
    ensures Inv(cfg, Do(cfg, w, a))
  {
    StepKeepsHistory(cfg, w, a);
    StepKeepsConns(cfg, w, a);
  }

  lemma {:induction false} RunKeepsInv(cfg: Config, w: World, schedule: seq<Action>)
    requires Inv(cfg, w)
    ensures Inv(cfg, Run(cfg, w, schedule))
    decreases |schedule|
  {
    if schedule != [] {
      StepKeepsInv(cfg, w, schedule[0]);
      RunKeepsInv(cfg, Do(cfg, w, schedule[0]), schedule[1..]);
    }
  }
}
