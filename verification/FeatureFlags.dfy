/**
 Feature flags behind two caches: a per-process memory entry over a shared Redis entry, over the
 Redis override, over the providers. Time is real; each call is atomic.
 */
module FeatureFlags {
  import opened Options

  /** A cached answer, valid strictly before its deadline. */
  datatype Entry = Entry(value: bool, deadline: real)

  /** `env` is what FEATURE_FLAGS says about the flag, if it names it. */
  datatype Config = Config(ttl: int, env: Option<bool>)

  function Live(entry: Option<Entry>, now: real): bool {
    entry.Some? && entry.value.deadline > now
  }

  function Lower(s: string): string {
    if s == [] then []
    else [if 'A' <= s[0] <= 'Z' then s[0] - 'A' + 'a' else s[0]] + Lower(s[1..])
  }

  /** How an override string is read. */
  function Truthy(raw: string): bool {
    Lower(raw) in {"1", "true", "yes"}
  }

  function Written(enabled: bool): string {
    if enabled then "1" else "0"
  }

  /** What the flag is worth without any cache. */
  function Resolve(env: Option<bool>, over: Option<string>, fallback: bool): bool {
    if env.Some? then env.value else if over.Some? then Truthy(over.value) else fallback
  }

  datatype Outcome = Outcome(answer: bool, mem: Option<Entry>, shared: Option<Entry>)

  /** One lookup: memory entry, then shared entry, then resolution, filling the caches on the way back. */
  function Consult(ttl: int, now: real, mem: Option<Entry>, shared: Option<Entry>, resolved: bool): Outcome {
    if Live(mem, now) then Outcome(mem.value.value, mem, shared)
    else if Live(shared, now) then
      Outcome(shared.value.value, Some(Entry(shared.value.value, now + ttl as real)), shared)
    else
      var entry := Some(Entry(resolved, now + ttl as real));
      // SETEX refuses an expiry that is not positive, and the error is swallowed.
      Outcome(resolved, entry, if ttl > 0 then entry else shared)
  }

  // The code, per process and per store

  function Get<V>(m: map<string, V>, key: string): Option<V> {
    if key in m then Some(m[key]) else None
  }

  /** The Redis instance: overrides by flag name, and the cache entries under the cache prefix. */
  class FlagStore {
    var overrides: map<string, string>
    var cached: map<string, Entry>

    constructor ()
      ensures overrides == map[] && cached == map[]
    {
      overrides, cached := map[], map[];
    }
  }

  class FlagClient {
    const redis: FlagStore
    const ttl: int
    const defaults: map<string, bool>
    const envFlags: map<string, bool>
    var cache: map<string, Entry>

    constructor (redis: FlagStore, ttl: int, defaults: map<string, bool>, envFlags: map<string, bool>)
      ensures this.redis == redis && this.ttl == ttl && this.defaults == defaults && this.envFlags == envFlags
      ensures cache == map[]
    {
      this.redis, this.ttl, this.defaults, this.envFlags := redis, ttl, defaults, envFlags;
      cache := map[];
    }

    /** Both caches have nothing for the flag, or nothing that is still valid. */
    ghost predicate Uncached(name: string, now: real)
      reads this, redis
    {
      && (name !in cache || cache[name].deadline <= now)
      && (name !in redis.cached || redis.cached[name].deadline <= now)
    }

    /**
     `provider` is the answer of LaunchDarkly or Unleash, when one is configured. A valid entry of the
     process's memory is the answer, else a valid shared entry; past both caches FEATURE_FLAGS, the
     override, the provider and the default are asked in this order.
     */
    method IsEnabled(name: string, now: real, provider: Option<bool>) returns (answer: bool)
      modifies this, redis
      ensures redis.overrides == old(redis.overrides)
      ensures name in old(cache) && old(cache)[name].deadline > now ==>
                answer == old(cache)[name].value && cache == old(cache)
      ensures (name in old(cache) ==> old(cache)[name].deadline <= now)
              && name in old(redis.cached) && old(redis.cached)[name].deadline > now ==>
                answer == old(redis.cached)[name].value
      ensures old(Uncached(name, now)) && name in envFlags ==> answer == envFlags[name]
      ensures old(Uncached(name, now)) && name !in envFlags && name in old(redis.overrides) ==>
                answer == Truthy(old(redis.overrides)[name])
      ensures old(Uncached(name, now)) && name !in envFlags && name !in old(redis.overrides) ==>
                answer == if provider.Some? then provider.value else name in defaults && defaults[name]
      ensures old(Uncached(name, now)) ==>
                && cache == old(cache)[name := Entry(answer, now + ttl as real)]
                && redis.cached == if ttl > 0 then old(redis.cached)[name := Entry(answer, now + ttl as real)]
                                   else old(redis.cached)
      ensures var fallback := if provider.Some? then provider.value
                              else if name in defaults then defaults[name] else false;
              var resolved := Resolve(Get(envFlags, name), Get(old(redis.overrides), name), fallback);
              && Outcome(answer, Get(cache, name), Get(redis.cached, name))
                 == Consult(ttl, now, Get(old(cache), name), Get(old(redis.cached), name), resolved)
      ensures forall other :: other != name ==>
                Get(cache, other) == Get(old(cache), other) && Get(redis.cached, other) == Get(old(redis.cached), other)
    {
      if name in cache && cache[name].deadline > now {
        return cache[name].value;
      }
      if name in redis.cached && redis.cached[name].deadline > now {
        answer := redis.cached[name].value;
        cache := cache[name := Entry(answer, now + ttl as real)];
        return;
      }
      var default := if name in defaults then defaults[name] else false;
      var result: Option<bool> := None;
      if name in envFlags {
        result := Some(envFlags[name]);
      }
      if result == None && name in redis.overrides {
        result := Some(Truthy(redis.overrides[name]));
      }
      if result == None {
        result := provider;
      }
      if result == None {
        result := Some(default);
      }
      answer := result.value;
      cache := cache[name := Entry(answer, now + ttl as real)];
      if ttl > 0 {
        redis.cached := redis.cached[name := Entry(answer, now + ttl as real)];
      }
    }

    method SetFlag(name: string, enabled: bool, now: real)
      modifies this, redis
      ensures redis.overrides == old(redis.overrides)[name := Written(enabled)]
      ensures redis.cached == old(redis.cached)
      ensures cache == old(cache)[name := Entry(enabled, now + ttl as real)]
    {
      redis.overrides := redis.overrides[name := Written(enabled)];
      cache := cache[name := Entry(enabled, now + ttl as real)];
    }
  }

  // One flag, several processes, one clock

  /** The resolved value became `value` at `time`. */
  datatype Moment = Moment(time: real, value: bool)
  datatype Answer = Answer(process: nat, time: real, value: bool)

  datatype World = World(
    now: real,
    mem: seq<Option<Entry>>,
    shared: Option<Entry>,
    over: Option<string>,
    fallback: bool,
    history: seq<Moment>,
    answers: seq<Answer>)

  datatype Action =
    | Ask(process: nat)
    | Set(process: nat, enabled: bool)
    | ProviderChange(value: bool)
    | Tick(elapsed: real)

  function Resolved(cfg: Config, w: World): bool {
    Resolve(cfg.env, w.over, w.fallback)
  }

  function Start(cfg: Config, processes: nat, fallback: bool): World {
    World(0.0, seq(processes, _ => None), None, None, fallback,
          [Moment(0.0, Resolve(cfg.env, None, fallback))], [])
  }

  function Remember(cfg: Config, w: World): World {
    w.(history := w.history + [Moment(w.now, Resolved(cfg, w))])
  }

  function Do(cfg: Config, w: World, a: Action): World {
    match a
    case Tick(elapsed) => if elapsed < 0.0 then w else w.(now := w.now + elapsed)
    case ProviderChange(value) => Remember(cfg, w.(fallback := value))
    case Set(p, enabled) =>
      if p >= |w.mem| then w
      else
        Remember(cfg, w.(over := Some(Written(enabled)),
                         mem := w.mem[p := Some(Entry(enabled, w.now + cfg.ttl as real))]))
    case Ask(p) =>
      if p >= |w.mem| then w
      else
        var o := Consult(cfg.ttl, w.now, w.mem[p], w.shared, Resolved(cfg, w));
        w.(mem := w.mem[p := o.mem], shared := o.shared,
           answers := w.answers + [Answer(p, w.now, o.answer)])
  }

  function Run(cfg: Config, w: World, schedule: seq<Action>): World
    decreases |schedule|
  {
    if schedule == [] then w else Run(cfg, Do(cfg, w, schedule[0]), schedule[1..])
  }

  // Staleness

  /** `value` was the resolved value at time `t`. At the instant of a change both values were. */
  ghost predicate Held(w: World, value: bool, t: real) {
    exists i :: 0 <= i < |w.history| && HeldAt(w, i, value, t)
  }

  ghost predicate HeldAt(w: World, i: nat, value: bool, t: real)
    requires i < |w.history|
  {
    && w.history[i].value == value
    && w.history[i].time <= t
    && t <= (if i + 1 < |w.history| then w.history[i + 1].time else w.now)
  }

  /** Some moment no earlier than `since` at which `value` was the resolved value. */
  ghost predicate HeldSince(w: World, value: bool, since: real) {
    exists t :: since <= t && Held(w, value, t)
  }

  /** An answer is at most this stale: resolved at the moment it is given, or less than two ttl before. */
  ghost predicate Fresh(cfg: Config, w: World, a: Answer) {
    exists t :: Held(w, a.value, t) && t <= a.time && (t == a.time || a.time - t < 2.0 * cfg.ttl as real)
  }

  ghost predicate HistoryInv(cfg: Config, w: World) {
    && |w.history| > 0
    && w.history[|w.history| - 1].value == Resolved(cfg, w)
    && (forall i :: 0 <= i < |w.history| ==> w.history[i].time <= w.now)
  }

  ghost predicate CacheInv(cfg: Config, w: World) {
    && (w.shared.Some? ==> HeldSince(w, w.shared.value.value, w.shared.value.deadline - cfg.ttl as real))
    && (forall p :: 0 <= p < |w.mem| && Live(w.mem[p], w.now) ==>
          HeldSince(w, w.mem[p].value.value, w.mem[p].value.deadline - 2.0 * cfg.ttl as real))
  }

  ghost predicate FreshInv(cfg: Config, w: World) {
    forall i :: 0 <= i < |w.answers| ==> Fresh(cfg, w, w.answers[i]) && w.answers[i].time <= w.now
  }

  ghost predicate Inv(cfg: Config, w: World) {
    HistoryInv(cfg, w) && CacheInv(cfg, w) && FreshInv(cfg, w)
  }

  /** Time passing and new moments do not change what held before. */
  ghost predicate Later(w: World, w': World) {
    && w.now <= w'.now
    && |w.history| <= |w'.history| <= |w.history| + 1
    && w'.history[..|w.history|] == w.history
    && (|w'.history| > |w.history| ==> w'.history[|w.history|].time == w.now)
  }

  lemma HeldLater(w: World, w': World, value: bool, t: real)
    requires Later(w, w') && Held(w, value, t)
    ensures Held(w', value, t)
  {
    var i :| 0 <= i < |w.history| && HeldAt(w, i, value, t);
    assert w'.history[i] == w'.history[..|w.history|][i];
    assert i + 1 < |w.history| ==> w'.history[i + 1] == w'.history[..|w.history|][i + 1];
    assert HeldAt(w', i, value, t);
  }

  lemma HeldSinceLater(w: World, w': World, value: bool, since: real)
    requires Later(w, w') && HeldSince(w, value, since)
    ensures HeldSince(w', value, since)
  {
    var t :| since <= t && Held(w, value, t);
    HeldLater(w, w', value, t);
  }

  lemma HeldNow(cfg: Config, w: World)
    requires HistoryInv(cfg, w)
    ensures Held(w, Resolved(cfg, w), w.now)
  {
    assert HeldAt(w, |w.history| - 1, Resolved(cfg, w), w.now);
  }

  lemma HeldNotInFuture(w: World, value: bool, t: real)
    requires Held(w, value, t)
    requires forall i :: 0 <= i < |w.history| ==> w.history[i].time <= w.now
    ensures t <= w.now
  {
  }

  lemma TruthyWritten(enabled: bool)
    ensures Truthy(Written(enabled)) == enabled
  {
    assert Lower("1") == ['1'] + Lower([]) == "1";
    assert Lower("0") == ['0'] + Lower([]) == "0";
    assert "1"[0] == '1' && "0"[0] == '0' && "true"[0] == 't' && "yes"[0] == 'y';
  }

  /** An override counts as true if it is "1", "true" or "yes", in upper, lower or mixed case. */
  lemma TruthyIff(raw: string)
    ensures Truthy(raw) <==>
            || raw == "1"
            || (|raw| == 4 && raw[0] in {'t', 'T'} && raw[1] in {'r', 'R'} && raw[2] in {'u', 'U'}
                && raw[3] in {'e', 'E'})
            || (|raw| == 3 && raw[0] in {'y', 'Y'} && raw[1] in {'e', 'E'} && raw[2] in {'s', 'S'})
  {
    LowerAt(raw);
    var low := Lower(raw);
    assert low == "1" <==> |low| == 1 && low[0] == '1';
    assert low == "true" <==> |low| == 4 && low[0] == 't' && low[1] == 'r' && low[2] == 'u' && low[3] == 'e';
    assert low == "yes" <==> |low| == 3 && low[0] == 'y' && low[1] == 'e' && low[2] == 's';
  }

  lemma {:induction false} LowerAt(s: string)
    ensures |Lower(s)| == |s|
    ensures forall i :: 0 <= i < |s| ==> Lower(s)[i] == if 'A' <= s[i] <= 'Z' then s[i] - 'A' + 'a' else s[i]
    decreases |s|
  {
    if s != [] { LowerAt(s[1..]); }
  }

  lemma FreshLater(cfg: Config, w: World, w': World)
    requires Later(w, w') && FreshInv(cfg, w) && w'.answers == w.answers
    ensures FreshInv(cfg, w')
  {
    forall i | 0 <= i < |w'.answers| ensures Fresh(cfg, w', w'.answers[i]) {
      var a := w.answers[i];
      assert Fresh(cfg, w, a);
      var t :| Held(w, a.value, t) && t <= a.time && (t == a.time || a.time - t < 2.0 * cfg.ttl as real);
      HeldLater(w, w', a.value, t);
    }
  }

  lemma SetKeepsInv(cfg: Config, w: World, p: nat, enabled: bool)
    requires Inv(cfg, w) && p < |w.mem| && (cfg.env.None? || cfg.ttl <= 0)
    ensures Inv(cfg, Do(cfg, w, Set(p, enabled)))
  {
    var w' := Do(cfg, w, Set(p, enabled));
    TruthyWritten(enabled);
    assert Later(w, w');
    FreshLater(cfg, w, w');
    HeldNow(cfg, w');
    if w.shared.Some? {
      HeldSinceLater(w, w', w.shared.value.value, w.shared.value.deadline - cfg.ttl as real);
    }
    forall q | 0 <= q < |w'.mem| && Live(w'.mem[q], w'.now)
      ensures HeldSince(w', w'.mem[q].value.value, w'.mem[q].value.deadline - 2.0 * cfg.ttl as real)
    {
      if q != p {
        HeldSinceLater(w, w', w.mem[q].value.value, w.mem[q].value.deadline - 2.0 * cfg.ttl as real);
      }
    }
  }

  lemma AskKeepsInv(cfg: Config, w: World, p: nat)
    requires Inv(cfg, w) && p < |w.mem|
    ensures Inv(cfg, Do(cfg, w, Ask(p)))
  {
    var w' := Do(cfg, w, Ask(p));
    assert Later(w, w');
    HeldNow(cfg, w);
    HeldNow(cfg, w');
    if w.shared.Some? {
      HeldSinceLater(w, w', w.shared.value.value, w.shared.value.deadline - cfg.ttl as real);
    }
    forall q | 0 <= q < |w'.mem| && Live(w'.mem[q], w'.now)
      ensures HeldSince(w', w'.mem[q].value.value, w'.mem[q].value.deadline - 2.0 * cfg.ttl as real)
    {
      if q != p || Live(w.mem[p], w.now) {
        HeldSinceLater(w, w', w.mem[q].value.value, w.mem[q].value.deadline - 2.0 * cfg.ttl as real);
      }
    }
    forall i | 0 <= i < |w'.answers| ensures Fresh(cfg, w', w'.answers[i]) && w'.answers[i].time <= w'.now {
      if i < |w.answers| {
        FreshLater(cfg, w, w'.(answers := w.answers));
        assert Fresh(cfg, w'.(answers := w.answers), w.answers[i]);
        assert w'.answers[i] == w.answers[i];
        SameHeld(w'.(answers := w.answers), w');
      } else {
        AnswerIsFresh(cfg, w, p);
        SameHeld(w, w');
      }
    }
  }

  lemma SameHeld(w: World, w': World)
    requires w.history == w'.history && w.now == w'.now
    ensures forall v, t :: Held(w, v, t) == Held(w', v, t)
  {
    forall v, t ensures Held(w, v, t) == Held(w', v, t) {
      if Held(w, v, t) {
        var i :| 0 <= i < |w.history| && HeldAt(w, i, v, t);
        assert HeldAt(w', i, v, t);
      }
      if Held(w', v, t) {
        var i :| 0 <= i < |w'.history| && HeldAt(w', i, v, t);
        assert HeldAt(w, i, v, t);
      }
    }
  }

  /** The answer a lookup gives now is fresh. */
  lemma AnswerIsFresh(cfg: Config, w: World, p: nat)
    requires Inv(cfg, w) && p < |w.mem|
    ensures var o := Consult(cfg.ttl, w.now, w.mem[p], w.shared, Resolved(cfg, w));
            Fresh(cfg, w, Answer(p, w.now, o.answer))
  {
    if Live(w.mem[p], w.now) {
      var e := w.mem[p].value;
      var t :| e.deadline - 2.0 * cfg.ttl as real <= t && Held(w, e.value, t);
      HeldNotInFuture(w, e.value, t);
    } else if Live(w.shared, w.now) {
      var e := w.shared.value;
      var t :| e.deadline - cfg.ttl as real <= t && Held(w, e.value, t);
      HeldNotInFuture(w, e.value, t);
    } else {
      HeldNow(cfg, w);
    }
  }

  lemma StepKeepsInv(cfg: Config, w: World, a: Action)
    requires Inv(cfg, w) && (cfg.env.None? || cfg.ttl <= 0)
    ensures Inv(cfg, Do(cfg, w, a))
  {
    var w' := Do(cfg, w, a);
    match a
    case Set(p, enabled) => if p < |w.mem| { SetKeepsInv(cfg, w, p, enabled); }
    case Ask(p) => if p < |w.mem| { AskKeepsInv(cfg, w, p); }
    case _ =>
      assert Later(w, w');
      FreshLater(cfg, w, w');
      if w.shared.Some? {
        HeldSinceLater(w, w', w.shared.value.value, w.shared.value.deadline - cfg.ttl as real);
      }
      forall q | 0 <= q < |w'.mem| && Live(w'.mem[q], w'.now)
        ensures HeldSince(w', w'.mem[q].value.value, w'.mem[q].value.deadline - 2.0 * cfg.ttl as real)
      {
        HeldSinceLater(w, w', w.mem[q].value.value, w.mem[q].value.deadline - 2.0 * cfg.ttl as real);
      }
  }

  lemma {:induction false} RunKeepsInv(cfg: Config, w: World, schedule: seq<Action>)
    requires Inv(cfg, w) && (cfg.env.None? || cfg.ttl <= 0)
    ensures Inv(cfg, Run(cfg, w, schedule))
    decreases |schedule|
  {
    if schedule != [] {
      StepKeepsInv(cfg, w, schedule[0]);
      RunKeepsInv(cfg, Do(cfg, w, schedule[0]), schedule[1..]);
    }
  }
}
