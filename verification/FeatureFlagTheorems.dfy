/** How far apart the processes' views of a flag can be, and for how long. */
module FeatureFlagTheorems {
  import opened Options
  import opened FeatureFlags

  /** Every answer of every run is fresh. */
  ghost predicate AlwaysFresh(cfg: Config) {
    forall processes: nat, fallback: bool, schedule: seq<Action> ::
      FreshInv(cfg, Run(cfg, Start(cfg, processes, fallback), schedule))
  }

  lemma StartInv(cfg: Config, processes: nat, fallback: bool)
    ensures Inv(cfg, Start(cfg, processes, fallback))
  {
  }

  /** Over any run, each answer was the resolved value less than two ttl before it was given. */
  lemma AnswersAreFresh(cfg: Config, processes: nat, fallback: bool, schedule: seq<Action>, i: nat)
    requires cfg.env.None? || cfg.ttl <= 0
    requires i < |Run(cfg, Start(cfg, processes, fallback), schedule).answers|
    ensures var w := Run(cfg, Start(cfg, processes, fallback), schedule);
            Fresh(cfg, w, w.answers[i])
  {
    StartInv(cfg, processes, fallback);
    RunKeepsInv(cfg, Start(cfg, processes, fallback), schedule);
  }

  lemma RunTwo(cfg: Config, w: World, a: Action, b: Action)
    ensures Run(cfg, w, [a, b]) == Do(cfg, Do(cfg, w, a), b)
  {
    assert [a, b][1..] == [b] && [b][1..] == [];
    assert Run(cfg, w, [a, b]) == Run(cfg, Do(cfg, w, a), [b]);
    assert Run(cfg, Do(cfg, w, a), [b]) == Run(cfg, Do(cfg, Do(cfg, w, a), b), []);
  }

  /** A flag named in FEATURE_FLAGS: the setter's own memory answers what the flag never was. */
  lemma NamedFlagGoesAstray(cfg: Config)
    requires cfg.env.Some? && cfg.ttl > 0
    ensures !FreshInv(cfg, Run(cfg, Start(cfg, 1, false), [Set(0, !cfg.env.value), Ask(0)]))
  {
    var w0 := Start(cfg, 1, false);
    var w1 := Do(cfg, w0, Set(0, !cfg.env.value));
    var w2 := Do(cfg, w1, Ask(0));
    RunTwo(cfg, w0, Set(0, !cfg.env.value), Ask(0));
    assert w2.answers == [Answer(0, 0.0, !cfg.env.value)];
    assert forall i :: 0 <= i < |w2.history| ==> w2.history[i].value == cfg.env.value;
    assert !Fresh(cfg, w2, w2.answers[0]);
  }

  /** The bound holds for all runs exactly when FEATURE_FLAGS does not name the flag, or nothing is cached. */
  lemma FreshnessCondition(cfg: Config)
    ensures AlwaysFresh(cfg) <==> cfg.env.None? || cfg.ttl <= 0
  {
    if cfg.env.None? || cfg.ttl <= 0 {
      forall processes: nat, fallback: bool, schedule: seq<Action>
        ensures FreshInv(cfg, Run(cfg, Start(cfg, processes, fallback), schedule))
      {
        StartInv(cfg, processes, fallback);
        RunKeepsInv(cfg, Start(cfg, processes, fallback), schedule);
      }
    } else {
      NamedFlagGoesAstray(cfg);
    }
  }

  // After the last set_flag

  /** No entry outlives a ttl counted from now. */
  ghost predicate DeadlineInv(cfg: Config, w: World) {
    && (w.shared.Some? ==> w.shared.value.deadline <= w.now + cfg.ttl as real)
    && (forall p :: 0 <= p < |w.mem| && w.mem[p].Some? ==> w.mem[p].value.deadline <= w.now + cfg.ttl as real)
  }

  lemma {:induction false} RunKeepsDeadlines(cfg: Config, w: World, schedule: seq<Action>)
    requires DeadlineInv(cfg, w)
    ensures DeadlineInv(cfg, Run(cfg, w, schedule))
    decreases |schedule|
  {
    if schedule != [] {
      RunKeepsDeadlines(cfg, Do(cfg, w, schedule[0]), schedule[1..]);
    }
  }

  predicate NoSet(schedule: seq<Action>) {
    forall i :: 0 <= i < |schedule| ==> !schedule[i].Set?
  }

  /** Nothing that could change the flag: no set_flag, and no word from the provider that would be listened to. */
  predicate Steady(schedule: seq<Action>, providerCounts: bool) {
    NoSet(schedule) && (providerCounts ==> forall i :: 0 <= i < |schedule| ==> !schedule[i].ProviderChange?)
  }

  /** What every lookup that reaches the bottom returns once `enabled` has been set. */
  function SetValue(cfg: Config, enabled: bool): bool {
    if cfg.env.Some? then cfg.env.value else enabled
  }

  /** The provider is asked only for a flag that FEATURE_FLAGS does not name and nobody has set. */
  predicate ProviderCounts(cfg: Config, w: World) {
    cfg.env.None? && w.over.None?
  }

  /** A flag worth `v` since `since`: old values linger in the shared entry for a ttl, in memory for two. */
  ghost predicate Settling(cfg: Config, w: World, since: real, v: bool, before: nat) {
    var ttl := cfg.ttl as real;
    && since <= w.now
    && before <= |w.answers|
    && Resolved(cfg, w) == v
    && (w.shared.Some? && w.shared.value.value != v ==> w.shared.value.deadline <= since + ttl)
    && (forall p :: 0 <= p < |w.mem| && w.mem[p].Some? && w.mem[p].value.value != v ==>
          w.mem[p].value.deadline <= since + 2.0 * ttl || w.mem[p].value.deadline <= since)
    && (forall i :: before <= i < |w.answers| && w.answers[i].time >= since + 2.0 * ttl ==> w.answers[i].value == v)
  }

  lemma SetStartsSettling(cfg: Config, w: World, p: nat, enabled: bool)
    requires DeadlineInv(cfg, w) && p < |w.mem|
    ensures Settling(cfg, Do(cfg, w, Set(p, enabled)), w.now, SetValue(cfg, enabled), |w.answers|)
  {
    TruthyWritten(enabled);
  }

  lemma {:induction false} RunKeepsSettling(cfg: Config, w: World, schedule: seq<Action>, since: real, v: bool,
                                            before: nat)
    requires Settling(cfg, w, since, v, before) && Steady(schedule, ProviderCounts(cfg, w))
    ensures Settling(cfg, Run(cfg, w, schedule), since, v, before)
    decreases |schedule|
  {
    if schedule != [] {
      assert !schedule[0].Set? && (ProviderCounts(cfg, w) ==> !schedule[0].ProviderChange?);
      RunKeepsSettling(cfg, Do(cfg, w, schedule[0]), schedule[1..], since, v, before);
    }
  }

  /**
   Two ttl after the last set_flag, every process answers the value set (or the one FEATURE_FLAGS
   fixes), whatever the processes did before and do since.
   */
  lemma SettlesWithinTwoTtl(cfg: Config, processes: nat, fallback: bool, prior: seq<Action>,
                            p: nat, enabled: bool, later: seq<Action>, i: nat)
    requires p < processes && NoSet(later)
    requires var w := Run(cfg, Start(cfg, processes, fallback), prior);
             var w' := Run(cfg, Do(cfg, w, Set(p, enabled)), later);
             |w.answers| <= i < |w'.answers| && w'.answers[i].time >= w.now + 2.0 * cfg.ttl as real
    ensures var w := Run(cfg, Start(cfg, processes, fallback), prior);
            var w' := Run(cfg, Do(cfg, w, Set(p, enabled)), later);
            w'.answers[i].value == SetValue(cfg, enabled)
  {
    var w := Run(cfg, Start(cfg, processes, fallback), prior);
    RunKeepsDeadlines(cfg, Start(cfg, processes, fallback), prior);
    RunKeepsProcesses(cfg, Start(cfg, processes, fallback), prior);
    SetStartsSettling(cfg, w, p, enabled);
    RunKeepsSettling(cfg, Do(cfg, w, Set(p, enabled)), later, w.now, SetValue(cfg, enabled), |w.answers|);
  }

  /**
   A flag that FEATURE_FLAGS does not name and nobody sets follows its provider: two ttl after the
   provider's last change to `v` every process answers `v`.
   */
  lemma ProviderSettlesWithinTwoTtl(cfg: Config, processes: nat, fallback: bool, prior: seq<Action>, v: bool,
                                    later: seq<Action>, i: nat)
    requires cfg.env.None? && NoSet(prior) && Steady(later, true)
    requires var w := Run(cfg, Start(cfg, processes, fallback), prior);
             var w' := Run(cfg, Do(cfg, w, ProviderChange(v)), later);
             |w.answers| <= i < |w'.answers| && w'.answers[i].time >= w.now + 2.0 * cfg.ttl as real
    ensures var w := Run(cfg, Start(cfg, processes, fallback), prior);
            Run(cfg, Do(cfg, w, ProviderChange(v)), later).answers[i].value == v
  {
    var w := Run(cfg, Start(cfg, processes, fallback), prior);
    RunKeepsDeadlines(cfg, Start(cfg, processes, fallback), prior);
    ResolvedMeans(cfg, processes, fallback, prior);
    NobodySets(prior, processes);
    RunKeepsSettling(cfg, Do(cfg, w, ProviderChange(v)), later, w.now, v, |w.answers|);
  }

  /** The value of the last set_flag by one of the processes. */
  function LastSet(schedule: seq<Action>, processes: nat): Option<bool>
    decreases |schedule|
  {
    if schedule == [] then None
    else
      var last := schedule[|schedule| - 1];
      if last.Set? && last.process < processes then Some(last.enabled)
      else LastSet(schedule[..|schedule| - 1], processes)
  }

  /** What the provider said last. */
  function LastWord(schedule: seq<Action>, fallback: bool): bool
    decreases |schedule|
  {
    if schedule == [] then fallback
    else
      var last := schedule[|schedule| - 1];
      if last.ProviderChange? then last.value else LastWord(schedule[..|schedule| - 1], fallback)
  }

  lemma {:induction false} NobodySets(schedule: seq<Action>, processes: nat)
    requires NoSet(schedule)
    ensures LastSet(schedule, processes) == None
    decreases |schedule|
  {
    if schedule != [] { NobodySets(schedule[..|schedule| - 1], processes); }
  }

  /**
   After any run, what the flag is worth without caches is what FEATURE_FLAGS says about it, else what was
   last set, else what the provider last said.
   */
  lemma {:induction false} ResolvedMeans(cfg: Config, processes: nat, fallback: bool, schedule: seq<Action>)
    ensures var w := Run(cfg, Start(cfg, processes, fallback), schedule);
            var chosen := LastSet(schedule, processes);
            && |w.mem| == processes && (w.over.Some? <==> chosen.Some?)
            && Resolved(cfg, w) == (if cfg.env.Some? then cfg.env.value
                                    else if chosen.Some? then chosen.value
                                    else LastWord(schedule, fallback))
            && w.fallback == LastWord(schedule, fallback)
            && (chosen.Some? ==> w.over == Some(Written(chosen.value)))
    decreases |schedule|
  {
    if schedule != [] {
      var n := |schedule| - 1;
      ResolvedMeans(cfg, processes, fallback, schedule[..n]);
      RunLast(cfg, Start(cfg, processes, fallback), schedule);
      if LastSet(schedule, processes).Some? { TruthyWritten(LastSet(schedule, processes).value); }
    }
  }

  lemma RunLast(cfg: Config, w: World, schedule: seq<Action>)
    requires schedule != []
    ensures Run(cfg, w, schedule)
            == Do(cfg, Run(cfg, w, schedule[..|schedule| - 1]), schedule[|schedule| - 1])
  {
    var n := |schedule| - 1;
    var w1 := Run(cfg, w, schedule[..n]);
    assert schedule == schedule[..n] + [schedule[n]];
    RunConcat(cfg, w, schedule[..n], [schedule[n]]);
    assert Run(cfg, w1, [schedule[n]]) == Run(cfg, Do(cfg, w1, schedule[n]), []);
  }

  lemma {:induction false} RunKeepsProcesses(cfg: Config, w: World, schedule: seq<Action>)
    ensures |Run(cfg, w, schedule).mem| == |w.mem|
    decreases |schedule|
  {
    if schedule != [] { RunKeepsProcesses(cfg, Do(cfg, w, schedule[0]), schedule[1..]); }
  }

  /** The setting process: its own entry covers the ttl in which the shared entry may still be old. */
  ghost predicate Assured(cfg: Config, w: World, p: nat, since: real, enabled: bool, before: nat) {
    && p < |w.mem|
    && since <= w.now
    && before <= |w.answers|
    && Resolved(cfg, w) == enabled
    && w.mem[p].Some? && w.mem[p].value.value == enabled
    && w.mem[p].value.deadline >= since + cfg.ttl as real
    && (w.shared.Some? && w.shared.value.value != enabled ==> w.shared.value.deadline <= since + cfg.ttl as real)
    && (forall i :: before <= i < |w.answers| && w.answers[i].process == p ==> w.answers[i].value == enabled)
  }

  /** Other processes may still copy an old shared entry, but not past its deadline. */
  lemma {:induction false} RunKeepsAssured(cfg: Config, w: World, schedule: seq<Action>, p: nat, since: real,
                                           enabled: bool, before: nat)
    requires Assured(cfg, w, p, since, enabled, before) && NoSet(schedule)
    requires w.over == Some(Written(enabled)) && (cfg.env.None? || cfg.env.value == enabled)
    ensures Assured(cfg, Run(cfg, w, schedule), p, since, enabled, before)
    decreases |schedule|
  {
    if schedule != [] {
      TruthyWritten(enabled);
      RunKeepsAssured(cfg, Do(cfg, w, schedule[0]), schedule[1..], p, since, enabled, before);
    }
  }

  /** Every answer process `p` gives in `w` from index `before` on is `enabled`. */
  ghost predicate SticksTo(w: World, p: nat, enabled: bool, before: nat) {
    forall i :: before <= i < |w.answers| && w.answers[i].process == p ==> w.answers[i].value == enabled
  }

  /**
   The setter answers its own value at once and from then on, in every continuation without another
   set_flag, exactly when FEATURE_FLAGS does not fix the opposite.
   */
  lemma SetterReadsItsOwnWrite(cfg: Config, processes: nat, fallback: bool, prior: seq<Action>, p: nat, enabled: bool)
    requires p < processes
    ensures var w := Run(cfg, Start(cfg, processes, fallback), prior);
            (forall later :: NoSet(later) ==>
               SticksTo(Run(cfg, Do(cfg, w, Set(p, enabled)), later), p, enabled, |w.answers|))
            <==> (cfg.env.None? || cfg.env.value == enabled)
  {
    var w := Run(cfg, Start(cfg, processes, fallback), prior);
    RunKeepsDeadlines(cfg, Start(cfg, processes, fallback), prior);
    RunKeepsProcesses(cfg, Start(cfg, processes, fallback), prior);
    var w1 := Do(cfg, w, Set(p, enabled));
    TruthyWritten(enabled);
    if cfg.env.None? || cfg.env.value == enabled {
      forall later | NoSet(later)
        ensures SticksTo(Run(cfg, w1, later), p, enabled, |w.answers|)
      {
        RunKeepsAssured(cfg, w1, later, p, w.now, enabled, |w.answers|);
      }
    } else {
      var pause := if cfg.ttl > 0 then cfg.ttl as real else 0.0;
      var later := [Tick(pause), Ask(p)];
      RunTwo(cfg, w1, Tick(pause), Ask(p));
      var w3 := Run(cfg, w1, later);
      assert w3.answers[|w.answers|] == Answer(p, w.now + pause, !enabled);
      assert !SticksTo(w3, p, enabled, |w.answers|);
    }
  }

  /** Two ttl cannot be improved: for any margin, some process is still stale that close to it. */
  lemma TwoTtlIsTight(cfg: Config, margin: real)
    requires cfg.ttl > 0 && cfg.env.None? && 0.0 < margin < cfg.ttl as real
    ensures exists later :: NoSet(later) &&
              var w := Do(cfg, Run(cfg, Start(cfg, 3, false), [Ask(0)]), Set(1, true));
              var w' := Run(cfg, w, later);
              && |w'.answers| > 0
              && w'.answers[|w'.answers| - 1] == Answer(2, w.now + 2.0 * cfg.ttl as real - margin, false)
  {
    var w0 := Start(cfg, 3, false);
    assert [Ask(0)][1..] == [];
    var w1 := Do(cfg, w0, Ask(0));
    assert Run(cfg, w0, [Ask(0)]) == Run(cfg, w1, []) == w1;
    var w := Do(cfg, w1, Set(1, true));
    var wait := cfg.ttl as real - margin / 2.0;
    var early, late := [Tick(wait), Ask(2)], [Tick(wait), Ask(2)];
    RunTwo(cfg, w, Tick(wait), Ask(2));
    var w2 := Run(cfg, w, early);
    assert w2.mem[2] == Some(Entry(false, wait + cfg.ttl as real));
    RunTwo(cfg, w2, Tick(wait), Ask(2));
    RunConcat(cfg, w, early, late);
    assert NoSet(early + late);
    assert Run(cfg, w, early + late).answers[|w2.answers|] == Answer(2, w.now + wait + wait, false);
  }

  lemma {:induction false} RunConcat(cfg: Config, w: World, first: seq<Action>, second: seq<Action>)
    ensures Run(cfg, w, first + second) == Run(cfg, Run(cfg, w, first), second)
    decreases |first|
  {
    if first == [] {
      assert first + second == second;
    } else {
      assert (first + second)[1..] == first[1..] + second;
      RunConcat(cfg, Do(cfg, w, first[0]), first[1..], second);
    }
  }
}
