/** Any run of stores, trims and joint expiries, on one clock that never goes back. */
module TrendingRuns {
  import opened Options
  import opened SortedSets
  import opened Trending

  datatype World = World(now: int, scores: ZSet<real>, stamps: ZSet<int>)

  /** Each action happens `elapsed` seconds after the one before it. */
  datatype Action =
    | Store(elapsed: nat, keywords: seq<string>)
    | Trim(elapsed: nat, maxSize: int)
    | Wait(elapsed: nat)

  function Advance(w: World, elapsed: nat): World {
    World(w.now + elapsed, Sweep(w.scores, w.now + elapsed), Sweep(w.stamps, w.now + elapsed))
  }

  ghost function Do(ttl: int, decay: real, w: World, a: Action): World
    requires decay > 0.0
  {
    var w1 := Advance(w, a.elapsed);
    match a
    case Wait(_) => w1
    case Store(_, keywords) =>
      World(w1.now, StoredScores(w1.scores, keywords, w1.now, ttl), StoredStamps(w1.stamps, keywords, w1.now, ttl))
    case Trim(_, maxSize) =>
      var s := TrimmedScores(w1.scores.members, w1.stamps.members, w1.now, ttl, decay, maxSize);
      var t := TrimmedStamps(w1.scores.members, w1.stamps.members, w1.now, ttl, s.Keys);
      World(w1.now, ZSet(s, Deadline(s, w1.scores.deadline)), ZSet(t, Deadline(t, w1.stamps.deadline)))
  }

  ghost function Run(ttl: int, decay: real, w: World, schedule: seq<Action>): World
    requires decay > 0.0
    decreases |schedule|
  {
    if schedule == [] then w else Run(ttl, decay, Do(ttl, decay, w, schedule[0]), schedule[1..])
  }

  /** Same words, same expiry, which a set that exists always has; scores positive, times in the past. */
  ghost predicate InStep(w: World) {
    && w.scores.members.Keys == w.stamps.members.Keys
    && w.scores.deadline == w.stamps.deadline
    && (w.scores.members == map[] ==> w.scores.deadline == None)
    && (w.scores.members != map[] ==> w.scores.deadline.Some? && w.now < w.scores.deadline.value)
    && (forall x :: x in w.scores.members ==> w.scores.members[x] > 0.0)
    && (forall x :: x in w.stamps.members ==> 0 <= w.stamps.members[x] <= w.now)
  }

  lemma AdvanceKeepsInStep(w: World, elapsed: nat)
    requires InStep(w)
    ensures InStep(Advance(w, elapsed))
  {
    if w.scores.members == map[] {
      assert w.stamps.members.Keys == {};
    }
  }

  lemma StoreKeepsInStep(w: World, keywords: seq<string>, ttl: int)
    requires InStep(w) && w.now >= 0 && ttl > 0
    ensures InStep(World(w.now, StoredScores(w.scores, keywords, w.now, ttl),
                         StoredStamps(w.stamps, keywords, w.now, ttl)))
  {
    StoreCounts(w.scores.members, w.stamps.members, keywords, w.now);
    var s, t := Bumped(w.scores.members, keywords), Stamped(w.stamps.members, keywords, w.now);
    assert s.Keys == t.Keys;
    assert s == map[] <==> t == map[] by {
      if s == map[] { assert t.Keys == {}; }
      if t == map[] { assert s.Keys == {}; }
    }
    if s == map[] {
      assert w.scores.members.Keys == {} by {
        assert w.scores.members.Keys <= s.Keys;
      }
    }
    forall x | x in s ensures s[x] > 0.0 {
      assert x in keywords ==> multiset(keywords)[x] > 0;
    }
  }

  lemma PositiveProduct(a: real, b: real)
    requires a > 0.0 && b > 0.0
    ensures a * b > 0.0
  {
  }

  /** The words seen after the cutoff. */
  function Recent(s: map<string, real>, t: map<string, int>, cutoff: int): map<string, real> {
    map x | x in s && x in t && t[x] > cutoff :: s[x]
  }

  /** Every score decayed once for the time since its word was seen. */
  function DecayedOnce(s: map<string, real>, t: map<string, int>, now: int, decay: real): map<string, real>
    requires s.Keys <= t.Keys && decay > 0.0
  {
    map x | x in s :: Weight(s[x], t[x], now, decay)
  }

  lemma NotStaleIsRecent(s: map<string, real>, t: map<string, int>, cutoff: int)
    requires s.Keys == t.Keys && forall x :: x in t ==> t[x] >= 0
    ensures s - Stale(t, cutoff) == Recent(s, t, cutoff)
  {
  }

  lemma PositiveScoresStay(s: map<string, real>, t: map<string, int>, u: map<string, int>, now: int, decay: real)
    requires s.Keys <= t.Keys && s.Keys <= u.Keys && decay > 0.0
    requires forall x :: x in s ==> s[x] > 0.0 && t[x] == u[x]
    ensures Rescored(s, u, now, decay) == DecayedOnce(s, t, now, decay)
    ensures forall x :: x in s ==> DecayedOnce(s, t, now, decay)[x] > 0.0
  {
    var a, b := Rescored(s, u, now, decay), DecayedOnce(s, t, now, decay);
    forall x | x in s ensures Weight(s[x], t[x], now, decay) > 0.0 && x in a && a[x] == b[x] {
      assert TimeOf(u, x) == Some(t[x]);
    }
    assert a.Keys == b.Keys;
  }

  lemma TopPart(m: map<string, real>, maxSize: int)
    ensures var top := m - (m.Keys - Top(m, maxSize));
            IsTop(top.Keys, m, maxSize) && forall x :: x in top ==> x in m && top[x] == m[x]
  {
    assert (m - (m.Keys - Top(m, maxSize))).Keys == Top(m, maxSize);
  }

  lemma TrimOfDecayed(s: map<string, real>, t: map<string, int>, now: int, ttl: int, decay: real, maxSize: int)
    requires s.Keys == t.Keys && decay > 0.0
    requires forall x :: x in s ==> s[x] > 0.0 && t[x] >= 0
    ensures var decayed := DecayedOnce(Recent(s, t, now - ttl), t, now, decay);
            TrimmedScores(s, t, now, ttl, decay, maxSize) == decayed - (decayed.Keys - Top(decayed, maxSize))
  {
    var stale := Stale(t, now - ttl);
    NotStaleIsRecent(s, t, now - ttl);
    PositiveScoresStay(s - stale, t, t - stale, now, decay);
    assert Rescored(s - stale, t - stale, now, decay) == DecayedOnce(Recent(s, t, now - ttl), t, now, decay);
  }

  // What a trim leaves, whatever the sets hold

  /** A word that a trim does not drop by itself: it has a positive score and a time that is not stale. */
  predicate Eligible(s: map<string, real>, t: map<string, int>, cutoff: int, x: string) {
    x in s && x in t && s[x] > 0.0 && (t[x] < 0 || t[x] > cutoff)
  }

  function Weighed(s: map<string, real>, t: map<string, int>, now: int, ttl: int, decay: real): map<string, real>
    requires decay > 0.0
  {
    map x | x in s && Eligible(s, t, now - ttl, x) :: Weight(s[x], t[x], now, decay)
  }

  lemma RescoredMeans(s: map<string, real>, t: map<string, int>, now: int, ttl: int, decay: real)
    requires decay > 0.0
    ensures var stale := Stale(t, now - ttl);
            Rescored(s - stale, t - stale, now, decay) == Weighed(s, t, now, ttl, decay)
  {
    var stale := Stale(t, now - ttl);
    var a, b := Rescored(s - stale, t - stale, now, decay), Weighed(s, t, now, ttl, decay);
    forall x | x in s && x in t && x !in stale
      ensures (x in a <==> x in b) && (x in b ==> a[x] == b[x])
    {
      assert TimeOf(t - stale, x) == Some(t[x]);
    }
    assert a.Keys == b.Keys;
  }

  /** Of the eligible words, those that rank highest once weighed, each with its weighed score. */
  ghost predicate TopWeighed(kept: map<string, real>, s: map<string, real>, t: map<string, int>, now: int, ttl: int,
                             decay: real, maxSize: int)
    requires decay > 0.0
  {
    && IsTop(kept.Keys, Weighed(s, t, now, ttl, decay), maxSize)
    && forall x :: x in kept ==> Eligible(s, t, now - ttl, x) && kept[x] == Weight(s[x], t[x], now, decay)
  }

  lemma TopIsWeighed(s: map<string, real>, t: map<string, int>, now: int, ttl: int, decay: real, maxSize: int,
                     all: map<string, real>)
    requires decay > 0.0 && all == Weighed(s, t, now, ttl, decay)
    ensures TopWeighed(all - (all.Keys - Top(all, maxSize)), s, t, now, ttl, decay, maxSize)
  {
    TopPart(all, maxSize);
  }

  lemma TrimIsTop(s: map<string, real>, t: map<string, int>, now: int, ttl: int, decay: real, maxSize: int)
    requires decay > 0.0
    ensures var all := Weighed(s, t, now, ttl, decay);
            TrimmedScores(s, t, now, ttl, decay, maxSize) == all - (all.Keys - Top(all, maxSize))
  {
    RescoredMeans(s, t, now, ttl, decay);
  }

  /**
   For any two sets, a trim leaves the words that rank highest among the eligible ones once each score is
   multiplied by decay to the seconds since the word was seen.
   */
  lemma TrimMeans(s: map<string, real>, t: map<string, int>, now: int, ttl: int, decay: real, maxSize: int)
    requires decay > 0.0
    ensures TopWeighed(TrimmedScores(s, t, now, ttl, decay, maxSize), s, t, now, ttl, decay, maxSize)
  {
    TrimIsTop(s, t, now, ttl, decay, maxSize);
    TopIsWeighed(s, t, now, ttl, decay, maxSize, Weighed(s, t, now, ttl, decay));
  }

  /**
   Of two words that come out of a trim and went in with equal scores, the one seen n seconds earlier has
   decay^n times the other's score: one factor for one second, and less with every second if the decay is
   below one. A word seen this very second keeps its score.
   */
  lemma EarlierWeighsLess(s: map<string, real>, t: map<string, int>, now: int, ttl: int, decay: real, maxSize: int,
                          a: string, b: string)
    requires decay > 0.0
    requires a in TrimmedScores(s, t, now, ttl, decay, maxSize) && b in TrimmedScores(s, t, now, ttl, decay, maxSize)
    requires a in s && b in s && a in t && b in t && s[a] == s[b]
    ensures var trimmed := TrimmedScores(s, t, now, ttl, decay, maxSize);
            AtTwoAges(trimmed[a], trimmed[b], s[b], now, t[a], t[b], decay)
  {
    TrimMeans(s, t, now, ttl, decay, maxSize);
    WeighedTwice(TrimmedScores(s, t, now, ttl, decay, maxSize), s, t, now, ttl, decay, maxSize, a, b);
  }

  lemma WeighedTwice(kept: map<string, real>, s: map<string, real>, t: map<string, int>, now: int, ttl: int,
                     decay: real, maxSize: int, a: string, b: string)
    requires decay > 0.0 && TopWeighed(kept, s, t, now, ttl, decay, maxSize)
    requires a in kept && b in kept && a in s && b in s && a in t && b in t && s[a] == s[b]
    ensures AtTwoAges(kept[a], kept[b], s[b], now, t[a], t[b], decay)
  {
    TimesCompare(kept[a], kept[b], s[a], now, t[a], t[b], decay);
  }

  /** What is left of one score, seen `early` and seen `late`. */
  ghost predicate AtTwoAges(a: real, b: real, score: real, now: int, early: int, late: int, decay: real)
    requires decay > 0.0
  {
    && a == Scaled(b, Power(decay, late - early))
    && (early + 1 == late ==> a == decay * b)
    && (early < late && decay < 1.0 ==> a < b)
    && (late == now ==> b == score)
  }

  lemma TimesCompare(a: real, b: real, score: real, now: int, early: int, late: int, decay: real)
    requires decay > 0.0 && score > 0.0
    requires a == Weight(score, early, now, decay) && b == Weight(score, late, now, decay)
    ensures AtTwoAges(a, b, score, now, early, late, decay)
  {
    var f := Powers(decay);
    AgesMultiply(f, decay, score, now, early, late, a, b);
    AgesFall(f, decay, score, now, early, late, a, b);
  }

  lemma AgesFall(f: int -> real, d: real, score: real, now: int, early: int, late: int, a: real, b: real)
    requires d > 0.0 && score > 0.0 && Geometric(f, d) && forall k :: f(k) > 0.0
    requires a == Scaled(score, f(now - early)) && b == Scaled(score, f(now - late))
    ensures early < late && d < 1.0 ==> a < b
  {
    if early < late && d < 1.0 {
      ProductsFall(f, d, now - late, now - early);
      ProductOrder(f(now - early), f(now - late), score, a, b);
    }
  }

  lemma AgesMultiply(f: int -> real, d: real, score: real, now: int, early: int, late: int, a: real, b: real)
    requires d > 0.0 && f(0) == 1.0 && Geometric(f, d)
    requires a == Scaled(score, f(now - early)) && b == Scaled(score, f(now - late))
    ensures a == Scaled(b, f(late - early))
    ensures early + 1 == late ==> a == d * b
    ensures late == now ==> b == score
  {
    var m, n := late - early, now - late;
    ProductsAdd(f, d, m, n);
    assert m + n == now - early;
    FactorIn(score, f(m), f(n), f(now - early), b, a);
    assert f(1) == d * f(0);
  }

  /** The simple form of a trim, for sets in step: of the recent words, decayed once, the highest ranking. */
  lemma TrimKeeps(w: World, ttl: int, decay: real, maxSize: int)
    requires InStep(w) && decay > 0.0
    ensures var recent := Recent(w.scores.members, w.stamps.members, w.now - ttl);
            var decayed := DecayedOnce(recent, w.stamps.members, w.now, decay);
            var trimmed := TrimmedScores(w.scores.members, w.stamps.members, w.now, ttl, decay, maxSize);
            && IsTop(trimmed.Keys, decayed, maxSize)
            && forall x :: x in trimmed ==> trimmed[x] == decayed[x] && trimmed[x] > 0.0
  {
    var s, t := w.scores.members, w.stamps.members;
    var recent := Recent(s, t, w.now - ttl);
    TrimOfDecayed(s, t, w.now, ttl, decay, maxSize);
    TopPart(DecayedOnce(recent, t, w.now, decay), maxSize);
    DecayedPositive(recent, t, w.now, decay);
  }

  lemma DecayedPositive(s: map<string, real>, t: map<string, int>, now: int, decay: real)
    requires s.Keys <= t.Keys && decay > 0.0 && forall x :: x in s ==> s[x] > 0.0
    ensures forall x :: x in s ==> DecayedOnce(s, t, now, decay)[x] > 0.0
  {
  }

  lemma TrimKeepsInStep(w: World, ttl: int, decay: real, maxSize: int)
    requires InStep(w) && decay > 0.0
    ensures var s := TrimmedScores(w.scores.members, w.stamps.members, w.now, ttl, decay, maxSize);
            var t := TrimmedStamps(w.scores.members, w.stamps.members, w.now, ttl, s.Keys);
            InStep(World(w.now, ZSet(s, Deadline(s, w.scores.deadline)), ZSet(t, Deadline(t, w.stamps.deadline))))
  {
    TrimKeeps(w, ttl, decay, maxSize);
    var s := TrimmedScores(w.scores.members, w.stamps.members, w.now, ttl, decay, maxSize);
    var recent := Recent(w.scores.members, w.stamps.members, w.now - ttl);
    SameWords(w, ttl, s, DecayedOnce(recent, w.stamps.members, w.now, decay));
  }

  lemma SameWords(w: World, ttl: int, s: map<string, real>, decayed: map<string, real>)
    requires InStep(w) && s.Keys <= decayed.Keys && forall x :: x in s ==> s[x] > 0.0
    requires forall x :: x in decayed ==> x in w.scores.members && w.stamps.members[x] > w.now - ttl
    ensures var t := TrimmedStamps(w.scores.members, w.stamps.members, w.now, ttl, s.Keys);
            InStep(World(w.now, ZSet(s, Deadline(s, w.scores.deadline)), ZSet(t, Deadline(t, w.stamps.deadline))))
  {
    var t := TrimmedStamps(w.scores.members, w.stamps.members, w.now, ttl, s.Keys);
    assert s.Keys == t.Keys;
    if s != map[] {
      assert s.Keys != {};
      var x :| x in s;
      assert x in w.scores.members;
    } else {
      assert t.Keys == {};
    }
  }

  lemma {:induction false} RunKeepsInStep(ttl: int, decay: real, w: World, schedule: seq<Action>)
    requires InStep(w) && w.now >= 0 && ttl > 0 && decay > 0.0
    ensures InStep(Run(ttl, decay, w, schedule))
    decreases |schedule|
  {
    if schedule != [] {
      var w1 := Advance(w, schedule[0].elapsed);
      AdvanceKeepsInStep(w, schedule[0].elapsed);
      match schedule[0] {
        case Store(_, keywords) => StoreKeepsInStep(w1, keywords, ttl);
        case Trim(_, maxSize) => TrimKeepsInStep(w1, ttl, decay, maxSize);
        case Wait(_) =>
      }
      RunKeepsInStep(ttl, decay, Do(ttl, decay, w, schedule[0]), schedule[1..]);
    }
  }

  /** Over any run from empty sets, both sets hold exactly the same words and expire together. */
  lemma SetsStayInStep(ttl: int, decay: real, start: nat, schedule: seq<Action>)
    requires ttl > 0 && decay > 0.0
    ensures var w := Run(ttl, decay, World(start, EmptyZSet(), EmptyZSet()), schedule);
            && w.scores.members.Keys == w.stamps.members.Keys
            && w.scores.deadline == w.stamps.deadline
            && (w.scores.members != map[] ==> w.scores.deadline.Some? && w.now < w.scores.deadline.value)
  {
    RunKeepsInStep(ttl, decay, World(start, EmptyZSet(), EmptyZSet()), schedule);
  }

  /** Words last seen together keep their relative rank through a decay. */
  lemma DecayKeepsRank(scores: map<string, real>, stamps: map<string, int>, now: int, decay: real, a: string, b: string)
    requires decay > 0.0 && a in scores && b in scores && a in stamps && b in stamps
    requires scores[a] > 0.0 && scores[b] > 0.0 && stamps[a] == stamps[b]
    ensures var next := Rescored(scores, stamps, now, decay);
            a in next && b in next && (Before(next, a, b) <==> Before(scores, a, b))
  {
    var p := Power(decay, now - stamps[a]);
    var next := Rescored(scores, stamps, now, decay);
    PositiveProduct(scores[a], p);
    PositiveProduct(scores[b], p);
    ProductOrder(scores[a], scores[b], p, next[a], next[b]);
  }

  lemma ProductOrder(x: real, y: real, p: real, u: real, v: real)
    requires p > 0.0 && u == x * p && v == y * p
    ensures x < y <==> u < v
    ensures x == y <==> u == v
  {
    if x < y { PositiveProduct(y - x, p); }
    if y < x { PositiveProduct(x - y, p); }
  }
}
