/**
 Trending keywords: a sorted set of scores and a sorted set of last-seen times, stored, decayed,
 trimmed and expired together. Scores are reals; `decay` stands for e^(-1/ttl).
 */
module Trending {
  import opened Options
  import opened SortedSets

  /** decay^n, for the negative n of a clock that went back as well. */
  function Power(decay: real, n: int): (p: real)
    requires decay > 0.0
    ensures p > 0.0
    decreases if n < 0 then -n else n
  {
    if n == 0 then 1.0
    else if n > 0 then decay * Power(decay, n - 1)
    else Power(decay, n + 1) / decay
  }

  lemma NextPower(decay: real, n: int, next: int)
    requires decay > 0.0 && next == n + 1
    ensures Power(decay, next) == decay * Power(decay, n)
  {
    if n < 0 { BackAndForth(Power(decay, next), decay); }
  }

  lemma BackAndForth(x: real, y: real)
    requires y != 0.0
    ensures y * (x / y) == x
  {
  }

  /** Each value of `f` is `d` times the one before. */
  ghost predicate Geometric(f: int -> real, d: real) {
    forall m, n :: n == m + 1 ==> f(n) == d * f(m)
  }

  lemma {:induction false} ProductsAdd(f: int -> real, d: real, m: int, n: int)
    requires d > 0.0 && f(0) == 1.0 && Geometric(f, d)
    ensures f(m + n) == f(m) * f(n)
    decreases if n < 0 then -n else n
  {
    if n > 0 {
      ProductsAdd(f, d, m, n - 1);
      assert f(m + n) == d * f(m + (n - 1)) && f(n) == d * f(n - 1);
      FactorIn(d, f(m), f(n - 1), f(m + (n - 1)), f(n), f(m + n));
    } else if n < 0 {
      ProductsAdd(f, d, m, n + 1);
      assert f(m + (n + 1)) == d * f(m + n) && f(n + 1) == d * f(n);
      FactorOut(d, f(m), f(n), f(m + n), f(n + 1), f(m + (n + 1)));
    }
  }

  lemma FactorIn(x: real, y: real, z: real, u: real, xz: real, xu: real)
    requires u == y * z && xz == x * z && xu == x * u
    ensures xu == y * xz
  {
  }

  lemma FactorOut(x: real, y: real, z: real, u: real, xz: real, xu: real)
    requires x > 0.0 && xz == x * z && xu == x * u && xu == y * xz
    ensures u == y * z
  {
    assert x * (u - y * z) == xu - y * xz;
  }

  lemma Powers(decay: real) returns (f: int -> real)
    requires decay > 0.0
    ensures f(0) == 1.0 && Geometric(f, decay)
    ensures forall k :: f(k) == Power(decay, k) && f(k) > 0.0
  {
    f := (k: int) => Power(decay, k);
    forall k, l | l == k + 1 ensures f(l) == decay * f(k) {
      NextPower(decay, k, l);
    }
  }

  /** The powers of the decay: none for no time, the decay itself for one second, and times add up. */
  lemma PowerAdds(decay: real, m: int, n: int)
    requires decay > 0.0
    ensures Power(decay, 0) == 1.0 && Power(decay, 1) == decay
    ensures Power(decay, m + n) == Power(decay, m) * Power(decay, n)
  {
    NextPower(decay, 0, 1);
    var f := Powers(decay);
    ProductsAdd(f, decay, m, n);
  }

  /** A factor below one makes later values smaller. */
  lemma {:induction false} ProductsFall(f: int -> real, d: real, m: int, n: int)
    requires 0.0 < d < 1.0 && Geometric(f, d) && m < n && forall k :: f(k) > 0.0
    ensures f(n) < f(m)
    decreases n - m
  {
    SmallerPart(d, f(n - 1), f(n));
    if m < n - 1 { ProductsFall(f, d, m, n - 1); }
  }

  lemma SmallerPart(x: real, y: real, z: real)
    requires x < 1.0 && y > 0.0 && z == x * y
    ensures z < y
  {
    assert (1.0 - x) * y > 0.0;
  }

  /** A decay below one makes more time a smaller factor. */
  lemma PowerFalls(decay: real, m: int, n: int)
    requires 0.0 < decay < 1.0 && m < n
    ensures Power(decay, n) < Power(decay, m)
  {
    var f := Powers(decay);
    ProductsFall(f, decay, m, n);
  }

  function ScoreOf(m: map<string, real>, w: string): real {
    if w in m then m[w] else 0.0
  }

  function Stale(stamps: map<string, int>, cutoff: int): set<string> {
    set w | w in stamps && 0 <= stamps[w] <= cutoff
  }

  // Storing

  /** One more occurrence of each word in turn. */
  function Bumped(scores: map<string, real>, keywords: seq<string>): map<string, real> {
    if keywords == [] then scores
    else
      var m := Bumped(scores, keywords[..|keywords| - 1]);
      var w := keywords[|keywords| - 1];
      m[w := ScoreOf(m, w) + 1.0]
  }

  function Stamped(stamps: map<string, int>, keywords: seq<string>, now: int): map<string, int> {
    if keywords == [] then stamps
    else Stamped(stamps, keywords[..|keywords| - 1], now)[keywords[|keywords| - 1] := now]
  }

  function StoredScores(z: ZSet<real>, keywords: seq<string>, now: int, ttl: int): ZSet<real> {
    ExpireIn(z.(members := Bumped(z.members, keywords)), now, ttl)
  }

  function StoredStamps(z: ZSet<int>, keywords: seq<string>, now: int, ttl: int): ZSet<int> {
    ExpireIn(z.(members := Stamped(z.members, keywords, now)), now, ttl)
  }

  /** A store adds to each word's score its number of occurrences, and stamps exactly the words named. */
  lemma {:induction false} StoreCounts(scores: map<string, real>, stamps: map<string, int>, keywords: seq<string>,
                                       now: int)
    ensures var s, t := Bumped(scores, keywords), Stamped(stamps, keywords, now);
            && (forall w :: w in s <==> w in scores || w in keywords)
            && (forall w :: w in s ==> s[w] == ScoreOf(scores, w) + multiset(keywords)[w] as real)
            && (forall w :: w in t <==> w in stamps || w in keywords)
            && (forall w :: w in t ==> t[w] == if w in keywords then now else stamps[w])
    decreases |keywords|
  {
    if keywords != [] {
      var n := |keywords| - 1;
      assert keywords == keywords[..n] + [keywords[n]];
      StoreCounts(scores, stamps, keywords[..n], now);
    }
  }

  // The simple form of a trim

  function Scaled(x: real, factor: real): real {
    x * factor
  }

  /** What is left of a score last added to at `time`. */
  function Weight(score: real, time: int, now: int, decay: real): (r: real)
    requires decay > 0.0
    ensures r > 0.0 <==> score > 0.0
  {
    SameSign(score, Power(decay, now - time));
    Scaled(score, Power(decay, now - time))
  }

  lemma SameSign(x: real, p: real)
    requires p > 0.0
    ensures x * p > 0.0 <==> x > 0.0
  {
    if x <= 0.0 { assert -x * p >= 0.0; }
  }

  /** The decayed score of a word, unless it has no time or is worth nothing any more. */
  function NewScore(score: real, time: Option<int>, now: int, decay: real): Option<real>
    requires decay > 0.0
  {
    if time.None? then None
    else
      var s := Weight(score, time.value, now, decay);
      if s <= 0.0 then None else Some(s)
  }

  function TimeOf(stamps: map<string, int>, w: string): Option<int> {
    if w in stamps then Some(stamps[w]) else None
  }

  function Rescored(scores: map<string, real>, stamps: map<string, int>, now: int, decay: real): map<string, real>
    requires decay > 0.0
  {
    map w | w in scores && NewScore(scores[w], TimeOf(stamps, w), now, decay).Some?
      :: NewScore(scores[w], TimeOf(stamps, w), now, decay).value
  }

  /** Drop the stale words, decay once, keep the `maxSize` that rank highest. */
  ghost function TrimmedScores(scores: map<string, real>, stamps: map<string, int>, now: int, ttl: int, decay: real,
                               maxSize: int): map<string, real>
    requires decay > 0.0
  {
    var stale := Stale(stamps, now - ttl);
    var decayed := Rescored(scores - stale, stamps - stale, now, decay);
    decayed - (decayed.Keys - Top(decayed, maxSize))
  }

  /** The times of the words trimmed away go with them; a time without a score only goes when stale. */
  function TrimmedStamps(scores: map<string, real>, stamps: map<string, int>, now: int, ttl: int,
                         kept: set<string>): map<string, int>
  {
    var stale := Stale(stamps, now - ttl);
    map w | w in stamps && w !in stale && (w in scores ==> w in kept) :: stamps[w]
  }

  /** A key keeps its expiry while it exists. */
  function Deadline<V>(members: map<string, V>, before: Option<int>): Option<int> {
    if members == map[] then None else before
  }

  lemma DeadlineChain<V>(mid: map<string, V>, last: map<string, V>, before: Option<int>)
    requires last.Keys <= mid.Keys
    ensures Deadline(last, Deadline(mid, before)) == Deadline(last, before)
  {
    if last != map[] {
      assert last.Keys != {};
    }
  }

  function Elems(words: seq<string>): set<string> {
    set w | w in words
  }

  ghost predicate Distinct(words: seq<string>) {
    forall i, j :: 0 <= i < j < |words| ==> words[i] != words[j]
  }

  lemma DistinctAppend(words: seq<string>, w: string)
    requires Distinct(words) && w !in Elems(words)
    ensures Distinct(words + [w]) && Elems(words + [w]) == Elems(words) + {w}
  {
    assert forall i :: 0 <= i < |words| ==> words[i] in Elems(words);
  }

  lemma SliceGrow(words: seq<string>, k: nat, i: nat)
    requires k <= i < |words|
    ensures words[k..i] + [words[i]] == words[k..i + 1]
  {
  }

  lemma DistinctSlice(words: seq<string>, k: nat, i: nat)
    requires Distinct(words) && k <= i <= |words|
    ensures Distinct(words[k..i])
    ensures Elems(words[..k]) !! Elems(words[k..i]) && Elems(words[..i]) == Elems(words[..k]) + Elems(words[k..i])
    ensures Elems(words[k..i]) <= Elems(words)
  {
    assert words[..i] == words[..k] + words[k..i];
  }

  lemma ValuesAppend(m: map<string, real>, words: seq<string>, w: string)
    requires Elems(words) <= m.Keys && w in m
    ensures Elems(words + [w]) <= m.Keys && ValuesOf(m, words + [w]) == ValuesOf(m, words) + [m[w]]
  {
  }

  function ValuesOf(m: map<string, real>, words: seq<string>): seq<real>
    requires Elems(words) <= m.Keys
  {
    assert forall i :: 0 <= i < |words| ==> words[i] in Elems(words);
    seq(|words|, i requires 0 <= i < |words| => m[words[i]])
  }

  /** `words` and `values` are the scanned words from k up to i and their scores. */
  ghost predicate Gathered(m: map<string, real>, scanned: seq<string>, k: nat, i: nat, words: seq<string>,
                           values: seq<real>)
    requires k <= i <= |scanned|
  {
    && words == scanned[k..i]
    && Elems(words) <= m.Keys && values == ValuesOf(m, words)
  }

  lemma GatheredNone(m: map<string, real>, scanned: seq<string>, k: nat)
    requires k <= |scanned|
    ensures Gathered(m, scanned, k, k, [], []) && Elems(scanned[..0]) == {}
  {
    assert scanned[k..k] == [];
  }

  lemma GatheredAll(m: map<string, real>, scanned: seq<string>, k: nat, words: seq<string>, values: seq<real>)
    requires k <= |scanned| && Gathered(m, scanned, k, |scanned|, words, values)
    ensures Elems(scanned[..|scanned|]) == Elems(scanned)
    ensures words == [] ==> Elems(scanned[..k]) == Elems(scanned)
  {
    assert scanned[..|scanned|] == scanned;
    assert |words| == |scanned| - k;
  }

  lemma GatherOne(m: map<string, real>, scanned: seq<string>, k: nat, i: nat, words: seq<string>, values: seq<real>)
    requires k <= i < |scanned| && Gathered(m, scanned, k, i, words, values) && scanned[i] in m
    ensures Gathered(m, scanned, k, i + 1, words + [scanned[i]], values + [m[scanned[i]]])
  {
    ValuesAppend(m, words, scanned[i]);
    SliceGrow(scanned, k, i);
  }

  /**
   The state after the words in `done` have got their new scores; a word `next` has no score for
   is dropped from both sets.
   */
  function PartlyScored(scores: map<string, real>, next: map<string, real>, done: set<string>): map<string, real> {
    map w | w in scores && (w in done ==> w in next) :: if w in done then next[w] else scores[w]
  }

  function PartlyStamped(stamps: map<string, int>, next: map<string, real>, done: set<string>): map<string, int> {
    map w | w in stamps && (w in done ==> w in next) :: stamps[w]
  }

  lemma OneMoreWord(scores: map<string, real>, stamps: map<string, int>, next: map<string, real>, done: set<string>,
                    w: string)
    requires w in scores && w !in done
    ensures var s, t := PartlyScored(scores, next, done), PartlyStamped(stamps, next, done);
            var s', t' := PartlyScored(scores, next, done + {w}), PartlyStamped(stamps, next, done + {w});
            && w in s && s[w] == scores[w] && (w in t <==> w in stamps)
            && s' == (if w in next then s[w := next[w]] else s - {w})
            && t' == (if w in next then t else t - {w})
  {
    var s, s' := PartlyScored(scores, next, done), PartlyScored(scores, next, done + {w});
    var v := if w in next then s[w := next[w]] else s - {w};
    assert s'.Keys == v.Keys;
    assert forall x :: x in v ==> s'[x] == v[x];
    assert s' == v;
  }

  /** s and t are z and y once the words in `done` have their new scores. */
  ghost predicate Handled(z: ZSet<real>, y: ZSet<int>, next: map<string, real>, done: set<string>,
                          s: ZSet<real>, t: ZSet<int>)
  {
    && s.members == PartlyScored(z.members, next, done)
    && t.members == PartlyStamped(y.members, next, done)
    && s.deadline == Deadline(s.members, z.deadline)
    && t.deadline == Deadline(t.members, y.deadline)
  }

  lemma HandleOneMore(z: ZSet<real>, y: ZSet<int>, next: map<string, real>, done: set<string>, w: string,
                      s: ZSet<real>, t: ZSet<int>, s': ZSet<real>, t': ZSet<int>)
    requires w in z.members && w !in done && Handled(z, y, next, done, s, t)
    requires s'.members == if w in next then s.members[w := next[w]] else s.members - {w}
    requires t'.members == if w in next then t.members else t.members - {w}
    requires s'.deadline == Deadline(s'.members, s.deadline) && t'.deadline == Deadline(t'.members, t.deadline)
    ensures Handled(z, y, next, done + {w}, s', t')
  {
    OneMoreWord(z.members, y.members, next, done, w);
    assert s.members == map[] ==> s'.members == map[];
    assert t.members == map[] ==> t'.members == map[];
  }

  /** Batches compose: rescoring `more` after `done` is rescoring them together. */
  lemma ChunksCompose(scores: map<string, real>, stamps: map<string, int>, done: set<string>, more: set<string>,
                      now: int, decay: real)
    requires decay > 0.0 && more <= scores.Keys && done !! more
    ensures var next := Rescored(scores, stamps, now, decay);
            var s, t := PartlyScored(scores, next, done), PartlyStamped(stamps, next, done);
            var next' := Rescored(s, t, now, decay);
            && PartlyScored(s, next', more) == PartlyScored(scores, next, done + more)
            && PartlyStamped(t, next', more) == PartlyStamped(stamps, next, done + more)
  {
    var next := Rescored(scores, stamps, now, decay);
    var s, t := PartlyScored(scores, next, done), PartlyStamped(stamps, next, done);
    var next' := Rescored(s, t, now, decay);
    forall w | w in more ensures (w in next' <==> w in next) && (w in next ==> next'[w] == next[w]) {
      assert w in s && s[w] == scores[w] && TimeOf(t, w) == TimeOf(stamps, w);
    }
    var a, b := PartlyScored(s, next', more), PartlyScored(scores, next, done + more);
    assert a.Keys == b.Keys;
    assert forall x :: x in b ==> a[x] == b[x];
    assert a == b;
    var c, d := PartlyStamped(t, next', more), PartlyStamped(stamps, next, done + more);
    assert c.Keys == d.Keys;
  }

  lemma StampsCompose(s: map<string, real>, t: map<string, int>, stale: set<string>, next: map<string, real>,
                      kept: set<string>)
    requires next.Keys <= (s - stale).Keys && kept <= next.Keys
    ensures PartlyStamped(t - stale, next, (s - stale).Keys) - (next.Keys - kept)
            == map w | w in t && w !in stale && (w in s ==> w in kept) :: t[w]
  {
  }

  lemma KeptScores(s: map<string, real>, t: map<string, int>, now: int, ttl: int, decay: real, maxSize: int,
                   next: map<string, real>, kept: map<string, real>)
    requires decay > 0.0
    requires next == Rescored(s - Stale(t, now - ttl), t - Stale(t, now - ttl), now, decay)
    requires kept.Keys == Top(next, maxSize) && kept == next - (next.Keys - kept.Keys)
    ensures kept == TrimmedScores(s, t, now, ttl, decay, maxSize)
  {
  }

  lemma NoneHandled(z: ZSet<real>, y: ZSet<int>, next: map<string, real>)
    requires (z.members == map[] ==> z.deadline == None) && (y.members == map[] ==> y.deadline == None)
    ensures Handled(z, y, next, {}, z, y)
  {
    assert PartlyScored(z.members, next, {}) == z.members;
    assert PartlyStamped(y.members, next, {}) == y.members;
  }

  lemma AllHandled(z: ZSet<real>, y: ZSet<int>, next: map<string, real>, s: ZSet<real>, t: ZSet<int>)
    requires next.Keys <= z.members.Keys && Handled(z, y, next, z.members.Keys, s, t)
    ensures s.members == next && t.members == PartlyStamped(y.members, next, z.members.Keys)
  {
    assert PartlyScored(z.members, next, z.members.Keys) == next;
  }

  function TimesOf(stamps: map<string, int>, words: seq<string>): seq<Option<int>> {
    seq(|words|, i requires 0 <= i < |words| => TimeOf(stamps, words[i]))
  }

  class TrendingStore {
    var scores: ZSet<real>
    var stamps: ZSet<int>

    constructor ()
      ensures scores == EmptyZSet() && stamps == EmptyZSet()
    {
      scores, stamps := EmptyZSet(), EmptyZSet();
    }

    /** A missing key has no expiry. */
    ghost predicate Valid()
      reads this
    {
      && (scores.members == map[] ==> scores.deadline == None)
      && (stamps.members == map[] ==> stamps.deadline == None)
    }

    method StoreKeywords(keywords: seq<string>, now: int, ttl: int)
      requires Valid()
      modifies this
      ensures Valid()
      ensures scores == StoredScores(old(scores), keywords, now, ttl)
      ensures stamps == StoredStamps(old(stamps), keywords, now, ttl)
      ensures ttl > 0 && keywords != [] ==> scores.deadline == stamps.deadline == Some(now + ttl)
      ensures ttl > 0 ==> forall w :: w in keywords ==>
                && w in scores.members && w in stamps.members && stamps.members[w] == now
                && scores.members[w] == ScoreOf(old(scores).members, w) + multiset(keywords)[w] as real
    {
      var i := 0;
      while i < |keywords|
        invariant 0 <= i <= |keywords|
        invariant scores == old(scores).(members := Bumped(old(scores).members, keywords[..i]))
        invariant stamps == old(stamps).(members := Stamped(old(stamps).members, keywords[..i], now))
      {
        var word := keywords[i];
        assert keywords[..i + 1][..i] == keywords[..i];
        scores := Put(scores, word, ScoreOf(scores.members, word) + 1.0);
        stamps := Put(stamps, word, now);
        i := i + 1;
      }
      assert keywords[..i] == keywords;
      StoreCounts(old(scores).members, old(stamps).members, keywords, now);
      scores := ExpireIn(scores, now, ttl);
      stamps := ExpireIn(stamps, now, ttl);
    }

    /** ZSCAN over a snapshot: every member once with its score, in whatever order. */
    method ScanScores() returns (words: seq<string>, values: seq<real>)
      ensures Distinct(words) && Elems(words) == scores.members.Keys
      ensures values == ValuesOf(scores.members, words)
    {
      words := [];
      var rest := scores.members.Keys;
      while rest != {}
        invariant Distinct(words)
        invariant Elems(words) + rest == scores.members.Keys && Elems(words) !! rest
        decreases |rest|
      {
        var w :| w in rest;
        DistinctAppend(words, w);
        words, rest := words + [w], rest - {w};
      }
      values := ValuesOf(scores.members, words);
    }

    /** Decays one batch of scanned words, reading all their times first. */
    method ProcessChunk(words: seq<string>, values: seq<real>, now: int, decay: real)
      requires Valid() && decay > 0.0 && |words| == |values|
      requires Distinct(words)
      requires Elems(words) <= scores.members.Keys && values == ValuesOf(scores.members, words)
      modifies this
      ensures var next := Rescored(old(scores.members), old(stamps.members), now, decay);
              && scores.members == PartlyScored(old(scores.members), next, Elems(words))
              && stamps.members == PartlyStamped(old(stamps.members), next, Elems(words))
      ensures scores.deadline == Deadline(scores.members, old(scores).deadline)
      ensures stamps.deadline == Deadline(stamps.members, old(stamps).deadline)
    {
      var times := TimesOf(stamps.members, words);
      ghost var z, y := scores, stamps;
      ghost var next := Rescored(z.members, y.members, now, decay);
      var i := 0;
      while i < |words|
        invariant 0 <= i <= |words|
        invariant Valid() && Handled(z, y, next, Elems(words[..i]), scores, stamps)
      {
        assert Elems(words[..i + 1]) == Elems(words[..i]) + {words[i]} && words[i] !in Elems(words[..i]);
        assert words[i] in Elems(words) && values[i] == z.members[words[i]];
        ProcessWord(words[i], NewScore(values[i], times[i], now, decay), z, y, next, Elems(words[..i]));
        i := i + 1;
      }
      assert words[..i] == words;
    }

    /** One word of a batch, after the words in `done`. */
    method ProcessWord(w: string, newScore: Option<real>, ghost z: ZSet<real>, ghost y: ZSet<int>,
                       ghost next: map<string, real>, ghost done: set<string>)
      requires Valid() && Handled(z, y, next, done, scores, stamps)
      requires w in z.members && w !in done && newScore == if w in next then Some(next[w]) else None
      modifies this
      ensures Valid() && Handled(z, y, next, done + {w}, scores, stamps)
    {
      ghost var s, t := scores, stamps;
      OneMoreWord(z.members, y.members, next, done, w);
      Rescore(w, newScore);
      HandleOneMore(z, y, next, done, w, s, t, scores, stamps);
    }

    /** ZADD of the new score, or ZREM from both sets. */
    method Rescore(w: string, newScore: Option<real>)
      requires Valid() && w in scores.members
      modifies this
      ensures Valid()
      ensures scores.members == if newScore.Some? then old(scores.members)[w := newScore.value]
                                else old(scores.members) - {w}
      ensures stamps.members == if newScore.Some? then old(stamps.members) else old(stamps.members) - {w}
      ensures scores.deadline == Deadline(scores.members, old(scores).deadline)
      ensures stamps.deadline == Deadline(stamps.members, old(stamps).deadline)
    {
      if newScore.None? {
        scores, stamps := Remove(scores, {w}), Remove(stamps, {w});
      } else {
        scores := Put(scores, w, newScore.value);
      }
    }

    /** The sets once the words in `done` have been handled; z and y are the sets as scanned. */
    ghost predicate Progress(z: ZSet<real>, y: ZSet<int>, next: map<string, real>, done: set<string>)
      reads this
    {
      Handled(z, y, next, done, scores, stamps)
    }

    /** One batch on top of the words already `done`. */
    method Flush(words: seq<string>, values: seq<real>, now: int, decay: real, ghost z: ZSet<real>, ghost y: ZSet<int>,
                 ghost done: set<string>, ghost goal: set<string>)
      requires decay > 0.0 && Distinct(words) && Elems(words) <= z.members.Keys
      requires values == ValuesOf(z.members, words)
      requires done !! Elems(words) && goal == done + Elems(words)
      requires Progress(z, y, Rescored(z.members, y.members, now, decay), done)
      modifies this
      ensures Progress(z, y, Rescored(z.members, y.members, now, decay), goal)
    {
      ChunksCompose(z.members, y.members, done, Elems(words), now, decay);
      assert Elems(words) <= scores.members.Keys;
      assert values == ValuesOf(scores.members, words);
      ghost var s, t := scores.members, stamps.members;
      ProcessChunk(words, values, now, decay);
      DeadlineChain(s, scores.members, z.deadline);
      DeadlineChain(t, stamps.members, y.deadline);
    }

    /** Decays every scanned word, `batch` words at a time. */
    method DecayAll(now: int, decay: real, batch: nat)
      requires Valid() && decay > 0.0 && batch > 0
      modifies this
      ensures scores.members == Rescored(old(scores.members), old(stamps.members), now, decay)
      ensures stamps.members == PartlyStamped(old(stamps.members), scores.members, old(scores.members).Keys)
      ensures scores.deadline == Deadline(scores.members, old(scores).deadline)
      ensures stamps.deadline == Deadline(stamps.members, old(stamps).deadline)
    {
      ghost var z, y := scores, stamps;
      var scanned, scannedValues := ScanScores();
      NoneHandled(z, y, Rescored(z.members, y.members, now, decay));
      DecayScanned(scanned, scannedValues, now, decay, batch, z, y);
      AllHandled(z, y, Rescored(z.members, y.members, now, decay), scores, stamps);
    }

    /** The loop over the scanned words. */
    method DecayScanned(scanned: seq<string>, scannedValues: seq<real>, now: int, decay: real, batch: nat,
                        ghost z: ZSet<real>, ghost y: ZSet<int>)
      requires decay > 0.0 && batch > 0 && Distinct(scanned) && Elems(scanned) == z.members.Keys
      requires scannedValues == ValuesOf(z.members, scanned)
      requires Progress(z, y, Rescored(z.members, y.members, now, decay), {})
      modifies this
      ensures Progress(z, y, Rescored(z.members, y.members, now, decay), z.members.Keys)
    {
      ghost var next := Rescored(z.members, y.members, now, decay);
      var words: seq<string>, values: seq<real> := [], [];
      ghost var k: nat := 0;
      var i: nat := 0;
      GatheredNone(z.members, scanned, 0);
      while i < |scanned|
        invariant k <= i <= |scanned| && Gathered(z.members, scanned, k, i, words, values)
        invariant Progress(z, y, next, Elems(scanned[..k]))
      {
        assert scanned[i] in Elems(scanned);
        words, values, k := Take(scanned, scannedValues[i], k, i, words, values, now, decay, batch, z, y);
        i := i + 1;
      }
      GatheredAll(z.members, scanned, k, words, values);
      if words != [] {
        FlushGathered(scanned, k, i, words, values, now, decay, z, y);
      }
    }

    /** Gathers one scanned word, and handles the batch when it is full. */
    method Take(scanned: seq<string>, value: real, ghost k: nat, i: nat, words: seq<string>, values: seq<real>,
                now: int, decay: real, batch: nat, ghost z: ZSet<real>, ghost y: ZSet<int>)
      returns (gathered: seq<string>, taken: seq<real>, ghost from: nat)
      requires decay > 0.0 && Distinct(scanned) && k <= i < |scanned|
      requires scanned[i] in z.members && value == z.members[scanned[i]]
      requires Gathered(z.members, scanned, k, i, words, values)
      requires Progress(z, y, Rescored(z.members, y.members, now, decay), Elems(scanned[..k]))
      modifies this
      ensures from <= i + 1 && Gathered(z.members, scanned, from, i + 1, gathered, taken)
      ensures Progress(z, y, Rescored(z.members, y.members, now, decay), Elems(scanned[..from]))
    {
      GatherOne(z.members, scanned, k, i, words, values);
      gathered, taken, from := words + [scanned[i]], values + [value], k;
      if |gathered| >= batch {
        FlushGathered(scanned, k, i + 1, gathered, taken, now, decay, z, y);
        GatheredNone(z.members, scanned, i + 1);
        gathered, taken, from := [], [], i + 1;
      }
    }

    /** Handles the words gathered so far, as one batch. */
    method FlushGathered(ghost scanned: seq<string>, ghost k: nat, ghost i: nat, words: seq<string>, values: seq<real>,
                         now: int, decay: real, ghost z: ZSet<real>, ghost y: ZSet<int>)
      requires decay > 0.0 && Distinct(scanned) && k <= i <= |scanned|
      requires Gathered(z.members, scanned, k, i, words, values)
      requires Progress(z, y, Rescored(z.members, y.members, now, decay), Elems(scanned[..k]))
      modifies this
      ensures Progress(z, y, Rescored(z.members, y.members, now, decay), Elems(scanned[..i]))
    {
      DistinctSlice(scanned, k, i);
      Flush(words, values, now, decay, z, y, Elems(scanned[..k]), Elems(scanned[..i]));
    }

    method DropStale(cutoff: int)
      requires Valid()
      modifies this
      ensures scores.members == old(scores.members) - Stale(old(stamps.members), cutoff)
      ensures stamps.members == old(stamps.members) - Stale(old(stamps.members), cutoff)
      ensures scores.deadline == Deadline(scores.members, old(scores).deadline)
      ensures stamps.deadline == Deadline(stamps.members, old(stamps).deadline)
    {
      var stale := Stale(stamps.members, cutoff);
      if stale != {} {
        scores := Remove(scores, stale);
      }
      stamps := Remove(stamps, stale);
    }

    method LimitSize(maxSize: int)
      requires Valid()
      modifies this
      ensures scores.members.Keys == Top(old(scores.members), maxSize)
      ensures scores.members == old(scores.members) - (old(scores.members).Keys - scores.members.Keys)
      ensures stamps.members == old(stamps.members) - (old(scores.members).Keys - scores.members.Keys)
      ensures scores.deadline == Deadline(scores.members, old(scores).deadline)
      ensures stamps.deadline == Deadline(stamps.members, old(stamps).deadline)
    {
      var size := |scores.members|;
      if size > maxSize {
        DropLowest(size, maxSize);
      } else {
        AllIsTop(scores.members, maxSize);
      }
    }

    /** Removes from both sets the words that rank below the `maxSize` highest. */
    method DropLowest(size: nat, maxSize: int)
      requires Valid() && size == |scores.members| > maxSize
      modifies this
      ensures scores.members.Keys == Top(old(scores.members), maxSize)
      ensures scores.members == old(scores.members) - (old(scores.members).Keys - scores.members.Keys)
      ensures stamps.members == old(stamps.members) - (old(scores.members).Keys - scores.members.Keys)
      ensures scores.deadline == Deadline(scores.members, old(scores).deadline)
      ensures stamps.deadline == Deadline(stamps.members, old(stamps).deadline)
    {
      ghost var m := scores.members;
      var excess := ZRangeLowest(scores.members, size - maxSize);
      LeftIsTop(m, excess, maxSize);
      if excess != {} {
        scores, stamps := Remove(scores, excess), Remove(stamps, excess);
      }
    }

    method DropAndDecay(now: int, ttl: int, decay: real, batch: nat)
      requires Valid() && decay > 0.0 && batch > 0
      modifies this
      ensures var stale := Stale(old(stamps.members), now - ttl);
              var s, t := old(scores.members) - stale, old(stamps.members) - stale;
              && scores.members == Rescored(s, t, now, decay)
              && stamps.members == PartlyStamped(t, scores.members, s.Keys)
      ensures scores.deadline == Deadline(scores.members, old(scores).deadline)
      ensures stamps.deadline == Deadline(stamps.members, old(stamps).deadline)
    {
      ghost var stale := Stale(stamps.members, now - ttl);
      ghost var s1, t1 := scores.members - stale, stamps.members - stale;
      DropStale(now - ttl);
      assert scores.members == s1 && stamps.members == t1;
      DecayAll(now, decay, batch);
      DeadlineChain(s1, scores.members, old(scores).deadline);
      DeadlineChain(t1, stamps.members, old(stamps).deadline);
    }

    /** The batches leave no trace in the result. */
    method TrimKeywords(maxSize: int, now: int, ttl: int, decay: real, batch: nat)
      requires Valid() && decay > 0.0 && batch > 0
      modifies this
      ensures Valid()
      ensures scores.members == TrimmedScores(old(scores.members), old(stamps.members), now, ttl, decay, maxSize)
      ensures stamps.members == TrimmedStamps(old(scores.members), old(stamps.members), now, ttl, scores.members.Keys)
      ensures scores.deadline == Deadline(scores.members, old(scores).deadline)
      ensures stamps.deadline == Deadline(stamps.members, old(stamps).deadline)
    {
      DropAndDecay(now, ttl, decay, batch);
      ghost var next, t2 := scores.members, stamps.members;
      LimitSize(maxSize);
      KeptScores(old(scores.members), old(stamps.members), now, ttl, decay, maxSize, next, scores.members);
      DeadlineChain(next, scores.members, old(scores).deadline);
      DeadlineChain(t2, stamps.members, old(stamps).deadline);
      StampsCompose(old(scores.members), old(stamps.members), Stale(old(stamps.members), now - ttl), next,
                    scores.members.Keys);
    }
  }

  lemma AllIsTop(m: map<string, real>, maxSize: int)
    requires |m| <= maxSize
    ensures m.Keys == Top(m, maxSize)
  {
    assert |m.Keys| == |m|;
    TopUnique(m.Keys, Top(m, maxSize), m, maxSize);
  }

  lemma LeftIsTop(m: map<string, real>, excess: set<string>, maxSize: int)
    requires |m| > maxSize && excess <= m.Keys && Below(m, excess, m.Keys)
    requires |excess| == if |m| - maxSize < |m.Keys| then |m| - maxSize else |m.Keys|
    ensures (m - excess).Keys == Top(m, maxSize) && m.Keys - (m - excess).Keys == excess
  {
    KeptIsTop(m, excess, maxSize);
    TopUnique(m.Keys - excess, Top(m, maxSize), m, maxSize);
    assert (m - excess).Keys == m.Keys - excess;
  }

  lemma KeptIsTop(m: map<string, real>, excess: set<string>, maxSize: int)
    requires |m| > maxSize && excess <= m.Keys && Below(m, excess, m.Keys)
    requires |excess| == if |m| - maxSize < |m.Keys| then |m| - maxSize else |m.Keys|
    ensures IsTop(m.Keys - excess, m, maxSize)
  {
    assert |m.Keys| == |m|;
    assert m.Keys == (m.Keys - excess) + excess;
  }
}
