/** Redis sorted sets, as far as the trending code uses them, and the order they rank members in. */
module SortedSets {
  import opened Options

  /** A key that becomes empty disappears, and its expiry with it. */
  datatype ZSet<V> = ZSet(members: map<string, V>, deadline: Option<int>)

  function EmptyZSet<V>(): ZSet<V> {
    ZSet(map[], None)
  }

  function Put<V>(z: ZSet<V>, word: string, value: V): ZSet<V> {
    z.(members := z.members[word := value])
  }

  function Remove<V>(z: ZSet<V>, words: set<string>): ZSet<V> {
    var left := z.members - words;
    if left == map[] then EmptyZSet() else ZSet(left, z.deadline)
  }

  /** EXPIRE does nothing to a missing key, and deletes at once when the time is not positive. */
  function ExpireIn<V>(z: ZSet<V>, now: int, ttl: int): ZSet<V> {
    if z.members == map[] then z
    else if ttl <= 0 then EmptyZSet()
    else z.(deadline := Some(now + ttl))
  }

  function Sweep<V>(z: ZSet<V>, now: int): ZSet<V> {
    if z.deadline.Some? && z.deadline.value <= now then EmptyZSet() else z
  }

  // The order of ZRANGE: by score, then by the bytes of the word

  predicate LexLess(a: string, b: string) {
    b != [] && (a == [] || a[0] < b[0] || (a[0] == b[0] && LexLess(a[1..], b[1..])))
  }

  lemma {:induction false} LexTotal(a: string, b: string)
    ensures LexLess(a, b) || LexLess(b, a) || a == b
    ensures !(LexLess(a, b) && LexLess(b, a)) && (a == b ==> !LexLess(a, b))
    decreases |a|
  {
    if a != [] && b != [] && a[0] == b[0] {
      LexTotal(a[1..], b[1..]);
      assert a == [a[0]] + a[1..] && b == [b[0]] + b[1..];
    }
  }

  lemma {:induction false} LexTransitive(a: string, b: string, c: string)
    requires LexLess(a, b) && LexLess(b, c)
    ensures LexLess(a, c)
    decreases |a|
  {
    if a != [] && b != [] && c != [] && a[0] == b[0] == c[0] {
      LexTransitive(a[1..], b[1..], c[1..]);
    }
  }

  /** `a` comes before `b` in ascending order. */
  predicate Before(m: map<string, real>, a: string, b: string)
    requires a in m && b in m
  {
    m[a] < m[b] || (m[a] == m[b] && LexLess(a, b))
  }

  /** Every member of `low` comes before every other word of `among`. */
  ghost predicate Below(m: map<string, real>, low: set<string>, among: set<string>)
    requires low <= m.Keys && among <= m.Keys
  {
    forall a, b :: a in low && b in among && b !in low ==> Before(m, a, b)
  }

  method LowestOf(m: map<string, real>, among: set<string>) returns (low: string)
    requires among != {} && among <= m.Keys
    ensures low in among && forall b :: b in among && b != low ==> Before(m, low, b)
  {
    low :| low in among;
    var rest := among - {low};
    ghost var seen := {low};
    while rest != {}
      invariant seen + rest == among && seen !! rest && low in seen
      invariant forall b :: b in seen && b != low ==> Before(m, low, b)
      decreases |rest|
    {
      var w :| w in rest;
      LexTotal(w, low);
      if Before(m, w, low) {
        forall b | b in seen && b != low ensures Before(m, w, b) {
          if LexLess(w, low) && LexLess(low, b) { LexTransitive(w, low, b); }
        }
        low := w;
      }
      seen := seen + {w};
      rest := rest - {w};
    }
  }

  /** ZRANGE 0 n-1: the n members that come first, or all of them when there are fewer. */
  method ZRangeLowest(m: map<string, real>, n: int) returns (low: set<string>)
    ensures low <= m.Keys && Below(m, low, m.Keys)
    ensures |low| == if n < 0 then 0 else if n < |m.Keys| then n else |m.Keys|
  {
    low := {};
    var rest := m.Keys;
    while rest != {} && |low| < n
      invariant low + rest == m.Keys && low !! rest && |low| <= (if n < 0 then 0 else n)
      invariant Below(m, low, m.Keys)
      decreases |rest|
    {
      var w := LowestOf(m, rest);
      assert |m.Keys| == |low| + |rest|;
      low, rest := low + {w}, rest - {w};
    }
    assert |m.Keys| == |low| + |rest|;
  }

  /** `kept` are the `size` words that rank highest (all of them if there are fewer). */
  ghost predicate IsTop(kept: set<string>, m: map<string, real>, size: int) {
    && kept <= m.Keys
    && |kept| == (if size < 0 then 0 else if size < |m.Keys| then size else |m.Keys|)
    && forall a, b :: a in kept && b in m.Keys && b !in kept ==> Before(m, b, a)
  }

  lemma TopIncluded(k1: set<string>, k2: set<string>, m: map<string, real>, size: int)
    requires IsTop(k1, m, size) && IsTop(k2, m, size)
    ensures k1 <= k2
  {
    assert k1 == (k1 - k2) + (k1 * k2) && k2 == (k2 - k1) + (k1 * k2);
    assert |k1 - k2| == |k2 - k1|;
    forall a | a in k1 ensures a in k2 {
      if a !in k2 {
        assert a in k1 - k2;
        var b :| b in k2 - k1;
        LexTotal(a, b);
        assert false;
      }
    }
  }

  /** The top set is unique, so the ranking determines what a trim keeps. */
  lemma TopUnique(k1: set<string>, k2: set<string>, m: map<string, real>, size: int)
    requires IsTop(k1, m, size) && IsTop(k2, m, size)
    ensures k1 == k2
  {
    TopIncluded(k1, k2, m, size);
    TopIncluded(k2, k1, m, size);
  }

  ghost function Top(m: map<string, real>, size: int): (kept: set<string>)
    ensures IsTop(kept, m, size)
  {
    TopExists(m, size, m.Keys);
    var kept :| IsTop(kept, m, size);
    kept
  }

  /** The lowest word of a nonempty set; what `LowestOf` computes. */
  lemma {:induction false} LowestExists(m: map<string, real>, among: set<string>) returns (low: string)
    requires among != {} && among <= m.Keys
    ensures low in among && forall b :: b in among && b != low ==> Before(m, low, b)
    decreases |among|
  {
    low :| low in among;
    var rest := among - {low};
    if rest != {} {
      var other := LowestExists(m, rest);
      LexTotal(low, other);
      if Before(m, other, low) {
        low := other;
      } else {
        forall b | b in among && b != low ensures Before(m, low, b) {
          assert b == other || (b in rest && Before(m, other, b));
          if b != other && LexLess(low, other) && LexLess(other, b) { LexTransitive(low, other, b); }
        }
      }
    }
  }

  /** Removing the lowest words one by one from `kept` reaches every size. */
  lemma {:induction false} TopExists(m: map<string, real>, size: int, kept: set<string>)
    requires kept <= m.Keys && forall a, b :: a in kept && b in m.Keys && b !in kept ==> Before(m, b, a)
    requires |kept| >= (if size < 0 then 0 else if size < |m.Keys| then size else |m.Keys|)
    ensures exists top :: IsTop(top, m, size)
    decreases |kept|
  {
    if IsTop(kept, m, size) {
    } else {
      var low := LowestExists(m, kept);
      TopExists(m, size, kept - {low});
    }
  }
}
