/** Splitting a file into numbered parts, uploading them in any order, and putting them together again. */
module MultipartUpload {
  import opened Options
  import opened Sequences

  type Bytes = seq<bv8>

  datatype Part = Part(number: nat, body: Bytes)

  function Min(a: nat, b: nat): nat {
    if a < b then a else b
  }

  /** The slices at offsets 0, chunk, 2*chunk, ..., numbered from `number`. */
  function Parts(data: Bytes, chunk: nat, number: nat := 1): (parts: seq<Part>)
    requires chunk > 0
    decreases |data|
  {
    if data == [] then []
    else
      var n := Min(chunk, |data|);
      [Part(number, data[..n])] + Parts(data[n..], chunk, number + 1)
  }

  /** What the store holds once the parts of `order` have arrived, in that order. */
  function Arrived(order: seq<Part>): map<nat, Bytes> {
    if order == [] then map[]
    else Arrived(order[..|order| - 1])[order[|order| - 1].number := order[|order| - 1].body]
  }

  function Insert(n: nat, sorted: seq<nat>): seq<nat> {
    if sorted == [] || n <= sorted[0] then [n] + sorted else [sorted[0]] + Insert(n, sorted[1..])
  }

  /** sorted(): ascending part numbers. */
  function Sorted(numbers: seq<nat>): seq<nat> {
    if numbers == [] then [] else Insert(numbers[0], Sorted(numbers[1..]))
  }

  function Numbers(parts: seq<Part>): seq<nat> {
    if parts == [] then [] else [parts[0].number] + Numbers(parts[1..])
  }

  /** Completing the upload concatenates the listed parts. */
  function Assembled(stored: map<nat, Bytes>, listed: seq<nat>): Bytes {
    if listed == [] then []
    else (if listed[0] in stored then stored[listed[0]] else []) + Assembled(stored, listed[1..])
  }

  /** The part numbers sent. */
  function Sent(order: seq<Part>): set<nat> {
    set p | p in order :: p.number
  }

  /**
   A multipart upload whose parts arrive in `order` and are reported in `reported`. If a part in `failing`
   was sent, or completing fails, the upload is aborted and the error raised.
   */
  function Upload(order: seq<Part>, reported: seq<Part>, failing: set<nat>, completes: bool): Option<Bytes> {
    if !(Sent(order) !! failing) || !completes then None
    else Some(Assembled(Arrived(order), Sorted(Numbers(reported))))
  }

  // The parts

  /** The quotient is the only q with q*c at most m and less than one c below it. */
  lemma QuotientIs(m: nat, c: nat, q: nat)
    requires c > 0 && q * c <= m < q * c + c
    ensures m / c == q
  {
    var d := m / c - q;
    assert m == c * (m / c) + m % c;
    assert c * (m / c) == c * d + q * c;
    assert d >= 1 ==> c * d >= c;
    assert d <= -1 ==> c * d + c <= 0;
  }

  lemma {:induction false} PartCount(data: Bytes, chunk: nat, number: nat)
    requires chunk > 0
    ensures var k := |Parts(data, chunk, number)|; (k - 1) * chunk < |data| <= k * chunk
    decreases |data|
  {
    if data != [] {
      var rest := data[Min(chunk, |data|)..];
      PartCount(rest, chunk, number + 1);
      var k := |Parts(rest, chunk, number + 1)|;
      assert (k + 1) * chunk == k * chunk + chunk;
      assert (k - 1) * chunk == k * chunk - chunk;
    }
  }

  /** There are ⌈len/chunk⌉ parts, numbered consecutively; all but the last are exactly one chunk. */
  lemma {:induction false} PartShapes(data: Bytes, chunk: nat, number: nat)
    requires chunk > 0
    ensures var parts := Parts(data, chunk, number);
            && |parts| == (|data| + chunk - 1) / chunk
            && (forall i :: 0 <= i < |parts| ==> parts[i].number == number + i)
            && (forall i :: 0 <= i < |parts| - 1 ==> |parts[i].body| == chunk)
            && (|parts| > 0 ==> 0 < |parts[|parts| - 1].body| <= chunk)
    decreases |data|
  {
    var k := |Parts(data, chunk, number)|;
    PartCount(data, chunk, number);
    assert (k - 1) * chunk == k * chunk - chunk;
    QuotientIs(|data| + chunk - 1, chunk, k);
    if data != [] {
      PartShapes(data[Min(chunk, |data|)..], chunk, number + 1);
    }
  }

  ghost predicate Holds(stored: map<nat, Bytes>, parts: seq<Part>) {
    forall p :: p in parts ==> p.number in stored && stored[p.number] == p.body
  }

  lemma {:induction false} AssembledParts(data: Bytes, chunk: nat, number: nat, stored: map<nat, Bytes>)
    requires chunk > 0
    requires Holds(stored, Parts(data, chunk, number))
    ensures Assembled(stored, Numbers(Parts(data, chunk, number))) == data
    decreases |data|
  {
    if data != [] {
      var n := Min(chunk, |data|);
      var first, rest := Part(number, data[..n]), Parts(data[n..], chunk, number + 1);
      HoldsCons(stored, first, rest);
      AssembledParts(data[n..], chunk, number + 1, stored);
      AssembledStep(stored, first, rest, data[n..]);
      CutAndJoin(data, n);
    }
  }

  lemma CutAndJoin(data: Bytes, n: nat)
    requires n <= |data|
    ensures data[..n] + data[n..] == data
  {
  }

  lemma AssembledStep(stored: map<nat, Bytes>, p: Part, rest: seq<Part>, tail: Bytes)
    requires p.number in stored && stored[p.number] == p.body && Assembled(stored, Numbers(rest)) == tail
    ensures Assembled(stored, Numbers([p] + rest)) == p.body + tail
  {
    NumbersCons(p, rest);
    AssembledCons(stored, p, Numbers(rest));
  }

  lemma HoldsCons(stored: map<nat, Bytes>, p: Part, rest: seq<Part>)
    requires Holds(stored, [p] + rest)
    ensures Holds(stored, rest) && p.number in stored && stored[p.number] == p.body
  {
    assert p in [p] + rest && forall q :: q in rest ==> q in [p] + rest;
  }

  lemma NumbersCons(p: Part, rest: seq<Part>)
    ensures Numbers([p] + rest) == [p.number] + Numbers(rest)
  {
    assert ([p] + rest)[1..] == rest;
  }

  lemma AssembledCons(stored: map<nat, Bytes>, p: Part, rest: seq<nat>)
    requires p.number in stored && stored[p.number] == p.body
    ensures Assembled(stored, [p.number] + rest) == p.body + Assembled(stored, rest)
  {
    assert ([p.number] + rest)[1..] == rest;
  }

  // Any order of arrival, any order of reporting

  lemma {:induction false} ArrivedHas(order: seq<Part>)
    requires forall i, j :: 0 <= i < j < |order| ==> order[i].number != order[j].number
    ensures forall i :: 0 <= i < |order| ==>
              order[i].number in Arrived(order) && Arrived(order)[order[i].number] == order[i].body
    decreases |order|
  {
    if order != [] { ArrivedHas(order[..|order| - 1]); }
  }

  ghost predicate Ascending(s: seq<nat>) {
    forall i, j :: 0 <= i < j < |s| ==> s[i] <= s[j]
  }

  lemma {:induction false} InsertAdds(n: nat, s: seq<nat>)
    ensures multiset(Insert(n, s)) == multiset{n} + multiset(s)
    decreases |s|
  {
    if s != [] && n > s[0] {
      InsertAdds(n, s[1..]);
      assert s == [s[0]] + s[1..];
    }
  }

  lemma {:induction false} InsertSorts(n: nat, s: seq<nat>)
    requires Ascending(s)
    ensures Ascending(Insert(n, s))
    decreases |s|
  {
    if s != [] && n > s[0] {
      var t := Insert(n, s[1..]);
      InsertSorts(n, s[1..]);
      forall i | 0 <= i < |t| ensures s[0] <= t[i] {
        InsertAdds(n, s[1..]);
        assert t[i] in multiset(t);
        assert t[i] == n || t[i] in s[1..];
      }
    }
  }

  lemma {:induction false} SortedSorts(s: seq<nat>)
    ensures Ascending(Sorted(s)) && multiset(Sorted(s)) == multiset(s)
    decreases |s|
  {
    if s != [] {
      SortedSorts(s[1..]);
      InsertSorts(s[0], Sorted(s[1..]));
      InsertAdds(s[0], Sorted(s[1..]));
      assert s == [s[0]] + s[1..];
    }
  }

  /** Ascending sequences with the same elements are the same. */
  lemma {:induction false} AscendingUnique(a: seq<nat>, b: seq<nat>)
    requires Ascending(a) && Ascending(b) && multiset(a) == multiset(b)
    ensures a == b
    decreases |a|
  {
    assert |multiset(a)| == |a| && |multiset(b)| == |b|;
    if a != [] {
      HeadIsLeast(a, b);
      HeadIsLeast(b, a);
      TailsAgree(a, b);
      AscendingUnique(a[1..], b[1..]);
      assert a == [a[0]] + a[1..] && b == [b[0]] + b[1..];
    }
  }

  lemma HeadIsLeast(a: seq<nat>, b: seq<nat>)
    requires |a| > 0 && |b| > 0 && Ascending(a) && multiset(a) == multiset(b)
    ensures a[0] <= b[0]
  {
    assert b[0] in multiset(a);
    var i :| 0 <= i < |a| && a[i] == b[0];
  }

  lemma {:induction false} NumbersAt(parts: seq<Part>)
    ensures |Numbers(parts)| == |parts| && forall i :: 0 <= i < |parts| ==> Numbers(parts)[i] == parts[i].number
    decreases |parts|
  {
    if parts != [] { NumbersAt(parts[1..]); }
  }

  lemma {:induction false} NumbersPermute(a: seq<Part>, b: seq<Part>)
    requires multiset(a) == multiset(b)
    ensures multiset(Numbers(a)) == multiset(Numbers(b))
    decreases |a|
  {
    assert |multiset(a)| == |a| && |multiset(b)| == |b|;
    if a != [] {
      assert a[0] in multiset(b);
      var k :| 0 <= k < |b| && b[k] == a[0];
      var rest := b[..k] + b[k + 1..];
      assert b == b[..k] + [b[k]] + b[k + 1..];
      assert multiset([a[0]] + rest) == multiset(b);
      TailsAgree(a, [a[0]] + rest);
      assert ([a[0]] + rest)[1..] == rest;
      NumbersPermute(a[1..], rest);
      NumbersSplit(b[..k], b[k], b[k + 1..]);
    }
  }

  lemma {:induction false} NumbersConcat(a: seq<Part>, b: seq<Part>)
    ensures Numbers(a + b) == Numbers(a) + Numbers(b)
    decreases |a|
  {
    if a == [] {
      assert a + b == b;
    } else {
      assert (a + b)[1..] == a[1..] + b;
      NumbersConcat(a[1..], b);
    }
  }

  lemma NumbersSplit(front: seq<Part>, mid: Part, back: seq<Part>)
    ensures multiset(Numbers(front + [mid] + back)) == multiset(Numbers(front + back)) + multiset{mid.number}
  {
    NumbersConcat(front + [mid], back);
    NumbersConcat(front, [mid]);
    NumbersConcat(front, back);
    assert Numbers([mid]) == [mid.number] + Numbers([]);
  }

  /** A permutation of parts with distinct numbers stores each of them under its number. */
  lemma PermutationArrives(parts: seq<Part>, order: seq<Part>)
    requires multiset(order) == multiset(parts)
    requires forall i, j :: 0 <= i < j < |parts| ==> parts[i].number != parts[j].number
    ensures forall i :: 0 <= i < |parts| ==>
              parts[i].number in Arrived(order) && Arrived(order)[parts[i].number] == parts[i].body
  {
    DistinctPermutes(parts, order);
    ArrivedHas(order);
    forall i | 0 <= i < |parts|
      ensures parts[i].number in Arrived(order) && Arrived(order)[parts[i].number] == parts[i].body
    {
      assert parts[i] in multiset(order);
      var k :| 0 <= k < |order| && order[k] == parts[i];
    }
  }

  lemma DistinctPermutes(parts: seq<Part>, order: seq<Part>)
    requires multiset(order) == multiset(parts)
    requires forall i, j :: 0 <= i < j < |parts| ==> parts[i].number != parts[j].number
    ensures forall i, j :: 0 <= i < j < |order| ==> order[i].number != order[j].number
  {
    forall i, j | 0 <= i < j < |order| ensures order[i].number != order[j].number {
      if order[i].number == order[j].number {
        assert order[i] in multiset(parts) && order[j] in multiset(parts);
        var a :| 0 <= a < |parts| && parts[a] == order[i];
        var b :| 0 <= b < |parts| && parts[b] == order[j];
        assert a == b;
        AppearsTwice(order, i, j);
        AppearsOnce(parts, a);
        assert false;
      }
    }
  }

  lemma SentNumbers(parts: seq<Part>, order: seq<Part>)
    requires multiset(order) == multiset(parts)
    requires forall i :: 0 <= i < |parts| ==> parts[i].number == 1 + i
    ensures forall k :: k in Sent(order) <==> 1 <= k <= |parts|
  {
    forall k | k in Sent(order) ensures 1 <= k <= |parts| {
      var p :| p in order && p.number == k;
      assert p in multiset(parts);
    }
    forall k: nat | 1 <= k <= |parts| ensures k in Sent(order) {
      assert parts[k - 1] in multiset(order);
      assert parts[k - 1] in order;
    }
  }

  /** Whatever the orders, what the store assembles is the data. */
  lemma AnyOrderAssembles(data: Bytes, chunk: nat, order: seq<Part>, reported: seq<Part>)
    requires chunk > 0
    requires multiset(order) == multiset(Parts(data, chunk)) == multiset(reported)
    ensures Assembled(Arrived(order), Sorted(Numbers(reported))) == data
  {
    var parts := Parts(data, chunk);
    PartShapes(data, chunk, 1);
    PermutationArrives(parts, order);
    AssembledParts(data, chunk, 1, Arrived(order));
    SortedNumbers(parts, reported);
  }

  lemma SortedNumbers(parts: seq<Part>, reported: seq<Part>)
    requires multiset(reported) == multiset(parts)
    requires forall i :: 0 <= i < |parts| ==> parts[i].number == 1 + i
    ensures Sorted(Numbers(reported)) == Numbers(parts)
  {
    NumbersPermute(reported, parts);
    NumbersAt(parts);
    SortedSorts(Numbers(reported));
    AscendingUnique(Sorted(Numbers(reported)), Numbers(parts));
  }

  /**
   For every data, positive chunk size, order in which the parts arrive and order in which they are
   reported, the upload yields exactly the data if and only if none of the parts 1..⌈len/chunk⌉ fails
   and completing succeeds; otherwise it yields nothing at all.
   */
  lemma UploadRoundTrip(data: Bytes, chunk: nat, order: seq<Part>, reported: seq<Part>, failing: set<nat>,
                        completes: bool)
    requires chunk > 0
    requires multiset(order) == multiset(Parts(data, chunk)) == multiset(reported)
    ensures var clean := completes && forall k :: 1 <= k <= (|data| + chunk - 1) / chunk ==> k !in failing;
            Upload(order, reported, failing, completes) == if clean then Some(data) else None
  {
    var parts := Parts(data, chunk);
    PartShapes(data, chunk, 1);
    SentNumbers(parts, order);
    AnyOrderAssembles(data, chunk, order, reported);
    var clean := forall k :: 1 <= k <= |parts| ==> k !in failing;
    assert clean <==> Sent(order) !! failing by {
      if !clean {
        var k :| 1 <= k <= |parts| && k in failing;
        assert k in Sent(order);
      }
    }
  }
}
