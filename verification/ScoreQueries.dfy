/** Two SQL formulations of "errors among the latest scores", the active-user count, and their caches. */
module ScoreQueries {
  import opened Options

  datatype Row = Row(idea: int, time: int, score: real)

  /** SUM is NULL over no rows. */
  datatype Answer = Answer(errors: Option<nat>, total: nat)

  // Selecting and counting rows

  function Count(rows: seq<Row>, p: Row -> bool): (n: nat)
    ensures n <= |rows|
    decreases |rows|
  {
    if rows == [] then 0 else Count(rows[..|rows| - 1], p) + if p(rows[|rows| - 1]) then 1 else 0
  }

  function Where(rows: seq<Row>, p: Row -> bool): (kept: seq<Row>)
    ensures forall r :: r in kept <==> r in rows && p(r)
    decreases |rows|
  {
    if rows == [] then []
    else
      var last := rows[|rows| - 1];
      assert rows == rows[..|rows| - 1] + [last];
      Where(rows[..|rows| - 1], p) + if p(last) then [last] else []
  }

  predicate Failing(r: Row) {
    r.score < 0.5
  }

  /** SELECT SUM(CASE WHEN score < 0.5 THEN 1 ELSE 0 END), COUNT(*) */
  function Summary(rows: seq<Row>): Answer {
    Answer(if rows == [] then None else Some(Count(rows, Failing)), |rows|)
  }

  /** SELECT MAX(timestamp) ... GROUP BY idea_id, for one group. */
  function MaxTime(rows: seq<Row>, idea: int): (m: Option<int>)
    ensures m.None? <==> forall r :: r in rows ==> r.idea != idea
    ensures m.Some? ==> forall r :: r in rows && r.idea == idea ==> r.time <= m.value
    ensures m.Some? ==> exists r :: r in rows && r.idea == idea && r.time == m.value
    decreases |rows|
  {
    if rows == [] then None
    else
      var last := rows[|rows| - 1];
      var front := MaxTime(rows[..|rows| - 1], idea);
      assert rows == rows[..|rows| - 1] + [last];
      if last.idea != idea then front
      else if front.Some? && front.value >= last.time then front
      else Some(last.time)
  }

  function LatestSince(rows: seq<Row>, since: int): Row -> bool {
    (r: Row) => MaxTime(rows, r.idea) == Some(r.time) && r.time >= since
  }

  function AtOrAfter(since: int): Row -> bool {
    (r: Row) => r.time >= since
  }

  /** SQLite: join every row with its idea's maximum, keep those at or after `since`. */
  function JoinOnMax(rows: seq<Row>, since: int): seq<Row> {
    Where(rows, LatestSince(rows, since))
  }

  /** ORDER BY idea_id, timestamp DESC; rows that tie may come in any order. */
  ghost predicate Ordered(rows: seq<Row>) {
    forall i, j :: 0 <= i < j < |rows| ==>
      rows[i].idea < rows[j].idea || (rows[i].idea == rows[j].idea && rows[i].time >= rows[j].time)
  }

  /** DISTINCT ON (idea_id): the first row of each run of equal ideas. */
  function FirstPerIdea(ordered: seq<Row>): seq<Row>
    decreases |ordered|
  {
    if ordered == [] then []
    else
      var n := |ordered| - 1;
      FirstPerIdea(ordered[..n]) + if n > 0 && ordered[n - 1].idea == ordered[n].idea then [] else [ordered[n]]
  }

  /** PostgreSQL: the first row per idea of the ordered table, kept if at or after `since`. */
  function DistinctOn(ordered: seq<Row>, since: int): seq<Row> {
    Where(FirstPerIdea(ordered), AtOrAfter(since))
  }

  /** SELECT COUNT(*) over the groups whose maximum is at or after `since`. */
  function ActiveUsers(rows: seq<Row>, since: int): nat {
    |set r | r in rows && MaxTime(rows, r.idea).value >= since :: r.idea|
  }

  /** The rate returned; an empty selection has rate 0. */
  function Rate(a: Answer): real {
    if a.total == 0 || a.errors.None? then 0.0 else a.errors.value as real / a.total as real
  }

  // Rows with different ideas are counted by their set

  ghost predicate DifferentIdeas(rows: seq<Row>) {
    forall i, j :: 0 <= i < j < |rows| ==> rows[i].idea != rows[j].idea
  }

  function Ideas(rows: seq<Row>): set<int> {
    set r | r in rows :: r.idea
  }

  function Chosen(rows: seq<Row>, p: Row -> bool): set<Row> {
    set r | r in rows && p(r)
  }

  /** There are never more ideas than rows, and exactly as many when no two rows share one. */
  lemma {:induction false} IdeasCount(rows: seq<Row>)
    ensures |Ideas(rows)| <= |rows|
    ensures |Ideas(rows)| == |rows| <==> DifferentIdeas(rows)
    decreases |rows|
  {
    if rows != [] {
      var n := |rows| - 1;
      var front := rows[..n];
      IdeasCount(front);
      assert rows == front + [rows[n]];
      assert Ideas(rows) == Ideas(front) + {rows[n].idea};
      if rows[n].idea in Ideas(front) {
        var r :| r in front && r.idea == rows[n].idea;
        var i :| 0 <= i < n && front[i] == r;
        assert rows[i].idea == rows[n].idea;
        assert Ideas(rows) == Ideas(front);
      } else if DifferentIdeas(front) {
        forall i | 0 <= i < n ensures rows[i].idea != rows[n].idea {
          assert front[i] in front;
        }
      } else {
        var i, j :| 0 <= i < j < |front| && front[i].idea == front[j].idea;
        assert rows[i].idea == rows[j].idea;
      }
    }
  }

  lemma {:induction false} CountIsSize(rows: seq<Row>, p: Row -> bool)
    requires DifferentIdeas(rows)
    ensures Count(rows, p) == |Chosen(rows, p)|
    decreases |rows|
  {
    if rows != [] {
      var n := |rows| - 1;
      var front := rows[..n];
      CountIsSize(front, p);
      assert rows == front + [rows[n]];
      assert rows[n] !in front;
      assert Chosen(rows, p) == Chosen(front, p) + if p(rows[n]) then {rows[n]} else {};
    }
  }

  /** The places of the rows with p. */
  function Positions(rows: seq<Row>, p: Row -> bool): set<nat> {
    set i: nat | i < |rows| && p(rows[i])
  }

  lemma PositionsGrow(rows: seq<Row>, p: Row -> bool, n: nat)
    requires |rows| == n + 1
    ensures Positions(rows, p) == Positions(rows[..n], p) + if p(rows[n]) then {n} else {}
    ensures |Positions(rows, p)| == |Positions(rows[..n], p)| + if p(rows[n]) then 1 else 0
  {
    assert n !in Positions(rows[..n], p);
    assert Positions(rows, p) == Positions(rows[..n], p) + if p(rows[n]) then {n} else {};
  }

  lemma {:induction false} WherePositions(rows: seq<Row>, p: Row -> bool)
    ensures |Where(rows, p)| == |Positions(rows, p)|
    decreases |rows|
  {
    if rows != [] {
      WherePositions(rows[..|rows| - 1], p);
      PositionsGrow(rows, p, |rows| - 1);
    }
  }

  function Both(p: Row -> bool, q: Row -> bool): Row -> bool {
    (r: Row) => p(r) && q(r)
  }

  /** Counting among the rows selected is counting the rows with both properties. */
  lemma {:induction false} CountPositions(rows: seq<Row>, p: Row -> bool, q: Row -> bool)
    ensures Count(Where(rows, p), q) == |Positions(rows, Both(p, q))|
    decreases |rows|
  {
    if rows != [] {
      var n := |rows| - 1;
      CountPositions(rows[..n], p, q);
      PositionsGrow(rows, Both(p, q), n);
      CountOneMore(Where(rows[..n], p), rows[n], q);
      assert Where(rows, p) == if p(rows[n]) then Where(rows[..n], p) + [rows[n]] else Where(rows[..n], p);
    }
  }

  lemma CountOneMore(rows: seq<Row>, r: Row, q: Row -> bool)
    ensures Count(rows + [r], q) == Count(rows, q) + if q(r) then 1 else 0
  {
    assert (rows + [r])[..|rows|] == rows;
  }

  // What each query selects

  lemma {:induction false} FirstPerIdeaIsLatest(ordered: seq<Row>)
    requires Ordered(ordered)
    ensures forall r :: r in FirstPerIdea(ordered) ==> r in ordered && MaxTime(ordered, r.idea) == Some(r.time)
    decreases |ordered|
  {
    if ordered != [] {
      var n := |ordered| - 1;
      var front := ordered[..n];
      assert Ordered(front);
      FirstPerIdeaIsLatest(front);
      assert ordered == front + [ordered[n]];
      NewIdea(ordered);
      forall r | r in FirstPerIdea(ordered) ensures r in ordered && MaxTime(ordered, r.idea) == Some(r.time) {
        if r in FirstPerIdea(front) {
          assert r in front && r.idea in Ideas(front);
        }
      }
    }
  }

  lemma {:induction false} FirstPerIdeaHasEach(ordered: seq<Row>)
    requires Ordered(ordered)
    ensures DifferentIdeas(FirstPerIdea(ordered)) && Ideas(FirstPerIdea(ordered)) == Ideas(ordered)
    decreases |ordered|
  {
    if ordered != [] {
      var n := |ordered| - 1;
      NeighbourTells(ordered);
      FirstPerIdeaHasEach(ordered[..n]);
      FirstPerIdeaStep(ordered);
      PickIfNew(FirstPerIdea(ordered[..n]), ordered[..n], ordered[n]);
      assert ordered == ordered[..n] + [ordered[n]];
    }
  }

  lemma PickIfNew(picked: seq<Row>, front: seq<Row>, last: Row)
    requires DifferentIdeas(picked) && Ideas(picked) == Ideas(front)
    ensures var more := picked + if last.idea in Ideas(front) then [] else [last];
            DifferentIdeas(more) && Ideas(more) == Ideas(front + [last])
  {
    IdeasGrow(picked, last);
    IdeasGrow(front, last);
    if last.idea in Ideas(front) {
      assert Ideas(front) + {last.idea} == Ideas(front);
      assert picked + [] == picked;
    }
  }

  lemma FirstPerIdeaStep(ordered: seq<Row>)
    requires Ordered(ordered) && |ordered| > 0
    ensures var front, last := ordered[..|ordered| - 1], ordered[|ordered| - 1];
            FirstPerIdea(ordered) == FirstPerIdea(front) + if last.idea in Ideas(front) then [] else [last]
  {
    NeighbourTells(ordered);
  }

  lemma IdeasGrow(rows: seq<Row>, r: Row)
    ensures Ideas(rows + [r]) == Ideas(rows) + {r.idea}
    ensures DifferentIdeas(rows) && r.idea !in Ideas(rows) ==> DifferentIdeas(rows + [r])
  {
    var more := rows + [r];
    forall k | k in Ideas(rows) + {r.idea} ensures k in Ideas(more) {
      if k != r.idea {
        var q :| q in rows && q.idea == k;
        assert q in more;
      } else {
        assert r in more;
      }
    }
    if DifferentIdeas(rows) && r.idea !in Ideas(rows) {
      forall i | 0 <= i < |rows| ensures rows[i].idea != r.idea {
        assert rows[i] in rows;
      }
    }
  }

  /** The last row of an ordered table belongs to an old idea exactly if its neighbour does. */
  lemma NeighbourTells(ordered: seq<Row>)
    requires Ordered(ordered) && |ordered| > 0
    ensures var n := |ordered| - 1;
            && Ordered(ordered[..n])
            && (ordered[n].idea in Ideas(ordered[..n]) <==> n > 0 && ordered[n - 1].idea == ordered[n].idea)
  {
    var n := |ordered| - 1;
    if ordered[n].idea in Ideas(ordered[..n]) {
      var r :| r in ordered[..n] && r.idea == ordered[n].idea;
      var i :| 0 <= i < n && ordered[i] == r;
      assert i == n - 1 || ordered[i].idea <= ordered[n - 1].idea <= ordered[n].idea;
    }
    if n > 0 && ordered[n - 1].idea == ordered[n].idea {
      assert ordered[..n][n - 1] in ordered[..n];
    }
  }

  /** The last row of an ordered table never raises a maximum. */
  lemma NewIdea(ordered: seq<Row>)
    requires Ordered(ordered) && |ordered| > 0
    ensures var n := |ordered| - 1; var front := ordered[..n]; var last := ordered[n];
            && (forall k :: k in Ideas(front) ==> MaxTime(ordered, k) == MaxTime(front, k))
            && (last.idea !in Ideas(front) ==> MaxTime(ordered, last.idea) == Some(last.time))
  {
    var n := |ordered| - 1;
    var front := ordered[..n];
    var last := ordered[n];
    if last.idea in Ideas(front) {
      var r :| r in front && r.idea == last.idea;
      var i :| 0 <= i < n && front[i] == r;
      assert ordered[i].time >= last.time;
      assert MaxTime(front, last.idea).value >= r.time;
    } else {
      assert forall r :: r in front ==> r.idea in Ideas(front);
      assert MaxTime(front, last.idea) == None;
    }
  }

  ghost predicate PickedDifferent(rows: seq<Row>, p: Row -> bool) {
    forall i, j :: 0 <= i < j < |rows| && p(rows[i]) && p(rows[j]) ==> rows[i].idea != rows[j].idea
  }

  lemma {:induction false} WhereDifferent(rows: seq<Row>, p: Row -> bool)
    ensures DifferentIdeas(Where(rows, p)) <==> PickedDifferent(rows, p)
    decreases |rows|
  {
    if rows != [] {
      var n := |rows| - 1;
      WhereDifferent(rows[..n], p);
      AppendPicked(rows, p);
      WhereAppend(rows, p);
    }
  }

  lemma WhereAppend(rows: seq<Row>, p: Row -> bool)
    requires |rows| > 0
    ensures var kept, last := Where(rows[..|rows| - 1], p), rows[|rows| - 1];
            DifferentIdeas(Where(rows, p)) <==> DifferentIdeas(kept) && (p(last) ==> last.idea !in Ideas(kept))
  {
    var kept, last := Where(rows[..|rows| - 1], p), rows[|rows| - 1];
    if p(last) {
      AppendDifferent(kept, last);
    } else {
      assert Where(rows, p) == kept;
    }
  }

  lemma AppendPicked(rows: seq<Row>, p: Row -> bool)
    requires |rows| > 0
    ensures var front, last := rows[..|rows| - 1], rows[|rows| - 1];
            PickedDifferent(rows, p) <==>
            PickedDifferent(front, p) && (p(last) ==> last.idea !in Ideas(Where(front, p)))
  {
    var n := |rows| - 1;
    var front, last := rows[..n], rows[n];
    if PickedDifferent(rows, p) {
      forall r | p(last) && r in Where(front, p) ensures r.idea != last.idea {
        var i :| 0 <= i < n && front[i] == r;
        assert rows[i] == r;
      }
    }
    if PickedDifferent(front, p) && (p(last) ==> last.idea !in Ideas(Where(front, p))) {
      forall i, j | 0 <= i < j < |rows| && p(rows[i]) && p(rows[j]) ensures rows[i].idea != rows[j].idea {
        assert front[i] == rows[i] && front[i] in Where(front, p);
      }
    }
  }

  lemma AppendDifferent(rows: seq<Row>, r: Row)
    ensures DifferentIdeas(rows + [r]) <==> DifferentIdeas(rows) && r.idea !in Ideas(rows)
  {
    IdeasGrow(rows, r);
    var more := rows + [r];
    if DifferentIdeas(more) {
      forall i, j | 0 <= i < j < |rows| ensures rows[i].idea != rows[j].idea {
        assert more[i] == rows[i] && more[j] == rows[j];
      }
      forall q | q in rows ensures q.idea != r.idea {
        var i :| 0 <= i < |rows| && rows[i] == q;
        assert more[i] == q && more[|rows|] == r;
      }
    }
  }

  // The two queries against the active users

  function Active(rows: seq<Row>, since: int): set<int> {
    set r | r in rows && r.time >= since :: r.idea
  }

  /** The active-user query counts the ideas with some row at or after `since`. */
  lemma ActiveUsersMeans(rows: seq<Row>, since: int)
    ensures ActiveUsers(rows, since) == |Active(rows, since)|
  {
    var groups := set r | r in rows && MaxTime(rows, r.idea).value >= since :: r.idea;
    forall k | k in groups ensures k in Active(rows, since) {
      var r :| r in rows && r.idea == k && MaxTime(rows, k).value >= since;
      var q :| q in rows && q.idea == k && q.time == MaxTime(rows, k).value;
      assert q in rows && q.time >= since;
    }
    forall k | k in Active(rows, since) ensures k in groups {
      var r :| r in rows && r.time >= since && r.idea == k;
      assert MaxTime(rows, r.idea).value >= since;
    }
    assert groups == Active(rows, since);
  }

  /** No idea has two latest rows at or after `since`. */
  ghost predicate NoTies(rows: seq<Row>, since: int) {
    forall i, j :: 0 <= i < j < |rows| && rows[i].idea == rows[j].idea && rows[i].time == rows[j].time >= since ==>
      MaxTime(rows, rows[i].idea) != Some(rows[i].time)
  }

  ghost predicate OneRowPerTime(rows: seq<Row>) {
    forall i, j :: 0 <= i < j < |rows| ==> rows[i].idea != rows[j].idea || rows[i].time != rows[j].time
  }

  lemma JoinIdeas(rows: seq<Row>, since: int)
    ensures Ideas(JoinOnMax(rows, since)) == Active(rows, since)
    ensures DifferentIdeas(JoinOnMax(rows, since)) <==> NoTies(rows, since)
  {
    var joined := JoinOnMax(rows, since);
    forall k | k in Active(rows, since) ensures k in Ideas(joined) {
      var r :| r in rows && r.time >= since && r.idea == k;
      var q :| q in rows && q.idea == k && q.time == MaxTime(rows, k).value;
      assert q in joined;
    }
    WhereDifferent(rows, LatestSince(rows, since));
    assert PickedDifferent(rows, LatestSince(rows, since)) <==> NoTies(rows, since);
  }

  /** The join counts every active idea at least once, and no idea twice exactly when there is no tie. */
  lemma JoinTotal(rows: seq<Row>, since: int)
    ensures |JoinOnMax(rows, since)| >= ActiveUsers(rows, since)
    ensures |JoinOnMax(rows, since)| == ActiveUsers(rows, since) <==> NoTies(rows, since)
  {
    ActiveUsersMeans(rows, since);
    JoinIdeas(rows, since);
    IdeasCount(JoinOnMax(rows, since));
  }

  lemma NotLater(a: seq<Row>, b: seq<Row>, idea: int)
    requires forall r :: r in a ==> r in b
    ensures MaxTime(a, idea).Some? ==> MaxTime(b, idea).Some? && MaxTime(a, idea).value <= MaxTime(b, idea).value
  {
    if MaxTime(a, idea).Some? {
      var r :| r in a && r.idea == idea && r.time == MaxTime(a, idea).value;
      assert r in b;
    }
  }

  lemma SameMaxTimes(a: seq<Row>, b: seq<Row>, idea: int)
    requires forall r :: r in a <==> r in b
    ensures MaxTime(a, idea) == MaxTime(b, idea)
  {
    NotLater(a, b, idea);
    NotLater(b, a, idea);
  }

  ghost predicate SortOf(ordered: seq<Row>, rows: seq<Row>) {
    Ordered(ordered) && multiset(ordered) == multiset(rows)
  }

  lemma SameRows(a: seq<Row>, b: seq<Row>)
    requires multiset(a) == multiset(b)
    ensures forall r :: r in a <==> r in b
  {
    forall r ensures r in a <==> r in b {
      assert r in a <==> r in multiset(a);
    }
  }

  lemma DistinctRows(rows: seq<Row>, ordered: seq<Row>, since: int)
    requires SortOf(ordered, rows)
    ensures var picked := DistinctOn(ordered, since);
            && DifferentIdeas(picked)
            && Ideas(picked) == Active(rows, since)
            && forall r :: r in picked ==> r in JoinOnMax(rows, since)
  {
    SameRows(ordered, rows);
    FirstPerIdeaHasEach(ordered);
    FirstPerIdeaIsLatest(ordered);
    var first := FirstPerIdea(ordered);
    var picked := DistinctOn(ordered, since);
    WhereDifferent(first, AtOrAfter(since));
    forall r | r in first ensures MaxTime(rows, r.idea) == Some(r.time) {
      SameMaxTimes(rows, ordered, r.idea);
    }
    forall k | k in Active(rows, since) ensures k in Ideas(picked) {
      var r :| r in rows && r.time >= since && r.idea == k;
      assert r in ordered;
      assert k in Ideas(first);
      var q :| q in first && q.idea == k;
      assert q in picked;
    }
  }

  /** DISTINCT ON counts the active users, whichever way the database orders ties. */
  lemma DistinctTotal(rows: seq<Row>, ordered: seq<Row>, since: int)
    requires SortOf(ordered, rows)
    ensures |DistinctOn(ordered, since)| == ActiveUsers(rows, since)
  {
    ActiveUsersMeans(rows, since);
    DistinctRows(rows, ordered, since);
    IdeasCount(DistinctOn(ordered, since));
  }

  /**
   The two formulations give the same (errors, total), however ties are ordered, if and only if no idea
   has two latest rows at or after `since`.
   */
  lemma QueriesAgree(rows: seq<Row>, ordered: seq<Row>, since: int)
    requires SortOf(ordered, rows)
    ensures Summary(JoinOnMax(rows, since)) == Summary(DistinctOn(ordered, since)) <==> NoTies(rows, since)
  {
    var joined, picked := JoinOnMax(rows, since), DistinctOn(ordered, since);
    JoinTotal(rows, since);
    DistinctTotal(rows, ordered, since);
    if NoTies(rows, since) {
      JoinIdeas(rows, since);
      DistinctRows(rows, ordered, since);
      SameSelection(joined, picked);
      CountIsSize(joined, Failing);
      CountIsSize(picked, Failing);
      assert Chosen(joined, Failing) == Chosen(picked, Failing);
    }
  }

  /** Two selections of one row per idea, one inside the other and over the same ideas, are the same rows. */
  lemma SameSelection(a: seq<Row>, b: seq<Row>)
    requires DifferentIdeas(a) && Ideas(a) == Ideas(b)
    requires forall r :: r in b ==> r in a
    ensures forall r :: r in a <==> r in b
  {
    forall r | r in a ensures r in b {
      assert r.idea in Ideas(b);
      var q :| q in b && q.idea == r.idea;
      var i :| 0 <= i < |a| && a[i] == r;
      var j :| 0 <= j < |a| && a[j] == q;
      assert i == j;
    }
  }

  /** With at most one row per idea and timestamp the queries agree and both count the active users. */
  lemma QueriesAgreeOnKeyedTables(rows: seq<Row>, ordered: seq<Row>, since: int)
    requires OneRowPerTime(rows) && SortOf(ordered, rows)
    ensures Summary(JoinOnMax(rows, since)) == Summary(DistinctOn(ordered, since))
    ensures Summary(JoinOnMax(rows, since)).total == ActiveUsers(rows, since)
  {
    QueriesAgree(rows, ordered, since);
    JoinTotal(rows, since);
  }

  /** Two latest rows of one idea: the join counts both, DISTINCT ON whichever comes first. */
  lemma TiesDiverge(good: Row, bad: Row)
    requires good.idea == bad.idea && good.time == bad.time && !Failing(good) && Failing(bad)
    ensures Summary(JoinOnMax([good, bad], good.time)) == Answer(Some(1), 2)
    ensures SortOf([good, bad], [good, bad]) && Summary(DistinctOn([good, bad], good.time)) == Answer(Some(0), 1)
    ensures SortOf([bad, good], [good, bad]) && Summary(DistinctOn([bad, good], good.time)) == Answer(Some(1), 1)
  {
    TieJoined(good, bad);
    TiePicked(good, bad);
    TiePicked(bad, good);
    EitherOrder(good, bad);
  }

  lemma TieJoined(good: Row, bad: Row)
    requires good.idea == bad.idea && good.time == bad.time && !Failing(good) && Failing(bad)
    ensures Summary(JoinOnMax([good, bad], good.time)) == Answer(Some(1), 2)
  {
    TwoJoined(good, bad);
    CountTwo(good, bad);
  }

  lemma TiePicked(first: Row, second: Row)
    requires first.idea == second.idea && first.time == second.time
    ensures Summary(DistinctOn([first, second], first.time)) == Answer(Some(if Failing(first) then 1 else 0), 1)
  {
    OnePicked(first, second);
    CountTwo(first, second);
  }

  lemma EitherOrder(a: Row, b: Row)
    requires a.idea == b.idea && a.time == b.time
    ensures SortOf([a, b], [a, b]) && SortOf([b, a], [a, b])
  {
    assert multiset([b, a]) == multiset([a, b]);
  }

  lemma CountTwo(a: Row, b: Row)
    ensures Count([a], Failing) == if Failing(a) then 1 else 0
    ensures Count([b], Failing) == if Failing(b) then 1 else 0
    ensures Count([a, b], Failing) == Count([a], Failing) + Count([b], Failing)
  {
    assert [a, b][..1] == [a] && [a][..0] == [] && [b][..0] == [];
    assert Count([], Failing) == 0;
  }

  lemma OnePicked(a: Row, b: Row)
    requires a.idea == b.idea && a.time == b.time
    ensures DistinctOn([a, b], a.time) == [a]
  {
    FirstOfTwo(a, b);
    KeepsAll([a], AtOrAfter(a.time));
  }

  lemma TwoJoined(a: Row, b: Row)
    requires a.idea == b.idea && a.time == b.time
    ensures JoinOnMax([a, b], a.time) == [a, b]
  {
    var m := MaxTime([a, b], a.idea);
    assert [a, b][0] in [a, b];
    assert m == Some(a.time);
    KeepsAll([a, b], LatestSince([a, b], a.time));
  }

  lemma FirstOfTwo(a: Row, b: Row)
    requires a.idea == b.idea
    ensures FirstPerIdea([a, b]) == [a]
  {
    assert [a, b][..1] == [a] && [a][..0] == [];
    assert FirstPerIdea([a]) == FirstPerIdea([]) + [a];
  }

  lemma {:induction false} KeepsAll(rows: seq<Row>, p: Row -> bool)
    requires forall r :: r in rows ==> p(r)
    ensures Where(rows, p) == rows
    decreases |rows|
  {
    if rows != [] {
      assert rows == rows[..|rows| - 1] + [rows[|rows| - 1]];
      KeepsAll(rows[..|rows| - 1], p);
    }
  }
}
