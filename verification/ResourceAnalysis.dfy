/** Recommendations from the whole metrics table against those from its most recent rows. */
module ResourceAnalysis {
  import opened Options
  import opened Sequences

  /** Time in seconds; a disk reading may be missing. */
  datatype Sample = Sample(time: real, cpu: real, memory: real, disk: Option<real>)

  datatype Advice = ScaleCpu | ReduceMemory | CleanDisk | CpuRising | MemoryRising | DiskRising

  // The table

  ghost predicate Ascending(rows: seq<Sample>) {
    forall i, j :: 0 <= i < j < |rows| ==> rows[i].time <= rows[j].time
  }

  ghost predicate Descending(rows: seq<Sample>) {
    forall i, j :: 0 <= i < j < |rows| ==> rows[i].time >= rows[j].time
  }

  ghost predicate DistinctTimes(rows: seq<Sample>) {
    forall i, j :: 0 <= i < j < |rows| ==> rows[i].time != rows[j].time
  }

  /** The table in both orders the queries ask for, rows with equal times in any order. */
  ghost predicate Sorts(table: seq<Sample>, oldest: seq<Sample>, newest: seq<Sample>) {
    && Ascending(oldest) && multiset(oldest) == multiset(table)
    && Descending(newest) && multiset(newest) == multiset(table)
  }

  function Reverse<T>(s: seq<T>): (r: seq<T>)
    ensures |r| == |s|
  {
    seq(|s|, i requires 0 <= i < |s| => s[|s| - 1 - i])
  }

  /** LIMIT n */
  function Limit<T>(s: seq<T>, n: nat): seq<T> {
    if |s| <= n then s else s[..n]
  }

  /** data[-n:], or everything when n is 0. */
  function Last<T>(data: seq<T>, n: nat): (r: seq<T>)
    ensures |r| == (if n == 0 || n > |data| then |data| else n) && r == data[|data| - |r|..]
  {
    if n == 0 || |data| <= n then data else data[|data| - n..]
  }

  function Since(rows: seq<Sample>, since: Option<real>): (kept: seq<Sample>)
    decreases |rows|
  {
    if rows == [] then []
    else if since.None? || rows[0].time >= since.value then [rows[0]] + Since(rows[1..], since)
    else Since(rows[1..], since)
  }

  /** What from_store analyses: the newest `limit` rows put oldest first, or all rows oldest first. */
  function Selected(oldest: seq<Sample>, newest: seq<Sample>, limit: Option<nat>, since: Option<real>): seq<Sample> {
    Since(if limit.Some? then Reverse(Limit(newest, limit.value)) else oldest, since)
  }

  // The analysis

  datatype Columns = Columns(times: seq<real>, cpu: seq<real>, memory: seq<real>, disk: seq<Option<real>>)

  function ColumnsOf(rows: seq<Sample>): Columns {
    Columns(seq(|rows|, i requires 0 <= i < |rows| => rows[i].time),
            seq(|rows|, i requires 0 <= i < |rows| => rows[i].cpu),
            seq(|rows|, i requires 0 <= i < |rows| => rows[i].memory),
            seq(|rows|, i requires 0 <= i < |rows| => rows[i].disk))
  }

  function Total(data: seq<real>): real {
    if data == [] then 0.0 else data[0] + Total(data[1..])
  }

  function Mean(data: seq<real>): real {
    if data == [] then 0.0 else Total(data) / |data| as real
  }

  /** The readings that are not NaN. */
  function Present(data: seq<Option<real>>): seq<real> {
    if data == [] then [] else (if data[0].Some? then [data[0].value] else []) + Present(data[1..])
  }

  predicate AllMissing(data: seq<Option<real>>) {
    forall i :: 0 <= i < |data| ==> data[i].None?
  }

  /** nanmean: NaN, written None, when nothing is present; 0 for an empty or wholly missing column. */
  function MeanPresent(column: seq<Option<real>>, n: nat): Option<real> {
    if AllMissing(column) then Some(0.0)
    else
      var present := Present(Last(column, n));
      if present == [] then None else Some(Mean(present))
  }

  /** Slope per minute between the first and the last of at least two samples. */
  function Slope(times: seq<real>, data: seq<real>): real
    requires |times| == |data|
  {
    if |data| < 2 then 0.0
    else
      var minutes := (times[|times| - 1] - times[0]) / 60.0;
      if minutes == 0.0 then 0.0 else (data[|data| - 1] - data[0]) / minutes
  }

  /** The same for a column with missing readings: NaN if an end is missing and time passed. */
  function SlopePresent(times: seq<real>, column: seq<Option<real>>, n: nat): Option<real>
    requires |times| == |column|
  {
    if AllMissing(column) then Some(0.0)
    else
      var data, ts := Last(column, n), Last(times, n);
      if |data| < 2 || ts[|ts| - 1] == ts[0] then Some(0.0)
      else if data[|data| - 1].None? || data[0].None? then None
      else Some(Slope([ts[0], ts[|ts| - 1]], [data[0].value, data[|data| - 1].value]))
  }

  /** Comparing NaN with anything is false. */
  predicate Exceeds(x: Option<real>, threshold: real) {
    x.Some? && x.value > threshold
  }

  predicate Aligned(c: Columns) {
    |c.times| == |c.cpu| == |c.memory| == |c.disk|
  }

  predicate Advises(c: Columns, a: Advice)
    requires Aligned(c)
  {
    match a
    case ScaleCpu => Mean(Last(c.cpu, 10)) > 80.0
    case ReduceMemory => Mean(Last(c.memory, 10)) > 1024.0
    case CleanDisk => Exceeds(MeanPresent(c.disk, 10), 10240.0)
    case CpuRising => Slope(Last(c.times, 20), Last(c.cpu, 20)) > 0.5
    case MemoryRising => Slope(Last(c.times, 20), Last(c.memory, 20)) > 50.0
    case DiskRising => Exceeds(SlopePresent(c.times, c.disk, 20), 100.0)
  }

  /** The checks, in the order in which they are made. */
  const CHECKS := [ScaleCpu, ReduceMemory, CleanDisk, CpuRising, MemoryRising, DiskRising]

  /** Those of the checks that hold, in order. */
  function Listed(checks: seq<Advice>, holding: set<Advice>): seq<Advice>
    decreases |checks|
  {
    if checks == [] then []
    else
      var last := checks[|checks| - 1];
      Listed(checks[..|checks| - 1], holding) + if last in holding then [last] else []
  }

  function Holding(c: Columns): set<Advice>
    requires Aligned(c)
  {
    set a: Advice | Advises(c, a)
  }

  lemma HoldsIff(c: Columns, a: Advice)
    requires Aligned(c)
    ensures a in Holding(c) <==> Advises(c, a)
  {
  }

  function Advised(c: Columns): seq<Advice>
    requires Aligned(c)
  {
    Listed(CHECKS, Holding(c))
  }

  function Recommend(rows: seq<Sample>): seq<Advice> {
    Advised(ColumnsOf(rows))
  }

  // The newest rows reversed are the end of the table

  lemma {:induction false} AscendingUnique(a: seq<Sample>, b: seq<Sample>)
    requires Ascending(a) && Ascending(b) && DistinctTimes(a) && multiset(a) == multiset(b)
    ensures a == b
    decreases |a|
  {
    assert |multiset(a)| == |a| && |multiset(b)| == |b|;
    if a != [] {
      OldestFirst(a, b);
      TailsAgree(a, b);
      AscendingUnique(a[1..], b[1..]);
      assert a == [a[0]] + a[1..] && b == [b[0]] + b[1..];
    }
  }

  lemma OldestFirst(a: seq<Sample>, b: seq<Sample>)
    requires |a| > 0 && |b| > 0 && Ascending(a) && Ascending(b) && DistinctTimes(a) && multiset(a) == multiset(b)
    ensures a[0] == b[0]
  {
    assert b[0] in multiset(a) && a[0] in multiset(b);
    var i :| 0 <= i < |a| && a[i] == b[0];
    var j :| 0 <= j < |b| && b[j] == a[0];
    assert a[0].time <= a[i].time == b[0].time <= b[j].time == a[0].time;
    assert i == 0;
  }

  lemma {:induction false} ReverseKeeps<T>(s: seq<T>)
    ensures multiset(Reverse(s)) == multiset(s)
    decreases |s|
  {
    if s != [] {
      ReverseKeeps(s[1..]);
      assert Reverse(s) == Reverse(s[1..]) + [s[0]];
      assert s == [s[0]] + s[1..];
    }
  }

  lemma DistinctKept(a: seq<Sample>, b: seq<Sample>)
    requires DistinctTimes(a) && multiset(a) == multiset(b)
    ensures DistinctTimes(b)
  {
    forall i, j | 0 <= i < j < |b| ensures b[i].time != b[j].time {
      if b[i].time == b[j].time {
        assert b[i] in multiset(a) && b[j] in multiset(a);
        var x :| 0 <= x < |a| && a[x] == b[i];
        var y :| 0 <= y < |a| && a[y] == b[j];
        assert x == y;
        AppearsTwice(b, i, j);
        AppearsOnce(a, x);
        assert false;
      }
    }
  }

  /** With distinct times the two sorts are each other's reverse. */
  lemma NewestIsOldestReversed(table: seq<Sample>, oldest: seq<Sample>, newest: seq<Sample>)
    requires DistinctTimes(table) && Sorts(table, oldest, newest)
    ensures DistinctTimes(oldest) && Reverse(newest) == oldest
  {
    DistinctKept(table, oldest);
    ReverseKeeps(newest);
    AscendingUnique(oldest, Reverse(newest));
  }

  /** ORDER BY timestamp DESC LIMIT n, reversed, is exactly the last n rows of ORDER BY timestamp. */
  lemma RecentIsSuffix(table: seq<Sample>, oldest: seq<Sample>, newest: seq<Sample>, n: nat)
    requires DistinctTimes(table) && Sorts(table, oldest, newest)
    ensures Reverse(Limit(newest, n)) == if |oldest| <= n then oldest else oldest[|oldest| - n..]
  {
    NewestIsOldestReversed(table, oldest, newest);
    if |oldest| > n {
      ReverseOfFront(newest, n);
    }
  }

  lemma ReverseOfFront<T>(s: seq<T>, n: nat)
    requires n <= |s|
    ensures Reverse(s[..n]) == Reverse(s)[|s| - n..]
  {
  }

  // A window of twenty rows decides

  lemma {:induction false} SinceKeepsAll(rows: seq<Sample>, since: Option<real>)
    requires since.Some? ==> forall r :: r in rows ==> r.time >= since.value
    ensures Since(rows, since) == rows
    decreases |rows|
  {
    if rows != [] {
      SinceKeepsAll(rows[1..], since);
      assert rows == [rows[0]] + rows[1..];
    }
  }

  /** Filtering the end of an ascending table gives the end of the filtered table, or all of it. */
  lemma {:induction false} SinceOfSuffix(rows: seq<Sample>, k: nat, since: Option<real>)
    requires Ascending(rows) && k <= |rows|
    ensures var all, part := Since(rows, since), Since(rows[k..], since);
            && |part| <= |all| && part == all[|all| - |part|..]
            && (part == all || part == rows[k..])
    decreases |rows|
  {
    if k > 0 {
      SinceOfSuffix(rows[1..], k - 1, since);
      assert rows[1..][k - 1..] == rows[k..];
      var keep := since.None? || rows[0].time >= since.value;
      if keep { KeptFromHere(rows, k, since); }
      SuffixOfLonger(rows[0], keep, Since(rows[1..], since), Since(rows[k..], since));
    }
  }

  /** In an ascending table everything after a row that is kept is kept. */
  lemma KeptFromHere(rows: seq<Sample>, k: nat, since: Option<real>)
    requires Ascending(rows) && 0 < k <= |rows| && (since.None? || rows[0].time >= since.value)
    ensures Since(rows[k..], since) == rows[k..]
  {
    forall r | r in rows[k..] ensures r.time >= rows[0].time {
      var i :| 0 <= i < |rows[k..]| && rows[k..][i] == r;
      assert rows[k + i] == r;
    }
    SinceKeepsAll(rows[k..], since);
  }

  lemma SuffixOfLonger(r: Sample, keep: bool, all: seq<Sample>, part: seq<Sample>)
    requires |part| <= |all| && part == all[|all| - |part|..]
    ensures var more := if keep then [r] + all else all;
            |part| <= |more| && part == more[|more| - |part|..]
  {
  }

  lemma LastOfSuffix<T>(data: seq<T>, k: nat, n: nat)
    requires k + n <= |data| && n > 0
    ensures Last(data[k..], n) == Last(data, n)
  {
  }

  lemma ColumnsOfSuffix(rows: seq<Sample>, k: nat)
    requires k <= |rows|
    ensures var c, d := ColumnsOf(rows), ColumnsOf(rows[k..]);
            d == Columns(c.times[k..], c.cpu[k..], c.memory[k..], c.disk[k..])
  {
  }

  lemma AllMissingSuffix(column: seq<Option<real>>, k: nat)
    requires k <= |column|
    ensures AllMissing(column) ==> AllMissing(column[k..])
  {
  }

  lemma {:induction false} MissingHasNone(column: seq<Option<real>>)
    requires AllMissing(column)
    ensures Present(column) == []
    decreases |column|
  {
    if column != [] { MissingHasNone(column[1..]); }
  }

  /** Whether the average disk use exceeds a threshold is seen in any window of at least n rows. */
  lemma DiskMeanOfSuffix(column: seq<Option<real>>, k: nat, n: nat, threshold: real)
    requires 0 < n && k + n <= |column| && threshold >= 0.0
    ensures Exceeds(MeanPresent(column[k..], n), threshold) <==> Exceeds(MeanPresent(column, n), threshold)
  {
    LastOfSuffix(column, k, n);
    AllMissingSuffix(column, k);
    if AllMissing(column[k..]) {
      MissingHasNone(Last(column[k..], n));
    }
  }

  lemma DiskSlopeOfSuffix(times: seq<real>, column: seq<Option<real>>, k: nat, n: nat, threshold: real)
    requires |times| == |column| && 0 < n && k + n <= |column| && threshold >= 0.0
    ensures Exceeds(SlopePresent(times[k..], column[k..], n), threshold)
            <==> Exceeds(SlopePresent(times, column, n), threshold)
  {
    LastOfSuffix(column, k, n);
    LastOfSuffix(times, k, n);
    AllMissingSuffix(column, k);
    if AllMissing(column[k..]) {
      assert forall i :: 0 <= i < |Last(column[k..], n)| ==> Last(column[k..], n)[i].None?;
    }
  }

  lemma AdviceOfSuffix(rows: seq<Sample>, k: nat, a: Advice)
    requires k + 20 <= |rows|
    ensures Advises(ColumnsOf(rows[k..]), a) <==> Advises(ColumnsOf(rows), a)
  {
    var c := ColumnsOf(rows);
    ColumnsOfSuffix(rows, k);
    match a
    case ScaleCpu => LastOfSuffix(c.cpu, k, 10);
    case ReduceMemory => LastOfSuffix(c.memory, k, 10);
    case CleanDisk => DiskMeanOfSuffix(c.disk, k, 10, 10240.0);
    case CpuRising => LastOfSuffix(c.times, k, 20); LastOfSuffix(c.cpu, k, 20);
    case MemoryRising => LastOfSuffix(c.times, k, 20); LastOfSuffix(c.memory, k, 20);
    case DiskRising => DiskSlopeOfSuffix(c.times, c.disk, k, 20, 100.0);
  }

  /**
   For every table with distinct timestamps, however its rows and readings look and whatever lower time
   bound is given, analysing only the newest `limit` rows gives the recommendations of the whole table,
   provided limit is at least 20.
   */
  lemma WindowIsEnough(table: seq<Sample>, oldest: seq<Sample>, newest: seq<Sample>, limit: nat, since: Option<real>)
    requires DistinctTimes(table) && Sorts(table, oldest, newest)
    requires limit >= 20
    ensures Recommend(Selected(oldest, newest, Some(limit), since)) == Recommend(Selected(oldest, newest, None, since))
  {
    SelectedIsSuffix(table, oldest, newest, limit, since);
    SinceIsWindow(oldest, Skipped(oldest, limit), since);
    RecommendOnWindow(Since(oldest, since), Since(oldest[Skipped(oldest, limit)..], since));
  }

  /** How many rows a limit leaves out. */
  function Skipped(rows: seq<Sample>, limit: nat): (k: nat)
    ensures k <= |rows| && (k > 0 ==> |rows| - k == limit)
  {
    if |rows| <= limit then 0 else |rows| - limit
  }

  lemma SelectedIsSuffix(table: seq<Sample>, oldest: seq<Sample>, newest: seq<Sample>, limit: nat, since: Option<real>)
    requires DistinctTimes(table) && Sorts(table, oldest, newest)
    ensures Selected(oldest, newest, Some(limit), since)
            == Since(oldest[Skipped(oldest, limit)..], since)
    ensures Selected(oldest, newest, None, since) == Since(oldest, since)
    ensures Ascending(oldest)
  {
    RecentIsSuffix(table, oldest, newest, limit);
    assert oldest[0..] == oldest;
  }

  /** `part` is all rows, or at least the last twenty. */
  ghost predicate Window(all: seq<Sample>, part: seq<Sample>) {
    part == all || (20 <= |part| <= |all| && part == all[|all| - |part|..])
  }

  lemma SinceIsWindow(oldest: seq<Sample>, k: nat, since: Option<real>)
    requires Ascending(oldest) && k <= |oldest| && (k > 0 ==> k + 20 <= |oldest|)
    ensures Window(Since(oldest, since), Since(oldest[k..], since))
  {
    SinceOfSuffix(oldest, k, since);
    assert k == 0 ==> oldest[k..] == oldest;
  }

  lemma RecommendOnWindow(all: seq<Sample>, part: seq<Sample>)
    requires Window(all, part)
    ensures Recommend(part) == Recommend(all)
  {
    if part != all {
      RecommendOnSuffix(all, |all| - |part|);
    }
  }

  lemma RecommendOnSuffix(rows: seq<Sample>, k: nat)
    requires k + 20 <= |rows|
    ensures Recommend(rows[k..]) == Recommend(rows)
  {
    forall a: Advice ensures Advises(ColumnsOf(rows[k..]), a) <==> Advises(ColumnsOf(rows), a) {
      AdviceOfSuffix(rows, k, a);
    }
    assert Holding(ColumnsOf(rows[k..])) == Holding(ColumnsOf(rows));
  }

  // Nineteen rows do not decide

  /** Twenty samples a minute apart: an idle one, then nineteen at 80 percent. */
  function Ramp(): seq<Sample> {
    seq(20, i => Sample(60.0 * i as real, if i == 0 then 0.0 else 80.0, 0.0, None))
  }

  lemma AdvisedIff(c: Columns, a: Advice)
    requires Aligned(c)
    ensures a in Advised(c) <==> Advises(c, a)
  {
    HoldingListed(Holding(c));
    HoldsIff(c, a);
  }

  lemma RampRises()
    ensures CpuRising in Recommend(Ramp())
  {
    var c := ColumnsOf(Ramp());
    RampSorts();
    assert Last(c.times, 20) == c.times && Last(c.cpu, 20) == c.cpu;
    RampEnds(Ramp()[0], Ramp()[19], c.cpu[0], c.cpu[19]);
    SlopeExceeds(Ramp(), c.cpu, 0.5);
    AdvisedIff(c, CpuRising);
  }

  lemma RampEnds(from: Sample, to: Sample, first: real, last: real)
    requires from.time == 0.0 && to.time == 60.0 * 19.0 && first == 0.0 && last == 80.0
    ensures Rises(from, to, first, last, 0.5)
  {
  }

  lemma FlatSlope(times: seq<real>, data: seq<real>, level: real)
    requires |times| == |data| && forall i :: 0 <= i < |data| ==> data[i] == level
    ensures Slope(times, data) == 0.0
  {
  }

  lemma RampEndIsFlat(k: nat)
    requires 0 < k <= 20
    ensures CpuRising !in Recommend(Ramp()[k..])
  {
    var c := ColumnsOf(Ramp()[k..]);
    assert Last(c.times, 20) == c.times && Last(c.cpu, 20) == c.cpu;
    FlatSlope(c.times, c.cpu, 80.0);
    AdvisedIff(c, CpuRising);
  }

  lemma RampSorts()
    ensures DistinctTimes(Ramp()) && Sorts(Ramp(), Ramp(), Reverse(Ramp()))
  {
    ReverseKeeps(Ramp());
  }

  /** For every smaller limit the ramp is recommended on as a whole but not from its newest rows. */
  lemma SmallerWindowsMiss(limit: nat)
    requires limit < 20
    ensures DistinctTimes(Ramp()) && Sorts(Ramp(), Ramp(), Reverse(Ramp()))
    ensures Recommend(Selected(Ramp(), Reverse(Ramp()), Some(limit), None))
            != Recommend(Selected(Ramp(), Reverse(Ramp()), None, None))
  {
    RampSorts();
    RecentIsSuffix(Ramp(), Ramp(), Reverse(Ramp()), limit);
    SinceKeepsAll(Ramp(), None);
    SinceKeepsAll(Ramp()[20 - limit..], None);
    RampRises();
    RampEndIsFlat(20 - limit);
  }

  /** The window decides the recommendations of the whole table. */
  ghost predicate Decides(limit: nat, table: seq<Sample>, oldest: seq<Sample>, newest: seq<Sample>,
                          since: Option<real>)
  {
    DistinctTimes(table) && Sorts(table, oldest, newest) ==>
      Recommend(Selected(oldest, newest, Some(limit), since)) == Recommend(Selected(oldest, newest, None, since))
  }

  /** Twenty is exactly the limit from which a window is enough for every table. */
  lemma TwentyIsTheWindow(limit: nat)
    ensures (forall table, oldest, newest, since :: Decides(limit, table, oldest, newest, since)) <==> limit >= 20
  {
    if limit >= 20 {
      forall table, oldest, newest, since ensures Decides(limit, table, oldest, newest, since) {
        if DistinctTimes(table) && Sorts(table, oldest, newest) {
          WindowIsEnough(table, oldest, newest, limit, since);
        }
      }
    } else {
      SmallerWindowsMiss(limit);
      assert !Decides(limit, Ramp(), Ramp(), Reverse(Ramp()), None);
    }
  }

  // What the pieces are

  /** A total adds up: nothing, one reading, and two stretches of readings. */
  lemma {:induction false} TotalAdds(x: real, a: seq<real>, b: seq<real>)
    ensures Total([]) == 0.0 && Total([x]) == x && Total(a + b) == Total(a) + Total(b)
    decreases |a|
  {
    if a == [] {
      assert a + b == b;
    } else {
      TotalAdds(x, a[1..], b);
      assert (a + b)[1..] == a[1..] + b;
    }
  }

  /** The readings present are those of each stretch in turn; a missing one is passed over. */
  lemma {:induction false} PresentJoins(x: real, a: seq<Option<real>>, b: seq<Option<real>>)
    ensures Present([]) == [] && Present([None]) == [] && Present([Some(x)]) == [x]
    ensures Present(a + b) == Present(a) + Present(b)
    decreases |a|
  {
    if a == [] {
      assert a + b == b;
    } else {
      PresentJoins(x, a[1..], b);
      assert (a + b)[1..] == a[1..] + b;
      Regroup(if a[0].Some? then [a[0].value] else [], Present(a[1..]), Present(b));
    }
  }

  lemma Regroup(a: seq<real>, b: seq<real>, c: seq<real>)
    ensures a + (b + c) == a + b + c
  {
  }

  /** The time filter keeps a row exactly if it is not before the bound, and keeps the order. */
  lemma {:induction false} SinceJoins(r: Sample, a: seq<Sample>, b: seq<Sample>, since: Option<real>)
    ensures Since([], since) == []
    ensures Since([r], since) == if since.Some? && r.time < since.value then [] else [r]
    ensures Since(a + b, since) == Since(a, since) + Since(b, since)
    decreases |a|
  {
    if a == [] {
      assert a + b == b;
    } else {
      SinceJoins(r, a[1..], b, since);
      assert (a + b)[1..] == a[1..] + b;
    }
  }

  // What each recommendation means

  lemma QuotientExceeds(x: real, y: real, t: real)
    requires y > 0.0
    ensures x / y > t <==> x > t * y
  {
    var q := x / y;
    assert q * y == x;
    if q > t {
      assert (q - t) * y > 0.0;
    } else {
      assert (t - q) * y >= 0.0;
    }
  }

  lemma MeanExceeds(data: seq<real>, t: real)
    requires t >= 0.0
    ensures Mean(data) > t <==> data != [] && Total(data) > t * |data| as real
  {
    if data != [] { QuotientExceeds(Total(data), |data| as real, t); }
  }

  /**
   The average disk use: NaN exactly if there are readings but none among the last n; 0 if there are none
   at all; otherwise the number that, times the readings there are, gives their total.
   */
  lemma DiskMeanMeans(column: seq<Option<real>>, n: nat)
    ensures MeanPresent(column, n) == None <==> !AllMissing(column) && AllMissing(Last(column, n))
    ensures AllMissing(column) ==> MeanPresent(column, n) == Some(0.0)
    ensures var present := Present(Last(column, n));
            present != [] ==>
              MeanPresent(column, n).Some? && MeanPresent(column, n).value * |present| as real == Total(present)
  {
    PresentIff(Last(column, n));
    if AllMissing(column) {
      assert AllMissing(Last(column, n));
    }
  }

  lemma {:induction false} PresentIff(column: seq<Option<real>>)
    ensures Present(column) == [] <==> AllMissing(column)
    decreases |column|
  {
    if column != [] {
      PresentIff(column[1..]);
      assert AllMissing(column) <==> column[0].None? && AllMissing(column[1..]) by {
        if column[0].None? && AllMissing(column[1..]) {
          forall i | 0 <= i < |column| ensures column[i].None? {
            assert i > 0 ==> column[i] == column[1..][i - 1];
          }
        }
      }
    }
  }

  /** From the first to the last sample a reading rose by more than `perMinute` for every minute between them. */
  predicate Rises(from: Sample, to: Sample, first: real, last: real, perMinute: real) {
    to.time > from.time && last - first > perMinute * ((to.time - from.time) / 60.0)
  }

  lemma SlopeExceeds(rows: seq<Sample>, data: seq<real>, t: real)
    requires Ascending(rows) && |data| == |rows| && t >= 0.0
    ensures Slope(ColumnsOf(rows).times, data) > t <==>
            |rows| >= 2 && Rises(rows[0], rows[|rows| - 1], data[0], data[|data| - 1], t)
  {
    if |rows| >= 2 {
      var minutes := (rows[|rows| - 1].time - rows[0].time) / 60.0;
      if minutes > 0.0 { QuotientExceeds(data[|data| - 1] - data[0], minutes, t); }
    }
  }

  lemma LastColumns(rows: seq<Sample>, n: nat)
    requires n > 0
    ensures var c, d := ColumnsOf(rows), ColumnsOf(Last(rows, n));
            Columns(Last(c.times, n), Last(c.cpu, n), Last(c.memory, n), Last(c.disk, n)) == d
  {
  }

  lemma CpuMeans(rows: seq<Sample>)
    ensures var recent := ColumnsOf(Last(rows, 10)).cpu;
            Advises(ColumnsOf(rows), ScaleCpu) <==> rows != [] && Total(recent) > 80.0 * |recent| as real
  {
    LastColumns(rows, 10);
    MeanExceeds(Last(ColumnsOf(rows).cpu, 10), 80.0);
  }

  lemma MemoryMeans(rows: seq<Sample>)
    ensures var recent := ColumnsOf(Last(rows, 10)).memory;
            Advises(ColumnsOf(rows), ReduceMemory) <==> rows != [] && Total(recent) > 1024.0 * |recent| as real
  {
    LastColumns(rows, 10);
    MeanExceeds(Last(ColumnsOf(rows).memory, 10), 1024.0);
  }

  lemma DiskExceeds(column: seq<Option<real>>, n: nat, t: real)
    requires t >= 0.0
    ensures var present := Present(Last(column, n));
            Exceeds(MeanPresent(column, n), t) <==> present != [] && Total(present) > t * |present| as real
  {
    MeanExceeds(Present(Last(column, n)), t);
    PresentIff(Last(column, n));
    if AllMissing(column) {
      assert AllMissing(Last(column, n));
    }
  }

  lemma DiskMeans(rows: seq<Sample>)
    ensures var readings := Present(ColumnsOf(Last(rows, 10)).disk);
            Advises(ColumnsOf(rows), CleanDisk) <==> readings != [] && Total(readings) > 10240.0 * |readings| as real
  {
    LastColumns(rows, 10);
    DiskExceeds(ColumnsOf(rows).disk, 10, 10240.0);
  }

  lemma CpuTrendMeans(rows: seq<Sample>)
    requires Ascending(rows)
    ensures Advises(ColumnsOf(rows), CpuRising) <==> CpuRises(Last(rows, 20))
  {
    var w := Last(rows, 20);
    LastColumns(rows, 20);
    SlopeExceeds(w, ColumnsOf(w).cpu, 0.5);
  }

  lemma MemoryTrendMeans(rows: seq<Sample>)
    requires Ascending(rows)
    ensures Advises(ColumnsOf(rows), MemoryRising) <==> MemoryRises(Last(rows, 20))
  {
    var w := Last(rows, 20);
    LastColumns(rows, 20);
    SlopeExceeds(w, ColumnsOf(w).memory, 50.0);
  }

  lemma DiskTrendMeans(rows: seq<Sample>)
    requires Ascending(rows)
    ensures Advises(ColumnsOf(rows), DiskRising) <==> DiskRises(Last(rows, 20))
  {
    LastColumns(rows, 20);
    var w := Last(rows, 20);
    assert rows != [] ==> w[|w| - 1] == rows[|rows| - 1];
    if rows != [] && rows[|rows| - 1].disk.Some? {
      MissingEnd(ColumnsOf(rows).disk);
    }
    DiskSlopeExceeds(ColumnsOf(rows).times, ColumnsOf(rows).disk, w, 100.0);
  }

  lemma MissingEnd(column: seq<Option<real>>)
    requires |column| > 0 && column[|column| - 1].Some?
    ensures !AllMissing(column)
  {
  }

  lemma DiskSlopeExceeds(times: seq<real>, column: seq<Option<real>>, w: seq<Sample>, t: real)
    requires |times| == |column| && Ascending(w) && t >= 0.0
    requires Last(times, 20) == ColumnsOf(w).times && Last(column, 20) == ColumnsOf(w).disk
    requires w != [] && w[|w| - 1].disk.Some? ==> !AllMissing(column)
    ensures var n := |w| - 1;
            Exceeds(SlopePresent(times, column, 20), t) <==>
            && n >= 1 && w[0].disk.Some? && w[n].disk.Some?
            && Rises(w[0], w[n], w[0].disk.value, w[n].disk.value, t)
  {
    var n := |w| - 1;
    if n >= 1 && w[0].disk.Some? && w[n].disk.Some? && w[n].time != w[0].time {
      PairSlope(w[0], w[n], w[0].disk.value, w[n].disk.value, t);
    }
  }

  lemma PairSlope(from: Sample, to: Sample, first: real, last: real, t: real)
    requires from.time < to.time && t >= 0.0
    ensures Slope([from.time, to.time], [first, last]) > t <==> Rises(from, to, first, last, t)
  {
    assert ColumnsOf([from, to]).times == [from.time, to.time];
    SlopeExceeds([from, to], [first, last], t);
  }

  function Rank(a: Advice): nat {
    match a
    case ScaleCpu => 0
    case ReduceMemory => 1
    case CleanDisk => 2
    case CpuRising => 3
    case MemoryRising => 4
    case DiskRising => 5
  }

  ghost predicate InOrder(advice: seq<Advice>) {
    forall i, j :: 0 <= i < j < |advice| ==> Rank(advice[i]) < Rank(advice[j])
  }

  /** Each check that holds is listed once, in the order of the checks. */
  lemma {:induction false} ListedMeans(checks: seq<Advice>, holding: set<Advice>)
    requires InOrder(checks)
    ensures InOrder(Listed(checks, holding))
    ensures forall a :: a in Listed(checks, holding) <==> a in checks && a in holding
    decreases |checks|
  {
    if checks != [] {
      var n := |checks| - 1;
      ListedMeans(checks[..n], holding);
      assert checks == checks[..n] + [checks[n]];
      forall a | a in Listed(checks[..n], holding) ensures Rank(a) < Rank(checks[n]) {
        var i :| 0 <= i < n && checks[..n][i] == a;
        assert checks[i] == a;
      }
    }
  }

  lemma AllChecks()
    ensures InOrder(CHECKS) && forall a: Advice :: a in CHECKS
  {
    forall a: Advice ensures a in CHECKS {
      assert CHECKS[Rank(a)] == a;
    }
  }

  lemma HoldingListed(holding: set<Advice>)
    ensures InOrder(Listed(CHECKS, holding)) && forall a :: a in Listed(CHECKS, holding) <==> a in holding
  {
    AllChecks();
    ListedMeans(CHECKS, holding);
  }

  lemma RecommendIff(rows: seq<Sample>, a: Advice, meaning: bool)
    requires Advises(ColumnsOf(rows), a) <==> meaning
    ensures a in Recommend(rows) <==> meaning
  {
    AdvisedIff(ColumnsOf(rows), a);
  }

  /** The readings total more than `t` times their number. */
  predicate AverageAbove(data: seq<real>, t: real) {
    data != [] && Total(data) > t * |data| as real
  }

  predicate CpuRises(w: seq<Sample>) {
    |w| >= 2 && Rises(w[0], w[|w| - 1], w[0].cpu, w[|w| - 1].cpu, 0.5)
  }

  predicate MemoryRises(w: seq<Sample>) {
    |w| >= 2 && Rises(w[0], w[|w| - 1], w[0].memory, w[|w| - 1].memory, 50.0)
  }

  /** A disk reading at both ends of the rows, and a rise between them. */
  predicate DiskRises(w: seq<Sample>) {
    && |w| >= 2 && w[0].disk.Some? && w[|w| - 1].disk.Some?
    && Rises(w[0], w[|w| - 1], w[0].disk.value, w[|w| - 1].disk.value, 100.0)
  }

  lemma AveragesMean(rows: seq<Sample>)
    ensures var c := ColumnsOf(rows); var recent := ColumnsOf(Last(rows, 10));
            && (Advises(c, ScaleCpu) <==> AverageAbove(recent.cpu, 80.0))
            && (Advises(c, ReduceMemory) <==> AverageAbove(recent.memory, 1024.0))
            && (Advises(c, CleanDisk) <==> AverageAbove(Present(recent.disk), 10240.0))
  {
    CpuMeans(rows);
    MemoryMeans(rows);
    DiskMeans(rows);
  }

  lemma RisesMean(rows: seq<Sample>)
    requires Ascending(rows)
    ensures var c := ColumnsOf(rows); var w := Last(rows, 20);
            && (Advises(c, CpuRising) <==> CpuRises(w)) && (Advises(c, MemoryRising) <==> MemoryRises(w))
            && (Advises(c, DiskRising) <==> DiskRises(w))
  {
    CpuTrendMeans(rows);
    MemoryTrendMeans(rows);
    DiskTrendMeans(rows);
  }

  lemma OrderMeans(rows: seq<Sample>)
    ensures InOrder(Recommend(rows))
  {
    HoldingListed(Holding(ColumnsOf(rows)));
  }

  /**
   When each recommendation is given, in terms of the rows: a total of the last ten readings above the
   threshold times their number, or a rise over the last twenty above the threshold per minute, where
   missing disk readings count for nothing and a missing end of the window hides a rise.
   */
  lemma RecommendMeans(rows: seq<Sample>)
    requires Ascending(rows)
    ensures InOrder(Recommend(rows))
    ensures ScaleCpu in Recommend(rows) <==> AverageAbove(ColumnsOf(Last(rows, 10)).cpu, 80.0)
    ensures ReduceMemory in Recommend(rows) <==> AverageAbove(ColumnsOf(Last(rows, 10)).memory, 1024.0)
    ensures CleanDisk in Recommend(rows) <==> AverageAbove(Present(ColumnsOf(Last(rows, 10)).disk), 10240.0)
    ensures CpuRising in Recommend(rows) <==> CpuRises(Last(rows, 20))
    ensures MemoryRising in Recommend(rows) <==> MemoryRises(Last(rows, 20))
    ensures DiskRising in Recommend(rows) <==> DiskRises(Last(rows, 20))
  {
    OrderMeans(rows);
    AveragesMean(rows);
    RisesMean(rows);
    RecommendIff(rows, ScaleCpu, AverageAbove(ColumnsOf(Last(rows, 10)).cpu, 80.0));
    RecommendIff(rows, ReduceMemory, AverageAbove(ColumnsOf(Last(rows, 10)).memory, 1024.0));
    RecommendIff(rows, CleanDisk, AverageAbove(Present(ColumnsOf(Last(rows, 10)).disk), 10240.0));
    RecommendIff(rows, CpuRising, CpuRises(Last(rows, 20)));
    RecommendIff(rows, MemoryRising, MemoryRises(Last(rows, 20)));
    RecommendIff(rows, DiskRising, DiskRises(Last(rows, 20)));
  }
}
