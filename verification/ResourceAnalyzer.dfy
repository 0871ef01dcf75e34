/** The metrics table and the analyzer built from it. */
module ResourceAnalyzer {
  import opened Options
  import opened ResourceAnalysis

  class MetricsStore {
    var table: seq<Sample>

    constructor ()
      ensures table == []
    {
      table := [];
    }

    method AddMetric(m: Sample)
      modifies this
      ensures table == old(table) + [m]
    {
      table := table + [m];
    }

    method AddMetrics(metrics: seq<Sample>)
      modifies this
      ensures table == old(table) + metrics
    {
      if metrics == [] { return; }
      table := table + metrics;
    }

    /**
     All rows in the database's ascending order, fetched in batches until a batch is empty. A batch size
     of zero fetches nothing.
     */
    method GetMetrics(oldest: seq<Sample>, batchSize: nat) returns (rows: seq<Sample>)
      requires Ascending(oldest) && multiset(oldest) == multiset(table)
      ensures rows == if batchSize == 0 then [] else oldest
    {
      rows := [];
      while true
        invariant |rows| <= |oldest| && rows == oldest[..|rows|]
        invariant batchSize == 0 ==> rows == []
        decreases |oldest| - |rows|
      {
        var batch := Limit(oldest[|rows|..], batchSize);
        if batch == [] { break; }
        rows := rows + batch;
      }
    }

    /** The newest rows, converted one by one and put oldest first. */
    method GetRecentMetrics(newest: seq<Sample>, limit: nat) returns (recent: seq<Sample>)
      requires Descending(newest) && multiset(newest) == multiset(table)
      ensures recent == Reverse(Limit(newest, limit))
    {
      var rows := Limit(newest, limit);
      var result := [];
      for i := 0 to |rows|
        invariant result == rows[..i]
      {
        result := result + [rows[i]];
      }
      recent := Reverse(result);
    }
  }

  class MetricsAnalyzer {
    var times: seq<real>
    var cpu: seq<real>
    var memory: seq<real>
    var disk: seq<Option<real>>

    ghost function Now(): Columns
      reads this
    {
      Columns(times, cpu, memory, disk)
    }

    constructor (metrics: seq<Sample>)
      ensures Now() == ColumnsOf(metrics)
    {
      times, cpu, memory, disk := [], [], [], [];
      new;
      for i := 0 to |metrics|
        invariant Now() == ColumnsOf(metrics[..i])
      {
        var m := metrics[i];
        ghost var before := metrics[..i];
        assert metrics[..i + 1] == before + [m];
        ColumnsGrow(before, m);
        times, cpu, memory, disk := times + [m.time], cpu + [m.cpu], memory + [m.memory], disk + [m.disk];
      }
      assert metrics[..|metrics|] == metrics;
    }

    method AverageDiskUsage(lastN: nat) returns (average: Option<real>)
      ensures average == MeanPresent(disk, lastN)
    {
      if AllMissing(disk) { return Some(0.0); }
      var present := Present(Last(disk, lastN));
      average := if present == [] then None else Some(Mean(present));
    }

    /** The recommendations, one check after another. */
    method RecommendOptimizations() returns (advice: seq<Advice>)
      requires Aligned(Now())
      ensures advice == Advised(Now())
    {
      var averageDisk := AverageDiskUsage(10);
      HoldingIff(Now());
      advice := Collect(
        Mean(Last(cpu, 10)) > 80.0,
        Mean(Last(memory, 10)) > 1024.0,
        Exceeds(averageDisk, 10240.0),
        Slope(Last(times, 20), Last(cpu, 20)) > 0.5,
        Slope(Last(times, 20), Last(memory, 20)) > 50.0,
        Exceeds(SlopePresent(times, disk, 20), 100.0),
        Holding(Now()));
    }
  }

  lemma HoldingIff(c: Columns)
    requires Aligned(c)
    ensures ScaleCpu in Holding(c) <==> Mean(Last(c.cpu, 10)) > 80.0
    ensures ReduceMemory in Holding(c) <==> Mean(Last(c.memory, 10)) > 1024.0
    ensures CleanDisk in Holding(c) <==> Exceeds(MeanPresent(c.disk, 10), 10240.0)
    ensures CpuRising in Holding(c) <==> Slope(Last(c.times, 20), Last(c.cpu, 20)) > 0.5
    ensures MemoryRising in Holding(c) <==> Slope(Last(c.times, 20), Last(c.memory, 20)) > 50.0
    ensures DiskRising in Holding(c) <==> Exceeds(SlopePresent(c.times, c.disk, 20), 100.0)
  {
    HoldsIff(c, ScaleCpu);
    HoldsIff(c, ReduceMemory);
    HoldsIff(c, CleanDisk);
    HoldsIff(c, CpuRising);
    HoldsIff(c, MemoryRising);
    HoldsIff(c, DiskRising);
  }

  /** Appends the recommendation of the next check if it holds. */
  method Append(advice: seq<Advice>, holds: bool, a: Advice, ghost before: seq<Advice>, ghost holding: set<Advice>)
    returns (more: seq<Advice>)
    requires (holds <==> a in holding) && advice == Listed(before, holding)
    ensures more == Listed(before + [a], holding)
  {
    assert (before + [a])[..|before|] == before;
    more := advice;
    if holds { more := more + [a]; }
  }

  /** The recommendations whose checks hold, one check after the other. */
  method Collect(cpu: bool, memory: bool, disk: bool, cpuTrend: bool, memoryTrend: bool, diskTrend: bool,
                 ghost holding: set<Advice>)
    returns (advice: seq<Advice>)
    requires (cpu <==> ScaleCpu in holding) && (memory <==> ReduceMemory in holding) && (disk <==> CleanDisk in holding)
    requires (cpuTrend <==> CpuRising in holding) && (memoryTrend <==> MemoryRising in holding)
    requires diskTrend <==> DiskRising in holding
    ensures advice == Listed(CHECKS, holding)
  {
    ghost var before: seq<Advice> := [];
    advice := Append([], cpu, ScaleCpu, before, holding);
    before := before + [ScaleCpu];
    advice := Append(advice, memory, ReduceMemory, before, holding);
    before := before + [ReduceMemory];
    advice := Append(advice, disk, CleanDisk, before, holding);
    before := before + [CleanDisk];
    advice := Append(advice, cpuTrend, CpuRising, before, holding);
    before := before + [CpuRising];
    advice := Append(advice, memoryTrend, MemoryRising, before, holding);
    before := before + [MemoryRising];
    advice := Append(advice, diskTrend, DiskRising, before, holding);
    before := before + [DiskRising];
    assert before == CHECKS;
  }

  lemma ColumnsGrow(rows: seq<Sample>, m: Sample)
    ensures var c := ColumnsOf(rows);
            ColumnsOf(rows + [m])
            == Columns(c.times + [m.time], c.cpu + [m.cpu], c.memory + [m.memory], c.disk + [m.disk])
  {
  }

  /**
   from_store: the rows of an iterator if one is given, without a look at the store; otherwise the newest
   rows if a limit is given, else all of them; then the time filter.
   */
  method FromStore(store: MetricsStore, oldest: seq<Sample>, newest: seq<Sample>, limit: Option<nat>,
                   since: Option<real>, iterated: Option<seq<Sample>>, batchSize: nat)
    returns (analyzer: MetricsAnalyzer)
    requires Sorts(store.table, oldest, newest) && batchSize > 0
    ensures fresh(analyzer)
    ensures analyzer.Now() == ColumnsOf(if iterated.Some? then Since(iterated.value, since)
                                        else Selected(oldest, newest, limit, since))
  {
    var rows: seq<Sample>;
    if iterated.Some? {
      rows := iterated.value;
    } else if limit.Some? {
      rows := store.GetRecentMetrics(newest, limit.value);
    } else {
      rows := store.GetMetrics(oldest, batchSize);
    }
    analyzer := new MetricsAnalyzer(Since(rows, since));
  }

  /** Analysing twenty or more recent rows and analysing the whole table ends in the same recommendations. */
  method RecommendTwice(store: MetricsStore, oldest: seq<Sample>, newest: seq<Sample>, limit: nat, batchSize: nat)
    returns (recent: seq<Advice>, whole: seq<Advice>)
    requires DistinctTimes(store.table) && Sorts(store.table, oldest, newest) && limit >= 20 && batchSize > 0
    ensures recent == whole == Recommend(oldest)
  {
    var a := FromStore(store, oldest, newest, Some(limit), None, None, batchSize);
    recent := a.RecommendOptimizations();
    var b := FromStore(store, oldest, newest, None, None, None, batchSize);
    whole := b.RecommendOptimizations();
    WindowIsEnough(store.table, oldest, newest, limit, None);
    SinceKeepsAll(oldest, None);
  }
}
