/**
  `PVMonitor` and `PVController` of python-ca-examples/advanced_ca_client.py
  without the network: the monitor's change counter and bounded history with
  its statistics, and the controller's name-checked reads and writes over the
  registered process variables.

  The EPICS connection is outside the model. The controller holds, for each
  registered name, the reading its `PV.get()` would return (`None` when the
  channel has no value), and a write is returned as the request the
  controller would send.
 */
module PvMonitor {
  import opened Wrappers
  import opened Numeric
  import opened Fifo
  import opened ChannelValues

  /** One history entry: the dictionary built in `on_change`, its `datetime` given as a `Stamp`. */
  datatype MonitorEntry = MonitorEntry(timestamp: Stamp, value: Value, count: nat)

  /** The monitor's state: the name, `buffer` with its `maxlen`, and `change_count`. */
  datatype Monitor = Monitor(pvName: string, bufferSize: nat, buffer: seq<MonitorEntry>, changeCount: nat)

  /** `PVMonitor(pv_name, buffer_size)`; the source's default `buffer_size` is 100. */
  function NewMonitor(pvName: string, bufferSize: nat): (m: Monitor)
    ensures m.pvName == pvName && m.bufferSize == bufferSize && |m.buffer| == 0 && m.changeCount == 0
  {
    Monitor(pvName, bufferSize, [], 0)
  }

  /**
    `on_change`: the counter goes up by one before `datetime.fromtimestamp`
    runs. `stamp` is the outcome of that conversion, `None` when it raises (no
    timestamp was passed, or one outside the platform's range): the exception
    then leaves the callback with the count raised and nothing appended.
    Otherwise an entry tagged with the new count is appended, the oldest
    entry making way when the history is full.
   */
  function OnChange(m: Monitor, value: Value, stamp: Option<Stamp>): (r: Monitor)
    ensures r.pvName == m.pvName && r.bufferSize == m.bufferSize
    ensures r.changeCount == m.changeCount + 1
    ensures stamp.None? ==> r.buffer == m.buffer
    ensures stamp.Some? ==>
              r.buffer == Newest(m.buffer + [MonitorEntry(stamp.value, value, r.changeCount)], m.bufferSize) &&
              |r.buffer| <= m.bufferSize &&
              (m.bufferSize > 0 ==> r.buffer[|r.buffer| - 1] == MonitorEntry(stamp.value, value, r.changeCount))
  {
    var count := m.changeCount + 1;
    match stamp
    case None => m.(changeCount := count)
    case Some(t) =>
      var entry := MonitorEntry(t, value, count);
      PushIsNewest(m.buffer, m.bufferSize, entry);
      m.(changeCount := count, buffer := Push(m.buffer, m.bufferSize, entry))
  }

  /**
    The monitor invariant while every timestamp converts: the history
    respects its bound, and its counts are consecutive, ending at
    `change_count`, so they strictly increase.
   */
  predicate Consistent(m: Monitor)
  {
    && |m.buffer| <= m.bufferSize
    && |m.buffer| <= m.changeCount
    && forall i :: 0 <= i < |m.buffer| ==> m.buffer[i].count == m.changeCount - |m.buffer| + 1 + i
  }

  /**
    The invariant every change keeps, converted or not: the history respects
    its bound, its counts strictly increase, and each lies in `1..change_count`.
   */
  predicate Ordered(m: Monitor)
  {
    && |m.buffer| <= m.bufferSize
    && |m.buffer| <= m.changeCount
    && CountsIncrease(m.buffer)
    && CountsWithin(m.buffer, m.changeCount)
  }

  predicate CountsIncrease(es: seq<MonitorEntry>)
  {
    forall i, j :: 0 <= i < j < |es| ==> es[i].count < es[j].count
  }

  predicate CountsWithin(es: seq<MonitorEntry>, bound: nat)
  {
    forall i :: 0 <= i < |es| ==> 0 < es[i].count <= bound
  }

  /** An entry tagged above every count so far extends an increasing history. */
  lemma AppendKeepsCounts(es: seq<MonitorEntry>, bound: nat, e: MonitorEntry)
    requires CountsIncrease(es) && CountsWithin(es, bound) && e.count == bound + 1
    ensures CountsIncrease(es + [e]) && CountsWithin(es + [e], bound + 1)
  {
  }

  /** Dropping the oldest entries keeps the counts increasing and in range. */
  lemma SuffixKeepsCounts(es: seq<MonitorEntry>, bound: nat, k: nat)
    requires CountsIncrease(es) && CountsWithin(es, bound) && k <= |es|
    ensures CountsIncrease(es[k..]) && CountsWithin(es[k..], bound)
  {
    forall i, j | 0 <= i < j < |es[k..]|
      ensures es[k..][i].count < es[k..][j].count
    {
      assert es[k..][i] == es[k + i] && es[k..][j] == es[k + j];
    }
  }

  lemma NewMonitorConsistent(pvName: string, bufferSize: nat)
    ensures Consistent(NewMonitor(pvName, bufferSize))
  {
  }

  /** Every change whose timestamp converts keeps the monitor consistent. */
  lemma OnChangePreservesConsistent(m: Monitor, value: Value, stamp: Stamp)
    requires Consistent(m)
    ensures Consistent(OnChange(m, value, Some(stamp)))
  {
    var r := OnChange(m, value, Some(stamp));
    var all := m.buffer + [MonitorEntry(stamp, value, r.changeCount)];
    forall i | 0 <= i < |r.buffer|
      ensures r.buffer[i].count == r.changeCount - |r.buffer| + 1 + i
    {
      var k := |all| - |r.buffer| + i;
      assert r.buffer[i] == all[k];
    }
  }

  /**
    A timestamp that fails to convert breaks consistency exactly when the
    history holds an entry: the count has moved on past the newest entry's tag.
   */
  lemma FailedConversionBreaksConsistent(m: Monitor, value: Value)
    requires Consistent(m)
    ensures Consistent(OnChange(m, value, None)) <==> |m.buffer| == 0
  {
    if |m.buffer| > 0 {
      var r := OnChange(m, value, None);
      assert r.buffer[|r.buffer| - 1].count == m.changeCount != r.changeCount - |r.buffer| + 1 + (|r.buffer| - 1);
    }
  }

  /** Consistency is the special case of the weaker invariant where no count was skipped. */
  lemma ConsistentIsOrdered(m: Monitor)
    requires Consistent(m)
    ensures Ordered(m)
  {
  }

  /** Every change keeps the weaker invariant, whether its timestamp converts or not. */
  lemma OnChangePreservesOrdered(m: Monitor, value: Value, stamp: Option<Stamp>)
    requires Ordered(m)
    ensures Ordered(OnChange(m, value, stamp))
  {
    if stamp.Some? {
      var r := OnChange(m, value, stamp);
      var all := m.buffer + [MonitorEntry(stamp.value, value, r.changeCount)];
      AppendKeepsCounts(m.buffer, m.changeCount, all[|all| - 1]);
      assert all == m.buffer + [all[|all| - 1]];
      SuffixKeepsCounts(all, r.changeCount, |all| - |r.buffer|);
      assert r.buffer == all[|all| - |r.buffer|..];
    }
  }

  /** Consecutive counts: the history is strictly increasing in its counts. */
  lemma ConsistentCountsIncrease(m: Monitor, i: nat, j: nat)
    requires Consistent(m) && i < j < |m.buffer|
    ensures m.buffer[i].count < m.buffer[j].count
    ensures m.buffer[|m.buffer| - 1].count == m.changeCount
  {
  }

  /** An entry's `value`. */
  function HistoryValue(e: MonitorEntry): Value
  {
    e.value
  }

  /** The dictionary returned by `get_statistics`. */
  datatype MonitorStats = MonitorStats(count: nat, min: real, max: real, avg: real, latest: real, totalChanges: nat)

  /**
    `get_statistics`: `None` for an empty history or one without a numeric
    value; otherwise the numeric values' count, extremes, mean and the latest
    of them, with the total number of changes seen.
   */
  function GetStatistics(m: Monitor): (r: Option<MonitorStats>)
    ensures r.None? <==> forall i :: 0 <= i < |m.buffer| ==> m.buffer[i].value == NonNum
    ensures r.Some? ==>
              var ns := Numbers(ValuesOf(m.buffer, HistoryValue));
              && |ns| > 0
              && r.value.count == |ns| <= |m.buffer|
              && r.value.avg == Mean(ns)
              && r.value.min <= r.value.avg <= r.value.max
              && (forall i :: 0 <= i < |ns| ==> r.value.min <= ns[i] <= r.value.max)
              && r.value.min in ns && r.value.max in ns
              && r.value.latest == ns[|ns| - 1]
              && r.value.totalChanges == m.changeCount
  {
    NumbersEmpty(ValuesOf(m.buffer, HistoryValue));
    if |m.buffer| == 0 then None
    else
      var ns := Numbers(ValuesOf(m.buffer, HistoryValue));
      if |ns| == 0 then None
      else
        MeanBetweenMinAndMax(ns);
        Some(MonitorStats(|ns|, Min(ns), Max(ns), Mean(ns), ns[|ns| - 1], m.changeCount))
  }

  /** On any monitor that keeps the weaker invariant the statistics never count more values than changes seen. */
  lemma StatisticsCountBounded(m: Monitor)
    requires Ordered(m) && GetStatistics(m).Some?
    ensures GetStatistics(m).value.count <= GetStatistics(m).value.totalChanges
  {
  }

  /** `latest` is the value of the newest numeric entry. */
  lemma StatisticsLatest(m: Monitor, j: nat)
    requires j < |m.buffer| && m.buffer[j].value.Num?
    requires forall k :: j < k < |m.buffer| ==> m.buffer[k].value == NonNum
    ensures GetStatistics(m).Some? && GetStatistics(m).value.latest == m.buffer[j].value.v
  {
    var vs := ValuesOf(m.buffer, HistoryValue);
    LastNumber(vs, j);
    NumbersEmpty(vs);
    assert |Numbers(vs)| > 0;
    var st := GetStatistics(m);
    assert st == Some(MonitorStats(|Numbers(vs)|, Min(Numbers(vs)), Max(Numbers(vs)), Mean(Numbers(vs)), Numbers(vs)[|Numbers(vs)| - 1], m.changeCount));
  }

  /** A numeric change is at once the latest statistic, when the history has room for anything. */
  lemma LatestAfterChange(m: Monitor, x: real, stamp: Stamp)
    requires m.bufferSize > 0
    ensures var r := OnChange(m, Num(x), Some(stamp));
            GetStatistics(r).Some? && GetStatistics(r).value.latest == x &&
            GetStatistics(r).value.totalChanges == m.changeCount + 1
  {
    var r := OnChange(m, Num(x), Some(stamp));
    StatisticsLatest(r, |r.buffer| - 1);
  }

  // ---------------------------------------------------------------------------
  // PVController
  // ---------------------------------------------------------------------------

  /** The registered names, each with the reading its channel would give. */
  datatype Controller = Controller(pvs: map<string, Option<Value>>)

  /** The write `put` hands to a registered channel. */
  datatype PutRequest = PutRequest(pvName: string, value: Value, wait: bool)

  /** The answer of `put` and the write it issued, if any. */
  datatype PutOutcome = PutOutcome(accepted: bool, request: Option<PutRequest>)

  /** `get(pv_name)`: the channel's reading for a registered name, `None` otherwise. */
  function Get(c: Controller, pvName: string): (r: Option<Value>)
    ensures pvName !in c.pvs ==> r.None?
    ensures pvName in c.pvs ==> r == c.pvs[pvName]
  {
    if pvName in c.pvs then c.pvs[pvName] else None
  }

  /** `put(pv_name, value, wait)`: true, with a write issued, exactly for a registered name. */
  function Put(c: Controller, pvName: string, value: Value, wait: bool): (r: PutOutcome)
    ensures r.accepted <==> pvName in c.pvs
    ensures r.accepted ==> r.request == Some(PutRequest(pvName, value, wait))
    ensures !r.accepted ==> r.request.None?
  {
    if pvName in c.pvs then PutOutcome(true, Some(PutRequest(pvName, value, wait)))
    else PutOutcome(false, None)
  }

  /** `get_all()`: one reading per registered name, agreeing with `get`. */
  function GetAll(c: Controller): (r: map<string, Option<Value>>)
    ensures r.Keys == c.pvs.Keys
    ensures forall name :: name in r ==> r[name] == Get(c, name)
  {
    map name | name in c.pvs :: c.pvs[name]
  }

  /** `get` and `put` agree on which names the controller knows. */
  lemma GetPutAgree(c: Controller, pvName: string, value: Value, wait: bool)
    ensures !Put(c, pvName, value, wait).accepted ==> Get(c, pvName).None?
    ensures Put(c, pvName, value, wait).accepted <==> pvName in GetAll(c)
  {
  }
}
