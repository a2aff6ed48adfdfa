/**
  The in-memory part of `PVDataLogger` (python-ca-examples/data_logger.py):
  the value-change callback that appends to the data buffer while logging is
  on, the summary statistics over the buffer, the record written by
  `save_json_summary`, and the file-name sanitiser.

  The CSV and JSON files, the lock, the clock and the EPICS connection are
  outside the model; the ISO-8601 text of a timestamp is supplied by the
  caller, since `datetime` formatting is not modelled.
 */
module DataLogger {
  import opened Wrappers
  import opened Numeric
  import opened ChannelValues

  /** One logged sample: the dictionary built in `_on_value_change`. */
  datatype Entry = Entry(
    timestamp: real,
    isoTime: string,
    pvName: string,
    value: Value,
    status: int,
    severity: int)

  /** The logger's state: the monitored name, `data_buffer` and `is_logging`. */
  datatype Logger = Logger(pvName: string, buffer: seq<Entry>, isLogging: bool)

  /** A freshly constructed logger: an empty buffer, logging on. */
  function NewLogger(pvName: string): (l: Logger)
    ensures l.pvName == pvName && |l.buffer| == 0 && l.isLogging
  {
    Logger(pvName, [], true)
  }

  /** `kwargs.get(key, default)`: the keyword argument when the callback was given one. */
  function GetOr(arg: Option<int>, default: int): (r: int)
    ensures arg.None? ==> r == default
    ensures arg.Some? ==> r == arg.value
  {
    match arg
    case Some(x) => x
    case None => default
  }

  /**
    `_on_value_change`: ignored once logging has stopped. Otherwise
    `datetime.fromtimestamp` runs first; `stamp` is its outcome, `None` when
    it raises (no timestamp was passed, or one outside the platform's range),
    and then the exception leaves the callback before anything is appended.
    A converted timestamp appends exactly one entry, with status and severity
    0 unless the callback passed them.
   */
  function OnValueChange(
    l: Logger, pvName: string, value: Value, stamp: Option<Stamp>,
    status: Option<int>, severity: Option<int>): (r: Logger)
    ensures r.pvName == l.pvName && r.isLogging == l.isLogging
    ensures !l.isLogging || stamp.None? ==> r == l
    ensures l.isLogging && stamp.Some? ==>
              |r.buffer| == |l.buffer| + 1 && r.buffer[..|l.buffer|] == l.buffer &&
              r.buffer[|l.buffer|].timestamp == stamp.value.seconds &&
              r.buffer[|l.buffer|].isoTime == stamp.value.isoTime &&
              r.buffer[|l.buffer|].pvName == pvName && r.buffer[|l.buffer|].value == value &&
              (status.None? ==> r.buffer[|l.buffer|].status == 0) &&
              (status.Some? ==> r.buffer[|l.buffer|].status == status.value) &&
              (severity.None? ==> r.buffer[|l.buffer|].severity == 0) &&
              (severity.Some? ==> r.buffer[|l.buffer|].severity == severity.value)
  {
    if !l.isLogging then l
    else
      match stamp
      case None => l
      case Some(t) =>
        var entry := Entry(t.seconds, t.isoTime, pvName, value, GetOr(status, 0), GetOr(severity, 0));
        l.(buffer := l.buffer + [entry])
  }

  /** An entry's `value`. */
  function EntryValue(e: Entry): Value
  {
    e.value
  }

  /** The dictionary returned by `get_summary_statistics`. */
  datatype Summary = Summary(count: nat, min: real, max: real, avg: real, first: real, last: real, range: real)

  /**
    `get_summary_statistics`: `None` for an empty buffer or one without a
    numeric value; otherwise count, extremes, mean, first and last numeric
    value and the range, all over the numeric values only.
   */
  function SummaryStatistics(buffer: seq<Entry>): (r: Option<Summary>)
    ensures r.None? <==> forall i :: 0 <= i < |buffer| ==> buffer[i].value == NonNum
    ensures r.Some? ==>
              var ns := Numbers(ValuesOf(buffer, EntryValue));
              && |ns| > 0
              && r.value.count == |ns| <= |buffer|
              && r.value.avg == Mean(ns)
              && r.value.min <= r.value.avg <= r.value.max
              && r.value.range == r.value.max - r.value.min && r.value.range >= 0.0
              && (forall i :: 0 <= i < |ns| ==> r.value.min <= ns[i] <= r.value.max)
              && r.value.min in ns && r.value.max in ns
              && r.value.first == ns[0] && r.value.last == ns[|ns| - 1]
  {
    NumbersEmpty(ValuesOf(buffer, EntryValue));
    if |buffer| == 0 then None
    else
      var ns := Numbers(ValuesOf(buffer, EntryValue));
      if |ns| == 0 then None
      else
        MeanBetweenMinAndMax(ns);
        Some(Summary(|ns|, Min(ns), Max(ns), Mean(ns), ns[0], ns[|ns| - 1], Max(ns) - Min(ns)))
  }

  /** `first` is the value of the earliest numeric entry, `last` that of the latest. */
  lemma SummaryFirstAndLast(buffer: seq<Entry>, i: nat, j: nat)
    requires i <= j < |buffer| && buffer[i].value.Num? && buffer[j].value.Num?
    requires forall k :: 0 <= k < i ==> buffer[k].value == NonNum
    requires forall k :: j < k < |buffer| ==> buffer[k].value == NonNum
    ensures SummaryStatistics(buffer).Some?
    ensures SummaryStatistics(buffer).value.first == buffer[i].value.v
    ensures SummaryStatistics(buffer).value.last == buffer[j].value.v
  {
    var vs := ValuesOf(buffer, EntryValue);
    FirstNumber(vs, i);
    LastNumber(vs, j);
    SummaryEnds(buffer);
  }

  /** With a numeric entry, the summary's `first` and `last` are the ends of the numeric values. */
  lemma SummaryEnds(buffer: seq<Entry>)
    requires |Numbers(ValuesOf(buffer, EntryValue))| > 0
    ensures var ns := Numbers(ValuesOf(buffer, EntryValue));
            SummaryStatistics(buffer).Some? &&
            SummaryStatistics(buffer).value.first == ns[0] &&
            SummaryStatistics(buffer).value.last == ns[|ns| - 1]
  {
  }

  /** The dictionary `save_json_summary` writes. */
  datatype JsonSummary = JsonSummary(
    pvName: string,
    startTime: Option<string>,
    endTime: Option<string>,
    totalSamples: nat,
    data: seq<Entry>)

  /** `save_json_summary`: the whole buffer, its size, and the first and last ISO times when there are any. */
  function SaveJsonSummary(l: Logger): (r: JsonSummary)
    ensures r.pvName == l.pvName && r.data == l.buffer && r.totalSamples == |l.buffer|
    ensures r.startTime.None? <==> |l.buffer| == 0
    ensures r.endTime.None? <==> |l.buffer| == 0
    ensures |l.buffer| > 0 ==> r.startTime == Some(l.buffer[0].isoTime) && r.endTime == Some(l.buffer[|l.buffer| - 1].isoTime)
  {
    if |l.buffer| == 0 then JsonSummary(l.pvName, None, None, 0, l.buffer)
    else JsonSummary(l.pvName, Some(l.buffer[0].isoTime), Some(l.buffer[|l.buffer| - 1].isoTime), |l.buffer|, l.buffer)
  }

  /** `stop_logging`: logging off, and the summary of what was logged. */
  function StopLogging(l: Logger): (r: (Logger, JsonSummary))
    ensures !r.0.isLogging && r.0.buffer == l.buffer && r.0.pvName == l.pvName
    ensures r.1.data == l.buffer && r.1.totalSamples == |l.buffer|
  {
    (l.(isLogging := false), SaveJsonSummary(l))
  }

  /** After `stop_logging` no callback changes the logger any more. */
  lemma StoppedLoggerIgnoresChanges(
    l: Logger, pvName: string, value: Value, stamp: Option<Stamp>,
    status: Option<int>, severity: Option<int>)
    ensures var stopped := StopLogging(l).0;
            OnValueChange(stopped, pvName, value, stamp, status, severity) == stopped
  {
  }

  /**
    Every sample delivered while logging is on ends up at the end of the
    buffer, in order, and the next summary ends at its ISO time while keeping
    its start.
   */
  lemma LoggedSamplesAppend(l: Logger, pvName: string, value: Value, stamp: Stamp)
    requires l.isLogging
    ensures var r := OnValueChange(l, pvName, value, Some(stamp), None, None);
            ValuesOf(r.buffer, EntryValue) == ValuesOf(l.buffer, EntryValue) + [value] &&
            SaveJsonSummary(r).endTime == Some(stamp.isoTime) &&
            SaveJsonSummary(r).startTime ==
              (if |l.buffer| == 0 then Some(stamp.isoTime) else SaveJsonSummary(l).startTime) &&
            SaveJsonSummary(r).totalSamples == SaveJsonSummary(l).totalSamples + 1
  {
    var r := OnValueChange(l, pvName, value, Some(stamp), None, None);
    assert ValuesOf(r.buffer, EntryValue) == ValuesOf(l.buffer, EntryValue) + [value];
  }

  /**
    `pv_name.replace(":", "_")`, one character at a time from the left. The
    result has the same length, contains no colon, and differs from the name
    exactly at the colons, each of which became an underscore.
   */
  function SafePvName(name: string): (r: string)
    ensures |r| == |name|
    ensures ':' !in r
    ensures forall i :: 0 <= i < |name| ==> (r[i] != name[i] <==> name[i] == ':')
    ensures forall i :: 0 <= i < |name| && name[i] == ':' ==> r[i] == '_'
    decreases |name|
  {
    if |name| == 0 then ""
    else [if name[0] == ':' then '_' else name[0]] + SafePvName(name[1..])
  }

  /** Sanitising is idempotent, and a name without colons is already safe. */
  lemma SafePvNameIdempotent(name: string)
    ensures SafePvName(SafePvName(name)) == SafePvName(name)
  {
    SafePvNameFixesSafeNames(SafePvName(name));
  }

  lemma SafePvNameFixesSafeNames(name: string)
    requires ':' !in name
    ensures SafePvName(name) == name
  {
  }

  /** Sanitising works piecewise: the parts of a name are sanitised independently. */
  lemma SafePvNameAppend(a: string, b: string)
    ensures SafePvName(a + b) == SafePvName(a) + SafePvName(b)
  {
    var whole, left, right := SafePvName(a + b), SafePvName(a), SafePvName(b);
    forall i | 0 <= i < |left|
      ensures whole[i] == left[i]
    {
      SafePvNameAtLeft(a, b, i);
    }
    forall i | 0 <= i < |right|
      ensures whole[|left| + i] == right[i]
    {
      SafePvNameAtRight(a, b, |a| + i);
    }
    ConcatByParts(whole, left, right);
  }

  /** A sequence that agrees with `left` and then with `right`, position by position, is their concatenation. */
  lemma ConcatByParts<T>(whole: seq<T>, left: seq<T>, right: seq<T>)
    requires |whole| == |left| + |right|
    requires forall i :: 0 <= i < |left| ==> whole[i] == left[i]
    requires forall i :: 0 <= i < |right| ==> whole[|left| + i] == right[i]
    ensures whole == left + right
  {
    forall i | |left| <= i < |whole|
      ensures whole[i] == (left + right)[i]
    {
      assert whole[|left| + (i - |left|)] == right[i - |left|];
    }
  }

  /** Each character is sanitised on its own: a colon becomes an underscore, anything else stays. */
  lemma SafePvNameAt(name: string, i: int)
    requires 0 <= i < |name|
    ensures SafePvName(name)[i] == if name[i] == ':' then '_' else name[i]
  {
  }

  lemma SafePvNameAtLeft(a: string, b: string, i: int)
    requires 0 <= i < |a|
    ensures SafePvName(a + b)[i] == SafePvName(a)[i]
  {
    assert (a + b)[i] == a[i];
    SafePvNameAt(a + b, i);
    SafePvNameAt(a, i);
  }

  lemma SafePvNameAtRight(a: string, b: string, i: int)
    requires |a| <= i < |a| + |b|
    ensures SafePvName(a + b)[i] == SafePvName(b)[i - |a|]
  {
    assert (a + b)[i] == b[i - |a|];
    SafePvNameAt(a + b, i);
    SafePvNameAt(b, i - |a|);
  }
}
