/** One access-log line as a structured entry: the `LogEntry` record, its window
    predicate `Between`, the line parser `create_entry` and the window builder
    `create_time_range` of log2analyzeClass.go. */
module LogEntries {
  import opened GoStrings

  /** An instant, in seconds. `ZeroTime` stands for Go's zero `time.Time`, the value
      `time.Parse` returns on failure and the one `IsZero` tests for. */
  type Time = int

  const ZeroTime: Time := 0

  /** Seconds in the `time.Minute` the window length is counted in. */
  const Minute: int := 60

  /** Layout with which the window's end instant is parsed. */
  const EndTimeLayout: string := "2006-01-02 15:04:05 -0700"

  datatype Option<T> = None | Some(value: T)

  /** The parts of the Go runtime the core calls but whose workings are outside
      this model: `time.Parse(layout, value)` (None on error), `t.Format("2006-01-02")`,
      the local zone offset `time.Now().Local().Format("Z0700")`, and the
      package-level `DateLayout` the parser reads. */
  datatype Env = Env(
    dateLayout: string,
    parse: (string, string) -> Option<Time>,
    formatDate: Time -> string,
    localZone: string)

  /** One log line, fields as the parser extracts them. `RTime` is never filled in. */
  datatype LogEntry = LogEntry(
    IP: string,
    TimeStamp: Time,
    Method: string,
    Request: string,
    Code: string,
    RTime: string)
  {
    /** `TimeStamp.After(start) && TimeStamp.Before(end)`: both bounds excluded. */
    predicate Between(start: Time, end: Time)
      ensures Between(start, end) ==> start + 2 <= end && TimeStamp != start && TimeStamp != end
    {
      start < TimeStamp && TimeStamp < end
    }
  }

  /** The bounds of a time window. */
  datatype Window = Window(start: Time, end: Time)

  /** `t, _ := time.Parse(layout, value)`: the error is dropped, so a failed parse
      gives the zero time. */
  function ParseOrZero(env: Env, layout: string, value: string): (t: Time)
    ensures env.parse(layout, value).None? ==> t == ZeroTime
    ensures env.parse(layout, value).Some? ==> t == env.parse(layout, value).value
  {
    match env.parse(layout, value)
    case Some(t) => t
    case None => ZeroTime
  }

  /** The positional fields of a line: all `"` removed, then split on single spaces. */
  function Fields(line: string): (parts: seq<string>)
    ensures |parts| >= 1
    ensures forall i :: 0 <= i < |parts| ==> '"' !in parts[i] && ' ' !in parts[i]
  {
    var unquoted := RemoveAll(line, '"');
    SplitAvoids(unquoted, ' ', '"');
    Split(unquoted, ' ')
  }

  /** Field 3 without its first `[`, a space, field 4 without its first `]`. */
  function TimeString(parts: seq<string>): (s: string)
    requires |parts| >= 5
    ensures '[' !in parts[3] && ']' !in parts[4] ==> s == parts[3] + " " + parts[4]
  {
    RemoveFirst(parts[3], '[') + " " + RemoveFirst(parts[4], ']')
  }

  /** The bracketed time stamp of the common log format, `[date zone]` split over
      fields 3 and 4, becomes `date zone` without its brackets. */
  lemma TimeStringOfBracketed(parts: seq<string>, date: string, zone: string)
    requires |parts| >= 5 && ']' !in zone
    requires parts[3] == "[" + date && parts[4] == zone + "]"
    ensures TimeString(parts) == date + " " + zone
  {
    assert IndexOf(parts[3], '[') == 0;
    assert IndexOf(parts[4], ']') == |zone| by {
      assert parts[4][..|zone|] == zone;
    }
  }

  /** `create_entry`. The Go code indexes `parts[3]` up to `parts[8]` without a
      check, so a line with fewer than nine fields panics with an index out of
      range; that outcome is `None` here. */
  function CreateEntry(line: string, env: Env): (r: Option<LogEntry>)
    ensures r.Some? <==> |Fields(line)| >= 9
    ensures r.Some? ==> '"' !in r.value.IP && '"' !in r.value.Method
                        && '"' !in r.value.Request && '"' !in r.value.Code
    ensures r.Some? ==> ' ' !in r.value.IP && ' ' !in r.value.Method
                        && ' ' !in r.value.Request && ' ' !in r.value.Code
    ensures r.Some? ==> r.value.RTime == ""
  {
    var parts := Fields(line);
    if |parts| < 9 then None
    else
      Some(LogEntry(
        IP := parts[0],
        TimeStamp := ParseOrZero(env, env.dateLayout, TimeString(parts)),
        Method := parts[5],
        Request := parts[6],
        Code := parts[8],
        RTime := ""))
  }

  /** The text parsed as the window's end: the anchor's date, the `HH:MM` end time
      with `:00` seconds, and the local zone offset. */
  function EndTimeString(endtime: string, first: Time, env: Env): (s: string)
    ensures var date := env.formatDate(first);
            |s| == |date| + |endtime| + |env.localZone| + 5
            && s[..|date| + 1] == date + " "
            && s[|date| + 1..|s| - |env.localZone| - 4] == endtime
            && s[|s| - |env.localZone| - 4..] == ":00 " + env.localZone
  {
    env.formatDate(first) + " " + endtime + ":00 " + env.localZone
  }

  /** `create_time_range`: the end is the anchor's date at the given time of day
      (zero time if that does not parse), the start lies `timerange` minutes earlier. */
  function CreateTimeRange(endtime: string, timerange: int, first: Time, env: Env): (w: Window)
    ensures w.end == ParseOrZero(env, EndTimeLayout, EndTimeString(endtime, first, env))
    ensures w.end - w.start == timerange * Minute
    ensures timerange >= 0 ==> w.start <= w.end
    ensures w.start == w.end <==> timerange == 0
  {
    var end := ParseOrZero(env, EndTimeLayout, EndTimeString(endtime, first, env));
    Window(end - timerange * Minute, end)
  }

  /** An entry stamped exactly at either bound is outside the window, and a window
      whose bounds are not more than a second apart holds nothing. */
  lemma BetweenExcludesBounds(e: LogEntry, start: Time, end: Time)
    ensures e.TimeStamp == start ==> !e.Between(start, end)
    ensures e.TimeStamp == end ==> !e.Between(start, end)
    ensures end <= start + 1 ==> !e.Between(start, end)
  {
  }

  /** A window built from a non-positive number of minutes holds no entry at all. */
  lemma EmptyRangeHoldsNothing(endtime: string, timerange: int, first: Time, env: Env, e: LogEntry)
    requires timerange <= 0
    ensures var w := CreateTimeRange(endtime, timerange, first, env);
            !e.Between(w.start, w.end)
  {
  }

  /** Parsing recovers the fields of a line that is the space-separated join of
      fields without spaces: IP, method, request and code are fields 0, 5, 6 and 8
      with their quotes removed, and the time stamp is the parse of fields 3 and 4,
      unquoted, without their first `[` and first `]`. */
  lemma ParseJoinedFields(raw: seq<string>, unquoted: seq<string>, env: Env)
    requires |raw| >= 9 && |unquoted| == |raw|
    requires forall i :: 0 <= i < |raw| ==> ' ' !in raw[i]
    requires forall i :: 0 <= i < |raw| ==> unquoted[i] == RemoveAll(raw[i], '"')
    ensures CreateEntry(Join(raw, ' '), env) == Some(LogEntry(
              unquoted[0],
              ParseOrZero(env, env.dateLayout,
                          RemoveFirst(unquoted[3], '[') + " " + RemoveFirst(unquoted[4], ']')),
              unquoted[5], unquoted[6], unquoted[8], ""))
  {
    RemoveAllJoin(raw, unquoted, ' ', '"');
    forall i | 0 <= i < |unquoted|
      ensures ' ' !in unquoted[i]
    {
      assert multiset(unquoted[i])[' '] == multiset(raw[i])[' '] == 0;
    }
    SplitJoin(unquoted, ' ');
  }
}
