/** The analysis session `Log2Analyze` of log2analyzeClass.go: collecting the
    entries of a log that fall in a time window (`RetrieveEntries`) and ranking
    their client addresses (`GetTopIPs`). The log file is given as its sequence
    of lines. */
module Analyzer {
  import opened GoStrings
  import opened LogEntries
  import opened Ranking

  /** How many addresses `GetTopIPs` reports at most. */
  const TopCount: nat := 5

  function Min(a: int, b: int): int
  {
    if a <= b then a else b
  }

  /** The session state the scan changes, as a value: the window bounds, the
      entries kept so far, and whether the scan stopped on a line `create_entry`
      could not index (a panic in the Go code). */
  datatype ScanState = ScanState(window: Window, kept: seq<LogEntry>, crashed: bool)

  /** `create_entry` applied to every line, in order. */
  function ParseLines(lines: seq<string>, env: Env): (parsed: seq<Option<LogEntry>>)
    ensures |parsed| == |lines|
    ensures forall i :: 0 <= i < |lines| ==> parsed[i] == CreateEntry(lines[i], env)
  {
    if lines == [] then []
    else ParseLines(lines[..|lines| - 1], env) + [CreateEntry(lines[|lines| - 1], env)]
  }

  /** One iteration of the scan loop on a parsed line: establish the window while
      its start is still the zero time, keep the entry when no window was asked
      for (`timerange == 0`) or when it lies strictly inside the window. */
  function Step(st: ScanState, parsed: Option<LogEntry>, endtime: string, timerange: int, env: Env): (r: ScanState)
    requires !st.crashed
    ensures r.crashed <==> parsed.None?
    ensures r.crashed ==> r.window == st.window && r.kept == st.kept
    ensures st.window.start != ZeroTime ==> r.window == st.window
    ensures |st.kept| <= |r.kept| <= |st.kept| + 1 && r.kept[..|st.kept|] == st.kept
  {
    match parsed
    case None => st.(crashed := true)
    case Some(e) =>
      var w := if st.window.start == ZeroTime then CreateTimeRange(endtime, timerange, e.TimeStamp, env)
               else st.window;
      var kept := if timerange == 0 || e.Between(w.start, w.end) then st.kept + [e] else st.kept;
      assert kept[..|st.kept|] == st.kept;
      ScanState(w, kept, false)
  }

  /** The scan over the parsed lines, in order, from state `init`; it stops at
      the first line that crashes. Each line adds at most one entry. */
  function Collect(init: ScanState, parsed: seq<Option<LogEntry>>, endtime: string, timerange: int, env: Env): (r: ScanState)
    ensures |r.kept| <= |init.kept| + |parsed|
    decreases |parsed|
  {
    if parsed == [] then init
    else
      var prev := Collect(init, parsed[..|parsed| - 1], endtime, timerange, env);
      if prev.crashed then prev else Step(prev, parsed[|parsed| - 1], endtime, timerange, env)
  }

  /** Every line could be indexed by `create_entry`. */
  predicate WellFormed(parsed: seq<Option<LogEntry>>)
  {
    forall i :: 0 <= i < |parsed| ==> parsed[i].Some?
  }

  /** The entries of well-formed lines, in order. */
  function Entries(parsed: seq<Option<LogEntry>>): (entries: seq<LogEntry>)
    requires WellFormed(parsed)
    ensures |entries| == |parsed|
  {
    if parsed == [] then []
    else Entries(parsed[..|parsed| - 1]) + [parsed[|parsed| - 1].value]
  }

  /** The entries strictly inside window `w`, in order. */
  function Within(entries: seq<LogEntry>, w: Window): seq<LogEntry>
  {
    if entries == [] then []
    else
      var last := entries[|entries| - 1];
      Within(entries[..|entries| - 1], w) + (if last.Between(w.start, w.end) then [last] else [])
  }

  /** An entry is kept by the filter exactly when it is one of the entries and
      lies strictly inside the window. */
  lemma {:induction false} WithinMembers(entries: seq<LogEntry>, w: Window, e: LogEntry)
    ensures e in Within(entries, w) <==> e in entries && e.Between(w.start, w.end)
  {
    if entries != [] {
      var last := entries[|entries| - 1];
      var prefix := entries[..|entries| - 1];
      WithinMembers(prefix, w, e);
      assert entries == prefix + [last];
    }
  }

  /** Scanning two pieces one after the other is scanning their concatenation. */
  lemma {:induction false} CollectConcat(init: ScanState, a: seq<Option<LogEntry>>, b: seq<Option<LogEntry>>,
                                         endtime: string, timerange: int, env: Env)
    ensures Collect(init, a + b, endtime, timerange, env)
         == Collect(Collect(init, a, endtime, timerange, env), b, endtime, timerange, env)
    decreases |b|
  {
    if b == [] {
      assert a + b == a;
    } else {
      assert (a + b)[..|a + b| - 1] == a + b[..|b| - 1];
      CollectConcat(init, a, b[..|b| - 1], endtime, timerange, env);
    }
  }

  /** Once the scan has crashed, further lines change nothing. */
  lemma {:induction false} CollectAfterCrash(init: ScanState, parsed: seq<Option<LogEntry>>,
                                             endtime: string, timerange: int, env: Env)
    requires init.crashed
    ensures Collect(init, parsed, endtime, timerange, env) == init
    decreases |parsed|
  {
    if parsed != [] {
      CollectAfterCrash(init, parsed[..|parsed| - 1], endtime, timerange, env);
    }
  }

  /** The scan crashes exactly when some line cannot be indexed. */
  lemma {:induction false} CollectCrashesIffMalformed(init: ScanState, parsed: seq<Option<LogEntry>>,
                                                      endtime: string, timerange: int, env: Env)
    requires !init.crashed
    ensures Collect(init, parsed, endtime, timerange, env).crashed <==> !WellFormed(parsed)
    decreases |parsed|
  {
    if parsed != [] {
      var prefix := parsed[..|parsed| - 1];
      CollectCrashesIffMalformed(init, prefix, endtime, timerange, env);
      assert forall i :: 0 <= i < |prefix| ==> prefix[i] == parsed[i];
      assert WellFormed(prefix) && parsed[|parsed| - 1].Some? ==> WellFormed(parsed);
    }
  }

  /** Entries already kept stay in front, unchanged; the scan only appends. */
  lemma {:induction false} CollectAppendsOnly(init: ScanState, parsed: seq<Option<LogEntry>>,
                                              endtime: string, timerange: int, env: Env)
    ensures var r := Collect(init, parsed, endtime, timerange, env);
            |init.kept| <= |r.kept| && r.kept[..|init.kept|] == init.kept
    decreases |parsed|
  {
    if parsed != [] {
      CollectAppendsOnly(init, parsed[..|parsed| - 1], endtime, timerange, env);
    }
  }

  /** A window whose start is not the zero time is never recomputed. */
  lemma {:induction false} WindowFrozen(init: ScanState, parsed: seq<Option<LogEntry>>,
                                        endtime: string, timerange: int, env: Env)
    requires init.window.start != ZeroTime
    ensures Collect(init, parsed, endtime, timerange, env).window == init.window
    decreases |parsed|
  {
    if parsed != [] {
      WindowFrozen(init, parsed[..|parsed| - 1], endtime, timerange, env);
    }
  }

  /** With `timerange == 0` every line becomes an entry, in input order. */
  lemma {:induction false} CollectWholeFile(init: ScanState, parsed: seq<Option<LogEntry>>,
                                            endtime: string, env: Env)
    requires !init.crashed && WellFormed(parsed)
    ensures var r := Collect(init, parsed, endtime, 0, env);
            !r.crashed && r.kept == init.kept + Entries(parsed)
    decreases |parsed|
  {
    if parsed != [] {
      var prefix := parsed[..|parsed| - 1];
      EntriesBack(parsed);
      CollectWholeFile(init, prefix, endtime, env);
    }
  }

  /** With a window already set, the scan keeps exactly the entries strictly
      inside it, in input order. */
  lemma {:induction false} CollectFixedWindow(init: ScanState, parsed: seq<Option<LogEntry>>,
                                              endtime: string, timerange: int, env: Env)
    requires !init.crashed && WellFormed(parsed)
    requires init.window.start != ZeroTime && timerange != 0
    ensures var r := Collect(init, parsed, endtime, timerange, env);
            !r.crashed && r.window == init.window
            && r.kept == init.kept + Within(Entries(parsed), init.window)
    decreases |parsed|
  {
    if parsed != [] {
      var prefix := parsed[..|parsed| - 1];
      EntriesBack(parsed);
      CollectFixedWindow(init, prefix, endtime, timerange, env);
      var n := |parsed| - 1;
      var last := parsed[n].value;
      var w := init.window;
      CollectStep(init, parsed, n, endtime, timerange, env);
      assert parsed[..n + 1] == parsed;
      var entries := Entries(parsed);
      assert entries[..n] == Entries(prefix) && entries[n] == last;
      assert Within(entries, w)
          == Within(Entries(prefix), w) + (if last.Between(w.start, w.end) then [last] else []);
    }
  }

  /** With no window yet, the first line's time stamp sets it; when that window's
      start is not the zero time it stays, and the scan keeps exactly the entries
      strictly inside it, the first one included if it qualifies. */
  lemma {:induction false} CollectSeeded(init: ScanState, parsed: seq<Option<LogEntry>>,
                                         endtime: string, timerange: int, env: Env)
    requires !init.crashed && WellFormed(parsed) && parsed != []
    requires init.window.start == ZeroTime && timerange != 0
    requires CreateTimeRange(endtime, timerange, parsed[0].value.TimeStamp, env).start != ZeroTime
    ensures var w := CreateTimeRange(endtime, timerange, parsed[0].value.TimeStamp, env);
            var r := Collect(init, parsed, endtime, timerange, env);
            !r.crashed && r.window == w && r.kept == init.kept + Within(Entries(parsed), w)
  {
    var e := parsed[0].value;
    var w := CreateTimeRange(endtime, timerange, e.TimeStamp, env);
    var rest := parsed[1..];
    var first := Collect(init, parsed[..1], endtime, timerange, env);
    SeededSplit(init, parsed, endtime, timerange, env);
    CollectFixedWindow(first, rest, endtime, timerange, env);
    WithinConcat([e], Entries(rest), w);
    var front := Within([e], w);
    var back := Within(Entries(rest), w);
    var r := Collect(init, parsed, endtime, timerange, env);
    assert r == Collect(first, rest, endtime, timerange, env);
    assert first.window == w && first.kept == init.kept + front;
    assert r.kept == init.kept + front + back;
    assert Within(Entries(parsed), w) == front + back;
    assert init.kept + front + back == init.kept + (front + back);
  }

  /** A scan with no window yet is its first line, which sets the window, then
      the scan of the rest from there. */
  lemma SeededSplit(init: ScanState, parsed: seq<Option<LogEntry>>,
                    endtime: string, timerange: int, env: Env)
    requires !init.crashed && WellFormed(parsed) && parsed != []
    requires init.window.start == ZeroTime && timerange != 0
    ensures var e := parsed[0].value;
            var w := CreateTimeRange(endtime, timerange, e.TimeStamp, env);
            var first := Collect(init, parsed[..1], endtime, timerange, env);
            && first == ScanState(w, init.kept + Within([e], w), false)
            && Collect(init, parsed, endtime, timerange, env) == Collect(first, parsed[1..], endtime, timerange, env)
            && WellFormed(parsed[1..]) && Entries(parsed) == [e] + Entries(parsed[1..])
  {
    CollectFirstLine(init, parsed, endtime, timerange, env);
    EntriesFront(parsed);
    assert parsed == parsed[..1] + parsed[1..];
    CollectConcat(init, parsed[..1], parsed[1..], endtime, timerange, env);
  }

  /** The first line of a scan with no window yet sets the window from its time
      stamp, and is kept exactly when it lies strictly inside that window. */
  lemma CollectFirstLine(init: ScanState, parsed: seq<Option<LogEntry>>,
                         endtime: string, timerange: int, env: Env)
    requires !init.crashed && parsed != [] && parsed[0].Some?
    requires init.window.start == ZeroTime && timerange != 0
    ensures var e := parsed[0].value;
            var w := CreateTimeRange(endtime, timerange, e.TimeStamp, env);
            Collect(init, parsed[..1], endtime, timerange, env)
            == ScanState(w, init.kept + Within([e], w), false)
  {
    var head := parsed[..1];
    assert head[..0] == [];
    assert head[0] == parsed[0];
  }

  /** The entries of a list of parsed lines are those of all but the last line,
      then the last line's. */
  lemma EntriesBack(parsed: seq<Option<LogEntry>>)
    requires WellFormed(parsed) && parsed != []
    ensures WellFormed(parsed[..|parsed| - 1])
    ensures Entries(parsed) == Entries(parsed[..|parsed| - 1]) + [parsed[|parsed| - 1].value]
  {
    var prefix := parsed[..|parsed| - 1];
    assert forall i :: 0 <= i < |prefix| ==> prefix[i] == parsed[i];
  }

  /** The entries of a list of parsed lines are its first entry and those of the rest. */
  lemma {:induction false} EntriesFront(parsed: seq<Option<LogEntry>>)
    requires WellFormed(parsed) && parsed != []
    ensures WellFormed(parsed[1..])
    ensures Entries(parsed) == [parsed[0].value] + Entries(parsed[1..])
    decreases |parsed|
  {
    var rest := parsed[1..];
    assert forall i :: 0 <= i < |rest| ==> rest[i] == parsed[i + 1];
    if |parsed| > 1 {
      var prefix := parsed[..|parsed| - 1];
      EntriesBack(parsed);
      EntriesFront(prefix);
      EntriesBack(rest);
      assert prefix[1..] == rest[..|rest| - 1];
    }
  }

  /** Entry `i` is the value of parsed line `i`. */
  lemma {:induction false} EntriesAt(parsed: seq<Option<LogEntry>>, i: nat)
    requires WellFormed(parsed) && i < |parsed|
    ensures parsed[i] == Some(Entries(parsed)[i])
    decreases |parsed|
  {
    if i < |parsed| - 1 {
      EntriesBack(parsed);
      EntriesAt(parsed[..|parsed| - 1], i);
    }
  }

  /** Filtering a concatenation filters each part. */
  lemma {:induction false} WithinConcat(a: seq<LogEntry>, b: seq<LogEntry>, w: Window)
    ensures Within(a + b, w) == Within(a, w) + Within(b, w)
    decreases |b|
  {
    if b == [] {
      assert a + b == a;
    } else {
      var prefix := b[..|b| - 1];
      assert (a + b)[..|a + b| - 1] == a + prefix;
      WithinConcat(a, prefix, w);
    }
  }

  /** The scan of no lines is the initial state. */
  lemma CollectEmpty(init: ScanState, parsed: seq<Option<LogEntry>>, endtime: string, timerange: int, env: Env)
    ensures Collect(init, parsed[..0], endtime, timerange, env) == init
  {
    assert parsed[..0] == [];
  }

  /** The scan of one more line is one more step, unless it already crashed. */
  lemma CollectStep(init: ScanState, parsed: seq<Option<LogEntry>>, i: nat, endtime: string, timerange: int, env: Env)
    requires i < |parsed|
    ensures var prev := Collect(init, parsed[..i], endtime, timerange, env);
            Collect(init, parsed[..i + 1], endtime, timerange, env)
            == if prev.crashed then prev else Step(prev, parsed[i], endtime, timerange, env)
  {
    assert parsed[..i + 1][..i] == parsed[..i];
  }

  /** A scan that crashed on line `i` ends in the state it reached there. */
  lemma CollectStopped(init: ScanState, parsed: seq<Option<LogEntry>>, i: nat, endtime: string, timerange: int, env: Env)
    requires i < |parsed|
    requires Collect(init, parsed[..i + 1], endtime, timerange, env).crashed
    ensures Collect(init, parsed, endtime, timerange, env) == Collect(init, parsed[..i + 1], endtime, timerange, env)
  {
    CollectConcat(init, parsed[..i + 1], parsed[i + 1..], endtime, timerange, env);
    assert parsed[..i + 1] + parsed[i + 1..] == parsed;
    CollectAfterCrash(Collect(init, parsed[..i + 1], endtime, timerange, env), parsed[i + 1..], endtime, timerange, env);
  }

  /** Line `i` parsed on its own is entry `i` of the parsed file. */
  lemma ParsedAt(lines: seq<string>, env: Env, i: nat)
    requires i < |lines|
    ensures i < |ParseLines(lines, env)| && ParseLines(lines, env)[i] == CreateEntry(lines[i], env)
  {
  }

  /** The analysis session. `StartTime` and `EndTime` hold the window, the zero
      time while it is not set; `Entries` the entries kept, in file order. */
  class Log2Analyze {
    var FileName: string
    var DateLayout: string
    var StartTime: Time
    var EndTime: Time
    var Entries: seq<LogEntry>

    /** A new session: Go's zero values for the window and the entries. */
    constructor (fileName: string, dateLayout: string)
      ensures FileName == fileName && DateLayout == dateLayout
      ensures StartTime == ZeroTime && EndTime == ZeroTime && Entries == []
    {
      FileName := fileName;
      DateLayout := dateLayout;
      StartTime := ZeroTime;
      EndTime := ZeroTime;
      Entries := [];
    }

    /** `RetrieveEntries` over the lines of the file: the session's entries are
        extended by the scan, whose window starts out as the session's own. Returns
        false when a line with fewer than nine fields stopped the scan; the state
        is then as it was when that line was reached. */
    method RetrieveEntries(lines: seq<string>, endtime: string, timerange: int, env: Env)
      returns (completed: bool)
      modifies this
      ensures var r := Collect(ScanState(Window(old(StartTime), old(EndTime)), old(Entries), false),
                               ParseLines(lines, env), endtime, timerange, env);
              StartTime == r.window.start && EndTime == r.window.end
              && Entries == r.kept && completed == !r.crashed
      ensures FileName == old(FileName) && DateLayout == old(DateLayout)
    {
      ghost var init := ScanState(Window(StartTime, EndTime), Entries, false);
      ghost var parsed := ParseLines(lines, env);
      var i := 0;
      CollectEmpty(init, parsed, endtime, timerange, env);
      while i < |lines|
        invariant 0 <= i <= |lines|
        invariant Collect(init, parsed[..i], endtime, timerange, env)
                  == ScanState(Window(StartTime, EndTime), Entries, false)
        invariant FileName == old(FileName) && DateLayout == old(DateLayout)
      {
        var entry := CreateEntry(lines[i], env);
        ParsedAt(lines, env, i);
        CollectStep(init, parsed, i, endtime, timerange, env);
        if entry.None? {
          CollectStopped(init, parsed, i, endtime, timerange, env);
          return false;
        }
        Admit(entry.value, endtime, timerange, env);
        i := i + 1;
      }
      assert parsed[..i] == parsed;
      return true;
    }

    /** The body of the scan loop for a line that parsed: set the window from the
        entry's time stamp while the start is the zero time, then keep the entry
        when no window was asked for or when it lies strictly inside the window. */
    method Admit(e: LogEntry, endtime: string, timerange: int, env: Env)
      modifies this
      ensures ScanState(Window(StartTime, EndTime), Entries, false)
           == Step(ScanState(Window(old(StartTime), old(EndTime)), old(Entries), false),
                   Some(e), endtime, timerange, env)
      ensures FileName == old(FileName) && DateLayout == old(DateLayout)
    {
      if StartTime == ZeroTime {
        var w := CreateTimeRange(endtime, timerange, e.TimeStamp, env);
        StartTime, EndTime := w.start, w.end;
      }
      if timerange == 0 || e.Between(StartTime, EndTime) {
        Entries := Entries + [e];
      }
    }

    /** `GetTopIPs`: the addresses with the most entries, at most five, each with
        its count. Which of several addresses tied at the cut is reported depends
        on the iteration order of a Go map, left open here. */
    method GetTopIPs() returns (top: map<string, int>)
      ensures Entries == [] ==> top == map[]
      ensures |top| == Min(TopCount, |IPsOf(Entries)|)
      ensures forall ip :: ip in top ==> ip in IPsOf(Entries) && top[ip] == Occurrences(Entries, ip)
      ensures forall ip, other :: ip in top && other in IPsOf(Entries) && other !in top
                ==> Occurrences(Entries, other) <= top[ip]
    {
      var ipCount := CountRequests(Entries);
      top := map[];
      var entries := |ipCount|;
      assert entries == |IPsOf(Entries)| by {
        assert ipCount.Keys == IPsOf(Entries);
      }
      if entries > 0 {
        var ips := ListKeys(ipCount);
        var sorted := SortByCount(ips, ipCount);
        SortByCountOrdered(ips, ipCount);
        assert |sorted| == |ips| by {
          assert |multiset(sorted)| == |multiset(ips)|;
        }
        assert forall ip :: ip in sorted ==> ip in ipCount by {
          forall ip | ip in sorted
            ensures ip in ipCount
          {
            assert ip in multiset(sorted);
          }
        }
        if entries > TopCount {
          entries := TopCount;
        }
        top := FirstCounts(sorted, ipCount, entries);
        forall ip, other | ip in top && other in IPsOf(Entries) && other !in top
          ensures Occurrences(Entries, other) <= top[ip]
        {
          assert other in multiset(ips);
          assert other in sorted;
        }
      }
    }
  }

  /** `for ip := range ip_count { ips = append(ips, ip) }`: every key once, in an
      order the map does not fix. */
  method ListKeys(ipCount: map<string, int>) returns (ips: seq<string>)
    ensures Distinct(ips)
    ensures forall ip :: ip in ips <==> ip in ipCount
    ensures |ips| == |ipCount|
  {
    ips := [];
    var rest := ipCount.Keys;
    while rest != {}
      invariant rest <= ipCount.Keys
      invariant Distinct(ips)
      invariant forall ip :: ip in ips ==> ip in ipCount && ip !in rest
      invariant forall ip :: ip in ipCount ==> ip in ips || ip in rest
      invariant |ips| + |rest| == |ipCount.Keys|
      decreases |rest|
    {
      var ip :| ip in rest;
      ips := ips + [ip];
      rest := rest - {ip};
    }
  }

  /** `for i := 0; i < entries; i++ { top_ips[ips[i]] = ip_count[ips[i]] }`: the
      first `n` addresses of a list ordered by descending count, with their
      counts; every address left out has a count no higher than those taken. */
  method FirstCounts(ips: seq<string>, ipCount: map<string, int>, n: nat) returns (top: map<string, int>)
    requires n <= |ips| && Distinct(ips) && NonIncreasing(ips, ipCount)
    requires forall ip :: ip in ips ==> ip in ipCount
    ensures |top| == n
    ensures forall ip :: ip in top <==> ip in ips[..n]
    ensures forall ip :: ip in top ==> top[ip] == ipCount[ip]
    ensures forall ip, other :: ip in top && other in ips && other !in top
              ==> Get(ipCount, other) <= top[ip]
  {
    top := map[];
    var i := 0;
    while i < n
      invariant 0 <= i <= n
      invariant top.Keys == Prefix(ips, i)
      invariant |top| == i
      invariant forall ip :: ip in top ==> top[ip] == ipCount[ip]
    {
      PrefixStep(ips, i);
      top := top[ips[i] := ipCount[ips[i]]];
      i := i + 1;
    }
    PrefixIsLargest(ips, ipCount, n);
    forall ip | ip in top
      ensures ip in ips[..n]
    {
      PrefixMembers(ips, n, ip);
    }
    forall ip | ip in ips[..n]
      ensures ip in top
    {
      PrefixMembers(ips, n, ip);
    }
  }

  /** The addresses among the first `i` of `ips`. */
  ghost function Prefix(ips: seq<string>, i: nat): set<string>
    requires i <= |ips|
  {
    set k | 0 <= k < i :: ips[k]
  }

  lemma PrefixMembers(ips: seq<string>, i: nat, ip: string)
    requires i <= |ips|
    ensures ip in Prefix(ips, i) <==> ip in ips[..i]
  {
    if ip in ips[..i] {
      var k :| 0 <= k < i && ips[..i][k] == ip;
      assert ips[k] == ip;
    }
  }

  /** One more address of a list without repeats is a new one. */
  lemma PrefixStep(ips: seq<string>, i: nat)
    requires i < |ips| && Distinct(ips)
    ensures ips[i] !in Prefix(ips, i)
    ensures Prefix(ips, i + 1) == Prefix(ips, i) + {ips[i]}
  {
  }

  /** In a list ordered by descending count without repeats, the first `n`
      addresses are counted at least as high as every other address of the list. */
  lemma PrefixIsLargest(ips: seq<string>, ipCount: map<string, int>, n: nat)
    requires n <= |ips| && Distinct(ips) && NonIncreasing(ips, ipCount)
    ensures forall ip, other :: ip in Prefix(ips, n) && other in ips && other !in Prefix(ips, n)
              ==> Get(ipCount, other) <= Get(ipCount, ip)
  {
    forall ip, other | ip in Prefix(ips, n) && other in ips && other !in Prefix(ips, n)
      ensures Get(ipCount, other) <= Get(ipCount, ip)
    {
      var k :| 0 <= k < n && ips[k] == ip;
      var j :| 0 <= j < |ips| && ips[j] == other;
      assert j >= n;
    }
  }
}
