# log2analyze: a verified model of the access-log analysis core

This project models `log2analyzeClass.go`. That file reads a web server's access log,
keeps the entries that fall inside a time window, and reports the client addresses
(IPs) that sent the most requests. The model covers:

- `create_entry`, the line parser: it removes every `"`, splits the line on single
  spaces, takes fields 0, 5, 6 and 8, and builds the time stamp from fields 3 and 4.
- `LogEntry.Between`, the strict window test.
- `create_time_range`, which builds the window that ends at a given time of day on
  the date of the first entry and starts `timerange` minutes earlier.
- `Log2Analyze.RetrieveEntries`, the scan that sets the window lazily and appends
  the entries it keeps to the session.
- `count_requests`, the per-address request counter.
- `Log2Analyze.GetTopIPs`, which keeps at most five addresses with the highest
  counts.

Files:

- `go_strings.dfy` (module `GoStrings`): the parts of Go's `strings` package the
  parser uses, `Split` and `Replace` with a one-character pattern, plus `Join` as
  the inverse of `Split`.
- `log_entries.dfy` (module `LogEntries`): `LogEntry`, `Between`, `CreateEntry` and
  `CreateTimeRange`.
- `ranking.dfy` (module `Ranking`): counting, and the order by descending count.
- `analyzer.dfy` (module `Analyzer`): the `Log2Analyze` class with
  `RetrieveEntries` and `GetTopIPs`, and the scan specification `Collect` with its
  lemmas.

Modelling choices:

- Time is an integer number of seconds. `ZeroTime` (0) plays the role of Go's zero
  `time.Time`.
- `time.Parse`, `Time.Format("2006-01-02")` and the local zone offset from
  `time.Now()` are outside the model. They are fields of the `Env` parameter. So is
  the package-level date layout that `create_entry` reads.
- A failed parse gives the zero time, because the code drops the error.
- The log file is given as its sequence of lines.

Behaviour kept exactly as the Go code has it:

- A line with fewer than nine fields makes `create_entry` index past the end of the
  split and panic; such a line is not skipped. `CreateEntry` returns `None`, and
  `RetrieveEntries` stops there and returns `false`.
- The window is recomputed on every line while `StartTime` is the zero time, even
  when `timerange == 0`.
- Only the first `[` and the first `]` are removed, wherever they appear in fields
  3 and 4.
- `Between` excludes both bounds.

## Model

| member | source | states |
|---|---|---|
| GoStrings.RemoveAll | log2analyzeClass.go:109 | `strings.Replace(line, "\"", "", -1)`: no `"` is left, every other character is kept with its multiplicity, and the length drops by the number of `"` |
| GoStrings.RemoveFirst | log2analyzeClass.go:110 | `strings.Replace(s, c, "", 1)`: unchanged when `c` is absent; otherwise one character shorter, and putting `c` back at its first position restores the input |
| GoStrings.IndexOf | log2analyzeClass.go:110 | position of the first occurrence of a character: no earlier occurrence, and `|s|` exactly when the character is absent |
| GoStrings.Split | log2analyzeClass.go:109 | `strings.Split(s, " ")`: one more piece than there are separators, and no piece holds a separator |
| GoStrings.SplitJoin | log2analyzeClass.go:109 | splitting a join of separator-free fields gives the fields back |
| GoStrings.JoinSplit | log2analyzeClass.go:109 | joining the pieces of a split gives the input back, so no character is lost |
| GoStrings.SplitAvoids | log2analyzeClass.go:109 | a character absent from the input is absent from every piece |
| GoStrings.SplitNoSeparator | log2analyzeClass.go:109 | a string without the separator splits into itself |
| GoStrings.SplitFirstField | log2analyzeClass.go:109 | a separator-free leading field becomes the first piece |
| GoStrings.RemoveAllAbsent | log2analyzeClass.go:109 | removing an absent character changes nothing |
| GoStrings.RemoveAllAppend | log2analyzeClass.go:109 | removing a character distributes over concatenation |
| GoStrings.RemoveAllJoin | log2analyzeClass.go:109 | removing a non-separator character from a join removes it from each field |
| LogEntries.ParseOrZero | log2analyzeClass.go:111 | a failed `time.Parse` gives the zero time; a successful one gives the parsed instant |
| LogEntries.Fields | log2analyzeClass.go:109 | the fields of a line: at least one, and none holds `"` or a space |
| LogEntries.TimeString | log2analyzeClass.go:110 | when field 3 holds no `[` and field 4 no `]`, the two fields joined by one space; the bracketed case is `TimeStringOfBracketed` |
| LogEntries.EndTimeString | log2analyzeClass.go:124 | the text `Sprintf` builds, piece by piece at fixed positions: the anchor's formatted date and a space, the end time, then `:00 ` and the local zone offset |
| LogEntries.TimeStringOfBracketed | log2analyzeClass.go:110 | the bracketed stamp `[date zone]`, split over fields 3 and 4, becomes `date zone` |
| LogEntries.CreateEntry | log2analyzeClass.go:107-119 | an entry exists exactly when the line has at least nine fields; IP, Method, Request and Code hold no `"` and no space; RTime is empty |
| LogEntries.ParseJoinedFields | log2analyzeClass.go:109-118 | on the space-join of space-free raw fields, which may hold `"`: IP, Method, Request and Code are fields 0, 5, 6 and 8 with their quotes removed, and the stamp is the parse of unquoted field 3 without its first `[`, a space, and unquoted field 4 without its first `]` |
| LogEntries.CreateTimeRange | log2analyzeClass.go:121-128 | the end is the parse of the anchor's date, the end time with `:00` seconds and the local zone; end minus start is `timerange` minutes; start ≤ end for `timerange ≥ 0`; the two are equal exactly when `timerange == 0` |
| LogEntries.LogEntry.Between | log2analyzeClass.go:30-36 | an entry inside the window is stamped at neither bound, and the bounds are at least two seconds apart |
| LogEntries.BetweenExcludesBounds | log2analyzeClass.go:30-36 | an entry stamped exactly at either bound is outside, and a window at most one second wide holds nothing |
| LogEntries.EmptyRangeHoldsNothing | log2analyzeClass.go:30-36 | a window built from a non-positive number of minutes holds no entry |
| Ranking.IPsOfMembers | log2analyzeClass.go:130-137 | an address is among the distinct addresses exactly when some entry comes from it |
| Ranking.OccursIffCounted | log2analyzeClass.go:130-137 | an address occurs exactly when its count is positive |
| Ranking.CountRequests | log2analyzeClass.go:130-137 | the keys of the result are exactly the addresses present, and each value is that address's number of entries |
| Ranking.CountOneMore | log2analyzeClass.go:133-135 | counting one more entry on top of correct counts gives correct counts for the longer prefix |
| Ranking.OneMoreRecord | log2analyzeClass.go:133-135 | one more entry adds its address to the set of addresses and one to that address's count |
| Ranking.TotalRemove | log2analyzeClass.go:130-137 | the sum of a map's values does not depend on which key is taken out first |
| Ranking.CountsSumToLength | log2analyzeClass.go:130-137 | the counts add up to the number of entries |
| Ranking.InsertByCount | log2analyzeClass.go:57-59 | insertion adds exactly the one address to the list's multiset |
| Ranking.InsertByCountOrdered | log2analyzeClass.go:57-59 | insertion keeps the list ordered by descending count, and free of repeats if the address is new |
| Ranking.SortByCount | log2analyzeClass.go:57-59 | the sorted list is a permutation of its input |
| Ranking.SortByCountOrdered | log2analyzeClass.go:57-59 | the sorted list is ordered by descending count, and has no repeats when the input had none |
| Ranking.HeadIsLargest | log2analyzeClass.go:57-59 | in a list ordered by descending count the head has the largest count |
| Ranking.Prepend | log2analyzeClass.go:57-59 | putting in front an address counted at least as high as the rest keeps the order |
| Ranking.DistinctPrefix | log2analyzeClass.go:52-55 | the front of a list without repeats has none and lacks the last element |
| Analyzer.ParseLines | log2analyzeClass.go:84-89 | `create_entry` applied to each line, in order, one result per line |
| Analyzer.Step | log2analyzeClass.go:89-96 | one loop iteration: a crash exactly on an unindexable line, which changes neither window nor entries; a window whose start is not zero is kept; at most one entry is appended and the earlier ones are kept |
| Analyzer.Collect | log2analyzeClass.go:84-97 | the scan loop over the parsed lines, stopping at the first panic; each line adds at most one entry |
| Analyzer.Entries | log2analyzeClass.go:89 | the entries of well-formed lines, one per line |
| Analyzer.EntriesAt | log2analyzeClass.go:89 | entry `i` is the value of parsed line `i`, so the entries keep the line order |
| Analyzer.WithinMembers | log2analyzeClass.go:93-95 | an entry is kept by the window filter exactly when it is one of the entries and lies strictly inside the window |
| Analyzer.CollectConcat | log2analyzeClass.go:84-97 | scanning two pieces one after the other is scanning their concatenation |
| Analyzer.CollectAfterCrash | log2analyzeClass.go:89 | after a panic no further line changes the state |
| Analyzer.CollectCrashesIffMalformed | log2analyzeClass.go:89 | the scan stops early exactly when some line has fewer than nine fields |
| Analyzer.CollectAppendsOnly | log2analyzeClass.go:93-95 | entries already present stay in front, unchanged |
| Analyzer.WindowFrozen | log2analyzeClass.go:90-92 | a window whose start is not the zero time never changes |
| Analyzer.CollectWholeFile | log2analyzeClass.go:93-95 | with `timerange == 0` each line appends its entry, in input order, after the entries already present |
| Analyzer.CollectFixedWindow | log2analyzeClass.go:90-95 | with the window already set, the appended entries are exactly those strictly inside it, in input order |
| Analyzer.CollectSeeded | log2analyzeClass.go:90-95 | with no window yet, the first entry's time stamp fixes it; if its start is not zero it stays, and the appended entries are exactly those strictly inside it |
| Analyzer.SeededSplit | log2analyzeClass.go:90-95 | with no window yet, the scan is the first line, which sets the window from its stamp, followed by the scan of the rest |
| Analyzer.CollectFirstLine | log2analyzeClass.go:90-95 | with no window yet, the first line sets the window from its stamp and is kept exactly when it lies strictly inside it |
| Analyzer.EntriesBack | log2analyzeClass.go:89 | the entries of the lines are those of all lines but the last, then the last one's |
| Analyzer.EntriesFront | log2analyzeClass.go:89 | the entries of the lines are the first line's, then those of the rest |
| Analyzer.WithinConcat | log2analyzeClass.go:93-95 | filtering a concatenation filters each part |
| Analyzer.CollectStep | log2analyzeClass.go:84-97 | the scan of one more line is one more step, unless it has already stopped |
| Analyzer.CollectStopped | log2analyzeClass.go:89 | a scan that panicked on a line ends in the state it reached there |
| Analyzer.Log2Analyze.constructor | log2analyzeClass.go:22-28 | a new session has the zero time for both bounds and no entries |
| Analyzer.Log2Analyze.RetrieveEntries | log2analyzeClass.go:72-105 | the new window and entries are those of `Collect` run on the parsed lines from the old state; it returns `false` exactly when a line stopped the scan; the file name and layout are unchanged |
| Analyzer.Log2Analyze.Admit | log2analyzeClass.go:90-95 | the loop body for a parsed line takes the session to the state `Step` gives |
| Analyzer.Log2Analyze.GetTopIPs | log2analyzeClass.go:38-70 | empty for no entries; `min(5, distinct addresses)` keys; each value is the address's true count; every address left out has a count no higher than every returned count |
| Analyzer.ListKeys | log2analyzeClass.go:52-55 | each key of the map exactly once, in some order |
| Analyzer.FirstCounts | log2analyzeClass.go:60-67 | the first `n` addresses of a list ordered by count, with their counts; every address left out has a count no higher than every one taken |
| Analyzer.PrefixMembers | log2analyzeClass.go:65-67 | an address is among the first `i` exactly when it is in the first `i` elements |
| Analyzer.PrefixStep | log2analyzeClass.go:65-67 | in a list without repeats, the next address is new, and the taken set grows by it |
| Analyzer.PrefixIsLargest | log2analyzeClass.go:60-67 | in a list ordered by count, the first `n` addresses are counted at least as high as every other |

## Left out

- File I/O (`os.Open`, `log.Fatal`, `bufio.Scanner`, `scanner.Err`): the file is its sequence of lines, and a read error cannot happen.
- Logging (`LogIt.Info`, `LogIt.Debug`, `fmt.Println`) and the line counters `c` and `cl`, which only feed the log.
- `time.Parse`, `Time.Format("2006-01-02")` and `time.Now().Local().Format("Z0700")`: they are functions in `Env`, so layouts, calendars and zones are not interpreted. The zone offset is fixed for a whole run, whereas the code reads the clock each time it builds the window.
- The package-level `log_2_analyze.DateLayout` read by `create_entry` is defined in a file that is not part of this model. It is `Env.dateLayout`, separate from the session's own `DateLayout` field, as in the code.
- Nanosecond resolution of `time.Time`: time is whole seconds.
- Bytes versus characters: a Go `string` is a sequence of bytes, and `bufio.Scanner` may hand over a line that is not valid UTF-8, while the model's `string` is a sequence of Unicode characters. On every valid line the two agree, because `"`, the space, `[` and `]` are single ASCII bytes and no length is observed.
- LogEntries.CreateTimeRange: does not model the 64-bit overflow of `time.Duration(-timerange) * time.Minute`, which happens for `|timerange|` above about 153,722,867 minutes.
- Analyzer.Log2Analyze.RetrieveEntries: a panic is a stop that returns `false` with the state reached so far. Unwinding the Go program is not modelled.
- Analyzer.CollectSeeded: covers only a window whose computed start is not the zero time. Otherwise the window is recomputed on the next line, which `Collect` and `Step` still describe.
- Ranking.SortByCount: `sort.SliceStable` sorts the `ips` slice in place. The model sorts a sequence value with an insertion sort. Stability is not stated, because the input order comes from map iteration and is arbitrary.
- Analyzer.ListKeys: Go's map iteration order is an arbitrary choice (`:|`), so which of several addresses tied at the cut `GetTopIPs` reports is left open.
- Analyzer.Log2Analyze.GetTopIPs: it reuses `CountRequests` for the counting loop at lines 40-43, which is the same loop as `count_requests`.
- The commented-out code after `count_requests` is dead and is not modelled.
