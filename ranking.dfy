/** Counting requests per client address (`count_requests`) and ordering the
    addresses by count, the building blocks of `GetTopIPs` in log2analyzeClass.go. */
module Ranking {
  import opened LogEntries

  /** Number of entries from address `ip`. */
  function Occurrences(records: seq<LogEntry>, ip: string): nat
  {
    if records == [] then 0
    else Occurrences(records[..|records| - 1], ip) + (if records[|records| - 1].IP == ip then 1 else 0)
  }

  /** The distinct addresses that occur in `records`. */
  function IPsOf(records: seq<LogEntry>): set<string>
  {
    if records == [] then {}
    else IPsOf(records[..|records| - 1]) + {records[|records| - 1].IP}
  }

  /** An address is among `IPsOf(records)` exactly when some entry comes from it. */
  lemma {:induction false} IPsOfMembers(records: seq<LogEntry>, ip: string)
    ensures ip in IPsOf(records) <==> exists i :: 0 <= i < |records| && records[i].IP == ip
  {
    if records != [] {
      var prefix := records[..|records| - 1];
      IPsOfMembers(prefix, ip);
      assert forall i :: 0 <= i < |prefix| ==> prefix[i] == records[i];
    }
  }

  /** An address occurs in `records` exactly when its count is positive. */
  lemma {:induction false} OccursIffCounted(records: seq<LogEntry>, ip: string)
    ensures ip in IPsOf(records) <==> Occurrences(records, ip) > 0
  {
    if records != [] {
      var prefix := records[..|records| - 1];
      OccursIffCounted(prefix, ip);
      assert IPsOf(records) == IPsOf(prefix) + {records[|records| - 1].IP};
    }
  }

  /** `m[k]` of a Go map: the stored value, or 0 for a missing key. */
  function Get(m: map<string, int>, k: string): int
  {
    if k in m then m[k] else 0
  }

  /** `count_requests`: each address of `records` mapped to its number of entries,
      and no other key. */
  method CountRequests(records: seq<LogEntry>) returns (ipCount: map<string, int>)
    ensures Counts(records, ipCount)
  {
    ipCount := map[];
    for i := 0 to |records|
      invariant Counts(records[..i], ipCount)
    {
      CountOneMore(records, i, ipCount);
      var ip := records[i].IP;
      ipCount := ipCount[ip := Get(ipCount, ip) + 1];
    }
    assert records[..|records|] == records;
  }

  /** `ipCount` holds the number of entries of each address of `records`, and
      no other key. */
  predicate Counts(records: seq<LogEntry>, ipCount: map<string, int>)
  {
    && ipCount.Keys == IPsOf(records)
    && forall ip :: ip in ipCount ==> ipCount[ip] == Occurrences(records, ip)
  }

  /** Counting entry `i` on top of the counts of the entries before it gives the
      counts of the first `i + 1` entries. */
  lemma CountOneMore(records: seq<LogEntry>, i: nat, ipCount: map<string, int>)
    requires i < |records| && Counts(records[..i], ipCount)
    ensures Counts(records[..i + 1], ipCount[records[i].IP := Get(ipCount, records[i].IP) + 1])
  {
    var ip := records[i].IP;
    var m := ipCount[ip := Get(ipCount, ip) + 1];
    OneMoreRecord(records, i);
    forall k | k in m
      ensures m[k] == Occurrences(records[..i + 1], k)
    {
      if k == ip && k !in ipCount {
        OccursIffCounted(records[..i], k);
      }
    }
  }

  /** The addresses and counts of the first `i + 1` entries, from those of the
      first `i`. */
  lemma OneMoreRecord(records: seq<LogEntry>, i: nat)
    requires i < |records|
    ensures IPsOf(records[..i + 1]) == IPsOf(records[..i]) + {records[i].IP}
    ensures forall k :: Occurrences(records[..i + 1], k)
                        == Occurrences(records[..i], k) + (if records[i].IP == k then 1 else 0)
  {
    assert records[..i + 1][..i] == records[..i];
  }

  /** Sum of the values of a map. */
  ghost function Total(m: map<string, int>): int
    decreases |m|
  {
    if m == map[] then 0
    else
      var k :| k in m;
      m[k] + Total(m - {k})
  }

  /** The sum does not depend on which key is taken out first. */
  lemma {:induction false} TotalRemove(m: map<string, int>, k: string)
    requires k in m
    ensures Total(m) == m[k] + Total(m - {k})
    decreases |m|
  {
    var j :| j in m && Total(m) == m[j] + Total(m - {j});
    if j != k {
      TotalRemove(m - {j}, k);
      TotalRemove(m - {k}, j);
      assert m - {j} - {k} == m - {k} - {j};
    }
  }

  /** The counts of `count_requests` add up to the number of entries. */
  lemma {:induction false} CountsSumToLength(records: seq<LogEntry>, ipCount: map<string, int>)
    requires Counts(records, ipCount)
    ensures Total(ipCount) == |records|
  {
    if records == [] {
      assert ipCount == map[];
    } else {
      var n := |records| - 1;
      var prefix := records[..n];
      var ip := records[n].IP;
      OneMoreRecord(records, n);
      assert records[..n + 1] == records;
      assert ip in ipCount;
      var before := if Occurrences(prefix, ip) == 0 then ipCount - {ip}
                    else ipCount[ip := ipCount[ip] - 1];
      forall k | k in before
        ensures before[k] == Occurrences(prefix, k)
      {
      }
      OccursIffCounted(prefix, ip);
      assert before.Keys == IPsOf(prefix);
      CountsSumToLength(prefix, before);
      TotalRemove(ipCount, ip);
      if Occurrences(prefix, ip) != 0 {
        TotalRemove(before, ip);
        assert before - {ip} == ipCount - {ip};
      }
    }
  }

  /** Every address comes no later than those with a smaller count. */
  predicate NonIncreasing(s: seq<string>, count: map<string, int>)
  {
    forall i, j :: 0 <= i < j < |s| ==> Get(count, s[j]) <= Get(count, s[i])
  }

  /** No address appears twice. */
  predicate Distinct(s: seq<string>)
  {
    forall i, j :: 0 <= i < j < |s| ==> s[i] != s[j]
  }

  /** Putting in front an address counted at least as high as all the others keeps
      the order, and keeps the list free of repeats if the address is new. */
  lemma Prepend(h: string, rest: seq<string>, count: map<string, int>)
    requires NonIncreasing(rest, count)
    requires forall y :: y in rest ==> Get(count, y) <= Get(count, h)
    ensures NonIncreasing([h] + rest, count)
    ensures Distinct(rest) && h !in rest ==> Distinct([h] + rest)
  {
    var r := [h] + rest;
    forall i, j | 0 <= i < j < |r|
      ensures Get(count, r[j]) <= Get(count, r[i])
    {
      assert r[j] == rest[j - 1];
      if i > 0 {
        assert r[i] == rest[i - 1];
      }
    }
  }

  /** In a list ordered by descending count, the head has the largest count and
      the tail is still ordered. */
  lemma HeadIsLargest(s: seq<string>, count: map<string, int>)
    requires s != [] && NonIncreasing(s, count)
    ensures forall y :: y in s ==> Get(count, y) <= Get(count, s[0])
    ensures NonIncreasing(s[1..], count)
    ensures Distinct(s) ==> Distinct(s[1..]) && s[0] !in s[1..]
  {
    forall y | y in s
      ensures Get(count, y) <= Get(count, s[0])
    {
      var k :| 0 <= k < |s| && s[k] == y;
    }
  }

  /** Inserts `x` into a list ordered by descending count, after every address
      whose count is at least that of `x`. */
  function InsertByCount(x: string, s: seq<string>, count: map<string, int>): (r: seq<string>)
    ensures multiset(r) == multiset(s) + multiset{x}
  {
    if s == [] then [x]
    else
      assert s == [s[0]] + s[1..];
      if Get(count, x) <= Get(count, s[0]) then [s[0]] + InsertByCount(x, s[1..], count)
      else [x] + s
  }

  /** Insertion keeps a list ordered by descending count, and free of repeats
      when the inserted address is new. */
  lemma {:induction false} InsertByCountOrdered(x: string, s: seq<string>, count: map<string, int>)
    requires NonIncreasing(s, count)
    ensures NonIncreasing(InsertByCount(x, s, count), count)
    ensures Distinct(s) && x !in s ==> Distinct(InsertByCount(x, s, count))
  {
    if s != [] {
      HeadIsLargest(s, count);
      if Get(count, x) <= Get(count, s[0]) {
        var rest := InsertByCount(x, s[1..], count);
        InsertByCountOrdered(x, s[1..], count);
        forall y | y in rest
          ensures Get(count, y) <= Get(count, s[0])
        {
          assert y in multiset(rest);
        }
        assert Distinct(s) && x !in s ==> s[0] !in multiset(rest);
        Prepend(s[0], rest, count);
      } else {
        Prepend(x, s, count);
      }
    }
  }

  /** The front of a list without repeats has none, and lacks the last element. */
  lemma DistinctPrefix(prefix: seq<string>, last: string)
    requires Distinct(prefix + [last])
    ensures Distinct(prefix) && last !in prefix
  {
    var s := prefix + [last];
    forall k | 0 <= k < |prefix|
      ensures prefix[k] != last
    {
      assert s[k] == prefix[k] && s[|prefix|] == last;
    }
    forall i, j | 0 <= i < j < |prefix|
      ensures prefix[i] != prefix[j]
    {
      assert s[i] == prefix[i] && s[j] == prefix[j];
    }
  }

  /** Orders the addresses by descending count, keeping the input order among
      equal counts, as `sort.SliceStable` with a greater-than comparison does. */
  function SortByCount(s: seq<string>, count: map<string, int>): (r: seq<string>)
    ensures multiset(r) == multiset(s)
  {
    if s == [] then []
    else
      assert s == s[..|s| - 1] + [s[|s| - 1]];
      InsertByCount(s[|s| - 1], SortByCount(s[..|s| - 1], count), count)
  }

  /** The sorted list is ordered by descending count, and has no repeats when
      the input had none. */
  lemma {:induction false} SortByCountOrdered(s: seq<string>, count: map<string, int>)
    ensures NonIncreasing(SortByCount(s, count), count)
    ensures Distinct(s) ==> Distinct(SortByCount(s, count))
  {
    if s != [] {
      var prefix := s[..|s| - 1];
      var last := s[|s| - 1];
      var sorted := SortByCount(prefix, count);
      SortByCountOrdered(prefix, count);
      assert s == prefix + [last];
      if Distinct(s) {
        DistinctPrefix(prefix, last);
        assert last !in multiset(sorted);
      }
      InsertByCountOrdered(last, sorted, count);
    }
  }
}
