/** The three operations of Go's `strings` package that the log parser relies on,
    restricted to a one-character separator or pattern, which is all the parser uses:
    `strings.Split(s, sep)`, `strings.Replace(s, old, "", -1)` and
    `strings.Replace(s, old, "", 1)`. `Join` is the inverse of `Split`. */
module GoStrings {

  /** Number of occurrences of `c` in `s`. */
  function CountChar(s: string, c: char): nat
  {
    if s == [] then 0 else (if s[0] == c then 1 else 0) + CountChar(s[1..], c)
  }

  /** Index of the first occurrence of `c` in `s`, or `|s|` when there is none. */
  function IndexOf(s: string, c: char): (k: nat)
    ensures k <= |s|
    ensures c !in s[..k]
    ensures k < |s| ==> s[k] == c
    ensures k == |s| <==> c !in s
  {
    if s == [] then 0
    else if s[0] == c then 0
    else
      var k' := IndexOf(s[1..], c);
      assert s[..k' + 1] == [s[0]] + s[1..][..k'];
      k' + 1
  }

  /** `strings.Replace(s, string(c), "", -1)`: every occurrence of `c` removed,
      every other character kept in order. */
  function RemoveAll(s: string, c: char): (r: string)
    ensures c !in r
    ensures multiset(r) == multiset(s)[c := 0]
    ensures |r| == |s| - CountChar(s, c)
  {
    if s == [] then []
    else
      var rest := RemoveAll(s[1..], c);
      assert s == [s[0]] + s[1..];
      if s[0] == c then rest else [s[0]] + rest
  }

  /** `strings.Replace(s, string(c), "", 1)`: only the first occurrence of `c`
      removed. Putting `c` back at that place gives the input again. */
  function RemoveFirst(s: string, c: char): (r: string)
    ensures c !in s ==> r == s
    ensures c in s ==> |r| == |s| - 1
    ensures c in s ==> var k := IndexOf(s, c);
                       s == r[..k] + [c] + r[k..] && c !in r[..k]
  {
    var k := IndexOf(s, c);
    if k == |s| then s
    else
      var r := s[..k] + s[k + 1..];
      assert r[..k] == s[..k] && r[k..] == s[k + 1..];
      assert s == s[..k] + [s[k]] + s[k + 1..];
      r
  }

  /** `strings.Split(s, string(sep))`: the pieces between separators. Consecutive
      separators give empty pieces, and the empty string gives one empty piece. */
  function Split(s: string, sep: char): (r: seq<string>)
    ensures |r| == CountChar(s, sep) + 1
    ensures forall i :: 0 <= i < |r| ==> sep !in r[i]
  {
    if s == [] then [[]]
    else
      var rest := Split(s[1..], sep);
      if s[0] == sep then [[]] + rest
      else [[s[0]] + rest[0]] + rest[1..]
  }

  /** `strings.Join(fields, string(sep))` for a non-empty list of fields. */
  function Join(fields: seq<string>, sep: char): string
    requires |fields| >= 1
  {
    if |fields| == 1 then fields[0] else fields[0] + [sep] + Join(fields[1..], sep)
  }

  /** Removing a character that does not occur changes nothing. */
  lemma {:induction false} RemoveAllAbsent(s: string, c: char)
    requires c !in s
    ensures RemoveAll(s, c) == s
  {
    if s != [] {
      RemoveAllAbsent(s[1..], c);
    }
  }

  /** Removing all occurrences distributes over concatenation. */
  lemma {:induction false} RemoveAllAppend(a: string, b: string, c: char)
    ensures RemoveAll(a + b, c) == RemoveAll(a, c) + RemoveAll(b, c)
  {
    if a == [] {
      assert a + b == b;
    } else {
      var ab := a + b;
      assert ab != [] && ab[0] == a[0] && ab[1..] == a[1..] + b;
      RemoveAllAppend(a[1..], b, c);
    }
  }

  /** A character absent from the input is absent from every piece of the split. */
  lemma {:induction false} SplitAvoids(s: string, sep: char, d: char)
    requires d !in s
    ensures forall i :: 0 <= i < |Split(s, sep)| ==> d !in Split(s, sep)[i]
  {
    if s != [] {
      assert s == [s[0]] + s[1..];
      SplitAvoids(s[1..], sep, d);
    }
  }

  /** A string without the separator splits into itself alone. */
  lemma {:induction false} SplitNoSeparator(s: string, sep: char)
    requires sep !in s
    ensures Split(s, sep) == [s]
  {
    if s != [] {
      SplitNoSeparator(s[1..], sep);
      assert s == [s[0]] + s[1..];
    }
  }

  /** A leading field followed by the separator becomes the first piece. */
  lemma {:induction false} SplitFirstField(f: string, rest: string, sep: char)
    requires sep !in f
    ensures Split(f + [sep] + rest, sep) == [f] + Split(rest, sep)
  {
    if f == [] {
      assert f + [sep] + rest == [sep] + rest;
    } else {
      assert (f + [sep] + rest)[1..] == f[1..] + [sep] + rest;
      SplitFirstField(f[1..], rest, sep);
      assert [f[0]] + f[1..] == f;
    }
  }

  /** Splitting undoes joining when no field holds the separator. */
  lemma {:induction false} SplitJoin(fields: seq<string>, sep: char)
    requires |fields| >= 1
    requires forall i :: 0 <= i < |fields| ==> sep !in fields[i]
    ensures Split(Join(fields, sep), sep) == fields
  {
    if |fields| == 1 {
      SplitNoSeparator(fields[0], sep);
    } else {
      SplitJoin(fields[1..], sep);
      SplitFirstField(fields[0], Join(fields[1..], sep), sep);
      assert [fields[0]] + fields[1..] == fields;
    }
  }

  /** Joining undoes splitting: no character of the input is lost. */
  lemma {:induction false} JoinSplit(s: string, sep: char)
    ensures Join(Split(s, sep), sep) == s
  {
    if s != [] {
      var rest := Split(s[1..], sep);
      JoinSplit(s[1..], sep);
      if s[0] == sep {
        assert ([[]] + rest)[1..] == rest;
      } else if |rest| == 1 {
        assert s == [s[0]] + rest[0];
      } else {
        var r := [[s[0]] + rest[0]] + rest[1..];
        assert r[1..] == rest[1..];
        assert Join(rest, sep) == rest[0] + [sep] + Join(rest[1..], sep);
        assert s == [s[0]] + s[1..];
      }
    }
  }

  /** Removing a character other than the separator from a join removes it
      from each field. */
  lemma {:induction false} RemoveAllJoin(fields: seq<string>, cleaned: seq<string>, sep: char, c: char)
    requires |fields| >= 1 && |cleaned| == |fields|
    requires c != sep
    requires forall i :: 0 <= i < |fields| ==> RemoveAll(fields[i], c) == cleaned[i]
    ensures RemoveAll(Join(fields, sep), c) == Join(cleaned, sep)
  {
    if |fields| > 1 {
      var rest := Join(fields[1..], sep);
      RemoveAllJoin(fields[1..], cleaned[1..], sep, c);
      RemoveAllAppend(fields[0] + [sep], rest, c);
      RemoveAllAppend(fields[0], [sep], c);
      assert RemoveAll([sep], c) == [sep];
      assert RemoveAll(fields[0], c) == cleaned[0];
      assert Join(fields, sep) == fields[0] + [sep] + rest;
      assert Join(cleaned, sep) == cleaned[0] + [sep] + Join(cleaned[1..], sep);
    }
  }
}
