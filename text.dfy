/** The pieces of Python's `str` API that the context renderer uses:
    `split` on one separator character, `"sep".join`, and `replace(c, "")`. */
module Text {

  /** The text before the first `c` in `s` (all of `s` when there is none):
      the first element of `s.split(c)`. */
  function PrefixBefore(s: string, c: char): (p: string)
    ensures |p| <= |s| && p == s[..|p|]
    ensures c !in p
    ensures |p| < |s| ==> s[|p|] == c
  {
    if s == [] || s[0] == c then [] else [s[0]] + PrefixBefore(s[1..], c)
  }

  /** The prefix before the first separator is determined by where that separator sits. */
  lemma {:induction false} PrefixBeforeFirst(a: string, c: char, b: string)
    requires c !in a
    ensures PrefixBefore(a + [c] + b, c) == a
  {
    var s := a + [c] + b;
    assert s[|a|] == c;
    assert s[..|a|] == a;
  }

  /** Text without `c` is its own prefix before `c`. */
  lemma PrefixBeforeAbsent(s: string, c: char)
    requires c !in s
    ensures PrefixBefore(s, c) == s
  {
  }

  /** Python's `s.split(sep)` for a one-character separator. */
  function Split(s: string, sep: char): (parts: seq<string>)
    ensures |parts| >= 1
    ensures parts[0] == PrefixBefore(s, sep)
    ensures forall i :: 0 <= i < |parts| ==> sep !in parts[i]
    decreases |s|
  {
    var head := PrefixBefore(s, sep);
    if |head| == |s| then [s] else [head] + Split(s[|head| + 1..], sep)
  }

  /** Python's `sep.join(parts)` for a one-character separator. */
  function Join(sep: char, parts: seq<string>): (s: string)
  {
    if |parts| == 0 then ""
    else if |parts| == 1 then parts[0]
    else parts[0] + [sep] + Join(sep, parts[1..])
  }

  /** A join of two or more parts starts with the first part followed by the separator. */
  lemma JoinStartsWithFirst(sep: char, parts: seq<string>)
    requires |parts| >= 2
    ensures var s := Join(sep, parts);
            |parts[0]| < |s| && s[..|parts[0]|] == parts[0] && s[|parts[0]|] == sep
  {
    var rest := Join(sep, parts[1..]);
    assert Join(sep, parts) == parts[0] + [sep] + rest;
  }

  /** Joining one more part appends the separator and that part at the end. */
  lemma {:induction false} JoinSnoc(sep: char, parts: seq<string>, last: string)
    requires |parts| >= 1
    ensures Join(sep, parts + [last]) == Join(sep, parts) + [sep] + last
  {
    if |parts| > 1 {
      assert (parts + [last])[1..] == parts[1..] + [last];
      JoinSnoc(sep, parts[1..], last);
    } else {
      assert (parts + [last])[1..] == [last];
    }
  }

  /** A join of two or more parts ends with the separator and the last part. */
  lemma JoinEndsWithLast(sep: char, parts: seq<string>, tail: string)
    requires |parts| >= 2
    ensures var s := Join(sep, parts) + tail;
            var ending := [sep] + parts[|parts| - 1] + tail;
            |ending| <= |s| && s[|s| - |ending|..] == ending
  {
    var n := |parts|;
    assert parts == parts[..n - 1] + [parts[n - 1]];
    JoinSnoc(sep, parts[..n - 1], parts[n - 1]);
    var head := Join(sep, parts[..n - 1]);
    var ending := [sep] + parts[n - 1] + tail;
    assert Join(sep, parts) + tail == head + ending;
  }

  /** Splitting a join recovers the parts, provided no part contains the separator. */
  lemma {:induction false} SplitJoin(sep: char, parts: seq<string>)
    requires |parts| >= 1
    requires forall i :: 0 <= i < |parts| ==> sep !in parts[i]
    ensures Split(Join(sep, parts), sep) == parts
  {
    if |parts| == 1 {
      var p := PrefixBefore(parts[0], sep);
      PrefixBeforeFirst(parts[0], sep, []);
      assert parts[0] + [sep] + [] == parts[0] + [sep];
      assert |p| == |parts[0]|;
    } else {
      var rest := Join(sep, parts[1..]);
      var s := parts[0] + [sep] + rest;
      PrefixBeforeFirst(parts[0], sep, rest);
      assert s[|parts[0]| + 1..] == rest;
      SplitJoin(sep, parts[1..]);
    }
  }

  /** Joining a split gives back the original text. */
  lemma {:induction false} JoinSplit(s: string, sep: char)
    ensures Join(sep, Split(s, sep)) == s
    decreases |s|
  {
    var head := PrefixBefore(s, sep);
    if |head| < |s| {
      var tail := s[|head| + 1..];
      var rest := Split(tail, sep);
      assert Split(s, sep) == [head] + rest;
      assert ([head] + rest)[1..] == rest;
      JoinSplit(tail, sep);
      assert Join(sep, [head] + rest) == head + [sep] + Join(sep, rest);
      assert s == head + [sep] + tail;
    }
  }

  /** Python's `s.replace(c, "")`: every `c` removed, everything else kept in order. */
  function RemoveAll(s: string, c: char): (r: string)
    ensures c !in r
  {
    if s == [] then []
    else if s[0] == c then RemoveAll(s[1..], c)
    else [s[0]] + RemoveAll(s[1..], c)
  }

  /** Removal deletes every `c` and keeps every other character as often as it occurred. */
  lemma {:induction false} RemoveAllCounts(s: string, c: char)
    ensures multiset(RemoveAll(s, c)) == multiset(s)[c := 0]
  {
    if s != [] {
      RemoveAllCounts(s[1..], c);
      assert s == [s[0]] + s[1..];
    }
  }

  /** Text without `c` is left as it is. */
  lemma {:induction false} RemoveAllAbsent(s: string, c: char)
    requires c !in s
    ensures RemoveAll(s, c) == s
  {
    if s != [] {
      RemoveAllAbsent(s[1..], c);
      assert s == [s[0]] + s[1..];
    }
  }

  /** A character other than the removed one survives removal exactly when it was there. */
  lemma RemoveAllKeeps(s: string, c: char, d: char)
    ensures d in RemoveAll(s, c) <==> d in s && d != c
  {
    var r := RemoveAll(s, c);
    RemoveAllCounts(s, c);
    assert d in r <==> multiset(r)[d] > 0;
    assert d in s <==> multiset(s)[d] > 0;
  }

  /** Removal works piecewise: what survives of `a + b` is what survives of `a`, then what
      survives of `b`. With `RemoveAllCounts` this pins the result down as `s` with its `c`s
      dropped and the remaining characters in their original order. */
  lemma {:induction false} RemoveAllConcat(a: string, b: string, c: char)
    ensures RemoveAll(a + b, c) == RemoveAll(a, c) + RemoveAll(b, c)
  {
    if a == [] {
      assert a + b == b;
    } else {
      assert (a + b)[0] == a[0];
      assert (a + b)[1..] == a[1..] + b;
      RemoveAllConcat(a[1..], b, c);
    }
  }

  /** A single character survives removal exactly when it is not `c`. */
  lemma RemoveAllSingle(d: char, c: char)
    ensures RemoveAll([d], c) == if d == c then [] else [d]
  {
    assert [d][1..] == [];
  }
}
