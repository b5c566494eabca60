/// The `java.lang.String` operations the chat server relies on, over `seq<char>`.
module JavaStrings {
  import opened Options

  /** The characters that string concatenation and `StringBuilder.append`
      produce for a `String` reference that may be null. */
  function Text(s: Option<string>): string
  {
    match s
    case None => "null"
    case Some(v) => v
  }

  /** Case folding on ASCII letters; other characters fold to themselves. */
  function Fold(c: char): char
  {
    if 'A' <= c <= 'Z' then (c as int + ('a' as int - 'A' as int)) as char else c
  }

  /** `a.equalsIgnoreCase(b)` for non-null `a` and `b`: equal lengths and
      equal characters up to case. */
  predicate EqualsIgnoreCase(a: string, b: string)
  {
    |a| == |b| && forall i :: 0 <= i < |a| ==> Fold(a[i]) == Fold(b[i])
  }

  /** `s.startsWith(prefix)`, which is case-sensitive. */
  predicate StartsWith(s: string, prefix: string)
  {
    |prefix| <= |s| && s[..|prefix|] == prefix
  }

  /** The position of the first `c` in `s`, or `|s|` when there is none. */
  function IndexOf(s: string, c: char): (i: nat)
    ensures i <= |s|
    ensures i < |s| ==> s[i] == c
    ensures forall j :: 0 <= j < i ==> s[j] != c
  {
    if |s| == 0 || s[0] == c then 0 else 1 + IndexOf(s[1..], c)
  }

  /** `s.split(sep, limit)` for a one-character delimiter that is no regular
      expression metacharacter and a positive `limit`: the delimiter is used
      at most `limit - 1` times, the last part keeps the rest of `s`, and
      empty parts (leading, inner or trailing) are kept. */
  function Split(s: string, sep: char, limit: nat): (parts: seq<string>)
    requires 1 <= limit
    ensures 1 <= |parts| <= limit
    decreases limit
  {
    var i := IndexOf(s, sep);
    if limit == 1 || i == |s| then [s] else [s[..i]] + Split(s[i + 1..], sep, limit - 1)
  }

  /** The parts with `sep` between each two neighbours. */
  function JoinWith(parts: seq<string>, sep: string): string
  {
    if |parts| == 0 then ""
    else if |parts| == 1 then parts[0]
    else parts[0] + sep + JoinWith(parts[1..], sep)
  }

  /** Joining with one more part at the end adds the separator and that part. */
  lemma {:induction false} JoinWithSnoc(parts: seq<string>, last: string, sep: string)
    requires |parts| > 0
    ensures JoinWith(parts + [last], sep) == JoinWith(parts, sep) + sep + last
  {
    if |parts| > 1 {
      JoinWithSnoc(parts[1..], last, sep);
      assert (parts + [last])[1..] == parts[1..] + [last];
    }
  }

  /** Joining a part in front of at least one more adds it and the separator. */
  lemma JoinWithCons(head: string, tail: seq<string>, sep: string)
    requires tail != []
    ensures JoinWith([head] + tail, sep) == head + sep + JoinWith(tail, sep)
  {
    assert ([head] + tail)[1..] == tail;
  }

  /** The text before the first delimiter holds none. */
  lemma IndexOfBefore(s: string, sep: char)
    ensures sep !in s[..IndexOf(s, sep)]
  {
    var i := IndexOf(s, sep);
    assert forall j :: 0 <= j < i ==> s[..i][j] == s[j];
  }

  /** The first delimiter of `head + [sep] + rest`, when `head` holds none,
      is right after `head`. */
  lemma IndexOfAfter(head: string, sep: char, rest: string)
    requires sep !in head
    ensures IndexOf(head + [sep] + rest, sep) == |head|
  {
    var s := head + [sep] + rest;
    assert s[|head|] == sep;
    assert forall j :: 0 <= j < |head| ==> s[j] == head[j];
  }

  /** The parts of `Split` join back to `s` with the delimiter between them. */
  lemma {:induction false} SplitJoin(s: string, sep: char, limit: nat)
    requires 1 <= limit
    ensures JoinWith(Split(s, sep, limit), [sep]) == s
    decreases limit
  {
    var i := IndexOf(s, sep);
    if limit > 1 && i < |s| {
      var head, tail := s[..i], s[i + 1..];
      var rest := Split(tail, sep, limit - 1);
      SplitJoin(tail, sep, limit - 1);
      assert Split(s, sep, limit) == [head] + rest;
      JoinAround(s, i, sep, rest);
    }
  }

  /** Joining the text before a separator with parts that join to the text
      after it gives the whole text back. */
  lemma JoinAround(s: string, i: nat, sep: char, rest: seq<string>)
    requires i < |s| && s[i] == sep && rest != []
    requires JoinWith(rest, [sep]) == s[i + 1..]
    ensures JoinWith([s[..i]] + rest, [sep]) == s
  {
    JoinWithCons(s[..i], rest, [sep]);
    assert s == s[..i] + [sep] + s[i + 1..];
  }

  /** No part of `Split` but the last holds the delimiter. */
  lemma {:induction false} SplitInner(s: string, sep: char, limit: nat)
    requires 1 <= limit
    ensures forall k :: 0 <= k < |Split(s, sep, limit)| - 1 ==> sep !in Split(s, sep, limit)[k]
    decreases limit
  {
    var i := IndexOf(s, sep);
    if limit > 1 && i < |s| {
      var parts, rest := Split(s, sep, limit), Split(s[i + 1..], sep, limit - 1);
      SplitInner(s[i + 1..], sep, limit - 1);
      IndexOfBefore(s, sep);
      assert parts == [s[..i]] + rest;
      forall k | 0 <= k < |parts| - 1
        ensures sep !in parts[k]
      {
        if k > 0 {
          assert parts[k] == rest[k - 1];
        }
      }
    }
  }

  /** The last part of `Split` holds no delimiter unless the limit was reached. */
  lemma {:induction false} SplitLast(s: string, sep: char, limit: nat)
    requires 1 <= limit
    ensures |Split(s, sep, limit)| < limit ==> sep !in Split(s, sep, limit)[|Split(s, sep, limit)| - 1]
    decreases limit
  {
    var i := IndexOf(s, sep);
    var parts := Split(s, sep, limit);
    if limit > 1 && i < |s| {
      var rest := Split(s[i + 1..], sep, limit - 1);
      SplitLast(s[i + 1..], sep, limit - 1);
      assert parts == [s[..i]] + rest;
      assert parts[|parts| - 1] == rest[|rest| - 1];
    } else if limit > 1 {
      assert parts == [s];
      IndexOfBefore(s, sep);
      assert s[..i] == s;
    }
  }

  /** What `Split` returns: parts that join back to `s`, none but the last
      holding the delimiter, and the last free of it unless the limit was
      reached. */
  lemma SplitFields(s: string, sep: char, limit: nat)
    requires 1 <= limit
    ensures JoinWith(Split(s, sep, limit), [sep]) == s
    ensures forall k :: 0 <= k < |Split(s, sep, limit)| - 1 ==> sep !in Split(s, sep, limit)[k]
    ensures |Split(s, sep, limit)| < limit ==> sep !in Split(s, sep, limit)[|Split(s, sep, limit)| - 1]
  {
    SplitJoin(s, sep, limit);
    SplitInner(s, sep, limit);
    SplitLast(s, sep, limit);
  }

  /** Splitting `head + [sep] + rest`, `head` free of the delimiter, cuts
      after `head` and splits `rest` with one use fewer. */
  lemma SplitCons(head: string, sep: char, rest: string, limit: nat)
    requires 2 <= limit && sep !in head
    ensures Split(head + [sep] + rest, sep, limit) == [head] + Split(rest, sep, limit - 1)
  {
    var s := head + [sep] + rest;
    IndexOfAfter(head, sep, rest);
    assert s[..|head|] == head && s[|head| + 1..] == rest;
  }

  /** A text that starts with a separator-free head and the separator splits
      into that head followed by the parts of the rest. */
  lemma SplitStep(s: string, head: string, rest: string, sep: char, limit: nat, tail: seq<string>)
    requires 2 <= limit && sep !in head && s == head + [sep] + rest
    requires Split(rest, sep, limit - 1) == tail
    ensures Split(s, sep, limit) == [head] + tail
  {
    SplitCons(head, sep, rest, limit);
  }

  /** Conversely, those properties determine the parts: any such sequence is
      the one `Split` returns. */
  lemma {:induction false} SplitUnique(s: string, sep: char, limit: nat, parts: seq<string>)
    requires 1 <= |parts| <= limit
    requires JoinWith(parts, [sep]) == s
    requires forall k :: 0 <= k < |parts| - 1 ==> sep !in parts[k]
    requires |parts| < limit ==> sep !in parts[|parts| - 1]
    ensures Split(s, sep, limit) == parts
    decreases |parts|
  {
    if |parts| == 1 {
      assert s == parts[0];
      assert limit > 1 ==> IndexOf(s, sep) == |s|;
      assert Split(s, sep, limit) == [s];
    } else {
      var head, tail := parts[0], parts[1..];
      var rest := JoinWith(tail, [sep]);
      forall k | 0 <= k < |tail| - 1
        ensures sep !in tail[k]
      {
        assert tail[k] == parts[k + 1];
      }
      SplitUnique(rest, sep, limit - 1, tail);
      SplitStep(s, head, rest, sep, limit, tail);
      assert parts == [head] + tail;
    }
  }
}
