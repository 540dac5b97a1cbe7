/** The string operations the daemon, the CLI and the UI share: splitting on a separator,
    joining, prefix tests and replacing a character. Strings are sequences of characters. */
module Strings {

  predicate StartsWith(s: string, prefix: string) {
    prefix <= s
  }

  /** Both `str::split` and `String.prototype.split` for a one-character separator. */
  function Split(s: string, sep: char): (parts: seq<string>)
    ensures |parts| >= 1
    ensures forall part <- parts :: sep !in part
  {
    if s == "" then [""]
    else
      var rest := Split(s[1..], sep);
      if s[0] == sep then [""] + rest else [[s[0]] + rest[0]] + rest[1..]
  }

  /** `str::splitn`: at most `n` parts, the last one keeping its separators. */
  function SplitN(s: string, sep: char, n: nat): (parts: seq<string>)
    ensures |parts| >= 1
    decreases |s|
  {
    if n <= 1 || s == "" then [s]
    else if s[0] == sep then [""] + SplitN(s[1..], sep, n - 1)
    else
      var rest := SplitN(s[1..], sep, n);
      [[s[0]] + rest[0]] + rest[1..]
  }

  function Join(parts: seq<string>, sep: char): string
    requires |parts| >= 1
  {
    if |parts| == 1 then parts[0] else parts[0] + [sep] + Join(parts[1..], sep)
  }

  /** `str::replace` of one character by a string. */
  function Replace(s: string, c: char, with: string): string {
    if s == "" then ""
    else (if s[0] == c then with else [s[0]]) + Replace(s[1..], c, with)
  }

  lemma {:induction false} JoinOfSplit(s: string, sep: char)
    ensures Join(Split(s, sep), sep) == s
  {
    if s != "" {
      JoinOfSplit(s[1..], sep);
      var rest := Split(s[1..], sep);
      var parts := Split(s, sep);
      if s[0] == sep {
        assert parts[1..] == rest;
      } else if |rest| > 1 {
        assert parts[1..] == rest[1..];
        assert Join(parts, sep) == [s[0]] + (rest[0] + [sep] + Join(rest[1..], sep));
      }
    }
  }

  lemma {:induction false} SplitWithoutSeparator(s: string, sep: char)
    requires sep !in s
    ensures Split(s, sep) == [s]
  {
    if s != "" {
      SplitWithoutSeparator(s[1..], sep);
      assert s == [s[0]] + s[1..];
    }
  }

  lemma {:induction false} SplitAtSeparator(head: string, tail: string, sep: char)
    requires sep !in head
    ensures Split(head + [sep] + tail, sep) == [head] + Split(tail, sep)
  {
    var s := head + [sep] + tail;
    if head == "" {
      assert s[1..] == tail;
    } else {
      assert s[1..] == head[1..] + [sep] + tail;
      SplitAtSeparator(head[1..], tail, sep);
      assert head == [head[0]] + head[1..] && s[0] == head[0];
    }
  }

  lemma {:induction false} SplitOfJoin(parts: seq<string>, sep: char)
    requires |parts| >= 1
    requires forall part <- parts :: sep !in part
    ensures Split(Join(parts, sep), sep) == parts
  {
    if |parts| == 1 {
      SplitWithoutSeparator(parts[0], sep);
    } else {
      SplitOfJoin(parts[1..], sep);
      SplitAtSeparator(parts[0], Join(parts[1..], sep), sep);
    }
  }

  /** `splitn` and `split` cut off the same first part, and `splitn` keeps the remainder whole. */
  lemma {:induction false} SplitNAtSeparator(head: string, tail: string, sep: char, n: nat)
    requires sep !in head && n >= 2
    ensures SplitN(head + [sep] + tail, sep, n) == [head] + SplitN(tail, sep, n - 1)
  {
    var s := head + [sep] + tail;
    if head == "" {
      assert s[1..] == tail;
    } else {
      assert s[1..] == head[1..] + [sep] + tail;
      SplitNAtSeparator(head[1..], tail, sep, n);
      assert head == [head[0]] + head[1..] && s[0] == head[0];
    }
  }
}
