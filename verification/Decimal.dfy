/** Decimal numbers as text: zero-padded printing, and the parser of `str::parse::<u32>`. */
module Decimal {
  import opened Wrappers

  function DigitChar(d: nat): (c: char)
    requires d < 10
  {
    "0123456789"[d]
  }

  predicate IsDigit(c: char) {
    '0' <= c <= '9'
  }

  function DigitValue(c: char): nat
    requires IsDigit(c)
  {
    c as int - '0' as int
  }

  predicate AllDigits(s: string) {
    forall c <- s :: IsDigit(c)
  }

  function Digits(n: nat): (s: string)
    ensures |s| >= 1 && AllDigits(s)
  {
    if n < 10 then [DigitChar(n)] else Digits(n / 10) + [DigitChar(n % 10)]
  }

  function Zeros(n: nat): (s: string)
    ensures |s| == n && forall c <- s :: c == '0'
  {
    seq(n, _ => '0')
  }

  /** `{:0width}`: at least `width` characters, padded with zeros on the left. */
  function ZeroPadded(n: nat, width: nat): (s: string)
    ensures |s| >= 1 && AllDigits(s)
  {
    if |Digits(n)| >= width then Digits(n) else Zeros(width - |Digits(n)|) + Digits(n)
  }

  function Value(s: string): nat
    requires AllDigits(s)
    decreases |s|
  {
    if s == "" then 0 else Value(s[..|s| - 1]) * 10 + DigitValue(s[|s| - 1])
  }

  const U32_LIMIT := 0x1_0000_0000

  /** `str::parse::<u32>`: an optional plus sign, then at least one digit, and no overflow. */
  function ParseU32(s: string): (r: Option<nat>)
    ensures r.Some? ==> r.value < U32_LIMIT
  {
    if s == "" then None
    else
      var digits := if s[0] == '+' then s[1..] else s;
      if digits == "" || !AllDigits(digits) || Value(digits) >= U32_LIMIT then None else Some(Value(digits))
  }

  /** What parses as a `u32`: digits, with or without a plus sign before them, of a value that fits. */
  lemma ParsingNumbersIsExact(s: string, digits: string)
    ensures AllDigits(digits) && digits != "" && (s == digits || s == "+" + digits) ==>
              ParseU32(s) == if Value(digits) < U32_LIMIT then Some(Value(digits)) else None
    ensures ParseU32(s).Some? ==>
              exists d :: AllDigits(d) && d != "" && (s == d || s == "+" + d) && ParseU32(s) == Some(Value(d))
  {
    if AllDigits(digits) && digits != "" {
      assert ("+" + digits)[1..] == digits && IsDigit(digits[0]);
    }
    if ParseU32(s).Some? {
      var d := if s[0] == '+' then s[1..] else s;
      assert s == d || s == "+" + d;
    }
  }

  /** `filter_map(|p| p.parse().ok())`: parts that are no number are dropped. */
  function Numbers(parts: seq<string>): seq<nat> {
    if parts == [] then []
    else (match ParseU32(parts[0]) case Some(n) => [n] case None => []) + Numbers(parts[1..])
  }

  function Pow10(w: nat): (p: nat)
    ensures p > 0
  {
    if w == 0 then 1 else 10 * Pow10(w - 1)
  }

  // ---------------------------------------------------------------- printing and reading

  lemma PaddingUnfolds(n: nat, width: nat)
    requires width >= 2
    ensures ZeroPadded(n, width) == ZeroPadded(n / 10, width - 1) + [DigitChar(n % 10)]
  {
    if n < 10 {
      OneDigitUnfolds(n, width);
    } else {
      var head, last := Digits(n / 10), [DigitChar(n % 10)];
      assert Digits(n) == head + last;
      if |head| + 1 < width {
        assert Zeros(width - |head| - 1) + (head + last) == Zeros(width - |head| - 1) + head + last;
      }
    }
  }

  lemma OneDigitUnfolds(n: nat, width: nat)
    requires n < 10 && width >= 2
    ensures ZeroPadded(n, width) == ZeroPadded(n / 10, width - 1) + [DigitChar(n % 10)]
  {
    assert n / 10 == 0 && n % 10 == n;
    assert Digits(0) == "0" && Digits(n) == [DigitChar(n)];
    assert Zeros(width - 1) == Zeros(width - 2) + "0";
  }

  lemma LastDigit(s: string, c: char)
    requires AllDigits(s) && IsDigit(c)
    ensures AllDigits(s + [c]) && Value(s + [c]) == Value(s) * 10 + DigitValue(c)
  {
    assert (s + [c])[..|s|] == s;
  }

  lemma RestoreLastDigit(s: string, n: nat)
    requires AllDigits(s) && Value(s) == n / 10
    ensures AllDigits(s + [DigitChar(n % 10)]) && Value(s + [DigitChar(n % 10)]) == n
  {
    LastDigit(s, DigitChar(n % 10));
  }

  lemma {:induction false} ValueOfDigits(n: nat)
    ensures Value(Digits(n)) == n
  {
    if n >= 10 {
      ValueOfDigits(n / 10);
      RestoreLastDigit(Digits(n / 10), n);
    } else {
      LastDigit("", DigitChar(n));
      assert Digits(n) == "" + [DigitChar(n)];
    }
  }

  lemma {:induction false} ValueOfPadded(n: nat, width: nat)
    ensures Value(ZeroPadded(n, width)) == n
    decreases width
  {
    if width >= 2 {
      PaddingUnfolds(n, width);
      ValueOfPadded(n / 10, width - 1);
      RestoreLastDigit(ZeroPadded(n / 10, width - 1), n);
    } else {
      ValueOfDigits(n);
    }
  }

  /** Reading a printed number gives it back, exactly when it fits. */
  lemma ParsePadded(n: nat, width: nat)
    ensures ParseU32(ZeroPadded(n, width)) == if n < U32_LIMIT then Some(n) else None
  {
    ValueOfPadded(n, width);
    assert ZeroPadded(n, width)[0] in ZeroPadded(n, width);
  }

  lemma DropLastDigit(n: nat, width: nat)
    requires width >= 2
    ensures n < Pow10(width) <==> n / 10 < Pow10(width - 1)
  {
    assert Pow10(width) == 10 * Pow10(width - 1);
  }

  lemma {:induction false} PaddedLength(n: nat, width: nat)
    requires width >= 1 && n < Pow10(width)
    ensures |ZeroPadded(n, width)| == width
    decreases width
  {
    if width >= 2 {
      PaddingUnfolds(n, width);
      DropLastDigit(n, width);
      PaddedLength(n / 10, width - 1);
    } else {
      assert Pow10(1) == 10 * Pow10(0);
    }
  }

  lemma DigitOfDigit(c: char)
    requires IsDigit(c)
    ensures DigitValue(c) < 10 && DigitChar(DigitValue(c)) == c
  {
  }

  lemma SplitLastDigit(n: nat, d: nat)
    requires d < 10
    ensures (n * 10 + d) / 10 == n && (n * 10 + d) % 10 == d
  {
  }

  /** Printing a number read from a text of fixed width gives the text back. */
  lemma {:induction false} PaddedOfValue(s: string)
    requires s != "" && AllDigits(s)
    ensures Value(s) < Pow10(|s|) && ZeroPadded(Value(s), |s|) == s
    decreases |s|
  {
    var head, last := s[..|s| - 1], s[|s| - 1];
    assert last in s && s == head + [last] && forall c <- head :: c in s;
    if head == "" {
      OneDigitText(last);
    } else {
      PaddedOfValue(head);
      MoreDigitsText(head, last, Value(head), DigitValue(last));
    }
  }

  lemma MoreDigitsText(s: string, c: char, n: nat, d: nat)
    requires s != "" && AllDigits(s) && IsDigit(c) && n == Value(s) && d == DigitValue(c)
    requires n < Pow10(|s|) && ZeroPadded(n, |s|) == s
    ensures AllDigits(s + [c]) && Value(s + [c]) == n * 10 + d < Pow10(|s| + 1)
    ensures ZeroPadded(n * 10 + d, |s| + 1) == s + [c]
  {
    LastDigit(s, c);
    DigitOfDigit(c);
    AppendDigit(n, d, |s|);
  }

  lemma AppendDigit(n: nat, d: nat, width: nat)
    requires d < 10 && width >= 1 && n < Pow10(width)
    ensures n * 10 + d < Pow10(width + 1)
    ensures ZeroPadded(n * 10 + d, width + 1) == ZeroPadded(n, width) + [DigitChar(d)]
  {
    SplitLastDigit(n, d);
    PaddingUnfolds(n * 10 + d, width + 1);
    DropLastDigit(n * 10 + d, width + 1);
  }

  lemma OneDigitText(c: char)
    requires IsDigit(c)
    ensures Value([c]) == DigitValue(c) < Pow10(1) && ZeroPadded(Value([c]), 1) == [c]
  {
    LastDigit("", c);
    DigitOfDigit(c);
    assert "" + [c] == [c] && Pow10(1) == 10 * Pow10(0);
  }

  // ---------------------------------------------------------------- text order

  /** The order in which SQLite compares text: character by character, a prefix first. */
  predicate TextLess(s: string, t: string) {
    t != "" && (s == "" || s[0] < t[0] || (s[0] == t[0] && TextLess(s[1..], t[1..])))
  }

  lemma {:induction false} TextLessOfConcat(a: string, b: string, x: string, y: string)
    requires |a| == |b|
    ensures TextLess(a + x, b + y) <==> TextLess(a, b) || (a == b && TextLess(x, y))
    decreases |a|
  {
    if a == "" {
      assert a + x == x && b + y == y;
    } else {
      assert (a + x)[1..] == a[1..] + x && (b + y)[1..] == b[1..] + y;
      TextLessOfConcat(a[1..], b[1..], x, y);
      assert a == [a[0]] + a[1..] && b == [b[0]] + b[1..];
    }
  }

  lemma TextOrderOfDigits(a: nat, b: nat)
    requires a < 10 && b < 10
    ensures TextLess([DigitChar(a)], [DigitChar(b)]) <==> a < b
    ensures [DigitChar(a)] == [DigitChar(b)] <==> a == b
  {
    assert [DigitChar(a)][1..] == "" && [DigitChar(b)][1..] == "";
    assert [DigitChar(a)][0] == DigitChar(a) && [DigitChar(b)][0] == DigitChar(b);
  }

  lemma OrderByLastDigit(n: nat, m: nat)
    ensures n < m <==> n / 10 < m / 10 || (n / 10 == m / 10 && n % 10 < m % 10)
    ensures n == m <==> n / 10 == m / 10 && n % 10 == m % 10
  {
  }

  lemma OrderByLastCharacter(a: string, b: string, x: nat, y: nat)
    requires |a| == |b| && x < 10 && y < 10
    ensures TextLess(a + [DigitChar(x)], b + [DigitChar(y)]) <==> TextLess(a, b) || (a == b && x < y)
    ensures a + [DigitChar(x)] == b + [DigitChar(y)] <==> a == b && x == y
  {
    TextLessOfConcat(a, b, [DigitChar(x)], [DigitChar(y)]);
    TextOrderOfDigits(x, y);
    assert (a + [DigitChar(x)])[..|a|] == a && (b + [DigitChar(y)])[..|b|] == b;
    assert (a + [DigitChar(x)])[|a|..] == [DigitChar(x)] && (b + [DigitChar(y)])[|b|..] == [DigitChar(y)];
  }

  /** Numbers of one width are ordered as text the way they are ordered as numbers. */
  lemma {:induction false} TextOrderOfPadded(n: nat, m: nat, width: nat)
    requires width >= 1 && n < Pow10(width) && m < Pow10(width)
    ensures TextLess(ZeroPadded(n, width), ZeroPadded(m, width)) <==> n < m
    ensures ZeroPadded(n, width) == ZeroPadded(m, width) <==> n == m
    decreases width
  {
    if width == 1 {
      assert Pow10(1) == 10 * Pow10(0);
      TextOrderOfDigits(n, m);
    } else {
      DropLastDigit(n, width);
      DropLastDigit(m, width);
      TextOrderOfPadded(n / 10, m / 10, width - 1);
      OneMoreDigit(n, m, width);
    }
  }

  lemma OneMoreDigit(n: nat, m: nat, width: nat)
    requires width >= 2 && n / 10 < Pow10(width - 1) && m / 10 < Pow10(width - 1)
    requires TextLess(ZeroPadded(n / 10, width - 1), ZeroPadded(m / 10, width - 1)) <==> n / 10 < m / 10
    requires ZeroPadded(n / 10, width - 1) == ZeroPadded(m / 10, width - 1) <==> n / 10 == m / 10
    ensures TextLess(ZeroPadded(n, width), ZeroPadded(m, width)) <==> n < m
    ensures ZeroPadded(n, width) == ZeroPadded(m, width) <==> n == m
  {
    PaddingUnfolds(n, width);
    PaddingUnfolds(m, width);
    PaddedLength(n / 10, width - 1);
    PaddedLength(m / 10, width - 1);
    OrderByLastDigit(n, m);
    OrderByLastCharacter(ZeroPadded(n / 10, width - 1), ZeroPadded(m / 10, width - 1), n % 10, m % 10);
  }
}
