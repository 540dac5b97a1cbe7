/** The owner patterns of the broker: escaping an owner for SQL, and the LIKE matcher it is
    escaped for. SQLite compares ASCII letters without case and everything else exactly. */
module Like {
  import opened Strings

  const ESCAPE := '\\'

  // ---------------------------------------------------------------- the broker's side

  /** Three replacement passes, in the broker's order. */
  function EscapeLike(s: string): string {
    Replace(Replace(Replace(s, '\\', "\\\\"), '%', "\\%"), '_', "\\_")
  }

  function PrefixPattern(owner: string): string {
    EscapeLike(owner) + "%"
  }

  // ---------------------------------------------------------------- SQLite's side

  function FoldCase(c: char): char {
    if 'A' <= c <= 'Z' then (c as int - 'A' as int + 'a' as int) as char else c
  }

  predicate SameLetter(a: char, b: char) {
    FoldCase(a) == FoldCase(b)
  }

  /** `text LIKE pattern ESCAPE '\'`, as a backtracking matcher: an escaped character is a literal,
      `%` tries the empty run and then a longer one, and a dangling escape matches nothing. */
  predicate Matches(pattern: string, text: string)
    decreases |pattern| + |text|
  {
    if pattern == "" then text == ""
    else if pattern[0] == ESCAPE then
      |pattern| > 1 && text != "" && SameLetter(pattern[1], text[0]) && Matches(pattern[2..], text[1..])
    else if pattern[0] == '%' then
      Matches(pattern[1..], text) || (text != "" && Matches(pattern, text[1..]))
    else if pattern[0] == '_' then
      text != "" && Matches(pattern[1..], text[1..])
    else
      text != "" && SameLetter(pattern[0], text[0]) && Matches(pattern[1..], text[1..])
  }

  // ---------------------------------------------------------------- what the pattern means

  /** Letters are the same when they are equal, or when they are 'a' to 'z' and the capital 32 places before. */
  lemma SameLetterIsExact(a: char, b: char)
    ensures SameLetter(a, b) <==>
            a == b || ('a' <= a <= 'z' && b as int == a as int - 32) || ('a' <= b <= 'z' && a as int == b as int - 32)
  {
  }

  ghost predicate PrefixUpToCase(s: string, t: string) {
    |s| <= |t| && forall i :: 0 <= i < |s| ==> SameLetter(s[i], t[i])
  }

  function EscapeChar(c: char): string {
    if c == '\\' || c == '%' || c == '_' then ['\\', c] else [c]
  }

  function EscapeEach(s: string): string {
    if s == "" then "" else EscapeChar(s[0]) + EscapeEach(s[1..])
  }

  lemma {:induction false} ReplaceConcat(s: string, t: string, c: char, with: string)
    ensures Replace(s + t, c, with) == Replace(s, c, with) + Replace(t, c, with)
  {
    if s == "" {
      assert s + t == t;
    } else {
      assert (s + t)[1..] == s[1..] + t;
      ReplaceConcat(s[1..], t, c, with);
    }
  }

  /** A later pass never touches what an earlier one inserted: the three passes amount to escaping
      each character once. */
  lemma {:induction false} ThreePassesEscapeEachCharacterOnce(s: string)
    ensures EscapeLike(s) == EscapeEach(s)
  {
    if s != "" {
      ThreePassesEscapeEachCharacterOnce(s[1..]);
      var first := if s[0] == '\\' then "\\\\" else [s[0]];
      var rest := Replace(s[1..], '\\', "\\\\");
      ReplaceConcat(first, rest, '%', "\\%");
      var second := Replace(first, '%', "\\%");
      ReplaceConcat(second, Replace(rest, '%', "\\%"), '_', "\\_");
      assert EscapeLike(s) == Replace(second, '_', "\\_") + EscapeEach(s[1..]);
      EscapingOneCharacter(s[0]);
    }
  }

  lemma EscapingOneCharacter(c: char)
    ensures Replace(Replace(if c == '\\' then "\\\\" else [c], '%', "\\%"), '_', "\\_") == EscapeChar(c)
  {
    var first: string := if c == '\\' then "\\\\" else [c];
    if c == '\\' {
      assert Replace(first[1..], '%', "\\%") == "\\";
      assert Replace(first, '%', "\\%") == "\\\\";
      assert Replace(first[1..], '_', "\\_") == "\\";
    } else if c == '%' {
      assert Replace(first, '%', "\\%") == "\\%";
      assert Replace("%", '_', "\\_") == "%";
      assert "\\%"[1..] == "%";
    } else {
      assert Replace(first, '%', "\\%") == [c];
    }
  }

  lemma {:induction false} PercentMatchesEverything(text: string)
    ensures Matches("%", text)
  {
    if text != "" {
      PercentMatchesEverything(text[1..]);
    } else {
      assert "%"[1..] == "";
    }
  }

  lemma {:induction false} EscapedPatternMatches(s: string, t: string)
    ensures Matches(EscapeEach(s) + "%", t) <==> PrefixUpToCase(s, t)
  {
    if s == "" {
      assert EscapeEach(s) + "%" == "%";
      PercentMatchesEverything(t);
    } else {
      var pattern := EscapeEach(s) + "%";
      var n := |EscapeChar(s[0])|;
      assert pattern == EscapeChar(s[0]) + (EscapeEach(s[1..]) + "%");
      assert pattern[n..] == EscapeEach(s[1..]) + "%";
      if t != "" {
        EscapedPatternMatches(s[1..], t[1..]);
        PrefixUpToCaseUnfolds(s, t);
      }
    }
  }

  lemma PrefixUpToCaseUnfolds(s: string, t: string)
    requires s != "" && t != ""
    ensures PrefixUpToCase(s, t) <==> SameLetter(s[0], t[0]) && PrefixUpToCase(s[1..], t[1..])
  {
    if SameLetter(s[0], t[0]) && PrefixUpToCase(s[1..], t[1..]) {
      forall i | 0 <= i < |s| ensures SameLetter(s[i], t[i]) {
        if i > 0 {
          assert s[i] == s[1..][i - 1] && t[i] == t[1..][i - 1];
        }
      }
    }
    if PrefixUpToCase(s, t) {
      forall i | 0 <= i < |s[1..]| ensures SameLetter(s[1..][i], t[1..][i]) {
        assert s[1..][i] == s[i + 1] && t[1..][i] == t[i + 1];
      }
    }
  }

  /** What the broker's owner pattern selects: exactly the owners that start with the given text,
      up to the case of ASCII letters. Nothing in the owner acts as a wildcard. */
  lemma PatternSelectsPrefixes(s: string, t: string)
    ensures Matches(PrefixPattern(s), t) <==> PrefixUpToCase(s, t)
  {
    ThreePassesEscapeEachCharacterOnce(s);
    EscapedPatternMatches(s, t);
  }

  /** `watch` filters with an exact prefix test, `list` with LIKE: an owner whose events pass the
      watch filter is always an owner that `list` selects. */
  lemma WatchedOwnersAreListed(filter: string, owner: string)
    requires StartsWith(owner, filter)
    ensures Matches(PrefixPattern(filter), owner)
  {
    PatternSelectsPrefixes(filter, owner);
    assert forall i :: 0 <= i < |filter| ==> filter[i] == owner[i];
  }

  /** The converse fails, and only through letter case. */
  lemma ListedButNotWatched()
    ensures Matches(PrefixPattern("vm:smith"), "VM:Smith:web") && !StartsWith("VM:Smith:web", "vm:smith")
    ensures forall filter, owner ::
              Matches(PrefixPattern(filter), owner) && !StartsWith(owner, filter) ==>
                exists i :: 0 <= i < |filter| && i < |owner| && filter[i] != owner[i] && SameLetter(filter[i], owner[i])
  {
    PatternSelectsPrefixes("vm:smith", "VM:Smith:web");
    SmithIsListed();
    forall filter, owner | Matches(PrefixPattern(filter), owner) && !StartsWith(owner, filter)
      ensures exists i :: 0 <= i < |filter| && i < |owner| && filter[i] != owner[i] && SameLetter(filter[i], owner[i])
    {
      PatternSelectsPrefixes(filter, owner);
      DiffersInCase(filter, owner);
    }
  }

  lemma SmithIsListed()
    ensures PrefixUpToCase("vm:smith", "VM:Smith:web") && !StartsWith("VM:Smith:web", "vm:smith")
  {
    assert "VM:Smith:web"[0] != "vm:smith"[0];
  }

  lemma DiffersInCase(filter: string, owner: string)
    requires PrefixUpToCase(filter, owner) && !StartsWith(owner, filter)
    ensures exists i :: 0 <= i < |filter| && i < |owner| && filter[i] != owner[i] && SameLetter(filter[i], owner[i])
  {
  }

  // ---------------------------------------------------------------- the wildcards themselves

  /** The backtracking of '%' amounts to some run of any length. */
  lemma {:induction false} PercentIsAnyRun(p: string, text: string)
    ensures Matches("%" + p, text) <==> exists k :: 0 <= k <= |text| && Matches(p, text[k..])
    decreases |text|
  {
    assert ("%" + p)[1..] == p && text[0..] == text;
    if text != "" {
      PercentIsAnyRun(p, text[1..]);
      forall k | 0 <= k < |text| ensures text[1..][k..] == text[k + 1..] {
      }
      if k :| 0 <= k <= |text| && Matches(p, text[k..]) {
        if k > 0 {
          assert text[1..][k - 1..] == text[k..];
        }
      }
    }
  }

  lemma UnderscoreIsAnyCharacter(p: string, text: string)
    ensures Matches("_" + p, text) <==> text != "" && Matches(p, text[1..])
  {
    assert ("_" + p)[1..] == p;
  }

  /** An escaped wildcard is itself. */
  lemma EscapedIsItself(c: char, p: string, text: string)
    requires c in "%_\\"
    ensures Matches(['\\', c] + p, text) <==> text != "" && text[0] == c && Matches(p, text[1..])
  {
    assert (['\\', c] + p)[2..] == p;
    SameLetterIsExact(c, if text == "" then c else text[0]);
  }

  /** Which is why owners are escaped: otherwise the underscore of one would stand for any character; escaped, it
      only stands for itself. */
  lemma UnescapedOwnersOvermatch(head: string, tail: string, c: char)
    requires forall d <- head + tail :: d !in "%_\\"
    ensures Matches(head + ("_" + (tail + "%")), head + ([c] + tail))
    ensures Matches(PrefixPattern(head + (['_'] + tail)), head + ([c] + tail)) <==> c == '_'
  {
    var text := head + ([c] + tail);
    assert text[|head|..] == [c] + tail && ([c] + tail)[1..] == tail && tail[|tail|..] == "";
    LiteralPrefix(tail, "%", tail);
    PercentMatchesEverything("");
    UnderscoreIsAnyCharacter(tail + "%", [c] + tail);
    LiteralPrefix(head, "_" + (tail + "%"), text);

    var owner := head + (['_'] + tail);
    PatternSelectsPrefixes(owner, text);
    assert forall i :: 0 <= i < |owner| && i != |head| ==> owner[i] == text[i];
    assert owner[|head|] == '_' && text[|head|] == c;
    SameLetterIsExact('_', c);
  }

  lemma {:induction false} LiteralPrefix(s: string, p: string, text: string)
    requires s <= text && forall c <- s :: c !in "%_\\"
    ensures Matches(s + p, text) <==> Matches(p, text[|s|..])
    decreases |s|
  {
    if s == "" {
      assert s + p == p && text[0..] == text;
    } else {
      assert s[0] in s && (s + p)[1..] == s[1..] + p;
      LiteralPrefix(s[1..], p, text[1..]);
      assert text[1..][|s| - 1..] == text[|s|..];
    }
  }
}
