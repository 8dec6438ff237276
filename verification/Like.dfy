/** LIKE escaping (EscapeForLike) against a nondeterministic LIKE matcher written from
    section 9.7.1 of the PostgreSQL manual. */
module Like {
  import opened Wrappers

  predicate IsSpecial(c: char) { c == '%' || c == '_' || c == '\\' }

  function SpecialCount(s: string): nat {
    if s == [] then 0 else (if IsSpecial(s[0]) then 1 else 0) + SpecialCount(s[1..])
  }

  function EscapedChar(c: char): string {
    if IsSpecial(c) then ['\\', c] else [c]
  }

  /** What escaping means: every special character gets a backslash in front of it. */
  function Escaped(s: string): string {
    if s == [] then [] else EscapedChar(s[0]) + Escaped(s[1..])
  }

  function Unescaped(s: string): Option<string> {
    if s == [] then Some([])
    else if s[0] != '\\' then
      match Unescaped(s[1..])
      case Some(r) => Some([s[0]] + r)
      case None => None
    else if |s| == 1 then None
    else
      match Unescaped(s[2..])
      case Some(r) => Some([s[1]] + r)
      case None => None
  }

  lemma SpecialCountAppend(s: string, c: char)
    ensures SpecialCount(s + [c]) == SpecialCount(s) + if IsSpecial(c) then 1 else 0
  {
    if s != [] {
      assert (s + [c])[1..] == s[1..] + [c];
      SpecialCountAppend(s[1..], c);
    }
  }

  lemma EscapedAppend(s: string, c: char)
    ensures Escaped(s + [c]) == Escaped(s) + EscapedChar(c)
  {
    if s == [] {
      assert (s + [c])[1..] == [];
    } else {
      assert (s + [c])[1..] == s[1..] + [c];
      EscapedAppend(s[1..], c);
    }
  }

  lemma {:induction false} NothingToEscape(s: string)
    requires SpecialCount(s) == 0
    ensures Escaped(s) == s
  {
    if s != [] {
      NothingToEscape(s[1..]);
      assert s == [s[0]] + s[1..];
    }
  }

  lemma {:induction false} EscapedLength(s: string)
    ensures |Escaped(s)| == |s| + SpecialCount(s)
  {
    if s != [] { EscapedLength(s[1..]); }
  }

  /** EscapeForLike: the counting pass, the fast path that returns the input, and the copying loop. */
  method EscapeForLike(input: string) returns (escaped: string)
    ensures escaped == Escaped(input)
    ensures |escaped| == |input| + SpecialCount(input)
  {
    var escapeCount := 0;
    for i := 0 to |input|
      invariant escapeCount == SpecialCount(input[..i])
    {
      assert input[..i + 1] == input[..i] + [input[i]];
      SpecialCountAppend(input[..i], input[i]);
      if IsSpecial(input[i]) { escapeCount := escapeCount + 1; }
    }
    assert input[..|input|] == input;
    EscapedLength(input);
    if escapeCount == 0 {
      NothingToEscape(input);
      return input;
    }
    escaped := [];
    for i := 0 to |input|
      invariant escaped == Escaped(input[..i])
    {
      assert input[..i + 1] == input[..i] + [input[i]];
      EscapedAppend(input[..i], input[i]);
      if IsSpecial(input[i]) { escaped := escaped + ['\\']; }
      escaped := escaped + [input[i]];
    }
    assert input[..|input|] == input;
  }

  /** Escaping loses nothing. */
  lemma {:induction false} UnescapeEscape(s: string)
    ensures Unescaped(Escaped(s)) == Some(s)
  {
    if s != [] {
      UnescapeEscape(s[1..]);
      var e := Escaped(s);
      assert s == [s[0]] + s[1..];
      if IsSpecial(s[0]) {
        assert e[2..] == Escaped(s[1..]);
      } else {
        assert e[1..] == Escaped(s[1..]);
      }
    }
  }

  /** The LIKE matcher with escape character `\`: `%` stands for any run of characters (the
      choice between its two branches is the nondeterminism), `_` for any single character. A
      pattern that ends in an unpaired escape is an error in PostgreSQL; here it matches nothing. */
  predicate Matches(p: string, t: string)
    decreases |p| + |t|
  {
    if p == [] then t == []
    else if p[0] == '%' then Matches(p[1..], t) || (t != [] && Matches(p, t[1..]))
    else if t == [] then false
    else if p[0] == '_' then Matches(p[1..], t[1..])
    else if p[0] == '\\' then |p| > 1 && p[1] == t[0] && Matches(p[2..], t[1..])
    else p[0] == t[0] && Matches(p[1..], t[1..])
  }

  /** Every escape character of the pattern has a character after it. */
  predicate WellFormed(p: string) {
    p == [] || (if p[0] == '\\' then |p| > 1 && WellFormed(p[2..]) else WellFormed(p[1..]))
  }

  ghost predicate IsSubstring(s: string, t: string) {
    exists i :: OccursAt(s, t, i)
  }

  predicate OccursAt(s: string, t: string, i: int) { 0 <= i <= |t| - |s| && t[i..i + |s|] == s }

  predicate IsPrefix(s: string, t: string) { |s| <= |t| && t[..|s|] == s }

  lemma {:induction false} PercentMatchesAnything(t: string)
    ensures Matches("%", t)
  {
    if t != [] { PercentMatchesAnything(t[1..]); }
  }

  /** An escaped text followed by `%` matches exactly the texts it is a prefix of. */
  lemma {:induction false} EscapedPrefix(s: string, t: string)
    ensures Matches(Escaped(s) + "%", t) <==> IsPrefix(s, t)
  {
    var p := Escaped(s) + "%";
    if s == [] {
      assert p == "%";
      PercentMatchesAnything(t);
    } else if t != [] {
      EscapedPrefix(s[1..], t[1..]);
      var rest := Escaped(s[1..]) + "%";
      if IsSpecial(s[0]) {
        assert p[2..] == rest;
      } else {
        assert p[1..] == rest;
      }
      PrefixStep(s, t);
    }
  }

  lemma PrefixStep(s: string, t: string)
    requires s != [] && t != []
    ensures IsPrefix(s, t) <==> s[0] == t[0] && IsPrefix(s[1..], t[1..])
  {
    if s[0] == t[0] && IsPrefix(s[1..], t[1..]) {
      assert s == [s[0]] + s[1..];
      assert t[..|s|] == [t[0]] + t[1..][..|s| - 1];
    }
    if IsPrefix(s, t) {
      assert t[1..][..|s| - 1] == t[..|s|][1..];
      assert s[0] == t[..|s|][0];
    }
  }

  lemma SubstringStep(s: string, t: string)
    requires t != []
    ensures IsSubstring(s, t) <==> IsPrefix(s, t) || IsSubstring(s, t[1..])
  {
    if IsPrefix(s, t) { assert OccursAt(s, t, 0); }
    if IsSubstring(s, t[1..]) {
      var i :| OccursAt(s, t[1..], i);
      assert OccursAt(s, t, i + 1);
    }
    if IsSubstring(s, t) {
      var i :| OccursAt(s, t, i);
      assert i > 0 ==> OccursAt(s, t[1..], i - 1);
    }
  }

  /** The pattern the query builder writes, `'%' || $k || '%'`. */
  function ContainsPattern(parameter: string): string { "%" + parameter + "%" }

  lemma {:induction false} EscapedBetweenPercents(s: string, t: string)
    ensures Matches(ContainsPattern(Escaped(s)), t) <==> IsSubstring(s, t)
    decreases |t|
  {
    var p := ContainsPattern(Escaped(s));
    assert p[1..] == Escaped(s) + "%";
    EscapedPrefix(s, t);
    if t == [] {
      assert IsPrefix(s, t) ==> OccursAt(s, t, 0);
    } else {
      EscapedBetweenPercents(s, t[1..]);
      SubstringStep(s, t);
    }
  }

  // ----- case folding -----

  /** Case folding, character by character. */
  function Fold(fold: char -> char, s: string): (r: string)
    ensures |r| == |s|
  {
    seq(|s|, i requires 0 <= i < |s| => fold(s[i]))
  }

  /** What ILIKE needs of a fold: it keeps the pattern characters apart from all others. */
  ghost predicate KeepsPatternCharacters(fold: char -> char) {
    forall c :: (IsSpecial(c) ==> fold(c) == c) && (IsSpecial(fold(c)) ==> IsSpecial(c))
  }

  predicate Ilike(fold: char -> char, text: string, pattern: string) {
    Matches(Fold(fold, pattern), Fold(fold, text))
  }

  lemma FoldAppend(fold: char -> char, a: string, b: string)
    ensures Fold(fold, a + b) == Fold(fold, a) + Fold(fold, b)
  {
  }

  lemma FoldEscapedChar(fold: char -> char, c: char)
    requires KeepsPatternCharacters(fold)
    ensures Fold(fold, EscapedChar(c)) == EscapedChar(fold(c))
  {
    assert fold('\\') == '\\' by { assert IsSpecial('\\'); }
  }

  lemma {:induction false} FoldEscaped(fold: char -> char, s: string)
    requires KeepsPatternCharacters(fold)
    ensures Fold(fold, Escaped(s)) == Escaped(Fold(fold, s))
  {
    if s != [] {
      FoldEscaped(fold, s[1..]);
      FoldAppend(fold, [s[0]], s[1..]);
      assert s == [s[0]] + s[1..];
      assert Fold(fold, s)[1..] == Fold(fold, s[1..]);
      FoldEscapedChar(fold, s[0]);
      FoldAppend(fold, EscapedChar(s[0]), Escaped(s[1..]));
    }
  }

  /** The search condition finds exactly the texts that contain the search text, ignoring case,
      whatever special characters the search text holds. */
  lemma IlikeIsSubstringSearch(fold: char -> char, s: string, t: string)
    requires KeepsPatternCharacters(fold)
    ensures Ilike(fold, t, ContainsPattern(Escaped(s))) <==> IsSubstring(Fold(fold, s), Fold(fold, t))
  {
    FoldEscaped(fold, s);
    assert fold('%') == '%' by { assert IsSpecial('%'); }
    assert Fold(fold, ContainsPattern(Escaped(s))) == ContainsPattern(Escaped(Fold(fold, s)));
    EscapedBetweenPercents(Fold(fold, s), Fold(fold, t));
  }

  lemma {:induction false} WellFormedTail(s: string)
    ensures WellFormed(Escaped(s) + "%")
  {
    var p := Escaped(s) + "%";
    if s == [] {
      assert p[1..] == [];
    } else {
      WellFormedTail(s[1..]);
      if IsSpecial(s[0]) {
        assert p[2..] == Escaped(s[1..]) + "%";
      } else {
        assert p[1..] == Escaped(s[1..]) + "%";
      }
    }
  }

  /** The pattern never trips PostgreSQL's "must not end with escape character" error. */
  lemma SearchPatternWellFormed(s: string)
    ensures WellFormed(ContainsPattern(Escaped(s)))
  {
    WellFormedTail(s);
    assert ContainsPattern(Escaped(s))[1..] == Escaped(s) + "%";
  }

  /** A text the unescaped pattern `p` matches: `%` by nothing, `_` by "a", an escaped
      character by itself. */
  function Sample(p: string): string {
    if p == [] then []
    else if p[0] == '%' then Sample(p[1..])
    else if p[0] == '_' then "a" + Sample(p[1..])
    else if p[0] == '\\' then (if |p| > 1 then [p[1]] + Sample(p[2..]) else [])
    else [p[0]] + Sample(p[1..])
  }

  lemma {:induction false} RawPatternMatchesSample(s: string)
    ensures Matches(s + "%", Sample(s + "%"))
    ensures |Sample(s + "%")| <= |s|
    ensures SpecialCount(s) > 0 ==> Sample(s + "%") != s
  {
    var p := s + "%";
    if s == [] {
      assert p[1..] == [];
    } else if s == "\\" {
      assert p[2..] == [];
    } else if s[0] == '\\' {
      RawPatternMatchesSample(s[2..]);
      assert p[2..] == s[2..] + "%";
    } else {
      RawPatternMatchesSample(s[1..]);
      assert p[1..] == s[1..] + "%";
    }
  }

  lemma NoShorterTextContains(s: string, t: string)
    requires |t| <= |s|
    ensures IsSubstring(s, t) ==> t == s
  {
    forall i | OccursAt(s, t, i) ensures t == s {
      assert t[i..i + |s|] == t;
    }
  }

  /** Escaping is needed exactly when there is something to escape: the unescaped search text
      finds the same texts as substring search does, for every text, if and only if it has no
      special character. */
  lemma EscapingNeededExactly(s: string)
    ensures (forall t :: Matches(ContainsPattern(s), t) <==> IsSubstring(s, t)) <==> SpecialCount(s) == 0
  {
    if SpecialCount(s) == 0 {
      NothingToEscape(s);
      forall t ensures Matches(ContainsPattern(s), t) <==> IsSubstring(s, t) {
        EscapedBetweenPercents(s, t);
      }
    } else {
      var t := Sample(s + "%");
      RawPatternMatchesSample(s);
      assert ContainsPattern(s)[1..] == s + "%";
      NoShorterTextContains(s, t);
      assert !(Matches(ContainsPattern(s), t) <==> IsSubstring(s, t));
    }
  }
}
