/**
 Prefix search in the operator lists: the query's LIKE metacharacters are escaped by
 three whole-string replacements, "%" is appended, and PostgreSQL matches the result
 (section 9.7.1 of the PostgreSQL documentation: % any string, _ any character,
 backslash takes the next character literally).
 */
module LikePattern {

  /** strings.ReplaceAll of one character. */
  function ReplaceAll(s: string, c: char, put: string): string {
    if s == "" then "" else (if s[0] == c then put else [s[0]]) + ReplaceAll(s[1..], c, put)
  }

  function EscapeLikePattern(value: string): string {
    ReplaceAll(ReplaceAll(ReplaceAll(value, '\\', "\\\\"), '%', "\\%"), '_', "\\_")
  }

  predicate Meta(c: char) {
    c == '\\' || c == '%' || c == '_'
  }

  /** The same escaping, one character at a time. */
  function Escaped(s: string): string {
    if s == "" then "" else (if Meta(s[0]) then ['\\', s[0]] else [s[0]]) + Escaped(s[1..])
  }

  lemma {:induction false} ReplaceAllConcat(a: string, b: string, c: char, put: string)
    ensures ReplaceAll(a + b, c, put) == ReplaceAll(a, c, put) + ReplaceAll(b, c, put)
  {
    if a == "" {
      assert a + b == b;
    } else {
      assert (a + b)[1..] == a[1..] + b;
      ReplaceAllConcat(a[1..], b, c, put);
    }
  }

  /** The replacements do not interfere: backslashes first, then % and _, equals escaping each character once. */
  lemma {:induction false} ThreeReplacementsAreOneEscape(s: string)
    ensures EscapeLikePattern(s) == Escaped(s)
  {
    if s != "" {
      var head := if s[0] == '\\' then "\\\\" else [s[0]];
      var tail := ReplaceAll(s[1..], '\\', "\\\\");
      ReplaceAllConcat(head, tail, '%', "\\%");
      ReplaceAllConcat(ReplaceAll(head, '%', "\\%"), ReplaceAll(tail, '%', "\\%"), '_', "\\_");
      assert EscapeLikePattern(s) == ReplaceAll(ReplaceAll(head, '%', "\\%"), '_', "\\_") + EscapeLikePattern(s[1..]);
      HeadEscaped(s[0]);
      ThreeReplacementsAreOneEscape(s[1..]);
    }
  }

  lemma HeadEscaped(c: char)
    ensures var head := if c == '\\' then "\\\\" else [c];
            ReplaceAll(ReplaceAll(head, '%', "\\%"), '_', "\\_") == if Meta(c) then ['\\', c] else [c]
  {
    var head := if c == '\\' then "\\\\" else [c];
    if c == '\\' {
      assert head[1..] == "\\" && head[1..][1..] == "";
      assert ReplaceAll(head, '%', "\\%") == head;
      assert ReplaceAll(head, '_', "\\_") == head;
    } else if c == '%' {
      var pair := "\\%";
      assert head[1..] == "";
      assert ReplaceAll(head, '%', pair) == pair;
      assert pair[1..] == "%" && pair[1..][1..] == "";
      assert ReplaceAll(pair, '_', "\\_") == pair;
    } else {
      assert head[1..] == "";
      assert ReplaceAll(head, '%', "\\%") == head;
    }
  }

  /** SQL LIKE; a pattern ending in a lone backslash matches nothing here (PostgreSQL raises an error). */
  ghost predicate Like(s: string, pattern: string)
    decreases |pattern|, |s|
  {
    if pattern == "" then s == ""
    else if pattern[0] == '%' then Like(s, pattern[1..]) || (s != "" && Like(s[1..], pattern))
    else if pattern[0] == '_' then s != "" && Like(s[1..], pattern[1..])
    else if pattern[0] == '\\' then |pattern| > 1 && s != "" && s[0] == pattern[1] && Like(s[1..], pattern[2..])
    else s != "" && s[0] == pattern[0] && Like(s[1..], pattern[1..])
  }

  lemma {:induction false} PercentMatchesAll(s: string)
    ensures Like(s, "%")
  {
    assert "%"[1..] == "";
    if s != "" { PercentMatchesAll(s[1..]); }
  }

  lemma {:induction false} EscapedMatchesPrefix(q: string, s: string)
    ensures Like(s, Escaped(q) + "%") <==> q <= s
  {
    if q == "" {
      assert Escaped(q) + "%" == "%";
      PercentMatchesAll(s);
    } else {
      var pattern, rest := Escaped(q) + "%", Escaped(q[1..]) + "%";
      if Meta(q[0]) {
        assert pattern[0] == '\\' && pattern[1] == q[0] && pattern[2..] == rest;
      } else {
        assert pattern[0] == q[0] && pattern[1..] == rest;
      }
      if s != "" {
        EscapedMatchesPrefix(q[1..], s[1..]);
        assert q <= s <==> q[0] == s[0] && q[1..] <= s[1..];
      }
    }
  }

  /** For every query and every name: the pattern matches exactly the names the query is a prefix of. */
  lemma SearchMatchesExactlyPrefixes(q: string, s: string)
    ensures Like(s, EscapeLikePattern(q) + "%") <==> q <= s
  {
    ThreeReplacementsAreOneEscape(q);
    EscapedMatchesPrefix(q, s);
  }

  /** Without the escaping an underscore in the query matches any character. */
  lemma UnescapedSearchOvermatches()
    ensures Like("aX", "a_" + "%") && !("a_" <= "aX")
  {
    var p, s := "a_" + "%", "aX";
    assert p[1..] == "_%" && p[1..][1..] == "%" && s[1..] == "X" && s[1..][1..] == "";
    PercentMatchesAll("");
    assert "a_"[1] != "aX"[1];
  }

  // ---- case folding ----

  function Map(lower: char -> char, s: string): string {
    seq(|s|, i requires 0 <= i < |s| => lower(s[i]))
  }

  lemma MapConcat(lower: char -> char, a: string, b: string)
    ensures Map(lower, a + b) == Map(lower, a) + Map(lower, b)
  {
  }

  lemma {:induction false} LowerCommutes(lower: char -> char, q: string)
    requires forall c :: Meta(c) || Meta(lower(c)) ==> lower(c) == c
    ensures Map(lower, Escaped(q)) == Escaped(Map(lower, q))
  {
    if q != "" {
      var head, tail := if Meta(q[0]) then ['\\', q[0]] else [q[0]], Escaped(q[1..]);
      LowerCommutes(lower, q[1..]);
      MapConcat(lower, head, tail);
      assert Map(lower, q)[1..] == Map(lower, q[1..]);
      assert Meta('\\');
      assert Map(lower, head) == if Meta(lower(q[0])) then ['\\', lower(q[0])] else [lower(q[0])];
    }
  }

  /** The pattern is lower-cased after escaping; the search is then prefix search on lower-cased text. */
  lemma LoweredSearchMatchesPrefixes(lower: char -> char, q: string, s: string)
    requires forall c :: Meta(c) || Meta(lower(c)) ==> lower(c) == c
    ensures Like(s, Map(lower, EscapeLikePattern(q)) + "%") <==> Map(lower, q) <= s
  {
    ThreeReplacementsAreOneEscape(q);
    LowerCommutes(lower, q);
    EscapedMatchesPrefix(Map(lower, q), s);
  }
}
