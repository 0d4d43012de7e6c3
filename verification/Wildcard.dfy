/** Wildcard domain patterns: `*` stands for any string. */
module Wildcard {

  function Stars(pattern: string): nat {
    if pattern == [] then 0 else (if pattern[0] == '*' then 1 else 0) + Stars(pattern[1..])
  }

  /** The pattern with its stars replaced, in order, by the given strings. */
  function Fill(pattern: string, subs: seq<string>): string
    requires |subs| == Stars(pattern)
  {
    if pattern == [] then []
    else if pattern[0] == '*' then subs[0] + Fill(pattern[1..], subs[1..])
    else [pattern[0]] + Fill(pattern[1..], subs)
  }

  ghost predicate Filled(str: string, pattern: string, subs: seq<string>) {
    |subs| == Stars(pattern) && Fill(pattern, subs) == str
  }

  /** Some choice of strings for the stars turns the pattern into the name. */
  ghost predicate Matches(str: string, pattern: string) {
    exists subs :: Filled(str, pattern, subs)
  }

  lemma MatchesEmpty(str: string)
    ensures Matches(str, []) <==> str == []
  {
    if str == [] {
      assert Filled(str, [], []);
    }
  }

  lemma MatchesLiteral(str: string, pattern: string)
    requires pattern != [] && pattern[0] != '*'
    ensures Matches(str, pattern) <==> str != [] && str[0] == pattern[0] && Matches(str[1..], pattern[1..])
  {
    if subs :| Filled(str, pattern, subs) {
      assert str[1..] == Fill(pattern[1..], subs);
      assert Filled(str[1..], pattern[1..], subs);
    }
    if str != [] && str[0] == pattern[0] {
      if subs :| Filled(str[1..], pattern[1..], subs) {
        assert Filled(str, pattern, subs);
      }
    }
  }

  lemma MatchesStar(str: string, pattern: string)
    requires pattern != [] && pattern[0] == '*'
    ensures Matches(str, pattern) <==> Matches(str, pattern[1..]) || (str != [] && Matches(str[1..], pattern))
  {
    if subs :| Filled(str, pattern, subs) {
      if subs[0] == [] {
        assert str == Fill(pattern[1..], subs[1..]);
        assert Filled(str, pattern[1..], subs[1..]);
      } else {
        var subs' := [subs[0][1..]] + subs[1..];
        assert subs'[1..] == subs[1..];
        assert str[1..] == subs[0][1..] + Fill(pattern[1..], subs[1..]);
        assert Filled(str[1..], pattern, subs');
      }
    }
    if subs :| Filled(str, pattern[1..], subs) {
      assert ([[]] + subs)[1..] == subs;
      assert Filled(str, pattern, [[]] + subs);
    }
    if str != [] {
      if subs :| Filled(str[1..], pattern, subs) {
        var subs' := [[str[0]] + subs[0]] + subs[1..];
        assert subs'[1..] == subs[1..];
        assert str == [str[0]] + str[1..];
        assert Fill(pattern, subs') == [str[0]] + Fill(pattern, subs);
        assert Filled(str, pattern, subs');
      }
    }
  }

  /** The matcher decides exactly the declarative relation, without slicing out of range,
      and ends because the two remaining lengths together shrink. */
  method DeepMatchRune(str0: string, pattern0: string) returns (r: bool)
    ensures r <==> Matches(str0, pattern0)
    decreases |str0| + |pattern0|
  {
    var str, pattern := str0, pattern0;
    while |pattern| > 0
      invariant |str| + |pattern| <= |str0| + |pattern0|
      invariant Matches(str, pattern) <==> Matches(str0, pattern0)
      decreases |pattern|
    {
      if pattern[0] == '*' {
        MatchesStar(str, pattern);
        var skip := DeepMatchRune(str, pattern[1..]);
        if skip {
          return true;
        }
        if |str| > 0 {
          var take := DeepMatchRune(str[1..], pattern);
          return take;
        }
        return false;
      }
      MatchesLiteral(str, pattern);
      if |str| == 0 || str[0] != pattern[0] {
        return false;
      }
      str, pattern := str[1..], pattern[1..];
    }
    MatchesEmpty(str);
    return |str| == 0 && |pattern| == 0;
  }
}
