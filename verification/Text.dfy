/** Splitting and joining text at a separator character, as `strings.Split` and
    `strings.Join` do. */
module Text {

  datatype Option<+T> = None | Some(value: T)

  function Split(s: string, c: char): (parts: seq<string>)
    ensures |parts| >= 1
  {
    if s == [] then [[]]
    else
      var later := Split(s[1..], c);
      if s[0] == c then [[]] + later else [[s[0]] + later[0]] + later[1..]
  }

  function Join(parts: seq<string>, c: char): string {
    if parts == [] then []
    else if |parts| == 1 then parts[0]
    else parts[0] + [c] + Join(parts[1..], c)
  }

  /** `strings.SplitN(s, c, 2)` when it yields two parts. */
  function CutAt(s: string, c: char): Option<(string, string)> {
    if s == [] then None
    else if s[0] == c then Some(([], s[1..]))
    else
      match CutAt(s[1..], c)
      case None => None
      case Some((a, b)) => Some(([s[0]] + a, b))
  }

  lemma {:induction false} SplitPlain(s: string, c: char)
    requires c !in s
    ensures Split(s, c) == [s]
  {
    if s == [] {
    } else {
      assert c !in s[1..];
      SplitPlain(s[1..], c);
      assert [s[0]] + s[1..] == s;
    }
  }

  lemma {:induction false} SplitFirst(a: string, b: string, c: char)
    requires c !in a
    ensures Split(a + [c] + b, c) == [a] + Split(b, c)
  {
    var s := a + [c] + b;
    if a == [] {
      assert s[1..] == b;
    } else {
      assert s[1..] == a[1..] + [c] + b;
      SplitFirst(a[1..], b, c);
      assert [a[0]] + a[1..] == a;
    }
  }

  ghost predicate Free(parts: seq<string>, c: char) {
    forall i :: 0 <= i < |parts| ==> c !in parts[i]
  }

  /** Splitting what was joined gives back the parts, if none contains the separator. */
  lemma {:induction false} SplitJoin(parts: seq<string>, c: char)
    requires parts != [] && Free(parts, c)
    ensures Split(Join(parts, c), c) == parts
  {
    if |parts| == 1 {
      SplitPlain(parts[0], c);
    } else {
      SplitFirst(parts[0], Join(parts[1..], c), c);
      SplitJoin(parts[1..], c);
    }
  }

  /** Joining what was split gives back the text. */
  lemma {:induction false} JoinSplit(s: string, c: char)
    ensures Join(Split(s, c), c) == s
  {
    if s == [] {
    } else {
      var later := Split(s[1..], c);
      JoinSplit(s[1..], c);
      if s[0] == c {
        assert ([[]] + later)[1..] == later;
        assert Join([[]] + later, c) == [] + [c] + Join(later, c);
      } else {
        JoinCons(s[0], later, c);
      }
    }
  }

  lemma JoinCons(x: char, parts: seq<string>, c: char)
    requires parts != []
    ensures Join([[x] + parts[0]] + parts[1..], c) == [x] + Join(parts, c)
  {
    var all := [[x] + parts[0]] + parts[1..];
    if |parts| > 1 {
      assert all[1..] == parts[1..];
      assert [x] + parts[0] + [c] + Join(parts[1..], c) == [x] + (parts[0] + [c] + Join(parts[1..], c));
    }
  }

  /** No part of a split contains the separator. */
  lemma {:induction false} SplitIsFree(s: string, c: char)
    ensures Free(Split(s, c), c)
  {
    if s == [] {
    } else {
      SplitIsFree(s[1..], c);
    }
  }

  lemma {:induction false} CutAtFirst(a: string, b: string, c: char)
    requires c !in a
    ensures CutAt(a + [c] + b, c) == Some((a, b))
  {
    var s := a + [c] + b;
    if a == [] {
      assert s[1..] == b;
    } else {
      assert s[1..] == a[1..] + [c] + b;
      CutAtFirst(a[1..], b, c);
      assert [a[0]] + a[1..] == a;
    }
  }

  lemma {:induction false} CutAtParts(s: string, c: char)
    requires CutAt(s, c).Some?
    ensures var (a, b) := CutAt(s, c).value; c !in a && s == a + [c] + b
  {
    if s[0] != c {
      CutAtParts(s[1..], c);
    }
  }

  /** A text after the last separator can be told apart from what precedes it. */
  lemma AfterLast(a: string, t: string, a': string, t': string, c: char)
    requires c !in t && c !in t' && a + [c] + t == a' + [c] + t'
    ensures a == a' && t == t'
  {
    var s := a + [c] + t;
    assert s[|a|] == c && s[|a'|] == c;
    assert s[|a| + 1..] == t && s[|a'| + 1..] == t';
    forall i | |a| < i < |s| ensures s[i] != c {
      assert s[i] == t[i - |a| - 1];
    }
    forall i | |a'| < i < |s| ensures s[i] != c {
      assert s[i] == t'[i - |a'| - 1];
    }
    assert s[..|a|] == a && s[..|a'|] == a';
  }
}
