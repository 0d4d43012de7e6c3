/** The text form of settings and padding schemes: one `key=value` line per entry. */
module StringMap {
  import opened Text

  type StrMap = map<string, string>

  function Elements(order: seq<string>): set<string> {
    if order == [] then {} else Elements(order[..|order| - 1]) + {order[|order| - 1]}
  }

  /** Some order in which the entries of a map may be visited. */
  ghost predicate Enumerates(order: seq<string>, m: StrMap) {
    && m.Keys == Elements(order)
    && (forall i :: 0 <= i < |order| ==> order[i] in m)
    && (forall i, j :: 0 <= i < j < |order| ==> order[i] != order[j])
  }

  function Line(m: StrMap, k: string): string
    requires k in m
  {
    k + "=" + m[k]
  }

  function Lines(m: StrMap, order: seq<string>): seq<string>
    requires forall i :: 0 <= i < |order| ==> order[i] in m
  {
    seq(|order|, i requires 0 <= i < |order| => Line(m, order[i]))
  }

  /** The entries of the first `i` lines; a later line overrides an earlier one. */
  function Entries(lines: seq<string>, i: nat): StrMap
    requires i <= |lines|
  {
    if i == 0 then map[]
    else
      var m := Entries(lines, i - 1);
      match CutAt(lines[i - 1], '=')
      case None => m
      case Some((k, v)) => m[k := v]
  }

  function Decode(b: string): StrMap {
    var lines := Split(b, '\n'); Entries(lines, |lines|)
  }

  method ToBytes(m: StrMap, order: seq<string>) returns (b: string)
    requires Enumerates(order, m)
    ensures b == Join(Lines(m, order), '\n')
  {
    var lines: seq<string> := [];
    for i := 0 to |order|
      invariant lines == Lines(m, order)[..i]
    {
      lines := lines + [order[i] + "=" + m[order[i]]];
    }
    assert Lines(m, order)[..|order|] == Lines(m, order);
    b := Join(lines, '\n');
  }

  method FromBytes(b: string) returns (m: StrMap)
    ensures m == Decode(b)
  {
    var lines := Split(b, '\n');
    m := map[];
    for i := 0 to |lines|
      invariant m == Entries(lines, i)
    {
      var v := CutAt(lines[i], '=');
      if v.Some? {
        m := m[v.value.0 := v.value.1];
      }
    }
  }

  /** The maps that survive the trip. */
  ghost predicate Clean(m: StrMap) {
    forall k :: k in m ==> '=' !in k && '\n' !in k && '\n' !in m[k]
  }

  lemma {:induction false} EntriesClean(lines: seq<string>, i: nat)
    requires i <= |lines| && Free(lines, '\n')
    ensures Clean(Entries(lines, i))
  {
    if i == 0 {
    } else {
      EntriesClean(lines, i - 1);
      if CutAt(lines[i - 1], '=').Some? { CutAtParts(lines[i - 1], '='); }
    }
  }

  /** Whatever the bytes, the decoded map is clean. */
  lemma DecodedIsClean(b: string)
    ensures Clean(Decode(b))
  {
    SplitIsFree(b, '\n');
    EntriesClean(Split(b, '\n'), |Split(b, '\n')|);
  }

  /** Line `j` is the last one for key `k`, and gives it value `v`. */
  predicate LastLine(lines: seq<string>, i: int, j: int, k: string, v: string) {
    && 0 <= j < i <= |lines| && CutAt(lines[j], '=') == Some((k, v))
    && forall l :: j < l < i ==> CutAt(lines[l], '=').None? || CutAt(lines[l], '=').value.0 != k
  }

  /** Decoding takes the lines with an equals sign, splits each at the first, and lets a later line
      for a key override an earlier one. */
  lemma {:induction false} EntriesAre(lines: seq<string>, i: nat, k: string)
    requires i <= |lines|
    ensures k in Entries(lines, i) ==> exists j :: LastLine(lines, i, j, k, Entries(lines, i)[k])
    ensures forall j, v :: LastLine(lines, i, j, k, v) ==> k in Entries(lines, i) && Entries(lines, i)[k] == v
  {
    if i == 0 {
    } else {
      EntriesAre(lines, i - 1, k);
      var cut := CutAt(lines[i - 1], '=');
      if cut.Some? && cut.value.0 == k {
        assert LastLine(lines, i, i - 1, k, cut.value.1);
      } else {
        forall j, v ensures LastLine(lines, i, j, k, v) <==> LastLine(lines, i - 1, j, k, v) {
        }
        if k in Entries(lines, i) {
          var v := Entries(lines, i)[k];
          var j :| LastLine(lines, i - 1, j, k, v);
          assert LastLine(lines, i, j, k, v);
        }
      }
    }
  }

  lemma LineCuts(m: StrMap, k: string)
    requires k in m && '=' !in k
    ensures CutAt(Line(m, k), '=') == Some((k, m[k]))
  {
    CutAtFirst(k, m[k], '=');
    assert k + "=" + m[k] == k + ['='] + m[k];
  }

  lemma EntriesStep(lines: seq<string>, i: nat, line: string, k: string, v: string)
    requires 0 < i <= |lines| && lines[i - 1] == line && CutAt(line, '=') == Some((k, v))
    ensures Entries(lines, i) == Entries(lines, i - 1)[k := v]
  {
  }

  lemma {:induction false} EntriesOfLines(m: StrMap, order: seq<string>, i: nat)
    requires Enumerates(order, m) && Clean(m) && i <= |order|
    ensures Entries(Lines(m, order), i).Keys == Elements(order[..i])
    ensures forall k :: k in Entries(Lines(m, order), i) ==> k in m && Entries(Lines(m, order), i)[k] == m[k]
  {
    if i == 0 {
    } else {
      EntriesOfLines(m, order, i - 1);
      var k := order[i - 1];
      LineCuts(m, k);
      EntriesStep(Lines(m, order), i, Line(m, k), k, m[k]);
      assert order[..i][..i - 1] == order[..i - 1];
    }
  }

  lemma CleanLines(m: StrMap, order: seq<string>)
    requires Enumerates(order, m) && Clean(m)
    ensures Free(Lines(m, order), '\n')
  {
    forall i | 0 <= i < |order| ensures '\n' !in Line(m, order[i]) {
    }
  }

  /** Encoding and decoding gives back the map exactly when no key contains "=" or a line
      break and no value contains a line break, whatever the order of the entries. */
  lemma RoundTripExactlyWhenClean(m: StrMap, order: seq<string>)
    requires Enumerates(order, m)
    ensures Decode(Join(Lines(m, order), '\n')) == m <==> Clean(m)
  {
    DecodedIsClean(Join(Lines(m, order), '\n'));
    if Clean(m) {
      var lines := Lines(m, order);
      if order == [] {
        assert m == map[];
        assert Split("", '\n') == [[]];
        assert Entries([[]], 1) == Entries([[]], 0);
      } else {
        CleanLines(m, order);
        SplitJoin(lines, '\n');
        EntriesOfLines(m, order, |order|);
        assert order[..|order|] == order;
      }
    }
  }
}
