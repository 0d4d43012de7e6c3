/** Sorting by a numeric key. */
module Sorting {

  ghost predicate Sorted<T>(s: seq<T>, key: T -> nat) {
    forall i, j :: 0 <= i < j < |s| ==> key(s[i]) <= key(s[j])
  }

  ghost predicate IsSortOf<T>(s: seq<T>, unsorted: seq<T>, key: T -> nat) {
    multiset(s) == multiset(unsorted) && Sorted(s, key)
  }

  function Insert<T>(x: T, s: seq<T>, key: T -> nat): seq<T> {
    if s == [] then [x]
    else if key(s[|s| - 1]) <= key(x) then s + [x]
    else Insert(x, s[..|s| - 1], key) + [s[|s| - 1]]
  }

  lemma {:induction false} InsertAdds<T>(x: T, s: seq<T>, key: T -> nat)
    ensures multiset(Insert(x, s, key)) == multiset(s) + multiset{x}
  {
    if s != [] && key(s[|s| - 1]) > key(x) {
      InsertAdds(x, s[..|s| - 1], key);
      assert s == s[..|s| - 1] + [s[|s| - 1]];
    }
  }

  lemma {:induction false} InsertSorts<T>(x: T, s: seq<T>, key: T -> nat, bound: nat)
    requires Sorted(s, key) && key(x) <= bound && forall i :: 0 <= i < |s| ==> key(s[i]) <= bound
    ensures Sorted(Insert(x, s, key), key)
    ensures forall i :: 0 <= i < |Insert(x, s, key)| ==> key(Insert(x, s, key)[i]) <= bound
  {
    if s != [] && key(s[|s| - 1]) > key(x) {
      InsertSorts(x, s[..|s| - 1], key, key(s[|s| - 1]));
    }
  }

  function Sort<T>(s: seq<T>, key: T -> nat): seq<T> {
    if s == [] then [] else Insert(s[|s| - 1], Sort(s[..|s| - 1], key), key)
  }

  lemma {:induction false} SortSorts<T>(s: seq<T>, key: T -> nat)
    ensures IsSortOf(Sort(s, key), s, key)
  {
    if s == [] {
    } else {
      var x, front := s[|s| - 1], Sort(s[..|s| - 1], key);
      SortSorts(s[..|s| - 1], key);
      InsertAdds(x, front, key);
      assert s == s[..|s| - 1] + [x];
      var top := if front == [] || key(front[|front| - 1]) < key(x) then key(x) else key(front[|front| - 1]);
      InsertSorts(x, front, key, top);
    }
  }

  lemma SameElements<T>(s: seq<T>, unsorted: seq<T>, key: T -> nat, x: T)
    requires IsSortOf(s, unsorted, key)
    ensures x in s <==> x in unsorted
  {
    assert x in s <==> x in multiset(s);
    assert x in unsorted <==> x in multiset(unsorted);
  }
}
