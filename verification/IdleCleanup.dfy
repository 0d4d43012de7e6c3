/** The periodic cleanup of the client's idle sessions. The pool is a skip list with the
    key `MaxUint64 - seq`, so it is walked from the newest session to the oldest. */
module IdleCleanup {

  const MAX_UINT64: nat := 0xffff_ffff_ffff_ffff

  type Seq = n: int | 0 <= n <= MAX_UINT64

  datatype Idle = Idle(number: Seq, since: int)

  function Key(n: Seq): Seq {
    MAX_UINT64 - n
  }

  /** The skip list: strictly ascending keys. */
  ghost predicate Ordered(list: seq<Idle>) {
    forall i, j :: 0 <= i < j < |list| ==> Key(list[i].number) < Key(list[j].number)
  }

  function Numbers(list: seq<Idle>): set<Seq> {
    if list == [] then {} else Numbers(list[..|list| - 1]) + {list[|list| - 1].number}
  }

  /** How many pooled sessions are newer than number `n`. */
  function Newer(list: seq<Idle>, n: Seq): nat {
    |NewerThan(list, n)|
  }

  function NewerThan(list: seq<Idle>, n: Seq): set<Seq> {
    set x | x in Numbers(list) && x > n
  }

  /** The rule the cleanup is to implement: an expired session goes unless it is among the
      `keep` newest of the pool. */
  ghost predicate Goes(list: seq<Idle>, x: Idle, expiry: int, keep: int) {
    x.since < expiry && Newer(list, x.number) >= keep
  }

  /** The walk by position: the session at `j` goes if it is expired and not among the first
      `keep`; an expired one that stays gets a new idle time. */
  predicate Dropped(list: seq<Idle>, j: nat, expiry: int, keep: int)
    requires j < |list|
  {
    list[j].since < expiry && j >= keep
  }

  function Refreshed(x: Idle, j: nat, expiry: int, clock: nat -> int): Idle {
    if x.since < expiry then x.(since := clock(j)) else x
  }

  function Victims(list: seq<Idle>, i: nat, expiry: int, keep: int): seq<Idle>
    requires i <= |list|
  {
    if i == 0 then []
    else Victims(list, i - 1, expiry, keep) + if Dropped(list, i - 1, expiry, keep) then [list[i - 1]] else []
  }

  function Survivors(list: seq<Idle>, i: nat, expiry: int, keep: int, clock: nat -> int): seq<Idle>
    requires i <= |list|
  {
    if i == 0 then []
    else Survivors(list, i - 1, expiry, keep, clock)
         + if Dropped(list, i - 1, expiry, keep) then [] else [Refreshed(list[i - 1], i - 1, expiry, clock)]
  }

  /** In the middle of the walk over `before`: `i` sessions have been seen, `kept` of them are
      still there, and `closed` are not. */
  ghost predicate Walked(list: seq<Idle>, before: seq<Idle>, i: nat, kept: seq<Idle>, closed: seq<Idle>,
                         expiry: int, keep: int, clock: nat -> int) {
    && i <= |before| && list == kept + before[i..]
    && kept == Survivors(before, i, expiry, keep, clock) && closed == Victims(before, i, expiry, keep)
    && (if i <= keep then |kept| == i else |kept| >= keep)
  }

  lemma WalkAt(kept: seq<Idle>, before: seq<Idle>, i: nat)
    requires i < |before|
    ensures (kept + before[i..])[|kept|] == before[i]
    ensures kept + before[i..] == (kept + [before[i]]) + before[i + 1..]
  {
  }

  lemma WalkKeeps(list: seq<Idle>, before: seq<Idle>, i: nat, kept: seq<Idle>, closed: seq<Idle>,
                  expiry: int, keep: int, clock: nat -> int, x: Idle)
    requires Walked(list, before, i, kept, closed, expiry, keep, clock) && i < |before|
    requires before[i].since >= expiry || |kept| < keep
    requires x == Refreshed(before[i], i, expiry, clock)
    ensures Walked(list[|kept| := x], before, i + 1, kept + [x], closed, expiry, keep, clock)
  {
    WalkAt(kept, before, i);
    assert list[|kept| := x] == (kept + [x]) + before[i + 1..];
  }

  lemma WalkDrops(list: seq<Idle>, before: seq<Idle>, i: nat, kept: seq<Idle>, closed: seq<Idle>,
                  expiry: int, keep: int, clock: nat -> int)
    requires Walked(list, before, i, kept, closed, expiry, keep, clock) && i < |before|
    requires before[i].since < expiry && |kept| >= keep
    ensures Walked(list[..|kept|] + list[|kept| + 1..], before, i + 1, kept, closed + [before[i]], expiry, keep, clock)
  {
    WalkAt(kept, before, i);
    assert list[..|kept|] + list[|kept| + 1..] == kept + before[i + 1..];
  }

  class Pool {
    var list: seq<Idle>

    constructor ()
      ensures list == []
    {
      list := [];
    }

    /** One pass: removes while walking. `clock(i)` is the time read at the i-th session. */
    method Cleanup(expiry: int, keep: int, clock: nat -> int) returns (closed: seq<Idle>)
      modifies this
      ensures closed == Victims(old(list), |old(list)|, expiry, keep)
      ensures list == Survivors(old(list), |old(list)|, expiry, keep, clock)
    {
      var activeCount, at, i := 0, 0, 0;
      closed := [];
      ghost var before: seq<Idle>, kept: seq<Idle> := list, [];
      while at < |list|
        invariant Walked(list, before, i, kept, closed, expiry, keep, clock)
        invariant |kept| == at == activeCount
        decreases |before| - i
      {
        var session := list[at];
        WalkAt(kept, before, i);
        if session.since >= expiry {
          WalkKeeps(list, before, i, kept, closed, expiry, keep, clock, session);
          assert list[at := session] == list;
          activeCount, at, kept := activeCount + 1, at + 1, kept + [session];
        } else if activeCount < keep {
          session := session.(since := clock(i));
          WalkKeeps(list, before, i, kept, closed, expiry, keep, clock, session);
          list := list[at := session];
          activeCount, at, kept := activeCount + 1, at + 1, kept + [session];
        } else {
          WalkDrops(list, before, i, kept, closed, expiry, keep, clock);
          closed := closed + [session];
          list := list[..at] + list[at + 1..];
        }
        i := i + 1;
      }
      assert i == |before|;
    }
  }

  // ---------- positions are ranks ----------

  lemma {:induction false} NumbersAre(list: seq<Idle>, n: Seq)
    ensures n in Numbers(list) <==> exists i :: 0 <= i < |list| && list[i].number == n
  {
    if list == [] {
    } else {
      var front := list[..|list| - 1];
      NumbersAre(front, n);
      if i :| 0 <= i < |front| && front[i].number == n {
        assert list[i].number == n;
      }
      if i :| 0 <= i < |list| && list[i].number == n {
        assert i < |front| ==> front[i].number == n;
      }
    }
  }

  lemma NumbersAppend(list: seq<Idle>, x: Idle)
    ensures Numbers(list + [x]) == Numbers(list) + {x.number}
  {
    assert (list + [x])[..|list|] == list;
  }

  lemma {:induction false} PrefixSize(list: seq<Idle>, j: nat)
    requires Ordered(list) && j <= |list|
    ensures |Numbers(list[..j])| == j
  {
    if j == 0 {
    } else {
      PrefixSize(list, j - 1);
      assert list[..j] == list[..j - 1] + [list[j - 1]];
      NumbersAppend(list[..j - 1], list[j - 1]);
      EarlierIsNewer(list, j - 1);
    }
  }

  /** Before position `j` are only newer sessions. */
  lemma EarlierIsNewer(list: seq<Idle>, j: nat)
    requires Ordered(list) && j < |list|
    ensures forall n :: n in Numbers(list[..j]) ==> n > list[j].number
  {
    forall n | n in Numbers(list[..j]) ensures n > list[j].number {
      NumbersAre(list[..j], n);
      var i :| 0 <= i < j && list[..j][i].number == n;
      assert Key(list[i].number) < Key(list[j].number);
    }
  }

  /** In the skip list the session at position `j` has exactly `j` newer ones. */
  lemma PositionIsRank(list: seq<Idle>, j: nat)
    requires Ordered(list) && j < |list|
    ensures Newer(list, list[j].number) == j
  {
    var n := list[j].number;
    EarlierIsNewer(list, j);
    forall x: Seq ensures x in NewerThan(list, n) <==> x in Numbers(list[..j]) {
      NumbersAre(list, x);
      NumbersAre(list[..j], x);
      if i :| 0 <= i < |list| && list[i].number == x && x > n {
        assert Key(x) < Key(n);
        assert i < j && list[..j][i].number == x;
      }
      if i :| 0 <= i < j && list[..j][i].number == x {
        assert list[i].number == x;
      }
    }
    assert NewerThan(list, n) == Numbers(list[..j]);
    PrefixSize(list, j);
  }

  // ---------- the exact set ----------

  lemma {:induction false} VictimsAre(list: seq<Idle>, i: nat, expiry: int, keep: int, x: Idle)
    requires i <= |list|
    ensures x in Victims(list, i, expiry, keep) <==>
            exists j :: 0 <= j < i && list[j] == x && Dropped(list, j, expiry, keep)
  {
    if i == 0 {
    } else {
      VictimsAre(list, i - 1, expiry, keep, x);
      if Dropped(list, i - 1, expiry, keep) && list[i - 1] == x {
        assert x in [list[i - 1]];
      }
    }
  }

  /** `x` is what the walk leaves of the session at `j`. */
  predicate LeftAt(list: seq<Idle>, j: int, expiry: int, keep: int, clock: nat -> int, x: Idle) {
    0 <= j < |list| && Refreshed(list[j], j, expiry, clock) == x && !Dropped(list, j, expiry, keep)
  }

  lemma {:induction false} SurvivorsAre(list: seq<Idle>, i: nat, expiry: int, keep: int, clock: nat -> int, x: Idle)
    requires i <= |list|
    ensures x in Survivors(list, i, expiry, keep, clock) <==>
            exists j :: 0 <= j < i && LeftAt(list, j, expiry, keep, clock, x)
  {
    if i == 0 {
    } else {
      SurvivorsAre(list, i - 1, expiry, keep, clock, x);
      var front, y := Survivors(list, i - 1, expiry, keep, clock), Refreshed(list[i - 1], i - 1, expiry, clock);
      if Dropped(list, i - 1, expiry, keep) {
        assert Survivors(list, i, expiry, keep, clock) == front;
      } else {
        assert Survivors(list, i, expiry, keep, clock) == front + [y];
        assert x in front + [y] <==> x in front || x == y;
        assert x == y <==> LeftAt(list, i - 1, expiry, keep, clock, x);
      }
    }
  }

  /** The cleanup closes precisely the sessions that are expired and not among the `keep`
      newest of the pool. */
  lemma CleanupClosesExactly(list: seq<Idle>, expiry: int, keep: int, x: Idle)
    requires Ordered(list)
    ensures x in Victims(list, |list|, expiry, keep) <==> x in list && Goes(list, x, expiry, keep)
  {
    VictimsAre(list, |list|, expiry, keep, x);
    forall j: nat | j < |list| ensures Goes(list, list[j], expiry, keep) <==> Dropped(list, j, expiry, keep) {
      PositionIsRank(list, j);
    }
  }

  /** It keeps all others, and gives a new idle time to exactly the expired ones among them. */
  lemma CleanupKeepsExactly(list: seq<Idle>, expiry: int, keep: int, clock: nat -> int, x: Idle)
    requires Ordered(list)
    ensures x in Survivors(list, |list|, expiry, keep, clock) <==>
            exists j :: 0 <= j < |list| && !Goes(list, list[j], expiry, keep) && x.number == list[j].number
                        && x.since == if list[j].since < expiry then clock(j) else list[j].since
  {
    SurvivorsAre(list, |list|, expiry, keep, clock, x);
    forall j: nat | j < |list|
      ensures LeftAt(list, j, expiry, keep, clock, x) <==>
              && !Goes(list, list[j], expiry, keep) && x.number == list[j].number
              && x.since == if list[j].since < expiry then clock(j) else list[j].since
    {
      PositionIsRank(list, j);
    }
  }

  /** The pool stays a skip list, and every session is either kept or closed. */
  lemma {:induction false} CleanupKeepsOrder(list: seq<Idle>, i: nat, expiry: int, keep: int, clock: nat -> int)
    requires Ordered(list) && i <= |list|
    ensures Ordered(Survivors(list, i, expiry, keep, clock))
    ensures forall k :: 0 <= k < |Survivors(list, i, expiry, keep, clock)| ==>
                          Survivors(list, i, expiry, keep, clock)[k].number in Numbers(list[..i])
    ensures |Survivors(list, i, expiry, keep, clock)| + |Victims(list, i, expiry, keep)| == i
  {
    if i == 0 {
    } else {
      CleanupKeepsOrder(list, i - 1, expiry, keep, clock);
      assert list[..i] == list[..i - 1] + [list[i - 1]];
      NumbersAppend(list[..i - 1], list[i - 1]);
      EarlierIsNewer(list, i - 1);
    }
  }
}
