/** The few SQL statements that the indexer's tables are built with: SELECT .. WHERE epoch = ? GROUP BY,
    INSERT IGNORE under a unique key (epoch, name), and sums. Tables without a unique key are sequences of
    rows; tables with one are maps from the key. */
module Sql {
  import opened Bytes

  /** SELECT key, SUM(val) FROM rows WHERE epoch = ? GROUP BY key. COUNT is the sum of ones. */
  datatype Query<!R> = Query(epochOf: R -> nat, key: R -> Str, val: R -> int)
  {
    predicate Selects(r: R, e: nat, k: Str) {
      epochOf(r) == e && key(r) == k
    }
  }

  /** Sum of val over the first n rows in group (e, k). */
  function TotalTo<R>(rows: seq<R>, q: Query<R>, e: nat, k: Str, n: nat): int
    requires n <= |rows|
  {
    if n == 0 then 0
    else TotalTo(rows, q, e, k, n - 1) + if q.Selects(rows[n - 1], e, k) then q.val(rows[n - 1]) else 0
  }

  function Total<R>(rows: seq<R>, q: Query<R>, e: nat, k: Str): int {
    TotalTo(rows, q, e, k, |rows|)
  }

  function KeysTo<R>(rows: seq<R>, q: Query<R>, e: nat, n: nat): set<Str>
    requires n <= |rows|
  {
    set i | 0 <= i < n && q.epochOf(rows[i]) == e :: q.key(rows[i])
  }

  /** The groups that the query returns for epoch e. */
  function Keys<R>(rows: seq<R>, q: Query<R>, e: nat): set<Str> {
    KeysTo(rows, q, e, |rows|)
  }

  function Groups<R>(rows: seq<R>, q: Query<R>, e: nat): map<Str, int> {
    map k | k in Keys(rows, q, e) :: Total(rows, q, e, k)
  }

  /** Runs the query in one pass over the table. */
  method GroupBy<R>(rows: seq<R>, q: Query<R>, e: nat) returns (m: map<Str, int>)
    ensures m == Groups(rows, q, e)
  {
    m := map[];
    for i := 0 to |rows|
      invariant m.Keys == KeysTo(rows, q, e, i)
      invariant forall k :: k in m ==> m[k] == TotalTo(rows, q, e, k, i)
      invariant forall k :: k !in m ==> TotalTo(rows, q, e, k, i) == 0
    {
      var r := rows[i];
      KeysStep(rows, q, e, i);
      if q.epochOf(r) == e {
        var k := q.key(r);
        m := m[k := (if k in m then m[k] else 0) + q.val(r)];
      }
    }
  }

  lemma KeysStep<R>(rows: seq<R>, q: Query<R>, e: nat, n: nat)
    requires n < |rows|
    ensures KeysTo(rows, q, e, n + 1)
            == KeysTo(rows, q, e, n) + if q.epochOf(rows[n]) == e then {q.key(rows[n])} else {}
  {}

  /** A group without rows sums to 0. */
  lemma {:induction false} TotalOfNone<R>(rows: seq<R>, q: Query<R>, e: nat, k: Str, n: nat)
    requires n <= |rows| && k !in KeysTo(rows, q, e, n)
    ensures TotalTo(rows, q, e, k, n) == 0
  {
    if n > 0 {
      KeysStep(rows, q, e, n - 1);
      TotalOfNone(rows, q, e, k, n - 1);
    }
  }

  /* ---------- appending rows ---------- */

  lemma {:induction false} TotalOfPrefix<R>(rows: seq<R>, added: seq<R>, q: Query<R>, e: nat, k: Str, n: nat)
    requires n <= |rows|
    ensures TotalTo(rows + added, q, e, k, n) == TotalTo(rows, q, e, k, n)
  {
    if n > 0 { TotalOfPrefix(rows, added, q, e, k, n - 1); }
  }

  /** Rows of other epochs change neither the groups nor the sums of epoch e. */
  lemma {:induction false} AppendElsewhere<R>(rows: seq<R>, added: seq<R>, q: Query<R>, e: nat, k: Str)
    requires forall i :: 0 <= i < |added| ==> q.epochOf(added[i]) != e
    ensures Total(rows + added, q, e, k) == Total(rows, q, e, k)
    ensures Keys(rows + added, q, e) == Keys(rows, q, e)
    decreases |added|
  {
    if added == [] {
      assert rows + added == rows;
    } else {
      var n := |added| - 1;
      var most := rows + added[..n];
      AppendElsewhere(rows, added[..n], q, e, k);
      assert rows + added == most + [added[n]];
      TotalOfPrefix(most, [added[n]], q, e, k, |most|);
      KeysOfAppended(most, added[n], q, e);
    }
  }

  lemma {:induction false} TotalConcat<R>(rows: seq<R>, added: seq<R>, q: Query<R>, e: nat, k: Str, n: nat)
    requires n <= |added|
    ensures TotalTo(rows + added, q, e, k, |rows| + n) == Total(rows, q, e, k) + TotalTo(added, q, e, k, n)
  {
    if n == 0 {
      TotalOfPrefix(rows, added, q, e, k, |rows|);
    } else {
      TotalConcat(rows, added, q, e, k, n - 1);
    }
  }

  lemma KeysOfAppended<R>(rows: seq<R>, r: R, q: Query<R>, e: nat)
    ensures Keys(rows + [r], q, e) == Keys(rows, q, e) + if q.epochOf(r) == e then {q.key(r)} else {}
  {
    var all := rows + [r];
    KeysStep(all, q, e, |rows|);
    forall k ensures k in KeysTo(all, q, e, |rows|) <==> k in Keys(rows, q, e) {
      if k in Keys(rows, q, e) {
        var i :| 0 <= i < |rows| && q.Selects(rows[i], e, k);
        assert q.Selects(all[i], e, k);
      }
    }
  }

  lemma KeysConcat<R>(rows: seq<R>, added: seq<R>, q: Query<R>, e: nat)
    ensures Keys(rows + added, q, e) == Keys(rows, q, e) + Keys(added, q, e)
  {
    var all := rows + added;
    forall k | k in Keys(rows, q, e) ensures k in Keys(all, q, e) {
      var i :| 0 <= i < |rows| && q.Selects(rows[i], e, k);
      assert q.Selects(all[i], e, k);
    }
    forall k | k in Keys(added, q, e) ensures k in Keys(all, q, e) {
      var i :| 0 <= i < |added| && q.Selects(added[i], e, k);
      assert q.Selects(all[|rows| + i], e, k);
    }
  }

  /* ---------- INSERT IGNORE ---------- */

  /** IFNULL(value, 0) of a joined row. */
  function OrZero(t: map<(nat, Str), int>, p: (nat, Str)): int {
    if p in t then t[p] else 0
  }

  /** The names that have a row for epoch e. */
  function NamesAt<V>(t: map<(nat, Str), V>, e: nat): (s: set<Str>)
    ensures forall a :: a in s <==> (e, a) in t
  {
    set p | p in t.Keys && p.0 == e :: p.1
  }

  /** INSERT IGNORE of rows (e, k) under the unique key (epoch, name): rows whose key is taken are dropped. */
  function InsertIgnore<V>(t: map<(nat, Str), V>, e: nat, rows: map<Str, V>): (t': map<(nat, Str), V>)
    ensures forall p :: p in t' <==> p in t || (p.0 == e && p.1 in rows)
    ensures forall p :: p in t' ==> t'[p] == if p in t then t[p] else rows[p.1]
  {
    map p | p in t.Keys + set k | k in rows.Keys :: (e, k) :: if p in t then t[p] else rows[p.1]
  }

  /** The table holds exactly the groups of epochs 1 to closed - 1, each with the sum over all its rows. */
  ghost predicate Materialised<R>(t: map<(nat, Str), int>, rows: seq<R>, q: Query<R>, closed: nat) {
    forall p: (nat, Str) ::
      && (p in t <==> 1 <= p.0 < closed && p.1 in Keys(rows, q, p.0))
      && (p in t ==> t[p] == Total(rows, q, p.0, p.1))
  }

  /** Closing epoch e extends the table by that epoch. */
  lemma MaterialisedClose<R>(t: map<(nat, Str), int>, rows: seq<R>, q: Query<R>, e: nat)
    requires e >= 1 && Materialised(t, rows, q, e)
    ensures Materialised(InsertIgnore(t, e, Groups(rows, q, e)), rows, q, e + 1)
  {}

  /** Rows of the open epoch, or later, leave the closed epochs as they are. */
  lemma MaterialisedAppend<R>(t: map<(nat, Str), int>, rows: seq<R>, added: seq<R>, q: Query<R>, closed: nat)
    requires Materialised(t, rows, q, closed)
    requires forall i :: 0 <= i < |added| ==> q.epochOf(added[i]) >= closed
    ensures Materialised(t, rows + added, q, closed)
  {
    forall p: (nat, Str) | 1 <= p.0 < closed
      ensures Total(rows + added, q, p.0, p.1) == Total(rows, q, p.0, p.1)
      ensures Keys(rows + added, q, p.0) == Keys(rows, q, p.0)
    {
      AppendElsewhere(rows, added, q, p.0, p.1);
    }
  }

  /* ---------- sums over sets ---------- */

  ghost function SumSet<T>(s: set<T>, f: T -> int): int {
    if s == {} then 0 else
    var x :| x in s;
    f(x) + SumSet(s - {x}, f)
  }

  /** The sum does not depend on the order in which elements are picked. */
  lemma {:induction false} SumSetPick<T>(s: set<T>, f: T -> int, x: T)
    requires x in s
    ensures SumSet(s, f) == f(x) + SumSet(s - {x}, f)
    decreases s
  {
    var y :| y in s && SumSet(s, f) == f(y) + SumSet(s - {y}, f);
    if x != y {
      SumSetPick(s - {y}, f, x);
      SumSetPick(s - {x}, f, y);
      assert s - {y} - {x} == s - {x} - {y};
    }
  }

  lemma SumSetAdd<T>(s: set<T>, f: T -> int, x: T)
    requires x !in s
    ensures SumSet(s + {x}, f) == SumSet(s, f) + f(x)
  {
    SumSetPick(s + {x}, f, x);
    assert s + {x} - {x} == s;
  }

  lemma {:induction false} SumSetEqual<T>(s: set<T>, f: T -> int, g: T -> int)
    requires forall x :: x in s ==> f(x) == g(x)
    ensures SumSet(s, f) == SumSet(s, g)
    decreases s
  {
    if s != {} {
      var x :| x in s;
      SumSetPick(s, f, x);
      SumSetPick(s, g, x);
      SumSetEqual(s - {x}, f, g);
    }
  }

  lemma {:induction false} SumSetPlus<T>(s: set<T>, f: T -> int, g: T -> int, h: T -> int)
    requires forall x :: x in s ==> h(x) == f(x) + g(x)
    ensures SumSet(s, h) == SumSet(s, f) + SumSet(s, g)
    decreases s
  {
    if s != {} {
      var x :| x in s;
      SumSetPick(s, f, x);
      SumSetPick(s, g, x);
      SumSetPick(s, h, x);
      SumSetPlus(s - {x}, f, g, h);
    }
  }

  lemma {:induction false} SumSetAtMost<T>(s: set<T>, f: T -> int, g: T -> int)
    requires forall x :: x in s ==> f(x) <= g(x)
    ensures SumSet(s, f) <= SumSet(s, g)
    decreases s
  {
    if s != {} {
      var x :| x in s;
      SumSetPick(s, f, x);
      SumSetPick(s, g, x);
      SumSetAtMost(s - {x}, f, g);
    }
  }

  /** Elements that count for nothing can be added. */
  lemma {:induction false} SumSetExtend<T>(s: set<T>, more: set<T>, f: T -> int)
    requires s <= more && forall x :: x in more - s ==> f(x) == 0
    ensures SumSet(s, f) == SumSet(more, f)
    decreases more - s
  {
    if x :| x in more && x !in s {
      SumSetAdd(s, f, x);
      SumSetExtend(s + {x}, more, f);
    } else {
      assert s == more;
    }
  }

  lemma {:induction false} SumSetZero<T>(s: set<T>, f: T -> int)
    requires forall x :: x in s ==> f(x) == 0
    ensures SumSet(s, f) == 0
    decreases s
  {
    if s != {} {
      var x :| x in s;
      SumSetPick(s, f, x);
      SumSetZero(s - {x}, f);
    }
  }

  /** Sum of val over the first n rows of epoch e, whatever their group. */
  function EpochSumTo<R>(rows: seq<R>, q: Query<R>, e: nat, n: nat): int
    requires n <= |rows|
  {
    if n == 0 then 0
    else EpochSumTo(rows, q, e, n - 1) + if q.epochOf(rows[n - 1]) == e then q.val(rows[n - 1]) else 0
  }

  function EpochSum<R>(rows: seq<R>, q: Query<R>, e: nat): int {
    EpochSumTo(rows, q, e, |rows|)
  }

  function GroupTotal<R>(rows: seq<R>, q: Query<R>, e: nat, n: nat): Str -> int
    requires n <= |rows|
  {
    k => TotalTo(rows, q, e, k, n)
  }

  /** Grouping loses nothing: over any set that covers the groups, the group sums add up to the epoch sum. */
  lemma {:induction false} GroupsAddUp<R>(rows: seq<R>, q: Query<R>, e: nat, s: set<Str>, n: nat)
    requires n <= |rows| && KeysTo(rows, q, e, n) <= s
    ensures SumSet(s, GroupTotal(rows, q, e, n)) == EpochSumTo(rows, q, e, n)
  {
    var f := GroupTotal(rows, q, e, n);
    if n == 0 {
      SumSetZero(s, f);
    } else {
      KeysStep(rows, q, e, n - 1);
      GroupsAddUp(rows, q, e, s, n - 1);
      var g := GroupTotal(rows, q, e, n - 1);
      var r := rows[n - 1];
      if q.epochOf(r) == e {
        var k := q.key(r);
        SumSetPick(s, f, k);
        SumSetPick(s, g, k);
        SumSetEqual(s - {k}, f, g);
      } else {
        SumSetEqual(s, f, g);
      }
    }
  }

  /* ---------- sums over positions ---------- */

  /** The positions of the rows in group (e, k), among the first n. */
  function Selected<R>(rows: seq<R>, q: Query<R>, e: nat, k: Str, n: nat): set<nat>
    requires n <= |rows|
  {
    set i: nat | i < n && q.Selects(rows[i], e, k)
  }

  /** The total of a group is a sum over positions, each taken once. */
  lemma {:induction false} TotalIsSum<R>(rows: seq<R>, q: Query<R>, e: nat, k: Str, f: nat -> int, n: nat)
    requires n <= |rows| && forall i: nat :: i < |rows| ==> f(i) == q.val(rows[i])
    ensures TotalTo(rows, q, e, k, n) == SumSet(Selected(rows, q, e, k, n), f)
  {
    if n > 0 {
      TotalIsSum(rows, q, e, k, f, n - 1);
      var before := Selected(rows, q, e, k, n - 1);
      if q.Selects(rows[n - 1], e, k) {
        assert Selected(rows, q, e, k, n) == before + {n - 1};
        SumSetAdd<nat>(before, f, n - 1);
      } else {
        assert Selected(rows, q, e, k, n) == before;
      }
    }
  }

  /** The positions of the rows of an epoch, among the first n. */
  function OfEpoch<R>(rows: seq<R>, q: Query<R>, e: nat, n: nat): set<nat>
    requires n <= |rows|
  {
    set i: nat | i < n && q.epochOf(rows[i]) == e
  }

  /** So is the sum of an epoch. */
  lemma {:induction false} EpochSumIsSum<R>(rows: seq<R>, q: Query<R>, e: nat, f: nat -> int, n: nat)
    requires n <= |rows| && forall i: nat :: i < |rows| ==> f(i) == q.val(rows[i])
    ensures EpochSumTo(rows, q, e, n) == SumSet(OfEpoch(rows, q, e, n), f)
  {
    if n > 0 {
      EpochSumIsSum(rows, q, e, f, n - 1);
      var before := OfEpoch(rows, q, e, n - 1);
      if q.epochOf(rows[n - 1]) == e {
        assert OfEpoch(rows, q, e, n) == before + {n - 1};
        SumSetAdd<nat>(before, f, n - 1);
      } else {
        assert OfEpoch(rows, q, e, n) == before;
      }
    }
  }

  /** A sum over two sets with no common element. */
  lemma {:induction false} SumSetUnion<T>(s: set<T>, more: set<T>, f: T -> int)
    requires s !! more
    ensures SumSet(s + more, f) == SumSet(s, f) + SumSet(more, f)
    decreases more
  {
    if more == {} {
      assert s + more == s;
    } else {
      var x :| x in more;
      SumSetUnion(s, more - {x}, f);
      SumSetPick(more, f, x);
      assert s + more == s + (more - {x}) + {x};
      SumSetAdd(s + (more - {x}), f, x);
    }
  }
}
