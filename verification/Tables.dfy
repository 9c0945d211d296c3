/** Relational pieces shared by the jobs: nullable values, the "latest row per key" window
    every deduplication uses, and keyed tables held as sequences of rows. */
module Tables {
  datatype Option<+T> = None | Some(value: T)

  /** `rn` numbers the rows the way `row_number() over (partition by key order by stamp desc)`
      may: from 1 upwards without gaps in each partition, later stamps first. Ties are
      numbered in whatever order the engine likes, so many numberings qualify. */
  ghost predicate RowNumbers<R, K>(rows: seq<R>, key: R -> K, stamp: R -> int, rn: seq<nat>) {
    && |rn| == |rows|
    && (forall i :: 0 <= i < |rn| ==> rn[i] >= 1)
    && (forall i, j :: 0 <= i < j < |rn| && key(rows[i]) == key(rows[j]) ==> rn[i] != rn[j])
    && (forall i, j :: 0 <= i < |rn| && 0 <= j < |rn| && key(rows[i]) == key(rows[j]) && rn[i] < rn[j]
          ==> stamp(rows[i]) >= stamp(rows[j]))
    && (forall i :: 0 <= i < |rn| && rn[i] > 1 ==> HasPredecessor(rows, key, rn, i))
  }

  ghost predicate HasPredecessor<R, K>(rows: seq<R>, key: R -> K, rn: seq<nat>, i: nat)
    requires |rn| == |rows| && i < |rows|
  {
    exists j :: 0 <= j < |rn| && key(rows[j]) == key(rows[i]) && rn[j] + 1 == rn[i]
  }

  /** The rows a job keeps with `filter(_rn == 1)`. */
  function Top<R>(rows: seq<R>, rn: seq<nat>): seq<R>
    requires |rn| == |rows|
  {
    if rows == [] then []
    else
      var n := |rows| - 1;
      Top(rows[..n], rn[..n]) + if rn[n] == 1 then [rows[n]] else []
  }

  ghost predicate UniqueKeys<R, K>(rows: seq<R>, key: R -> K) {
    forall i, j :: 0 <= i < j < |rows| ==> key(rows[i]) != key(rows[j])
  }

  ghost predicate Dominated<R, K>(r: R, key: R -> K, stamp: R -> int, kept: seq<R>) {
    exists i :: 0 <= i < |kept| && key(kept[i]) == key(r) && stamp(kept[i]) >= stamp(r)
  }

  /** `kept` is a deduplication of `rows`: one row per key, drawn from `rows`, and no row of
      `rows` has a later stamp than the kept row with its key. */
  ghost predicate Latest<R, K>(rows: seq<R>, key: R -> K, stamp: R -> int, kept: seq<R>) {
    && UniqueKeys(kept, key)
    && (forall r :: r in kept ==> r in rows)
    && (forall r :: r in rows ==> Dominated(r, key, stamp, kept))
  }

  ghost predicate NumberedFirst<R>(rows: seq<R>, rn: seq<nat>, r: R)
    requires |rn| == |rows|
  {
    exists i :: 0 <= i < |rows| && rn[i] == 1 && rows[i] == r
  }

  lemma {:induction false} TopMembers<R>(rows: seq<R>, rn: seq<nat>, r: R)
    requires |rn| == |rows|
    ensures r in Top(rows, rn) <==> NumberedFirst(rows, rn, r)
  {
    if rows != [] {
      var n := |rows| - 1;
      TopMembers(rows[..n], rn[..n], r);
      if NumberedFirst(rows[..n], rn[..n], r) {
        var i :| 0 <= i < n && rn[..n][i] == 1 && rows[..n][i] == r;
        assert rn[i] == 1 && rows[i] == r;
      }
      if NumberedFirst(rows, rn, r) {
        var i :| 0 <= i < |rows| && rn[i] == 1 && rows[i] == r;
        assert i < n ==> rn[..n][i] == 1 && rows[..n][i] == r;
      }
    }
  }

  lemma {:induction false} TopIsUnique<R, K>(rows: seq<R>, key: R -> K, rn: seq<nat>)
    requires |rn| == |rows|
    requires forall i, j :: 0 <= i < j < |rn| && key(rows[i]) == key(rows[j]) ==> rn[i] != rn[j]
    ensures UniqueKeys(Top(rows, rn), key)
  {
    if rows != [] {
      var n := |rows| - 1;
      TopIsUnique(rows[..n], key, rn[..n]);
      var before := Top(rows[..n], rn[..n]);
      forall i | 0 <= i < |before| && rn[n] == 1
        ensures key(before[i]) != key(rows[n])
      {
        TopMembers(rows[..n], rn[..n], before[i]);
        var k :| 0 <= k < n && rn[..n][k] == 1 && rows[..n][k] == before[i];
        assert rn[k] == 1 && rows[k] == before[i];
      }
    }
  }

  /** Counting down from any row reaches the row numbered 1 of its partition, which is as late. */
  lemma {:induction false} FirstOfPartition<R, K>(rows: seq<R>, key: R -> K, stamp: R -> int, rn: seq<nat>, i: nat)
    returns (first: nat)
    requires RowNumbers(rows, key, stamp, rn) && i < |rows|
    ensures first < |rows| && rn[first] == 1 && key(rows[first]) == key(rows[i])
    ensures stamp(rows[first]) >= stamp(rows[i])
    decreases rn[i]
  {
    if rn[i] == 1 {
      first := i;
    } else {
      assert HasPredecessor(rows, key, rn, i);
      var j :| 0 <= j < |rn| && key(rows[j]) == key(rows[i]) && rn[j] + 1 == rn[i];
      first := FirstOfPartition(rows, key, stamp, rn, j);
    }
  }

  /** Whatever numbering the engine picked, keeping the rows numbered 1 is a deduplication. */
  lemma {:induction false} TopIsLatest<R, K>(rows: seq<R>, key: R -> K, stamp: R -> int, rn: seq<nat>)
    requires RowNumbers(rows, key, stamp, rn)
    ensures Latest(rows, key, stamp, Top(rows, rn))
  {
    var kept := Top(rows, rn);
    TopIsUnique(rows, key, rn);
    forall r | r in kept
      ensures r in rows
    {
      TopMembers(rows, rn, r);
    }
    forall r | r in rows
      ensures Dominated(r, key, stamp, kept)
    {
      var i :| 0 <= i < |rows| && rows[i] == r;
      var first := FirstOfPartition(rows, key, stamp, rn, i);
      TopMembers(rows, rn, rows[first]);
      assert rows[first] in kept;
    }
  }

  /** Rows of one key and one stamp are equal: then ties cannot matter. */
  ghost predicate StampsDecide<R, K>(rows: seq<R>, key: R -> K, stamp: R -> int) {
    forall r, s :: r in rows && s in rows && key(r) == key(s) && stamp(r) == stamp(s) ==> r == s
  }

  ghost predicate SameRows<R>(a: seq<R>, b: seq<R>) {
    (forall r :: r in a ==> r in b) && (forall r :: r in b ==> r in a)
  }

  lemma {:induction false} LatestIsDetermined<R, K>(rows: seq<R>, key: R -> K, stamp: R -> int, a: seq<R>, b: seq<R>)
    requires Latest(rows, key, stamp, a) && Latest(rows, key, stamp, b)
    requires StampsDecide(rows, key, stamp)
    ensures SameRows(a, b)
  {
    LatestIncluded(rows, key, stamp, a, b);
    LatestIncluded(rows, key, stamp, b, a);
  }

  lemma LatestIncluded<R, K>(rows: seq<R>, key: R -> K, stamp: R -> int, a: seq<R>, b: seq<R>)
    requires Latest(rows, key, stamp, a) && Latest(rows, key, stamp, b)
    requires StampsDecide(rows, key, stamp)
    ensures forall r :: r in a ==> r in b
  {
    forall r | r in a
      ensures r in b
    {
      assert Dominated(r, key, stamp, b);
      var i :| 0 <= i < |b| && key(b[i]) == key(r) && stamp(b[i]) >= stamp(r);
      assert Dominated(b[i], key, stamp, a);
      var j :| 0 <= j < |a| && key(a[j]) == key(b[i]) && stamp(a[j]) >= stamp(b[i]);
      assert a[j] == r;
    }
  }

  /** Keyed lookup; in a table with unique keys, the row with that key. */
  function Find<R, K(==)>(rows: seq<R>, key: R -> K, k: K): (found: Option<R>)
    ensures found.Some? ==> found.value in rows && key(found.value) == k
    ensures found.None? ==> forall r :: r in rows ==> key(r) != k
  {
    if rows == [] then None
    else if key(rows[0]) == k then Some(rows[0])
    else Find(rows[1..], key, k)
  }

  lemma FindUnique<R, K>(rows: seq<R>, key: R -> K, r: R)
    requires UniqueKeys(rows, key) && r in rows
    ensures Find(rows, key, key(r)) == Some(r)
  {
    var found := Find(rows, key, key(r)).value;
    var i :| 0 <= i < |rows| && rows[i] == r;
    var j :| 0 <= j < |rows| && rows[j] == found;
  }

  /** Two tables with unique keys and the same rows are the same bag of rows. */
  lemma SameBag<R, K>(a: seq<R>, b: seq<R>, key: R -> K)
    requires UniqueKeys(a, key) && UniqueKeys(b, key) && SameRows(a, b)
    ensures multiset(a) == multiset(b)
  {
    forall r
      ensures multiset(a)[r] == multiset(b)[r]
    {
      CountOfUnique(a, key, r);
      CountOfUnique(b, key, r);
    }
  }

  lemma {:induction false} CountOfUnique<R, K>(rows: seq<R>, key: R -> K, r: R)
    requires UniqueKeys(rows, key)
    ensures multiset(rows)[r] == if r in rows then 1 else 0
  {
    if rows != [] {
      var n := |rows| - 1;
      assert rows == rows[..n] + [rows[n]];
      CountOfUnique(rows[..n], key, r);
    }
  }

  /** Rows in strictly increasing order of `rank`. */
  ghost predicate Ordered<R>(rows: seq<R>, rank: R -> int) {
    forall i, j :: 0 <= i < j < |rows| ==> rank(rows[i]) < rank(rows[j])
  }

  /** A set of rows has one ordered listing. */
  lemma {:induction false} OrderedAgree<R>(a: seq<R>, b: seq<R>, rank: R -> int)
    requires Ordered(a, rank) && Ordered(b, rank) && SameRows(a, b)
    ensures a == b
  {
    assert a != [] ==> a[0] in b;
    assert b != [] ==> b[0] in a;
    if a != [] && b != [] {
      var m, n := |a| - 1, |b| - 1;
      LastIsHighest(a, b, rank);
      LastIsHighest(b, a, rank);
      assert a[m] == b[n];
      forall r | r in a[..m] || r in b[..n]
        ensures r in a[..m] <==> r in b[..n]
      {
        InPrefix(a, rank, r);
        InPrefix(b, rank, r);
      }
      OrderedAgree(a[..m], b[..n], rank);
    }
  }

  lemma LastIsHighest<R>(a: seq<R>, b: seq<R>, rank: R -> int)
    requires a != [] && b != [] && b[|b| - 1] in a && Ordered(a, rank)
    ensures rank(a[|a| - 1]) >= rank(b[|b| - 1])
    ensures rank(a[|a| - 1]) == rank(b[|b| - 1]) ==> a[|a| - 1] == b[|b| - 1]
  {
    var i :| 0 <= i < |a| && a[i] == b[|b| - 1];
  }

  lemma InPrefix<R>(a: seq<R>, rank: R -> int, r: R)
    requires a != [] && Ordered(a, rank)
    ensures r in a[..|a| - 1] <==> r in a && r != a[|a| - 1]
  {
    var m := |a| - 1;
    assert a == a[..m] + [a[m]];
    if r in a[..m] {
      var i :| 0 <= i < m && a[..m][i] == r;
      assert rank(a[i]) < rank(a[m]);
    }
  }

  ghost function Keys<R, K>(rows: seq<R>, key: R -> K): set<K> {
    set i | 0 <= i < |rows| :: key(rows[i])
  }

  /** count(*) equals count(distinct key) exactly when no key repeats. */
  lemma {:induction false} DistinctCount<R, K>(rows: seq<R>, key: R -> K)
    ensures |Keys(rows, key)| <= |rows|
    ensures |Keys(rows, key)| == |rows| <==> UniqueKeys(rows, key)
  {
    if rows != [] {
      var n := |rows| - 1;
      DistinctCount(rows[..n], key);
      KeysOfPrefix(rows, key);
      if key(rows[n]) in Keys(rows[..n], key) {
        var i :| 0 <= i < n && key(rows[..n][i]) == key(rows[n]);
        assert key(rows[i]) == key(rows[n]);
      }
    }
  }

  lemma KeysOfPrefix<R, K>(rows: seq<R>, key: R -> K)
    requires rows != []
    ensures Keys(rows, key) == Keys(rows[..|rows| - 1], key) + {key(rows[|rows| - 1])}
  {
    var n := |rows| - 1;
    forall i | 0 <= i < n
      ensures key(rows[i]) in Keys(rows[..n], key)
    {
      assert rows[..n][i] == rows[i];
    }
  }

  /** The rows with key `k`, as a join on that key finds them. */
  function Where<R, K(==)>(rows: seq<R>, key: R -> K, k: K): seq<R> {
    if rows == [] then []
    else
      var n := |rows| - 1;
      var before := Where(rows[..n], key, k);
      if key(rows[n]) == k then before + [rows[n]] else before
  }

  lemma {:induction false} WhereOfConcat<R, K>(a: seq<R>, b: seq<R>, key: R -> K, k: K)
    ensures Where(a + b, key, k) == Where(a, key, k) + Where(b, key, k)
  {
    if b == [] {
      assert a + b == a;
    } else {
      var n := |b| - 1;
      WhereOfConcat(a, b[..n], key, k);
      assert (a + b)[..|a| + n] == a + b[..n];
    }
  }

  lemma WhereNext<R, K>(rows: seq<R>, r: R, key: R -> K, k: K)
    ensures Where(rows + [r], key, k) == if key(r) == k then Where(rows, key, k) + [r] else Where(rows, key, k)
  {
    assert (rows + [r])[..|rows|] == rows;
  }

  lemma {:induction false} WhereMembers<R, K>(rows: seq<R>, key: R -> K, k: K, r: R)
    ensures r in Where(rows, key, k) <==> r in rows && key(r) == k
  {
    if rows != [] {
      var n := |rows| - 1;
      WhereMembers(rows[..n], key, k, r);
      assert rows == rows[..n] + [rows[n]];
    }
  }

  /** A join on a unique key finds at most one row. */
  lemma {:induction false} WhereUnique<R, K>(rows: seq<R>, key: R -> K, k: K)
    requires UniqueKeys(rows, key)
    ensures Where(rows, key, k) == match Find(rows, key, k) case None => [] case Some(r) => [r]
  {
    AtMostOne(rows, key, k);
    var found := Find(rows, key, k);
    if found.Some? {
      WhereMembers(rows, key, k, found.value);
    } else {
      WhereAbsent(rows, key, k);
    }
  }

  lemma {:induction false} WhereAbsent<R, K>(rows: seq<R>, key: R -> K, k: K)
    requires forall i :: 0 <= i < |rows| ==> key(rows[i]) != k
    ensures Where(rows, key, k) == []
  {
    if rows != [] {
      WhereAbsent(rows[..|rows| - 1], key, k);
    }
  }

  lemma {:induction false} AtMostOne<R, K>(rows: seq<R>, key: R -> K, k: K)
    requires UniqueKeys(rows, key)
    ensures |Where(rows, key, k)| <= 1
  {
    if rows != [] {
      var n := |rows| - 1;
      if key(rows[n]) == k {
        WhereAbsent(rows[..n], key, k);
      } else {
        AtMostOne(rows[..n], key, k);
      }
    }
  }

  /** The right-hand side of a left join: the matches, or one row of nulls. */
  function LeftJoin<R>(matches: seq<R>): (rows: seq<Option<R>>)
    ensures |rows| == if matches == [] then 1 else |matches|
  {
    if matches == [] then [None] else seq(|matches|, i requires 0 <= i < |matches| => Some(matches[i]))
  }
}
