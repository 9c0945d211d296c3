/** The whole-table MERGE does to each product exactly what Scd2.Step says, and never fails. */
module Scd2Merge {
  import opened Tables
  import opened Scd2

  lemma {:induction false} ChangedMember(incoming: seq<Product>, rows: seq<Version>, q: Product)
    requires Chained(rows)
    ensures q in Changed(incoming, rows) <==> q in incoming && IsChanged(q, History(rows, q.id))
  {
    if incoming != [] {
      var n := |incoming| - 1;
      ChangedMember(incoming[..n], rows, q);
      JoinDiffInChain(incoming[n], rows);
      assert incoming == incoming[..n] + [incoming[n]];
    }
  }

  lemma {:induction false} NewMember(incoming: seq<Product>, rows: seq<Version>, q: Product)
    requires Chained(rows)
    ensures q in New(incoming, rows) <==> q in incoming && History(rows, q.id) == []
  {
    if incoming != [] {
      var n := |incoming| - 1;
      NewMember(incoming[..n], rows, q);
      HasCurrentInChain(rows, incoming[n].id);
      assert incoming == incoming[..n] + [incoming[n]];
    }
  }

  lemma JoinDiffIsOwn(s: Product, rows: seq<Version>)
    requires Chained(rows)
    ensures JoinDiff(s, rows) == [] || JoinDiff(s, rows) == [s]
  {
    JoinDiffInChain(s, rows);
  }

  lemma {:induction false} ChangedUnique(incoming: seq<Product>, rows: seq<Version>)
    requires UniqueKeys(incoming, ProductId) && Chained(rows)
    ensures UniqueKeys(Changed(incoming, rows), ProductId)
    ensures forall q :: q in Changed(incoming, rows) ==> q in incoming
  {
    if incoming != [] {
      var n := |incoming| - 1;
      ChangedUnique(incoming[..n], rows);
      JoinDiffIsOwn(incoming[n], rows);
      var before := Changed(incoming[..n], rows);
      forall i | 0 <= i < |before|
        ensures ProductId(before[i]) != ProductId(incoming[n])
      {
        assert before[i] in incoming[..n];
      }
    }
  }

  lemma ChangedProducts(incoming: seq<Product>, rows: seq<Version>)
    requires UniqueKeys(incoming, ProductId) && Chained(rows)
    ensures UniqueKeys(Changed(incoming, rows), ProductId)
    ensures forall q :: q in Changed(incoming, rows) <==> q in incoming && IsChanged(q, History(rows, q.id))
  {
    ChangedUnique(incoming, rows);
    forall q {
      ChangedMember(incoming, rows, q);
    }
  }

  lemma {:induction false} NewUnique(incoming: seq<Product>, rows: seq<Version>)
    requires UniqueKeys(incoming, ProductId)
    ensures UniqueKeys(New(incoming, rows), ProductId)
    ensures forall q :: q in New(incoming, rows) ==> q in incoming
  {
    if incoming != [] {
      var n := |incoming| - 1;
      NewUnique(incoming[..n], rows);
      var before := New(incoming[..n], rows);
      forall i | 0 <= i < |before|
        ensures ProductId(before[i]) != ProductId(incoming[n])
      {
        assert before[i] in incoming[..n];
      }
    }
  }

  lemma NewProducts(incoming: seq<Product>, rows: seq<Version>)
    requires UniqueKeys(incoming, ProductId) && Chained(rows)
    ensures UniqueKeys(New(incoming, rows), ProductId)
    ensures forall q :: q in New(incoming, rows) <==> q in incoming && History(rows, q.id) == []
  {
    NewUnique(incoming, rows);
    forall q {
      NewMember(incoming, rows, q);
    }
  }

  ghost function Inserted(incoming: seq<Product>, rows: seq<Version>): seq<Product> {
    Changed(incoming, rows) + New(incoming, rows)
  }

  lemma InsertedUnique(incoming: seq<Product>, rows: seq<Version>)
    requires UniqueKeys(incoming, ProductId) && Chained(rows)
    ensures UniqueKeys(Inserted(incoming, rows), ProductId)
  {
    ChangedProducts(incoming, rows);
    NewProducts(incoming, rows);
    var c, w := Changed(incoming, rows), New(incoming, rows);
    forall i, j | 0 <= i < |c| && 0 <= j < |w|
      ensures c[i].id != w[j].id
    {
      assert c[i] in c && w[j] in w;
    }
  }

  lemma OneSourcePerTarget(rows: seq<Version>, incoming: seq<Product>, t: Version, i: nat, j: nat)
    requires UniqueKeys(incoming, ProductId) && Chained(rows)
    requires i <= j < |StagedRows(rows, incoming)|
    requires Matches(t, StagedRows(rows, incoming)[i]) && Matches(t, StagedRows(rows, incoming)[j])
    ensures i == j
  {
    var staged, changed, n := StagedRows(rows, incoming), Changed(incoming, rows), |Inserted(incoming, rows)|;
    ChangedUnique(incoming, rows);
    assert staged[i] == Stage(changed, false)[i - n] && staged[j] == Stage(changed, false)[j - n];
    assert ProductId(changed[i - n]) == ProductId(changed[j - n]);
  }

  /** A close-tagged row matches the one current row of its product; an insert-tagged row
      matches nothing. So the MERGE is neither ambiguous nor short of a target. */
  lemma MergeNeverFails(rows: seq<Version>, incoming: seq<Product>, asOf: Day, now: int)
    requires UniqueKeys(incoming, ProductId) && Chained(rows)
    ensures MergeSnapshot(rows, incoming, asOf, now).Merged?
  {
    var staged, n := StagedRows(rows, incoming), |Inserted(incoming, rows)|;
    if Ambiguous(rows, staged) {
      var k, i, j :|
        0 <= k < |rows| && 0 <= i < j < |staged| && Matches(rows[k], staged[i]) && Matches(rows[k], staged[j]);
      OneSourcePerTarget(rows, incoming, rows[k], i, j);
    }
    forall i | 0 <= i < |staged| && !staged[i].inserts
      ensures MatchedSource(staged[i], rows)
    {
      CloseMatches(rows, incoming, i - n);
    }
  }

  lemma CloseMatches(rows: seq<Version>, incoming: seq<Product>, i: nat)
    requires UniqueKeys(incoming, ProductId) && Chained(rows) && i < |Changed(incoming, rows)|
    ensures MatchedSource(Stage(Changed(incoming, rows), false)[i], rows)
  {
    ChangedProducts(incoming, rows);
    var q := Changed(incoming, rows)[i];
    assert q in Changed(incoming, rows);
    HasCurrentInChain(rows, q.id);
    var k :| 0 <= k < |rows| && rows[k].current && rows[k].id == q.id;
    assert Matches(rows[k], Stage(Changed(incoming, rows), false)[i]);
  }

  // ---------------------------------------------------------------- what is inserted

  lemma {:induction false} InsertsOfConcat(a: seq<Staged>, b: seq<Staged>, rows: seq<Version>, asOf: Day, now: int)
    ensures InsertUnmatched(a + b, rows, asOf, now)
         == InsertUnmatched(a, rows, asOf, now) + InsertUnmatched(b, rows, asOf, now)
  {
    if b == [] {
      assert a + b == a;
    } else {
      var n := |b| - 1;
      InsertsOfConcat(a, b[..n], rows, asOf, now);
      assert (a + b)[..|a| + n] == a + b[..n];
    }
  }

  lemma {:induction false} InsertTaggedAreInserted(ps: seq<Product>, rows: seq<Version>, asOf: Day, now: int)
    ensures InsertUnmatched(Stage(ps, true), rows, asOf, now) == OpenAll(ps, Some(asOf), now)
  {
    if ps != [] {
      var n := |ps| - 1;
      InsertTaggedAreInserted(ps[..n], rows, asOf, now);
      assert Stage(ps, true)[..n] == Stage(ps[..n], true);
      assert !MatchedSource(Stage(ps, true)[n], rows);
    }
  }

  lemma {:induction false} MatchedAreNotInserted(staged: seq<Staged>, rows: seq<Version>, asOf: Day, now: int)
    requires forall i :: 0 <= i < |staged| ==> MatchedSource(staged[i], rows)
    ensures InsertUnmatched(staged, rows, asOf, now) == []
  {
    if staged != [] {
      MatchedAreNotInserted(staged[..|staged| - 1], rows, asOf, now);
    }
  }

  lemma InsertedRows(rows: seq<Version>, incoming: seq<Product>, asOf: Day, now: int)
    requires UniqueKeys(incoming, ProductId) && Chained(rows)
    ensures InsertUnmatched(StagedRows(rows, incoming), rows, asOf, now)
         == OpenAll(Inserted(incoming, rows), Some(asOf), now)
  {
    var changed := Changed(incoming, rows);
    InsertsOfConcat(Stage(Inserted(incoming, rows), true), Stage(changed, false), rows, asOf, now);
    InsertTaggedAreInserted(Inserted(incoming, rows), rows, asOf, now);
    forall i | 0 <= i < |changed|
      ensures MatchedSource(Stage(changed, false)[i], rows)
    {
      CloseMatches(rows, incoming, i);
    }
    MatchedAreNotInserted(Stage(changed, false), rows, asOf, now);
  }

  lemma HistoryOfOne(v: Version, p: int)
    ensures History([v], p) == if v.id == p then [v] else []
  {
    assert History([v], p) == History([], p) + if v.id == p then [v] else [];
  }

  lemma {:induction false} OpenedAbsent(ps: seq<Product>, asOf: Option<Day>, now: int, p: int)
    requires forall q :: q in ps ==> q.id != p
    ensures History(OpenAll(ps, asOf, now), p) == []
  {
    if ps != [] {
      var n := |ps| - 1;
      OpenedAbsent(ps[..n], asOf, now, p);
      assert OpenAll(ps, asOf, now)[..n] == OpenAll(ps[..n], asOf, now);
      assert ps[n] in ps;
    }
  }

  lemma {:induction false} OpenedOnce(ps: seq<Product>, asOf: Option<Day>, now: int, i: nat)
    requires UniqueKeys(ps, ProductId) && i < |ps|
    ensures History(OpenAll(ps, asOf, now), ps[i].id) == [OpenAll(ps, asOf, now)[i]]
  {
    var n, p := |ps| - 1, ps[i].id;
    assert OpenAll(ps, asOf, now)[..n] == OpenAll(ps[..n], asOf, now);
    if i < n {
      OpenedOnce(ps[..n], asOf, now, i);
      assert ProductId(ps[n]) != ProductId(ps[i]);
    } else {
      forall q | q in ps[..n]
        ensures q.id != p
      {
        var k :| 0 <= k < n && ps[..n][k] == q;
        assert ProductId(ps[k]) != ProductId(ps[n]);
      }
      OpenedAbsent(ps[..n], asOf, now, p);
    }
  }

  lemma HistoryOfOpened(ps: seq<Product>, asOf: Option<Day>, now: int, p: int)
    requires UniqueKeys(ps, ProductId)
    ensures History(OpenAll(ps, asOf, now), p) == match Find(ps, ProductId, p)
      case None => []
      case Some(q) => [Open(q, if asOf.Some? then asOf.value else q.createdOn, now)]
  {
    var found := Find(ps, ProductId, p);
    if found.None? {
      OpenedAbsent(ps, asOf, now, p);
    } else {
      var i :| 0 <= i < |ps| && ps[i] == found.value;
      OpenedOnce(ps, asOf, now, i);
    }
  }

  // ---------------------------------------------------------------- what is closed

  lemma {:induction false} HistoryOfUpdate(rows: seq<Version>, staged: seq<Staged>, asOf: Day, p: int)
    ensures History(UpdateMatched(rows, staged, asOf), p) == UpdateMatched(History(rows, p), staged, asOf)
  {
    if rows != [] {
      var n := |rows| - 1;
      HistoryOfUpdate(rows[..n], staged, asOf, p);
      assert UpdateMatched(rows, staged, asOf)[..n] == UpdateMatched(rows[..n], staged, asOf);
    }
  }

  lemma ClosedExactlyIfChanged(rows: seq<Version>, incoming: seq<Product>, t: Version)
    requires UniqueKeys(incoming, ProductId) && Chained(rows) && t.current
    ensures MatchedTarget(t, StagedRows(rows, incoming)) <==>
      exists q :: q in Changed(incoming, rows) && q.id == t.id
  {
    var staged, changed := StagedRows(rows, incoming), Changed(incoming, rows);
    var n := |Inserted(incoming, rows)|;
    if MatchedTarget(t, staged) {
      var i :| 0 <= i < |staged| && Matches(t, staged[i]);
      assert staged[i] == Stage(changed, false)[i - n];
      assert changed[i - n] in changed;
    }
    if q :| q in changed && q.id == t.id {
      var i :| 0 <= i < |changed| && changed[i] == q;
      assert staged[n + i] == Stage(changed, false)[i];
      assert Matches(t, staged[n + i]);
    }
  }

  lemma ChangedById(rows: seq<Version>, incoming: seq<Product>, p: int)
    requires UniqueKeys(incoming, ProductId) && Chained(rows)
    ensures (exists q :: q in Changed(incoming, rows) && q.id == p) <==>
      var found := Find(incoming, ProductId, p); found.Some? && IsChanged(found.value, History(rows, p))
    ensures var found := Find(Inserted(incoming, rows), ProductId, p);
      var row := Find(incoming, ProductId, p);
      found == if row.Some? && (History(rows, p) == [] || IsChanged(row.value, History(rows, p))) then row else None
  {
    ChangedProducts(incoming, rows);
    NewProducts(incoming, rows);
    InsertedUnique(incoming, rows);
    var row := Find(incoming, ProductId, p);
    forall q | q in incoming && q.id == p
      ensures row == Some(q)
    {
      FindUnique(incoming, ProductId, q);
    }
    forall q | q in Inserted(incoming, rows) && q.id == p
      ensures Find(Inserted(incoming, rows), ProductId, p) == Some(q) == row
    {
      FindUnique(Inserted(incoming, rows), ProductId, q);
    }
    if row.Some? && (History(rows, p) == [] || IsChanged(row.value, History(rows, p))) {
      assert row.value in Inserted(incoming, rows);
    }
  }

  lemma UpdatedChain(h: seq<Version>, p: int, staged: seq<Staged>, asOf: Day)
    requires Chain(h, p) && h != []
    ensures UpdateMatched(h, staged, asOf) == h[..|h| - 1] + [Updated(h[|h| - 1], staged, asOf)]
  {
  }

  lemma MergedHistory(rows: seq<Version>, incoming: seq<Product>, asOf: Day, now: int, p: int)
    requires UniqueKeys(incoming, ProductId) && Chained(rows)
    ensures MergeSnapshot(rows, incoming, asOf, now).Merged?
    ensures History(MergeSnapshot(rows, incoming, asOf, now).rows, p)
         == UpdateMatched(History(rows, p), StagedRows(rows, incoming), asOf)
            + History(OpenAll(Inserted(incoming, rows), Some(asOf), now), p)
  {
    var staged := StagedRows(rows, incoming);
    MergeNeverFails(rows, incoming, asOf, now);
    HistoryOfConcat(UpdateMatched(rows, staged, asOf), InsertUnmatched(staged, rows, asOf, now), p);
    HistoryOfUpdate(rows, staged, asOf, p);
    InsertedRows(rows, incoming, asOf, now);
  }

  /** The two halves of Step: the old versions, the last one perhaps closed, and the new one, if any. */
  ghost function ClosedPart(h: seq<Version>, row: Option<Product>, asOf: Day): seq<Version> {
    if row.Some? && IsChanged(row.value, h) then h[..|h| - 1] + [h[|h| - 1].(current := false, to := Some(asOf))] else h
  }

  ghost function OpenedPart(h: seq<Version>, row: Option<Product>, asOf: Day, now: int): seq<Version> {
    if row.Some? && (h == [] || IsChanged(row.value, h)) then [Open(row.value, asOf, now)] else []
  }

  lemma UpdatedHistory(rows: seq<Version>, incoming: seq<Product>, asOf: Day, p: int)
    requires UniqueKeys(incoming, ProductId) && Chained(rows)
    ensures UpdateMatched(History(rows, p), StagedRows(rows, incoming), asOf)
         == ClosedPart(History(rows, p), Find(incoming, ProductId, p), asOf)
  {
    var h, staged := History(rows, p), StagedRows(rows, incoming);
    if h != [] {
      assert Chain(h, p);
      UpdatedChain(h, p, staged, asOf);
      ClosedExactlyIfChanged(rows, incoming, h[|h| - 1]);
      ChangedById(rows, incoming, p);
    }
  }

  lemma InsertedHistory(rows: seq<Version>, incoming: seq<Product>, asOf: Day, now: int, p: int)
    requires UniqueKeys(incoming, ProductId) && Chained(rows)
    ensures History(OpenAll(Inserted(incoming, rows), Some(asOf), now), p)
         == OpenedPart(History(rows, p), Find(incoming, ProductId, p), asOf, now)
  {
    InsertedUnique(incoming, rows);
    HistoryOfOpened(Inserted(incoming, rows), Some(asOf), now, p);
    ChangedById(rows, incoming, p);
  }

  lemma StepHasTwoParts(h: seq<Version>, row: Option<Product>, asOf: Day, now: int)
    ensures Step(h, row, asOf, now) == ClosedPart(h, row, asOf) + OpenedPart(h, row, asOf, now)
  {
  }

  /** The MERGE, seen from any one product, is Step. */
  lemma MergeIsStep(rows: seq<Version>, incoming: seq<Product>, asOf: Day, now: int, p: int)
    requires UniqueKeys(incoming, ProductId) && Chained(rows)
    ensures MergeSnapshot(rows, incoming, asOf, now).Merged?
    ensures History(MergeSnapshot(rows, incoming, asOf, now).rows, p)
         == Step(History(rows, p), Find(incoming, ProductId, p), asOf, now)
  {
    MergedHistory(rows, incoming, asOf, now, p);
    UpdatedHistory(rows, incoming, asOf, p);
    InsertedHistory(rows, incoming, asOf, now, p);
    StepHasTwoParts(History(rows, p), Find(incoming, ProductId, p), asOf, now);
  }

  lemma StepKeepsChain(h: seq<Version>, incoming: Option<Product>, asOf: Day, now: int, p: int)
    requires Chain(h, p) && (incoming.Some? ==> incoming.value.id == p)
    ensures Chain(Step(h, incoming, asOf, now), p)
  {
  }

  /** Every run keeps the chain of every product. */
  lemma MergeKeepsChains(rows: seq<Version>, incoming: seq<Product>, asOf: Day, now: int)
    requires UniqueKeys(incoming, ProductId) && Chained(rows)
    ensures MergeSnapshot(rows, incoming, asOf, now).Merged?
    ensures Chained(MergeSnapshot(rows, incoming, asOf, now).rows)
  {
    MergeNeverFails(rows, incoming, asOf, now);
    forall p
      ensures Chain(History(MergeSnapshot(rows, incoming, asOf, now).rows, p), p)
    {
      MergeIsStep(rows, incoming, asOf, now, p);
      StepKeepsChain(History(rows, p), Find(incoming, ProductId, p), asOf, now, p);
    }
  }

  lemma InitialLoadIsChained(incoming: seq<Product>, now: int)
    requires UniqueKeys(incoming, ProductId)
    ensures Chained(InitialLoad(incoming, now))
  {
    forall p
      ensures Chain(History(InitialLoad(incoming, now), p), p)
    {
      HistoryOfOpened(incoming, None, now, p);
    }
  }

  // ---------------------------------------------------------------- counting

  function CurrentRows(rows: seq<Version>): seq<Version> {
    if rows == [] then []
    else
      var n := |rows| - 1;
      CurrentRows(rows[..n]) + if rows[n].current then [rows[n]] else []
  }

  function VersionId(v: Version): int { v.id }

  lemma {:induction false} CurrentRowsMembers(rows: seq<Version>, v: Version)
    ensures v in CurrentRows(rows) <==> v in rows && v.current
  {
    if rows != [] {
      CurrentRowsMembers(rows[..|rows| - 1], v);
      assert rows == rows[..|rows| - 1] + [rows[|rows| - 1]];
    }
  }

  lemma HistoryKeepsOrder(rows: seq<Version>, i: nat, j: nat) returns (a: nat, b: nat)
    requires i < j < |rows| && rows[i].id == rows[j].id
    ensures a < b < |History(rows, rows[i].id)|
    ensures History(rows, rows[i].id)[a] == rows[i] && History(rows, rows[i].id)[b] == rows[j]
  {
    var p := rows[i].id;
    var before, after := rows[..j], rows[j..];
    assert rows == before + after;
    HistoryOfConcat(before, after, p);
    HistoryMembers(before, p, before[i]);
    HistoryMembers(after, p, after[0]);
    a :| 0 <= a < |History(before, p)| && History(before, p)[a] == rows[i];
    var c :| 0 <= c < |History(after, p)| && History(after, p)[c] == rows[j];
    b := |History(before, p)| + c;
  }

  lemma {:induction false} CurrentRowsUnique(rows: seq<Version>)
    requires forall i, j :: 0 <= i < j < |rows| && rows[i].current && rows[j].current ==> rows[i].id != rows[j].id
    ensures UniqueKeys(CurrentRows(rows), VersionId)
  {
    if rows != [] {
      var n := |rows| - 1;
      CurrentRowsUnique(rows[..n]);
      var before := CurrentRows(rows[..n]);
      forall i | 0 <= i < |before| && rows[n].current
        ensures VersionId(before[i]) != VersionId(rows[n])
      {
        CurrentRowsMembers(rows[..n], before[i]);
        var k :| 0 <= k < n && rows[..n][k] == before[i];
        assert rows[k].current;
      }
    }
  }

  /** In a chained table the current rows are one per known product. */
  lemma CurrentCount(rows: seq<Version>)
    requires Chained(rows)
    ensures |CurrentRows(rows)| == |Keys(rows, VersionId)|
  {
    forall i, j | 0 <= i < j < |rows| && rows[i].current && rows[j].current
      ensures rows[i].id != rows[j].id
    {
      if rows[i].id == rows[j].id {
        assert Chain(History(rows, rows[i].id), rows[i].id);
        var a, b := HistoryKeepsOrder(rows, i, j);
      }
    }
    CurrentRowsUnique(rows);
    DistinctCount(CurrentRows(rows), VersionId);
    forall p
      ensures p in Keys(rows, VersionId) <==> p in Keys(CurrentRows(rows), VersionId)
    {
      if i :| 0 <= i < |rows| && VersionId(rows[i]) == p {
        assert Chain(History(rows, p), p);
        HistoryMembers(rows, p, rows[i]);
        HasCurrentInChain(rows, p);
        var k :| 0 <= k < |rows| && rows[k].current && rows[k].id == p;
        CurrentRowsMembers(rows, rows[k]);
        var j :| 0 <= j < |CurrentRows(rows)| && CurrentRows(rows)[j] == rows[k];
      }
      if i :| 0 <= i < |CurrentRows(rows)| && VersionId(CurrentRows(rows)[i]) == p {
        CurrentRowsMembers(rows, CurrentRows(rows)[i]);
        var k :| 0 <= k < |rows| && rows[k] == CurrentRows(rows)[i];
      }
    }
    assert Keys(rows, VersionId) == Keys(CurrentRows(rows), VersionId);
  }

  lemma KeyOfNew(incoming: seq<Product>, rows: seq<Version>, p: int)
    requires UniqueKeys(incoming, ProductId) && Chained(rows)
    ensures p in Keys(New(incoming, rows), ProductId) <==> Find(incoming, ProductId, p).Some? && History(rows, p) == []
  {
    var added, row := New(incoming, rows), Find(incoming, ProductId, p);
    NewProducts(incoming, rows);
    if i :| 0 <= i < |added| && ProductId(added[i]) == p {
      assert added[i] in added;
      FindUnique(incoming, ProductId, added[i]);
    }
    if row.Some? && History(rows, p) == [] {
      assert row.value in added;
      var i :| 0 <= i < |added| && added[i] == row.value;
    }
  }

  lemma KeyAfterMerge(rows: seq<Version>, incoming: seq<Product>, asOf: Day, now: int, p: int)
    requires UniqueKeys(incoming, ProductId) && Chained(rows)
    requires MergeSnapshot(rows, incoming, asOf, now).Merged?
    ensures var after, added := MergeSnapshot(rows, incoming, asOf, now).rows, New(incoming, rows);
      && (p in Keys(after, VersionId) <==> p in Keys(rows, VersionId) || p in Keys(added, ProductId))
      && !(p in Keys(rows, VersionId) && p in Keys(added, ProductId))
  {
    MergeIsStep(rows, incoming, asOf, now, p);
    KnownProduct(rows, p);
    KnownProduct(MergeSnapshot(rows, incoming, asOf, now).rows, p);
    KeyOfNew(incoming, rows, p);
  }

  /** A run adds one row per changed and per new product, and one current row per new one. */
  lemma MergeCounts(rows: seq<Version>, incoming: seq<Product>, asOf: Day, now: int)
    requires UniqueKeys(incoming, ProductId) && Chained(rows)
    ensures MergeSnapshot(rows, incoming, asOf, now).Merged?
    ensures var after := MergeSnapshot(rows, incoming, asOf, now).rows;
      && |after| == |rows| + |Changed(incoming, rows)| + |New(incoming, rows)|
      && |CurrentRows(after)| == |CurrentRows(rows)| + |New(incoming, rows)|
  {
    MergeKeepsChains(rows, incoming, asOf, now);
    var after, added := MergeSnapshot(rows, incoming, asOf, now).rows, New(incoming, rows);
    InsertedRows(rows, incoming, asOf, now);
    CurrentCount(rows);
    CurrentCount(after);
    NewUnique(incoming, rows);
    DistinctCount(added, ProductId);
    forall p
      ensures p in Keys(after, VersionId) <==> p in Keys(rows, VersionId) || p in Keys(added, ProductId)
      ensures !(p in Keys(rows, VersionId) && p in Keys(added, ProductId))
    {
      KeyAfterMerge(rows, incoming, asOf, now, p);
    }
    assert Keys(after, VersionId) == Keys(rows, VersionId) + Keys(added, ProductId);
  }

  lemma KnownProduct(rows: seq<Version>, p: int)
    ensures p in Keys(rows, VersionId) <==> History(rows, p) != []
  {
    var h := History(rows, p);
    if i :| 0 <= i < |rows| && VersionId(rows[i]) == p {
      HistoryMembers(rows, p, rows[i]);
    }
    if h != [] {
      HistoryMembers(rows, p, h[0]);
      var i :| 0 <= i < |rows| && rows[i] == h[0];
      assert VersionId(rows[i]) == p;
    }
  }

  lemma {:induction false} NothingToStage(incoming: seq<Product>, rows: seq<Version>)
    requires Chained(rows)
    requires forall q :: q in incoming ==> History(rows, q.id) != [] && !IsChanged(q, History(rows, q.id))
    ensures Changed(incoming, rows) == [] && New(incoming, rows) == []
  {
    if incoming != [] {
      var n := |incoming| - 1;
      NothingToStage(incoming[..n], rows);
      JoinDiffInChain(incoming[n], rows);
      HasCurrentInChain(rows, incoming[n].id);
    }
  }

  /** Every product of the snapshot is known and shows no change. */
  ghost predicate UpToDate(rows: seq<Version>, incoming: seq<Product>) {
    forall q :: q in incoming ==> History(rows, q.id) != [] && !IsChanged(q, History(rows, q.id))
  }

  lemma MergeIsUpToDate(rows: seq<Version>, incoming: seq<Product>, asOf: Day, now: int)
    requires UniqueKeys(incoming, ProductId) && Chained(rows)
    ensures MergeSnapshot(rows, incoming, asOf, now).Merged?
    ensures var after := MergeSnapshot(rows, incoming, asOf, now).rows; Chained(after) && UpToDate(after, incoming)
  {
    MergeKeepsChains(rows, incoming, asOf, now);
    var after := MergeSnapshot(rows, incoming, asOf, now).rows;
    forall q | q in incoming
      ensures History(after, q.id) != [] && !IsChanged(q, History(after, q.id))
    {
      FindUnique(incoming, ProductId, q);
      MergeIsStep(rows, incoming, asOf, now, q.id);
      StepSettles(History(rows, q.id), q, asOf, now);
    }
  }

  lemma NothingToMerge(rows: seq<Version>, incoming: seq<Product>, asOf: Day, now: int)
    requires Chained(rows) && UpToDate(rows, incoming)
    ensures MergeSnapshot(rows, incoming, asOf, now) == Merged(rows)
  {
    NothingToStage(incoming, rows);
    MergeNothing(rows, asOf, now);
  }

  /** Re-running on the products just merged, in any order, leaves the table as it is. */
  lemma RerunOfSameRows(
      rows: seq<Version>, incoming: seq<Product>, again: seq<Product>, asOf: Day, now: int, asOf': Day, now': int)
    requires UniqueKeys(incoming, ProductId) && Chained(rows) && SameRows(incoming, again)
    ensures MergeSnapshot(rows, incoming, asOf, now).Merged?
    ensures var after := MergeSnapshot(rows, incoming, asOf, now).rows;
      MergeSnapshot(after, again, asOf', now') == Merged(after)
  {
    MergeIsUpToDate(rows, incoming, asOf, now);
    NothingToMerge(MergeSnapshot(rows, incoming, asOf, now).rows, again, asOf', now');
  }

  /** ... and so does re-running on the products just loaded. */
  lemma RerunOfFirstLoad(incoming: seq<Product>, again: seq<Product>, now: int, asOf': Day, now': int)
    requires UniqueKeys(incoming, ProductId) && SameRows(incoming, again)
    ensures MergeSnapshot(InitialLoad(incoming, now), again, asOf', now') == Merged(InitialLoad(incoming, now))
  {
    var rows := InitialLoad(incoming, now);
    InitialLoadIsChained(incoming, now);
    forall q | q in incoming
      ensures History(rows, q.id) != [] && !IsChanged(q, History(rows, q.id))
    {
      FindUnique(incoming, ProductId, q);
      HistoryOfOpened(incoming, None, now, q.id);
    }
    NothingToMerge(rows, again, asOf', now');
  }

  /** Re-running on the snapshot just merged leaves the table as it is, whenever it happens. */
  lemma RerunChangesNothing(rows: seq<Version>, incoming: seq<Product>, asOf: Day, now: int, asOf': Day, now': int)
    requires UniqueKeys(incoming, ProductId) && Chained(rows)
    ensures MergeSnapshot(rows, incoming, asOf, now).Merged?
    ensures var after := MergeSnapshot(rows, incoming, asOf, now).rows;
      MergeSnapshot(after, incoming, asOf', now') == Merged(after)
  {
    RerunOfSameRows(rows, incoming, incoming, asOf, now, asOf', now');
  }

  lemma StepSettles(h: seq<Version>, q: Product, asOf: Day, now: int)
    ensures var h' := Step(h, Some(q), asOf, now); h' != [] && !IsChanged(q, h')
  {
  }

  lemma MergeNothing(rows: seq<Version>, asOf: Day, now: int)
    ensures Merge(rows, [], asOf, now) == Merged(rows)
  {
    assert UpdateMatched(rows, [], asOf) == rows;
  }
}
