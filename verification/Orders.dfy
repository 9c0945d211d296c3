/** silver.orders: bronze deduplicated by latest ingest, then MERGEd on order_id. */
module Orders {
  import opened Tables

  /** `payload` stands for the columns nothing here looks at. Times are instants. */
  datatype Order = Order(id: int, updatedAt: int, month: int, payload: int)
  datatype BronzeRow = BronzeRow(order: Order, ingestedAt: int)

  function OrderId(o: Order): int { o.id }
  function BronzeId(r: BronzeRow): int { r.order.id }
  function IngestedAt(r: BronzeRow): int { r.ingestedAt }

  function OrdersOf(rows: seq<BronzeRow>): (os: seq<Order>)
    ensures |os| == |rows| && forall i :: 0 <= i < |os| ==> os[i] == rows[i].order
  {
    seq(|rows|, i requires 0 <= i < |rows| => rows[i].order)
  }

  /** Delta refuses a MERGE in which two source rows match one target row. */
  predicate Ambiguous(target: seq<Order>, source: seq<Order>) {
    exists k, i, j :: 0 <= k < |target| && 0 <= i < j < |source| && source[i].id == target[k].id == source[j].id
  }

  /** whenMatchedUpdateAll */
  function Updated(target: seq<Order>, source: seq<Order>): (rows: seq<Order>)
    ensures |rows| == |target|
    ensures forall i :: 0 <= i < |rows| ==> rows[i] == Matched(target[i], source)
  {
    seq(|target|, i requires 0 <= i < |target| => Matched(target[i], source))
  }

  function Matched(t: Order, source: seq<Order>): Order {
    match Find(source, OrderId, t.id) case None => t case Some(s) => s
  }

  /** whenNotMatchedInsertAll */
  function Unmatched(source: seq<Order>, target: seq<Order>): seq<Order> {
    if source == [] then []
    else
      var n := |source| - 1;
      Unmatched(source[..n], target) + if Find(target, OrderId, source[n].id).None? then [source[n]] else []
  }

  datatype MergeOutcome = Merged(rows: seq<Order>) | AmbiguousMatch

  function Merge(target: seq<Order>, source: seq<Order>): MergeOutcome {
    if Ambiguous(target, source) then AmbiguousMatch
    else Merged(Updated(target, source) + Unmatched(source, target))
  }

  /** The silver job: `rn` is the engine's numbering of bronze; a missing table is created. */
  function SilverRun(silver: Option<seq<Order>>, bronze: seq<BronzeRow>, rn: seq<nat>): MergeOutcome
    requires |rn| == |bronze|
  {
    var deduped := OrdersOf(Top(bronze, rn));
    if silver.None? then Merged(deduped) else Merge(silver.value, deduped)
  }

  // ---------------------------------------------------------------- what a MERGE leaves

  lemma {:induction false} UnmatchedMembers(source: seq<Order>, target: seq<Order>, r: Order)
    ensures r in Unmatched(source, target) <==> r in source && Find(target, OrderId, r.id).None?
  {
    if source != [] {
      var n := |source| - 1;
      UnmatchedMembers(source[..n], target, r);
      assert source == source[..n] + [source[n]];
    }
  }

  lemma {:induction false} UnmatchedUnique(source: seq<Order>, target: seq<Order>)
    requires UniqueKeys(source, OrderId)
    ensures UniqueKeys(Unmatched(source, target), OrderId)
  {
    if source != [] {
      var n := |source| - 1;
      UnmatchedUnique(source[..n], target);
      var before := Unmatched(source[..n], target);
      forall i | 0 <= i < |before|
        ensures OrderId(before[i]) != OrderId(source[n])
      {
        UnmatchedMembers(source[..n], target, before[i]);
        assert before[i] in source[..n];
      }
    }
  }

  lemma MergeSucceeds(target: seq<Order>, source: seq<Order>)
    requires UniqueKeys(source, OrderId)
    ensures Merge(target, source).Merged?
  {
    forall i, j | 0 <= i < j < |source|
      ensures source[i].id != source[j].id
    {
      assert OrderId(source[i]) != OrderId(source[j]);
    }
  }

  /** order_id stays unique, whatever the target held before. */
  lemma MergeKeepsIdsUnique(target: seq<Order>, source: seq<Order>)
    requires UniqueKeys(target, OrderId) && UniqueKeys(source, OrderId)
    ensures Merge(target, source).Merged?
    ensures UniqueKeys(Merge(target, source).rows, OrderId)
  {
    MergeSucceeds(target, source);
    UnmatchedUnique(source, target);
    var u, w := Updated(target, source), Unmatched(source, target);
    forall i, j | 0 <= i < j < |u + w|
      ensures OrderId((u + w)[i]) != OrderId((u + w)[j])
    {
      if j < |u| {
        assert OrderId(target[i]) != OrderId(target[j]);
      } else if i < |u| {
        UnmatchedMembers(source, target, w[j - |u|]);
        assert target[i] in target;
      }
    }
  }

  /** The merged table: every source row, and the target rows whose order the source lacks. */
  lemma MergeContents(target: seq<Order>, source: seq<Order>, r: Order)
    requires UniqueKeys(source, OrderId)
    ensures Merge(target, source).Merged?
    ensures r in Merge(target, source).rows <==>
      r in source || (r in target && Find(source, OrderId, r.id).None?)
  {
    MergeSucceeds(target, source);
    var u, w := Updated(target, source), Unmatched(source, target);
    UnmatchedMembers(source, target, r);
    if r in u {
      var i :| 0 <= i < |u| && u[i] == r;
      assert target[i] in target;
    }
    if r in source {
      FindUnique(source, OrderId, r);
      var t := Find(target, OrderId, r.id);
      if t.Some? {
        var i :| 0 <= i < |target| && target[i] == t.value;
        assert u[i] == r;
      }
    }
    if r in target && Find(source, OrderId, r.id).None? {
      var i :| 0 <= i < |target| && target[i] == r;
      assert u[i] == r;
    }
  }

  lemma {:induction false} NothingUnmatched(source: seq<Order>, target: seq<Order>)
    requires forall s :: s in source ==> Find(target, OrderId, s.id).Some?
    ensures Unmatched(source, target) == []
  {
    if source != [] {
      NothingUnmatched(source[..|source| - 1], target);
      assert source[|source| - 1] in source;
    }
  }

  /** Merging the same bronze again is a no-op. */
  lemma MergeIsIdempotent(target: seq<Order>, source: seq<Order>)
    requires UniqueKeys(source, OrderId)
    ensures Merge(target, source).Merged?
    ensures Merge(Merge(target, source).rows, source) == Merge(target, source)
  {
    MergeSucceeds(target, source);
    var after := Merge(target, source).rows;
    MergeSucceeds(after, source);
    forall s | s in source
      ensures Find(after, OrderId, s.id).Some?
    {
      MergeContents(target, source, s);
    }
    NothingUnmatched(source, after);
    forall i | 0 <= i < |after|
      ensures Matched(after[i], source) == after[i]
    {
      MergeContents(target, source, after[i]);
      assert after[i] in after;
      if after[i] in source {
        FindUnique(source, OrderId, after[i]);
      }
    }
    assert Updated(after, source) == after;
  }

  /** Deleting rows and merging gives the table merging alone would have given exactly when
      bronze still holds every deleted order. */
  lemma DeleteThenMerge(target: seq<Order>, kept: seq<Order>, source: seq<Order>)
    requires UniqueKeys(target, OrderId) && UniqueKeys(kept, OrderId) && UniqueKeys(source, OrderId)
    requires forall r :: r in kept ==> r in target
    ensures Merge(target, source).Merged? && Merge(kept, source).Merged?
    ensures multiset(Merge(kept, source).rows) == multiset(Merge(target, source).rows) <==>
      forall r :: r in target && r !in kept ==> Find(source, OrderId, r.id).Some?
  {
    MergeKeepsIdsUnique(target, source);
    MergeKeepsIdsUnique(kept, source);
    var a, b := Merge(kept, source).rows, Merge(target, source).rows;
    if forall r :: r in target && r !in kept ==> Find(source, OrderId, r.id).Some? {
      SameAfterDelete(target, kept, source);
      SameBag(a, b, OrderId);
    }
    if multiset(a) == multiset(b) {
      forall r | r in target && r !in kept
        ensures Find(source, OrderId, r.id).Some?
      {
        MergeContents(target, source, r);
        MergeContents(kept, source, r);
        assert r in a <==> r in multiset(a);
        assert r in b <==> r in multiset(b);
      }
    }
  }

  lemma SameAfterDelete(target: seq<Order>, kept: seq<Order>, source: seq<Order>)
    requires UniqueKeys(source, OrderId)
    requires forall r :: r in kept ==> r in target
    requires forall r :: r in target && r !in kept ==> Find(source, OrderId, r.id).Some?
    ensures Merge(target, source).Merged? && Merge(kept, source).Merged?
    ensures SameRows(Merge(kept, source).rows, Merge(target, source).rows)
  {
    MergeSucceeds(target, source);
    MergeSucceeds(kept, source);
    var a, b := Merge(kept, source).rows, Merge(target, source).rows;
    forall r | r in a || r in b
      ensures r in a <==> r in b
    {
      MergeContents(target, source, r);
      MergeContents(kept, source, r);
    }
  }

  /** Any numbering of bronze deduplicates it to one order per id. */
  lemma DedupedUnique(bronze: seq<BronzeRow>, rn: seq<nat>)
    requires RowNumbers(bronze, BronzeId, IngestedAt, rn)
    ensures UniqueKeys(OrdersOf(Top(bronze, rn)), OrderId)
  {
    TopIsLatest(bronze, BronzeId, IngestedAt, rn);
    var kept := Top(bronze, rn);
    forall i, j | 0 <= i < j < |kept|
      ensures OrderId(OrdersOf(kept)[i]) != OrderId(OrdersOf(kept)[j])
    {
      assert BronzeId(kept[i]) != BronzeId(kept[j]);
    }
  }
}
