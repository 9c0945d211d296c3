/** Each order line joined to the product version valid on the order's date, with the earliest
    version as a flagged fallback. */
module PointInTime {
  import opened Tables
  import opened Scd2
  import opened Scd2Merge
  import opened Scd2History

  /** Rows of stg_orders and stg_order_items; money in cents. */
  datatype Order = Order(id: int, customer: int, day: Day)
  datatype Item = Item(id: int, orderId: int, productId: int, quantity: int, lineTotal: int)

  function OrderId(o: Order): int { o.id }
  function ItemOrderId(i: Item): int { i.orderId }

  /** The surrogate key of dim_products, taken to be free of hash collisions. */
  datatype ProductKey = ProductKey(id: int, processedAt: int)

  function KeyOf(v: Version): ProductKey { ProductKey(v.id, v.processedAt) }

  datatype Fact = Fact(
    itemId: int, orderId: int, customer: int, key: Option<ProductKey>, productId: int, day: Day,
    quantity: int, lineTotal: int, unitCost: Cell, costTotal: Option<int>, margin: Option<int>, fallback: bool)

  function Covering(rows: seq<Version>, p: int, d: Day): seq<Version> {
    if rows == [] then []
    else
      var n := |rows| - 1;
      Covering(rows[..n], p, d) + if rows[n].id == p && Covers(rows[n], d) then [rows[n]] else []
  }

  /** row_number() over (partition by product_id order by valid_from asc), as a descending stamp. */
  function Earliness(v: Version): int { -v.from }

  function Coalesce(a: Cell, b: Cell): Cell { if a.Null? then b else a }

  function CostOf(v: Option<Version>): Cell {
    if v.Some? then v.value.tracked[UNIT_COST] else Null
  }

  /** One joined row: `p` is the version covering the order date, `ev` the earliest version. */
  function Row(i: Item, o: Order, p: Option<Version>, ev: Option<Version>): Fact {
    var key := if p.Some? then Some(KeyOf(p.value)) else if ev.Some? then Some(KeyOf(ev.value)) else None;
    var cost := Coalesce(CostOf(p), CostOf(ev));
    var costTotal := if cost.Num? then Some(i.quantity * cost.cents) else None;
    var margin := if costTotal.Some? then Some(i.lineTotal - costTotal.value) else None;
    Fact(i.id, i.orderId, o.customer, key, i.productId, o.day, i.quantity, i.lineTotal, cost, costTotal, margin,
         p.None? && ev.Some?)
  }

  function RowsForVersion(i: Item, o: Order, p: Option<Version>, evs: seq<Option<Version>>): seq<Fact> {
    if evs == [] then [] else [Row(i, o, p, evs[0])] + RowsForVersion(i, o, p, evs[1..])
  }

  function RowsForOrder(i: Item, o: Order, ps: seq<Option<Version>>, evs: seq<Option<Version>>): seq<Fact> {
    if ps == [] then [] else RowsForVersion(i, o, ps[0], evs) + RowsForOrder(i, o, ps[1..], evs)
  }

  function RowsForOrders(i: Item, orders: seq<Order>, dims: seq<Version>, evs: seq<Version>): seq<Fact> {
    if orders == [] then []
    else
      var o := orders[0];
      RowsForOrder(i, o, LeftJoin(Covering(dims, i.productId, o.day)), LeftJoin(Where(evs, VersionId, i.productId)))
      + RowsForOrders(i, orders[1..], dims, evs)
  }

  /** The rows one order line contributes to fct_order_items. */
  function Joined(i: Item, orders: seq<Order>, dims: seq<Version>, evs: seq<Version>): seq<Fact> {
    RowsForOrders(i, Where(orders, OrderId, i.orderId), dims, evs)
  }

  function FactOrderItems(items: seq<Item>, orders: seq<Order>, dims: seq<Version>, evs: seq<Version>): seq<Fact> {
    if items == [] then []
    else
      var n := |items| - 1;
      FactOrderItems(items[..n], orders, dims, evs) + Joined(items[n], orders, dims, evs)
  }

  // ---------------------------------------------------------------- at most one version covers

  lemma {:induction false} CoveringSeesHistory(rows: seq<Version>, p: int, d: Day)
    ensures Covering(rows, p, d) == Covering(History(rows, p), p, d)
  {
    if rows != [] {
      var n := |rows| - 1;
      CoveringSeesHistory(rows[..n], p, d);
      var h, h' := History(rows[..n], p), History(rows, p);
      if rows[n].id == p {
        assert h' == h + [rows[n]] && h'[..|h'| - 1] == h && h'[|h'| - 1] == rows[n];
      } else {
        assert h' == h && Covering(rows, p, d) == Covering(rows[..n], p, d);
      }
    }
  }

  lemma {:induction false} CoveringMembers(h: seq<Version>, p: int, d: Day, v: Version)
    ensures v in Covering(h, p, d) <==> v in h && v.id == p && Covers(v, d)
  {
    if h != [] {
      CoveringMembers(h[..|h| - 1], p, d, v);
      assert h == h[..|h| - 1] + [h[|h| - 1]];
    }
  }

  lemma {:induction false} NoneCovers(h: seq<Version>, p: int, d: Day)
    requires forall i :: 0 <= i < |h| ==> !Covers(h[i], d)
    ensures Covering(h, p, d) == []
  {
    if h != [] {
      NoneCovers(h[..|h| - 1], p, d);
    }
  }

  lemma {:induction false} OneCovers(h: seq<Version>, p: int, d: Day)
    requires forall i, j :: 0 <= i < j < |h| ==> !(Covers(h[i], d) && Covers(h[j], d))
    ensures |Covering(h, p, d)| <= 1
  {
    if h != [] {
      var n := |h| - 1;
      if Covers(h[n], d) {
        NoneCovers(h[..n], p, d);
      } else {
        OneCovers(h[..n], p, d);
      }
    }
  }

  lemma AtMostOneVersion(dims: seq<Version>, log: seq<Load>, p: int, d: Day)
    requires Reflects(dims, log) && Forward(log)
    ensures |Covering(dims, p, d)| <= 1
    ensures forall v :: v in Covering(dims, p, d) <==> v in Replay(log, p) && Covers(v, d)
  {
    var h := Replay(log, p);
    assert History(dims, p) == h;
    CoveringSeesHistory(dims, p, d);
    ReplayIsChain(log, p);
    ReplayIsSorted(log, p);
    forall i, j | 0 <= i < j < |h|
      ensures !(Covers(h[i], d) && Covers(h[j], d))
    {
      if Covers(h[i], d) && Covers(h[j], d) {
        IntervalsAreDisjoint(h, p, d, i, j);
      }
    }
    OneCovers(h, p, d);
    forall v {
      CoveringMembers(h, p, d, v);
    }
  }

  /** The earliest version is one with the product's smallest start; which one is open when
      several share it. */
  lemma EarliestVersion(dims: seq<Version>, log: seq<Load>, rn: seq<nat>, p: int)
    requires Reflects(dims, log) && Forward(log) && Backdated(log, p)
    requires RowNumbers(dims, VersionId, Earliness, rn)
    ensures var h, ev := Replay(log, p), Find(Top(dims, rn), VersionId, p);
      && Where(Top(dims, rn), VersionId, p) == (if ev.Some? then [ev.value] else [])
      && (ev.Some? <==> h != [])
      && (ev.Some? ==> ev.value in h && ev.value.from == h[0].from)
  {
    var evs, h := Top(dims, rn), Replay(log, p);
    assert History(dims, p) == h;
    TopIsLatest(dims, VersionId, Earliness, rn);
    WhereUnique(evs, VersionId, p);
    var ev := Find(evs, VersionId, p);
    if ev.Some? {
      HistoryMembers(dims, p, ev.value);
    }
    if h != [] {
      HistoryMembers(dims, p, h[0]);
      assert Dominated(h[0], VersionId, Earliness, evs);
      var k :| 0 <= k < |evs| && VersionId(evs[k]) == p && Earliness(evs[k]) >= Earliness(h[0]);
      FindUnique(evs, VersionId, evs[k]);
      StartIsFirst(log, p, evs[k]);
    }
  }

  lemma StartIsFirst(log: seq<Load>, p: int, v: Version)
    requires Forward(log) && Backdated(log, p) && v in Replay(log, p)
    ensures Replay(log, p)[0].from <= v.from
  {
    ReplayIsSorted(log, p);
    var i :| 0 <= i < |Replay(log, p)| && Replay(log, p)[i] == v;
    InOrder(Replay(log, p), 0, 0, i);
  }

  // ---------------------------------------------------------------- the fact rows

  /** The version valid on day `d`: there is at most one, and one unless the product is unknown or
      `d` precedes its first version. */
  lemma VersionOn(dims: seq<Version>, log: seq<Load>, p: int, d: Day) returns (v: Option<Version>)
    requires Reflects(dims, log) && Forward(log) && Backdated(log, p)
    ensures Covering(dims, p, d) == if v.Some? then [v.value] else []
    ensures v.Some? ==> v.value in Replay(log, p) && Covers(v.value, d)
    ensures v.Some? <==> Replay(log, p) != [] && Replay(log, p)[0].from <= d
  {
    AtMostOneVersion(dims, log, p, d);
    var h, covering := Replay(log, p), Covering(dims, p, d);
    if h != [] && h[0].from <= d {
      ReplayIsChain(log, p);
      var k := NoGaps(h, p, d, |h| - 1);
      assert h[k] in covering;
      v := Some(covering[0]);
    } else {
      forall i | 0 <= i < |h|
        ensures !Covers(h[i], d)
      {
        StartIsFirst(log, p, h[i]);
      }
      assert History(dims, p) == h;
      CoveringSeesHistory(dims, p, d);
      NoneCovers(h, p, d);
      v := None;
    }
  }

  /** An order line with an order yields exactly one row, built from the version valid on the
      order date and an earliest version. The fallback is used exactly when the product is known
      and the order precedes its earliest version, and known products always get a key. */
  lemma OneFactPerItem(i: Item, o: Order, orders: seq<Order>, dims: seq<Version>, rn: seq<nat>, log: seq<Load>)
    returns (p: Option<Version>, ev: Option<Version>)
    requires Reflects(dims, log) && Forward(log) && Backdated(log, i.productId)
    requires RowNumbers(dims, VersionId, Earliness, rn)
    requires UniqueKeys(orders, OrderId) && o in orders && o.id == i.orderId
    ensures Joined(i, orders, dims, Top(dims, rn)) == [Row(i, o, p, ev)]
    ensures ev == Find(Top(dims, rn), VersionId, i.productId)
    ensures ev.Some? <==> Replay(log, i.productId) != []
    ensures ev.Some? ==> ev.value in Replay(log, i.productId) && ev.value.from == Replay(log, i.productId)[0].from
    ensures p.Some? ==> p.value in Replay(log, i.productId) && Covers(p.value, o.day)
    ensures Row(i, o, p, ev).fallback <==>
      Replay(log, i.productId) != [] && o.day < Replay(log, i.productId)[0].from
    ensures Row(i, o, p, ev).key.Some? <==> Replay(log, i.productId) != []
  {
    WhereUnique(orders, OrderId, i.orderId);
    FindUnique(orders, OrderId, o);
    p := VersionOn(dims, log, i.productId, o.day);
    EarliestVersion(dims, log, rn, i.productId);
    ev := Find(Top(dims, rn), VersionId, i.productId);
    OneRow(i, o, orders, dims, Top(dims, rn), p, ev);
  }

  lemma OneRow(
      i: Item, o: Order, orders: seq<Order>, dims: seq<Version>, evs: seq<Version>,
      p: Option<Version>, ev: Option<Version>)
    requires Where(orders, OrderId, i.orderId) == [o]
    requires Covering(dims, i.productId, o.day) == if p.Some? then [p.value] else []
    requires Where(evs, VersionId, i.productId) == if ev.Some? then [ev.value] else []
    ensures Joined(i, orders, dims, evs) == [Row(i, o, p, ev)]
  {
    var ps, es := LeftJoin(Covering(dims, i.productId, o.day)), LeftJoin(Where(evs, VersionId, i.productId));
    assert ps == [p] && es == [ev];
    assert RowsForVersion(i, o, p, es[1..]) == [];
    assert RowsForOrder(i, o, ps[1..], es) == [];
    assert RowsForOrders(i, [o][1..], dims, evs) == [];
  }

  /** Even when the first load's as-of date precedes a creation day, a line with an order yields
      exactly one row. */
  lemma NeverFansOut(i: Item, o: Order, orders: seq<Order>, dims: seq<Version>, rn: seq<nat>, log: seq<Load>)
    returns (p: Option<Version>, ev: Option<Version>)
    requires Reflects(dims, log) && Forward(log)
    requires RowNumbers(dims, VersionId, Earliness, rn)
    requires UniqueKeys(orders, OrderId) && o in orders && o.id == i.orderId
    ensures Joined(i, orders, dims, Top(dims, rn)) == [Row(i, o, p, ev)]
  {
    WhereUnique(orders, OrderId, i.orderId);
    FindUnique(orders, OrderId, o);
    AtMostOneVersion(dims, log, i.productId, o.day);
    TopIsLatest(dims, VersionId, Earliness, rn);
    WhereUnique(Top(dims, rn), VersionId, i.productId);
    var covering := Covering(dims, i.productId, o.day);
    p := if covering == [] then None else Some(covering[0]);
    ev := Find(Top(dims, rn), VersionId, i.productId);
    OneRow(i, o, orders, dims, Top(dims, rn), p, ev);
  }

  /** An order line whose order is missing yields no row. */
  lemma NoFactForOrphan(i: Item, orders: seq<Order>, dims: seq<Version>, evs: seq<Version>)
    requires forall o :: o in orders ==> o.id != i.orderId
    ensures Joined(i, orders, dims, evs) == []
  {
    if Where(orders, OrderId, i.orderId) != [] {
      WhereMembers(orders, OrderId, i.orderId, Where(orders, OrderId, i.orderId)[0]);
    }
  }

  /** `f` is line `i` of order `o`, costed at `cost` a piece; without a cost it has no margin. */
  ghost predicate Charges(f: Fact, i: Item, o: Order, cost: Cell) {
    && f.itemId == i.id && f.orderId == i.orderId && f.customer == o.customer && f.day == o.day
    && f.productId == i.productId && f.quantity == i.quantity && f.lineTotal == i.lineTotal && f.unitCost == cost
    && (cost.Num? ==>
          && f.costTotal == Some(i.quantity * cost.cents)
          && f.margin.Some? && f.margin.value + f.costTotal.value == f.lineTotal)
    && (!cost.Num? ==> f.costTotal.None? && f.margin.None?)
  }

  /** What a row takes from the version covering the order date, and what from the earliest. */
  lemma RowTakes(i: Item, o: Order, p: Option<Version>, ev: Option<Version>)
    ensures var f := Row(i, o, p, ev);
      && Charges(f, i, o, f.unitCost) && (f.fallback <==> p.None? && ev.Some?)
      && (p.Some? ==> f.key == Some(KeyOf(p.value)))
      && (p.Some? && !p.value.tracked[UNIT_COST].Null? ==> f.unitCost == p.value.tracked[UNIT_COST])
      && (p.None? && ev.Some? ==> f.key == Some(KeyOf(ev.value)))
      && (p.None? && ev.None? ==> f.key.None? && f.unitCost.Null?)
  {
  }

  lemma OnlyVersionOn(dims: seq<Version>, log: seq<Load>, p: int, d: Day, v: Option<Version>)
    requires Reflects(dims, log) && Forward(log)
    requires Covering(dims, p, d) == if v.Some? then [v.value] else []
    ensures forall w :: w in Replay(log, p) && Covers(w, d) <==> v == Some(w)
  {
    AtMostOneVersion(dims, log, p, d);
    assert forall w :: w in Covering(dims, p, d) <==> v == Some(w);
  }

  /** The row a line with an order joins to, whatever the log: it references the version covering
      the order date; before the first version, one with the smallest start, and flagged; for a
      product never seen, nothing. */
  lemma FactReferencesCoveringVersion(
      i: Item, o: Order, orders: seq<Order>, dims: seq<Version>, rn: seq<nat>, log: seq<Load>)
    returns (f: Fact)
    requires Reflects(dims, log) && Forward(log) && Backdated(log, i.productId)
    requires RowNumbers(dims, VersionId, Earliness, rn)
    requires UniqueKeys(orders, OrderId) && o in orders && o.id == i.orderId
    ensures Joined(i, orders, dims, Top(dims, rn)) == [f] && Charges(f, i, o, f.unitCost)
    ensures forall v :: v in Replay(log, i.productId) && Covers(v, o.day) ==>
      && f.key == Some(KeyOf(v)) && !f.fallback
      && (!v.tracked[UNIT_COST].Null? ==> f.unitCost == v.tracked[UNIT_COST])
    ensures var h := Replay(log, i.productId);
      && (h == [] ==> f.key.None? && f.unitCost.Null? && !f.fallback)
      && (h != [] && o.day < h[0].from ==>
            f.fallback && exists v :: v in h && v.from == h[0].from && f.key == Some(KeyOf(v)))
      && (h != [] && h[0].from <= o.day ==> exists v :: v in h && Covers(v, o.day))
  {
    var p := VersionOn(dims, log, i.productId, o.day);
    EarliestVersion(dims, log, rn, i.productId);
    var ev := Find(Top(dims, rn), VersionId, i.productId);
    WhereUnique(orders, OrderId, i.orderId);
    FindUnique(orders, OrderId, o);
    OneRow(i, o, orders, dims, Top(dims, rn), p, ev);
    OnlyVersionOn(dims, log, i.productId, o.day, p);
    RowTakes(i, o, p, ev);
    f := Row(i, o, p, ev);
  }

  /** With later runs stamped later, no other row of the dimension has the key a fact references. */
  lemma FactKeyIsOneVersion(
      i: Item, o: Order, orders: seq<Order>, dims: seq<Version>, rn: seq<nat>, log: seq<Load>, v: Version)
    requires Reflects(dims, log) && Forward(log) && Backdated(log, i.productId) && ClockForward(log)
    requires RowNumbers(dims, VersionId, Earliness, rn)
    requires UniqueKeys(orders, OrderId) && o in orders && o.id == i.orderId
    requires v in Replay(log, i.productId) && Covers(v, o.day)
    ensures var rows := Joined(i, orders, dims, Top(dims, rn));
      |rows| == 1 && v in dims && forall w :: w in dims && Some(KeyOf(w)) == rows[0].key ==> w == v
  {
    var f := FactReferencesCoveringVersion(i, o, orders, dims, rn, log);
    SurrogateKeyIsUnique(dims, log);
    assert History(dims, i.productId) == Replay(log, i.productId);
    HistoryMembers(dims, i.productId, v);
    forall w | w in dims && KeyOf(w) == KeyOf(v)
      ensures w == v
    {
      FindUnique(dims, KeyOf, w);
      FindUnique(dims, KeyOf, v);
    }
  }

  lemma {:induction false} RowsForVersionAre(
      i: Item, o: Order, p: Option<Version>, evs: seq<Option<Version>>, f: Fact)
    requires f in RowsForVersion(i, o, p, evs)
    ensures Charges(f, i, o, f.unitCost)
  {
    if f != Row(i, o, p, evs[0]) {
      RowsForVersionAre(i, o, p, evs[1..], f);
    }
  }

  lemma {:induction false} RowsForOrderAre(
      i: Item, o: Order, ps: seq<Option<Version>>, evs: seq<Option<Version>>, f: Fact)
    requires f in RowsForOrder(i, o, ps, evs)
    ensures Charges(f, i, o, f.unitCost)
  {
    if f in RowsForVersion(i, o, ps[0], evs) {
      RowsForVersionAre(i, o, ps[0], evs, f);
    } else {
      RowsForOrderAre(i, o, ps[1..], evs, f);
    }
  }

  lemma {:induction false} RowsForOrdersAre(
      i: Item, orders: seq<Order>, dims: seq<Version>, evs: seq<Version>, f: Fact)
    requires f in RowsForOrders(i, orders, dims, evs)
    ensures exists o :: o in orders && Charges(f, i, o, f.unitCost)
  {
    var o := orders[0];
    var ps, es := LeftJoin(Covering(dims, i.productId, o.day)), LeftJoin(Where(evs, VersionId, i.productId));
    if f in RowsForOrder(i, o, ps, es) {
      RowsForOrderAre(i, o, ps, es, f);
    } else {
      RowsForOrdersAre(i, orders[1..], dims, evs, f);
    }
  }

  /** Every row of the fact is a line of its own order, with that order's customer and day. */
  lemma {:induction false} FactsAreLines(
      items: seq<Item>, orders: seq<Order>, dims: seq<Version>, evs: seq<Version>, f: Fact)
    returns (i: Item, o: Order)
    requires f in FactOrderItems(items, orders, dims, evs)
    ensures i in items && o in orders && o.id == i.orderId && Charges(f, i, o, f.unitCost)
  {
    var n := |items| - 1;
    i := items[n];
    if f in Joined(i, orders, dims, evs) {
      RowsForOrdersAre(i, Where(orders, OrderId, i.orderId), dims, evs, f);
      o :| o in Where(orders, OrderId, i.orderId) && Charges(f, i, o, f.unitCost);
      WhereMembers(orders, OrderId, i.orderId, o);
    } else {
      i, o := FactsAreLines(items[..n], orders, dims, evs, f);
    }
  }

  /** On days a run governs, there is a covering version and it holds that run's tracked columns. */
  lemma CoveringOfGoverned(log: seq<Load>, p: int, d: Day, k: nat)
    requires Forward(log) && Backdated(log, p) && NoHiddenChange(log, p) && Governs(log, p, d, k)
    ensures Replay(log, p) != [] && Replay(log, p)[0].from <= d
    ensures forall v :: v in Replay(log, p) && Covers(v, d) ==> v.tracked == RowIn(log[k], p).value.tracked
  {
    VersionShowsGoverningSnapshot(log, p, d);
    var w :| w in Replay(log, p) && Covers(w, d);
    StartIsFirst(log, p, w);
  }

  /** The joined row on a governed day: costed by coalesce over the governing snapshot and the
      earliest version, and never flagged. */
  lemma GovernedRow(i: Item, o: Order, orders: seq<Order>, dims: seq<Version>, rn: seq<nat>, log: seq<Load>, k: nat)
    returns (ev: Version)
    requires Reflects(dims, log) && Forward(log) && Backdated(log, i.productId) && NoHiddenChange(log, i.productId)
    requires RowNumbers(dims, VersionId, Earliness, rn)
    requires UniqueKeys(orders, OrderId) && o in orders && o.id == i.orderId
    requires Governs(log, i.productId, o.day, k)
    ensures Find(Top(dims, rn), VersionId, i.productId) == Some(ev)
    ensures ev in Replay(log, i.productId) && ev.from == Replay(log, i.productId)[0].from
    ensures var rows := Joined(i, orders, dims, Top(dims, rn));
      var cost := RowIn(log[k], i.productId).value.tracked[UNIT_COST];
      |rows| == 1 && !rows[0].fallback && Charges(rows[0], i, o, Coalesce(cost, ev.tracked[UNIT_COST]))
  {
    CoveringOfGoverned(log, i.productId, o.day, k);
    var p, e := OneFactPerItem(i, o, orders, dims, rn, log);
    ev := e.value;
  }

  /** End to end: unless it is null there, the cost at sale is the cost in the last snapshot taken
      up to the order date that held the product, and it is not flagged. */
  lemma CostAtSaleIsGoverningCost(
      i: Item, o: Order, orders: seq<Order>, dims: seq<Version>, rn: seq<nat>, log: seq<Load>, k: nat)
    requires Reflects(dims, log) && Forward(log) && Backdated(log, i.productId) && NoHiddenChange(log, i.productId)
    requires RowNumbers(dims, VersionId, Earliness, rn)
    requires UniqueKeys(orders, OrderId) && o in orders && o.id == i.orderId
    requires Governs(log, i.productId, o.day, k) && !RowIn(log[k], i.productId).value.tracked[UNIT_COST].Null?
    ensures var rows := Joined(i, orders, dims, Top(dims, rn));
      |rows| == 1 && !rows[0].fallback && Charges(rows[0], i, o, RowIn(log[k], i.productId).value.tracked[UNIT_COST])
  {
    var ev := GovernedRow(i, o, orders, dims, rn, log, k);
  }

  /** The other case: the charged cost differs from the governing snapshot's if and only if that
      one is null and the earliest version's is not, `ev` being the one the engine numbered first.
      Then it is the earliest version's, and the fallback is not flagged. */
  lemma SilentFallbackExactlyIfNull(
      i: Item, o: Order, orders: seq<Order>, dims: seq<Version>, rn: seq<nat>, log: seq<Load>, k: nat)
    returns (ev: Version)
    requires Reflects(dims, log) && Forward(log) && Backdated(log, i.productId) && NoHiddenChange(log, i.productId)
    requires RowNumbers(dims, VersionId, Earliness, rn)
    requires UniqueKeys(orders, OrderId) && o in orders && o.id == i.orderId
    requires Governs(log, i.productId, o.day, k)
    ensures Find(Top(dims, rn), VersionId, i.productId) == Some(ev)
    ensures ev in Replay(log, i.productId) && ev.from == Replay(log, i.productId)[0].from
    ensures var rows := Joined(i, orders, dims, Top(dims, rn));
      var cost := RowIn(log[k], i.productId).value.tracked[UNIT_COST];
      && |rows| == 1 && !rows[0].fallback
      && (rows[0].unitCost != cost <==> cost.Null? && !ev.tracked[UNIT_COST].Null?)
      && (cost.Null? ==> rows[0].unitCost == ev.tracked[UNIT_COST])
  {
    ev := GovernedRow(i, o, orders, dims, rn, log, k);
  }

  /** Such a log exists: a cost that becomes null together with a price change. An order after the
      change is governed by the null and charged the first version's 100, without the flag. */
  lemma NullCostIsChargedSilently() returns (log: seq<Load>, d: Day)
    ensures Forward(log) && Backdated(log, 1) && NoHiddenChange(log, 1) && Governs(log, 1, d, 1)
    ensures RowIn(log[1], 1).value.tracked[UNIT_COST].Null? && Replay(log, 1) != []
    ensures forall v :: v in Replay(log, 1) && v.from == Replay(log, 1)[0].from ==> v.tracked[UNIT_COST] == Num(100)
  {
    var priced := Product(1, "", [Num(100), Num(200), Flag(true)], 0);
    var unpriced := priced.(tracked := [Null, Num(250), Flag(true)]);
    log, d := [Load(0, [priced], 1), Load(5, [unpriced], 2)], 7;
    assert log[..1] == [log[0]] && log[..1][..0] == [];
    assert RowIn(log[0], 1) == Some(priced) && RowIn(log[1], 1) == Some(unpriced);
    assert Detectable(unpriced.tracked, priced.tracked, 1);
    assert LastIn([], 1) == None && LastIn(log[..1], 1) == Some(priced);
    assert NoHiddenChange([], 1) && NoHiddenChange(log[..1], 1);
    assert Replay(log[..1], 1) == [Open(priced, 0, 1)];
    assert Replay(log, 1) == Step(Replay(log[..1], 1), Some(unpriced), 5, 2);
    assert Replay(log, 1) == [Open(priced, 0, 1).(current := false, to := Some(5))] + [Open(unpriced, 5, 2)];
  }

  /** Before the earliest version the cost is that of a version with the smallest start. */
  lemma FallbackCostIsAnEarliestCost(
      i: Item, o: Order, orders: seq<Order>, dims: seq<Version>, rn: seq<nat>, log: seq<Load>)
    requires Reflects(dims, log) && Forward(log) && Backdated(log, i.productId)
    requires RowNumbers(dims, VersionId, Earliness, rn)
    requires UniqueKeys(orders, OrderId) && o in orders && o.id == i.orderId
    requires Replay(log, i.productId) != [] && o.day < Replay(log, i.productId)[0].from
    ensures var rows := Joined(i, orders, dims, Top(dims, rn));
      && |rows| == 1 && rows[0].fallback
      && exists v :: v in Replay(log, i.productId) && v.from == Replay(log, i.productId)[0].from
           && rows[0].unitCost == v.tracked[UNIT_COST] && rows[0].key == Some(KeyOf(v))
  {
    var p, ev := OneFactPerItem(i, o, orders, dims, rn, log);
    assert ev.value in Replay(log, i.productId);
  }

  /** Where ties matter: a product first seen and repriced on one day has two earliest versions,
      and the two numberings an engine may choose give the fallback two different costs. */
  lemma FallbackTieMatters() returns (dims: seq<Version>, log: seq<Load>, a: seq<nat>, b: seq<nat>)
    ensures Forward(log) && Backdated(log, 1) && History(dims, 1) == Replay(log, 1)
    ensures RowNumbers(dims, VersionId, Earliness, a) && RowNumbers(dims, VersionId, Earliness, b)
    ensures Find(Top(dims, a), VersionId, 1).Some? && Find(Top(dims, b), VersionId, 1).Some?
    ensures CostOf(Find(Top(dims, a), VersionId, 1)) != CostOf(Find(Top(dims, b), VersionId, 1))
  {
    var cheap := Product(1, "", [Num(100), Num(200), Flag(true)], 5);
    var dear := Product(1, "", [Num(150), Num(200), Flag(true)], 5);
    assert Detectable(dear.tracked, cheap.tracked, 0);
    log, a, b := [Load(5, [cheap], 1), Load(5, [dear], 2)], [1, 2], [2, 1];
    var v, w := Open(cheap, 5, 1).(current := false, to := Some(5)), Open(dear, 5, 2);
    dims := [v, w];
    TiedReplay(cheap, dear);
    TiedHistory(v, w);
    TiedRows(v, w);
  }

  lemma TiedReplay(q: Product, r: Product)
    requires q.id == r.id && Differs(r.tracked, q.tracked)
    ensures Replay([Load(q.createdOn, [q], 1), Load(q.createdOn, [r], 2)], q.id)
         == [Open(q, q.createdOn, 1).(current := false, to := Some(q.createdOn)), Open(r, q.createdOn, 2)]
  {
    var log := [Load(q.createdOn, [q], 1), Load(q.createdOn, [r], 2)];
    assert log[..1] == [log[0]];
    assert RowIn(log[0], q.id) == Some(q) && RowIn(log[1], q.id) == Some(r);
    assert Replay([log[0]], q.id) == [Open(q, q.createdOn, 1)];
  }

  lemma TiedHistory(v: Version, w: Version)
    requires v.id == w.id
    ensures History([v, w], v.id) == [v, w]
  {
    HistoryOfConcat([v], [w], v.id);
    HistoryOfOne(v, v.id);
    HistoryOfOne(w, v.id);
    assert [v] + [w] == [v, w];
  }

  lemma TiedRows(v: Version, w: Version)
    requires v.id == w.id && v.from == w.from
    ensures RowNumbers([v, w], VersionId, Earliness, [1, 2]) && Top([v, w], [1, 2]) == [v]
    ensures RowNumbers([v, w], VersionId, Earliness, [2, 1]) && Top([v, w], [2, 1]) == [w]
  {
    TiedNumbering([v, w], 0);
    TiedNumbering([v, w], 1);
    TopOfTwo(v, w, 1, 2);
    TopOfTwo(v, w, 2, 1);
  }

  lemma TopOfTwo(v: Version, w: Version, m: nat, n: nat)
    ensures Top([v, w], [m, n]) == (if m == 1 then [v] else []) + if n == 1 then [w] else []
  {
    assert [v, w][..1] == [v] && [m, n][..1] == [m];
    assert Top([v], [m]) == if m == 1 then [v] else [] by { assert [v][..0] == []; }
  }

  lemma TiedNumbering(rows: seq<Version>, first: nat)
    requires |rows| == 2 && rows[0].id == rows[1].id && rows[0].from == rows[1].from && first < 2
    ensures RowNumbers(rows, VersionId, Earliness, if first == 0 then [1, 2] else [2, 1])
  {
    var rn: seq<nat> := if first == 0 then [1, 2] else [2, 1];
    assert rn[first] + 1 == rn[1 - first];
    assert HasPredecessor(rows, VersionId, rn, 1 - first);
    assert forall i :: 0 <= i < 2 && rn[i] > 1 ==> i == 1 - first;
    assert Earliness(rows[0]) == Earliness(rows[1]);
  }

  // ---------------------------------------------------------------- the surrogate key

  /** dim_products' surrogate key is unique when later runs are stamped strictly later. */
  lemma SurrogateKeyIsUnique(dims: seq<Version>, log: seq<Load>)
    requires Reflects(dims, log) && ClockForward(log)
    ensures UniqueKeys(dims, KeyOf)
  {
    forall i, j | 0 <= i < j < |dims|
      ensures KeyOf(dims[i]) != KeyOf(dims[j])
    {
      if dims[i].id == dims[j].id {
        var a, b := HistoryKeepsOrder(dims, i, j);
        StampsIdentifyVersions(log, dims[i].id);
        assert History(dims, dims[i].id) == Replay(log, dims[i].id);
      }
    }
  }
}
