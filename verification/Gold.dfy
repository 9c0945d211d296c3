/** The gold rollups: joins and group-bys that neither lose nor multiply money once order ids are
    unique and no child row is orphaned. */
module Gold {
  import opened Tables
  import opened Scd2
  import opened Scd2History
  import opened Scd2Merge
  import opened PointInTime
  import Identity

  datatype Payment = Payment(id: int, orderId: int, amount: int)

  function PaymentOrderId(p: Payment): int { p.orderId }

  function Sum<T>(rows: seq<T>, amount: T -> int): int {
    if rows == [] then 0 else Sum(rows[..|rows| - 1], amount) + amount(rows[|rows| - 1])
  }

  function LineTotal(i: Item): int { i.lineTotal }
  function Quantity(i: Item): int { i.quantity }
  function One(i: Item): int { 1 }
  function Amount(p: Payment): int { p.amount }
  function OnePayment(p: Payment): int { 1 }
  function FactTotal(f: Fact): int { f.lineTotal }

  lemma {:induction false} SumOfConcat<T>(a: seq<T>, b: seq<T>, amount: T -> int)
    ensures Sum(a + b, amount) == Sum(a, amount) + Sum(b, amount)
  {
    if b == [] {
      assert a + b == a;
    } else {
      var n := |b| - 1;
      SumOfConcat(a, b[..n], amount);
      assert (a + b)[..|a| + n] == a + b[..n];
    }
  }

  // ---------------------------------------------------------------- stg_orders

  /** One left-joined row per match of the order's customer in the identity map. */
  function WithCustomers(o: Order, ids: seq<int>): (rows: seq<Order>)
    ensures |rows| == |ids| && forall k :: 0 <= k < |ids| ==> rows[k] == o.(customer := ids[k])
  {
    seq(|ids|, k requires 0 <= k < |ids| => o.(customer := ids[k]))
  }

  function StgOrders(orders: seq<Order>, map': seq<Identity.MapRow>): seq<Order> {
    if orders == [] then []
    else
      var n := |orders| - 1;
      StgOrders(orders[..n], map') + WithCustomers(orders[n], Identity.Remapped(map', orders[n].customer))
  }

  /** A known customer becomes the one whose list has taken it in, an unknown one stays. */
  ghost predicate SentTo(customers: seq<Identity.Customer>, before: int, after: int) {
    && (forall r :: r in Identity.Resolve(customers) && before in r.sourceIds ==> after == r.id)
    && ((exists c :: c in customers && c.id == before) ==>
          exists r :: r in Identity.Resolve(customers) && before in r.sourceIds && after == r.id)
    && ((forall c :: c in customers ==> c.id != before) ==> after == before)
  }

  lemma RemapSends(customers: seq<Identity.Customer>, customer: int)
    requires UniqueKeys(customers, Identity.CustomerId)
    ensures var ids := Identity.Remapped(Identity.IdentityMap(Identity.Resolve(customers)), customer);
      |ids| == 1 && SentTo(customers, customer, ids[0])
  {
    var out := Identity.Resolve(customers);
    Identity.RemapIsSound(customers, customer);
    forall r | r in out && customer in r.sourceIds
      ensures Identity.Remapped(Identity.IdentityMap(out), customer) == [r.id]
    {
      Identity.MapTo(customers, customer, r);
      Identity.ResolvedIsDisjoint(customers);
      Identity.MapUnique(out);
      WhereUnique(Identity.IdentityMap(out), Identity.Original, customer);
    }
    if c :| c in customers && c.id == customer {
      var r := Identity.IdentityOf(customers, c);
    }
  }

  ghost predicate RemapsTo(map': seq<Identity.MapRow>, o: Order, staged: Order) {
    Identity.Remapped(map', o.customer) == [staged.customer] && staged == o.(customer := staged.customer)
  }

  lemma StgNext(orders: seq<Order>, map': seq<Identity.MapRow>) returns (staged: Order)
    requires orders != [] && |Identity.Remapped(map', orders[|orders| - 1].customer)| == 1
    ensures RemapsTo(map', orders[|orders| - 1], staged)
    ensures StgOrders(orders, map') == StgOrders(orders[..|orders| - 1], map') + [staged]
  {
    var o := orders[|orders| - 1];
    var ids := Identity.Remapped(map', o.customer);
    staged := o.(customer := ids[0]);
    assert WithCustomers(o, ids) == [staged] && ids == [staged.customer];
  }

  ghost predicate AllRemapped(map': seq<Identity.MapRow>, orders: seq<Order>, stg: seq<Order>) {
    |stg| == |orders| && forall k :: 0 <= k < |orders| ==> RemapsTo(map', orders[k], stg[k])
  }

  lemma NextRemapped(map': seq<Identity.MapRow>, orders: seq<Order>, before: seq<Order>, staged: Order)
    requires orders != [] && AllRemapped(map', orders[..|orders| - 1], before)
    requires RemapsTo(map', orders[|orders| - 1], staged)
    ensures AllRemapped(map', orders, before + [staged])
  {
    var n := |orders| - 1;
    forall k | 0 <= k < |orders|
      ensures RemapsTo(map', orders[k], (before + [staged])[k])
    {
      if k < n {
        assert orders[..n][k] == orders[k] && (before + [staged])[k] == before[k];
      }
    }
  }

  lemma {:induction false} StagedByRemap(orders: seq<Order>, map': seq<Identity.MapRow>)
    requires forall o :: o in orders ==> |Identity.Remapped(map', o.customer)| == 1
    ensures AllRemapped(map', orders, StgOrders(orders, map'))
  {
    if orders != [] {
      var n := |orders| - 1;
      assert orders[n] in orders && forall o :: o in orders[..n] ==> o in orders;
      StagedByRemap(orders[..n], map');
      var staged := StgNext(orders, map');
      NextRemapped(map', orders, StgOrders(orders[..n], map'), staged);
    }
  }

  /** Staging sends every order's customer through the identity map and changes nothing else. */
  lemma StgOrdersRemaps(orders: seq<Order>, customers: seq<Identity.Customer>)
    requires UniqueKeys(customers, Identity.CustomerId)
    ensures var stg := StgOrders(orders, Identity.IdentityMap(Identity.Resolve(customers)));
      && |stg| == |orders|
      && forall k :: 0 <= k < |orders| ==>
           stg[k] == orders[k].(customer := stg[k].customer) && SentTo(customers, orders[k].customer, stg[k].customer)
  {
    var map' := Identity.IdentityMap(Identity.Resolve(customers));
    forall o | o in orders
      ensures |Identity.Remapped(map', o.customer)| == 1
    {
      RemapSends(customers, o.customer);
    }
    StagedByRemap(orders, map');
    forall k | 0 <= k < |orders|
      ensures SentTo(customers, orders[k].customer, StgOrders(orders, map')[k].customer)
    {
      assert RemapsTo(map', orders[k], StgOrders(orders, map')[k]);
      RemapSends(customers, orders[k].customer);
    }
  }

  /** Row by row the same orders, the customer aside. */
  ghost predicate SameOrders(a: seq<Order>, b: seq<Order>) {
    |a| == |b| && forall k :: 0 <= k < |a| ==> b[k].id == a[k].id && b[k].day == a[k].day
  }

  lemma StgOrdersKeepsRows(orders: seq<Order>, customers: seq<Identity.Customer>)
    requires UniqueKeys(customers, Identity.CustomerId)
    ensures SameOrders(orders, StgOrders(orders, Identity.IdentityMap(Identity.Resolve(customers))))
  {
    StgOrdersRemaps(orders, customers);
  }

  // ---------------------------------------------------------------- fct_orders

  /** A group of `group by order_id`: its count and two sums. */
  datatype Group = Group(orderId: int, count: int, first: int, second: int)

  function GroupOrderId(g: Group): int { g.orderId }

  function AddTo(groups: seq<Group>, orderId: int, count: int, first: int, second: int): seq<Group> {
    if groups == [] then [Group(orderId, count, first, second)]
    else if groups[0].orderId == orderId then
      [Group(orderId, groups[0].count + count, groups[0].first + first, groups[0].second + second)] + groups[1..]
    else [groups[0]] + AddTo(groups[1..], orderId, count, first, second)
  }

  /** select order_id, count(*), sum(first), sum(second) from rows group by order_id */
  function GroupBy<T>(rows: seq<T>, key: T -> int, count: T -> int, first: T -> int, second: T -> int): seq<Group> {
    if rows == [] then []
    else
      var n := |rows| - 1;
      var r := rows[n];
      AddTo(GroupBy(rows[..n], key, count, first, second), key(r), count(r), first(r), second(r))
  }

  function ItemGroups(items: seq<Item>): seq<Group> {
    GroupBy(items, ItemOrderId, One, Quantity, LineTotal)
  }

  function PaymentGroups(payments: seq<Payment>): seq<Group> {
    GroupBy(payments, PaymentOrderId, OnePayment, Amount, OnePayment)
  }

  datatype OrderFact = OrderFact(
    orderId: int, customer: int, day: Day, itemCount: int, totalQuantity: int, gross: int, paid: int, paymentCount: int)

  function Gross(f: OrderFact): int { f.gross }
  function Paid(f: OrderFact): int { f.paid }

  function Zero(orderId: int): Group { Group(orderId, 0, 0, 0) }

  function OrNull(g: Option<Group>, orderId: int): Group {
    if g.Some? then g.value else Zero(orderId)
  }

  function RowsForPayments(o: Order, i: Option<Group>, ps: seq<Option<Group>>): seq<OrderFact> {
    if ps == [] then []
    else
      var items, payments := OrNull(i, o.id), OrNull(ps[0], o.id);
      [OrderFact(o.id, o.customer, o.day, items.count, items.first, items.second, payments.first, payments.count)]
      + RowsForPayments(o, i, ps[1..])
  }

  function RowsForItems(o: Order, gs: seq<Option<Group>>, ps: seq<Option<Group>>): seq<OrderFact> {
    if gs == [] then [] else RowsForPayments(o, gs[0], ps) + RowsForItems(o, gs[1..], ps)
  }

  function FctOrders(orders: seq<Order>, items: seq<Group>, payments: seq<Group>): seq<OrderFact> {
    if orders == [] then []
    else
      var n := |orders| - 1;
      var o := orders[n];
      FctOrders(orders[..n], items, payments)
      + RowsForItems(o, LeftJoin(Where(items, GroupOrderId, o.id)), LeftJoin(Where(payments, GroupOrderId, o.id)))
  }

  // ---------------------------------------------------------------- group-by

  lemma {:induction false} AddToGroups(groups: seq<Group>, k: int, count: int, first: int, second: int, k': int)
    ensures var g := OrNull(Find(groups, GroupOrderId, k'), k');
      var g' := OrNull(Find(AddTo(groups, k, count, first, second), GroupOrderId, k'), k');
      if k' == k then g' == Group(k, g.count + count, g.first + first, g.second + second) else g' == g
  {
    if groups != [] && groups[0].orderId != k {
      AddToGroups(groups[1..], k, count, first, second, k');
      assert AddTo(groups, k, count, first, second)[1..] == AddTo(groups[1..], k, count, first, second);
    }
  }

  lemma {:induction false} AddToKeys(groups: seq<Group>, k: int, count: int, first: int, second: int)
    ensures Keys(AddTo(groups, k, count, first, second), GroupOrderId) == Keys(groups, GroupOrderId) + {k}
  {
    if groups == [] {
      KeysOfCons(AddTo(groups, k, count, first, second)[0], []);
    } else if groups[0].orderId != k {
      AddToKeys(groups[1..], k, count, first, second);
      KeysOfCons(groups[0], groups[1..]);
      KeysOfCons(groups[0], AddTo(groups[1..], k, count, first, second));
      assert groups == [groups[0]] + groups[1..];
    } else {
      KeysOfCons(groups[0], groups[1..]);
      KeysOfCons(AddTo(groups, k, count, first, second)[0], groups[1..]);
      assert groups == [groups[0]] + groups[1..];
    }
  }

  lemma KeysOfCons(g: Group, groups: seq<Group>)
    ensures Keys([g] + groups, GroupOrderId) == {g.orderId} + Keys(groups, GroupOrderId)
  {
    forall i | 0 <= i < |groups|
      ensures groups[i].orderId in Keys([g] + groups, GroupOrderId)
    {
      assert GroupOrderId(([g] + groups)[i + 1]) == groups[i].orderId;
    }
    assert GroupOrderId(([g] + groups)[0]) == g.orderId;
  }

  lemma {:induction false} AddToKeepsUnique(groups: seq<Group>, k: int, count: int, first: int, second: int)
    requires UniqueKeys(groups, GroupOrderId)
    ensures UniqueKeys(AddTo(groups, k, count, first, second), GroupOrderId)
  {
    if groups != [] && groups[0].orderId != k {
      AddToKeepsUnique(groups[1..], k, count, first, second);
      AddToKeys(groups[1..], k, count, first, second);
      var rest := AddTo(groups[1..], k, count, first, second);
      forall j | 0 <= j < |rest|
        ensures GroupOrderId(rest[j]) != GroupOrderId(groups[0])
      {
        assert GroupOrderId(rest[j]) in Keys(rest, GroupOrderId);
      }
    }
  }

  /** A group-by has one row per key, with the sums over the rows of that key. */
  lemma {:induction false} GroupByIsSum<T>(
      rows: seq<T>, key: T -> int, count: T -> int, first: T -> int, second: T -> int, k: int)
    ensures UniqueKeys(GroupBy(rows, key, count, first, second), GroupOrderId)
    ensures var g := OrNull(Find(GroupBy(rows, key, count, first, second), GroupOrderId, k), k);
      var own := Where(rows, key, k);
      g == Group(k, Sum(own, count), Sum(own, first), Sum(own, second))
  {
    if rows != [] {
      var n := |rows| - 1;
      var before := GroupBy(rows[..n], key, count, first, second);
      GroupByIsSum(rows[..n], key, count, first, second, k);
      AddToKeepsUnique(before, key(rows[n]), count(rows[n]), first(rows[n]), second(rows[n]));
      AddToGroups(before, key(rows[n]), count(rows[n]), first(rows[n]), second(rows[n]), k);
      if key(rows[n]) == k {
        SumOfConcat(Where(rows[..n], key, k), [rows[n]], count);
        SumOfConcat(Where(rows[..n], key, k), [rows[n]], first);
        SumOfConcat(Where(rows[..n], key, k), [rows[n]], second);
        SumOfOne(rows[n], count);
        SumOfOne(rows[n], first);
        SumOfOne(rows[n], second);
      }
    }
  }

  lemma SumOfOne<T>(r: T, amount: T -> int)
    ensures Sum([r], amount) == amount(r)
  {
    assert [r][..0] == [];
  }

  // ---------------------------------------------------------------- the rollup, order by order

  /** The row an order should have: how many lines and payments it has, and what they add up to. */
  ghost function OrderTotals(o: Order, items: seq<Item>, payments: seq<Payment>): OrderFact {
    var own, paid := Where(items, ItemOrderId, o.id), Where(payments, PaymentOrderId, o.id);
    OrderFact(o.id, o.customer, o.day, |own|, Sum(own, (i: Item) => i.quantity), Sum(own, (i: Item) => i.lineTotal),
              Sum(paid, (p: Payment) => p.amount), |paid|)
  }

  lemma {:induction false} SumOfSame<T>(rows: seq<T>, amount: T -> int, same: T -> int)
    requires forall r :: amount(r) == same(r)
    ensures Sum(rows, amount) == Sum(rows, same)
  {
    if rows != [] {
      SumOfSame(rows[..|rows| - 1], amount, same);
    }
  }

  lemma {:induction false} SumOfOnes<T>(rows: seq<T>, one: T -> int)
    requires forall r :: one(r) == 1
    ensures Sum(rows, one) == |rows|
  {
    if rows != [] {
      SumOfOnes(rows[..|rows| - 1], one);
    }
  }

  lemma TotalsBySums(o: Order, items: seq<Item>, payments: seq<Payment>)
    ensures var own, paid := Where(items, ItemOrderId, o.id), Where(payments, PaymentOrderId, o.id);
      OrderTotals(o, items, payments) ==
      OrderFact(o.id, o.customer, o.day, Sum(own, One), Sum(own, Quantity), Sum(own, LineTotal),
                Sum(paid, Amount), Sum(paid, OnePayment))
  {
    var own, paid := Where(items, ItemOrderId, o.id), Where(payments, PaymentOrderId, o.id);
    SumOfOnes(own, One);
    SumOfOnes(paid, OnePayment);
    SumOfSame(own, (i: Item) => i.quantity, Quantity);
    SumOfSame(own, (i: Item) => i.lineTotal, LineTotal);
    SumOfSame(paid, (p: Payment) => p.amount, Amount);
  }

  lemma OneJoinedRow(o: Order, gs: seq<Option<Group>>, ps: seq<Option<Group>>)
    requires |gs| == 1 && |ps| == 1
    ensures var i, p := OrNull(gs[0], o.id), OrNull(ps[0], o.id);
      RowsForItems(o, gs, ps) == [OrderFact(o.id, o.customer, o.day, i.count, i.first, i.second, p.first, p.count)]
  {
    assert gs[1..] == [] && ps[1..] == [];
    assert RowsForPayments(o, gs[0], ps[1..]) == [];
    assert RowsForItems(o, gs[1..], ps) == [];
  }

  lemma OrderRow(o: Order, items: seq<Item>, payments: seq<Payment>)
    ensures RowsForItems(o, LeftJoin(Where(ItemGroups(items), GroupOrderId, o.id)),
                         LeftJoin(Where(PaymentGroups(payments), GroupOrderId, o.id)))
         == [OrderTotals(o, items, payments)]
  {
    TotalsBySums(o, items, payments);
    GroupByIsSum(items, ItemOrderId, One, Quantity, LineTotal, o.id);
    GroupByIsSum(payments, PaymentOrderId, OnePayment, Amount, OnePayment, o.id);
    WhereUnique(ItemGroups(items), GroupOrderId, o.id);
    WhereUnique(PaymentGroups(payments), GroupOrderId, o.id);
    OneJoinedRow(o, LeftJoin(Where(ItemGroups(items), GroupOrderId, o.id)),
                 LeftJoin(Where(PaymentGroups(payments), GroupOrderId, o.id)));
  }

  ghost predicate AllTotals(orders: seq<Order>, items: seq<Item>, payments: seq<Payment>, facts: seq<OrderFact>) {
    |facts| == |orders| && forall k :: 0 <= k < |orders| ==> facts[k] == OrderTotals(orders[k], items, payments)
  }

  lemma NextTotals(orders: seq<Order>, items: seq<Item>, payments: seq<Payment>, before: seq<OrderFact>)
    requires orders != [] && AllTotals(orders[..|orders| - 1], items, payments, before)
    ensures AllTotals(orders, items, payments, before + [OrderTotals(orders[|orders| - 1], items, payments)])
  {
    var n := |orders| - 1;
    var facts := before + [OrderTotals(orders[n], items, payments)];
    forall k | 0 <= k < |orders|
      ensures facts[k] == OrderTotals(orders[k], items, payments)
    {
      if k < n {
        assert orders[..n][k] == orders[k] && facts[k] == before[k];
      }
    }
  }

  /** fct_orders has one row per staged order, in order, with that order's own totals. */
  lemma {:induction false} OneRowPerOrder(orders: seq<Order>, items: seq<Item>, payments: seq<Payment>)
    ensures AllTotals(orders, items, payments, FctOrders(orders, ItemGroups(items), PaymentGroups(payments)))
  {
    if orders != [] {
      var n := |orders| - 1;
      OneRowPerOrder(orders[..n], items, payments);
      NextRow(orders, items, payments);
      NextTotals(orders, items, payments, FctOrders(orders[..n], ItemGroups(items), PaymentGroups(payments)));
    }
  }

  lemma NextRow(orders: seq<Order>, items: seq<Item>, payments: seq<Payment>)
    requires orders != []
    ensures FctOrders(orders, ItemGroups(items), PaymentGroups(payments))
         == FctOrders(orders[..|orders| - 1], ItemGroups(items), PaymentGroups(payments))
            + [OrderTotals(orders[|orders| - 1], items, payments)]
  {
    OrderRow(orders[|orders| - 1], items, payments);
  }

  // ---------------------------------------------------------------- conservation

  /** The sum, order by order, of the amounts that reference the order. */
  ghost function SumByOrder<T>(orders: seq<Order>, rows: seq<T>, key: T -> int, amount: T -> int): int {
    if orders == [] then 0
    else
      var n := |orders| - 1;
      SumByOrder(orders[..n], rows, key, amount) + Sum(Where(rows, key, orders[n].id), amount)
  }

  ghost function Orphans<T>(orders: seq<Order>, rows: seq<T>, key: T -> int): seq<T> {
    if rows == [] then []
    else
      var n := |rows| - 1;
      var before := Orphans(orders, rows[..n], key);
      if Find(orders, OrderId, key(rows[n])).None? then before + [rows[n]] else before
  }

  lemma {:induction false} SumByOrderOfNext<T>(orders: seq<Order>, rows: seq<T>, key: T -> int, amount: T -> int)
    requires UniqueKeys(orders, OrderId) && rows != []
    ensures var n := |rows| - 1;
      SumByOrder(orders, rows, key, amount) == SumByOrder(orders, rows[..n], key, amount)
        + if Find(orders, OrderId, key(rows[n])).Some? then amount(rows[n]) else 0
  {
    var n, k := |rows| - 1, key(rows[|rows| - 1]);
    if orders != [] {
      var m := |orders| - 1;
      SumByOrderOfNext(orders[..m], rows, key, amount);
      FindOfNext(orders, k);
      if orders[m].id == k {
        SumOfConcat(Where(rows[..n], key, k), [rows[n]], amount);
        SumOfOne(rows[n], amount);
      }
    }
  }

  lemma {:induction false} FindOfNext(orders: seq<Order>, k: int)
    requires UniqueKeys(orders, OrderId) && orders != []
    ensures var m := |orders| - 1;
      if orders[m].id == k then Find(orders, OrderId, k).Some? && Find(orders[..m], OrderId, k).None?
      else Find(orders, OrderId, k).Some? <==> Find(orders[..m], OrderId, k).Some?
  {
    var m := |orders| - 1;
    assert orders[m] in orders;
    var found, before := Find(orders, OrderId, k), Find(orders[..m], OrderId, k);
    if found.Some? {
      var i :| 0 <= i < |orders| && orders[i] == found.value;
      assert i < m ==> orders[..m][i] in orders[..m];
    }
    if before.Some? {
      var i :| 0 <= i < m && orders[..m][i] == before.value;
      assert orders[i] in orders && OrderId(orders[i]) != OrderId(orders[m]);
    }
  }

  /** With unique order ids, a rollup by order loses exactly the rows whose order is missing. */
  lemma {:induction false} RollupLosesOrphans<T>(orders: seq<Order>, rows: seq<T>, key: T -> int, amount: T -> int)
    requires UniqueKeys(orders, OrderId)
    ensures SumByOrder(orders, rows, key, amount) + Sum(Orphans(orders, rows, key), amount) == Sum(rows, amount)
  {
    if rows == [] {
      NothingByOrder(orders, rows, key, amount);
    } else {
      var n := |rows| - 1;
      RollupLosesOrphans(orders, rows[..n], key, amount);
      SumByOrderOfNext(orders, rows, key, amount);
      if Find(orders, OrderId, key(rows[n])).None? {
        SumOfConcat(Orphans(orders, rows[..n], key), [rows[n]], amount);
        SumOfOne(rows[n], amount);
      }
    }
  }

  lemma {:induction false} NothingByOrder<T>(orders: seq<Order>, rows: seq<T>, key: T -> int, amount: T -> int)
    requires rows == []
    ensures SumByOrder(orders, rows, key, amount) == 0
  {
    if orders != [] {
      NothingByOrder(orders[..|orders| - 1], rows, key, amount);
    }
  }

  lemma {:induction false} RollupSums(orders: seq<Order>, items: seq<Item>, payments: seq<Payment>)
    ensures var facts := FctOrders(orders, ItemGroups(items), PaymentGroups(payments));
      && Sum(facts, Gross) == SumByOrder(orders, items, ItemOrderId, LineTotal)
      && Sum(facts, Paid) == SumByOrder(orders, payments, PaymentOrderId, Amount)
  {
    if orders != [] {
      var n := |orders| - 1;
      var before := FctOrders(orders[..n], ItemGroups(items), PaymentGroups(payments));
      RollupSums(orders[..n], items, payments);
      OrderRow(orders[n], items, payments);
      TotalsBySums(orders[n], items, payments);
      var row := OrderTotals(orders[n], items, payments);
      SumOfConcat(before, [row], Gross);
      SumOfConcat(before, [row], Paid);
      SumOfOne(row, Gross);
      SumOfOne(row, Paid);
    }
  }

  /** At line grain: each line with an order appears once, so the line-grain fact loses exactly the
      orphans too. */
  lemma {:induction false} LineFactsLoseOrphans(
      items: seq<Item>, orders: seq<Order>, dims: seq<Version>, rn: seq<nat>, log: seq<Load>)
    requires Reflects(dims, log) && Forward(log)
    requires RowNumbers(dims, VersionId, Earliness, rn) && UniqueKeys(orders, OrderId)
    ensures var facts := FactOrderItems(items, orders, dims, Top(dims, rn));
      && |facts| + |Orphans(orders, items, ItemOrderId)| == |items|
      && Sum(facts, FactTotal) + Sum(Orphans(orders, items, ItemOrderId), LineTotal) == Sum(items, LineTotal)
  {
    if items != [] {
      var n := |items| - 1;
      LineFactsLoseOrphans(items[..n], orders, dims, rn, log);
      OneLineFact(items, orders, dims, rn, log);
      if Find(orders, OrderId, items[n].orderId).None? {
        SumOfConcat(Orphans(orders, items[..n], ItemOrderId), [items[n]], LineTotal);
        SumOfOne(items[n], LineTotal);
      }
    }
  }

  lemma OneLineFact(items: seq<Item>, orders: seq<Order>, dims: seq<Version>, rn: seq<nat>, log: seq<Load>)
    requires Reflects(dims, log) && Forward(log) && items != []
    requires RowNumbers(dims, VersionId, Earliness, rn) && UniqueKeys(orders, OrderId)
    ensures var n := |items| - 1;
      var before := FactOrderItems(items[..n], orders, dims, Top(dims, rn));
      var after := FactOrderItems(items, orders, dims, Top(dims, rn));
      if Find(orders, OrderId, items[n].orderId).Some? then
        |after| == |before| + 1 && Sum(after, FactTotal) == Sum(before, FactTotal) + items[n].lineTotal
      else after == before
  {
    var n := |items| - 1;
    var before := FactOrderItems(items[..n], orders, dims, Top(dims, rn));
    var found := Find(orders, OrderId, items[n].orderId);
    if found.Some? {
      var p, ev := NeverFansOut(items[n], found.value, orders, dims, rn, log);
      SumOfConcat(before, [Row(items[n], found.value, p, ev)], FactTotal);
      SumOfOne(Row(items[n], found.value, p, ev), FactTotal);
    } else {
      NoFactForOrphan(items[n], orders, dims, Top(dims, rn));
    }
  }

  // ---------------------------------------------------------------- the gate

  /** check_no_duplicate_orders: count(*) against count(distinct order_id). */
  predicate NoDuplicateOrders(orders: seq<Order>) {
    |orders| == |set i | 0 <= i < |orders| :: OrderId(orders[i])|
  }

  /** The left anti join a child table's orphan count is taken over. */
  function OrphanCount<T>(orders: seq<Order>, rows: seq<T>, key: T -> int): nat {
    if rows == [] then 0
    else
      var n := |rows| - 1;
      OrphanCount(orders, rows[..n], key) + if Find(orders, OrderId, key(rows[n])).None? then 1 else 0
  }

  /** check_no_duplicate_customer_identities */
  predicate NoDuplicateIdentities(customers: seq<Identity.Resolved>) {
    |customers| == |set i | 0 <= i < |customers| :: Identity.ResolvedEmail(customers[i])|
  }

  lemma DuplicateCheckIsExact(orders: seq<Order>)
    ensures NoDuplicateOrders(orders) <==> UniqueKeys(orders, OrderId)
  {
    DistinctCount(orders, OrderId);
    assert Keys(orders, OrderId) == set i | 0 <= i < |orders| :: OrderId(orders[i]);
  }

  lemma IdentityCheckIsExact(customers: seq<Identity.Resolved>)
    ensures NoDuplicateIdentities(customers) <==> UniqueKeys(customers, Identity.ResolvedEmail)
  {
    DistinctCount(customers, Identity.ResolvedEmail);
    assert Keys(customers, Identity.ResolvedEmail)
        == set i | 0 <= i < |customers| :: Identity.ResolvedEmail(customers[i]);
  }

  /** Customer resolution always passes its gate check. */
  lemma IdentityCheckAlwaysPasses(customers: seq<Identity.Customer>)
    requires UniqueKeys(customers, Identity.CustomerId)
    ensures NoDuplicateIdentities(Identity.Resolve(customers))
  {
    Identity.EmailsAreUnique(customers);
    IdentityCheckIsExact(Identity.Resolve(customers));
  }

  lemma {:induction false} OrphanCountIsExact<T>(orders: seq<Order>, rows: seq<T>, key: T -> int)
    ensures OrphanCount(orders, rows, key) == |Orphans(orders, rows, key)|
    ensures OrphanCount(orders, rows, key) == 0 ==> Orphans(orders, rows, key) == []
  {
    if rows != [] {
      OrphanCountIsExact(orders, rows[..|rows| - 1], key);
    }
  }

  /** The silver tables gold is built from. */
  datatype Silver = Silver(
    orders: seq<Order>, items: seq<Item>, payments: seq<Payment>, customers: seq<Identity.Resolved>, dims: seq<Version>)

  datatype GoldTables = GoldTables(orderItems: seq<Fact>, orders: seq<OrderFact>)

  function Build(s: Silver, rn: seq<nat>): GoldTables
    requires |rn| == |s.dims|
  {
    var stg := StgOrders(s.orders, Identity.IdentityMap(s.customers));
    GoldTables(FactOrderItems(s.items, stg, s.dims, Top(s.dims, rn)),
               FctOrders(stg, ItemGroups(s.items), PaymentGroups(s.payments)))
  }

  /** Every staged euro is in gold, once, at both grains; every order is a row of fct_orders. */
  ghost predicate Conserves(s: Silver, g: GoldTables) {
    && Sum(g.orderItems, FactTotal) == Sum(s.items, LineTotal) == Sum(g.orders, Gross)
    && Sum(g.orders, Paid) == Sum(s.payments, Amount)
    && |g.orderItems| == |s.items| && |g.orders| == |s.orders|
    && forall k :: 0 <= k < |s.orders| ==> g.orders[k].orderId == s.orders[k].id
  }

  /** What silver is known to be by construction: resolved customers and a table of versions. */
  ghost predicate FromSilverJobs(s: Silver, customers: seq<Identity.Customer>, log: seq<Load>) {
    && UniqueKeys(customers, Identity.CustomerId) && s.customers == Identity.Resolve(customers)
    && Reflects(s.dims, log) && Forward(log)
  }

  lemma StgOrdersUnique(orders: seq<Order>, customers: seq<Identity.Customer>)
    requires UniqueKeys(customers, Identity.CustomerId) && UniqueKeys(orders, OrderId)
    ensures UniqueKeys(StgOrders(orders, Identity.IdentityMap(Identity.Resolve(customers))), OrderId)
  {
    StgOrdersKeepsRows(orders, customers);
    var stg := StgOrders(orders, Identity.IdentityMap(Identity.Resolve(customers)));
    forall i, j | 0 <= i < j < |stg|
      ensures OrderId(stg[i]) != OrderId(stg[j])
    {
      assert OrderId(orders[i]) != OrderId(orders[j]);
    }
  }

  lemma {:induction false} SameOrphans<T>(a: seq<Order>, b: seq<Order>, rows: seq<T>, key: T -> int)
    requires SameOrders(a, b)
    ensures OrphanCount(a, rows, key) == OrphanCount(b, rows, key)
  {
    if rows != [] {
      var n := |rows| - 1;
      SameOrphans(a, b, rows[..n], key);
      SameIds(a, b, key(rows[n]));
    }
  }

  lemma SameIds(a: seq<Order>, b: seq<Order>, k: int)
    requires SameOrders(a, b)
    ensures Find(a, OrderId, k).Some? <==> Find(b, OrderId, k).Some?
  {
    var x, y := Find(a, OrderId, k), Find(b, OrderId, k);
    if x.Some? {
      var i :| 0 <= i < |a| && a[i] == x.value;
      assert b[i] in b && OrderId(b[i]) == k;
    }
    if y.Some? {
      var i :| 0 <= i < |b| && b[i] == y.value;
      assert a[i] in a && OrderId(a[i]) == k;
    }
  }

  ghost predicate AllJoined(
      items: seq<Item>, orders: seq<Order>, dims: seq<Version>, evs: seq<Version>, facts: seq<Fact>) {
    |facts| == |items| && forall k :: 0 <= k < |items| ==> Joined(items[k], orders, dims, evs) == [facts[k]]
  }

  lemma NextJoined(items: seq<Item>, orders: seq<Order>, dims: seq<Version>, evs: seq<Version>, before: seq<Fact>)
    requires items != [] && AllJoined(items[..|items| - 1], orders, dims, evs, before)
    requires |Joined(items[|items| - 1], orders, dims, evs)| == 1
    ensures AllJoined(items, orders, dims, evs, before + Joined(items[|items| - 1], orders, dims, evs))
  {
    var n := |items| - 1;
    var facts := before + Joined(items[n], orders, dims, evs);
    forall k | 0 <= k < |items|
      ensures Joined(items[k], orders, dims, evs) == [facts[k]]
    {
      if k < n {
        assert items[..n][k] == items[k] && facts[k] == before[k];
      }
    }
  }

  lemma {:induction false} JoinedByLine(items: seq<Item>, orders: seq<Order>, dims: seq<Version>, evs: seq<Version>)
    requires forall i :: i in items ==> |Joined(i, orders, dims, evs)| == 1
    ensures AllJoined(items, orders, dims, evs, FactOrderItems(items, orders, dims, evs))
  {
    if items != [] {
      var n := |items| - 1;
      assert items[n] in items && forall i :: i in items[..n] ==> i in items;
      JoinedByLine(items[..n], orders, dims, evs);
      NextJoined(items, orders, dims, evs, FactOrderItems(items[..n], orders, dims, evs));
    }
  }

  /** With the checks passed, line k of gold is the one row line k joins to. */
  lemma LinesInOrder(items: seq<Item>, orders: seq<Order>, dims: seq<Version>, rn: seq<nat>, log: seq<Load>)
    requires Reflects(dims, log) && Forward(log)
    requires RowNumbers(dims, VersionId, Earliness, rn) && UniqueKeys(orders, OrderId)
    requires Orphans(orders, items, ItemOrderId) == []
    ensures AllJoined(items, orders, dims, Top(dims, rn), FactOrderItems(items, orders, dims, Top(dims, rn)))
  {
    forall i | i in items
      ensures |Joined(i, orders, dims, Top(dims, rn))| == 1
    {
      NotAmongOrphans(orders, items, i);
      var o := Find(orders, OrderId, i.orderId).value;
      var p, ev := NeverFansOut(i, o, orders, dims, rn, log);
    }
    JoinedByLine(items, orders, dims, Top(dims, rn));
  }

  lemma {:induction false} NotAmongOrphans(orders: seq<Order>, items: seq<Item>, i: Item)
    requires i in items && Orphans(orders, items, ItemOrderId) == []
    ensures Find(orders, OrderId, i.orderId).Some?
  {
    var n := |items| - 1;
    if i != items[n] {
      NotAmongOrphans(orders, items[..n], i);
    }
  }

  /** Both facts carry the resolved customer of their order: a known one has a row in silver. */
  ghost predicate CustomersResolved(s: Silver, customers: seq<Identity.Customer>, g: GoldTables) {
    && |g.orders| == |s.orders|
    && (forall k :: 0 <= k < |s.orders| ==> SentTo(customers, s.orders[k].customer, g.orders[k].customer))
    && (forall f :: f in g.orderItems ==>
          exists o :: o in s.orders && o.id == f.orderId && SentTo(customers, o.customer, f.customer))
  }

  lemma LineFactsResolved(s: Silver, customers: seq<Identity.Customer>, rn: seq<nat>, f: Fact)
    requires UniqueKeys(customers, Identity.CustomerId) && s.customers == Identity.Resolve(customers)
    requires |rn| == |s.dims| && f in Build(s, rn).orderItems
    ensures exists o :: o in s.orders && o.id == f.orderId && SentTo(customers, o.customer, f.customer)
  {
    var stg := StgOrders(s.orders, Identity.IdentityMap(s.customers));
    StgOrdersRemaps(s.orders, customers);
    var i, o := FactsAreLines(s.items, stg, s.dims, Top(s.dims, rn), f);
    var k :| 0 <= k < |stg| && stg[k] == o;
    assert s.orders[k] in s.orders && SentTo(customers, s.orders[k].customer, stg[k].customer);
  }

  /** Whether or not the gate passes: gold's customers are the resolved ones, at both grains. */
  lemma GoldCustomersAreResolved(s: Silver, customers: seq<Identity.Customer>, rn: seq<nat>)
    requires UniqueKeys(customers, Identity.CustomerId) && s.customers == Identity.Resolve(customers)
    requires |rn| == |s.dims|
    ensures CustomersResolved(s, customers, Build(s, rn))
  {
    var stg := StgOrders(s.orders, Identity.IdentityMap(s.customers));
    StgOrdersRemaps(s.orders, customers);
    OneRowPerOrder(stg, s.items, s.payments);
    forall f | f in Build(s, rn).orderItems
      ensures exists o :: o in s.orders && o.id == f.orderId && SentTo(customers, o.customer, f.customer)
    {
      LineFactsResolved(s, customers, rn, f);
    }
  }

  /** If the uniqueness and orphan checks pass, gold conserves money across every grain. */
  lemma PassingGateConserves(s: Silver, customers: seq<Identity.Customer>, log: seq<Load>, rn: seq<nat>)
    requires FromSilverJobs(s, customers, log) && RowNumbers(s.dims, VersionId, Earliness, rn)
    requires NoDuplicateOrders(s.orders)
    requires OrphanCount(s.orders, s.items, ItemOrderId) + OrphanCount(s.orders, s.payments, PaymentOrderId) == 0
    ensures Conserves(s, Build(s, rn))
  {
    var stg := StgOrders(s.orders, Identity.IdentityMap(s.customers));
    DuplicateCheckIsExact(s.orders);
    StgOrdersKeepsRows(s.orders, customers);
    StgOrdersUnique(s.orders, customers);
    SameOrphans(s.orders, stg, s.items, ItemOrderId);
    SameOrphans(s.orders, stg, s.payments, PaymentOrderId);
    OrphanCountIsExact(stg, s.items, ItemOrderId);
    OrphanCountIsExact(stg, s.payments, PaymentOrderId);
    LineFactsLoseOrphans(s.items, stg, s.dims, rn, log);
    RollupLosesOrphans(stg, s.items, ItemOrderId, LineTotal);
    RollupLosesOrphans(stg, s.payments, PaymentOrderId, Amount);
    RollupSums(stg, s.items, s.payments);
    OneRowPerOrder(stg, s.items, s.payments);
  }

  /** From silver to gold, line by line: if those checks pass, line k of the fact is line k of
      silver, on its order's day, for its order's resolved customer, and it references the product
      version covering that day. */
  lemma GoldLine(s: Silver, customers: seq<Identity.Customer>, log: seq<Load>, rn: seq<nat>, k: nat)
    returns (o: Order)
    requires FromSilverJobs(s, customers, log) && RowNumbers(s.dims, VersionId, Earliness, rn)
    requires NoDuplicateOrders(s.orders) && OrphanCount(s.orders, s.items, ItemOrderId) == 0
    requires k < |s.items| && Backdated(log, s.items[k].productId)
    ensures |Build(s, rn).orderItems| == |s.items| && o in s.orders && o.id == s.items[k].orderId
    ensures var f, i := Build(s, rn).orderItems[k], s.items[k];
      && Charges(f, i, o.(customer := f.customer), f.unitCost) && SentTo(customers, o.customer, f.customer)
      && forall v :: v in Replay(log, i.productId) && Covers(v, o.day) ==> f.key == Some(KeyOf(v)) && !f.fallback
  {
    var stg, i := StgOrders(s.orders, Identity.IdentityMap(s.customers)), s.items[k];
    DuplicateCheckIsExact(s.orders);
    StgOrdersRemaps(s.orders, customers);
    StgOrdersUnique(s.orders, customers);
    SameOrphans(s.orders, stg, s.items, ItemOrderId);
    OrphanCountIsExact(stg, s.items, ItemOrderId);
    LinesInOrder(s.items, stg, s.dims, rn, log);
    var staged := Find(stg, OrderId, i.orderId);
    if staged.None? {
      NoFactForOrphan(i, stg, s.dims, Top(s.dims, rn));
    } else {
      var f := FactReferencesCoveringVersion(i, staged.value, stg, s.dims, rn, log);
      var j :| 0 <= j < |stg| && stg[j] == staged.value;
      o := s.orders[j];
    }
  }
}
