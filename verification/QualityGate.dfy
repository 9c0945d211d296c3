/** The six checks between silver and gold, the fold over their results, and promotion: gold is
    rebuilt only if all of them pass. */
module QualityGate {
  import opened Tables
  import opened Scd2
  import opened Scd2History
  import opened Scd2Merge
  import opened PointInTime
  import opened Gold
  import opened Payments
  import CampaignFact
  import Identity
  import PosText

  datatype CheckResult = CheckResult(name: string, passed: bool)

  // ---------------------------------------------------------------- payments against order items

  /** A row of silver.order_items, and the staged row with its rounded total. */
  datatype SilverItem = SilverItem(id: int, orderId: int, productId: int, line: Line)

  function SilverItemOrderId(i: SilverItem): int { i.orderId }

  function StageItems(items: seq<SilverItem>): (staged: seq<Item>)
    ensures |staged| == |items|
    ensures forall k :: 0 <= k < |items| ==>
      var i := items[k];
      staged[k] == Item(i.id, i.orderId, i.productId, i.line.quantity, RoundHalfAway(LineAmount(i.line)))
  {
    seq(|items|, k requires 0 <= k < |items| =>
      var i := items[k];
      Item(i.id, i.orderId, i.productId, i.line.quantity, RoundHalfAway(LineAmount(i.line))))
  }

  function LinesOf(items: seq<SilverItem>, id: int): seq<Line> {
    if items == [] then []
    else
      var n := |items| - 1;
      var before := LinesOf(items[..n], id);
      if items[n].orderId == id then before + [items[n].line] else before
  }

  /** The groups of `group by order_id`. */
  function OrderIds(items: seq<SilverItem>): seq<int> {
    if items == [] then []
    else
      var n := |items| - 1;
      var before := OrderIds(items[..n]);
      if items[n].orderId in before then before else before + [items[n].orderId]
  }

  function PaidTotal(payments: seq<Payment>, id: int): int { Sum(Where(payments, PaymentOrderId, id), Amount) }

  /** The joined row of one order is beyond the tolerance. */
  predicate Mismatch(items: seq<SilverItem>, payments: seq<Payment>, total: seq<Line> -> real, id: int) {
    && Where(payments, PaymentOrderId, id) != []
    && var diff := total(LinesOf(items, id)) - PaidTotal(payments, id) as real;
       diff > TOLERANCE as real || diff < -(TOLERANCE as real)
  }

  function Mismatches(items: seq<SilverItem>, payments: seq<Payment>, total: seq<Line> -> real, ids: seq<int>): nat {
    if ids == [] then 0
    else
      var n := |ids| - 1;
      Mismatches(items, payments, total, ids[..n]) + if Mismatch(items, payments, total, ids[n]) then 1 else 0
  }

  /** check_payments_reconcile with `total` the unrounded sum; the dbt test with the sum of
      rounded lines. */
  predicate Reconciles(items: seq<SilverItem>, payments: seq<Payment>, total: seq<Line> -> real) {
    Mismatches(items, payments, total, OrderIds(items)) == 0
  }

  function RoundedLines(lines: seq<Line>): real { RoundedTotal(lines) as real }

  lemma {:induction false} OrderIdsHaveLines(items: seq<SilverItem>, id: int)
    ensures id in OrderIds(items) <==> LinesOf(items, id) != []
  {
    if items != [] {
      OrderIdsHaveLines(items[..|items| - 1], id);
    }
  }

  lemma {:induction false} NoMismatches(
      items: seq<SilverItem>, payments: seq<Payment>, total: seq<Line> -> real, ids: seq<int>)
    ensures Mismatches(items, payments, total, ids) == 0 <==>
      forall id :: id in ids ==> !Mismatch(items, payments, total, id)
  {
    if ids != [] {
      var n := |ids| - 1;
      NoMismatches(items, payments, total, ids[..n]);
      assert ids == ids[..n] + [ids[n]];
    }
  }

  /** The check passes exactly when every order that has both lines and payments is within 5 cents. */
  lemma ReconcilesIsExact(items: seq<SilverItem>, payments: seq<Payment>, total: seq<Line> -> real)
    ensures Reconciles(items, payments, total) <==>
      forall id :: LinesOf(items, id) != [] ==> !Mismatch(items, payments, total, id)
  {
    NoMismatches(items, payments, total, OrderIds(items));
    forall id
      ensures id in OrderIds(items) <==> LinesOf(items, id) != []
    {
      OrderIdsHaveLines(items, id);
    }
  }

  /** The check in the source's own terms: every order that has a line and a payment differs by at
      most five cents, either way, between its lines and its payments. */
  lemma ReconcilesWithinFiveCents(items: seq<SilverItem>, payments: seq<Payment>, total: seq<Line> -> real)
    ensures Reconciles(items, payments, total) <==>
      forall i, p :: i in items && p in payments && i.orderId == p.orderId ==>
        var paid := Sum(Where(payments, PaymentOrderId, p.orderId), Amount);
        -5.0 <= total(LinesOf(items, i.orderId)) - paid as real <= 5.0
  {
    ReconcilesIsExact(items, payments, total);
    forall id
      ensures LinesOf(items, id) != [] <==> exists i :: i in items && i.orderId == id
      ensures Where(payments, PaymentOrderId, id) != [] <==> exists p :: p in payments && p.orderId == id
    {
      LinesOfOrder(items, id);
      PresentInWhere(items, SilverItemOrderId, id);
      PresentInWhere(payments, PaymentOrderId, id);
    }
  }

  lemma PresentInWhere<R>(rows: seq<R>, key: R -> int, k: int)
    ensures Where(rows, key, k) != [] <==> exists r :: r in rows && key(r) == k
  {
    if Where(rows, key, k) != [] {
      WhereMembers(rows, key, k, Where(rows, key, k)[0]);
    }
    if r :| r in rows && key(r) == k {
      WhereMembers(rows, key, k, r);
    }
  }

  /** The lines of an order are those of its rows, in order. */
  lemma {:induction false} LinesOfOrder(items: seq<SilverItem>, id: int)
    ensures var own := Where(items, SilverItemOrderId, id);
      |LinesOf(items, id)| == |own| && forall k :: 0 <= k < |own| ==> LinesOf(items, id)[k] == own[k].line
  {
    if items != [] {
      LinesOfOrder(items[..|items| - 1], id);
    }
  }

  /** What the dbt test sums per order is what staging rounded, line by line. */
  lemma {:induction false} StagedTotals(items: seq<SilverItem>, id: int)
    ensures Sum(Where(StageItems(items), ItemOrderId, id), LineTotal) == RoundedTotal(LinesOf(items, id))
  {
    if items != [] {
      var n := |items| - 1;
      StagedTotals(items[..n], id);
      var staged := StageItems(items)[n];
      assert StageItems(items) == StageItems(items[..n]) + [staged];
      WhereNext(StageItems(items[..n]), staged, ItemOrderId, id);
      SumOfConcat(Where(StageItems(items[..n]), ItemOrderId, id), [staged], LineTotal);
      SumOfOne(staged, LineTotal);
    }
  }

  /** The generator's totals: each order's line sum, rounded; no lines make 0. */
  ghost predicate TotalsOf(items: seq<SilverItem>, orders: seq<OrderIn>) {
    forall k :: 0 <= k < |orders| ==> orders[k].total == RoundHalfEven(ItemTotal(LinesOf(items, orders[k].id)))
  }

  lemma PaymentsOfNoOrder(orders: seq<OrderIn>, id: int)
    requires forall k :: 0 <= k < |orders| ==> OrderInId(orders[k]) != id
    ensures Where(GeneratePayments(orders), PaymentOrderId, id) == []
  {
    var single := Frame(orders, Whole, 1);
    var first := Frame(orders, FirstPart, 1 + |single|);
    var second := Frame(orders, SecondPart, 1 + |single| + |first|);
    FrameLacks(orders, Whole, 1, id);
    FrameLacks(orders, FirstPart, 1 + |single|, id);
    FrameLacks(orders, SecondPart, 1 + |single| + |first|, id);
    NoneOfThree(single, first, second, id);
  }

  lemma SeededOrderMatches(items: seq<SilverItem>, orders: seq<OrderIn>, k: nat)
    requires UniqueKeys(orders, OrderInId) && TotalsOf(items, orders) && k < |orders|
    ensures !Mismatch(items, GeneratePayments(orders), ItemTotal, orders[k].id)
    ensures |LinesOf(items, orders[k].id)| <= 9 ==>
      !Mismatch(items, GeneratePayments(orders), RoundedLines, orders[k].id)
  {
    var lines := LinesOf(items, orders[k].id);
    PaymentsOfOrder(orders, k);
    assert PaidTotal(GeneratePayments(orders), orders[k].id) == PaidFor(lines, orders[k].split);
    GateReconciles(lines, orders[k].split);
    if |lines| <= 9 {
      DbtReconcilesUpToNineLines(lines, orders[k].split);
    }
  }

  /** What the seeder promises: payments generated from the items reconcile with them, order by
      order, in the gate and, with up to nine lines an order, in the dbt test. */
  lemma SeededDataReconciles(items: seq<SilverItem>, orders: seq<OrderIn>)
    requires UniqueKeys(orders, OrderInId) && TotalsOf(items, orders)
    ensures Reconciles(items, GeneratePayments(orders), ItemTotal)
    ensures (forall id :: |LinesOf(items, id)| <= 9) ==> Reconciles(items, GeneratePayments(orders), RoundedLines)
  {
    ReconcilesIsExact(items, GeneratePayments(orders), ItemTotal);
    ReconcilesIsExact(items, GeneratePayments(orders), RoundedLines);
    forall id
      ensures !Mismatch(items, GeneratePayments(orders), ItemTotal, id)
      ensures |LinesOf(items, id)| <= 9 ==> !Mismatch(items, GeneratePayments(orders), RoundedLines, id)
    {
      if k :| 0 <= k < |orders| && OrderInId(orders[k]) == id {
        SeededOrderMatches(items, orders, k);
      } else {
        PaymentsOfNoOrder(orders, id);
      }
    }
  }

  /** ... and in gold: fct_orders of seeded tables shows, for an order of up to nine lines, what was
      sold and what was paid within five cents of each other. */
  lemma SeededGoldReconciles(items: seq<SilverItem>, orders: seq<OrderIn>, stg: seq<Order>, k: nat, j: nat)
    requires UniqueKeys(orders, OrderInId) && TotalsOf(items, orders) && k < |orders| && j < |stg|
    requires stg[j].id == orders[k].id && |LinesOf(items, stg[j].id)| <= 9
    ensures var facts := FctOrders(stg, ItemGroups(StageItems(items)), PaymentGroups(GeneratePayments(orders)));
      |facts| == |stg| && facts[j].orderId == stg[j].id && -TOLERANCE <= facts[j].gross - facts[j].paid <= TOLERANCE
  {
    var payments, id := GeneratePayments(orders), stg[j].id;
    OneRowPerOrder(stg, StageItems(items), payments);
    TotalsBySums(stg[j], StageItems(items), payments);
    StagedTotals(items, id);
    PaymentsOfOrder(orders, k);
    DbtReconcilesUpToNineLines(LinesOf(items, id), orders[k].split);
  }

  // ---------------------------------------------------------------- orphans

  function Self(id: int): int { id }

  /** The order_id column of a child table. */
  function Column<T>(rows: seq<T>, key: T -> int): (ids: seq<int>)
    ensures |ids| == |rows| && forall i :: 0 <= i < |rows| ==> ids[i] == key(rows[i])
  {
    seq(|rows|, i requires 0 <= i < |rows| => key(rows[i]))
  }

  lemma {:induction false} OrphansByColumn<T>(orders: seq<Order>, rows: seq<T>, key: T -> int)
    ensures OrphanCount(orders, Column(rows, key), Self) == OrphanCount(orders, rows, key)
  {
    if rows != [] {
      var n := |rows| - 1;
      OrphansByColumn(orders, rows[..n], key);
      assert Column(rows, key)[..n] == Column(rows[..n], key);
    }
  }

  /** The loop over the child tables, and the sum of what it counted. */
  method CheckNoOrphanedChildRows(orders: seq<Order>, children: seq<seq<int>>) returns (result: CheckResult)
    ensures result.passed <==> forall c :: c in children ==> OrphanCount(orders, c, Self) == 0
  {
    var total := 0;
    for i := 0 to |children|
      invariant total >= 0 && (total == 0 <==> forall k :: 0 <= k < i ==> OrphanCount(orders, children[k], Self) == 0)
    {
      total := total + OrphanCount(orders, children[i], Self);
    }
    result := CheckResult("no_orphaned_order_references", total == 0);
  }

  // ---------------------------------------------------------------- the gate

  /** The tables the gate and the gold build read. */
  datatype Lakehouse = Lakehouse(
    orders: seq<Order>, items: seq<SilverItem>, payments: seq<Payment>, customers: seq<Identity.Resolved>,
    dims: seq<Version>, posBronze: seq<PosText.Landed>, campaigns: seq<CampaignFact.Row>)

  function SilverOf(l: Lakehouse): Silver {
    Silver(l.orders, StageItems(l.items), l.payments, l.customers, l.dims)
  }

  /** check_campaign_performance_natural_key */
  predicate NoDuplicateCampaignKeys(rows: seq<CampaignFact.Row>) {
    |rows| == |set i | 0 <= i < |rows| :: CampaignFact.KeyOf(rows[i])|
  }

  lemma CampaignKeyCheckIsExact(rows: seq<CampaignFact.Row>)
    ensures NoDuplicateCampaignKeys(rows) <==> UniqueKeys(rows, CampaignFact.KeyOf)
  {
    DistinctCount(rows, CampaignFact.KeyOf);
    assert Keys(rows, CampaignFact.KeyOf) == set i | 0 <= i < |rows| :: CampaignFact.KeyOf(rows[i]);
  }

  /** The fold over the check results. */
  method AllPassed(results: seq<CheckResult>) returns (allPassed: bool)
    ensures allPassed <==> forall r :: r in results ==> r.passed
  {
    allPassed := true;
    for i := 0 to |results|
      invariant allPassed <==> forall k :: 0 <= k < i ==> results[k].passed
    {
      if !results[i].passed {
        allPassed := false;
      }
    }
  }

  /** What the checks check, in their order. */
  ghost predicate Clean(l: Lakehouse) {
    && Reconciles(l.items, l.payments, ItemTotal)
    && NoDuplicateOrders(l.orders)
    && OrphanCount(l.orders, l.items, SilverItemOrderId) == 0 && OrphanCount(l.orders, l.payments, PaymentOrderId) == 0
    && PosText.ParseCheck(l.posBronze)
    && NoDuplicateIdentities(l.customers)
    && NoDuplicateCampaignKeys(l.campaigns)
  }

  /** What a clean lakehouse is, in terms of its rows. */
  ghost predicate ReadyForGold(l: Lakehouse) {
    // lines and payments of every order agree within five cents
    && (forall i, p :: i in l.items && p in l.payments && i.orderId == p.orderId ==>
          var paid := Sum(Where(l.payments, PaymentOrderId, p.orderId), Amount);
          -5.0 <= ItemTotal(LinesOf(l.items, i.orderId)) - paid as real <= 5.0)
    // order ids, customer emails and campaign keys do not repeat
    && (forall i, j :: 0 <= i < j < |l.orders| ==> l.orders[i].id != l.orders[j].id)
    && (forall i, j :: 0 <= i < j < |l.customers| ==> l.customers[i].email != l.customers[j].email)
    && (forall i, j :: 0 <= i < j < |l.campaigns| ==> l.campaigns[i].key != l.campaigns[j].key)
    // every line and every payment has its order
    && (forall i :: i in l.items ==> exists o :: o in l.orders && o.id == i.orderId)
    && (forall p :: p in l.payments ==> exists o :: o in l.orders && o.id == p.orderId)
    // every text present in bronze has a digit in it
    && (forall r :: r in l.posBronze ==>
          && (r.quantity.Some? ==> !PosText.NoDigit(r.quantity.value))
          && (PosText.CostRaw(r).Some? ==> !PosText.NoDigit(PosText.CostRaw(r).value)))
  }

  lemma {:induction false} NoOrphansMeans<T>(orders: seq<Order>, rows: seq<T>, key: T -> int)
    ensures OrphanCount(orders, rows, key) == 0 <==>
      forall r :: r in rows ==> exists o :: o in orders && o.id == key(r)
  {
    if rows != [] {
      var n := |rows| - 1;
      NoOrphansMeans(orders, rows[..n], key);
      assert rows == rows[..n] + [rows[n]];
      var found := Find(orders, OrderId, key(rows[n]));
      if found.None? {
        assert rows[n] in rows && forall o :: o in orders ==> OrderId(o) != key(rows[n]);
      } else {
        assert found.value in orders && found.value.id == key(rows[n]);
      }
    }
  }

  lemma OrphanChecksMean(l: Lakehouse)
    ensures OrphanCount(l.orders, l.items, SilverItemOrderId) == 0 <==>
      forall i :: i in l.items ==> exists o :: o in l.orders && o.id == i.orderId
    ensures OrphanCount(l.orders, l.payments, PaymentOrderId) == 0 <==>
      forall p :: p in l.payments ==> exists o :: o in l.orders && o.id == p.orderId
  {
    NoOrphansMeans(l.orders, l.items, SilverItemOrderId);
    NoOrphansMeans(l.orders, l.payments, PaymentOrderId);
  }

  lemma KeyChecksMean(l: Lakehouse)
    ensures NoDuplicateOrders(l.orders) <==>
      forall i, j :: 0 <= i < j < |l.orders| ==> l.orders[i].id != l.orders[j].id
    ensures NoDuplicateIdentities(l.customers) <==>
      forall i, j :: 0 <= i < j < |l.customers| ==> l.customers[i].email != l.customers[j].email
    ensures NoDuplicateCampaignKeys(l.campaigns) <==>
      forall i, j :: 0 <= i < j < |l.campaigns| ==> l.campaigns[i].key != l.campaigns[j].key
  {
    DuplicateCheckIsExact(l.orders);
    IdentityCheckIsExact(l.customers);
    CampaignKeyCheckIsExact(l.campaigns);
    UniqueMeans(l.orders, OrderId);
    UniqueMeans(l.customers, Identity.ResolvedEmail);
    UniqueMeans(l.campaigns, CampaignFact.KeyOf);
  }

  lemma UniqueMeans<R, K>(rows: seq<R>, key: R -> K)
    ensures UniqueKeys(rows, key) <==> forall i, j :: 0 <= i < j < |rows| ==> key(rows[i]) != key(rows[j])
  {
  }

  /** The six checks together pass exactly when the lakehouse is ready. */
  lemma CleanExactlyIfReady(l: Lakehouse)
    ensures Clean(l) <==> ReadyForGold(l)
  {
    ReconcilesWithinFiveCents(l.items, l.payments, ItemTotal);
    OrphanChecksMean(l);
    KeyChecksMean(l);
    PosText.ParseCheckIsExact(l.posBronze);
  }

  /** The parse check reports a share of all rows, so it raises on an empty bronze table. */
  datatype GateOutcome = Passed | Blocked | Raised

  method RunGate(l: Lakehouse) returns (outcome: GateOutcome)
    ensures outcome.Raised? <==> l.posBronze == []
    ensures outcome.Passed? <==> l.posBronze != [] && Clean(l)
    ensures outcome.Passed? <==> l.posBronze != [] && ReadyForGold(l)
  {
    CleanExactlyIfReady(l);
    var reconcile := CheckResult("payments_reconcile_to_order_items", Reconciles(l.items, l.payments, ItemTotal));
    var duplicates := CheckResult("no_duplicate_order_ids", NoDuplicateOrders(l.orders));
    var items, payments := Column(l.items, SilverItemOrderId), Column(l.payments, PaymentOrderId);
    var orphans := CheckNoOrphanedChildRows(l.orders, [items, payments]);
    OrphansByColumn(l.orders, l.items, SilverItemOrderId);
    OrphansByColumn(l.orders, l.payments, PaymentOrderId);
    assert items in [items, payments] && payments in [items, payments];
    if l.posBronze == [] {
      return Raised;
    }
    var parsed := CheckResult("pos_inventory_no_true_parse_failures", PosText.ParseCheck(l.posBronze));
    var identities := CheckResult("no_duplicate_customer_identities", NoDuplicateIdentities(l.customers));
    var campaigns := CheckResult("campaign_performance_natural_key_unique", NoDuplicateCampaignKeys(l.campaigns));
    var results := [reconcile, duplicates, orphans, parsed, identities, campaigns];
    var allPassed := AllPassed(results);
    EachResult(results);
    outcome := if allPassed then Passed else Blocked;
  }

  lemma EachResult(results: seq<CheckResult>)
    requires |results| == 6
    ensures (forall r :: r in results ==> r.passed) <==>
      (results[0].passed && results[1].passed && results[2].passed &&
       results[3].passed && results[4].passed && results[5].passed)
  {
    assert forall i :: 0 <= i < 6 ==> results[i] in results;
  }

  lemma {:induction false} StagedOrphans(orders: seq<Order>, items: seq<SilverItem>)
    ensures OrphanCount(orders, StageItems(items), ItemOrderId) == OrphanCount(orders, items, SilverItemOrderId)
  {
    if items != [] {
      var n := |items| - 1;
      StagedOrphans(orders, items[..n]);
      assert StageItems(items)[..n] == StageItems(items[..n]);
    }
  }

  /** The checks the silver jobs make redundant: resolved customers and the deduplicated campaign
      table pass whatever bronze held. */
  lemma KeyChecksAlwaysPass(customers: seq<Identity.Customer>, bronze: seq<CampaignFact.Row>, rn: seq<nat>)
    requires UniqueKeys(customers, Identity.CustomerId)
    requires RowNumbers(bronze, CampaignFact.KeyOf, CampaignFact.UpdatedAt, rn)
    ensures NoDuplicateIdentities(Identity.Resolve(customers))
    ensures NoDuplicateCampaignKeys(CampaignFact.Silver(bronze, rn))
  {
    IdentityCheckAlwaysPasses(customers);
    CampaignFact.SilverIsLatest(bronze, rn);
    var campaigns := CampaignFact.Silver(bronze, rn);
    assert Keys(campaigns, CampaignFact.KeyOf) == set i | 0 <= i < |campaigns| :: CampaignFact.KeyOf(campaigns[i]);
  }

  /** Gold and its promotion: a failed gate leaves it exactly as it was. */
  class Warehouse {
    var gold: GoldTables

    constructor ()
      ensures gold == GoldTables([], [])
    {
      gold := GoldTables([], []);
    }

    method Promote(l: Lakehouse, rn: seq<nat>, ghost customers: seq<Identity.Customer>, ghost log: seq<Load>)
      returns (outcome: GateOutcome)
      requires FromSilverJobs(SilverOf(l), customers, log) && RowNumbers(l.dims, VersionId, Earliness, rn)
      modifies this
      ensures outcome.Passed? <==> l.posBronze != [] && Clean(l)
      ensures outcome.Passed? <==> l.posBronze != [] && ReadyForGold(l)
      ensures outcome.Passed? ==> gold == Build(SilverOf(l), rn) && Conserves(SilverOf(l), gold)
      ensures outcome.Passed? ==> CustomersResolved(SilverOf(l), customers, gold)
      ensures !outcome.Passed? ==> gold == old(gold)
    {
      outcome := RunGate(l);
      if outcome.Passed? {
        StagedOrphans(l.orders, l.items);
        PassingGateConserves(SilverOf(l), customers, log, rn);
        GoldCustomersAreResolved(SilverOf(l), customers, rn);
        gold := Build(SilverOf(l), rn);
      }
    }
  }
}
