/** Seeded payments: order totals rounded to the cent, split in two and rounded again, against the
    two reconciliation tolerances. Money is in cents. */
module Payments {
  import opened Tables
  import opened Gold

  const TOLERANCE := 5

  /** numpy and pandas round half to even. */
  function RoundHalfEven(x: real): int {
    var f := x.Floor;
    var frac := x - f as real;
    if frac < 0.5 then f else if frac > 0.5 then f + 1 else if f % 2 == 0 then f else f + 1
  }

  /** DuckDB rounds half away from zero. */
  function RoundHalfAway(x: real): int {
    if x >= 0.0 then (x + 0.5).Floor else -((0.5 - x).Floor)
  }

  predicate IsTie(x: real) { x - x.Floor as real == 0.5 }

  ghost predicate Nearest(x: real, r: int) { -0.5 <= x - r as real <= 0.5 }

  lemma BothRoundToNearest(x: real)
    ensures Nearest(x, RoundHalfEven(x)) && Nearest(x, RoundHalfAway(x))
    ensures IsTie(x) ==> RoundHalfEven(x) % 2 == 0
    ensures !IsTie(x) ==> -0.5 < x - RoundHalfEven(x) as real < 0.5
  {
  }

  lemma WholeFloor(n: int)
    ensures (n as real).Floor == n
  {
  }

  lemma TiesGoAway(x: real)
    requires IsTie(x)
    ensures if x > 0.0 then RoundHalfAway(x) as real > x else (RoundHalfAway(x) as real) < x
  {
    var f := x.Floor;
    if x >= 0.0 {
      WholeFloor(f + 1);
      assert x + 0.5 == (f + 1) as real && RoundHalfAway(x) == f + 1;
    } else {
      WholeFloor(-f);
      assert 0.5 - x == (-f) as real && RoundHalfAway(x) == f;
    }
  }

  // ---------------------------------------------------------------- splitting one total

  function First(total: int, share: real): int { RoundHalfEven(total as real * share) }
  function Second(total: int, share: real): int { RoundHalfEven(total as real * (1.0 - share)) }

  /** The nearest cent, the even one on a tie. */
  ghost predicate Rounds(x: real, amount: int) { Nearest(x, amount) && (IsTie(x) ==> amount % 2 == 0) }

  /** The first part is the drawn share of the total, the second the rest, each rounded by itself. */
  lemma PartsAreShares(total: int, share: real)
    ensures Rounds(total as real * share, First(total, share))
    ensures Rounds(total as real * (1.0 - share), Second(total, share))
  {
    BothRoundToNearest(total as real * share);
    BothRoundToNearest(total as real * (1.0 - share));
  }

  lemma ComplementFloor(x: real, total: int)
    ensures (total as real - x).Floor == if x == x.Floor as real then total - x.Floor else total - x.Floor - 1
  {
    var y := total as real - x;
    var candidate := if x == x.Floor as real then total - x.Floor else total - x.Floor - 1;
    assert candidate as real <= y < candidate as real + 1.0;
  }

  /** The exact condition: a split loses or gains a cent exactly when the first part is a half-cent
      tie of an odd total, and then it is one cent. */
  lemma SplitIsExact(total: int, share: real)
    ensures First(total, share) + Second(total, share) == total <==> !(IsTie(total as real * share) && total % 2 == 1)
    ensures -1 <= First(total, share) + Second(total, share) - total <= 1
  {
    var x := total as real * share;
    assert total as real * (1.0 - share) == total as real - x;
    ComplementFloor(x, total);
    RoundPair(x, total);
  }

  lemma RoundPair(x: real, total: int)
    requires (total as real - x).Floor == if x == x.Floor as real then total - x.Floor else total - x.Floor - 1
    ensures var sum := RoundHalfEven(x) + RoundHalfEven(total as real - x);
      (sum == total <==> !(IsTie(x) && total % 2 == 1)) && -1 <= sum - total <= 1
  {
    var f := x.Floor;
    var y := total as real - x;
    if x == f as real {
      assert y == (total - f) as real;
    } else {
      assert y - y.Floor as real == 1.0 - (x - f as real);
    }
  }

  // ---------------------------------------------------------------- an order's lines and payments

  /** quantity * unit_price_eur * (1 - discount_pct / 100), unrounded. */
  datatype Line = Line(quantity: int, unitPrice: int, discountPct: real)

  function LineAmount(l: Line): real {
    (l.quantity * l.unitPrice) as real * (1.0 - l.discountPct / 100.0)
  }

  function ItemTotal(lines: seq<Line>): real {
    if lines == [] then 0.0 else ItemTotal(lines[..|lines| - 1]) + LineAmount(lines[|lines| - 1])
  }

  /** The per-line-rounded total of stg_order_items. */
  function RoundedTotal(lines: seq<Line>): int {
    if lines == [] then 0 else RoundedTotal(lines[..|lines| - 1]) + RoundHalfAway(LineAmount(lines[|lines| - 1]))
  }

  /** What is paid for an order: its rounded total, at once or split. */
  function PaidFor(lines: seq<Line>, split: Option<real>): int {
    var total := RoundHalfEven(ItemTotal(lines));
    if split.None? then total else First(total, split.value) + Second(total, split.value)
  }

  /** Payments stay within 1.5 cents of the unrounded item total, for any number of lines. */
  lemma PaidIsNearItemTotal(lines: seq<Line>, split: Option<real>)
    ensures -1.5 < ItemTotal(lines) - PaidFor(lines, split) as real < 1.5
  {
    var total := RoundHalfEven(ItemTotal(lines));
    BothRoundToNearest(ItemTotal(lines));
    if split.Some? {
      SplitIsExact(total, split.value);
    }
  }

  /** ... so the Spark gate's reconciliation always passes on seeded data. */
  lemma GateReconciles(lines: seq<Line>, split: Option<real>)
    ensures -(TOLERANCE as real) <= ItemTotal(lines) - PaidFor(lines, split) as real <= TOLERANCE as real
  {
    PaidIsNearItemTotal(lines, split);
  }

  lemma {:induction false} RoundedTotalDrift(lines: seq<Line>)
    ensures -0.5 * |lines| as real <= RoundedTotal(lines) as real - ItemTotal(lines) <= 0.5 * |lines| as real
  {
    if lines != [] {
      RoundedTotalDrift(lines[..|lines| - 1]);
      BothRoundToNearest(LineAmount(lines[|lines| - 1]));
    }
  }

  /** The dbt test's tolerance, over per-line-rounded totals. */
  predicate WithinTolerance(lines: seq<Line>, split: Option<real>) {
    -TOLERANCE <= RoundedTotal(lines) - PaidFor(lines, split) <= TOLERANCE
  }

  /** The tolerance holds for up to nine lines: nine half
      cents of line rounding leave room for either a half cent of total rounding or, when a cent
      is lost in the split, a total that was not a tie. */
  lemma DbtReconcilesUpToNineLines(lines: seq<Line>, split: Option<real>)
    requires |lines| <= 9
    ensures WithinTolerance(lines, split)
  {
    var total := RoundHalfEven(ItemTotal(lines));
    BothRoundToNearest(ItemTotal(lines));
    RoundedTotalDrift(lines);
    if split.Some? {
      SplitIsExact(total, split.value);
    }
  }

  function Repeat(l: Line, n: nat): seq<Line> { seq(n, _ => l) }

  lemma {:induction false} TotalsOfRepeat(l: Line, n: nat)
    ensures ItemTotal(Repeat(l, n)) == n as real * LineAmount(l)
    ensures RoundedTotal(Repeat(l, n)) == n * RoundHalfAway(LineAmount(l))
  {
    if n > 0 {
      TotalsOfRepeat(l, n - 1);
      assert Repeat(l, n)[..n - 1] == Repeat(l, n - 1);
      assert n as real * LineAmount(l) == (n - 1) as real * LineAmount(l) + LineAmount(l);
    }
  }

  lemma {:induction false} TotalsOfConcat(a: seq<Line>, b: seq<Line>)
    ensures ItemTotal(a + b) == ItemTotal(a) + ItemTotal(b)
    ensures RoundedTotal(a + b) == RoundedTotal(a) + RoundedTotal(b)
  {
    if b == [] {
      assert a + b == a;
    } else {
      var n := |b| - 1;
      TotalsOfConcat(a, b[..n]);
      assert (a + b)[..|a| + n] == a + b[..n];
    }
  }

  /** Ten discounted lines of a euro, and `k` undiscounted ones. */
  function TenAndMore(k: nat): seq<Line> { Repeat(Line(1, 100, 15.46), 10) + Repeat(Line(1, 100, 0.0), k) }

  lemma TenAndMoreTotals(k: nat)
    ensures ItemTotal(TenAndMore(k)) == 845.4 + (100 * k) as real && RoundedTotal(TenAndMore(k)) == 850 + 100 * k
  {
    var discounted, full := Line(1, 100, 15.46), Line(1, 100, 0.0);
    TotalsOfConcat(Repeat(discounted, 10), Repeat(full, k));
    TotalsOfRepeat(discounted, 10);
    TotalsOfRepeat(full, k);
    assert LineAmount(discounted) == 84.54 && LineAmount(full) == 100.0;
    assert RoundHalfAway(84.54) == 85 by { assert (84.54 + 0.5).Floor == 85; }
    assert RoundHalfAway(100.0) == 100 by { assert (100.0 + 0.5).Floor == 100; }
  }

  lemma TotalRounds(x: real, total: int)
    requires x == total as real + 0.4
    ensures RoundHalfEven(x) == total
  {
    assert x.Floor == total;
  }

  lemma HalfRounds(total: int, half: int)
    requires total == 2 * half + 1 && half % 2 == 0
    ensures First(total, 0.5) == half && Second(total, 0.5) == half
  {
    var x := total as real * 0.5;
    assert x == half as real + 0.5 && x.Floor == half;
    assert total as real * (1.0 - 0.5) == x;
  }

  /** Paid half and half, a cent is lost on top of the six the lines gained. */
  lemma TenAndMorePaid(k: nat)
    ensures PaidFor(TenAndMore(k), Some(0.5)) == 844 + 100 * k
  {
    TenAndMoreTotals(k);
    TotalRounds(ItemTotal(TenAndMore(k)), 845 + 100 * k);
    HalfRounds(845 + 100 * k, 422 + 50 * k);
  }

  /** ... and for every number of lines from ten on some order, with prices, discounts and a share
      the seeder can draw, is beyond it: nine lines is the exact limit. */
  lemma DbtReconcilesExactlyUpToNineLines(n: nat)
    ensures (forall lines, split :: |lines| == n ==> WithinTolerance(lines, split)) <==> n <= 9
  {
    if n <= 9 {
      forall lines: seq<Line>, split | |lines| == n
        ensures WithinTolerance(lines, split)
      {
        DbtReconcilesUpToNineLines(lines, split);
      }
    } else {
      DbtCanFailFromTenLines(n);
    }
  }

  lemma DbtCanFailFromTenLines(n: nat)
    requires n >= 10
    ensures |TenAndMore(n - 10)| == n && !WithinTolerance(TenAndMore(n - 10), Some(0.5))
    ensures forall l :: l in TenAndMore(n - 10) ==>
      l.quantity == 1 && l.unitPrice == 100 && l.discountPct in {0.0, 15.46}
  {
    TenAndMoreTotals(n - 10);
    TenAndMorePaid(n - 10);
  }

  // ---------------------------------------------------------------- the payment rows

  /** An order as the generator sees it: its rounded total, and the share if it is split. */
  datatype OrderIn = OrderIn(id: int, total: int, split: Option<real>)

  function OrderInId(o: OrderIn): int { o.id }

  datatype Part = Whole | FirstPart | SecondPart

  predicate Takes(o: OrderIn, part: Part) { part.Whole? <==> o.split.None? }

  function AmountOf(o: OrderIn, part: Part): int {
    if part.Whole? || o.split.None? then o.total
    else if part.FirstPart? then First(o.total, o.split.value)
    else Second(o.total, o.split.value)
  }

  /** One of the three frames: the orders of its mask, numbered from `start`. */
  function Frame(orders: seq<OrderIn>, part: Part, start: nat): (rows: seq<Payment>)
    ensures forall i :: 0 <= i < |rows| ==> rows[i].id == start + i
  {
    if orders == [] then []
    else
      var n := |orders| - 1;
      var before := Frame(orders[..n], part, start);
      var o := orders[n];
      if Takes(o, part) then before + [Payment(start + |before|, o.id, AmountOf(o, part))] else before
  }

  /** The concatenation of the frames, with payment_id running through all three. */
  function GeneratePayments(orders: seq<OrderIn>): seq<Payment> {
    var single := Frame(orders, Whole, 1);
    var first := Frame(orders, FirstPart, 1 + |single|);
    var second := Frame(orders, SecondPart, 1 + |single| + |first|);
    single + first + second
  }

  /** payment_id is a primary key: the rows are numbered 1, 2, 3, ... */
  lemma PaymentIdsAreSequential(orders: seq<OrderIn>)
    ensures forall i :: 0 <= i < |GeneratePayments(orders)| ==> GeneratePayments(orders)[i].id == i + 1
  {
  }

  lemma FrameNext(orders: seq<OrderIn>, part: Part, start: nat, id: int)
    requires orders != []
    ensures var n := |orders| - 1;
      var before := Frame(orders[..n], part, start);
      Where(Frame(orders, part, start), PaymentOrderId, id) ==
      if Takes(orders[n], part) && orders[n].id == id
      then Where(before, PaymentOrderId, id) + [Payment(start + |before|, id, AmountOf(orders[n], part))]
      else Where(before, PaymentOrderId, id)
  {
    var n := |orders| - 1;
    var before := Frame(orders[..n], part, start);
    WhereNext(before, Payment(start + |before|, orders[n].id, AmountOf(orders[n], part)), PaymentOrderId, id);
  }

  lemma {:induction false} FrameOfOrder(orders: seq<OrderIn>, part: Part, start: nat, k: nat)
    requires UniqueKeys(orders, OrderInId) && k < |orders|
    ensures var own := Where(Frame(orders, part, start), PaymentOrderId, orders[k].id);
      if Takes(orders[k], part) then
        && |own| == 1 && own[0].amount == AmountOf(orders[k], part)
        && own[0].amount == match part
             case Whole => orders[k].total
             case FirstPart => First(orders[k].total, orders[k].split.value)
             case SecondPart => Second(orders[k].total, orders[k].split.value)
      else own == []
  {
    var n := |orders| - 1;
    FrameNext(orders, part, start, orders[k].id);
    if k < n {
      FrameOfOrder(orders[..n], part, start, k);
      assert OrderInId(orders[k]) != OrderInId(orders[n]);
    } else {
      FrameLacks(orders[..n], part, start, orders[k].id);
    }
  }

  lemma {:induction false} FrameLacks(orders: seq<OrderIn>, part: Part, start: nat, id: int)
    requires forall i :: 0 <= i < |orders| ==> OrderInId(orders[i]) != id
    ensures Where(Frame(orders, part, start), PaymentOrderId, id) == []
  {
    if orders != [] {
      var n := |orders| - 1;
      FrameLacks(orders[..n], part, start, id);
      FrameNext(orders, part, start, id);
    }
  }

  lemma SumOfFrame(orders: seq<OrderIn>, part: Part, start: nat, k: nat)
    requires UniqueKeys(orders, OrderInId) && k < |orders|
    ensures Sum(Where(Frame(orders, part, start), PaymentOrderId, orders[k].id), Amount)
         == if Takes(orders[k], part) then AmountOf(orders[k], part) else 0
  {
    FrameOfOrder(orders, part, start, k);
    var own := Where(Frame(orders, part, start), PaymentOrderId, orders[k].id);
    if own != [] {
      SumOfOne(own[0], Amount);
      assert own == [own[0]];
    }
  }

  lemma NoneOfThree(a: seq<Payment>, b: seq<Payment>, c: seq<Payment>, id: int)
    requires Where(a, PaymentOrderId, id) == Where(b, PaymentOrderId, id) == Where(c, PaymentOrderId, id) == []
    ensures Where(a + b + c, PaymentOrderId, id) == []
  {
    WhereOfConcat(a + b, c, PaymentOrderId, id);
    WhereOfConcat(a, b, PaymentOrderId, id);
  }

  lemma SumOfThree(a: seq<Payment>, b: seq<Payment>, c: seq<Payment>, id: int)
    ensures Sum(Where(a + b + c, PaymentOrderId, id), Amount)
         == Sum(Where(a, PaymentOrderId, id), Amount) + Sum(Where(b, PaymentOrderId, id), Amount)
            + Sum(Where(c, PaymentOrderId, id), Amount)
  {
    WhereOfConcat(a + b, c, PaymentOrderId, id);
    WhereOfConcat(a, b, PaymentOrderId, id);
    SumOfConcat(Where(a, PaymentOrderId, id) + Where(b, PaymentOrderId, id), Where(c, PaymentOrderId, id), Amount);
    SumOfConcat(Where(a, PaymentOrderId, id), Where(b, PaymentOrderId, id), Amount);
  }

  lemma WhereOfThree(a: seq<Payment>, b: seq<Payment>, c: seq<Payment>, id: int)
    ensures Where(a + b + c, PaymentOrderId, id)
         == Where(a, PaymentOrderId, id) + Where(b, PaymentOrderId, id) + Where(c, PaymentOrderId, id)
  {
    WhereOfConcat(a + b, c, PaymentOrderId, id);
    WhereOfConcat(a, b, PaymentOrderId, id);
  }

  lemma FrameIds(orders: seq<OrderIn>, part: Part, start: nat, id: int)
    ensures var frame := Frame(orders, part, start);
      forall r :: r in Where(frame, PaymentOrderId, id) ==> start <= r.id < start + |frame|
  {
    var frame := Frame(orders, part, start);
    forall r | r in Where(frame, PaymentOrderId, id)
      ensures start <= r.id < start + |frame|
    {
      WhereMembers(frame, PaymentOrderId, id, r);
    }
  }

  /** An order's rows: one of its total, or its first part and then, under a later id, its second. */
  lemma PaymentRowsOfOrder(orders: seq<OrderIn>, k: nat)
    requires UniqueKeys(orders, OrderInId) && k < |orders|
    ensures var o, own := orders[k], Where(GeneratePayments(orders), PaymentOrderId, orders[k].id);
      if o.split.None? then |own| == 1 && own[0].amount == o.total
      else
        && |own| == 2 && own[0].id < own[1].id
        && own[0].amount == First(o.total, o.split.value) && own[1].amount == Second(o.total, o.split.value)
  {
    var m := 1 + |Frame(orders, Whole, 1)|;
    var n := m + |Frame(orders, FirstPart, m)|;
    var id := orders[k].id;
    WhereOfThree(Frame(orders, Whole, 1), Frame(orders, FirstPart, m), Frame(orders, SecondPart, n), id);
    RowsOfParts(orders, m, n, k);
  }

  lemma RowsOfParts(orders: seq<OrderIn>, m: nat, n: nat, k: nat)
    requires UniqueKeys(orders, OrderInId) && k < |orders| && n == m + |Frame(orders, FirstPart, m)|
    ensures var o, id := orders[k], orders[k].id;
      var whole := Where(Frame(orders, Whole, 1), PaymentOrderId, id);
      var first := Where(Frame(orders, FirstPart, m), PaymentOrderId, id);
      var second := Where(Frame(orders, SecondPart, n), PaymentOrderId, id);
      if o.split.None? then |whole| == 1 && whole[0].amount == o.total && first == second == []
      else
        && whole == [] && |first| == |second| == 1 && first[0].id < second[0].id
        && first[0].amount == First(o.total, o.split.value) && second[0].amount == Second(o.total, o.split.value)
  {
    FrameOfOrder(orders, Whole, 1, k);
    FrameOfOrder(orders, FirstPart, m, k);
    FrameOfOrder(orders, SecondPart, n, k);
    FrameIds(orders, FirstPart, m, orders[k].id);
    FrameIds(orders, SecondPart, n, orders[k].id);
  }

  /** Each order's payments sum to its total, or to the total give or take the cent of SplitIsExact. */
  lemma PaymentsOfOrder(orders: seq<OrderIn>, k: nat)
    requires UniqueKeys(orders, OrderInId) && k < |orders|
    ensures var o := orders[k];
      Sum(Where(GeneratePayments(orders), PaymentOrderId, o.id), Amount) ==
      if o.split.None? then o.total else First(o.total, o.split.value) + Second(o.total, o.split.value)
  {
    var single := Frame(orders, Whole, 1);
    var first := Frame(orders, FirstPart, 1 + |single|);
    var second := Frame(orders, SecondPart, 1 + |single| + |first|);
    SumOfThree(single, first, second, orders[k].id);
    SumOfParts(orders, 1, 1 + |single|, 1 + |single| + |first|, k);
  }

  lemma SumOfParts(orders: seq<OrderIn>, a: nat, b: nat, c: nat, k: nat)
    requires UniqueKeys(orders, OrderInId) && k < |orders|
    ensures var o := orders[k];
      Sum(Where(Frame(orders, Whole, a), PaymentOrderId, o.id), Amount)
      + Sum(Where(Frame(orders, FirstPart, b), PaymentOrderId, o.id), Amount)
      + Sum(Where(Frame(orders, SecondPart, c), PaymentOrderId, o.id), Amount)
      == if o.split.None? then o.total else First(o.total, o.split.value) + Second(o.total, o.split.value)
  {
    SumOfFrame(orders, Whole, a, k);
    SumOfFrame(orders, FirstPart, b, k);
    SumOfFrame(orders, SecondPart, c, k);
  }
}
