/** The point-of-sale texts: what each schema stage writes for a quantity and a cost, and the
    extraction and casts that read them back. Costs are in cents. */
module PosText {
  import opened Tables

  // ---------------------------------------------------------------- the extractor

  predicate IsDigit(c: char) { '0' <= c <= '9' }
  predicate AllDigits(s: string) { forall i :: 0 <= i < |s| ==> IsDigit(s[i]) }
  predicate NoDigit(s: string) { forall i :: 0 <= i < |s| ==> !IsDigit(s[i]) }

  /** The length of the leading run of digits. */
  function DigitRun(s: string): (n: nat)
    ensures n <= |s|
  {
    if s == [] || !IsDigit(s[0]) then 0 else 1 + DigitRun(s[1..])
  }

  lemma {:induction false} RunIsMaximal(s: string)
    ensures AllDigits(s[..DigitRun(s)]) && (DigitRun(s) < |s| ==> !IsDigit(s[DigitRun(s)]))
  {
    if s != [] && IsDigit(s[0]) {
      RunIsMaximal(s[1..]);
      assert s[..DigitRun(s)] == [s[0]] + s[1..][..DigitRun(s[1..])];
    }
  }

  /** The greedy match of \d+\.?\d* at the start of `s`, which starts with a digit. */
  function TokenLength(s: string): (n: nat)
    ensures n <= |s|
  {
    var d := DigitRun(s);
    if d < |s| && s[d] == '.' then d + 1 + DigitRun(s[d + 1..]) else d
  }

  function Token(s: string): string { s[..TokenLength(s)] }

  /** regexp_extract(s, "(\d+\.?\d*)", 0): the first match, or the empty string. */
  function Extract(s: string): string {
    if s == [] then "" else if IsDigit(s[0]) then Token(s) else Extract(s[1..])
  }

  /** The language of the pattern: digits, an optional point, more digits. */
  ghost predicate Matches(t: string) {
    exists d :: Splits(t, d)
  }

  ghost predicate Splits(t: string, d: int) {
    0 < d <= |t| && AllDigits(t[..d]) && (d == |t| || (t[d] == '.' && AllDigits(t[d + 1..])))
  }

  /** `t` is the match a regular-expression engine reports: it starts where the first match can
      start, and no longer text from there matches. */
  ghost predicate FirstMatch(s: string, start: nat, t: string) {
    && start + |t| <= |s| && s[start..start + |t|] == t
    && NoDigit(s[..start]) && Matches(t)
    && (forall end :: start + |t| < end <= |s| ==> !Matches(s[start..end]))
  }

  lemma TokenSplits(s: string)
    requires s != [] && IsDigit(s[0])
    ensures Splits(s[..TokenLength(s)], DigitRun(s))
  {
    var d := DigitRun(s);
    RunIsMaximal(s);
    if d < |s| && s[d] == '.' {
      RunIsMaximal(s[d + 1..]);
      PointedSplits(s, d, DigitRun(s[d + 1..]));
    } else {
      PlainSplits(s, d);
    }
  }

  lemma PlainSplits(s: string, d: nat)
    requires 0 < d <= |s| && AllDigits(s[..d])
    ensures Splits(s[..d], d)
  {
    assert s[..d][..d] == s[..d];
  }

  lemma PointedSplits(s: string, d: nat, f: nat)
    requires 0 < d < |s| && AllDigits(s[..d]) && s[d] == '.' && f < |s| - d && AllDigits(s[d + 1..][..f])
    ensures Splits(s[..d + 1 + f], d)
  {
    assert s[..d + 1 + f][..d] == s[..d];
    assert s[..d + 1 + f][d + 1..] == s[d + 1..][..f];
  }

  lemma NothingLonger(s: string, end: nat)
    requires s != [] && IsDigit(s[0]) && |Token(s)| < end <= |s|
    ensures !Matches(s[..end])
  {
    var d, t := DigitRun(s), s[..end];
    RunIsMaximal(s);
    forall e
      ensures !Splits(t, e)
    {
      if 0 < e <= end {
        if e > d {
          assert t[..e][d] == s[d];
        } else if e < d {
          assert t[e] == s[..d][e];
        } else if s[d] == '.' && e < end {
          RunIsMaximal(s[d + 1..]);
          var f := DigitRun(s[d + 1..]);
          assert t[e + 1..][f] == s[d + 1..][f];
        }
      }
    }
  }

  /** The extractor finds the leftmost, longest number; it finds none exactly when no digit is there. */
  lemma {:induction false} ExtractIsFirstMatch(s: string)
    ensures Extract(s) == "" <==> NoDigit(s)
    ensures !NoDigit(s) ==> exists start :: FirstMatch(s, start, Extract(s))
  {
    if s == [] {
    } else if IsDigit(s[0]) {
      TokenSplits(s);
      forall end | |Token(s)| < end <= |s|
        ensures !Matches(s[0..end])
      {
        NothingLonger(s, end);
      }
      assert FirstMatch(s, 0, Token(s));
    } else {
      ExtractIsFirstMatch(s[1..]);
      assert forall i :: 0 < i < |s| ==> s[i] == s[1..][i - 1];
      if !NoDigit(s[1..]) {
        var start :| FirstMatch(s[1..], start, Extract(s));
        OneLater(s, start);
      }
    }
  }

  lemma SliceOfTail(s: string, from: nat, end: nat)
    requires s != [] && from <= end < |s|
    ensures s[1..][from..end] == s[from + 1..end + 1]
  {
  }

  lemma NoDigitBefore(s: string, start: nat)
    requires s != [] && !IsDigit(s[0]) && start < |s| && NoDigit(s[1..][..start])
    ensures NoDigit(s[..start + 1])
  {
    assert s[..start + 1] == [s[0]] + s[1..][..start];
  }

  lemma OneLater(s: string, start: nat)
    requires s != [] && !IsDigit(s[0]) && FirstMatch(s[1..], start, Extract(s))
    ensures FirstMatch(s, start + 1, Extract(s))
  {
    var t, later := Extract(s), start + 1;
    SliceOfTail(s, start, start + |t|);
    NoDigitBefore(s, start);
    forall end | later + |t| < end <= |s|
      ensures !Matches(s[later..end])
    {
      SliceOfTail(s, start, end - 1);
    }
  }

  // ---------------------------------------------------------------- the casts

  /** The number a run of digits denotes. */
  function Value(digits: string): int {
    if digits == [] then 0
    else
      var n := |digits| - 1;
      10 * Value(digits[..n]) + (digits[n] as int - '0' as int)
  }

  function Pow10(k: nat): (p: nat)
    ensures p > 0
  {
    if k == 0 then 1 else 10 * Pow10(k - 1)
  }

  const MAX_INT := 2147483647
  /** decimal(10,2) holds less than 10^8 euros. */
  const DECIMAL_LIMIT := 10_000_000_000

  function InInt(n: int): Option<int> { if n <= MAX_INT then Some(n) else None }
  function InDecimal(cents: int): Option<int> { if cents < DECIMAL_LIMIT then Some(cents) else None }

  /** The digits before and after the point. */
  function Whole(token: string): string { token[..DigitRun(token)] }
  function Fraction(token: string): string {
    var d := DigitRun(token);
    if d < |token| then token[d + 1..][..DigitRun(token[d + 1..])] else ""
  }

  /** cast("int"): drops the fraction, null on overflow. */
  function AsInt(token: string): Option<int> {
    if token == "" then None else InInt(Value(Whole(token)))
  }

  /** n / p in hundredths, rounded half up. */
  function HalfUp(n: int, p: nat): int
    requires p > 0
  {
    (200 * n + p) / (2 * p)
  }

  /** The number in cents: all its digits over the power of ten of its fraction. */
  function Cents(token: string): int {
    HalfUp(Value(Whole(token) + Fraction(token)), Pow10(|Fraction(token)|))
  }

  /** cast("decimal(10,2)") */
  function AsDecimal(token: string): Option<int> {
    if token == "" then None else InDecimal(Cents(token))
  }

  /** The cast picks the nearest cent, the upper one on a tie. */
  lemma HalfUpIsNearest(n: int, p: nat)
    requires p > 0
    ensures 200 * n < 2 * (HalfUp(n, p) * p) + p && 2 * (HalfUp(n, p) * p) <= 200 * n + p
  {
    var num, q := 200 * n + p, HalfUp(n, p);
    assert num == q * (2 * p) + num % (2 * p);
    assert q * (2 * p) == 2 * (q * p);
  }

  // ---------------------------------------------------------------- rows

  /** A landed row: the volatile columns are strings, whatever they were in the file. */
  datatype Landed = Landed(quantity: Option<string>, unitCostEur: Option<string>, unitCost: Option<string>)

  function CostRaw(l: Landed): Option<string> {
    if l.unitCostEur.Some? then l.unitCostEur else l.unitCost
  }

  function CleanCost(l: Landed): Option<int> {
    match CostRaw(l) case None => None case Some(text) => AsDecimal(Extract(text))
  }

  function CleanQuantity(l: Landed): Option<int> {
    match l.quantity case None => None case Some(text) => AsInt(Extract(text))
  }

  // ---------------------------------------------------------------- what the stages write

  function Digits(n: nat): string {
    if n < 10 then [('0' as int + n) as char] else Digits(n / 10) + Digits(n % 10)
  }

  function Abs(x: int): nat { if x < 0 then -x else x }
  function Sign(x: int): string { if x < 0 then "-" else "" }

  /** Two decimals, as `:.2f` writes them. */
  function Fixed(cents: nat): string {
    Digits(cents / 100) + "." + (Digits(cents / 10 % 10) + Digits(cents % 10))
  }

  /** A float as str writes it: at least one decimal, no trailing zero after that. */
  function Shortest(cents: nat): string {
    if cents % 10 == 0 then Digits(cents / 100) + "." + Digits(cents / 10 % 10) else Fixed(cents)
  }

  /** How a quantity may arrive: as an integer, with units, as a float column, or missing. */
  datatype Form = Plain | Units | Float | Blank

  function QuantityText(q: int, form: Form): Option<string> {
    match form
    case Plain => Some(Sign(q) + Digits(Abs(q)))
    case Units => Some(Sign(q) + Digits(Abs(q)) + " units")
    case Float => Some(Sign(q) + Digits(Abs(q)) + ".0")
    case Blank => None
  }

  function CostText(stage: nat, cents: int): string {
    if stage < 2 then Sign(cents) + Shortest(Abs(cents)) else "EUR " + Sign(cents) + Fixed(Abs(cents))
  }

  /** The row a file of schema stage `stage` lands; stage 3 renames the cost column. */
  function Write(stage: nat, q: int, form: Form, cents: int): Landed {
    var cost := Some(CostText(stage, cents));
    Landed(QuantityText(q, form), if stage == 3 then None else cost, if stage == 3 then cost else None)
  }

  lemma {:induction false} DigitsAreDigits(n: nat)
    ensures Digits(n) != [] && AllDigits(Digits(n)) && Value(Digits(n)) == n
  {
    if n >= 10 {
      DigitsAreDigits(n / 10);
      DigitsAreDigits(n % 10);
      assert Digits(n)[..|Digits(n)| - 1] == Digits(n / 10);
    }
  }

  lemma {:induction false} RunOf(digits: string, rest: string)
    requires AllDigits(digits) && (rest != [] ==> !IsDigit(rest[0]))
    ensures DigitRun(digits + rest) == |digits|
  {
    if digits == [] {
      assert digits + rest == rest;
    } else {
      RunOf(digits[1..], rest);
      assert (digits + rest)[1..] == digits[1..] + rest;
    }
  }

  lemma {:induction false} SkipsTo(before: string, s: string)
    requires NoDigit(before) && s != [] && IsDigit(s[0])
    ensures Extract(before + s) == Token(s)
  {
    if before == [] {
      assert before + s == s;
    } else {
      SkipsTo(before[1..], s);
      assert (before + s)[1..] == before[1..] + s;
    }
  }

  /** A whole number is extracted out of any text around it. */
  lemma ExtractWhole(before: string, digits: string, rest: string)
    requires NoDigit(before) && digits != [] && AllDigits(digits)
    requires rest != [] ==> !IsDigit(rest[0]) && rest[0] != '.'
    ensures Extract(before + digits + rest) == digits && Whole(digits) == digits && Fraction(digits) == ""
  {
    SkipsTo(before, digits + rest);
    RunOf(digits, rest);
    RunOf(digits, "");
    assert before + digits + rest == before + (digits + rest) && digits + "" == digits;
  }

  /** ... and so is a number with decimals. */
  lemma ExtractDecimal(before: string, whole: string, fraction: string)
    requires NoDigit(before) && whole != [] && AllDigits(whole) && AllDigits(fraction)
    ensures var token := whole + "." + fraction;
      Extract(before + token) == token && Whole(token) == whole && Fraction(token) == fraction
  {
    var rest := "." + fraction;
    SkipsTo(before, whole + rest);
    RunOf(whole, rest);
    RunOf(fraction, "");
    assert whole + "." + fraction == whole + rest && fraction + "" == fraction;
    assert (whole + rest)[|whole| + 1..] == fraction;
  }

  lemma ValueOfNext(digits: string, d: nat)
    requires AllDigits(digits) && d < 10
    ensures AllDigits(digits + Digits(d)) && Value(digits + Digits(d)) == 10 * Value(digits) + d
  {
    assert (digits + Digits(d))[..|digits|] == digits;
  }

  lemma HalfUpIsExact(n: int, k: nat)
    requires k in {1, 2}
    ensures HalfUp(n, Pow10(k)) == n * if k == 1 then 10 else 1
  {
    assert Pow10(1) == 10 * Pow10(0) == 10;
    if k == 1 {
      assert HalfUp(n, 10) == 10 * n;
    } else {
      assert Pow10(2) == 10 * Pow10(1) == 100;
      assert HalfUp(n, 100) == n;
    }
  }

  lemma CentsOfToken(token: string)
    requires token != "" && |Fraction(token)| in {1, 2}
    ensures AsDecimal(token) ==
      InDecimal(Value(Whole(token) + Fraction(token)) * if |Fraction(token)| == 1 then 10 else 1)
  {
    HalfUpIsExact(Value(Whole(token) + Fraction(token)), |Fraction(token)|);
  }

  lemma DecimalComesBack(before: string, whole: string, fraction: string)
    requires NoDigit(before) && whole != [] && AllDigits(whole) && AllDigits(fraction) && |fraction| in {1, 2}
    ensures AsDecimal(Extract(before + (whole + "." + fraction))) ==
      InDecimal(Value(whole + fraction) * if |fraction| == 1 then 10 else 1)
  {
    ExtractDecimal(before, whole, fraction);
    CentsOfToken(whole + "." + fraction);
  }

  /** A number with any decimals at all: as a cost it is rounded to the nearest cent, ties up, and as
      a quantity it loses its fraction. */
  lemma AnyDecimalIsRead(before: string, whole: string, fraction: string) returns (cents: int)
    requires NoDigit(before) && whole != [] && AllDigits(whole) && AllDigits(fraction)
    ensures AsDecimal(Extract(before + (whole + "." + fraction))) == InDecimal(cents)
    ensures var n, p := Value(whole + fraction), Pow10(|fraction|);
      200 * n < 2 * (cents * p) + p && 2 * (cents * p) <= 200 * n + p
    ensures AsInt(Extract(before + (whole + "." + fraction))) == InInt(Value(whole))
  {
    ExtractDecimal(before, whole, fraction);
    cents := HalfUp(Value(whole + fraction), Pow10(|fraction|));
    HalfUpIsNearest(Value(whole + fraction), Pow10(|fraction|));
  }

  /** ... and a whole number is that many euros. */
  lemma WholeCostIsRead(before: string, digits: string, rest: string)
    requires NoDigit(before) && digits != [] && AllDigits(digits)
    requires rest != [] ==> !IsDigit(rest[0]) && rest[0] != '.'
    ensures AsDecimal(Extract(before + digits + rest)) == InDecimal(100 * Value(digits))
    ensures AsInt(Extract(before + digits + rest)) == InInt(Value(digits))
  {
    ExtractWhole(before, digits, rest);
    CentsOfWhole(digits);
  }

  lemma CentsOfWhole(token: string)
    requires token != "" && Whole(token) == token && Fraction(token) == ""
    ensures AsDecimal(token) == InDecimal(100 * Value(token))
  {
    assert token + "" == token;
    var n := Value(token);
    assert HalfUp(n, 1) == (200 * n + 1) / 2 == 100 * n;
  }

  lemma TwoDigits(whole: string, d: nat, e: nat)
    requires AllDigits(whole) && d < 10 && e < 10
    ensures AllDigits(whole + (Digits(d) + Digits(e))) && |Digits(d) + Digits(e)| == 2
    ensures Value(whole + (Digits(d) + Digits(e))) == 100 * Value(whole) + 10 * d + e
  {
    ValueOfNext(whole, d);
    ValueOfNext(whole + Digits(d), e);
    assert whole + (Digits(d) + Digits(e)) == whole + Digits(d) + Digits(e);
  }

  lemma FixedForm(cents: nat) returns (whole: string, fraction: string)
    ensures Fixed(cents) == whole + "." + fraction && whole != [] && AllDigits(whole) && AllDigits(fraction)
    ensures |fraction| == 2 && Value(whole + fraction) == cents
  {
    var w, d, e := cents / 100, cents / 10 % 10, cents % 10;
    whole, fraction := Digits(w), Digits(d) + Digits(e);
    DigitsAreDigits(w);
    TwoDigits(whole, d, e);
    ValueOfNext(Digits(d), e);
    assert cents == 100 * w + 10 * d + e;
  }

  lemma ShortForm(cents: nat) returns (whole: string, fraction: string)
    requires cents % 10 == 0
    ensures Shortest(cents) == whole + "." + fraction && whole != [] && AllDigits(whole) && AllDigits(fraction)
    ensures |fraction| == 1 && 10 * Value(whole + fraction) == cents
  {
    var w, d := cents / 100, cents / 10 % 10;
    assert cents == 100 * w + 10 * d;
    DigitsAreDigits(w);
    ValueOfNext(Digits(w), d);
    DigitsAreDigits(d);
    whole, fraction := Digits(w), Digits(d);
  }

  /** Both renderings of a cost extract to the cents they came from. */
  lemma FixedComesBack(before: string, cents: nat)
    requires NoDigit(before)
    ensures AsDecimal(Extract(before + Fixed(cents))) == InDecimal(cents)
  {
    var whole, fraction := FixedForm(cents);
    DecimalComesBack(before, whole, fraction);
  }

  lemma ShortestComesBack(before: string, cents: nat)
    requires NoDigit(before)
    ensures AsDecimal(Extract(before + Shortest(cents))) == InDecimal(cents)
  {
    if cents % 10 == 0 {
      var whole, fraction := ShortForm(cents);
      DecimalComesBack(before, whole, fraction);
    } else {
      FixedComesBack(before, cents);
    }
  }

  lemma QuantityComesBack(before: string, q: nat, rest: string)
    requires NoDigit(before) && rest in {"", " units", ".0"}
    ensures AsInt(Extract(before + Digits(q) + rest)) == InInt(q)
  {
    DigitsAreDigits(q);
    if rest == ".0" {
      ExtractDecimal(before, Digits(q), "0");
      assert before + Digits(q) + rest == before + (Digits(q) + "." + "0");
    } else {
      ExtractWhole(before, Digits(q), rest);
    }
  }

  lemma CostReadsBack(stage: nat, cents: int)
    ensures AsDecimal(Extract(CostText(stage, cents))) == InDecimal(Abs(cents))
  {
    if stage < 2 {
      ShortestComesBack(Sign(cents), Abs(cents));
    } else {
      FixedComesBack("EUR " + Sign(cents), Abs(cents));
    }
  }

  lemma QuantityReadsBack(q: int, form: Form)
    ensures CleanQuantity(Landed(QuantityText(q, form), None, None)) == if form.Blank? then None else InInt(Abs(q))
  {
    QuantityComesBack(Sign(q), Abs(q), match form case Units => " units" case Float => ".0" case _ => "");
    assert Sign(q) + Digits(Abs(q)) + "" == Sign(q) + Digits(Abs(q));
  }

  /** Every stage's text reads back to the magnitude it was written from, or to null when the
      type cannot hold it; a blank stays null. */
  lemma EveryStageComesBack(stage: nat, q: int, form: Form, cents: int)
    ensures CleanCost(Write(stage, q, form, cents)) == InDecimal(Abs(cents))
    ensures CleanQuantity(Write(stage, q, form, cents)) == if form.Blank? then None else InInt(Abs(q))
  {
    CostReadsBack(stage, cents);
    QuantityReadsBack(q, form);
  }

  /** A row holding both cost columns is read from unit_cost_eur. */
  lemma OldColumnWins(stage: nat, cents: int, quantity: Option<string>, other: Option<string>)
    ensures CleanCost(Landed(quantity, Some(CostText(stage, cents)), other)) == InDecimal(Abs(cents))
    ensures CleanCost(Landed(quantity, None, Some(CostText(stage, cents)))) == InDecimal(Abs(cents))
  {
    CostReadsBack(stage, cents);
  }

  /** The exact range of the round trip: the pattern drops signs and the casts have limits. */
  lemma RoundTripExactlyInRange(stage: nat, q: int, form: Form, cents: int)
    ensures CleanCost(Write(stage, q, form, cents)) == Some(cents) <==> 0 <= cents < DECIMAL_LIMIT
    ensures CleanQuantity(Write(stage, q, form, cents)) == Some(q) <==> !form.Blank? && 0 <= q <= MAX_INT
  {
    EveryStageComesBack(stage, q, form, cents);
  }

  // ---------------------------------------------------------------- the gate's parse check

  function Count<T>(rows: seq<T>, p: T -> bool): nat {
    if rows == [] then 0 else Count(rows[..|rows| - 1], p) + if p(rows[|rows| - 1]) then 1 else 0
  }

  /** What the gate counts: a text without a number in it. */
  predicate CostUnparseable(l: Landed) { CostRaw(l).Some? && Extract(CostRaw(l).value) == "" }
  predicate QuantityUnparseable(l: Landed) { l.quantity.Some? && Extract(l.quantity.value) == "" }

  /** What the silver job counts: a text that became null. */
  predicate CostLost(l: Landed) { CostRaw(l).Some? && CleanCost(l).None? }
  predicate QuantityLost(l: Landed) { l.quantity.Some? && CleanQuantity(l).None? }

  /** A number too large for its type. */
  predicate CostOverflows(l: Landed) {
    CostRaw(l).Some? && Extract(CostRaw(l).value) != "" && Cents(Extract(CostRaw(l).value)) >= DECIMAL_LIMIT
  }
  predicate QuantityOverflows(l: Landed) {
    l.quantity.Some? && Extract(l.quantity.value) != "" && Value(Whole(Extract(l.quantity.value))) > MAX_INT
  }

  lemma {:induction false} CountSplits<T>(rows: seq<T>, all: T -> bool, one: T -> bool, other: T -> bool)
    requires forall r :: r in rows ==> (all(r) <==> one(r) || other(r)) && !(one(r) && other(r))
    ensures Count(rows, all) == Count(rows, one) + Count(rows, other)
  {
    if rows != [] {
      var n := |rows| - 1;
      CountSplits(rows[..n], all, one, other);
      assert rows[n] in rows;
    }
  }

  /** Silver loses exactly what the gate counts, plus the overflows the gate does not see. */
  lemma LostIsUnparseableOrOverflow(bronze: seq<Landed>)
    ensures Count(bronze, CostLost) == Count(bronze, CostUnparseable) + Count(bronze, CostOverflows)
    ensures Count(bronze, QuantityLost) == Count(bronze, QuantityUnparseable) + Count(bronze, QuantityOverflows)
  {
    CountSplits(bronze, CostLost, CostUnparseable, CostOverflows);
    CountSplits(bronze, QuantityLost, QuantityUnparseable, QuantityOverflows);
  }

  lemma {:induction false} CountIsZero<T>(rows: seq<T>, p: T -> bool)
    ensures Count(rows, p) == 0 <==> forall r :: r in rows ==> !p(r)
  {
    if rows != [] {
      var n := |rows| - 1;
      CountIsZero(rows[..n], p);
      assert rows == rows[..n] + [rows[n]];
    }
  }

  /** check_pos_inventory_parse_quality */
  predicate ParseCheck(bronze: seq<Landed>) {
    Count(bronze, CostUnparseable) + Count(bronze, QuantityUnparseable) == 0
  }

  /** The check passes exactly when every text that is present has a digit in it. */
  lemma ParseCheckIsExact(bronze: seq<Landed>)
    ensures ParseCheck(bronze) <==> forall l :: l in bronze ==>
      (CostRaw(l).Some? ==> !NoDigit(CostRaw(l).value)) && (l.quantity.Some? ==> !NoDigit(l.quantity.value))
  {
    CountIsZero(bronze, CostUnparseable);
    CountIsZero(bronze, QuantityUnparseable);
    forall l | l in bronze
      ensures CostUnparseable(l) <==> CostRaw(l).Some? && NoDigit(CostRaw(l).value)
      ensures QuantityUnparseable(l) <==> l.quantity.Some? && NoDigit(l.quantity.value)
    {
      if CostRaw(l).Some? { ExtractIsFirstMatch(CostRaw(l).value); }
      if l.quantity.Some? { ExtractIsFirstMatch(l.quantity.value); }
    }
  }
}
