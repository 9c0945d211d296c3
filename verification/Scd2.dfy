/** The versioned products table: one bronze snapshot against the current rows, staged as
    close-tagged and insert-tagged rows, applied in a single MERGE. */
module Scd2 {
  import opened Tables

  type Day = int

  /** A value of a tracked column. */
  datatype Cell = Null | Num(cents: int) | Flag(on: bool)

  const TRACKED_COLUMNS := ["unit_cost_eur", "unit_price_eur", "is_active"]
  const UNIT_COST := 0

  /** The tracked columns of one row, in the order of TRACKED_COLUMNS. */
  type Tracked = t: seq<Cell> | |t| == 3 witness [Null, Null, Null]

  /** `descr` stands for the five untracked columns. */
  datatype Product = Product(id: int, descr: string, tracked: Tracked, createdOn: Day)

  datatype BronzeRow = BronzeRow(product: Product, snapshotDate: Day, ingestedAt: int)

  /** A row of silver.products; `to` is exclusive and null while the version is open. */
  datatype Version = Version(
    id: int, descr: string, tracked: Tracked, from: Day, to: Option<Day>, current: bool, processedAt: int)

  function ProductId(p: Product): int { p.id }
  function BronzeId(r: BronzeRow): int { r.product.id }
  function IngestedAt(r: BronzeRow): int { r.ingestedAt }

  function Open(p: Product, from: Day, now: int): Version {
    Version(p.id, p.descr, p.tracked, from, None, true, now)
  }

  // ---------------------------------------------------------------- the incoming snapshot

  function LatestDate(bronze: seq<BronzeRow>): Day
    requires bronze != []
  {
    if |bronze| == 1 then bronze[0].snapshotDate
    else
      var n := |bronze| - 1;
      var d := LatestDate(bronze[..n]);
      if bronze[n].snapshotDate > d then bronze[n].snapshotDate else d
  }

  function OnDate(bronze: seq<BronzeRow>, d: Day): seq<BronzeRow> {
    if bronze == [] then []
    else
      var n := |bronze| - 1;
      OnDate(bronze[..n], d) + if bronze[n].snapshotDate == d then [bronze[n]] else []
  }

  function Products(rows: seq<BronzeRow>): (ps: seq<Product>)
    ensures |ps| == |rows| && forall i :: 0 <= i < |ps| ==> ps[i] == rows[i].product
  {
    seq(|rows|, i requires 0 <= i < |rows| => rows[i].product)
  }

  // ---------------------------------------------------------------- the diff

  /** SQL's three truth values. */
  datatype Truth = Yes | No | Unknown

  function NotEqual(a: Cell, b: Cell): Truth {
    if a.Null? || b.Null? then Unknown else if a == b then No else Yes
  }

  function Or(a: Truth, b: Truth): Truth {
    if a.Yes? || b.Yes? then Yes else if a.Unknown? || b.Unknown? then Unknown else No
  }

  predicate Detectable(s: Tracked, c: Tracked, i: nat)
    requires i < 3
  {
    !s[i].Null? && !c[i].Null? && s[i] != c[i]
  }

  /** Some tracked column holds two different non-null values. */
  predicate Differs(s: Tracked, c: Tracked) {
    exists i :: 0 <= i < 3 && Detectable(s, c, i)
  }

  predicate SameOrNull(a: Cell, b: Cell) { a == b || a.Null? || b.Null? }

  /** Every column is the same, or null on one side. */
  predicate Unseen(s: Tracked, c: Tracked) {
    SameOrNull(s[0], c[0]) && SameOrNull(s[1], c[1]) && SameOrNull(s[2], c[2])
  }

  lemma DiffersUnlessUnseen(s: Tracked, c: Tracked)
    ensures Differs(s, c) <==> !Unseen(s, c)
  {
    assert forall i :: 0 <= i < 3 ==> (Detectable(s, c, i) <==> !SameOrNull(s[i], c[i]));
  }

  /** The loop that folds the disjunction over the tracked columns; a row passes `where` only
      when the fold is Yes. */
  method DiffCondition(s: Tracked, c: Tracked) returns (diff: Truth)
    ensures diff.Yes? <==> Differs(s, c)
    ensures diff.No? <==> s == c && forall i :: 0 <= i < 3 ==> !s[i].Null?
    // a null on either side is never a difference
    ensures diff.Yes? <==> !Unseen(s, c)
  {
    DiffersUnlessUnseen(s, c);
    diff := No;
    for i := 0 to |TRACKED_COLUMNS|
      invariant diff.Yes? <==> exists j :: 0 <= j < i && Detectable(s, c, j)
      invariant diff.No? <==> forall j :: 0 <= j < i ==> s[j] == c[j] && !s[j].Null?
    {
      assert Detectable(s, c, i) <==> NotEqual(s[i], c[i]).Yes?;
      diff := Or(diff, NotEqual(s[i], c[i]));
    }
  }

  /** incoming JOIN current ON product_id WHERE diff, for one incoming product. */
  function JoinDiff(s: Product, rows: seq<Version>): seq<Product> {
    if rows == [] then []
    else
      var t := rows[|rows| - 1];
      JoinDiff(s, rows[..|rows| - 1]) +
      if t.current && t.id == s.id && Differs(s.tracked, t.tracked) then [s] else []
  }

  function Changed(incoming: seq<Product>, rows: seq<Version>): seq<Product> {
    if incoming == [] then []
    else
      var n := |incoming| - 1;
      Changed(incoming[..n], rows) + JoinDiff(incoming[n], rows)
  }

  predicate HasCurrent(rows: seq<Version>, p: int) {
    exists i :: 0 <= i < |rows| && rows[i].current && rows[i].id == p
  }

  /** incoming LEFT ANTI JOIN current. */
  function New(incoming: seq<Product>, rows: seq<Version>): seq<Product> {
    if incoming == [] then []
    else
      var n := |incoming| - 1;
      New(incoming[..n], rows) + if HasCurrent(rows, incoming[n].id) then [] else [incoming[n]]
  }

  // ---------------------------------------------------------------- the MERGE

  /** A staged row. Insert-tagged rows have a null merge key and carry validity columns;
      close-tagged rows have the product id as key and null validity columns. */
  datatype Staged = Staged(mergeKey: Option<int>, product: Product, inserts: bool)

  function Stage(ps: seq<Product>, inserts: bool): (staged: seq<Staged>)
    ensures |staged| == |ps|
    ensures forall i :: 0 <= i < |ps| ==>
      staged[i] == Staged(if inserts then None else Some(ps[i].id), ps[i], inserts)
  {
    seq(|ps|, i requires 0 <= i < |ps| => Staged(if inserts then None else Some(ps[i].id), ps[i], inserts))
  }

  predicate Matches(t: Version, s: Staged) {
    s.mergeKey == Some(t.id) && t.current
  }

  predicate MatchedTarget(t: Version, staged: seq<Staged>) {
    exists i :: 0 <= i < |staged| && Matches(t, staged[i])
  }

  predicate MatchedSource(s: Staged, rows: seq<Version>) {
    exists i :: 0 <= i < |rows| && Matches(rows[i], s)
  }

  /** Delta refuses a MERGE in which two source rows match one target row. */
  predicate Ambiguous(rows: seq<Version>, staged: seq<Staged>) {
    exists k, i, j ::
      0 <= k < |rows| && 0 <= i < j < |staged| && Matches(rows[k], staged[i]) && Matches(rows[k], staged[j])
  }

  function Updated(t: Version, staged: seq<Staged>, asOf: Day): Version {
    if MatchedTarget(t, staged) then t.(current := false, to := Some(asOf)) else t
  }

  function UpdateMatched(rows: seq<Version>, staged: seq<Staged>, asOf: Day): (after: seq<Version>)
    ensures |after| == |rows|
    ensures forall i :: 0 <= i < |rows| ==> after[i] == Updated(rows[i], staged, asOf)
  {
    seq(|rows|, i requires 0 <= i < |rows| => Updated(rows[i], staged, asOf))
  }

  function InsertUnmatched(staged: seq<Staged>, rows: seq<Version>, asOf: Day, now: int): seq<Version> {
    if staged == [] then []
    else
      var n := |staged| - 1;
      InsertUnmatched(staged[..n], rows, asOf, now) +
      if MatchedSource(staged[n], rows) then [] else [Open(staged[n].product, asOf, now)]
  }

  /** A close-tagged row that matches nothing would be inserted without validity columns. */
  predicate StrayClose(rows: seq<Version>, staged: seq<Staged>) {
    exists i :: 0 <= i < |staged| && !staged[i].inserts && !MatchedSource(staged[i], rows)
  }

  datatype MergeOutcome = Merged(rows: seq<Version>) | AmbiguousMatch | HalfRow

  function Merge(rows: seq<Version>, staged: seq<Staged>, asOf: Day, now: int): MergeOutcome {
    if Ambiguous(rows, staged) then AmbiguousMatch
    else if StrayClose(rows, staged) then HalfRow
    else Merged(UpdateMatched(rows, staged, asOf) + InsertUnmatched(staged, rows, asOf, now))
  }

  function StagedRows(rows: seq<Version>, incoming: seq<Product>): seq<Staged> {
    var changed := Changed(incoming, rows);
    Stage(changed + New(incoming, rows), true) + Stage(changed, false)
  }

  function MergeSnapshot(rows: seq<Version>, incoming: seq<Product>, asOf: Day, now: int): MergeOutcome {
    Merge(rows, StagedRows(rows, incoming), asOf, now)
  }

  /** New versions for `ps`, valid from `asOf`, or each from its own creation day when no
      as-of date is given. */
  function OpenAll(ps: seq<Product>, asOf: Option<Day>, now: int): (rows: seq<Version>)
    ensures |rows| == |ps|
    ensures forall i :: 0 <= i < |ps| ==>
      rows[i] == Open(ps[i], if asOf.Some? then asOf.value else ps[i].createdOn, now)
  {
    seq(|ps|, i requires 0 <= i < |ps| => Open(ps[i], if asOf.Some? then asOf.value else ps[i].createdOn, now))
  }

  /** The first run backdates every version to the product's creation day. */
  function InitialLoad(incoming: seq<Product>, now: int): seq<Version> {
    OpenAll(incoming, None, now)
  }

  // ---------------------------------------------------------------- one product at a time

  /** The versions of one product, oldest first: rows are only ever appended. */
  function History(rows: seq<Version>, p: int): seq<Version> {
    if rows == [] then []
    else
      var n := |rows| - 1;
      History(rows[..n], p) + if rows[n].id == p then [rows[n]] else []
  }

  /** What one run does to one product's history, given its row in the snapshot, if any. */
  function Step(h: seq<Version>, incoming: Option<Product>, asOf: Day, now: int): seq<Version> {
    match incoming
    case None => h
    case Some(q) =>
      if h == [] then [Open(q, asOf, now)]
      else
        var n := |h| - 1;
        if Differs(q.tracked, h[n].tracked) then
          h[..n] + [h[n].(current := false, to := Some(asOf))] + [Open(q, asOf, now)]
        else h
  }

  /** Gap-free with exactly one open end: every version but the last is closed where the next
      one starts, and only the last is open and current. */
  ghost predicate Chain(h: seq<Version>, p: int) {
    && (forall i :: 0 <= i < |h| ==> h[i].id == p && (h[i].current <==> i == |h| - 1))
    && (forall i :: 0 <= i < |h| - 1 ==> h[i].to == Some(h[i + 1].from))
    && (h != [] ==> h[|h| - 1].to == None)
  }

  ghost predicate Chained(rows: seq<Version>) {
    forall p :: Chain(History(rows, p), p)
  }

  lemma {:induction false} HistoryOfConcat(a: seq<Version>, b: seq<Version>, p: int)
    ensures History(a + b, p) == History(a, p) + History(b, p)
  {
    if b == [] {
      assert a + b == a;
    } else {
      var n := |b| - 1;
      HistoryOfConcat(a, b[..n], p);
      assert (a + b)[..|a| + n] == a + b[..n];
    }
  }

  lemma {:induction false} HistoryMembers(rows: seq<Version>, p: int, v: Version)
    ensures v in History(rows, p) <==> v in rows && v.id == p
  {
    if rows != [] {
      HistoryMembers(rows[..|rows| - 1], p, v);
      assert rows == rows[..|rows| - 1] + [rows[|rows| - 1]];
    }
  }

  lemma HasCurrentInChain(rows: seq<Version>, p: int)
    requires Chain(History(rows, p), p)
    ensures HasCurrent(rows, p) <==> History(rows, p) != []
  {
    var h := History(rows, p);
    if HasCurrent(rows, p) {
      var i :| 0 <= i < |rows| && rows[i].current && rows[i].id == p;
      HistoryMembers(rows, p, rows[i]);
    }
    if h != [] {
      HistoryMembers(rows, p, h[|h| - 1]);
    }
  }

  lemma {:induction false} JoinDiffOfConcat(s: Product, a: seq<Version>, b: seq<Version>)
    ensures JoinDiff(s, a + b) == JoinDiff(s, a) + JoinDiff(s, b)
  {
    if b == [] {
      assert a + b == a;
    } else {
      var n := |b| - 1;
      JoinDiffOfConcat(s, a, b[..n]);
      assert (a + b)[..|a| + n] == a + b[..n];
    }
  }

  lemma {:induction false} JoinDiffSeesHistory(s: Product, rows: seq<Version>)
    ensures JoinDiff(s, rows) == JoinDiff(s, History(rows, s.id))
  {
    if rows != [] {
      var n := |rows| - 1;
      JoinDiffSeesHistory(s, rows[..n]);
      JoinDiffOfConcat(s, History(rows[..n], s.id), if rows[n].id == s.id then [rows[n]] else []);
    }
  }

  lemma {:induction false} JoinDiffOfClosed(s: Product, rows: seq<Version>)
    requires forall v :: v in rows ==> !v.current
    ensures JoinDiff(s, rows) == []
  {
    if rows != [] {
      JoinDiffOfClosed(s, rows[..|rows| - 1]);
    }
  }

  ghost predicate IsChanged(q: Product, h: seq<Version>) {
    h != [] && Differs(q.tracked, h[|h| - 1].tracked)
  }

  lemma JoinDiffInChain(s: Product, rows: seq<Version>)
    requires Chain(History(rows, s.id), s.id)
    ensures JoinDiff(s, rows) == if IsChanged(s, History(rows, s.id)) then [s] else []
  {
    var h := History(rows, s.id);
    JoinDiffSeesHistory(s, rows);
    if h != [] {
      JoinDiffOfClosed(s, h[..|h| - 1]);
    }
  }
}
