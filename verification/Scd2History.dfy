/** Runs of the product history job over a growing bronze table, and what the resulting
    versions say about the snapshots they were built from. */
module Scd2History {
  import opened Tables
  import opened Scd2
  import opened Scd2Merge

  /** One run, as the log remembers it. The first load of a log created the table. */
  datatype Load = Load(asOf: Day, incoming: seq<Product>, now: int)

  ghost function RowIn(l: Load, p: int): Option<Product> {
    Find(l.incoming, ProductId, p)
  }

  /** The history of one product after the runs of `log`. */
  ghost function Replay(log: seq<Load>, p: int): seq<Version> {
    if log == [] then []
    else
      var n := |log| - 1;
      var row := RowIn(log[n], p);
      if n > 0 then Step(Replay(log[..n], p), row, log[n].asOf, log[n].now)
      else if row.Some? then [Open(row.value, row.value.createdOn, log[0].now)]
      else []
  }

  /** As-of dates never go back. */
  ghost predicate Forward(log: seq<Load>) {
    forall i, j :: 0 <= i < j < |log| ==> log[i].asOf <= log[j].asOf
  }

  /** If the first load held `p`, `p` was created by its as-of date. */
  ghost predicate Backdated(log: seq<Load>, p: int) {
    log != [] && RowIn(log[0], p).Some? ==> RowIn(log[0], p).value.createdOn <= log[0].asOf
  }

  predicate Covers(v: Version, d: Day) {
    v.from <= d && (v.to.Some? ==> d < v.to.value)
  }

  ghost predicate Carries(v: Version, q: Product) {
    v.id == q.id && v.descr == q.descr && v.tracked == q.tracked
  }

  // ---------------------------------------------------------------- the chain invariant

  /** The snapshot row whose version is open after the runs of `log`. */
  ghost function Carry(log: seq<Load>, p: int): Option<Product> {
    if log == [] then None
    else
      var n := |log| - 1;
      var row, before := RowIn(log[n], p), Carry(log[..n], p);
      if row.Some? && (before.None? || Differs(row.value.tracked, before.value.tracked)) then row else before
  }

  lemma {:induction false} ReplayIsChain(log: seq<Load>, p: int)
    ensures Chain(Replay(log, p), p)
    ensures var h, c := Replay(log, p), Carry(log, p);
      (h == [] <==> c.None?) && (h != [] ==> Carries(h[|h| - 1], c.value))
  {
    if log != [] {
      var n := |log| - 1;
      ReplayIsChain(log[..n], p);
      StepKeepsChain(Replay(log[..n], p), RowIn(log[n], p), log[n].asOf, log[n].now, p);
    }
  }

  ghost predicate SortedFrom(h: seq<Version>, first: nat) {
    forall i :: first <= i < |h| - 1 ==> h[i].from <= h[i + 1].from
  }

  /** Versions opened by later runs start in order, no later than the last run; with a backdated
      first load, so does the first. */
  lemma {:induction false} ReplayIsSorted(log: seq<Load>, p: int)
    requires Forward(log)
    ensures var h := Replay(log, p);
      && SortedFrom(h, 1) && (Backdated(log, p) ==> SortedFrom(h, 0))
      && (forall i :: 1 <= i < |h| ==> h[i].from <= log[|log| - 1].asOf)
      && (h != [] && Backdated(log, p) ==> h[0].from <= log[|log| - 1].asOf)
  {
    if log != [] {
      var n := |log| - 1;
      if n > 0 {
        ReplayIsSorted(log[..n], p);
        assert log[n - 1].asOf <= log[n].asOf;
      }
    }
  }

  lemma {:induction false} InOrder(h: seq<Version>, first: nat, i: nat, j: nat)
    requires SortedFrom(h, first) && first <= i <= j < |h|
    ensures h[i].from <= h[j].from
  {
    if i < j {
      InOrder(h, first, i, j - 1);
    }
  }

  /** No day is covered by two versions, empty same-day versions included. */
  lemma IntervalsAreDisjoint(h: seq<Version>, p: int, d: Day, i: nat, j: nat)
    requires Chain(h, p) && SortedFrom(h, 1) && i <= j < |h| && Covers(h[i], d) && Covers(h[j], d)
    ensures i == j
  {
    if i < j {
      InOrder(h, 1, i + 1, j);
    }
  }

  /** Every day from the first version's start on is covered. */
  lemma {:induction false} NoGaps(h: seq<Version>, p: int, d: Day, last: nat) returns (i: nat)
    requires Chain(h, p) && last < |h| && h[0].from <= d
    requires h[last].to.Some? ==> d < h[last].to.value
    ensures i < |h| && Covers(h[i], d)
  {
    if h[last].from <= d {
      i := last;
    } else {
      assert h[last - 1].to == Some(h[last].from);
      i := NoGaps(h, p, d, last - 1);
    }
  }

  // ---------------------------------------------------------------- point in time

  /** The snapshot row valid for `p` on day `d`, computed from the log alone. */
  ghost function ValidOn(log: seq<Load>, p: int, d: Day): Option<Product> {
    if log == [] then None
    else
      var n := |log| - 1;
      if n == 0 then
        var row := RowIn(log[0], p);
        if row.Some? && row.value.createdOn <= d then row else None
      else if log[n].asOf > d then ValidOn(log[..n], p, d)
      else Carry(log, p)
  }

  lemma {:induction false} LateDaysAreCarried(log: seq<Load>, p: int, d: Day)
    requires Forward(log) && Backdated(log, p) && log != [] && log[|log| - 1].asOf <= d
    ensures ValidOn(log, p, d) == Carry(log, p)
  {
    assert Carry([], p) == None;
  }

  lemma ClosedByNext(h: seq<Version>, p: int, asOf: Day, i: nat)
    requires Chain(h, p) && i < |h| - 1
    requires forall j :: 0 <= j < |h| ==> h[j].from <= asOf
    ensures h[i].to.Some? && h[i].to.value <= asOf
  {
    assert h[i].to == Some(h[i + 1].from);
  }

  lemma LateDaysAreOpen(h: seq<Version>, p: int, asOf: Day, d: Day, i: nat)
    requires Chain(h, p) && asOf <= d && i < |h| && Covers(h[i], d)
    requires forall j :: 0 <= j < |h| ==> h[j].from <= asOf
    ensures i == |h| - 1
  {
    if i < |h| - 1 {
      ClosedByNext(h, p, asOf, i);
    }
  }

  ghost predicate SameAttributes(u: Version, v: Version) {
    u.id == v.id && u.descr == v.descr && u.tracked == v.tracked
  }

  /** A run at `asOf` leaves earlier days to the version that had them, and gives the days from
      `asOf` on to the open version. */
  lemma StepCovers(h: seq<Version>, p: int, row: Option<Product>, asOf: Day, now: int, d: Day, v: Version)
    requires Chain(h, p) && (row.Some? ==> row.value.id == p)
    requires forall i :: 0 <= i < |h| ==> h[i].from <= asOf
    requires v in Step(h, row, asOf, now) && Covers(v, d)
    ensures d < asOf ==> exists u :: u in h && Covers(u, d) && SameAttributes(u, v)
    ensures d >= asOf ==> v == Step(h, row, asOf, now)[|Step(h, row, asOf, now)| - 1]
  {
    var h' := Step(h, row, asOf, now);
    var i :| 0 <= i < |h'| && h'[i] == v;
    if d < asOf {
      assert i < |h|;
      assert h[i] in h && Covers(h[i], d) && SameAttributes(h[i], v);
    } else {
      StepKeepsChain(h, row, asOf, now, p);
      LateDaysAreOpen(h', p, asOf, d, i);
    }
  }

  /** Refinement: a version covering a day carries the row the log prescribes for that day. */
  lemma {:induction false} CoveringVersionIsValid(log: seq<Load>, p: int, d: Day, v: Version)
    requires Forward(log) && Backdated(log, p)
    requires v in Replay(log, p) && Covers(v, d)
    ensures ValidOn(log, p, d).Some? && Carries(v, ValidOn(log, p, d).value)
  {
    var n := |log| - 1;
    if n > 0 {
      var h := Replay(log[..n], p);
      ReplayIsChain(log[..n], p);
      ReplayIsSorted(log[..n], p);
      assert log[n - 1].asOf <= log[n].asOf;
      StepCovers(h, p, RowIn(log[n], p), log[n].asOf, log[n].now, d, v);
      if d < log[n].asOf {
        var u :| u in h && Covers(u, d) && SameAttributes(u, v);
        CoveringVersionIsValid(log[..n], p, d, u);
      } else {
        ReplayIsChain(log, p);
      }
    }
  }

  lemma {:induction false} FirstVersionStart(log: seq<Load>, p: int, d: Day)
    requires Forward(log) && Backdated(log, p) && ValidOn(log, p, d).Some?
    ensures Replay(log, p) != [] && Replay(log, p)[0].from <= d
  {
    var n := |log| - 1;
    if n > 0 {
      var h := Replay(log[..n], p);
      if log[n].asOf > d {
        FirstVersionStart(log[..n], p, d);
      } else {
        ReplayIsChain(log, p);
        ReplayIsSorted(log, p);
      }
    }
  }

  /** ... and there is such a version exactly when the log prescribes one. */
  lemma CoveredExactlyIfValid(log: seq<Load>, p: int, d: Day)
    requires Forward(log) && Backdated(log, p)
    ensures ValidOn(log, p, d).Some? <==> exists v :: v in Replay(log, p) && Covers(v, d)
  {
    if ValidOn(log, p, d).Some? {
      FirstVersionStart(log, p, d);
      ReplayIsChain(log, p);
      var i := NoGaps(Replay(log, p), p, d, |Replay(log, p)| - 1);
      assert Replay(log, p)[i] in Replay(log, p);
    }
    if v :| v in Replay(log, p) && Covers(v, d) {
      CoveringVersionIsValid(log, p, d, v);
    }
  }

  // ---------------------------------------------------------------- against the last snapshot

  /** The row of the last run that contained `p`. */
  ghost function LastIn(log: seq<Load>, p: int): Option<Product> {
    if log == [] then None
    else
      var n := |log| - 1;
      if RowIn(log[n], p).Some? then RowIn(log[n], p) else LastIn(log[..n], p)
  }

  /** Whenever two successive rows of `p` differ in a tracked column, they differ in one that is
      null in neither: `!=` on a null is never true. */
  ghost predicate NoHiddenChange(log: seq<Load>, p: int) {
    log != [] ==>
      var n := |log| - 1;
      NoHiddenChange(log[..n], p) && Visible(LastIn(log[..n], p), RowIn(log[n], p))
  }

  ghost predicate Visible(before: Option<Product>, row: Option<Product>) {
    before.Some? && row.Some? ==>
      before.value.tracked == row.value.tracked || Differs(row.value.tracked, before.value.tracked)
  }

  ghost predicate SameTracked(a: Option<Product>, b: Option<Product>) {
    match (a, b)
    case (Some(x), Some(y)) => x.tracked == y.tracked
    case (None, None) => true
    case _ => false
  }

  /** After every run so far, the open version showed the last snapshot's tracked columns. */
  ghost predicate AlwaysShown(log: seq<Load>, p: int) {
    SameTracked(Carry(log, p), LastIn(log, p)) && (log != [] ==> AlwaysShown(log[..|log| - 1], p))
  }

  /** ... which is so exactly when no change is hidden behind a null. */
  lemma {:induction false} OpenVersionIsLastSnapshot(log: seq<Load>, p: int)
    ensures NoHiddenChange(log, p) <==> AlwaysShown(log, p)
  {
    if log != [] {
      OpenVersionIsLastSnapshot(log[..|log| - 1], p);
    }
  }

  /** Run `k` decides day `d`: it holds `p`, reaches `d`, and no later run that reaches `d` holds
      `p`. The first run reaches back to the creation day. */
  ghost predicate Governs(log: seq<Load>, p: int, d: Day, k: nat) {
    && k < |log| && RowIn(log[k], p).Some?
    && (if k == 0 then RowIn(log[0], p).value.createdOn <= d else log[k].asOf <= d)
    && forall j :: k < j < |log| && log[j].asOf <= d ==> RowIn(log[j], p).None?
  }

  lemma GovernsPrefix(log: seq<Load>, p: int, d: Day, k: nat)
    requires |log| > 1
    requires log[|log| - 1].asOf > d || RowIn(log[|log| - 1], p).None?
    ensures Governs(log, p, d, k) <==> Governs(log[..|log| - 1], p, d, k)
    ensures Governs(log, p, d, k) ==> log[..|log| - 1][k] == log[k]
  {
    var n := |log| - 1;
    if k < n {
      assert log[..n][k] == log[k];
      assert forall j :: k < j < n ==> log[..n][j] == log[j];
    }
  }

  lemma {:induction false} GoverningIsUnique(log: seq<Load>, p: int, d: Day, k: nat)
    requires |log| > 1 && log[|log| - 1].asOf <= d && RowIn(log[|log| - 1], p).Some?
    ensures Governs(log, p, d, k) <==> k == |log| - 1
  {
  }

  lemma {:induction false} GoverningRun(log: seq<Load>, p: int, d: Day)
    requires Forward(log) && Backdated(log, p) && NoHiddenChange(log, p)
    ensures (exists k: nat :: Governs(log, p, d, k)) <==> ValidOn(log, p, d).Some?
    ensures forall k: nat :: Governs(log, p, d, k) ==> SameTracked(ValidOn(log, p, d), RowIn(log[k], p))
  {
    var n := |log| - 1;
    if n > 0 {
      var init := log[..n];
      if log[n].asOf > d {
        GoverningRun(init, p, d);
        forall k: nat {
          GovernsPrefix(log, p, d, k);
        }
      } else {
        OpenVersionIsLastSnapshot(log, p);
        assert log[n - 1].asOf <= log[n].asOf;
        if RowIn(log[n], p).Some? {
          forall k: nat {
            GoverningIsUnique(log, p, d, k);
          }
          assert Governs(log, p, d, n);
        } else {
          GoverningRun(init, p, d);
          LateDaysAreCarried(init, p, d);
          forall k: nat {
            GovernsPrefix(log, p, d, k);
          }
        }
      }
    } else if n == 0 {
      assert Governs(log, p, d, 0) <==> ValidOn(log, p, d).Some?;
    }
  }

  /** The headline: the version whose interval contains day `d` carries the tracked columns of
      the last run dated up to `d` that contained the product, or of the first load on the days
      it was backdated to; and there is one exactly when there is such a run. */
  lemma VersionShowsGoverningSnapshot(log: seq<Load>, p: int, d: Day)
    requires Forward(log) && Backdated(log, p) && NoHiddenChange(log, p)
    ensures (exists v :: v in Replay(log, p) && Covers(v, d)) <==> exists k: nat :: Governs(log, p, d, k)
    ensures forall v, k: nat ::
              v in Replay(log, p) && Covers(v, d) && Governs(log, p, d, k) ==>
                v.tracked == RowIn(log[k], p).value.tracked
  {
    GoverningRun(log, p, d);
    CoveredExactlyIfValid(log, p, d);
    forall v | v in Replay(log, p) && Covers(v, d) {
      CoveringVersionIsValid(log, p, d, v);
    }
  }

  ghost predicate NullFree(log: seq<Load>) {
    forall l, q, i :: l in log && q in l.incoming && 0 <= i < 3 ==> !q.tracked[i].Null?
  }

  /** Snapshots without nulls hide nothing. */
  lemma {:induction false} NullFreeHidesNothing(log: seq<Load>, p: int)
    requires NullFree(log)
    ensures NoHiddenChange(log, p)
  {
    if log != [] {
      var n := |log| - 1;
      NullFreeHidesNothing(log[..n], p);
      var before, row := LastIn(log[..n], p), RowIn(log[n], p);
      LastInIsLogged(log[..n], p);
      assert log[n] in log;
      if before.Some? && row.Some? && before.value.tracked != row.value.tracked {
        var i :| 0 <= i < 3 && before.value.tracked[i] != row.value.tracked[i];
        assert Detectable(row.value.tracked, before.value.tracked, i);
      }
    }
  }

  lemma {:induction false} LastInIsLogged(log: seq<Load>, p: int)
    ensures LastIn(log, p).Some? ==> exists l :: l in log && LastIn(log, p).value in l.incoming
  {
    if log != [] && RowIn(log[|log| - 1], p).None? {
      LastInIsLogged(log[..|log| - 1], p);
    }
  }

  /** A run opens a version if and only if its row is the product's first, or differs from the open
      version in a column that is null in neither. In particular a null that becomes a value opens
      none, and no more does a value that becomes null. */
  lemma OpensExactlyIfSeen(log: seq<Load>, p: int)
    requires |log| > 1
    ensures var n := |log| - 1;
      var before, after, row := Replay(log[..n], p), Replay(log, p), RowIn(log[n], p);
      if row.Some? && (before == [] || !Unseen(row.value.tracked, before[|before| - 1].tracked))
      then |after| == |before| + 1 else after == before
  {
    var n := |log| - 1;
    var before, row := Replay(log[..n], p), RowIn(log[n], p);
    if row.Some? && before != [] {
      DiffersUnlessUnseen(row.value.tracked, before[|before| - 1].tracked);
    }
  }

  /** A cost that goes from a value to null leaves the old version open. */
  lemma NullHidesAChange() returns (log: seq<Load>, p: int)
    ensures Forward(log) && Backdated(log, p) && |log| == 2
    ensures RowIn(log[0], p).Some? && RowIn(log[1], p).Some?
    ensures RowIn(log[0], p).value.tracked != RowIn(log[1], p).value.tracked
    ensures Replay(log, p) == Replay(log[..1], p)
  {
    var priced := Product(1, "", [Num(100), Num(200), Flag(true)], 0);
    var unpriced := priced.(tracked := [Null, Num(200), Flag(true)]);
    log, p := [Load(0, [priced], 1), Load(5, [unpriced], 2)], 1;
    assert log[..1] == [log[0]];
    assert RowIn(log[0], 1) == Some(priced) && RowIn(log[1], 1) == Some(unpriced);
    assert Replay(log[..1], 1) == [Open(priced, 0, 1)];
    assert !Differs(unpriced.tracked, priced.tracked);
    assert Replay(log, 1) == Step(Replay(log[..1], 1), Some(unpriced), 5, 2);
  }

  // ---------------------------------------------------------------- run timestamps

  ghost predicate ClockForward(log: seq<Load>) {
    forall i, j :: 0 <= i < j < |log| ==> log[i].now < log[j].now
  }

  /** With later runs stamped strictly later, the versions of a product carry distinct stamps. */
  lemma {:induction false} StampsIdentifyVersions(log: seq<Load>, p: int)
    requires ClockForward(log)
    ensures forall i, j :: 0 <= i < j < |Replay(log, p)| ==>
      Replay(log, p)[i].processedAt < Replay(log, p)[j].processedAt
    ensures forall i :: 0 <= i < |Replay(log, p)| ==> Replay(log, p)[i].processedAt <= log[|log| - 1].now
  {
    if log != [] {
      var n := |log| - 1;
      StampsIdentifyVersions(log[..n], p);
    }
  }

  // ---------------------------------------------------------------- the job

  ghost function IncomingOf(bronze: seq<BronzeRow>, rn: seq<nat>): seq<Product>
    requires bronze != [] && |rn| == |OnDate(bronze, LatestDate(bronze))|
  {
    Products(Top(OnDate(bronze, LatestDate(bronze)), rn))
  }

  lemma IncomingUnique(bronze: seq<BronzeRow>, rn: seq<nat>)
    requires bronze != [] && RowNumbers(OnDate(bronze, LatestDate(bronze)), BronzeId, IngestedAt, rn)
    ensures UniqueKeys(IncomingOf(bronze, rn), ProductId)
  {
    var rows := OnDate(bronze, LatestDate(bronze));
    TopIsLatest(rows, BronzeId, IngestedAt, rn);
    var kept := Top(rows, rn);
    forall i, j | 0 <= i < j < |kept|
      ensures ProductId(IncomingOf(bronze, rn)[i]) != ProductId(IncomingOf(bronze, rn)[j])
    {
      assert BronzeId(kept[i]) != BronzeId(kept[j]);
    }
  }

  lemma {:induction false} LatestDateIsMax(bronze: seq<BronzeRow>)
    requires bronze != []
    ensures forall b :: b in bronze ==> b.snapshotDate <= LatestDate(bronze)
    ensures exists b :: b in bronze && b.snapshotDate == LatestDate(bronze)
  {
    var n := |bronze| - 1;
    assert bronze == bronze[..n] + [bronze[n]];
    assert bronze[n] in bronze;
    if n > 0 {
      LatestDateIsMax(bronze[..n]);
      var b :| b in bronze[..n] && b.snapshotDate == LatestDate(bronze[..n]);
      assert b in bronze;
    }
  }

  lemma {:induction false} OnDateMembers(bronze: seq<BronzeRow>, d: Day, b: BronzeRow)
    ensures b in OnDate(bronze, d) <==> b in bronze && b.snapshotDate == d
  {
    if bronze != [] {
      var n := |bronze| - 1;
      OnDateMembers(bronze[..n], d, b);
      assert bronze == bronze[..n] + [bronze[n]];
    }
  }

  /** `b` is of the newest snapshot, and no row of that snapshot has its id and a later stamp. */
  ghost predicate Newest(bronze: seq<BronzeRow>, b: BronzeRow) {
    && b in bronze
    && (forall c :: c in bronze ==> c.snapshotDate <= b.snapshotDate)
    && (forall c :: c in bronze && c.snapshotDate == b.snapshotDate && BronzeId(c) == BronzeId(b) ==>
          c.ingestedAt <= b.ingestedAt)
  }

  /** The incoming rows are the newest snapshot's, one per product it holds, latest ingest first. */
  lemma IncomingIsNewest(bronze: seq<BronzeRow>, rn: seq<nat>, p: int)
    requires bronze != [] && RowNumbers(OnDate(bronze, LatestDate(bronze)), BronzeId, IngestedAt, rn)
    ensures var row := Find(IncomingOf(bronze, rn), ProductId, p);
      && (row.Some? <==> exists b :: b in bronze && b.snapshotDate == LatestDate(bronze) && BronzeId(b) == p)
      && (row.Some? ==> exists b :: Newest(bronze, b) && b.product == row.value)
  {
    var rows := OnDate(bronze, LatestDate(bronze));
    var kept := Top(rows, rn);
    TopIsLatest(rows, BronzeId, IngestedAt, rn);
    forall b
      ensures b in rows <==> b in bronze && b.snapshotDate == LatestDate(bronze)
    {
      OnDateMembers(bronze, LatestDate(bronze), b);
    }
    var row := Find(IncomingOf(bronze, rn), ProductId, p);
    if row.Some? {
      var i :| 0 <= i < |kept| && Products(kept)[i] == row.value;
      KeptIsNewest(bronze, kept, kept[i]);
    }
    if b :| b in rows && BronzeId(b) == p {
      assert Dominated(b, BronzeId, IngestedAt, kept);
      var i :| 0 <= i < |kept| && BronzeId(kept[i]) == p && IngestedAt(kept[i]) >= IngestedAt(b);
      assert Products(kept)[i] in Products(kept) && ProductId(Products(kept)[i]) == p;
    }
  }

  lemma KeptIsNewest(bronze: seq<BronzeRow>, kept: seq<BronzeRow>, k: BronzeRow)
    requires bronze != [] && k in kept
    requires Latest(OnDate(bronze, LatestDate(bronze)), BronzeId, IngestedAt, kept)
    ensures Newest(bronze, k)
  {
    var rows := OnDate(bronze, LatestDate(bronze));
    LatestDateIsMax(bronze);
    OnDateMembers(bronze, LatestDate(bronze), k);
    forall c | c in bronze && c.snapshotDate == k.snapshotDate && BronzeId(c) == BronzeId(k)
      ensures c.ingestedAt <= k.ingestedAt
    {
      OnDateMembers(bronze, LatestDate(bronze), c);
      assert Dominated(c, BronzeId, IngestedAt, kept);
      var i :| 0 <= i < |kept| && BronzeId(kept[i]) == BronzeId(c) && IngestedAt(kept[i]) >= IngestedAt(c);
      FindUnique(kept, BronzeId, k);
      FindUnique(kept, BronzeId, kept[i]);
    }
  }

  lemma {:induction false} AsOfNeverGoesBack(bronze: seq<BronzeRow>, more: seq<BronzeRow>)
    requires bronze != []
    ensures LatestDate(bronze) <= LatestDate(bronze + more)
    decreases |more|
  {
    if more == [] {
      assert bronze + more == bronze;
    } else {
      var n := |more| - 1;
      AsOfNeverGoesBack(bronze, more[..n]);
      assert (bronze + more)[..|bronze| + n] == bronze + more[..n];
    }
  }

  /** Each product's versions in `rows` are what the runs of `log` make of it. */
  ghost predicate Reflects(rows: seq<Version>, log: seq<Load>) {
    Chained(rows) && forall p :: History(rows, p) == Replay(log, p)
  }

  lemma ForwardBy(log: seq<Load>, l: Load)
    requires Forward(log) && (log != [] ==> log[|log| - 1].asOf <= l.asOf)
    ensures Forward(log + [l])
  {
    forall i, j | 0 <= i < j < |log + [l]|
      ensures (log + [l])[i].asOf <= (log + [l])[j].asOf
    {
      if j == |log| && i < |log| - 1 {
        assert log[i].asOf <= log[|log| - 1].asOf;
      }
    }
  }

  // ---------------------------------------------------------------- rerunning the job

  /** Two numberings of one bronze table give the same incoming products, if key and stamp decide
      the row. */
  lemma IncomingIsDetermined(bronze: seq<BronzeRow>, rn: seq<nat>, rn': seq<nat>)
    requires bronze != [] && StampsDecide(OnDate(bronze, LatestDate(bronze)), BronzeId, IngestedAt)
    requires RowNumbers(OnDate(bronze, LatestDate(bronze)), BronzeId, IngestedAt, rn)
    requires RowNumbers(OnDate(bronze, LatestDate(bronze)), BronzeId, IngestedAt, rn')
    ensures SameRows(IncomingOf(bronze, rn), IncomingOf(bronze, rn'))
  {
    var rows := OnDate(bronze, LatestDate(bronze));
    TopIsLatest(rows, BronzeId, IngestedAt, rn);
    TopIsLatest(rows, BronzeId, IngestedAt, rn');
    LatestIsDetermined(rows, BronzeId, IngestedAt, Top(rows, rn), Top(rows, rn'));
    ProductsOfSameRows(Top(rows, rn), Top(rows, rn'));
    ProductsOfSameRows(Top(rows, rn'), Top(rows, rn));
  }

  lemma ProductsOfSameRows(a: seq<BronzeRow>, b: seq<BronzeRow>)
    requires forall r :: r in a ==> r in b
    ensures forall q :: q in Products(a) ==> q in Products(b)
  {
    forall q | q in Products(a)
      ensures q in Products(b)
    {
      var i :| 0 <= i < |a| && Products(a)[i] == q;
      assert a[i] in a;
      var j :| 0 <= j < |b| && b[j] == a[i];
      assert Products(b)[j] == q;
    }
  }

  /** Re-running the job on unchanged bronze leaves the table as it is, after a MERGE as after the
      first load, whenever it happens and however the engine numbers ties this time. */
  lemma RerunOfJobChangesNothing(
      rows: seq<Version>, bronze: seq<BronzeRow>, rn: seq<nat>, rn': seq<nat>, now: int, now': int)
    requires Chained(rows) && bronze != []
    requires StampsDecide(OnDate(bronze, LatestDate(bronze)), BronzeId, IngestedAt)
    requires RowNumbers(OnDate(bronze, LatestDate(bronze)), BronzeId, IngestedAt, rn)
    requires RowNumbers(OnDate(bronze, LatestDate(bronze)), BronzeId, IngestedAt, rn')
    ensures var asOf, incoming, again := LatestDate(bronze), IncomingOf(bronze, rn), IncomingOf(bronze, rn');
      var merged, first := MergeSnapshot(rows, incoming, asOf, now), InitialLoad(incoming, now);
      && merged.Merged? && MergeSnapshot(merged.rows, again, asOf, now') == Merged(merged.rows)
      && MergeSnapshot(first, again, asOf, now') == Merged(first)
  {
    var asOf, incoming, again := LatestDate(bronze), IncomingOf(bronze, rn), IncomingOf(bronze, rn');
    IncomingUnique(bronze, rn);
    IncomingIsDetermined(bronze, rn, rn');
    RerunOfSameRows(rows, incoming, again, asOf, now, asOf, now');
    RerunOfFirstLoad(incoming, again, now, asOf, now');
  }

  /** silver.products and the job that maintains it. `log` and `seen` are what the table is
      proved to reflect: the runs so far, and bronze as the last run saw it. */
  class ProductHistory {
    var loaded: bool
    var rows: seq<Version>
    ghost var log: seq<Load>
    ghost var seen: seq<BronzeRow>

    ghost predicate Valid()
      reads this
    {
      && (loaded <==> log != [])
      && (loaded <==> seen != [])
      && (!loaded ==> rows == [])
      && Reflects(rows, log)
      && Forward(log)
      && (log != [] ==> log[|log| - 1].asOf == LatestDate(seen))
    }

    constructor ()
      ensures Valid() && log == [] && rows == []
    {
      loaded, rows, log, seen := false, [], [], [];
    }

    /** The initial load. */
    method LoadFirst(incoming: seq<Product>, ghost asOf: int, now: int)
      requires !loaded && rows == [] && UniqueKeys(incoming, ProductId)
      modifies `loaded, `rows
      ensures loaded && Reflects(rows, [Load(asOf, incoming, now)])
      ensures |rows| == |CurrentRows(rows)| == |incoming|
    {
      FirstLoadRefines(Load(asOf, incoming, now));
      loaded, rows := true, InitialLoad(incoming, now);
    }

    /** The diff and the MERGE. */
    method MergeLater(incoming: seq<Product>, asOf: int, now: int) returns (changed: nat, added: nat)
      requires UniqueKeys(incoming, ProductId) && Reflects(rows, log) && log != []
      modifies `rows
      ensures Reflects(rows, log + [Load(asOf, incoming, now)])
      ensures |rows| == |old(rows)| + changed + added
      ensures |CurrentRows(rows)| == |CurrentRows(old(rows))| + added
    {
      changed, added := |Changed(incoming, rows)|, |New(incoming, rows)|;
      MergeCounts(rows, incoming, asOf, now);
      LaterLoadRefines(rows, log, Load(asOf, incoming, now));
      rows := MergeSnapshot(rows, incoming, asOf, now).rows;
    }

    /** One run of the job: `rn` is the engine's numbering of the latest snapshot's rows. A bronze
        table that exists is never empty, and it is only appended to. */
    method Run(bronze: seq<BronzeRow>, rn: seq<nat>, now: int) returns (changed: nat, added: nat)
      requires Valid() && bronze != [] && seen <= bronze
      requires RowNumbers(OnDate(bronze, LatestDate(bronze)), BronzeId, IngestedAt, rn)
      modifies this
      ensures Valid() && seen == bronze
      ensures log == old(log) + [Load(LatestDate(bronze), IncomingOf(bronze, rn), now)]
      ensures |rows| == |old(rows)| + changed + added
      ensures |CurrentRows(rows)| == |CurrentRows(old(rows))| + added
    {
      var asOf := LatestDate(bronze);
      var incoming := Products(Top(OnDate(bronze, asOf), rn));
      ghost var load := Load(asOf, incoming, now);
      IncomingUnique(bronze, rn);
      if !loaded {
        changed, added := 0, |incoming|;
        LoadFirst(incoming, asOf, now);
        assert log + [load] == [load];
      } else {
        AsOfNeverGoesBack(seen, bronze[|seen|..]);
        assert seen + bronze[|seen|..] == bronze;
        changed, added := MergeLater(incoming, asOf, now);
      }
      ForwardBy(log, load);
      log := log + [load];
      seen := bronze;
    }
  }

  lemma FirstLoadHistory(l: Load, p: int)
    requires UniqueKeys(l.incoming, ProductId)
    ensures History(InitialLoad(l.incoming, l.now), p) == Replay([l], p)
  {
    HistoryOfOpened(l.incoming, None, l.now, p);
    assert [l][|[l]| - 1] == l;
  }

  lemma FirstLoadRefines(l: Load)
    requires UniqueKeys(l.incoming, ProductId)
    ensures CurrentRows(InitialLoad(l.incoming, l.now)) == InitialLoad(l.incoming, l.now)
    ensures Reflects(InitialLoad(l.incoming, l.now), [l])
  {
    InitialLoadIsChained(l.incoming, l.now);
    AllCurrent(l.incoming, l.now);
    forall p {
      FirstLoadHistory(l, p);
    }
  }

  lemma LaterLoadRefines(rows: seq<Version>, log: seq<Load>, l: Load)
    requires UniqueKeys(l.incoming, ProductId) && Reflects(rows, log) && log != []
    ensures MergeSnapshot(rows, l.incoming, l.asOf, l.now).Merged?
    ensures Reflects(MergeSnapshot(rows, l.incoming, l.asOf, l.now).rows, log + [l])
  {
    MergeKeepsChains(rows, l.incoming, l.asOf, l.now);
    forall p
      ensures History(MergeSnapshot(rows, l.incoming, l.asOf, l.now).rows, p) == Replay(log + [l], p)
    {
      MergeIsStep(rows, l.incoming, l.asOf, l.now, p);
      assert (log + [l])[..|log|] == log;
      assert History(rows, p) == Replay(log, p);
    }
  }

  lemma {:induction false} AllCurrent(ps: seq<Product>, now: int)
    ensures CurrentRows(InitialLoad(ps, now)) == InitialLoad(ps, now)
  {
    if ps != [] {
      var n := |ps| - 1;
      AllCurrent(ps[..n], now);
      assert InitialLoad(ps, now)[..n] == InitialLoad(ps[..n], now);
    }
  }
}
