/** Orders from the operational database to silver, as a transition system: writes, chunked
    extraction, crashes, watermark resets, month deletes and merges in any order. */
module OrdersPipeline {
  import opened Tables
  import opened Orders

  /** 1970-01-01, the watermark of a pipeline that never finished. */
  const DEFAULT_WATERMARK := 0

  /** An extraction: its cursor sees the database as it was at `Begin`. `high` is the running
      maximum of updated_at; Done is the value handed to set_watermark. */
  datatype Extraction = Idle | Running(from: int, pending: seq<Order>, high: int) | Done(high: int)

  /** `clock` is the last ingest stamp. */
  datatype State = State(
    oltp: map<int, Order>, bronze: seq<BronzeRow>, stored: Option<int>, run: Extraction,
    silver: Option<seq<Order>>, clock: int)

  datatype Step =
    | Write(order: Order)
    | Begin(rows: seq<Order>)
    | Chunk(size: nat, stamp: int)
    | Finish
    | Advance
    | Crash
    | Reset(to: int)
    | DeleteMonth(month: int)
    | MergeSilver(rn: seq<nat>)

  function Watermark(s: State): int {
    if s.stored.Some? then s.stored.value else DEFAULT_WATERMARK
  }

  function Max(a: int, b: int): int { if b > a then b else a }

  function Highest(rows: seq<Order>, start: int): int {
    if rows == [] then start
    else
      var n := |rows| - 1;
      Max(Highest(rows[..n], start), rows[n].updatedAt)
  }

  /** The watermark as it will be if the extraction in progress, if any, gets to advance it. */
  function Horizon(s: State): int {
    match s.run
    case Idle => Watermark(s)
    case Running(_, pending, high) => Max(Watermark(s), Highest(pending, high))
    case Done(high) => Max(Watermark(s), high)
  }

  /** SELECT * FROM oltp.orders WHERE updated_at > from ORDER BY updated_at */
  ghost predicate Selected(oltp: map<int, Order>, from: int, rows: seq<Order>) {
    && UniqueKeys(rows, OrderId)
    && (forall i, j :: 0 <= i < j < |rows| ==> rows[i].updatedAt <= rows[j].updatedAt)
    && (forall r :: r in rows ==> r.id in oltp && oltp[r.id] == r && r.updatedAt > from)
    && (forall id :: id in oltp && oltp[id].updatedAt > from ==> oltp[id] in rows)
  }

  function Stamped(rows: seq<Order>, stamp: int): (out: seq<BronzeRow>)
    ensures |out| == |rows| && forall i :: 0 <= i < |out| ==> out[i] == BronzeRow(rows[i], stamp)
  {
    seq(|rows|, i requires 0 <= i < |rows| => BronzeRow(rows[i], stamp))
  }

  function OutsideMonth(rows: seq<Order>, month: int): seq<Order> {
    if rows == [] then []
    else
      var n := |rows| - 1;
      OutsideMonth(rows[..n], month) + if rows[n].month == month then [] else [rows[n]]
  }

  /** The guards: a write carries an updated_at above the watermark, and above what an extraction
      in progress is about to store; every bronze write gets a later stamp; one extraction runs at
      a time. */
  ghost predicate Enabled(s: State, step: Step) {
    match step
    case Write(o) => o.updatedAt > Horizon(s)
    case Begin(rows) => s.run.Idle? && Selected(s.oltp, Watermark(s), rows)
    case Chunk(n, stamp) => s.run.Running? && 0 < n <= |s.run.pending| && stamp > s.clock
    case Finish => s.run.Running? && s.run.pending == []
    case Advance => s.run.Done?
    case Crash => true
    case Reset(to) => to <= Watermark(s)
    case DeleteMonth(_) => s.silver.Some?
    case MergeSilver(rn) => RowNumbers(s.bronze, BronzeId, IngestedAt, rn)
  }

  ghost function Next(s: State, step: Step): State
    requires Enabled(s, step)
  {
    match step
    case Write(o) => s.(oltp := s.oltp[o.id := o])
    case Begin(rows) => s.(run := Running(Watermark(s), rows, Watermark(s)))
    case Chunk(n, stamp) =>
      var chunk := s.run.pending[..n];
      s.(bronze := s.bronze + Stamped(chunk, stamp), clock := stamp,
         run := Running(s.run.from, s.run.pending[n..], Highest(chunk, s.run.high)))
    case Finish => s.(run := Done(s.run.high))
    case Advance => s.(stored := Some(s.run.high), run := Idle)
    case Crash => s.(run := Idle)
    case Reset(to) => s.(stored := Some(to))
    case DeleteMonth(m) => s.(silver := Some(OutsideMonth(s.silver.value, m)))
    case MergeSilver(rn) =>
      var outcome := SilverRun(s.silver, s.bronze, rn);
      if outcome.Merged? then s.(silver := Some(outcome.rows)) else s
  }

  // ---------------------------------------------------------------- the invariant

  /** The order bronze received last under an id. */
  ghost function LastLanded(bronze: seq<BronzeRow>, id: int): Option<Order> {
    if bronze == [] then None
    else
      var n := |bronze| - 1;
      if bronze[n].order.id == id then Some(bronze[n].order) else LastLanded(bronze[..n], id)
  }

  /** What bronze received last for `id` is what the database holds now. */
  ghost predicate Current(s: State, id: int) {
    id in s.oltp && LastLanded(s.bronze, id) == Some(s.oltp[id])
  }

  /** Every database row updated up to `w` is in bronze in its current version. */
  ghost predicate Landed(s: State, w: int) {
    forall id :: id in s.oltp && s.oltp[id].updatedAt <= w ==> Current(s, id)
  }

  ghost predicate StampsGrow(s: State) {
    && (forall i, j :: 0 <= i < j < |s.bronze| && s.bronze[i].order.id == s.bronze[j].order.id
          ==> s.bronze[i].ingestedAt < s.bronze[j].ingestedAt)
    && (forall i :: 0 <= i < |s.bronze| ==> s.bronze[i].ingestedAt <= s.clock)
  }

  ghost predicate BronzeFromOltp(s: State) {
    forall i :: 0 <= i < |s.bronze| ==> s.bronze[i].order.id in s.oltp
  }

  ghost predicate SilverFromBronze(s: State) {
    s.silver.Some? ==>
      UniqueKeys(s.silver.value, OrderId) && forall r :: r in s.silver.value ==> LastLanded(s.bronze, r.id).Some?
  }

  /** A pending row is still the database's row, unless that was written again since. */
  ghost predicate PendingOk(s: State, r: Order) {
    r.id in s.oltp && (s.oltp[r.id] == r || s.oltp[r.id].updatedAt > Horizon(s))
  }

  /** What an extraction is about to vouch for is in bronze or on its way there. */
  ghost predicate Covered(s: State, pending: seq<Order>, w: int) {
    forall id :: id in s.oltp && s.oltp[id].updatedAt <= w ==> s.oltp[id] in pending || Current(s, id)
  }

  ghost predicate RunOk(s: State) {
    match s.run
    case Idle => true
    case Done(high) => Watermark(s) <= high && Landed(s, high)
    case Running(from, pending, high) =>
      && Watermark(s) <= from <= high
      && UniqueKeys(pending, OrderId)
      && (forall r :: r in pending ==> PendingOk(s, r))
      && Covered(s, pending, Highest(pending, high))
  }

  ghost predicate Keyed(s: State) {
    forall id :: id in s.oltp ==> s.oltp[id].id == id
  }

  ghost predicate Inv(s: State) {
    && Keyed(s)
    && Landed(s, Watermark(s))
    && StampsGrow(s) && BronzeFromOltp(s) && SilverFromBronze(s)
    && RunOk(s)
  }

  ghost predicate Init(s: State) {
    s.oltp == map[] && s.bronze == [] && s.stored.None? && s.run.Idle? && s.silver.None?
  }

  // ---------------------------------------------------------------- lemmas about one step

  lemma {:induction false} HighestBounds(rows: seq<Order>, start: int)
    ensures start <= Highest(rows, start)
    ensures forall r :: r in rows ==> r.updatedAt <= Highest(rows, start)
    ensures Highest(rows, start) == start || exists r :: r in rows && r.updatedAt == Highest(rows, start)
  {
    if rows != [] {
      var n := |rows| - 1;
      HighestBounds(rows[..n], start);
      assert rows == rows[..n] + [rows[n]];
    }
  }

  lemma {:induction false} LastLandedOfConcat(a: seq<BronzeRow>, b: seq<BronzeRow>, id: int)
    ensures LastLanded(a + b, id) == if LastLanded(b, id).Some? then LastLanded(b, id) else LastLanded(a, id)
  {
    if b == [] {
      assert a + b == a;
    } else {
      var n := |b| - 1;
      LastLandedOfConcat(a, b[..n], id);
      assert (a + b)[..|a| + n] == a + b[..n];
    }
  }

  lemma {:induction false} LastLandedIsIn(bronze: seq<BronzeRow>, id: int)
    ensures LastLanded(bronze, id).Some? <==> exists i :: 0 <= i < |bronze| && bronze[i].order.id == id
    ensures LastLanded(bronze, id).Some? ==> LastLanded(bronze, id).value.id == id
  {
    if bronze != [] && bronze[|bronze| - 1].order.id != id {
      LastLandedIsIn(bronze[..|bronze| - 1], id);
    }
  }

  lemma {:induction false} LastLandedOfStamped(rows: seq<Order>, stamp: int, id: int)
    requires UniqueKeys(rows, OrderId)
    ensures LastLanded(Stamped(rows, stamp), id) == Find(rows, OrderId, id)
  {
    if rows != [] {
      var n := |rows| - 1;
      assert Stamped(rows, stamp)[..n] == Stamped(rows[..n], stamp);
      LastLandedOfStamped(rows[..n], stamp, id);
      if rows[n].id == id {
        FindUnique(rows, OrderId, rows[n]);
      } else {
        FindInPrefix(rows, id);
      }
    }
  }

  lemma {:induction false} FindInPrefix(rows: seq<Order>, id: int)
    requires rows != [] && rows[|rows| - 1].id != id
    ensures Find(rows, OrderId, id) == Find(rows[..|rows| - 1], OrderId, id)
  {
    if |rows| > 1 && rows[0].id != id {
      FindInPrefix(rows[1..], id);
      assert rows[1..][..|rows| - 2] == rows[..|rows| - 1][1..];
    }
  }

  lemma {:induction false} HighestOfConcat(a: seq<Order>, b: seq<Order>, start: int)
    ensures Highest(a + b, start) == Highest(b, Highest(a, start))
  {
    if b == [] {
      assert a + b == a;
    } else {
      var n := |b| - 1;
      HighestOfConcat(a, b[..n], start);
      assert (a + b)[..|a| + n] == a + b[..n];
    }
  }

  lemma WriteKeepsInv(s: State, o: Order)
    requires Inv(s) && Enabled(s, Write(o))
    ensures Inv(Next(s, Write(o)))
  {
  }

  lemma BeginKeepsInv(s: State, rows: seq<Order>)
    requires Inv(s) && Enabled(s, Begin(rows))
    ensures Inv(Next(s, Begin(rows)))
  {
    HighestBounds(rows, Watermark(s));
  }

  lemma ChunkLands(s: State, n: nat, stamp: int, id: int)
    requires Inv(s) && Enabled(s, Chunk(n, stamp))
    ensures LastLanded(Next(s, Chunk(n, stamp)).bronze, id) ==
      var landed := Find(s.run.pending[..n], OrderId, id);
      if landed.Some? then landed else LastLanded(s.bronze, id)
  {
    LastLandedOfConcat(s.bronze, Stamped(s.run.pending[..n], stamp), id);
    LastLandedOfStamped(s.run.pending[..n], stamp, id);
  }

  /** A chunk leaves the horizon where it is. */
  lemma ChunkKeepsHorizon(s: State, n: nat, stamp: int)
    requires Inv(s) && Enabled(s, Chunk(n, stamp))
    ensures var s' := Next(s, Chunk(n, stamp));
      && Highest(s'.run.pending, s'.run.high) == Highest(s.run.pending, s.run.high)
      && Horizon(s') == Horizon(s) == Highest(s.run.pending, s.run.high)
      && s.run.high <= s'.run.high
  {
    HighestOfConcat(s.run.pending[..n], s.run.pending[n..], s.run.high);
    assert s.run.pending[..n] + s.run.pending[n..] == s.run.pending;
    HighestBounds(s.run.pending, s.run.high);
    HighestBounds(s.run.pending[..n], s.run.high);
  }

  /** Landing a chunk makes its orders current or leaves them waiting for a newer write. */
  lemma ChunkKeepsCurrent(s: State, n: nat, stamp: int, id: int)
    requires Inv(s) && Enabled(s, Chunk(n, stamp))
    requires id in s.oltp && s.oltp[id].updatedAt <= Horizon(s)
    ensures Current(s, id) ==> Current(Next(s, Chunk(n, stamp)), id)
    ensures s.oltp[id] in s.run.pending[..n] ==> Current(Next(s, Chunk(n, stamp)), id)
  {
    var chunk := s.run.pending[..n];
    ChunkLands(s, n, stamp, id);
    var landed := Find(chunk, OrderId, id);
    if landed.Some? {
      assert landed.value in s.run.pending && PendingOk(s, landed.value);
    }
    if s.oltp[id] in chunk {
      assert s.oltp[id] in s.run.pending && PendingOk(s, s.oltp[id]);
      FindUnique(chunk, OrderId, s.oltp[id]);
    }
  }

  lemma ChunkKeepsLanded(s: State, n: nat, stamp: int)
    requires Inv(s) && Enabled(s, Chunk(n, stamp))
    ensures var s' := Next(s, Chunk(n, stamp));
      Landed(s', Watermark(s')) && Covered(s', s'.run.pending, Horizon(s))
  {
    var s' := Next(s, Chunk(n, stamp));
    ChunkKeepsHorizon(s, n, stamp);
    assert s.run.pending == s.run.pending[..n] + s.run.pending[n..];
    forall id | id in s.oltp && s.oltp[id].updatedAt <= Horizon(s)
      ensures Current(s, id) ==> Current(s', id)
      ensures s.oltp[id] in s.run.pending[..n] ==> Current(s', id)
    {
      ChunkKeepsCurrent(s, n, stamp, id);
    }
  }

  lemma ChunkKeepsRunOk(s: State, n: nat, stamp: int)
    requires Inv(s) && Enabled(s, Chunk(n, stamp))
    ensures RunOk(Next(s, Chunk(n, stamp)))
  {
    var s' := Next(s, Chunk(n, stamp));
    ChunkKeepsHorizon(s, n, stamp);
    ChunkKeepsLanded(s, n, stamp);
    forall r | r in s'.run.pending
      ensures PendingOk(s', r)
    {
      assert r in s.run.pending && PendingOk(s, r);
    }
  }

  lemma ChunkKeepsInv(s: State, n: nat, stamp: int)
    requires Inv(s) && Enabled(s, Chunk(n, stamp))
    ensures Inv(Next(s, Chunk(n, stamp)))
  {
    ChunkKeepsLanded(s, n, stamp);
    ChunkKeepsRunOk(s, n, stamp);
    ChunkKeepsBronzeOk(s, n, stamp);
  }

  lemma ChunkKeepsBronzeOk(s: State, n: nat, stamp: int)
    requires Inv(s) && Enabled(s, Chunk(n, stamp))
    ensures var s' := Next(s, Chunk(n, stamp));
      StampsGrow(s') && BronzeFromOltp(s') && SilverFromBronze(s')
  {
    var s' := Next(s, Chunk(n, stamp));
    var chunk, m := s.run.pending[..n], |s.bronze|;
    forall a, b | 0 <= a < b < |chunk|
      ensures chunk[a].id != chunk[b].id
    {
      assert OrderId(s.run.pending[a]) != OrderId(s.run.pending[b]);
    }
    forall i | m <= i < |s'.bronze|
      ensures s'.bronze[i].order.id in s.oltp
    {
      assert chunk[i - m] in s.run.pending && PendingOk(s, chunk[i - m]);
    }
    if s.silver.Some? {
      forall r | r in s.silver.value
        ensures LastLanded(s'.bronze, r.id).Some?
      {
        ChunkLands(s, n, stamp, r.id);
      }
    }
  }

  lemma {:induction false} OutsideMonthRows(rows: seq<Order>, m: int)
    requires UniqueKeys(rows, OrderId)
    ensures UniqueKeys(OutsideMonth(rows, m), OrderId)
    ensures forall r :: r in OutsideMonth(rows, m) <==> r in rows && r.month != m
  {
    if rows != [] {
      var n := |rows| - 1;
      OutsideMonthRows(rows[..n], m);
      assert rows == rows[..n] + [rows[n]];
      var before := OutsideMonth(rows[..n], m);
      forall i | 0 <= i < |before|
        ensures OrderId(before[i]) != OrderId(rows[n])
      {
        assert before[i] in before && before[i] in rows[..n];
      }
    }
  }

  /** The deduplicated source of the MERGE is, per order, what bronze received last. */
  lemma DedupeIsLastLanded(s: State, rn: seq<nat>, id: int)
    requires StampsGrow(s) && RowNumbers(s.bronze, BronzeId, IngestedAt, rn)
    ensures Find(OrdersOf(Top(s.bronze, rn)), OrderId, id) == LastLanded(s.bronze, id)
  {
    var kept := Top(s.bronze, rn);
    TopIsLatest(s.bronze, BronzeId, IngestedAt, rn);
    DedupedUnique(s.bronze, rn);
    if LastLanded(s.bronze, id).Some? {
      var k := LastIndex(s.bronze, id);
      assert s.bronze[k] in s.bronze;
      assert Dominated(s.bronze[k], BronzeId, IngestedAt, kept);
      var i :| 0 <= i < |kept| && BronzeId(kept[i]) == id && kept[i].ingestedAt >= s.bronze[k].ingestedAt;
      assert kept[i] in kept && kept[i] in s.bronze;
      var j :| 0 <= j < |s.bronze| && s.bronze[j] == kept[i];
      assert j == k;
      FindUnique(OrdersOf(kept), OrderId, OrdersOf(kept)[i]);
    } else {
      forall o | o in OrdersOf(kept)
        ensures LastLanded(s.bronze, o.id).Some?
      {
        var i :| 0 <= i < |kept| && OrdersOf(kept)[i] == o;
        assert kept[i] in kept && kept[i] in s.bronze;
        LastLandedIsIn(s.bronze, o.id);
      }
    }
  }

  lemma {:induction false} LastIndex(bronze: seq<BronzeRow>, id: int) returns (k: nat)
    requires LastLanded(bronze, id).Some?
    ensures k < |bronze| && bronze[k].order == LastLanded(bronze, id).value && bronze[k].order.id == id
    ensures forall j :: k < j < |bronze| ==> bronze[j].order.id != id
  {
    var n := |bronze| - 1;
    if bronze[n].order.id == id {
      k := n;
    } else {
      k := LastIndex(bronze[..n], id);
    }
  }

  /** After the merge, silver holds exactly what bronze received last, one row per order. */
  lemma MergeShowsLastLanded(s: State, rn: seq<nat>)
    requires StampsGrow(s) && SilverFromBronze(s) && RowNumbers(s.bronze, BronzeId, IngestedAt, rn)
    ensures var outcome := SilverRun(s.silver, s.bronze, rn);
      && outcome.Merged? && UniqueKeys(outcome.rows, OrderId)
      && forall r :: r in outcome.rows <==> LastLanded(s.bronze, r.id) == Some(r)
  {
    var source := OrdersOf(Top(s.bronze, rn));
    DedupedUnique(s.bronze, rn);
    if s.silver.Some? {
      MergeKeepsIdsUnique(s.silver.value, source);
    }
    var rows := SilverRun(s.silver, s.bronze, rn).rows;
    forall r
      ensures r in rows <==> LastLanded(s.bronze, r.id) == Some(r)
    {
      DedupeIsLastLanded(s, rn, r.id);
      if s.silver.Some? {
        MergeContents(s.silver.value, source, r);
      }
      if r in source {
        FindUnique(source, OrderId, r);
      }
    }
  }

  lemma MergeKeepsInv(s: State, rn: seq<nat>)
    requires Inv(s) && Enabled(s, MergeSilver(rn))
    ensures Inv(Next(s, MergeSilver(rn)))
  {
    MergeShowsLastLanded(s, rn);
  }

  lemma DeleteKeepsInv(s: State, month: int)
    requires Inv(s) && Enabled(s, DeleteMonth(month))
    ensures Inv(Next(s, DeleteMonth(month)))
  {
    OutsideMonthRows(s.silver.value, month);
  }

  lemma ControlKeepsInv(s: State, step: Step)
    requires Inv(s) && Enabled(s, step) && (step.Finish? || step.Advance? || step.Crash? || step.Reset?)
    ensures Inv(Next(s, step))
  {
  }

  lemma StepKeepsInv(s: State, step: Step)
    requires Inv(s) && Enabled(s, step)
    ensures Inv(Next(s, step))
  {
    match step
    case Write(o) => WriteKeepsInv(s, o);
    case Begin(rows) => BeginKeepsInv(s, rows);
    case Chunk(n, stamp) => ChunkKeepsInv(s, n, stamp);
    case MergeSilver(rn) => MergeKeepsInv(s, rn);
    case DeleteMonth(m) => DeleteKeepsInv(s, m);
    case _ => ControlKeepsInv(s, step);
  }

  // ---------------------------------------------------------------- whole runs

  ghost predicate IsRun(states: seq<State>, steps: seq<Step>) {
    && |states| == |steps| + 1 && Init(states[0])
    && forall i :: 0 <= i < |steps| ==> Enabled(states[i], steps[i]) && states[i + 1] == Next(states[i], steps[i])
  }

  lemma {:induction false} InvHolds(states: seq<State>, steps: seq<Step>, i: nat)
    requires IsRun(states, steps) && i < |states|
    ensures Inv(states[i])
  {
    if i > 0 {
      InvHolds(states, steps, i - 1);
      StepKeepsInv(states[i - 1], steps[i - 1]);
    }
  }

  /** Safety: in every state of every run, each database row updated up to the watermark is in
      bronze in its current version, and no merge is ever refused. */
  lemma NothingBelowWatermarkIsMissed(states: seq<State>, steps: seq<Step>, i: nat, id: int)
    requires IsRun(states, steps) && i < |states|
    requires id in states[i].oltp && states[i].oltp[id].updatedAt <= Watermark(states[i])
    ensures LastLanded(states[i].bronze, id) == Some(states[i].oltp[id])
  {
    InvHolds(states, steps, i);
  }

  lemma NoMergeIsRefused(states: seq<State>, steps: seq<Step>, i: nat, rn: seq<nat>)
    requires IsRun(states, steps) && i < |states| && RowNumbers(states[i].bronze, BronzeId, IngestedAt, rn)
    ensures var outcome := SilverRun(states[i].silver, states[i].bronze, rn);
      outcome.Merged? && UniqueKeys(outcome.rows, OrderId)
  {
    InvHolds(states, steps, i);
    MergeShowsLastLanded(states[i], rn);
  }

  /** An extraction in progress, if any, vouches for the whole database. */
  ghost predicate Quiet(s: State) {
    s.run.Running? ==> forall id :: id in s.oltp ==> s.oltp[id].updatedAt <= Horizon(s)
  }

  ghost predicate CaughtUp(s: State) {
    forall id :: id in s.oltp ==> Current(s, id)
  }

  lemma QuietChunk(s: State, n: nat, stamp: int)
    requires Inv(s) && Quiet(s) && Enabled(s, Chunk(n, stamp))
    ensures Quiet(Next(s, Chunk(n, stamp)))
    ensures CaughtUp(s) ==> CaughtUp(Next(s, Chunk(n, stamp)))
  {
    ChunkKeepsHorizon(s, n, stamp);
    if CaughtUp(s) {
      forall id | id in s.oltp
        ensures Current(Next(s, Chunk(n, stamp)), id)
      {
        ChunkKeepsCurrent(s, n, stamp, id);
      }
    }
  }

  /** Without writes, an extraction that began keeps vouching for everything, and once finished it
      has landed everything. */
  lemma QuietStep(s: State, step: Step)
    requires Inv(s) && Quiet(s) && Enabled(s, step) && !step.Write?
    ensures Quiet(Next(s, step))
    ensures step.Finish? || CaughtUp(s) ==> CaughtUp(Next(s, step))
  {
    match step
    case Begin(rows) => HighestBounds(rows, Watermark(s));
    case Chunk(n, stamp) => QuietChunk(s, n, stamp);
    case Reset(_) =>
      if s.run.Running? {
        HighestBounds(s.run.pending, s.run.high);
      }
    case _ =>
  }

  lemma {:induction false} QuietRun(states: seq<State>, steps: seq<Step>, b: nat, f: nat, i: nat)
    requires IsRun(states, steps) && b < i <= |steps| && steps[b].Begin?
    requires forall k :: b <= k < i ==> !steps[k].Write?
    ensures Quiet(states[i])
    ensures b < f < i && steps[f].Finish? ==> CaughtUp(states[i])
  {
    InvHolds(states, steps, i - 1);
    if i > b + 1 {
      QuietRun(states, steps, b, f, i - 1);
    }
    QuietStep(states[i - 1], steps[i - 1]);
  }

  /** Catch-up: an extraction begins at `b`, some extraction finishes at `f`, a merge ends at `m`,
      and nothing is written in between. Then silver is the database, one row per order, whatever
      crashes, re-sweeps, resets, deletes and merges came before or between. */
  lemma SilverCatchesUp(states: seq<State>, steps: seq<Step>, b: nat, f: nat, m: nat)
    requires IsRun(states, steps) && b < f < m < |steps|
    requires steps[b].Begin? && steps[f].Finish? && steps[m].MergeSilver?
    requires forall k :: b <= k < m ==> !steps[k].Write?
    ensures var s := states[m + 1];
      && s.silver.Some? && UniqueKeys(s.silver.value, OrderId)
      && forall r :: r in s.silver.value <==> r.id in s.oltp && s.oltp[r.id] == r
  {
    var s := states[m];
    InvHolds(states, steps, m);
    QuietRun(states, steps, b, f, m);
    MergeShowsLastLanded(s, steps[m].rn);
    forall r: Order
      ensures LastLanded(s.bronze, r.id) == Some(r) <==> r.id in s.oltp && s.oltp[r.id] == r
    {
      LastLandedIsIn(s.bronze, r.id);
    }
  }

  /** The backfill drill: deleting a month takes that month's rows and no others, and the merge that
      follows leaves what merging alone would have left, in every state a pipeline can reach. */
  lemma BackfillRestores(s: State, month: int, rn: seq<nat>)
    requires Inv(s) && s.silver.Some? && RowNumbers(s.bronze, BronzeId, IngestedAt, rn)
    ensures var after := Next(s, DeleteMonth(month)).silver;
      after.Some? && forall r :: r in after.value <==> r in s.silver.value && r.month != month
    ensures var restored := Next(Next(s, DeleteMonth(month)), MergeSilver(rn)).silver;
      var merged := Next(s, MergeSilver(rn)).silver;
      restored.Some? && merged.Some? && multiset(restored.value) == multiset(merged.value)
  {
    var deleted := Next(s, DeleteMonth(month));
    OutsideMonthRows(s.silver.value, month);
    DeleteKeepsInv(s, month);
    MergeShowsLastLanded(s, rn);
    MergeShowsLastLanded(deleted, rn);
    var merged, restored := Next(s, MergeSilver(rn)).silver.value, Next(deleted, MergeSilver(rn)).silver.value;
    assert SameRows(restored, merged);
    SameBag(restored, merged, OrderId);
  }

  // ---------------------------------------------------------------- writes against the discipline

  /** The state after a write, whatever its updated_at. */
  ghost function Written(s: State, o: Order): State { s.(oltp := s.oltp[o.id := o]) }

  /** The extraction in progress, if any, lands what it still holds, finishes and advances. */
  ghost function Advanced(s: State, stamp: int): State
    requires stamp > s.clock
  {
    match s.run
    case Idle => s
    case Done(high) => Next(s, Advance)
    case Running(_, pending, _) =>
      var landed := if pending == [] then s else Next(s, Chunk(|pending|, stamp));
      Next(Next(landed, Finish), Advance)
  }

  /** `o` is neither what bronze received last for its id nor about to be. */
  ghost predicate Unseen(s: State, o: Order) {
    LastLanded(s.bronze, o.id) != Some(o) && (s.run.Running? ==> o !in s.run.pending)
  }

  /** The database holds `o`, bronze does not, and no extraction will look for it. */
  ghost predicate Lost(s: State, o: Order) {
    && o.id in s.oltp && s.oltp[o.id] == o && Unseen(s, o) && o.updatedAt <= Watermark(s)
    && (s.run.Running? || s.run.Done? ==> o.updatedAt <= s.run.high)
  }

  /** What the advance stores is the horizon the write was measured against. */
  lemma AdvanceStoresHorizon(s: State, stamp: int)
    requires Inv(s) && stamp > s.clock
    ensures Watermark(Advanced(s, stamp)) == Horizon(s)
    ensures Advanced(s, stamp).run.Idle? && Advanced(s, stamp).oltp == s.oltp
  {
    if s.run.Running? {
      HighestBounds(s.run.pending, s.run.high);
      assert s.run.pending[..|s.run.pending|] == s.run.pending;
    }
  }

  lemma AdvanceLandsPending(s: State, stamp: int, id: int)
    requires stamp > s.clock && (s.run.Running? ==> UniqueKeys(s.run.pending, OrderId))
    ensures LastLanded(Advanced(s, stamp).bronze, id) ==
      var landed := if s.run.Running? then Find(s.run.pending, OrderId, id) else None;
      if landed.Some? then landed else LastLanded(s.bronze, id)
  {
    if s.run.Running? && s.run.pending != [] {
      var pending := s.run.pending;
      assert pending[..|pending|] == pending;
      LastLandedOfConcat(s.bronze, Stamped(pending, stamp), id);
      LastLandedOfStamped(pending, stamp, id);
    }
  }

  lemma AdvanceKeepsInv(s: State, stamp: int)
    requires Inv(s) && stamp > s.clock
    ensures Inv(Advanced(s, stamp))
  {
    match s.run
    case Idle =>
    case Done(_) => ControlKeepsInv(s, Advance);
    case Running(_, pending, _) =>
      if pending != [] {
        ChunkKeepsInv(s, |pending|, stamp);
      }
      var landed := if pending == [] then s else Next(s, Chunk(|pending|, stamp));
      ControlKeepsInv(landed, Finish);
      ControlKeepsInv(Next(landed, Finish), Advance);
  }

  /** The exact discipline: in any state the pipeline can reach, a write is safe through the next
      advance of the watermark if and only if its updated_at is above the horizon. At or below it,
      the advance leaves it lost. */
  lemma LostExactlyIfWithinHorizon(s: State, o: Order, stamp: int)
    requires Inv(s) && Unseen(s, o) && stamp > s.clock
    ensures var t := Advanced(Written(s, o), stamp);
      && Watermark(t) == Horizon(s)
      && (Landed(t, Watermark(t)) <==> o.updatedAt > Horizon(s))
      && (Lost(t, o) <==> o.updatedAt <= Horizon(s))
  {
    var w := Written(s, o);
    var t := Advanced(w, stamp);
    WrittenAdvances(s, o, stamp);
    if o.updatedAt > Horizon(s) {
      WriteKeepsInv(s, o);
      AdvanceKeepsInv(w, stamp);
    } else {
      assert w.oltp[o.id] == o && !Current(t, o.id);
    }
  }

  /** A lost write: after one extraction of `first` has finished but not stored its maximum, `late`
      is written above the watermark and below that maximum. */
  lemma WriteAboveWatermarkIsLost(first: Order, late: Order, clock: int)
    returns (states: seq<State>, steps: seq<Step>)
    requires first.id != late.id && DEFAULT_WATERMARK < late.updatedAt <= first.updatedAt
    ensures steps == [Write(first), Begin([first]), Chunk(1, clock + 1), Finish] && IsRun(states, steps)
    ensures var s := states[4];
      && s.run == Done(first.updatedAt) && s.stored == None && s.clock == clock + 1
      && Unseen(s, late) && late.updatedAt > Watermark(s)
      && Lost(Advanced(Written(s, late), clock + 2), late)
  {
    steps := [Write(first), Begin([first]), Chunk(1, clock + 1), Finish];
    var s0 := State(map[], [], None, Idle, None, clock);
    var s1 := Next(s0, steps[0]);
    assert Selected(s1.oltp, Watermark(s1), [first]);
    var s2 := Next(s1, steps[1]);
    var s3 := Next(s2, steps[2]);
    assert [first][..1] == [first] && [first][..0] == [];
    assert Highest([first], DEFAULT_WATERMARK) == Max(Highest([], DEFAULT_WATERMARK), first.updatedAt);
    var s4 := Next(s3, steps[3]);
    states := [s0, s1, s2, s3, s4];
    assert s4.bronze == [BronzeRow(first, clock + 1)];
  }

  /** If the extraction dies instead, only the stored watermark counts. */
  lemma CrashSparesLaterWrites(s: State, o: Order)
    requires Inv(s) && Unseen(s, o)
    ensures var t := Next(Written(s, o), Crash);
      && (o.updatedAt > Watermark(s) ==> Inv(t))
      && (Lost(t, o) <==> o.updatedAt <= Watermark(s))
  {
    ControlKeepsInv(s, Crash);
    if o.updatedAt > Watermark(s) {
      WriteKeepsInv(Next(s, Crash), o);
    }
  }

  lemma WrittenAdvances(s: State, o: Order, stamp: int)
    requires Inv(s) && Unseen(s, o) && stamp > s.clock
    ensures var t := Advanced(Written(s, o), stamp);
      Watermark(t) == Horizon(s) && t.run.Idle? && t.oltp == s.oltp[o.id := o] && LastLanded(t.bronze, o.id) != Some(o)
  {
    AdvanceStoresHorizon(s, stamp);
    AdvanceLandsPending(Written(s, o), stamp, o.id);
    assert Watermark(Advanced(Written(s, o), stamp)) == Watermark(Advanced(s, stamp));
  }

  /** Only writing the order again or resetting the watermark below it brings a lost write back. */
  ghost predicate Revives(step: Step, o: Order) {
    match step
    case Write(w) => w.id == o.id
    case Reset(to) => to < o.updatedAt
    case _ => false
  }

  /** An extraction's rows are one per order. */
  ghost predicate OnePerOrder(s: State) {
    s.run.Running? ==> UniqueKeys(s.run.pending, OrderId)
  }

  lemma LostStep(s: State, step: Step, o: Order)
    requires Lost(s, o) && Enabled(s, step) && !Revives(step, o)
    requires OnePerOrder(s)
    ensures Lost(Next(s, step), o) && OnePerOrder(Next(s, step))
  {
    match step
    case Begin(rows) =>
    case Chunk(n, stamp) =>
      var chunk := s.run.pending[..n];
      LastLandedOfConcat(s.bronze, Stamped(chunk, stamp), o.id);
      LastLandedOfStamped(chunk, stamp, o.id);
      HighestBounds(chunk, s.run.high);
    case _ =>
  }

  /** Steps from any state on. */
  ghost predicate Continues(states: seq<State>, steps: seq<Step>) {
    && |states| == |steps| + 1
    && forall i :: 0 <= i < |steps| ==> Enabled(states[i], steps[i]) && states[i + 1] == Next(states[i], steps[i])
  }

  /** A lost write stays lost, whatever extractions, crashes and merges follow. */
  lemma {:induction false} LostForever(states: seq<State>, steps: seq<Step>, o: Order, i: nat)
    requires Continues(states, steps) && i < |states| && Lost(states[0], o) && OnePerOrder(states[0])
    requires forall k :: 0 <= k < |steps| ==> !Revives(steps[k], o)
    ensures Lost(states[i], o) && OnePerOrder(states[i])
  {
    if i > 0 {
      LostForever(states, steps, o, i - 1);
      LostStep(states[i - 1], steps[i - 1], o);
    }
  }

  /** The repair: once the watermark is set back below a lost write, the next extraction to finish
      brings it to bronze. */
  lemma ResetRecoversLost(s: State, o: Order, to: int, rows: seq<Order>, stamp: int)
    requires Lost(s, o) && s.run.Idle? && to <= Watermark(s) && to < o.updatedAt && stamp > s.clock
    requires Enabled(Next(s, Reset(to)), Begin(rows))
    ensures o in rows
    ensures var t := Advanced(Next(Next(s, Reset(to)), Begin(rows)), stamp);
      Current(t, o.id) && t.oltp[o.id] == o && t.run.Idle?
  {
    var begun := Next(Next(s, Reset(to)), Begin(rows));
    AdvanceLandsPending(begun, stamp, o.id);
    FindUnique(rows, OrderId, o);
    assert rows[..|rows|] == rows;
  }
}
