/** What runs leave in bronze is as if each file had been copied once, in listing order, exactly as
    long as no file is missed. */
module FlatFileOrder {
  import opened Tables
  import opened FlatFiles

  // ---------------------------------------------------------------- the order of the last copies

  /** The files of the months above `low` and below `high`, in listing order. */
  function Between(zone: seq<File>, low: int, high: int): seq<File> {
    if zone == [] then []
    else
      var n := |zone| - 1;
      var before := Between(zone[..n], low, high);
      if low < zone[n].month < high then before + [zone[n]] else before
  }

  lemma {:induction false} BetweenMembers(zone: seq<File>, low: int, high: int, f: File)
    ensures f in Between(zone, low, high) <==> f in zone && low < f.month < high
  {
    if zone != [] {
      var n := |zone| - 1;
      BetweenMembers(zone[..n], low, high, f);
      assert zone == zone[..n] + [zone[n]];
    }
  }

  lemma {:induction false} BetweenOrdered(zone: seq<File>, low: int, high: int)
    requires Ordered(zone, PlaceOf)
    ensures Ordered(Between(zone, low, high), PlaceOf)
  {
    if zone != [] {
      var n := |zone| - 1;
      BetweenOrdered(zone[..n], low, high);
      OrderedPrefix(zone);
      forall f | f in Between(zone[..n], low, high)
        ensures f.place < zone[n].place
      {
        BetweenMembers(zone[..n], low, high, f);
      }
      OrderedNext(Between(zone[..n], low, high), zone[n]);
    }
  }

  lemma BetweenOfNext(zone: seq<File>, f: File, low: int, high: int)
    ensures Between(zone + [f], low, high) ==
      if low < f.month < high then Between(zone, low, high) + [f] else Between(zone, low, high)
  {
    assert (zone + [f])[..|zone|] == zone;
  }

  lemma {:induction false} BetweenOfInsert(zone: seq<File>, low: int, high: int, f: File)
    requires !(low < f.month < high)
    ensures Between(Insert(zone, f), low, high) == Between(zone, low, high)
  {
    if zone == [] {
      assert [] + [f] == [f];
      BetweenOfNext([], f, low, high);
    } else {
      var n := |zone| - 1;
      if zone[n].place < f.place {
        BetweenOfNext(zone, f, low, high);
      } else {
        BetweenOfInsert(zone[..n], low, high, f);
        BetweenOfNext(Insert(zone[..n], f), zone[n], low, high);
      }
    }
  }

  lemma ExtendsStep(zone: seq<File>, f: File, low: int, m: Month, high: int)
    requires low < m < high && (m <= f.month < high ==> f.month == m)
    requires f.month < m ==> Where(zone, MonthOf, m) == []
    requires Between(zone, low, high) == Between(zone, low, m) + Where(zone, MonthOf, m)
    ensures Between(zone + [f], low, high) == Between(zone + [f], low, m) + Where(zone + [f], MonthOf, m)
  {
    BetweenOfNext(zone, f, low, high);
    BetweenOfNext(zone, f, low, m);
    WhereNext(zone, f, MonthOf, m);
  }

  /** Opening the next folder extends what a run has reached by that folder. */
  lemma {:induction false} BetweenExtends(zone: seq<File>, low: int, m: Month, high: int)
    requires Listing(zone) && low < m < high && forall f :: f in zone && m <= f.month < high ==> f.month == m
    ensures Between(zone, low, high) == Between(zone, low, m) + Where(zone, MonthOf, m)
  {
    if zone != [] {
      var n := |zone| - 1;
      ListingPrefix(zone);
      assert zone == zone[..n] + [zone[n]];
      BetweenExtends(zone[..n], low, m, high);
      if zone[n].month < m {
        WhereAbsent(zone[..n], MonthOf, m);
      }
      ExtendsStep(zone[..n], zone[n], low, m, high);
    }
  }

  lemma {:induction false} BetweenNothing(zone: seq<File>, low: int, high: int)
    requires forall f :: f in zone ==> !(low < f.month < high)
    ensures Between(zone, low, high) == []
  {
    if zone != [] {
      var n := |zone| - 1;
      assert zone[n] in zone && forall f :: f in zone[..n] ==> f in zone;
      BetweenNothing(zone[..n], low, high);
    }
  }

  /** The first month a run has not reached. */
  function Frontier(run: Copying): int
    requires run.Copying?
  {
    if run.months != [] then run.months[0] else run.last + 1
  }

  /** A run has appended, or is about to, the files of the months it has reached, in listing order,
      and it still has every other month up to its last on its list. */
  ghost predicate InStep(s: State) {
    s.run.Copying? && s.run.begun <= |s.bronze| ==>
      && s.bronze[s.run.begun..] + s.run.files == Between(s.zone, s.watermark, Frontier(s.run))
      && (forall f :: f in s.zone && s.watermark < f.month <= s.run.last ==>
            f.month < Frontier(s.run) || f.month in s.run.months)
  }

  lemma FrontierIsLeast(run: Copying)
    requires run.Copying? && Increasing(run.months) && forall m :: m in run.months ==> m <= run.last
    ensures forall m :: m in run.months ==> Frontier(run) <= m
    ensures Frontier(run) <= run.last + 1
  {
    forall m | m in run.months
      ensures Frontier(run) <= m
    {
      var k :| 0 <= k < |run.months| && run.months[k] == m;
    }
    assert run.months != [] ==> run.months[0] in run.months;
  }

  lemma InStepArrive(s: State, f: File)
    requires Sound(s) && InStep(s) && Enabled(s, Arrive(f)) && !FateOnArrival(s, f).AtRisk?
    ensures InStep(Next(s, Arrive(f)))
  {
    InsertKeepsListing(s.zone, f);
    if s.run.Copying? {
      FrontierIsLeast(s.run);
      BetweenOfInsert(s.zone, s.watermark, Frontier(s.run), f);
    }
  }

  lemma InStepList(s: State)
    requires Sound(s) && Enabled(s, ListMonths)
    ensures InStep(Next(s, ListMonths))
  {
    var s' := Next(s, ListMonths);
    if s'.run.Copying? {
      MonthsListed(s);
      FrontierIsLeast(s'.run);
      forall f | f in s.zone && f.month > s.watermark
        ensures f.month in s'.run.months
      {
        assert HasMonth(s.zone, f.month);
      }
      BetweenNothing(s.zone, s.watermark, Frontier(s'.run));
    }
  }

  lemma InStepOpen(s: State)
    requires Sound(s) && InStep(s) && Enabled(s, OpenFolder)
    ensures InStep(Next(s, OpenFolder))
  {
    var s', m := Next(s, OpenFolder), s.run.months[0];
    assert m in s.run.months;
    FrontierIsLeast(s.run);
    assert Increasing(s'.run.months) && forall k :: k in s'.run.months ==> k in s.run.months;
    FrontierIsLeast(s'.run);
    NextFrontier(s.run.months);
    forall f | f in s.zone && s.watermark < f.month <= s.run.last
      ensures f.month < m || f.month == m || f.month in s'.run.months
    {
      OpenKeepsMonth(s.run.months, f.month);
    }
    BetweenExtends(s.zone, s.watermark, m, Frontier(s'.run));
    assert s.bronze[s.run.begun..] + [] == s.bronze[s.run.begun..];
  }

  lemma NextFrontier(months: seq<Month>)
    requires Increasing(months) && months != []
    ensures forall k :: k in months[1..] ==> months[0] < k
  {
    forall k | k in months[1..]
      ensures months[0] < k
    {
      var i :| 0 <= i < |months[1..]| && months[1..][i] == k;
      assert months[i + 1] == k;
    }
  }

  lemma InStepAppend(s: State)
    requires Sound(s) && InStep(s) && Enabled(s, Append)
    ensures InStep(Next(s, Append))
  {
    var files, begun := s.run.files, s.run.begun;
    assert files == [files[0]] + files[1..];
    assert (s.bronze + [files[0]])[begun..] == s.bronze[begun..] + [files[0]];
    assert s.bronze[begun..] + [files[0]] + files[1..] == s.bronze[begun..] + files;
  }

  /** The run in progress skips no file. */
  ghost predicate NoneSkipped(s: State) {
    forall f :: f in s.zone ==> !Follows(s, f, AtRisk)
  }

  /** A skipped file is in a month the run has reached, and the run did not append it. */
  lemma InStepSkipsNone(s: State)
    requires Sound(s) && InStep(s)
    ensures NoneSkipped(s)
  {
    forall f | f in s.zone && s.run.Copying? && f.month > s.watermark && PassedBy(s.run, f)
      ensures f in s.bronze || f in s.run.files
    {
      BetweenMembers(s.zone, s.watermark, Frontier(s.run), f);
      assert f in s.bronze[s.run.begun..] + s.run.files;
    }
  }

  lemma SkippedStays(s: State, e: Event)
    requires Sound(s) && Enabled(s, e) && NoneSkipped(Next(s, e)) && !e.Advance? && !e.Die?
    ensures NoneSkipped(s) && (e.Arrive? ==> !FateOnArrival(s, e.file).AtRisk?)
  {
    forall f | f in s.zone
      ensures !Follows(s, f, AtRisk)
    {
      if Follows(s, f, AtRisk) {
        FateStep(s, e, f, AtRisk);
      }
    }
    if e.Arrive? {
      ArrivalFollows(s, e.file);
    }
  }

  /** Unless a file is skipped, a run stays in step. */
  lemma InStepNext(s: State, e: Event)
    requires Sound(s) && Enabled(s, e) && (NoneSkipped(s) ==> InStep(s))
    ensures NoneSkipped(Next(s, e)) ==> InStep(Next(s, e))
  {
    if NoneSkipped(Next(s, e)) && !e.Advance? && !e.Die? {
      SkippedStays(s, e);
      match e
      case Arrive(f) => InStepArrive(s, f);
      case ListMonths => InStepList(s);
      case OpenFolder => InStepOpen(s);
      case Append => InStepAppend(s);
      case _ =>
    }
  }

  /** The last append of `f`. */
  function LastAt(bronze: seq<File>, f: File): (at: int)
    ensures -1 <= at < |bronze| && (at >= 0 <==> f in bronze) && (at >= 0 ==> bronze[at] == f)
    ensures forall i :: at < i < |bronze| ==> bronze[i] != f
  {
    if bronze == [] then -1
    else
      var n := |bronze| - 1;
      if bronze[n] == f then n else assert bronze == bronze[..n] + [bronze[n]]; LastAt(bronze[..n], f)
  }

  lemma {:induction false} LastAtOfConcat(bronze: seq<File>, more: seq<File>, f: File)
    ensures LastAt(bronze + more, f) == if f in more then |bronze| + LastAt(more, f) else LastAt(bronze, f)
  {
    if more == [] {
      assert bronze + more == bronze;
    } else {
      var n := |more| - 1;
      LastAtOfConcat(bronze, more[..n], f);
      assert (bronze + more)[..|bronze| + n] == bronze + more[..n];
      assert more == more[..n] + [more[n]];
    }
  }

  lemma LastAtOfOrdered(plan: seq<File>, f: File, g: File)
    requires Ordered(plan, PlaceOf) && f in plan && g in plan && f.place < g.place
    ensures LastAt(plan, f) < LastAt(plan, g)
  {
    var i, j := LastAt(plan, f), LastAt(plan, g);
    assert i > j ==> PlaceOf(plan[j]) < PlaceOf(plan[i]);
  }

  ghost predicate Sequenced(bronze: seq<File>, f: File, g: File) {
    0 <= LastAt(bronze, f) < LastAt(bronze, g)
  }

  /** The files of finished months are all in bronze, their last copies in listing order. */
  ghost predicate Settled(s: State) {
    && (forall f :: f in s.zone && f.month <= s.watermark ==> f in s.bronze)
    && (forall f, g :: f in s.zone && g in s.zone && g.month <= s.watermark && f.place < g.place ==>
          Sequenced(s.bronze, f, g))
  }

  /** A pair of files once the run that copied the second, or both, has advanced. */
  lemma PairSettles(before: seq<File>, plan: seq<File>, f: File, g: File)
    requires Ordered(plan, PlaceOf) && f.place < g.place && g in plan
    requires f in plan || f in before
    ensures Sequenced(before + plan, f, g)
  {
    LastAtOfConcat(before, plan, f);
    LastAtOfConcat(before, plan, g);
    if f in plan {
      LastAtOfOrdered(plan, f, g);
    }
  }

  lemma SettledAppend(s: State)
    requires Sound(s) && Settled(s) && Enabled(s, Append)
    ensures Settled(Next(s, Append))
  {
    var h := s.run.files[0];
    assert h in s.run.files;
    forall f, g | f in s.zone && g in s.zone && g.month <= s.watermark && f.place < g.place
      ensures Sequenced(s.bronze + [h], f, g)
    {
      assert Sequenced(s.bronze, f, g);
      LastAtOfConcat(s.bronze, [h], f);
      LastAtOfConcat(s.bronze, [h], g);
    }
  }

  lemma SettledPair(bronze: seq<File>, before: seq<File>, zone: seq<File>, low: int, high: int, f: File, g: File)
    requires Listing(zone) && f in zone && g in zone && low < g.month < high && f.place < g.place
    requires bronze == before + Between(zone, low, high) && (f.month <= low ==> f in before)
    ensures Sequenced(bronze, f, g)
  {
    BetweenMembers(zone, low, high, f);
    BetweenMembers(zone, low, high, g);
    BetweenOrdered(zone, low, high);
    PairSettles(before, Between(zone, low, high), f, g);
  }

  /** What a finished run appended is the files of its months, in listing order. */
  lemma AppendedInOrder(s: State)
    requires Sound(s) && InStep(s) && Enabled(s, Advance)
    ensures s.bronze == s.bronze[..s.run.begun] + Between(s.zone, s.watermark, s.run.last + 1)
  {
    assert s.bronze[s.run.begun..] + [] == s.bronze[s.run.begun..];
    assert s.bronze == s.bronze[..s.run.begun] + s.bronze[s.run.begun..];
  }

  lemma AdvanceLands(s: State, f: File)
    requires Sound(s) && Settled(s) && InStep(s) && Enabled(s, Advance) && f in s.zone && f.month <= s.run.last
    ensures f in s.bronze && (f.month <= s.watermark ==> f in s.bronze[..s.run.begun])
  {
    AppendedInOrder(s);
    BetweenMembers(s.zone, s.watermark, s.run.last + 1, f);
  }

  lemma NewPair(s: State, f: File, g: File)
    requires Sound(s) && InStep(s) && Enabled(s, Advance)
    requires f in s.zone && g in s.zone && s.watermark < g.month <= s.run.last && f.place < g.place
    requires f.month <= s.watermark ==> f in s.bronze[..s.run.begun]
    ensures Sequenced(s.bronze, f, g)
  {
    AppendedInOrder(s);
    SettledPair(s.bronze, s.bronze[..s.run.begun], s.zone, s.watermark, s.run.last + 1, f, g);
  }

  lemma AdvanceSequences(s: State, f: File, g: File)
    requires Sound(s) && Settled(s) && InStep(s) && Enabled(s, Advance)
    requires f in s.zone && g in s.zone && g.month <= s.run.last && f.place < g.place
    ensures Sequenced(s.bronze, f, g)
  {
    if g.month > s.watermark {
      AdvanceLands(s, f);
      NewPair(s, f, g);
    }
  }

  lemma SettledAdvance(s: State)
    requires Sound(s) && Settled(s) && InStep(s) && Enabled(s, Advance)
    ensures Settled(Next(s, Advance))
  {
    forall f | f in s.zone && f.month <= s.run.last
      ensures f in s.bronze
    {
      AdvanceLands(s, f);
    }
    forall f, g | f in s.zone && g in s.zone && g.month <= s.run.last && f.place < g.place
      ensures Sequenced(s.bronze, f, g)
    {
      AdvanceSequences(s, f, g);
    }
  }

  lemma MissedStays(s: State, e: Event, f: File)
    requires Sound(s) && Enabled(s, e) && Missed(s, f)
    ensures Missed(Next(s, e), f)
  {
    match e
    case Arrive(g) => InsertMembers(s.zone, g, f);
    case Append => assert s.run.files[0] in s.run.files;
    case _ =>
  }

  /** Nothing missed after a step means nothing missed before, no arrival behind the watermark, and
      no file skipped by a run that finishes. */
  lemma NoneMissedBefore(s: State, e: Event)
    requires Sound(s) && Enabled(s, e) && NoneMissed(Next(s, e))
    ensures NoneMissed(s) && (e.Arrive? ==> e.file.month > s.watermark) && (e.Advance? ==> NoneSkipped(s))
  {
    forall f | f in s.zone
      ensures !Missed(s, f) && (e.Advance? ==> !Follows(s, f, AtRisk))
    {
      if Missed(s, f) {
        MissedStays(s, e, f);
      }
      if e.Advance? && Follows(s, f, AtRisk) {
        FateStep(s, e, f, AtRisk);
      }
    }
    if e.Arrive? {
      ArrivalFollows(s, e.file);
    }
  }

  lemma SettledStep(s: State, e: Event)
    requires Sound(s) && Enabled(s, e) && (NoneMissed(s) ==> Settled(s)) && (NoneSkipped(s) ==> InStep(s))
    ensures NoneMissed(Next(s, e)) ==> Settled(Next(s, e))
  {
    if NoneMissed(Next(s, e)) {
      NoneMissedBefore(s, e);
      match e
      case Arrive(f) => InsertKeepsListing(s.zone, f);
      case Append => SettledAppend(s);
      case Advance => SettledAdvance(s);
      case _ =>
    }
  }

  lemma {:induction false} SettledUnlessMissed(states: seq<State>, events: seq<Event>, n: nat)
    requires IsRun(states, events) && n < |states|
    ensures NoneSkipped(states[n]) ==> InStep(states[n])
    ensures NoneMissed(states[n]) ==> Settled(states[n])
  {
    if n > 0 {
      SettledUnlessMissed(states, events, n - 1);
      AlwaysSound(states, events, n - 1);
      SettledStep(states[n - 1], events[n - 1]);
      InStepNext(states[n - 1], events[n - 1]);
    }
  }

  lemma SettledMissesNone(s: State)
    requires Settled(s)
    ensures NoneMissed(s)
  {
  }

  /** In every state of every run: the run in progress is in step if and only if it skips no file,
      and the finished months are settled if and only if no file is missed. */
  lemma AlwaysSettled(states: seq<State>, events: seq<Event>, n: nat)
    requires IsRun(states, events) && n < |states|
    ensures InStep(states[n]) <==> NoneSkipped(states[n])
    ensures Settled(states[n]) <==> NoneMissed(states[n])
  {
    SettledUnlessMissed(states, events, n);
    AlwaysSound(states, events, n);
    if InStep(states[n]) {
      InStepSkipsNone(states[n]);
    }
    if Settled(states[n]) {
      SettledMissesNone(states[n]);
    }
  }

  /** Every file of the bucket is in bronze, and the last copies are in listing order. */
  ghost predicate CopiedOnce(s: State) {
    && Ordered(s.zone, PlaceOf)
    && (forall f :: f in s.zone <==> f in s.bronze)
    && (forall f, g :: f in s.zone && g in s.zone && f.place < g.place ==> Sequenced(s.bronze, f, g))
  }

  /** However many runs died: a complete state is as if each file had been copied once, in listing
      order, if and only if no arrival came too late. An arrival in a folder a run has passed is not
      too late if that run dies. */
  lemma CopiedOnceExactlyIfNoneTooLate(states: seq<State>, events: seq<Event>, n: nat)
    requires IsRun(states, events) && n <= |events| && Complete(states[n])
    ensures CopiedOnce(states[n]) <==> NoneTooLate(states, events, n)
    ensures CopiedOnce(states[n]) <==> forall f :: f in states[n].zone ==> f in states[n].bronze
  {
    AlwaysSound(states, events, n);
    AlwaysSettled(states, events, n);
    NoneMissedExactlyIfNoneTooLate(states, events, n);
  }

  /** Every file arrives in a folder that neither the watermark nor a run in progress has passed. */
  ghost predicate OnTime(s: State, e: Event) {
    e.Arrive? ==> e.file.month > s.watermark && !PassedBy(s.run, e.file)
  }

  ghost predicate AllOnTime(states: seq<State>, events: seq<Event>)
    requires |states| == |events| + 1
  {
    forall i :: 0 <= i < |events| ==> OnTime(states[i], events[i])
  }

  /** In particular, it is if every file arrives in a folder still to come. */
  lemma AsIfCopiedOnce(states: seq<State>, events: seq<Event>, n: nat)
    requires IsRun(states, events) && AllOnTime(states, events) && n <= |events| && Complete(states[n])
    ensures CopiedOnce(states[n])
  {
    CopiedOnceExactlyIfNoneTooLate(states, events, n);
    assert forall i: nat :: i < n && events[i].Arrive? ==> OnTime(states[i], events[i]);
  }
}
