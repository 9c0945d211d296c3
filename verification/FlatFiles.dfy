/** The drop zone's month folders and the copy into bronze: a watermark over YYYY-MM strings, runs
    that list, open and append while files arrive and may die between any two calls, and which
    files they miss. */
module FlatFiles {
  import opened Tables
  import opened PosText

  // ---------------------------------------------------------------- months as strings

  /** Months counted from the year 0: month m of year y is 12 y + m. 0 is the default watermark. */
  type Month = c: int | 0 <= c <= 120_000

  function Digit(n: nat): char { ('0' as int + n % 10) as char }

  /** YYYY-MM, zero padded; "0000-00" for 0. */
  function MonthText(c: Month): string {
    FourDigits(YearOf(c)) + ['-', Digit(MonthOfYear(c) / 10), Digit(MonthOfYear(c))]
  }

  function FourDigits(y: nat): (s: string)
    ensures |s| == 4
  {
    var tens := y / 10;
    var hundreds := tens / 10;
    [Digit(hundreds / 10), Digit(hundreds), Digit(tens), Digit(y)]
  }

  /** Python's < on strings. */
  predicate Less(a: string, b: string) {
    b != [] && (a == [] || a[0] < b[0] || (a[0] == b[0] && Less(a[1..], b[1..])))
  }

  lemma {:induction false} LessAt(a: string, b: string, k: nat)
    requires k < |a| && k < |b| && a[..k] == b[..k] && a[k] < b[k]
    ensures Less(a, b) && !Less(b, a)
  {
    if k > 0 {
      assert a[..k][0] == b[..k][0];
      assert a[1..][..k - 1] == a[..k][1..] && b[1..][..k - 1] == b[..k][1..];
      LessAt(a[1..], b[1..], k - 1);
    }
  }

  lemma DigitOrder(u: nat, v: nat)
    requires u < v
    ensures u / 10 <= v / 10 && (u / 10 == v / 10 ==> Digit(u) < Digit(v))
  {
  }

  /** Where the zero-padded texts of two numbers below 10000 first differ. */
  lemma FirstDifference(y: nat, z: nat) returns (k: nat)
    requires y < z < 10_000
    ensures k < 4 && FourDigits(y)[..k] == FourDigits(z)[..k] && FourDigits(y)[k] < FourDigits(z)[k]
  {
    var y1, z1 := y / 10, z / 10;
    var y2, z2 := y1 / 10, z1 / 10;
    var y3, z3 := y2 / 10, z2 / 10;
    DigitOrder(y, z);
    if y1 == z1 {
      k := 3;
    } else {
      DigitOrder(y1, z1);
      if y2 == z2 {
        k := 2;
      } else {
        DigitOrder(y2, z2);
        k := if y3 == z3 then 1 else 0;
        if y3 < z3 { DigitOrder(y3, z3); }
      }
    }
  }

  /** The year and the month of the year written for a code. */
  function YearOf(c: Month): nat { if c == 0 then 0 else (c - 1) / 12 }
  function MonthOfYear(c: Month): nat { if c == 0 then 0 else (c - 1) % 12 + 1 }

  lemma EarlierYear(a: Month, b: Month)
    requires YearOf(a) < YearOf(b)
    ensures Less(MonthText(a), MonthText(b)) && !Less(MonthText(b), MonthText(a))
  {
    var k := FirstDifference(YearOf(a), YearOf(b));
    PrefixOfText(FourDigits(YearOf(a)), ['-', Digit(MonthOfYear(a) / 10), Digit(MonthOfYear(a))], k);
    PrefixOfText(FourDigits(YearOf(b)), ['-', Digit(MonthOfYear(b) / 10), Digit(MonthOfYear(b))], k);
    LessAt(MonthText(a), MonthText(b), k);
  }

  lemma EarlierMonth(a: Month, b: Month)
    requires YearOf(a) == YearOf(b) && MonthOfYear(a) < MonthOfYear(b)
    ensures Less(MonthText(a), MonthText(b)) && !Less(MonthText(b), MonthText(a))
  {
    var m, n := MonthOfYear(a), MonthOfYear(b);
    DigitOrder(m, n);
    var k := if m / 10 < n / 10 then 5 else 6;
    assert MonthText(a)[..k] == MonthText(b)[..k];
    LessAt(MonthText(a), MonthText(b), k);
  }

  lemma TextOrder(a: Month, b: Month)
    requires a < b
    ensures Less(MonthText(a), MonthText(b)) && !Less(MonthText(b), MonthText(a))
  {
    if YearOf(a) < YearOf(b) {
      EarlierYear(a, b);
    } else {
      EarlierMonth(a, b);
    }
  }

  lemma PrefixOfText(year: string, rest: string, k: nat)
    requires k < |year|
    ensures (year + rest)[..k] == year[..k] && (year + rest)[k] == year[k]
  {
  }

  lemma {:induction false} LessIrreflexive(a: string)
    ensures !Less(a, a)
  {
    if a != [] {
      LessIrreflexive(a[1..]);
    }
  }

  /** The comparison the copy makes is the calendar's. */
  lemma MonthOrder(a: Month, b: Month)
    ensures Less(MonthText(a), MonthText(b)) <==> a < b
    ensures MonthText(a) == MonthText(b) <==> a == b
  {
    LessIrreflexive(MonthText(a));
    if a < b {
      TextOrder(a, b);
    } else if b < a {
      TextOrder(b, a);
    }
  }

  /** month > watermark, on their texts. */
  predicate Newer(month: Month, watermark: Month)
    ensures Newer(month, watermark) <==> month > watermark
  {
    MonthOrder(watermark, month);
    Less(MonthText(watermark), MonthText(month))
  }

  // ---------------------------------------------------------------- the drop zone

  datatype NaturalKey = NaturalKey(store: int, sku: string, date: int)

  datatype PosRow = PosRow(key: NaturalKey, text: Landed)

  /** `place` is the file's place in the bucket's listing, which is sorted by key and hence by month. */
  datatype File = File(month: Month, place: int, rows: seq<PosRow>)

  function MonthOf(f: File): Month { f.month }
  function PlaceOf(f: File): int { f.place }

  /** The bucket's listing. */
  ghost predicate Listing(zone: seq<File>) {
    Ordered(zone, PlaceOf) && forall f, g :: f in zone && g in zone && f.place < g.place ==> f.month <= g.month
  }

  /** A new file takes its place. */
  function Insert(zone: seq<File>, f: File): seq<File> {
    if zone == [] then [f]
    else
      var n := |zone| - 1;
      if zone[n].place < f.place then zone + [f] else Insert(zone[..n], f) + [zone[n]]
  }

  ghost predicate Fits(zone: seq<File>, f: File) {
    f.month > 0 && forall g :: g in zone ==>
      g.place != f.place && (g.place < f.place ==> g.month <= f.month) && (f.place < g.place ==> f.month <= g.month)
  }

  lemma {:induction false} InsertMembers(zone: seq<File>, f: File, g: File)
    ensures g in Insert(zone, f) <==> g in zone || g == f
  {
    if zone != [] {
      var n := |zone| - 1;
      InsertMembers(zone[..n], f, g);
      assert zone == zone[..n] + [zone[n]];
    }
  }

  lemma {:induction false} InsertOrdered(zone: seq<File>, f: File)
    requires Ordered(zone, PlaceOf) && forall g :: g in zone ==> g.place != f.place
    ensures Ordered(Insert(zone, f), PlaceOf)
  {
    if zone != [] {
      var n := |zone| - 1;
      OrderedPrefix(zone);
      assert zone[n] in zone && forall g :: g in zone[..n] ==> g in zone;
      if zone[n].place > f.place {
        InsertOrdered(zone[..n], f);
        forall g | g in Insert(zone[..n], f)
          ensures g.place < zone[n].place
        {
          InsertMembers(zone[..n], f, g);
        }
        OrderedNext(Insert(zone[..n], f), zone[n]);
      } else {
        forall g | g in zone
          ensures g.place < f.place
        {
          assert g in zone[..n] || g == zone[n];
        }
        OrderedNext(zone, f);
      }
    }
  }

  lemma InsertKeepsListing(zone: seq<File>, f: File)
    requires Listing(zone) && Fits(zone, f)
    ensures Listing(Insert(zone, f)) && forall g :: g in Insert(zone, f) <==> g in zone || g == f
  {
    InsertOrdered(zone, f);
    forall g
      ensures g in Insert(zone, f) <==> g in zone || g == f
    {
      InsertMembers(zone, f, g);
    }
  }

  lemma OrderedPrefix(zone: seq<File>)
    requires zone != [] && Ordered(zone, PlaceOf)
    ensures forall g :: g in zone[..|zone| - 1] ==> g.place < zone[|zone| - 1].place
  {
    var n := |zone| - 1;
    assert forall i :: 0 <= i < n ==> PlaceOf(zone[i]) < PlaceOf(zone[n]);
  }

  lemma OrderedNext(zone: seq<File>, f: File)
    requires Ordered(zone, PlaceOf) && forall g :: g in zone ==> g.place < f.place
    ensures Ordered(zone + [f], PlaceOf)
  {
    assert forall i :: 0 <= i < |zone| ==> zone[i] in zone;
  }

  // ---------------------------------------------------------------- runs, one bucket call at a time

  /** A run in progress: the month folders it has listed and not opened yet, the last month of its
      list, the files of the open folder it has not appended yet, and how many appends there were
      when it began. */
  datatype Copying = Idle | Copying(months: seq<Month>, last: Month, files: seq<File>, begun: nat)

  /** `bronze` lists the appends; the i-th carries the i-th ingest stamp. */
  datatype State = State(zone: seq<File>, bronze: seq<File>, watermark: Month, run: Copying)

  /** Files may arrive, and a run may die, between any two calls. */
  datatype Event =
    | Arrive(file: File)
    | ListMonths
    | OpenFolder
    | Append
    | Advance
    | Die

  /** [m for m in sorted(months) if m > watermark] */
  function NewMonths(zone: seq<File>, watermark: Month): seq<Month> {
    if zone == [] then []
    else
      var n := |zone| - 1;
      var before := NewMonths(zone[..n], watermark);
      if zone[n].month > watermark && zone[n].month !in before then before + [zone[n].month] else before
  }

  ghost predicate Enabled(s: State, e: Event) {
    match e
    case Arrive(f) => Fits(s.zone, f)
    case ListMonths => s.run.Idle?
    case OpenFolder => s.run.Copying? && s.run.files == [] && s.run.months != []
    case Append => s.run.Copying? && s.run.files != []
    case Advance => s.run.Copying? && s.run.files == [] && s.run.months == []
    case Die => s.run.Copying?
  }

  ghost function Next(s: State, e: Event): State
    requires Enabled(s, e)
  {
    match e
    case Arrive(f) => s.(zone := Insert(s.zone, f))
    case ListMonths =>
      var months := NewMonths(s.zone, s.watermark);
      if months == [] then s else s.(run := Copying(months, months[|months| - 1], [], |s.bronze|))
    case OpenFolder =>
      s.(run := s.run.(months := s.run.months[1..], files := Where(s.zone, MonthOf, s.run.months[0])))
    case Append => s.(bronze := s.bronze + [s.run.files[0]], run := s.run.(files := s.run.files[1..]))
    case Advance => s.(watermark := s.run.last, run := Idle)
    case Die => s.(run := Idle)
  }

  ghost predicate Init(s: State) {
    s.zone == [] && s.bronze == [] && s.watermark == 0 && s.run.Idle?
  }

  ghost predicate IsRun(states: seq<State>, events: seq<Event>) {
    && |states| == |events| + 1 && Init(states[0])
    && forall i :: 0 <= i < |events| ==> Enabled(states[i], events[i]) && states[i + 1] == Next(states[i], events[i])
  }

  ghost predicate Increasing(months: seq<Month>) {
    forall i, j :: 0 <= i < j < |months| ==> months[i] < months[j]
  }

  ghost predicate HasMonth(zone: seq<File>, m: Month) {
    exists f :: f in zone && f.month == m
  }

  lemma LastIsTop(months: seq<Month>, m: Month)
    requires Increasing(months) && m in months
    ensures m <= months[|months| - 1]
  {
    var k :| 0 <= k < |months| && months[k] == m;
  }

  lemma IncreasingNext(months: seq<Month>, m: Month)
    requires Increasing(months) && forall k :: k in months ==> k < m
    ensures Increasing(months + [m])
  {
    assert forall i :: 0 <= i < |months| ==> months[i] in months;
  }

  lemma {:induction false} NewMonthsAre(zone: seq<File>, watermark: Month, m: Month)
    ensures m in NewMonths(zone, watermark) <==> m > watermark && HasMonth(zone, m)
  {
    if zone != [] {
      var n := |zone| - 1;
      NewMonthsAre(zone[..n], watermark, m);
      assert zone == zone[..n] + [zone[n]];
      if HasMonth(zone, m) {
        var f :| f in zone && f.month == m;
        assert f in zone[..n] || f == zone[n];
      }
      if HasMonth(zone[..n], m) {
        var f :| f in zone[..n] && f.month == m;
        assert f in zone;
      }
      assert zone[n] in zone;
    }
  }

  lemma ListingPrefix(zone: seq<File>)
    requires Listing(zone) && zone != []
    ensures Listing(zone[..|zone| - 1])
    ensures forall f :: f in zone[..|zone| - 1] ==> f.month <= zone[|zone| - 1].month
  {
    var n := |zone| - 1;
    OrderedPrefix(zone);
    assert zone[n] in zone && forall f :: f in zone[..n] ==> f in zone;
  }

  lemma {:induction false} NewMonthsIncrease(zone: seq<File>, watermark: Month)
    requires Listing(zone)
    ensures Increasing(NewMonths(zone, watermark))
  {
    if zone != [] {
      var n := |zone| - 1;
      ListingPrefix(zone);
      NewMonthsIncrease(zone[..n], watermark);
      var before := NewMonths(zone[..n], watermark);
      if zone[n].month > watermark && zone[n].month !in before {
        forall k | k in before
          ensures k < zone[n].month
        {
          NewMonthsAre(zone[..n], watermark, k);
          var f :| f in zone[..n] && f.month == k;
        }
        IncreasingNext(before, zone[n].month);
      }
    }
  }

  // ---------------------------------------------------------------- what every step keeps

  /** The months of a run lie past the watermark and up to its last; everything it holds or has
      appended is in the bucket. */
  ghost predicate Sound(s: State) {
    && Listing(s.zone)
    && (forall f :: f in s.bronze ==> f in s.zone)
    && (s.run.Copying? ==>
          && Increasing(s.run.months) && s.run.last > s.watermark && s.run.begun <= |s.bronze|
          && (forall m :: m in s.run.months ==> s.watermark < m <= s.run.last)
          && (forall f :: f in s.run.files ==> f in s.zone && s.watermark < f.month <= s.run.last))
  }

  lemma MonthsListed(s: State)
    requires Sound(s) && Enabled(s, ListMonths)
    ensures var months := NewMonths(s.zone, s.watermark);
      && Increasing(months)
      && (forall m: Month :: m in months <==> m > s.watermark && HasMonth(s.zone, m))
      && (forall m :: m in months ==> m <= months[|months| - 1])
  {
    var months := NewMonths(s.zone, s.watermark);
    NewMonthsIncrease(s.zone, s.watermark);
    forall m: Month
      ensures m in months <==> m > s.watermark && HasMonth(s.zone, m)
    {
      NewMonthsAre(s.zone, s.watermark, m);
    }
    forall m | m in months
      ensures m <= months[|months| - 1]
    {
      LastIsTop(months, m);
    }
  }

  lemma FolderHas(zone: seq<File>, m: Month)
    ensures forall f :: f in Where(zone, MonthOf, m) <==> f in zone && f.month == m
  {
    forall f {
      WhereMembers(zone, MonthOf, m, f);
    }
  }

  lemma SoundStep(s: State, e: Event)
    requires Sound(s) && Enabled(s, e)
    ensures Sound(Next(s, e))
  {
    match e
    case Arrive(f) => InsertKeepsListing(s.zone, f);
    case ListMonths =>
      MonthsListed(s);
      var months := NewMonths(s.zone, s.watermark);
      assert months != [] ==> months[|months| - 1] in months;
    case OpenFolder =>
      FolderHas(s.zone, s.run.months[0]);
      assert s.run.months[0] in s.run.months && forall k :: k in s.run.months[1..] ==> k in s.run.months;
    case Append => assert forall f :: f in s.run.files[1..] ==> f in s.run.files;
    case _ =>
  }

  lemma {:induction false} AlwaysSound(states: seq<State>, events: seq<Event>, n: nat)
    requires IsRun(states, events) && n < |states|
    ensures Sound(states[n])
  {
    if n > 0 {
      AlwaysSound(states, events, n - 1);
      SoundStep(states[n - 1], events[n - 1]);
    }
  }

  // ---------------------------------------------------------------- which files are missed

  /** The run in progress will not come to `f`'s folder again: it has opened it, or has not listed
      its month although it lies before the run's last one. */
  ghost predicate PassedBy(run: Copying, f: File) {
    run.Copying? && f.month <= run.last && f.month !in run.months
  }

  /** Behind the watermark and not in bronze. */
  ghost predicate Missed(s: State, f: File) {
    f in s.zone && f.month <= s.watermark && f !in s.bronze
  }

  /** The next run to end after event `i` and before `n` ends by moving the watermark. */
  ghost predicate RunFinishes(events: seq<Event>, i: nat, n: nat)
    requires n <= |events|
  {
    exists k :: i < k < n && events[k].Advance? && NoneEnds(events, i, k)
  }

  ghost predicate NoneEnds(events: seq<Event>, i: nat, k: nat)
    requires k <= |events|
  {
    forall j :: i < j < k ==> !events[j].Advance? && !events[j].Die?
  }

  /** A file is safe, is skipped by a run that has not ended yet, or is missed. */
  datatype Fate = Safe | AtRisk | Gone

  ghost predicate Follows(s: State, f: File, fate: Fate) {
    f in s.zone &&
    match fate
    case Safe =>
      && (f in s.bronze || f.month > s.watermark)
      && (s.run.Copying? ==> f in s.bronze || f in s.run.files || f.month in s.run.months || f.month > s.run.last)
    case AtRisk => f !in s.bronze && f.month > s.watermark && PassedBy(s.run, f) && f !in s.run.files
    case Gone =>
      && Missed(s, f)
      && (s.run.Copying? ==> f !in s.run.files && f.month !in s.run.months)
  }

  ghost function FateOnArrival(s: State, f: File): Fate {
    if f.month <= s.watermark then Gone else if PassedBy(s.run, f) then AtRisk else Safe
  }

  ghost function FateAfter(fate: Fate, e: Event): Fate {
    if fate.AtRisk? && e.Advance? then Gone else if fate.AtRisk? && e.Die? then Safe else fate
  }

  lemma ArrivalFollows(s: State, f: File)
    requires Sound(s) && Fits(s.zone, f)
    ensures Follows(Next(s, Arrive(f)), f, FateOnArrival(s, f))
  {
    InsertKeepsListing(s.zone, f);
  }

  lemma ListKeepsFate(s: State, f: File, fate: Fate)
    requires Sound(s) && Enabled(s, ListMonths) && Follows(s, f, fate)
    ensures Follows(Next(s, ListMonths), f, fate)
  {
    MonthsListed(s);
    assert HasMonth(s.zone, f.month);
  }

  lemma FateStep(s: State, e: Event, f: File, fate: Fate)
    requires Sound(s) && Enabled(s, e) && Follows(s, f, fate)
    ensures Follows(Next(s, e), f, FateAfter(fate, e))
  {
    match e
    case Arrive(g) => InsertKeepsListing(s.zone, g);
    case ListMonths => ListKeepsFate(s, f, fate);
    case OpenFolder =>
      FolderHas(s.zone, s.run.months[0]);
      OpenKeepsMonth(s.run.months, f.month);
    case Append => assert s.run.files == [s.run.files[0]] + s.run.files[1..];
    case _ =>
  }

  lemma OpenKeepsMonth(months: seq<Month>, m: Month)
    requires months != []
    ensures m in months <==> m == months[0] || m in months[1..]
  {
    assert months == [months[0]] + months[1..];
  }

  ghost function FateAt(states: seq<State>, events: seq<Event>, i: nat, n: nat): Fate
    requires |states| == |events| + 1 && i < n <= |events| && events[i].Arrive?
  {
    if n == i + 1 then FateOnArrival(states[i], events[i].file)
    else FateAfter(FateAt(states, events, i, n - 1), events[n - 1])
  }

  lemma {:induction false} FateHolds(states: seq<State>, events: seq<Event>, i: nat, n: nat)
    requires IsRun(states, events) && i < n <= |events| && events[i].Arrive?
    ensures Follows(states[n], events[i].file, FateAt(states, events, i, n))
  {
    AlwaysSound(states, events, n - 1);
    if n == i + 1 {
      ArrivalFollows(states[i], events[i].file);
    } else {
      FateHolds(states, events, i, n - 1);
      FateStep(states[n - 1], events[n - 1], events[i].file, FateAt(states, events, i, n - 1));
    }
  }

  lemma {:induction false} FateInWords(states: seq<State>, events: seq<Event>, i: nat, n: nat)
    requires |states| == |events| + 1 && i < n <= |events| && events[i].Arrive?
    ensures var s, f := states[i], events[i].file;
      && (FateAt(states, events, i, n).Gone? <==>
            f.month <= s.watermark || (PassedBy(s.run, f) && RunFinishes(events, i, n)))
      && (FateAt(states, events, i, n).AtRisk? <==>
            f.month > s.watermark && PassedBy(s.run, f) && NoneEnds(events, i, n))
  {
    if n > i + 1 {
      FateInWords(states, events, i, n - 1);
      FinishesOrNot(events, i, n);
    }
  }

  lemma FinishesOrNot(events: seq<Event>, i: nat, n: nat)
    requires i + 1 < n <= |events|
    ensures NoneEnds(events, i, n) <==> NoneEnds(events, i, n - 1) && !events[n - 1].Advance? && !events[n - 1].Die?
    ensures RunFinishes(events, i, n) <==>
      RunFinishes(events, i, n - 1) || (NoneEnds(events, i, n - 1) && events[n - 1].Advance?)
  {
    if RunFinishes(events, i, n) {
      var k :| i < k < n && events[k].Advance? && NoneEnds(events, i, k);
      assert k < n - 1 ==> RunFinishes(events, i, n - 1);
    }
  }

  /** The arrival at event `i` came too late: the watermark had passed its folder, or the run then in
      progress had, and that run finished. */
  ghost predicate TooLate(states: seq<State>, events: seq<Event>, i: nat, n: nat)
    requires |states| == |events| + 1 && i < n <= |events| && events[i].Arrive?
  {
    var s, f := states[i], events[i].file;
    f.month <= s.watermark || (PassedBy(s.run, f) && RunFinishes(events, i, n))
  }

  /** When no run is under way, a file is missed if and only if it arrived in a folder the
      watermark had passed, or in one that the run then in progress had passed and that run
      finished; if that run died, or the folder was still to come, it is not missed. */
  lemma MissedExactlyIfPassed(states: seq<State>, events: seq<Event>, i: nat, n: nat)
    requires IsRun(states, events) && i < n <= |events| && events[i].Arrive? && states[n].run.Idle?
    ensures Missed(states[n], events[i].file) <==> TooLate(states, events, i, n)
  {
    FateHolds(states, events, i, n);
    FateInWords(states, events, i, n);
  }

  lemma OneFile(f: File, next: File)
    requires f.month > 0 && f.place < next.place
    ensures NewMonths([f], 0) == [f.month] && Where([f], MonthOf, f.month) == [f] && Insert([f], next) == [f, next]
  {
    assert [f][..0] == [];
  }

  /** A run that misses a file: `early` arrives, a run lists and opens its folder, `late` arrives in
      the same folder, and the run finishes. The watermark was behind that folder all along. */
  lemma ArrivalDuringCopyIsMissed(early: File, late: File) returns (states: seq<State>, events: seq<Event>)
    requires 0 < early.month == late.month && early.place < late.place
    ensures events == [Arrive(early), ListMonths, OpenFolder, Arrive(late), Append, Advance]
    ensures IsRun(states, events) && late.month > states[3].watermark
    ensures TooLate(states, events, 3, 6) && Missed(states[6], late) && Complete(states[6])
  {
    var m, f := early.month, early;
    events := [Arrive(f), ListMonths, OpenFolder, Arrive(late), Append, Advance];
    states := [
      State([], [], 0, Idle), State([f], [], 0, Idle), State([f], [], 0, Copying([m], m, [], 0)),
      State([f], [], 0, Copying([], m, [f], 0)), State([f, late], [], 0, Copying([], m, [f], 0)),
      State([f, late], [f], 0, Copying([], m, [], 0)), State([f, late], [f], m, Idle)];
    OneFile(f, late);
    assert PassedBy(states[3].run, late);
    assert RunFinishes(events, 3, 6) by {
      assert events[5].Advance? && NoneEnds(events, 3, 5);
    }
  }

  /** ... and a missed file is never copied later. */
  lemma {:induction false} MissedForever(states: seq<State>, events: seq<Event>, i: nat, m: nat, n: nat)
    requires IsRun(states, events) && i < m <= n <= |events| && events[i].Arrive? && states[m].run.Idle?
    requires Missed(states[m], events[i].file)
    ensures FateAt(states, events, i, n).Gone? && Missed(states[n], events[i].file)
  {
    FateHolds(states, events, i, n);
    if m < n {
      MissedForever(states, events, i, m, n - 1);
    } else {
      FateInWords(states, events, i, n);
      MissedExactlyIfPassed(states, events, i, n);
    }
  }

  lemma {:induction false} EveryFileArrived(states: seq<State>, events: seq<Event>, n: nat, f: File) returns (i: nat)
    requires IsRun(states, events) && n < |states| && f in states[n].zone
    ensures i < n && events[i] == Arrive(f)
  {
    var s, e := states[n - 1], events[n - 1];
    if e.Arrive? {
      InsertMembers(s.zone, e.file, f);
    }
    if e == Arrive(f) {
      i := n - 1;
    } else {
      i := EveryFileArrived(states, events, n - 1, f);
    }
  }

  ghost predicate NoneMissed(s: State) {
    forall f :: f in s.zone ==> !Missed(s, f)
  }

  ghost predicate NoneTooLate(states: seq<State>, events: seq<Event>, n: nat)
    requires |states| == |events| + 1 && n <= |events|
  {
    forall i: nat :: i < n && events[i].Arrive? ==> !TooLate(states, events, i, n)
  }

  /** Nothing is missed if and only if no arrival came too late. */
  lemma NoneMissedExactlyIfNoneTooLate(states: seq<State>, events: seq<Event>, n: nat)
    requires IsRun(states, events) && n <= |events| && states[n].run.Idle?
    ensures NoneMissed(states[n]) <==> NoneTooLate(states, events, n)
  {
    forall i: nat | i < n && events[i].Arrive?
      ensures events[i].file in states[n].zone
      ensures Missed(states[n], events[i].file) <==> TooLate(states, events, i, n)
    {
      FateHolds(states, events, i, n);
      MissedExactlyIfPassed(states, events, i, n);
    }
    forall f | f in states[n].zone && NoneTooLate(states, events, n)
      ensures !Missed(states[n], f)
    {
      var i := EveryFileArrived(states, events, n, f);
    }
  }

  /** No run is under way and the watermark has reached every month in the bucket. */
  ghost predicate Complete(s: State) {
    s.run.Idle? && forall f :: f in s.zone ==> f.month <= s.watermark
  }
}
