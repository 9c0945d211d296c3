/** The flat-file pipeline as it updates bronze and its watermark: list the months, list and copy
    each folder, move the watermark; tied call by call to the events of FlatFiles. */
module DropzoneCopy {
  import opened Tables
  import opened FlatFiles

  // ---------------------------------------------------------------- listing the months

  lemma {:induction false} HasLeast(s: set<Month>) returns (least: Month)
    requires s != {}
    ensures least in s && forall n :: n in s ==> least <= n
    decreases |s|
  {
    var m :| m in s;
    var rest := s - {m};
    assert forall n :: n in s ==> n == m || n in rest;
    least := m;
    if rest != {} {
      var k := HasLeast(rest);
      least := if m <= k then m else k;
    }
  }

  /** sorted(months) */
  method Sorted(s: set<Month>) returns (months: seq<Month>)
    ensures Increasing(months) && forall m: Month :: m in months <==> m in s
  {
    months := [];
    var rest := s;
    while rest != {}
      invariant Increasing(months)
      invariant forall m: Month :: m in s <==> m in months || m in rest
      invariant forall m, n :: m in months && n in rest ==> m < n
      decreases |rest|
    {
      ghost var least := HasLeast(rest);
      var m :| m in rest && forall n :: n in rest ==> m <= n;
      IncreasingNext(months, m);
      months, rest := months + [m], rest - {m};
    }
  }

  /** The months that have a file, filled into a set and sorted. */
  method ListMonthFolders(zone: seq<File>) returns (months: seq<Month>)
    ensures Increasing(months) && forall m: Month :: m in months <==> HasMonth(zone, m)
  {
    var found: set<Month> := {};
    for i := 0 to |zone|
      invariant forall m: Month :: m in found <==> exists k :: 0 <= k < i && zone[k].month == m
    {
      found := found + {zone[i].month};
    }
    months := Sorted(found);
    forall m: Month
      ensures HasMonth(zone, m) <==> exists k :: 0 <= k < |zone| && zone[k].month == m
    {
      if HasMonth(zone, m) {
        var f :| f in zone && f.month == m;
        var k :| 0 <= k < |zone| && zone[k] == f;
      }
    }
  }

  /** [m for m in months if m > watermark], comparing strings. */
  function Since(months: seq<Month>, watermark: Month): seq<Month> {
    if months == [] then []
    else
      var n := |months| - 1;
      var before := Since(months[..n], watermark);
      if Newer(months[n], watermark) then before + [months[n]] else before
  }

  lemma {:induction false} SinceIs(months: seq<Month>, watermark: Month)
    requires Increasing(months)
    ensures Increasing(Since(months, watermark))
    ensures forall m: Month :: m in Since(months, watermark) <==> m in months && m > watermark
  {
    if months != [] {
      var n := |months| - 1;
      SinceIs(months[..n], watermark);
      assert months == months[..n] + [months[n]];
      forall k | k in Since(months[..n], watermark)
        ensures k < months[n]
      {
        var i :| 0 <= i < n && months[..n][i] == k;
        assert months[i] < months[n];
      }
      IncreasingNext(Since(months[..n], watermark), months[n]);
    }
  }

  function Code(m: Month): int { m }

  /** The list comprehension over the sorted folders is what the event takes. */
  lemma SinceIsNewMonths(zone: seq<File>, folders: seq<Month>, watermark: Month)
    requires Listing(zone) && Increasing(folders) && forall m: Month :: m in folders <==> HasMonth(zone, m)
    ensures Since(folders, watermark) == NewMonths(zone, watermark)
  {
    SinceIs(folders, watermark);
    NewMonthsIncrease(zone, watermark);
    forall m: Month
      ensures m in Since(folders, watermark) <==> m in NewMonths(zone, watermark)
    {
      NewMonthsAre(zone, watermark, m);
    }
    OrderedAgree(Since(folders, watermark), NewMonths(zone, watermark), Code);
  }

  // ---------------------------------------------------------------- arrivals

  /** Files that can arrive one after the other. */
  ghost predicate FitAll(zone: seq<File>, files: seq<File>)
    decreases |files|
  {
    files != [] ==> Fits(zone, files[0]) && FitAll(Insert(zone, files[0]), files[1..])
  }

  function InsertAll(zone: seq<File>, files: seq<File>): seq<File>
    decreases |files|
  {
    if files == [] then zone else InsertAll(Insert(zone, files[0]), files[1..])
  }

  ghost predicate FitBatches(zone: seq<File>, batches: seq<seq<File>>)
    decreases |batches|
  {
    batches != [] ==> FitAll(zone, batches[0]) && FitBatches(InsertAll(zone, batches[0]), batches[1..])
  }

  /** What has happened, and the states it went through. */
  datatype History = Begun | Happened(before: History, event: Event, state: State)

  ghost function Now(h: History): State {
    match h
    case Begun => State([], [], 0, Idle)
    case Happened(_, _, s) => s
  }

  ghost predicate Legal(h: History) {
    h.Happened? ==> Legal(h.before) && Enabled(Now(h.before), h.event) && h.state == Next(Now(h.before), h.event)
  }

  ghost function StatesOf(h: History): (states: seq<State>)
    ensures |states| == |EventsOf(h)| + 1 && states[|states| - 1] == Now(h)
  {
    match h
    case Begun => [Now(h)]
    case Happened(before, _, s) => StatesOf(before) + [s]
  }

  ghost function EventsOf(h: History): seq<Event> {
    match h
    case Begun => []
    case Happened(before, e, _) => EventsOf(before) + [e]
  }

  lemma {:induction false} LegalIsRun(h: History)
    requires Legal(h)
    ensures IsRun(StatesOf(h), EventsOf(h))
  {
    if h.Happened? {
      LegalIsRun(h.before);
      var states, events := StatesOf(h.before), EventsOf(h.before);
      forall i | 0 <= i < |events| + 1
        ensures Enabled(StatesOf(h)[i], EventsOf(h)[i])
        ensures StatesOf(h)[i + 1] == Next(StatesOf(h)[i], EventsOf(h)[i])
      {
        if i < |events| {
          assert Enabled(states[i], events[i]) && states[i + 1] == Next(states[i], events[i]);
        }
      }
    }
  }

  /** How many runs began. */
  ghost function Listings(h: History): nat {
    match h
    case Begun => 0
    case Happened(before, e, _) => Listings(before) + if e.ListMonths? then 1 else 0
  }

  lemma LegalIsSound(h: History)
    requires Legal(h)
    ensures Sound(Now(h))
  {
    LegalIsRun(h);
    AlwaysSound(StatesOf(h), EventsOf(h), |EventsOf(h)|);
  }

  /** `h` goes on from `past`. */
  ghost predicate GoesOn(past: History, h: History) {
    h == past || (h.Happened? && GoesOn(past, h.before))
  }

  function RowCount(files: seq<File>): nat {
    if files == [] then 0 else RowCount(files[..|files| - 1]) + |files[|files| - 1].rows|
  }

  lemma RowCountOfNext(files: seq<File>, f: File)
    ensures RowCount(files + [f]) == RowCount(files) + |f.rows|
  {
    assert (files + [f])[..|files|] == files;
  }

  // ---------------------------------------------------------------- the pipeline

  /** The bucket, bronze.pos_inventory_snapshots as its appends, and the control table's row. The
      ghost fields are the run in progress and everything that happened. */
  class Copy {
    var zone: seq<File>
    var bronze: seq<File>
    var watermark: Month
    ghost var run: Copying
    ghost var history: History

    ghost function View(): State
      reads this
    {
      State(zone, bronze, watermark, run)
    }

    ghost predicate Valid()
      reads this
    {
      Legal(history) && Now(history) == View()
    }

    constructor ()
      ensures Valid() && zone == [] && bronze == [] && watermark == 0 && run.Idle? && history == Begun
    {
      zone, bronze, watermark, run := [], [], 0, Idle;
      history := Begun;
    }

    /** `history` goes on from `past`, with `runs` the number of runs begun in all. */
    ghost predicate Extends(past: History, runs: nat)
      reads this
    {
      GoesOn(past, history) && Listings(history) == runs
    }

    /** Writes down what has just happened. */
    ghost method Record(e: Event, past: History, runs: nat)
      requires Legal(history) && Enabled(Now(history), e) && View() == Next(Now(history), e) && Extends(past, runs)
      modifies `history
      ensures Valid() && Extends(past, if e.ListMonths? then runs + 1 else runs) && EndsWith(e)
    {
      history := Happened(history, e, View());
    }

    ghost predicate EndsWith(e: Event)
      reads this
    {
      history.Happened? && history.event == e
    }

    /** Somebody puts files into the bucket. */
    method Receive(files: seq<File>, ghost past: History, ghost runs: nat)
      requires Valid() && FitAll(zone, files) && Extends(past, runs)
      modifies `zone, `history
      ensures Valid() && zone == InsertAll(old(zone), files) && Extends(past, runs)
    {
      var rest := files;
      while rest != []
        invariant Valid() && FitAll(zone, rest) && InsertAll(zone, rest) == InsertAll(old(zone), files)
        invariant Extends(past, runs)
        decreases |rest|
      {
        var f := rest[0];
        zone, rest := Insert(zone, f), rest[1..];
        Record(Arrive(f), past, runs);
      }
    }

    /** What arrives before the next call to the bucket. */
    method TakeArrivals(batches: seq<seq<File>>, ghost past: History, ghost runs: nat) returns (rest: seq<seq<File>>)
      requires Valid() && FitBatches(zone, batches) && Extends(past, runs)
      modifies `zone, `history
      ensures Valid() && FitBatches(zone, rest) && Extends(past, runs)
      ensures batches == [] ==> rest == [] && zone == old(zone)
      ensures |rest| <= if batches == [] then 0 else |batches| - 1
    {
      rest := batches;
      if batches != [] {
        Receive(batches[0], past, runs);
        rest := batches[1..];
      }
    }

    /** Lists the month folders past the watermark. */
    method BeginRun(ghost past: History, ghost runs: nat) returns (months: seq<Month>)
      requires Valid() && run.Idle? && Extends(past, runs)
      modifies `run, `history
      ensures Valid() && months == NewMonths(zone, watermark)
      ensures run == if months == [] then Idle else Copying(months, months[|months| - 1], [], |bronze|)
      ensures Extends(past, runs + 1) && EndsWith(ListMonths)
    {
      LegalIsSound(history);
      var folders := ListMonthFolders(zone);
      months := Since(folders, watermark);
      SinceIsNewMonths(zone, folders, watermark);
      if months != [] {
        run := Copying(months, months[|months| - 1], [], |bronze|);
      }
      Record(ListMonths, past, runs);
    }

    /** Lists one folder's files. */
    method Open(month: Month, ghost past: History, ghost runs: nat) returns (files: seq<File>)
      requires Valid() && run.Copying? && run.files == [] && run.months != [] && run.months[0] == month
      requires Extends(past, runs)
      modifies `run, `history
      ensures Valid() && Extends(past, runs) && files == Where(zone, MonthOf, month)
      ensures run == old(run).(months := old(run).months[1..], files := files)
    {
      files := Where(zone, MonthOf, month);
      run := run.(months := run.months[1..], files := files);
      Record(OpenFolder, past, runs);
    }

    /** write_bronze of one file; an empty frame counts as an append of no rows. */
    method WriteBronze(f: File, ghost past: History, ghost runs: nat) returns (rows: nat)
      requires Valid() && run.Copying? && run.files != [] && run.files[0] == f && Extends(past, runs)
      modifies `bronze, `run, `history
      ensures Valid() && Extends(past, runs) && bronze == old(bronze) + [f] && rows == |f.rows|
      ensures run == old(run).(files := old(run).files[1..])
    {
      bronze, run := bronze + [f], run.(files := run.files[1..]);
      Record(Append, past, runs);
      rows := |f.rows|;
    }

    method SetWatermark(month: Month, ghost past: History, ghost runs: nat)
      requires Valid() && run.Copying? && run.files == [] && run.months == [] && run.last == month
      requires Extends(past, runs)
      modifies `watermark, `run, `history
      ensures Valid() && Extends(past, runs) && watermark == month && run.Idle? && EndsWith(Advance)
    {
      watermark, run := month, Idle;
      Record(Advance, past, runs);
    }

    ghost method Crash(past: History, runs: nat)
      requires Valid() && run.Copying? && Extends(past, runs)
      modifies `run, `history
      ensures Valid() && Extends(past, runs) && run.Idle? && EndsWith(Die)
    {
      run := Idle;
      Record(Die, past, runs);
    }

    /** Appends the next file of the open folder, unless the process dies first: `left` counts the
        calls it has yet to live. */
    method CopyFile(files: seq<File>, left: Option<nat>, ghost past: History, ghost runs: nat)
      returns (alive: bool, left': Option<nat>, rows: nat)
      requires Valid() && run.Copying? && run.files == files && files != [] && Extends(past, runs)
      modifies `bronze, `run, `history
      ensures Valid() && Extends(past, runs) && (left'.Some? <==> left.Some?)
      ensures alive ==> run == old(run).(files := files[1..]) && bronze == old(bronze) + [files[0]]
      ensures alive ==> rows == |files[0].rows|
      ensures !alive ==> run.Idle? && EndsWith(Die) && left.Some? && bronze == old(bronze)
    {
      if left == Some(0) {
        Crash(past, runs);
        return false, left, 0;
      }
      rows := WriteBronze(files[0], past, runs);
      alive, left' := true, if left.Some? then Some(left.value - 1) else None;
    }

    /** Appends the open folder's files; `done` are the files appended. */
    method CopyFolder(folder: seq<File>, left: Option<nat>, ghost past: History, ghost runs: nat)
      returns (alive: bool, left': Option<nat>, rows: nat, ghost done: seq<File>)
      requires Valid() && run.Copying? && run.files == folder && Extends(past, runs)
      modifies `bronze, `run, `history
      ensures Valid() && Extends(past, runs) && (left'.Some? <==> left.Some?)
      ensures bronze == old(bronze) + done && rows == RowCount(done)
      ensures alive ==> run == old(run).(files := []) && done == folder
      ensures !alive ==> run.Idle? && EndsWith(Die) && left.Some?
    {
      var files := folder;
      alive, left', rows, done := true, left, 0, [];
      while files != []
        invariant Valid() && run == old(run).(files := files) && Extends(past, runs)
        invariant done + files == folder && bronze == old(bronze) + done && rows == RowCount(done)
        invariant alive && (left'.Some? <==> left.Some?)
        decreases |files|
      {
        var written;
        alive, left', written := CopyFile(files, left', past, runs);
        if !alive {
          return;
        }
        RowCountOfNext(done, files[0]);
        rows, done, files := rows + written, done + [files[0]], files[1..];
      }
    }

    /** Lists the next month's folder, unless the process dies first, and appends its files. */
    method CopyMonth(
        months: seq<Month>, arrivals: seq<seq<File>>, left: Option<nat>, ghost past: History, ghost runs: nat)
      returns (alive: bool, rest: seq<seq<File>>, left': Option<nat>, rows: nat, ghost done: seq<File>)
      requires Valid() && run.Copying? && run.months == months && months != [] && run.files == []
      requires FitBatches(zone, arrivals) && Extends(past, runs)
      modifies `zone, `bronze, `run, `history
      ensures Valid() && Extends(past, runs) && (left'.Some? <==> left.Some?)
      ensures bronze == old(bronze) + done && rows == RowCount(done)
      ensures FitBatches(zone, rest) && (arrivals == [] ==> rest == [] && zone == old(zone))
      ensures alive ==> run == old(run).(months := months[1..])
      ensures !alive ==> run.Idle? && EndsWith(Die) && left.Some?
    {
      rest := TakeArrivals(arrivals, past, runs);
      if left == Some(0) {
        Crash(past, runs);
        return false, rest, left, 0, [];
      }
      var folder := Open(months[0], past, runs);
      var remaining := if left.Some? then Some(left.value - 1) else None;
      alive, left', rows, done := CopyFolder(folder, remaining, past, runs);
    }

    /** The loop over the new months. */
    method CopyMonths(
        months: seq<Month>, arrivals: seq<seq<File>>, dies: Option<nat>, ghost past: History, ghost runs: nat)
      returns (alive: bool, rest: seq<seq<File>>, totalRows: nat, ghost done: seq<File>)
      requires Valid() && run.Copying? && run.months == months && run.files == [] && FitBatches(zone, arrivals)
      requires Extends(past, runs)
      modifies `zone, `bronze, `run, `history
      ensures Valid() && Extends(past, runs)
      ensures bronze == old(bronze) + done && totalRows == RowCount(done)
      ensures FitBatches(zone, rest) && (arrivals == [] ==> rest == [] && zone == old(zone))
      ensures alive ==> run == old(run).(months := [])
      ensures !alive ==> run.Idle? && EndsWith(Die) && dies.Some?
    {
      var pending, left := months, dies;
      alive, rest, totalRows, done := true, arrivals, 0, [];
      while pending != []
        invariant Valid() && run == old(run).(months := pending) && Extends(past, runs)
        invariant bronze == old(bronze) + done && totalRows == RowCount(done)
        invariant FitBatches(zone, rest) && (arrivals == [] ==> rest == [] && zone == old(zone))
        invariant alive && (left.Some? <==> dies.Some?)
        decreases |pending|
      {
        var rows;
        ghost var more;
        alive, rest, left, rows, more := CopyMonth(pending, rest, left, past, runs);
        RowCountOfConcat(done, more);
        assert old(bronze) + done + more == old(bronze) + (done + more);
        pending, totalRows, done := pending[1..], totalRows + rows, done + more;
        if !alive {
          return;
        }
      }
    }

    /** One run. `arrivals` are the files that arrive before each call to the bucket and before
        set_watermark; with `dies` the process dies after so many folder listings and appends, or
        before set_watermark. `done` are the files appended. */
    method Run(arrivals: seq<seq<File>>, dies: Option<nat>)
      returns (finished: bool, totalRows: nat, ghost done: seq<File>)
      requires Valid() && run.Idle? && FitBatches(zone, arrivals)
      modifies this
      ensures Valid() && run.Idle?
      ensures GoesOn(old(history), history) && Listings(history) == Listings(old(history)) + 1
      ensures bronze == old(bronze) + done && totalRows == RowCount(done)
      // a run that finishes moves the watermark last, one that dies leaves it alone
      ensures finished ==> EndsWith(if watermark == old(watermark) then ListMonths else Advance)
      ensures !finished ==> dies.Some? && EndsWith(Die) && watermark == old(watermark)
      // with nothing arriving after the first listing, a finished run has covered the bucket
      ensures finished && |arrivals| <= 1 ==> Complete(View())
    {
      ghost var past, runs := history, Listings(history);
      done := [];
      var rest := TakeArrivals(arrivals, past, runs);
      var months := BeginRun(past, runs);
      LegalIsSound(history);
      CoversBucket(zone, watermark, months);
      if months == [] {
        return true, 0, [];
      }
      var last, alive := months[|months| - 1], true;
      alive, rest, totalRows, done := CopyMonths(months, rest, dies, past, runs + 1);
      if !alive {
        return false, totalRows, done;
      }
      rest := TakeArrivals(rest, past, runs + 1);
      if dies.Some? {
        Crash(past, runs + 1);
        return false, totalRows, done;
      }
      SetWatermark(last, past, runs + 1);
      finished := true;
    }
  }

  lemma CoversBucket(zone: seq<File>, watermark: Month, months: seq<Month>)
    requires Listing(zone) && months == NewMonths(zone, watermark)
    ensures months == [] ==> forall f :: f in zone ==> f.month <= watermark
    ensures months != [] ==>
      months[|months| - 1] > watermark && forall f :: f in zone ==> f.month <= months[|months| - 1]
  {
    NewMonthsIncrease(zone, watermark);
    if months != [] {
      assert months[|months| - 1] in months;
      NewMonthsAre(zone, watermark, months[|months| - 1]);
    }
    forall f | f in zone
      ensures f.month <= if months == [] then watermark else months[|months| - 1]
    {
      NewMonthsAre(zone, watermark, f.month);
      assert HasMonth(zone, f.month);
      if f.month > watermark {
        LastIsTop(months, f.month);
      } else if months != [] {
        NewMonthsAre(zone, watermark, months[|months| - 1]);
      }
    }
  }

  lemma {:induction false} RowCountOfConcat(a: seq<File>, b: seq<File>)
    ensures RowCount(a + b) == RowCount(a) + RowCount(b)
  {
    if b == [] {
      assert a + b == a;
    } else {
      var n := |b| - 1;
      RowCountOfConcat(a, b[..n]);
      assert (a + b)[..|a| + n] == a + b[..n];
    }
  }
}
