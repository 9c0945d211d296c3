/** The inventory table the silver job builds from what the copy landed: a function of the drop zone
    alone, whatever runs died. */
module PosInventory {
  import opened Tables
  import opened PosText
  import opened FlatFiles
  import opened FlatFileOrder

  datatype BronzeRow = BronzeRow(row: PosRow, month: Month, at: int)

  function KeyOf(b: BronzeRow): NaturalKey { b.row.key }
  function IngestedAt(b: BronzeRow): int { b.at }

  function RowsOf(f: File, at: int): (rows: seq<BronzeRow>)
    ensures |rows| == |f.rows| && forall i :: 0 <= i < |rows| ==> rows[i] == BronzeRow(f.rows[i], f.month, at)
  {
    seq(|f.rows|, i requires 0 <= i < |f.rows| => BronzeRow(f.rows[i], f.month, at))
  }

  function BronzeRows(bronze: seq<File>): seq<BronzeRow> {
    if bronze == [] then [] else BronzeRows(bronze[..|bronze| - 1]) + RowsOf(bronze[|bronze| - 1], |bronze| - 1)
  }

  ghost predicate Holds(bronze: seq<File>, b: BronzeRow) {
    0 <= b.at < |bronze| && b.row in bronze[b.at].rows && b.month == bronze[b.at].month
  }

  lemma {:induction false} BronzeRowsHold(bronze: seq<File>, b: BronzeRow)
    ensures b in BronzeRows(bronze) <==> Holds(bronze, b)
  {
    if bronze != [] {
      var n := |bronze| - 1;
      BronzeRowsHold(bronze[..n], b);
      var last := RowsOf(bronze[n], n);
      if b.at == n && Holds(bronze, b) {
        var i :| 0 <= i < |bronze[n].rows| && bronze[n].rows[i] == b.row;
        assert last[i] == b;
      }
    }
  }

  datatype SilverRow = SilverRow(key: NaturalKey, quantity: Option<int>, cost: Option<int>, month: Month)

  function SilverKey(r: SilverRow): NaturalKey { r.key }

  function Clean(r: PosRow, month: Month): SilverRow {
    SilverRow(r.key, CleanQuantity(r.text), CleanCost(r.text), month)
  }

  /** The job, with the engine's numbering of the bronze rows. */
  function Silver(bronze: seq<File>, rn: seq<nat>): seq<SilverRow>
    requires |rn| == |BronzeRows(bronze)|
  {
    Cleaned(Top(BronzeRows(bronze), rn))
  }

  /** `rn` numbers the rows of bronze by natural key, latest ingest first. */
  ghost predicate Numbers(bronze: seq<File>, rn: seq<nat>) {
    RowNumbers(BronzeRows(bronze), KeyOf, IngestedAt, rn)
  }

  function Cleaned(kept: seq<BronzeRow>): (rows: seq<SilverRow>)
    ensures |rows| == |kept| && forall i :: 0 <= i < |rows| ==> rows[i] == Clean(kept[i].row, kept[i].month)
  {
    seq(|kept|, i requires 0 <= i < |kept| => Clean(kept[i].row, kept[i].month))
  }

  /** `r` is a row of the last file, in listing order, that has its natural key. */
  ghost predicate Winner(zone: seq<File>, f: File, r: PosRow) {
    f in zone && r in f.rows && forall g, q :: g in zone && q in g.rows && f.place < g.place ==> q.key != r.key
  }

  /** Duplicates within a file are exact: a till that retried its upload. */
  ghost predicate ExactDuplicates(zone: seq<File>) {
    forall f, r, q :: f in zone && r in f.rows && q in f.rows && r.key == q.key ==> r == q
  }

  lemma KeptIsLatest(rows: seq<BronzeRow>, kept: seq<BronzeRow>, b: BronzeRow, c: BronzeRow)
    requires Latest(rows, KeyOf, IngestedAt, kept) && b in kept && c in rows && KeyOf(b) == KeyOf(c)
    ensures c.at <= b.at
  {
    assert Dominated(c, KeyOf, IngestedAt, kept);
    var i :| 0 <= i < |kept| && KeyOf(kept[i]) == KeyOf(c) && IngestedAt(kept[i]) >= IngestedAt(c);
    FindUnique(kept, KeyOf, b);
    FindUnique(kept, KeyOf, kept[i]);
  }

  lemma KeptIsWinner(s: State, kept: seq<BronzeRow>, b: BronzeRow)
    requires CopiedOnce(s) && Latest(BronzeRows(s.bronze), KeyOf, IngestedAt, kept) && b in kept
    ensures Holds(s.bronze, b) && Winner(s.zone, s.bronze[b.at], b.row)
  {
    BronzeRowsHold(s.bronze, b);
    var f := s.bronze[b.at];
    forall g, q | g in s.zone && q in g.rows && f.place < g.place
      ensures q.key != b.row.key
    {
      var c := BronzeRow(q, g.month, LastAt(s.bronze, g));
      assert Sequenced(s.bronze, f, g);
      BronzeRowsHold(s.bronze, c);
      if q.key == b.row.key {
        KeptIsLatest(BronzeRows(s.bronze), kept, b, c);
      }
    }
  }

  lemma WinnerIsKept(s: State, kept: seq<BronzeRow>, f: File, r: PosRow) returns (b: BronzeRow)
    requires CopiedOnce(s) && Latest(BronzeRows(s.bronze), KeyOf, IngestedAt, kept)
    requires ExactDuplicates(s.zone) && Winner(s.zone, f, r)
    ensures b in kept && b.row == r && b.month == f.month
  {
    var rows, c := BronzeRows(s.bronze), BronzeRow(r, f.month, LastAt(s.bronze, f));
    BronzeRowsHold(s.bronze, c);
    assert Dominated(c, KeyOf, IngestedAt, kept);
    var i :| 0 <= i < |kept| && KeyOf(kept[i]) == KeyOf(c) && IngestedAt(kept[i]) >= IngestedAt(c);
    b := kept[i];
    KeptIsWinner(s, kept, b);
    SamePlace(s.zone, f, s.bronze[b.at]);
  }

  lemma SamePlace(zone: seq<File>, f: File, g: File)
    requires Ordered(zone, PlaceOf) && f in zone && g in zone && !(f.place < g.place) && !(g.place < f.place)
    ensures f == g
  {
    var i :| 0 <= i < |zone| && zone[i] == f;
    var j :| 0 <= j < |zone| && zone[j] == g;
    assert i < j ==> PlaceOf(zone[i]) < PlaceOf(zone[j]);
    assert j < i ==> PlaceOf(zone[j]) < PlaceOf(zone[i]);
  }

  ghost predicate LastFileHas(zone: seq<File>, c: SilverRow) {
    exists f, r :: Winner(zone, f, r) && c == Clean(r, f.month)
  }

  lemma ShownIsLast(s: State, kept: seq<BronzeRow>, i: nat)
    requires CopiedOnce(s) && Latest(BronzeRows(s.bronze), KeyOf, IngestedAt, kept) && i < |kept|
    ensures LastFileHas(s.zone, Cleaned(kept)[i])
  {
    KeptIsWinner(s, kept, kept[i]);
    assert Winner(s.zone, s.bronze[kept[i].at], kept[i].row);
  }

  lemma LastIsShown(s: State, kept: seq<BronzeRow>, f: File, r: PosRow)
    requires CopiedOnce(s) && Latest(BronzeRows(s.bronze), KeyOf, IngestedAt, kept)
    requires ExactDuplicates(s.zone) && Winner(s.zone, f, r)
    ensures Clean(r, f.month) in Cleaned(kept)
  {
    var b := WinnerIsKept(s, kept, f, r);
    var i :| 0 <= i < |kept| && kept[i] == b;
    assert Cleaned(kept)[i] == Clean(r, f.month);
  }

  lemma CleanedUnique(kept: seq<BronzeRow>)
    requires UniqueKeys(kept, KeyOf)
    ensures UniqueKeys(Cleaned(kept), SilverKey)
  {
    assert forall i :: 0 <= i < |kept| ==> SilverKey(Cleaned(kept)[i]) == KeyOf(kept[i]);
  }

  /** Silver holds, per natural key, the cleaned row of the last file that has the key: it is a
      function of the drop zone alone. */
  lemma SilverShowsLastFile(s: State, rn: seq<nat>, c: SilverRow)
    requires CopiedOnce(s) && ExactDuplicates(s.zone) && Numbers(s.bronze, rn)
    ensures c in Silver(s.bronze, rn) <==> LastFileHas(s.zone, c)
  {
    var kept := Top(BronzeRows(s.bronze), rn);
    TopIsLatest(BronzeRows(s.bronze), KeyOf, IngestedAt, rn);
    if c in Cleaned(kept) {
      var i :| 0 <= i < |kept| && Cleaned(kept)[i] == c;
      ShownIsLast(s, kept, i);
    }
    if LastFileHas(s.zone, c) {
      var f, r :| Winner(s.zone, f, r) && c == Clean(r, f.month);
      LastIsShown(s, kept, f, r);
    }
  }

  /** What a till wrote reaches silver: the last file having a natural key gives the one row of that
      key, in its own month, with the quantity and the cost it was written with, each exactly if it
      is there, not negative and in range. */
  lemma WrittenRowIsShown(
      s: State, rn: seq<nat>, f: File, r: PosRow, stage: nat, q: int, form: Form, cents: int)
    returns (c: SilverRow)
    requires CopiedOnce(s) && ExactDuplicates(s.zone) && Numbers(s.bronze, rn)
    requires Winner(s.zone, f, r) && r.text == Write(stage, q, form, cents)
    ensures Find(Silver(s.bronze, rn), SilverKey, r.key) == Some(c) && c.month == f.month
    ensures c.quantity == Some(q) <==> !form.Blank? && 0 <= q <= MAX_INT
    ensures form.Blank? ==> c.quantity.None?
    ensures c.cost == Some(cents) <==> 0 <= cents < DECIMAL_LIMIT
  {
    c := Clean(r, f.month);
    RoundTripExactlyInRange(stage, q, form, cents);
    EveryStageComesBack(stage, q, form, cents);
    SilverShowsLastFile(s, rn, c);
    SilverUnique(s.bronze, rn);
    FindUnique(Silver(s.bronze, rn), SilverKey, c);
  }

  /** ... and no row is in silver that no file had. */
  lemma ShownRowWasWritten(s: State, rn: seq<nat>, c: SilverRow) returns (f: File, r: PosRow)
    requires CopiedOnce(s) && ExactDuplicates(s.zone) && Numbers(s.bronze, rn) && c in Silver(s.bronze, rn)
    ensures Winner(s.zone, f, r) && c.key == r.key && c.month == f.month
    ensures c.quantity == CleanQuantity(r.text) && c.cost == CleanCost(r.text)
  {
    SilverShowsLastFile(s, rn, c);
    f, r :| Winner(s.zone, f, r) && c == Clean(r, f.month);
  }

  /** End to end, over every history that ends complete with no arrival too late. */
  lemma FileReachesSilver(
      states: seq<State>, events: seq<Event>, n: nat, rn: seq<nat>, f: File, r: PosRow,
      stage: nat, q: int, form: Form, cents: int)
    returns (c: SilverRow)
    requires IsRun(states, events) && n <= |events| && Complete(states[n]) && NoneTooLate(states, events, n)
    requires ExactDuplicates(states[n].zone) && Numbers(states[n].bronze, rn)
    requires Winner(states[n].zone, f, r) && r.text == Write(stage, q, form, cents)
    requires 0 <= q <= MAX_INT && 0 <= cents < DECIMAL_LIMIT
    ensures Find(Silver(states[n].bronze, rn), SilverKey, r.key) == Some(c) && c.month == f.month
    ensures c.quantity == (if form.Blank? then None else Some(q)) && c.cost == Some(cents)
  {
    CopiedOnceExactlyIfNoneTooLate(states, events, n);
    c := WrittenRowIsShown(states[n], rn, f, r, stage, q, form, cents);
  }

  lemma SilverUnique(bronze: seq<File>, rn: seq<nat>)
    requires Numbers(bronze, rn)
    ensures UniqueKeys(Silver(bronze, rn), SilverKey)
  {
    TopIsLatest(BronzeRows(bronze), KeyOf, IngestedAt, rn);
    CleanedUnique(Top(BronzeRows(bronze), rn));
  }

  lemma SameZoneSameSilver(s: State, t: State, rn: seq<nat>, rn': seq<nat>)
    requires CopiedOnce(s) && CopiedOnce(t) && s.zone == t.zone && ExactDuplicates(s.zone)
    requires Numbers(s.bronze, rn) && Numbers(t.bronze, rn')
    ensures multiset(Silver(s.bronze, rn)) == multiset(Silver(t.bronze, rn'))
  {
    forall c
      ensures c in Silver(s.bronze, rn) <==> c in Silver(t.bronze, rn')
    {
      SilverShowsLastFile(s, rn, c);
      SilverShowsLastFile(t, rn', c);
    }
    SilverUnique(s.bronze, rn);
    SilverUnique(t.bronze, rn');
    SameBag(Silver(s.bronze, rn), Silver(t.bronze, rn'), SilverKey);
  }

  /** Retries are invisible: two histories that end complete with the same bucket, no arrival having
      come too late in either, end with the same silver rows, however many runs died. */
  lemma RetriesAreInvisible(
      states: seq<State>, events: seq<Event>, n: nat, rn: seq<nat>,
      states': seq<State>, events': seq<Event>, n': nat, rn': seq<nat>)
    requires IsRun(states, events) && n <= |events| && Complete(states[n]) && NoneTooLate(states, events, n)
    requires IsRun(states', events') && n' <= |events'| && Complete(states'[n']) && NoneTooLate(states', events', n')
    requires states[n].zone == states'[n'].zone && ExactDuplicates(states[n].zone)
    requires Numbers(states[n].bronze, rn) && Numbers(states'[n'].bronze, rn')
    ensures multiset(Silver(states[n].bronze, rn)) == multiset(Silver(states'[n'].bronze, rn'))
  {
    CopiedOnceExactlyIfNoneTooLate(states, events, n);
    CopiedOnceExactlyIfNoneTooLate(states', events', n');
    SameZoneSameSilver(states[n], states'[n'], rn, rn');
  }
}
