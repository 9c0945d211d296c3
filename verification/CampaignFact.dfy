/** Campaign performance: the latest row per natural key in silver, and the fact table dbt keeps
    up to date by deleting and inserting only what is newer than its own maximum. */
module CampaignFact {
  import opened Tables

  /** (campaign, ad set, date) */
  datatype Key = Key(campaign: int, adSet: int, date: int)

  datatype Metrics = Metrics(impressions: nat, clicks: nat, conversions: nat, spend: int)

  datatype Row = Row(key: Key, updatedAt: int, metrics: Metrics)

  function KeyOf(r: Row): Key { r.key }
  function UpdatedAt(r: Row): int { r.updatedAt }

  /** 1970-01-01 */
  const EPOCH := 0

  // ---------------------------------------------------------------- silver

  /** The job, with the engine's numbering of bronze. */
  function Silver(bronze: seq<Row>, rn: seq<nat>): seq<Row>
    requires |rn| == |bronze|
  {
    Top(bronze, rn)
  }

  lemma SilverIsLatest(bronze: seq<Row>, rn: seq<nat>)
    requires RowNumbers(bronze, KeyOf, UpdatedAt, rn)
    ensures Latest(bronze, KeyOf, UpdatedAt, Silver(bronze, rn))
    // the gate's natural-key check compares these two counts
    ensures |Keys(Silver(bronze, rn), KeyOf)| == |Silver(bronze, rn)|
  {
    TopIsLatest(bronze, KeyOf, UpdatedAt, rn);
    DistinctCount(Top(bronze, rn), KeyOf);
  }

  // ---------------------------------------------------------------- one build

  /** coalesce(max(updated_at), epoch) */
  function Cutoff(fact: seq<Row>): int {
    if fact == [] then EPOCH
    else
      var n := |fact| - 1;
      if n == 0 then fact[0].updatedAt
      else var before := Cutoff(fact[..n]); if fact[n].updatedAt > before then fact[n].updatedAt else before
  }

  /** The rows an incremental build selects. */
  function Newer(staged: seq<Row>, cutoff: int): seq<Row> {
    if staged == [] then []
    else
      var n := |staged| - 1;
      var before := Newer(staged[..n], cutoff);
      if staged[n].updatedAt > cutoff then before + [staged[n]] else before
  }

  /** The rows the delete leaves. */
  function Without(fact: seq<Row>, delta: seq<Row>): seq<Row> {
    if fact == [] then []
    else
      var n := |fact| - 1;
      var before := Without(fact[..n], delta);
      if Find(delta, KeyOf, fact[n].key).Some? then before else before + [fact[n]]
  }

  /** A first build (or a full refresh) takes every staged row; later ones delete and insert. */
  function Build(fact: Option<seq<Row>>, staged: seq<Row>): seq<Row> {
    if fact.None? then staged
    else
      var delta := Newer(staged, Cutoff(fact.value));
      Without(fact.value, delta) + delta
  }

  lemma {:induction false} CutoffIsHighest(fact: seq<Row>)
    requires fact != []
    ensures forall r :: r in fact ==> r.updatedAt <= Cutoff(fact)
    ensures exists r :: r in fact && r.updatedAt == Cutoff(fact)
  {
    var n := |fact| - 1;
    assert fact == fact[..n] + [fact[n]];
    assert fact[n] in fact;
    if n > 0 {
      CutoffIsHighest(fact[..n]);
      var r :| r in fact[..n] && r.updatedAt == Cutoff(fact[..n]);
      assert r in fact;
    }
  }

  lemma CutoffOfSameRows(a: seq<Row>, b: seq<Row>)
    requires SameRows(a, b)
    ensures Cutoff(a) == Cutoff(b)
  {
    assert a != [] ==> a[0] in b;
    assert b != [] ==> b[0] in a;
    if a != [] && b != [] {
      CutoffIsHighest(a);
      CutoffIsHighest(b);
    }
  }

  lemma {:induction false} NewerMembers(staged: seq<Row>, cutoff: int, r: Row)
    ensures r in Newer(staged, cutoff) <==> r in staged && r.updatedAt > cutoff
  {
    if staged != [] {
      var n := |staged| - 1;
      NewerMembers(staged[..n], cutoff, r);
      assert staged == staged[..n] + [staged[n]];
    }
  }

  lemma {:induction false} WithoutMembers(fact: seq<Row>, delta: seq<Row>, r: Row)
    ensures r in Without(fact, delta) <==> r in fact && forall d :: d in delta ==> d.key != r.key
  {
    if fact != [] {
      var n := |fact| - 1;
      WithoutMembers(fact[..n], delta, r);
      assert fact == fact[..n] + [fact[n]];
      if Find(delta, KeyOf, fact[n].key).None? {
        assert forall d :: d in delta ==> KeyOf(d) != fact[n].key;
      }
    }
  }

  lemma {:induction false} NewerUnique(staged: seq<Row>, cutoff: int)
    requires UniqueKeys(staged, KeyOf)
    ensures UniqueKeys(Newer(staged, cutoff), KeyOf)
  {
    if staged != [] {
      var n := |staged| - 1;
      NewerUnique(staged[..n], cutoff);
      var before := Newer(staged[..n], cutoff);
      forall i | 0 <= i < |before|
        ensures KeyOf(before[i]) != KeyOf(staged[n])
      {
        NewerMembers(staged[..n], cutoff, before[i]);
        var j :| 0 <= j < n && staged[..n][j] == before[i];
        assert KeyOf(staged[j]) != KeyOf(staged[n]);
      }
    }
  }

  lemma {:induction false} WithoutUnique(fact: seq<Row>, delta: seq<Row>)
    requires UniqueKeys(fact, KeyOf)
    ensures UniqueKeys(Without(fact, delta), KeyOf)
  {
    if fact != [] {
      var n := |fact| - 1;
      WithoutUnique(fact[..n], delta);
      var before := Without(fact[..n], delta);
      forall i | 0 <= i < |before|
        ensures KeyOf(before[i]) != KeyOf(fact[n])
      {
        WithoutMembers(fact[..n], delta, before[i]);
        var j :| 0 <= j < n && fact[..n][j] == before[i];
        assert KeyOf(fact[j]) != KeyOf(fact[n]);
      }
    }
  }

  /** unique_key holds after every build. */
  lemma BuildKeepsKeysUnique(fact: Option<seq<Row>>, staged: seq<Row>)
    requires UniqueKeys(staged, KeyOf) && (fact.Some? ==> UniqueKeys(fact.value, KeyOf))
    ensures UniqueKeys(Build(fact, staged), KeyOf)
  {
    if fact.Some? {
      var delta := Newer(staged, Cutoff(fact.value));
      NewerUnique(staged, Cutoff(fact.value));
      WithoutUnique(fact.value, delta);
      var rest := Without(fact.value, delta);
      forall i, j | 0 <= i < |rest| && 0 <= j < |delta|
        ensures KeyOf(rest[i]) != KeyOf(delta[j])
      {
        WithoutMembers(fact.value, delta, rest[i]);
        assert delta[j] in delta;
      }
    }
  }

  /** Nothing staged above the cutoff has the key of `r`. */
  ghost predicate Untouched(staged: seq<Row>, cutoff: int, r: Row) {
    forall s :: s in staged && s.updatedAt > cutoff ==> s.key != r.key
  }

  lemma BuildMembers(fact: seq<Row>, staged: seq<Row>, r: Row)
    ensures r in Build(Some(fact), staged) <==>
      (r in staged && r.updatedAt > Cutoff(fact)) || (r in fact && Untouched(staged, Cutoff(fact), r))
  {
    var delta := Newer(staged, Cutoff(fact));
    NewerMembers(staged, Cutoff(fact), r);
    WithoutMembers(fact, delta, r);
    forall d
      ensures d in delta <==> d in staged && d.updatedAt > Cutoff(fact)
    {
      NewerMembers(staged, Cutoff(fact), d);
    }
  }

  /** `staged` differs from `fact` only where the build looks: it dropped no key, and whatever is
      not above the fact's maximum is already there. */
  ghost predicate Fresh(fact: seq<Row>, staged: seq<Row>) {
    && (forall r :: r in fact ==> Find(staged, KeyOf, r.key).Some?)
    && (forall s :: s in staged && s.updatedAt <= Cutoff(fact) ==> s in fact)
  }

  /** The exact condition: an incremental build ends with the rows a full refresh would give if
      and only if the staged rows were fresh. */
  lemma IncrementalIsFullRefresh(fact: seq<Row>, staged: seq<Row>)
    requires UniqueKeys(fact, KeyOf) && UniqueKeys(staged, KeyOf)
    ensures SameRows(Build(Some(fact), staged), Build(None, staged)) <==> Fresh(fact, staged)
    ensures Fresh(fact, staged) ==> multiset(Build(Some(fact), staged)) == multiset(Build(None, staged))
  {
    var built := Build(Some(fact), staged);
    forall r
      ensures r in built <==>
        (r in staged && r.updatedAt > Cutoff(fact)) || (r in fact && Untouched(staged, Cutoff(fact), r))
    {
      BuildMembers(fact, staged, r);
    }
    if Fresh(fact, staged) {
      FreshIsEnough(fact, staged, built);
      BuildKeepsKeysUnique(Some(fact), staged);
      SameBag(built, staged, KeyOf);
    }
    if SameRows(built, staged) {
      FreshIsNeeded(fact, staged, built);
    }
  }

  lemma OneRowPerKey(rows: seq<Row>, r: Row, s: Row)
    requires UniqueKeys(rows, KeyOf) && r in rows && s in rows && r.key == s.key
    ensures r == s
  {
    FindUnique(rows, KeyOf, r);
    FindUnique(rows, KeyOf, s);
  }

  lemma FreshIsEnough(fact: seq<Row>, staged: seq<Row>, built: seq<Row>)
    requires UniqueKeys(fact, KeyOf) && UniqueKeys(staged, KeyOf) && Fresh(fact, staged)
    requires forall r :: (r in built <==>
      (r in staged && r.updatedAt > Cutoff(fact)) || (r in fact && Untouched(staged, Cutoff(fact), r)))
    ensures SameRows(built, staged)
  {
    forall r | r in built
      ensures r in staged
    {
      if r !in staged || r.updatedAt <= Cutoff(fact) {
        OneRowPerKey(fact, r, Find(staged, KeyOf, r.key).value);
      }
    }
    forall s | s in staged && s.updatedAt <= Cutoff(fact)
      ensures s in built
    {
      OldRowIsUntouched(staged, Cutoff(fact), s);
    }
  }

  lemma OldRowIsUntouched(staged: seq<Row>, cutoff: int, s: Row)
    requires UniqueKeys(staged, KeyOf) && s in staged && s.updatedAt <= cutoff
    ensures Untouched(staged, cutoff, s)
  {
    forall d | d in staged && d.updatedAt > cutoff
      ensures d.key != s.key
    {
      if d.key == s.key { OneRowPerKey(staged, d, s); }
    }
  }

  lemma FreshIsNeeded(fact: seq<Row>, staged: seq<Row>, built: seq<Row>)
    requires SameRows(built, staged)
    requires forall r :: (r in built <==>
      (r in staged && r.updatedAt > Cutoff(fact)) || (r in fact && Untouched(staged, Cutoff(fact), r)))
    ensures Fresh(fact, staged)
  {
    forall r | r in fact
      ensures Find(staged, KeyOf, r.key).Some?
    {
      if Untouched(staged, Cutoff(fact), r) {
        assert r in built && KeyOf(r) == r.key;
      } else {
        var s :| s in staged && s.updatedAt > Cutoff(fact) && s.key == r.key;
        assert KeyOf(s) == r.key;
      }
    }
  }

  /** What an unfresh build leaves behind: only keys whose staged row is not above the maximum. */
  lemma OnlyOldRowsGoStale(fact: seq<Row>, staged: seq<Row>, s: Row)
    requires UniqueKeys(fact, KeyOf) && UniqueKeys(staged, KeyOf) && s in staged
    ensures s.updatedAt > Cutoff(fact) ==> Find(Build(Some(fact), staged), KeyOf, s.key) == Some(s)
    ensures s.updatedAt <= Cutoff(fact) ==> Find(Build(Some(fact), staged), KeyOf, s.key) == Find(fact, KeyOf, s.key)
  {
    var built, before := Build(Some(fact), staged), Find(fact, KeyOf, s.key);
    BuildKeepsKeysUnique(Some(fact), staged);
    if s.updatedAt > Cutoff(fact) {
      BuildMembers(fact, staged, s);
      FindUnique(built, KeyOf, s);
    } else {
      OldRowIsUntouched(staged, Cutoff(fact), s);
      if before.Some? {
        BuildMembers(fact, staged, before.value);
        FindUnique(built, KeyOf, before.value);
      } else {
        forall r | r in built
          ensures KeyOf(r) != s.key
        {
          BuildMembers(fact, staged, r);
        }
      }
    }
  }

  // ---------------------------------------------------------------- any number of builds

  /** The fact table after building from each staged table in turn. */
  function Builds(stages: seq<seq<Row>>): Option<seq<Row>> {
    if stages == [] then None
    else Some(Build(Builds(stages[..|stages| - 1]), stages[|stages| - 1]))
  }

  /** Each staged table was fresh against the one before it. */
  ghost predicate AlwaysFresh(stages: seq<seq<Row>>) {
    var n := |stages| - 1;
    n >= 1 ==> AlwaysFresh(stages[..n]) && Fresh(stages[n - 1], stages[n])
  }

  /** After every build the table held the rows of that build's staged table. */
  ghost predicate AlwaysCurrent(stages: seq<seq<Row>>) {
    stages != [] ==>
      var n := |stages| - 1;
      AlwaysCurrent(stages[..n]) && SameRows(Builds(stages).value, stages[n])
  }

  lemma FreshOfSameRows(a: seq<Row>, b: seq<Row>, staged: seq<Row>)
    requires SameRows(a, b)
    ensures Fresh(a, staged) <==> Fresh(b, staged)
  {
    CutoffOfSameRows(a, b);
  }

  lemma {:induction false} BuildsUnique(stages: seq<seq<Row>>)
    requires stages != [] && forall i :: 0 <= i < |stages| ==> UniqueKeys(stages[i], KeyOf)
    ensures UniqueKeys(Builds(stages).value, KeyOf)
  {
    var n := |stages| - 1;
    if n > 0 {
      BuildsUnique(stages[..n]);
    }
    BuildKeepsKeysUnique(Builds(stages[..n]), stages[n]);
  }

  lemma CurrentStep(stages: seq<seq<Row>>)
    requires |stages| > 1 && forall i :: 0 <= i < |stages| ==> UniqueKeys(stages[i], KeyOf)
    requires SameRows(Builds(stages[..|stages| - 1]).value, stages[|stages| - 2])
    ensures SameRows(Builds(stages).value, stages[|stages| - 1]) <==> Fresh(stages[|stages| - 2], stages[|stages| - 1])
  {
    var n := |stages| - 1;
    var table := Builds(stages[..n]).value;
    BuildsUnique(stages[..n]);
    IncrementalIsFullRefresh(table, stages[n]);
    FreshOfSameRows(table, stages[n - 1], stages[n]);
  }

  /** Over any sequence of builds: the table is a full refresh after every single build if and
      only if every staged table was fresh against the one before it. */
  lemma {:induction false} CurrentExactlyIfFresh(stages: seq<seq<Row>>)
    requires forall i :: 0 <= i < |stages| ==> UniqueKeys(stages[i], KeyOf)
    ensures AlwaysCurrent(stages) <==> AlwaysFresh(stages)
  {
    var n := |stages| - 1;
    if n == 0 {
      assert Builds(stages[..0]) == None;
    } else if n > 0 {
      CurrentExactlyIfFresh(stages[..n]);
      if AlwaysCurrent(stages[..n]) {
        CurrentStep(stages);
      }
    }
  }

  // ---------------------------------------------------------------- where fresh stages come from

  /** If every row a sync lands is stamped above everything landed before, silver stays fresh. */
  lemma LaterStampsAreFresh(bronze: seq<Row>, batch: seq<Row>, rn: seq<nat>, rn': seq<nat>)
    requires RowNumbers(bronze, KeyOf, UpdatedAt, rn) && RowNumbers(bronze + batch, KeyOf, UpdatedAt, rn')
    requires StampsDecide(bronze + batch, KeyOf, UpdatedAt)
    requires bronze == [] ==> forall b :: b in batch ==> b.updatedAt > EPOCH
    requires forall b, r :: b in batch && r in bronze ==> b.updatedAt > r.updatedAt
    ensures Fresh(Silver(bronze, rn), Silver(bronze + batch, rn'))
  {
    var before, after := Silver(bronze, rn), Silver(bronze + batch, rn');
    SilverIsLatest(bronze, rn);
    SilverIsLatest(bronze + batch, rn');
    assert bronze != [] ==> bronze[0] in bronze && Dominated(bronze[0], KeyOf, UpdatedAt, before);
    forall r | r in before
      ensures Find(after, KeyOf, r.key).Some?
    {
      KeysStay(bronze, batch, after, r);
    }
    forall s | s in after && s.updatedAt <= Cutoff(before) && bronze != []
      ensures s in before
    {
      OldRowsStay(bronze, batch, before, after, s);
    }
    assert bronze == [] ==> bronze + batch == batch;
  }

  lemma KeysStay(bronze: seq<Row>, batch: seq<Row>, after: seq<Row>, r: Row)
    requires Latest(bronze + batch, KeyOf, UpdatedAt, after) && r in bronze
    ensures Find(after, KeyOf, r.key).Some?
  {
    assert r in bronze + batch && Dominated(r, KeyOf, UpdatedAt, after);
    var i :| 0 <= i < |after| && KeyOf(after[i]) == KeyOf(r) && UpdatedAt(after[i]) >= UpdatedAt(r);
    assert after[i] in after;
  }

  lemma OldRowsStay(bronze: seq<Row>, batch: seq<Row>, before: seq<Row>, after: seq<Row>, s: Row)
    requires Latest(bronze, KeyOf, UpdatedAt, before) && Latest(bronze + batch, KeyOf, UpdatedAt, after)
    requires StampsDecide(bronze + batch, KeyOf, UpdatedAt)
    requires forall b, r :: b in batch && r in bronze ==> b.updatedAt > r.updatedAt
    requires before != [] && s in after && s.updatedAt <= Cutoff(before)
    ensures s in before
  {
    CutoffIsHighest(before);
    var top :| top in before && top.updatedAt == Cutoff(before);
    assert top in bronze;
    assert s in bronze;
    assert Dominated(s, KeyOf, UpdatedAt, before);
    var i :| 0 <= i < |before| && KeyOf(before[i]) == KeyOf(s) && UpdatedAt(before[i]) >= UpdatedAt(s);
    var p := before[i];
    assert p in before && p in bronze + batch && Dominated(p, KeyOf, UpdatedAt, after);
    var j :| 0 <= j < |after| && KeyOf(after[j]) == KeyOf(p) && UpdatedAt(after[j]) >= UpdatedAt(p);
    OneRowPerKey(after, after[j], s);
  }

  const TODAY := Row(Key(1, 11, 20), 2100, Metrics(10, 1, 0, 500))
  const EARLIER := Row(Key(1, 11, 10), 1100, Metrics(10, 1, 0, 500))
  const RESTATED := Row(Key(1, 11, 10), 2050, Metrics(10, 2, 1, 500))

  lemma TopOfNext(rows: seq<Row>, rn: seq<nat>, r: Row, k: nat)
    requires |rn| == |rows|
    ensures Top(rows + [r], rn + [k]) == if k == 1 then Top(rows, rn) + [r] else Top(rows, rn)
  {
    assert (rows + [r])[..|rows|] == rows && (rn + [k])[..|rn|] == rn;
  }

  lemma SilverBefore(rn: seq<nat>)
    requires rn == [1, 1]
    ensures RowNumbers([EARLIER, TODAY], KeyOf, UpdatedAt, rn) && Silver([EARLIER, TODAY], rn) == [EARLIER, TODAY]
  {
    TopOfNext([], [], EARLIER, 1);
    TopOfNext([EARLIER], [1], TODAY, 1);
    assert [] + [EARLIER] == [EARLIER] && [] + [1] == [1];
    assert [EARLIER] + [TODAY] == [EARLIER, TODAY] && [1] + [1] == rn;
  }

  lemma SilverAfter(rows: seq<Row>, rn: seq<nat>)
    requires rows == [EARLIER, TODAY, RESTATED] && rn == [2, 1, 1]
    ensures Silver(rows, rn) == [TODAY, RESTATED]
  {
    assert rows == [] + [EARLIER] + [TODAY] + [RESTATED] && rn == [] + [2] + [1] + [1];
    TopOfNext([], [], EARLIER, 2);
    TopOfNext([] + [EARLIER], [] + [2], TODAY, 1);
    TopOfNext([] + [EARLIER] + [TODAY], [] + [2] + [1], RESTATED, 1);
  }

  lemma NumbersAfter(rows: seq<Row>, rn: seq<nat>)
    requires rows == [EARLIER, TODAY, RESTATED] && rn == [2, 1, 1]
    ensures RowNumbers(rows, KeyOf, UpdatedAt, rn)
  {
    assert HasPredecessor(rows, KeyOf, rn, 0) by { assert KeyOf(rows[2]) == KeyOf(rows[0]) && rn[2] + 1 == rn[0]; }
  }

  /** The store stamps the day's own rows with the next midnight, so a correction stamped with the
      time of the request is below the fact's maximum and a build passes over it. */
  lemma RestatementBehindTheMaximum() returns (bronze: seq<Row>, landed: Row, rn: seq<nat>, rn': seq<nat>)
    ensures RowNumbers(bronze, KeyOf, UpdatedAt, rn) && RowNumbers(bronze + [landed], KeyOf, UpdatedAt, rn')
    ensures landed in Silver(bronze + [landed], rn')
    ensures landed !in Build(Some(Silver(bronze, rn)), Silver(bronze + [landed], rn'))
  {
    bronze, landed, rn, rn' := [EARLIER, TODAY], RESTATED, [1, 1], [2, 1, 1];
    SilverBefore(rn);
    assert bronze + [landed] == [EARLIER, TODAY, RESTATED];
    SilverAfter(bronze + [landed], rn');
    NumbersAfter(bronze + [landed], rn');
    CutoffIsHighest([EARLIER, TODAY]);
    assert TODAY in [EARLIER, TODAY];
    BuildMembers([EARLIER, TODAY], [TODAY, RESTATED], RESTATED);
  }

  // ---------------------------------------------------------------- the table

  /** The materialised fct_campaign_performance. */
  class FactTable {
    var rows: Option<seq<Row>>

    constructor ()
      ensures rows.None?
    {
      rows := None;
    }

    /** One dbt build. */
    method Refresh(staged: seq<Row>)
      requires UniqueKeys(staged, KeyOf) && (rows.Some? ==> UniqueKeys(rows.value, KeyOf))
      modifies this
      ensures rows == Some(Build(old(rows), staged)) && UniqueKeys(rows.value, KeyOf)
      ensures SameRows(rows.value, staged) <==> old(rows).None? || Fresh(old(rows).value, staged)
    {
      BuildKeepsKeysUnique(rows, staged);
      if rows.None? {
        rows := Some(staged);
      } else {
        IncrementalIsFullRefresh(rows.value, staged);
        var delta := Newer(staged, Cutoff(rows.value));
        rows := Some(Without(rows.value, delta));
        rows := Some(rows.value + delta);
      }
    }
  }
}
