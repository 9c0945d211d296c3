/** Customer identity resolution, the map from merged ids, and the remap of orders through it. */
module Identity {
  import opened Tables

  datatype Customer = Customer(id: int, email: Option<string>, details: string)
  datatype BronzeRow = BronzeRow(customer: Customer, ingestedAt: int)

  /** A row of silver.customers. */
  datatype Resolved = Resolved(id: int, email: Option<string>, details: string, sourceIds: seq<int>, mergedCount: nat)

  datatype MapRow = MapRow(original: int, canonical: int)

  function BronzeId(r: BronzeRow): int { r.customer.id }
  function IngestedAt(r: BronzeRow): int { r.ingestedAt }
  function CustomerId(c: Customer): int { c.id }
  function ResolvedId(r: Resolved): int { r.id }
  function ResolvedEmail(r: Resolved): Option<string> { r.email }
  function Original(m: MapRow): int { m.original }

  // ---------------------------------------------------------------- lower(trim(email))

  function TrimLeft(s: string): string {
    if s != [] && s[0] == ' ' then TrimLeft(s[1..]) else s
  }

  function TrimRight(s: string): string {
    if s != [] && s[|s| - 1] == ' ' then TrimRight(s[..|s| - 1]) else s
  }

  function LowerChar(c: char): char {
    if 'A' <= c <= 'Z' then c - 'A' + 'a' else c
  }

  function Lower(s: string): (t: string)
    ensures |t| == |s| && forall i :: 0 <= i < |s| ==> t[i] == LowerChar(s[i])
  {
    seq(|s|, i requires 0 <= i < |s| => LowerChar(s[i]))
  }

  function NormalEmail(s: string): string { Lower(TrimLeft(TrimRight(s))) }

  /** Null stays null, and the window then treats all nulls as one partition. */
  function Normalised(c: Customer): Option<string> {
    match c.email
    case None => None
    case Some(s) => Some(NormalEmail(s))
  }

  // ---------------------------------------------------------------- when two emails are one

  function Spaces(n: nat): string { seq(n, _ => ' ') }

  /** One ASCII letter in either case, or one and the same character. */
  ghost predicate SameLetter(c: char, d: char) {
    c == d || ('A' <= c <= 'Z' && d as int == c as int + 32) || ('A' <= d <= 'Z' && c as int == d as int + 32)
  }

  ghost predicate SameUpToCase(s: string, t: string) {
    |s| == |t| && forall i :: 0 <= i < |s| ==> SameLetter(s[i], t[i])
  }

  ghost predicate Around(s: string, core: string, left: nat, right: nat) {
    s == Spaces(left) + core + Spaces(right)
  }

  /** The emails differ in outer spaces and in the case of letters only. */
  ghost predicate SameEmail(s: string, t: string) {
    exists x, y, a, b, c, d :: Around(s, x, a, b) && Around(t, y, c, d) && SameUpToCase(x, y)
  }

  ghost predicate NoOuterSpace(s: string) {
    s != [] ==> s[0] != ' ' && s[|s| - 1] != ' '
  }

  lemma LowerMeetsExactlyUpToCase(s: string, t: string)
    ensures Lower(s) == Lower(t) <==> SameUpToCase(s, t)
  {
    if Lower(s) == Lower(t) {
      forall i | 0 <= i < |s|
        ensures SameLetter(s[i], t[i])
      {
        assert Lower(s)[i] == Lower(t)[i];
      }
    }
  }

  lemma {:induction false} TrimRightIs(s: string) returns (n: nat)
    ensures s == TrimRight(s) + Spaces(n) && (TrimRight(s) != [] ==> TrimRight(s)[|TrimRight(s)| - 1] != ' ')
  {
    if s != [] && s[|s| - 1] == ' ' {
      var m := TrimRightIs(s[..|s| - 1]);
      n := m + 1;
      assert Spaces(n) == Spaces(m) + [' '];
      assert s == TrimRight(s) + Spaces(m) + [' '];
    } else {
      n := 0;
      assert s == s + Spaces(0);
    }
  }

  lemma {:induction false} TrimLeftIs(s: string) returns (n: nat)
    ensures s == Spaces(n) + TrimLeft(s) && (TrimLeft(s) != [] ==> TrimLeft(s)[0] != ' ')
  {
    if s != [] && s[0] == ' ' {
      var m := TrimLeftIs(s[1..]);
      n := m + 1;
      assert Spaces(n) == [' '] + Spaces(m);
      assert s == [' '] + Spaces(m) + TrimLeft(s);
    } else {
      n := 0;
      assert s == Spaces(0) + s;
    }
  }

  /** Trimming takes the outer spaces and nothing else. */
  lemma TrimIs(s: string) returns (left: nat, right: nat)
    ensures var core := TrimLeft(TrimRight(s)); Around(s, core, left, right) && NoOuterSpace(core)
  {
    right := TrimRightIs(s);
    left := TrimLeftIs(TrimRight(s));
    var core := TrimLeft(TrimRight(s));
    assert core != [] ==> core[|core| - 1] == TrimRight(s)[|TrimRight(s)| - 1];
  }

  lemma {:induction false} TrimLeftDrops(n: nat, s: string)
    ensures TrimLeft(Spaces(n) + s) == TrimLeft(s)
  {
    if n == 0 {
      assert Spaces(0) + s == s;
    } else {
      var t := Spaces(n) + s;
      TrimLeftDrops(n - 1, s);
      assert t[1..] == Spaces(n - 1) + s && t[0] == ' ';
      assert TrimLeft(t) == TrimLeft(t[1..]);
    }
  }

  lemma {:induction false} TrimRightDrops(s: string, n: nat)
    ensures TrimRight(s + Spaces(n)) == TrimRight(s)
  {
    if n == 0 {
      assert s + Spaces(0) == s;
    } else {
      var t := s + Spaces(n);
      TrimRightDrops(s, n - 1);
      assert t[..|t| - 1] == s + Spaces(n - 1) && t[|t| - 1] == ' ';
      assert TrimRight(t) == TrimRight(t[..|t| - 1]);
    }
  }

  lemma TrimRightKeeps(s: string)
    requires s == [] || s[|s| - 1] != ' '
    ensures TrimRight(s) == s
  {
  }

  lemma TrimLeftKeeps(s: string)
    requires s == [] || s[0] != ' '
    ensures TrimLeft(s) == s
  {
  }

  lemma TrimOfSpaces(n: nat)
    ensures TrimLeft(TrimRight(Spaces(n))) == []
  {
    TrimRightDrops("", n);
    assert "" + Spaces(n) == Spaces(n);
  }

  /** What is between the outer spaces is what trimming leaves. */
  lemma TrimOfAround(s: string, core: string, left: nat, right: nat)
    requires Around(s, core, left, right) && NoOuterSpace(core)
    ensures TrimLeft(TrimRight(s)) == core
  {
    if core == [] {
      assert s == Spaces(left + right);
      TrimOfSpaces(left + right);
    } else {
      TrimRightDrops(Spaces(left) + core, right);
      TrimRightKeeps(Spaces(left) + core);
      TrimLeftDrops(left, core);
      TrimLeftKeeps(core);
    }
  }

  lemma CasesShareSpaces(x: string, y: string, p: string, left: nat, right: nat) returns (q: string)
    requires SameUpToCase(x, y) && Around(x, p, left, right) && NoOuterSpace(p)
    ensures Around(y, q, left, right) && NoOuterSpace(q) && SameUpToCase(p, q)
  {
    q := y[left..left + |p|];
    forall i | 0 <= i < |p|
      ensures SameLetter(p[i], q[i])
    {
      assert x[left + i] == p[i] && y[left + i] == q[i];
    }
    forall i | 0 <= i < |y|
      ensures y[i] == (Spaces(left) + q + Spaces(right))[i]
    {
      assert SameLetter(x[i], y[i]);
    }
  }

  lemma AroundTwice(s: string, x: string, a: nat, b: nat, p: string, c: nat, d: nat)
    requires Around(s, x, a, b) && Around(x, p, c, d)
    ensures Around(s, p, a + c, d + b)
  {
    assert Spaces(a + c) == Spaces(a) + Spaces(c) && Spaces(d + b) == Spaces(d) + Spaces(b);
  }

  lemma SameEmailNormalisesAlike(s: string, x: string, a: nat, b: nat, t: string, y: string, c: nat, d: nat)
    requires Around(s, x, a, b) && Around(t, y, c, d) && SameUpToCase(x, y)
    ensures NormalEmail(s) == NormalEmail(t)
  {
    var l, r := TrimIs(x);
    var p := TrimLeft(TrimRight(x));
    var q := CasesShareSpaces(x, y, p, l, r);
    AroundTwice(s, x, a, b, p, l, r);
    AroundTwice(t, y, c, d, q, l, r);
    TrimOfAround(s, p, a + l, r + b);
    TrimOfAround(t, q, c + l, r + d);
    LowerMeetsExactlyUpToCase(p, q);
  }

  lemma NormalAlikeIsSameEmail(s: string, t: string)
    requires NormalEmail(s) == NormalEmail(t)
    ensures SameEmail(s, t)
  {
    var a, b := TrimIs(s);
    var c, d := TrimIs(t);
    LowerMeetsExactlyUpToCase(TrimLeft(TrimRight(s)), TrimLeft(TrimRight(t)));
  }

  /** What an email normalises to has neither outer spaces nor capitals. */
  lemma NormalHasNoSpaceOrCapital(s: string)
    ensures NoOuterSpace(NormalEmail(s)) && forall i :: 0 <= i < |NormalEmail(s)| ==> !('A' <= NormalEmail(s)[i] <= 'Z')
  {
    var a, b := TrimIs(s);
  }

  /** Two emails normalise alike if and only if they differ in outer spaces and in case only. */
  lemma NormalExactlyIfSameEmail(s: string, t: string)
    ensures NormalEmail(s) == NormalEmail(t) <==> SameEmail(s, t)
  {
    if NormalEmail(s) == NormalEmail(t) {
      NormalAlikeIsSameEmail(s, t);
    }
    if SameEmail(s, t) {
      var x, y, a, b, c, d :| Around(s, x, a, b) && Around(t, y, c, d) && SameUpToCase(x, y);
      SameEmailNormalisesAlike(s, x, a, b, t, y, c, d);
    }
  }

  // ---------------------------------------------------------------- resolution

  /** first(customer_id) over (partition by normalised email order by customer_id) */
  function Canonical(rows: seq<Customer>, email: Option<string>): Option<int> {
    if rows == [] then None
    else
      var n := |rows| - 1;
      var before := Canonical(rows[..n], email);
      if Normalised(rows[n]) == email && (before.None? || rows[n].id < before.value) then Some(rows[n].id) else before
  }

  /** Keeps a strictly ascending list ascending and free of repeats: sort_array(collect_set(...)). */
  function Insert(ids: seq<int>, x: int): seq<int> {
    if ids == [] then [x]
    else if x < ids[0] then [x] + ids
    else if x == ids[0] then ids
    else [ids[0]] + Insert(ids[1..], x)
  }

  function SourceIds(rows: seq<Customer>, all: seq<Customer>, canonical: int): seq<int> {
    if rows == [] then []
    else
      var n := |rows| - 1;
      var before := SourceIds(rows[..n], all, canonical);
      if Canonical(all, Normalised(rows[n])) == Some(canonical) then Insert(before, rows[n].id) else before
  }

  function ResolveRows(rows: seq<Customer>, all: seq<Customer>): seq<Resolved> {
    if rows == [] then []
    else
      var n := |rows| - 1;
      var c := rows[n];
      ResolveRows(rows[..n], all) +
      if Canonical(all, Normalised(c)) == Some(c.id) then
        var ids := SourceIds(all, all, c.id);
        [Resolved(c.id, Normalised(c), c.details, ids, |ids|)]
      else []
  }

  /** The second stage: one row per identity. */
  function Resolve(rows: seq<Customer>): seq<Resolved> {
    ResolveRows(rows, rows)
  }

  function CustomersOf(rows: seq<BronzeRow>): (cs: seq<Customer>)
    ensures |cs| == |rows| && forall i :: 0 <= i < |cs| ==> cs[i] == rows[i].customer
  {
    seq(|rows|, i requires 0 <= i < |rows| => rows[i].customer)
  }

  /** The job: latest row per id, then resolution. */
  function SilverCustomers(bronze: seq<BronzeRow>, rn: seq<nat>): seq<Resolved>
    requires |rn| == |bronze|
  {
    Resolve(CustomersOf(Top(bronze, rn)))
  }

  // ---------------------------------------------------------------- facts about the parts

  lemma {:induction false} CanonicalIsLeast(rows: seq<Customer>, email: Option<string>)
    ensures forall c :: c in rows && Normalised(c) == email ==>
      Canonical(rows, email).Some? && Canonical(rows, email).value <= c.id
    ensures Canonical(rows, email).Some? ==>
      exists c :: c in rows && Normalised(c) == email && c.id == Canonical(rows, email).value
  {
    if rows != [] {
      var n := |rows| - 1;
      CanonicalIsLeast(rows[..n], email);
      assert rows == rows[..n] + [rows[n]];
    }
  }

  ghost predicate Ascending(ids: seq<int>) {
    forall i, j :: 0 <= i < j < |ids| ==> ids[i] < ids[j]
  }

  lemma {:induction false} InsertKeepsAscending(ids: seq<int>, x: int)
    requires Ascending(ids)
    ensures Ascending(Insert(ids, x))
    ensures forall y :: y in Insert(ids, x) <==> y in ids || y == x
  {
    if ids != [] && x > ids[0] {
      InsertKeepsAscending(ids[1..], x);
      var rest := Insert(ids[1..], x);
      forall i | 0 <= i < |rest|
        ensures ids[0] < rest[i]
      {
        assert rest[i] in rest;
      }
      assert ids == [ids[0]] + ids[1..];
    }
  }

  lemma {:induction false} SourceIdsMembers(rows: seq<Customer>, all: seq<Customer>, canonical: int)
    ensures Ascending(SourceIds(rows, all, canonical))
    ensures forall i :: i in SourceIds(rows, all, canonical) <==>
      exists c :: c in rows && c.id == i && Canonical(all, Normalised(c)) == Some(canonical)
  {
    if rows != [] {
      var n := |rows| - 1;
      SourceIdsMembers(rows[..n], all, canonical);
      InsertKeepsAscending(SourceIds(rows[..n], all, canonical), rows[n].id);
      assert rows == rows[..n] + [rows[n]];
    }
  }

  lemma {:induction false} ResolvedMembers(rows: seq<Customer>, all: seq<Customer>, r: Resolved)
    ensures r in ResolveRows(rows, all) <==>
      exists c :: c in rows && Canonical(all, Normalised(c)) == Some(c.id) && r.id == c.id
        && r.email == Normalised(c) && r.details == c.details
        && r.sourceIds == SourceIds(all, all, c.id) && r.mergedCount == |r.sourceIds|
  {
    if rows != [] {
      var n := |rows| - 1;
      ResolvedMembers(rows[..n], all, r);
      assert rows == rows[..n] + [rows[n]];
    }
  }

  lemma {:induction false} ResolvedUnique(rows: seq<Customer>, all: seq<Customer>)
    requires UniqueKeys(rows, CustomerId)
    ensures UniqueKeys(ResolveRows(rows, all), ResolvedId)
  {
    if rows != [] {
      var n := |rows| - 1;
      ResolvedUnique(rows[..n], all);
      var before := ResolveRows(rows[..n], all);
      forall i | 0 <= i < |before|
        ensures ResolvedId(before[i]) != rows[n].id
      {
        ResolvedMembers(rows[..n], all, before[i]);
        assert before[i] in before;
        var c :| c in rows[..n] && c.id == before[i].id;
        var k :| 0 <= k < n && rows[..n][k] == c;
        assert CustomerId(rows[k]) != CustomerId(rows[n]);
      }
    }
  }

  // ---------------------------------------------------------------- a partition of the ids

  /** The identity that took `c` in: its id list holds `c`, starts with the identity's own id, and
      holds exactly the customers with the same normalised email. */
  lemma IdentityOf(rows: seq<Customer>, c: Customer) returns (r: Resolved)
    requires UniqueKeys(rows, CustomerId) && c in rows
    ensures r in Resolve(rows) && r.email == Normalised(c) && c.id in r.sourceIds
    ensures Canonical(rows, Normalised(c)) == Some(r.id)
  {
    CanonicalIsLeast(rows, Normalised(c));
    var k := Canonical(rows, Normalised(c)).value;
    var d :| d in rows && Normalised(d) == Normalised(c) && d.id == k;
    var ids := SourceIds(rows, rows, k);
    SourceIdsMembers(rows, rows, k);
    r := Resolved(k, Normalised(d), d.details, ids, |ids|);
    ResolvedMembers(rows, rows, r);
  }

  /** What a resolved row says about its id list. */
  lemma ResolvedRow(rows: seq<Customer>, r: Resolved)
    requires UniqueKeys(rows, CustomerId) && r in Resolve(rows)
    ensures Ascending(r.sourceIds) && r.sourceIds != [] && r.sourceIds[0] == r.id && r.mergedCount == |r.sourceIds|
    ensures Canonical(rows, r.email) == Some(r.id)
    ensures exists d :: d in rows && d.id == r.id && Normalised(d) == r.email && d.details == r.details
    ensures forall c :: c in rows ==> (c.id in r.sourceIds <==> Normalised(c) == r.email)
    ensures forall i :: i in r.sourceIds ==> exists c :: c in rows && c.id == i
  {
    ResolvedMembers(rows, rows, r);
    var d :| d in rows && Canonical(rows, Normalised(d)) == Some(d.id) && r.id == d.id && r.email == Normalised(d);
    SourceIdsMembers(rows, rows, r.id);
    forall c | c in rows
      ensures c.id in r.sourceIds <==> Normalised(c) == r.email
    {
      if c.id in r.sourceIds {
        var e :| e in rows && e.id == c.id && Canonical(rows, Normalised(e)) == Some(r.id);
        FindUnique(rows, CustomerId, c);
        FindUnique(rows, CustomerId, e);
        SameCanonicalSameEmail(rows, c, d);
      }
    }
    assert d.id in r.sourceIds;
    var i :| 0 <= i < |r.sourceIds| && r.sourceIds[i] == d.id;
    assert r.sourceIds[0] in r.sourceIds;
    var e :| e in rows && e.id == r.sourceIds[0];
    CanonicalIsLeast(rows, r.email);
    assert Normalised(e) == r.email;
  }

  lemma SameCanonicalSameEmail(rows: seq<Customer>, c: Customer, d: Customer)
    requires UniqueKeys(rows, CustomerId) && c in rows && d in rows
    requires Canonical(rows, Normalised(c)).Some? && Canonical(rows, Normalised(c)) == Canonical(rows, Normalised(d))
    ensures Normalised(c) == Normalised(d)
  {
    CanonicalIsLeast(rows, Normalised(c));
    CanonicalIsLeast(rows, Normalised(d));
    var x :| x in rows && Normalised(x) == Normalised(c) && x.id == Canonical(rows, Normalised(c)).value;
    var y :| y in rows && Normalised(y) == Normalised(d) && y.id == Canonical(rows, Normalised(d)).value;
    FindUnique(rows, CustomerId, x);
    FindUnique(rows, CustomerId, y);
  }

  /** Every id lies in exactly one list, and two ids share a list exactly when their normalised
      emails are equal. */
  lemma ListsPartitionIds(rows: seq<Customer>, c: Customer, d: Customer)
    requires UniqueKeys(rows, CustomerId) && c in rows && d in rows
    ensures exists r :: r in Resolve(rows) && c.id in r.sourceIds
    ensures forall r, s ::
      r in Resolve(rows) && s in Resolve(rows) && c.id in r.sourceIds && c.id in s.sourceIds ==> r == s
    ensures Normalised(c) == Normalised(d) <==>
      exists r :: r in Resolve(rows) && c.id in r.sourceIds && d.id in r.sourceIds
  {
    var own := IdentityOf(rows, c);
    ResolvedUnique(rows, rows);
    forall r | r in Resolve(rows) && c.id in r.sourceIds
      ensures r == own
    {
      ResolvedRow(rows, r);
      FindUnique(Resolve(rows), ResolvedId, r);
      FindUnique(Resolve(rows), ResolvedId, own);
    }
    ResolvedRow(rows, own);
  }

  /** Two customers become one exactly if their emails differ in outer spaces and in case only, or
      both have none. */
  lemma SharedExactlyIfSameEmail(rows: seq<Customer>, c: Customer, d: Customer)
    requires UniqueKeys(rows, CustomerId) && c in rows && d in rows
    ensures (exists r :: r in Resolve(rows) && c.id in r.sourceIds && d.id in r.sourceIds) <==>
      match (c.email, d.email)
      case (Some(s), Some(t)) => SameEmail(s, t)
      case (None, None) => true
      case _ => false
  {
    ListsPartitionIds(rows, c, d);
    if c.email.Some? && d.email.Some? {
      NormalExactlyIfSameEmail(c.email.value, d.email.value);
    }
  }

  function UpperChar(c: char): char { if 'a' <= c <= 'z' then c - 'a' + 'A' else c }

  /** The duplicates the seeder plants: the email in capitals, or padded. */
  lemma CapitalsAreSameEmail(email: string, capitals: string)
    requires |capitals| == |email| && forall i :: 0 <= i < |email| ==> capitals[i] == UpperChar(email[i])
    ensures SameEmail(email, capitals)
  {
    assert Around(email, email, 0, 0) && Around(capitals, capitals, 0, 0);
    assert SameUpToCase(email, capitals);
  }

  lemma PaddedIsSameEmail(email: string)
    ensures SameEmail(email, " " + email + " ")
  {
    assert Spaces(1) == " ";
    assert Around(email, email, 0, 0) && Around(" " + email + " ", email, 1, 1);
    assert SameUpToCase(email, email);
  }

  /** The gate's identity check holds of every table the job writes. */
  lemma EmailsAreUnique(rows: seq<Customer>)
    requires UniqueKeys(rows, CustomerId)
    ensures UniqueKeys(Resolve(rows), ResolvedEmail)
  {
    ResolvedUnique(rows, rows);
    var out := Resolve(rows);
    forall i, j | 0 <= i < j < |out|
      ensures ResolvedEmail(out[i]) != ResolvedEmail(out[j])
    {
      ResolvedRow(rows, out[i]);
      ResolvedRow(rows, out[j]);
      assert ResolvedId(out[i]) != ResolvedId(out[j]);
    }
  }

  // ---------------------------------------------------------------- the remap

  function Unnest(ids: seq<int>, canonical: int): (rows: seq<MapRow>)
    ensures |rows| == |ids| && forall i :: 0 <= i < |ids| ==> rows[i] == MapRow(ids[i], canonical)
  {
    seq(|ids|, i requires 0 <= i < |ids| => MapRow(ids[i], canonical))
  }

  function IdentityMap(customers: seq<Resolved>): seq<MapRow> {
    if customers == [] then []
    else
      var n := |customers| - 1;
      IdentityMap(customers[..n]) + Unnest(customers[n].sourceIds, customers[n].id)
  }

  lemma {:induction false} MapMembers(customers: seq<Resolved>, m: MapRow)
    ensures m in IdentityMap(customers) <==>
      exists r :: r in customers && r.id == m.canonical && m.original in r.sourceIds
  {
    if customers != [] {
      var n := |customers| - 1;
      MapMembers(customers[..n], m);
      assert customers == customers[..n] + [customers[n]];
      if customers[n].id == m.canonical && m.original in customers[n].sourceIds {
        var i :| 0 <= i < |customers[n].sourceIds| && customers[n].sourceIds[i] == m.original;
        assert Unnest(customers[n].sourceIds, customers[n].id)[i] == m;
      }
    }
  }

  ghost predicate Disjoint(customers: seq<Resolved>) {
    && (forall i :: 0 <= i < |customers| ==> Ascending(customers[i].sourceIds))
    && (forall i, j, x :: 0 <= i < j < |customers| && x in customers[i].sourceIds ==> x !in customers[j].sourceIds)
  }

  lemma {:induction false} MapUnique(customers: seq<Resolved>)
    requires Disjoint(customers)
    ensures UniqueKeys(IdentityMap(customers), Original)
  {
    if customers != [] {
      var n := |customers| - 1;
      MapUnique(customers[..n]);
      var before, added := IdentityMap(customers[..n]), Unnest(customers[n].sourceIds, customers[n].id);
      forall i, j | 0 <= i < |before| && 0 <= j < |added|
        ensures Original(before[i]) != Original(added[j])
      {
        MapMembers(customers[..n], before[i]);
        assert before[i] in before;
        var r :| r in customers[..n] && before[i].original in r.sourceIds;
        var k :| 0 <= k < n && customers[..n][k] == r;
        assert customers[n].sourceIds[j] in customers[n].sourceIds;
      }
    }
  }

  lemma ResolvedIsDisjoint(rows: seq<Customer>)
    requires UniqueKeys(rows, CustomerId)
    ensures Disjoint(Resolve(rows))
  {
    var out := Resolve(rows);
    ResolvedUnique(rows, rows);
    forall i | 0 <= i < |out|
      ensures Ascending(out[i].sourceIds)
    {
      ResolvedRow(rows, out[i]);
    }
    forall i, j, x | 0 <= i < j < |out| && x in out[i].sourceIds
      ensures x !in out[j].sourceIds
    {
      ResolvedRow(rows, out[i]);
      ResolvedRow(rows, out[j]);
      assert ResolvedId(out[i]) != ResolvedId(out[j]);
      var c :| c in rows && c.id == x;
    }
  }

  /** The customer ids an order's left join with the map yields. */
  function Remapped(map': seq<MapRow>, customer: int): seq<int> {
    RemapRows(LeftJoin(Where(map', Original, customer)), customer)
  }

  function RemapRows(matches: seq<Option<MapRow>>, customer: int): (ids: seq<int>)
    ensures |ids| == |matches|
    ensures forall i :: 0 <= i < |ids| ==> ids[i] == if matches[i].Some? then matches[i].value.canonical else customer
  {
    seq(|matches|, i requires 0 <= i < |matches| => if matches[i].Some? then matches[i].value.canonical else customer)
  }

  /** The remap never fans out, is idempotent, keeps unknown ids, and sends every known id to the
      customer row of its identity. */
  lemma RemapIsSound(rows: seq<Customer>, customer: int)
    requires UniqueKeys(rows, CustomerId)
    ensures var map' := IdentityMap(Resolve(rows));
      && |Remapped(map', customer)| == 1
      && Remapped(map', Remapped(map', customer)[0]) == Remapped(map', customer)
      && (Find(rows, CustomerId, customer).None? ==> Remapped(map', customer) == [customer])
      && (Find(rows, CustomerId, customer).Some? ==>
            var c := Find(rows, CustomerId, customer).value;
            && Some(Remapped(map', customer)[0]) == Canonical(rows, Normalised(c))
            && Find(Resolve(rows), ResolvedId, Remapped(map', customer)[0]).Some?)
  {
    var out := Resolve(rows);
    var map' := IdentityMap(out);
    ResolvedIsDisjoint(rows);
    MapUnique(out);
    WhereUnique(map', Original, customer);
    var found := Find(rows, CustomerId, customer);
    if found.Some? {
      var r := IdentityOf(rows, found.value);
      MapTo(rows, customer, r);
      ResolvedRow(rows, r);
      MapTo(rows, r.id, r);
      WhereUnique(map', Original, r.id);
    } else if Find(map', Original, customer).Some? {
      var m := Find(map', Original, customer).value;
      MapMembers(out, m);
      var r :| r in out && r.id == m.canonical && m.original in r.sourceIds;
      ResolvedRow(rows, r);
    }
  }

  lemma MapTo(rows: seq<Customer>, id: int, r: Resolved)
    requires UniqueKeys(rows, CustomerId) && r in Resolve(rows) && id in r.sourceIds
    ensures Find(IdentityMap(Resolve(rows)), Original, id) == Some(MapRow(id, r.id))
  {
    ResolvedIsDisjoint(rows);
    MapUnique(Resolve(rows));
    MapMembers(Resolve(rows), MapRow(id, r.id));
    FindUnique(IdentityMap(Resolve(rows)), Original, MapRow(id, r.id));
  }

  // ---------------------------------------------------------------- from bronze

  lemma LatestCustomersUnique(bronze: seq<BronzeRow>, rn: seq<nat>)
    requires RowNumbers(bronze, BronzeId, IngestedAt, rn)
    ensures UniqueKeys(CustomersOf(Top(bronze, rn)), CustomerId)
    ensures forall b :: b in bronze ==> Find(CustomersOf(Top(bronze, rn)), CustomerId, b.customer.id).Some?
  {
    var kept := Top(bronze, rn);
    TopIsLatest(bronze, BronzeId, IngestedAt, rn);
    forall i, j | 0 <= i < j < |kept|
      ensures CustomerId(CustomersOf(kept)[i]) != CustomerId(CustomersOf(kept)[j])
    {
      assert BronzeId(kept[i]) != BronzeId(kept[j]);
    }
    forall b | b in bronze
      ensures Find(CustomersOf(kept), CustomerId, b.customer.id).Some?
    {
      assert Dominated(b, BronzeId, IngestedAt, kept);
      var i :| 0 <= i < |kept| && BronzeId(kept[i]) == BronzeId(b) && IngestedAt(kept[i]) >= IngestedAt(b);
      assert CustomersOf(kept)[i] in CustomersOf(kept);
    }
  }

  /** Every customer id bronze ever saw remaps to exactly one existing silver customer. */
  lemma EveryBronzeIdHasOneCustomer(bronze: seq<BronzeRow>, rn: seq<nat>, b: BronzeRow)
    requires RowNumbers(bronze, BronzeId, IngestedAt, rn) && b in bronze
    ensures var silver := SilverCustomers(bronze, rn);
      var ids := Remapped(IdentityMap(silver), b.customer.id);
      |ids| == 1 && Find(silver, ResolvedId, ids[0]).Some?
  {
    LatestCustomersUnique(bronze, rn);
    RemapIsSound(CustomersOf(Top(bronze, rn)), b.customer.id);
  }
}
