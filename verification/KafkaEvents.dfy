/** The clickstream consumer: bounded polling, write to bronze, then commit; with crashes and
    redelivery, and the deduplicated silver table. */
module KafkaEvents {
  import opened Tables

  const MAX_BATCH_ROWS := 200_000
  const MAX_POLL_RECORDS := 5_000

  type Partition = int

  datatype Event = Event(id: int, payload: int)
  datatype BronzeRow = BronzeRow(event: Event, ingestedAt: int)

  function EventId(e: Event): int { e.id }
  function BronzeId(r: BronzeRow): int { r.event.id }
  function IngestedAt(r: BronzeRow): int { r.ingestedAt }

  /** The records one poll returns from one partition. */
  datatype Chunk = Chunk(partition: Partition, size: nat)

  /** `topic` is what was produced; `committed` the group's offsets; `position` the consumer's,
      and `events` the rows it holds, while it runs; `written` whether they reached bronze. */
  datatype State = State(
    topic: map<Partition, seq<Event>>, committed: map<Partition, nat>, position: map<Partition, nat>,
    events: seq<Event>, running: bool, written: bool, bronze: seq<BronzeRow>, clock: int)

  datatype Step =
    | Produce(partition: Partition, event: Event)
    | Start
    | Poll(batch: seq<Chunk>)
    | Write
    | Commit
    | Crash

  function Offset(offsets: map<Partition, nat>, p: Partition): nat {
    if p in offsets then offsets[p] else 0
  }

  function Log(s: State, p: Partition): seq<Event> {
    if p in s.topic then s.topic[p] else []
  }

  function BatchSize(batch: seq<Chunk>): nat {
    if batch == [] then 0 else batch[0].size + BatchSize(batch[1..])
  }

  /** consumer.poll: the next records of each partition in the batch, in the batch's order. */
  ghost predicate Available(s: State, batch: seq<Chunk>)
    decreases |batch|
  {
    batch != [] ==>
      var c := batch[0];
      Offset(s.position, c.partition) + c.size <= |Log(s, c.partition)| && Available(Take(s, c), batch[1..])
  }

  function Take(s: State, c: Chunk): State {
    var from := Offset(s.position, c.partition);
    if from + c.size <= |Log(s, c.partition)| then
      s.(position := s.position[c.partition := from + c.size],
         events := s.events + Log(s, c.partition)[from..from + c.size])
    else s
  }

  function TakeAll(s: State, batch: seq<Chunk>): State
    decreases |batch|
  {
    if batch == [] then s else TakeAll(Take(s, batch[0]), batch[1..])
  }

  function Stamped(events: seq<Event>, stamp: int): (rows: seq<BronzeRow>)
    ensures |rows| == |events| && forall i :: 0 <= i < |rows| ==> rows[i] == BronzeRow(events[i], stamp)
  {
    seq(|events|, i requires 0 <= i < |events| => BronzeRow(events[i], stamp))
  }

  ghost predicate Enabled(s: State, step: Step) {
    match step
    case Produce(_, _) => true
    case Start => !s.running
    case Poll(batch) =>
      && s.running && !s.written && |s.events| < MAX_BATCH_ROWS
      && BatchSize(batch) <= MAX_POLL_RECORDS && Available(s, batch)
    case Write => s.running && !s.written && s.events != []
    case Commit => s.running && s.written
    case Crash => s.running
  }

  /** A run that finds nothing to write ends like one that crashes: nothing is committed. A
      consumer starts at the committed offsets, or at the beginning of a partition without one. */
  function Next(s: State, step: Step): State {
    match step
    case Produce(p, e) => s.(topic := s.topic[p := Log(s, p) + [e]])
    case Start => s.(position := s.committed, events := [], running := true, written := false)
    case Poll(batch) => TakeAll(s, batch)
    case Write => s.(bronze := s.bronze + Stamped(s.events, s.clock + 1), clock := s.clock + 1, written := true)
    case Commit => s.(committed := s.position, running := false)
    case Crash => s.(running := false)
  }

  // ---------------------------------------------------------------- the invariant

  ghost predicate InBronze(bronze: seq<BronzeRow>, e: Event) {
    exists i :: 0 <= i < |bronze| && bronze[i].event == e
  }

  /** Every record of `p` below `offset` is in bronze. */
  ghost predicate Landed(s: State, p: Partition, offset: nat) {
    offset <= |Log(s, p)| && forall i :: 0 <= i < offset ==> InBronze(s.bronze, Log(s, p)[i])
  }

  ghost predicate Produced(topic: map<Partition, seq<Event>>, e: Event) {
    exists p :: p in topic && e in topic[p]
  }

  /** The records between the committed offset and the position are the ones held. */
  ghost predicate Held(s: State, p: Partition) {
    && Offset(s.committed, p) <= Offset(s.position, p) <= |Log(s, p)|
    && forall i :: Offset(s.committed, p) <= i < Offset(s.position, p) ==> Log(s, p)[i] in s.events
  }

  ghost predicate Inv(s: State) {
    && (forall p :: Landed(s, p, Offset(s.committed, p)))
    && (forall i :: 0 <= i < |s.bronze| ==> Produced(s.topic, s.bronze[i].event))
    && (s.running ==>
          && (forall p :: Held(s, p))
          && (forall e :: e in s.events ==> Produced(s.topic, e))
          && |s.events| < MAX_BATCH_ROWS + MAX_POLL_RECORDS
          && (s.written ==> forall e :: e in s.events ==> InBronze(s.bronze, e)))
  }

  ghost predicate Init(s: State) {
    s.committed == map[] && !s.running && s.bronze == []
  }

  lemma ProduceKeepsInv(s: State, p: Partition, e: Event)
    requires Inv(s)
    ensures Inv(Next(s, Produce(p, e)))
  {
    var s' := Next(s, Produce(p, e));
    forall x | Produced(s.topic, x)
      ensures Produced(s'.topic, x)
    {
      var q :| q in s.topic && x in s.topic[q];
      assert q in s'.topic && x in s'.topic[q];
    }
    forall q
      ensures |Log(s, q)| <= |Log(s', q)| && forall i :: 0 <= i < |Log(s, q)| ==> Log(s', q)[i] == Log(s, q)[i]
      ensures Landed(s', q, Offset(s'.committed, q))
    {
      assert Landed(s, q, Offset(s.committed, q));
      forall x | InBronze(s.bronze, x)
        ensures InBronze(s'.bronze, x)
      {
        var i :| 0 <= i < |s.bronze| && s.bronze[i].event == x;
        assert s'.bronze[i].event == x;
      }
    }
    if s.running {
      forall q
        ensures Held(s', q)
      {
        assert Held(s, q);
      }
    }
  }

  /** What a state holds while polling. */
  ghost predicate Polling(s: State) {
    && s.running && !s.written
    && (forall p :: Held(s, p))
    && (forall e :: e in s.events ==> Produced(s.topic, e))
  }

  lemma TakeKeepsPolling(s: State, c: Chunk)
    requires Polling(s) && Offset(s.position, c.partition) + c.size <= |Log(s, c.partition)|
    ensures Polling(Take(s, c)) && |Take(s, c).events| == |s.events| + c.size
  {
    var s' := Take(s, c);
    var from := Offset(s.position, c.partition);
    var taken := Log(s, c.partition)[from..from + c.size];
    forall p
      ensures Held(s', p)
    {
      assert Held(s, p);
      forall i | Offset(s.committed, p) <= i < Offset(s'.position, p)
        ensures Log(s, p)[i] in s'.events
      {
        if p == c.partition && i >= from {
          assert taken[i - from] in taken;
        }
      }
    }
    forall e | e in s'.events
      ensures Produced(s'.topic, e)
    {
      if e in s.events {
        var p :| p in s.topic && e in s.topic[p];
        assert p in s'.topic && e in s'.topic[p];
      } else {
        assert e in taken && e in Log(s, c.partition);
      }
    }
  }

  lemma {:induction false} TakeAllKeepsPolling(s: State, batch: seq<Chunk>)
    requires Polling(s) && Available(s, batch)
    ensures var s' := TakeAll(s, batch);
      && Polling(s') && |s'.events| == |s.events| + BatchSize(batch)
      && s' == s.(position := s'.position, events := s'.events)
    decreases |batch|
  {
    if batch != [] {
      TakeKeepsPolling(s, batch[0]);
      TakeAllKeepsPolling(Take(s, batch[0]), batch[1..]);
    }
  }

  lemma PollKeepsInv(s: State, batch: seq<Chunk>)
    requires Inv(s) && Enabled(s, Poll(batch))
    ensures Inv(Next(s, Poll(batch)))
  {
    TakeAllKeepsPolling(s, batch);
    var s' := Next(s, Poll(batch));
    forall p
      ensures Landed(s', p, Offset(s'.committed, p))
    {
      assert Landed(s, p, Offset(s.committed, p));
    }
  }

  lemma StartKeepsInv(s: State)
    requires Inv(s) && Enabled(s, Start)
    ensures Inv(Next(s, Start))
  {
    var s' := Next(s, Start);
    forall p
      ensures Landed(s', p, Offset(s'.committed, p)) && Held(s', p)
    {
      assert Landed(s, p, Offset(s.committed, p));
    }
  }

  lemma WriteKeepsInv(s: State)
    requires Inv(s) && Enabled(s, Write)
    ensures Inv(Next(s, Write))
  {
    var s' := Next(s, Write);
    var m := |s.bronze|;
    forall e | InBronze(s.bronze, e)
      ensures InBronze(s'.bronze, e)
    {
      var i :| 0 <= i < m && s.bronze[i].event == e;
      assert s'.bronze[i].event == e;
    }
    forall e | e in s.events
      ensures InBronze(s'.bronze, e)
    {
      var i :| 0 <= i < |s.events| && s.events[i] == e;
      assert s'.bronze[m + i].event == e;
    }
    forall i | 0 <= i < |s'.bronze|
      ensures Produced(s'.topic, s'.bronze[i].event)
    {
      assert if i < m then Produced(s.topic, s.bronze[i].event) else s'.bronze[i].event == s.events[i - m];
    }
    forall p
      ensures Landed(s', p, Offset(s'.committed, p)) && Held(s', p)
    {
      assert Landed(s, p, Offset(s.committed, p)) && Held(s, p);
    }
  }

  lemma CommitKeepsInv(s: State)
    requires Inv(s) && Enabled(s, Commit)
    ensures Inv(Next(s, Commit))
  {
    var s' := Next(s, Commit);
    forall p
      ensures Landed(s', p, Offset(s'.committed, p))
    {
      assert Landed(s, p, Offset(s.committed, p)) && Held(s, p);
    }
  }

  lemma StepKeepsInv(s: State, step: Step)
    requires Inv(s) && Enabled(s, step)
    ensures Inv(Next(s, step))
  {
    match step
    case Produce(p, e) => ProduceKeepsInv(s, p, e);
    case Start => StartKeepsInv(s);
    case Poll(batch) => PollKeepsInv(s, batch);
    case Write => WriteKeepsInv(s);
    case Commit => CommitKeepsInv(s);
    case Crash =>
      forall p
        ensures Landed(Next(s, Crash), p, Offset(s.committed, p))
      {
        assert Landed(s, p, Offset(s.committed, p));
      }
  }

  // ---------------------------------------------------------------- whole runs

  ghost predicate IsRun(states: seq<State>, steps: seq<Step>) {
    && |states| == |steps| + 1 && Init(states[0])
    && forall i :: 0 <= i < |steps| ==> Enabled(states[i], steps[i]) && states[i + 1] == Next(states[i], steps[i])
  }

  lemma {:induction false} InvHolds(states: seq<State>, steps: seq<Step>, i: nat)
    requires IsRun(states, steps) && i < |states|
    ensures Inv(states[i])
  {
    if i > 0 {
      InvHolds(states, steps, i - 1);
      StepKeepsInv(states[i - 1], steps[i - 1]);
    }
  }

  /** At least once: in every state of every run, every record below a committed offset is in
      bronze, and a consumer never holds more than one poll beyond the cap. */
  lemma CommittedIsInBronze(states: seq<State>, steps: seq<Step>, i: nat, p: Partition, k: nat)
    requires IsRun(states, steps) && i < |states| && k < Offset(states[i].committed, p)
    ensures k < |Log(states[i], p)| && InBronze(states[i].bronze, Log(states[i], p)[k])
    ensures states[i].running ==> |states[i].events| < MAX_BATCH_ROWS + MAX_POLL_RECORDS
  {
    InvHolds(states, steps, i);
    assert Landed(states[i], p, Offset(states[i].committed, p));
  }

  /** Records with one id carry one payload, even if a producer sends them twice. */
  ghost predicate OnePayloadPerId(s: State) {
    forall d, e :: Produced(s.topic, d) && Produced(s.topic, e) && d.id == e.id ==> d == e
  }

  function EventsOf(rows: seq<BronzeRow>): (es: seq<Event>)
    ensures |es| == |rows| && forall i :: 0 <= i < |es| ==> es[i] == rows[i].event
  {
    seq(|rows|, i requires 0 <= i < |rows| => rows[i].event)
  }

  /** Exactly once after deduplication: whatever was redelivered and whichever duplicate the
      engine kept, silver has each landed event once, with the payload it was produced with. */
  lemma SilverIsExactlyOnce(s: State, rn: seq<nat>)
    requires Inv(s) && OnePayloadPerId(s) && RowNumbers(s.bronze, BronzeId, IngestedAt, rn)
    ensures UniqueKeys(EventsOf(Top(s.bronze, rn)), EventId)
    ensures forall e :: e in EventsOf(Top(s.bronze, rn)) <==> InBronze(s.bronze, e)
  {
    var kept := Top(s.bronze, rn);
    var silver := EventsOf(kept);
    TopIsLatest(s.bronze, BronzeId, IngestedAt, rn);
    forall i, j | 0 <= i < j < |silver|
      ensures EventId(silver[i]) != EventId(silver[j])
    {
      assert BronzeId(kept[i]) != BronzeId(kept[j]);
    }
    forall e
      ensures e in silver <==> InBronze(s.bronze, e)
    {
      if e in silver {
        var i :| 0 <= i < |silver| && silver[i] == e;
        assert kept[i] in kept && kept[i] in s.bronze;
      }
      if InBronze(s.bronze, e) {
        var i :| 0 <= i < |s.bronze| && s.bronze[i].event == e;
        assert s.bronze[i] in s.bronze;
        assert Dominated(s.bronze[i], BronzeId, IngestedAt, kept);
        var j :| 0 <= j < |kept| && BronzeId(kept[j]) == e.id && IngestedAt(kept[j]) >= IngestedAt(s.bronze[i]);
        assert kept[j] in kept && kept[j] in s.bronze;
        assert Produced(s.topic, kept[j].event) && Produced(s.topic, e);
        assert silver[j] == e;
      }
    }
  }

  ghost predicate CaughtUp(s: State) {
    forall p :: Offset(s.committed, p) == |Log(s, p)|
  }

  /** Once the group has caught up, silver is the topic: every produced event, once. */
  lemma CaughtUpSilverIsTopic(states: seq<State>, steps: seq<Step>, i: nat, rn: seq<nat>)
    requires IsRun(states, steps) && i < |states| && CaughtUp(states[i]) && OnePayloadPerId(states[i])
    requires RowNumbers(states[i].bronze, BronzeId, IngestedAt, rn)
    ensures UniqueKeys(EventsOf(Top(states[i].bronze, rn)), EventId)
    ensures forall e :: e in EventsOf(Top(states[i].bronze, rn)) <==> Produced(states[i].topic, e)
  {
    var s := states[i];
    InvHolds(states, steps, i);
    SilverIsExactlyOnce(s, rn);
    forall e
      ensures InBronze(s.bronze, e) <==> Produced(s.topic, e)
    {
      if Produced(s.topic, e) {
        var p :| p in s.topic && e in s.topic[p];
        assert Landed(s, p, Offset(s.committed, p));
        var k :| 0 <= k < |Log(s, p)| && Log(s, p)[k] == e;
      }
    }
  }

  // ---------------------------------------------------------------- the consumer loop

  /** The consumer against the stored offsets and bronze table. */
  class Consumer {
    var state: State

    constructor (state: State)
      requires Inv(state)
      ensures this.state == state
    {
      this.state := state;
    }

    /** The poll loop: until a poll comes back empty, the time is up or the row cap is reached. */
    method PollAll(polls: seq<seq<Chunk>>)
      requires Inv(state) && state.running && !state.written && state.events == []
      requires forall i :: 0 <= i < |polls| ==> BatchSize(polls[i]) <= MAX_POLL_RECORDS
      requires AllAvailable(state, polls)
      modifies this
      ensures Inv(state) && state == old(state).(position := state.position, events := state.events)
      ensures state == Polled(old(state), polls)
      ensures |state.events| < MAX_BATCH_ROWS + MAX_POLL_RECORDS
    {
      var rest := polls;
      while rest != [] && rest[0] != [] && |state.events| < MAX_BATCH_ROWS
        invariant Inv(state) && state == old(state).(position := state.position, events := state.events)
        invariant AllAvailable(state, rest) && Polled(state, rest) == Polled(old(state), polls)
        invariant forall i :: 0 <= i < |rest| ==> BatchSize(rest[i]) <= MAX_POLL_RECORDS
        invariant |state.events| < MAX_BATCH_ROWS + MAX_POLL_RECORDS
        decreases |rest|
      {
        PollKeepsInv(state, rest[0]);
        TakeAllKeepsPolling(state, rest[0]);
        state := Next(state, Poll(rest[0]));
        rest := rest[1..];
      }
    }

    /** One scheduled run; `polls` are the batches the broker returns. What gets committed is what
        was just written, up to where the polls got. */
    method Run(polls: seq<seq<Chunk>>) returns (rows: nat)
      requires Inv(state) && !state.running
      requires forall i :: 0 <= i < |polls| ==> BatchSize(polls[i]) <= MAX_POLL_RECORDS
      requires AllAvailable(Next(state, Start), polls)
      modifies this
      ensures Inv(state) && !state.running && state.topic == old(state.topic)
      ensures rows < MAX_BATCH_ROWS + MAX_POLL_RECORDS
      ensures old(state.bronze) <= state.bronze && |state.bronze| == |old(state.bronze)| + rows
      ensures rows == |Polled(Next(old(state), Start), polls).events|
      ensures EventsOf(state.bronze[|old(state.bronze)|..]) == Polled(Next(old(state), Start), polls).events
      ensures rows == 0 ==> state.committed == old(state.committed)
      ensures rows > 0 ==> state.committed == Polled(Next(old(state), Start), polls).position
      ensures forall p :: CommittedSince(state, p, Offset(old(state.committed), p), state.bronze[|old(state.bronze)|..])
    {
      StartKeepsInv(state);
      state := Next(state, Start);
      PollAll(polls);
      rows := |state.events|;
      if rows == 0 {
        StepKeepsInv(state, Crash);
        state := Next(state, Crash);
        forall p
          ensures CommittedSince(state, p, Offset(state.committed, p), [])
        {
          assert Landed(state, p, Offset(state.committed, p));
        }
      } else {
        ghost var held := state;
        WriteKeepsInv(state);
        state := Next(state, Write);
        CommitKeepsInv(state);
        state := Next(state, Commit);
        WrittenAreCommitted(held, state);
      }
    }
  }

  /** A consumer polls on until a batch is empty, the batches end or it holds the cap. */
  function Polled(s: State, polls: seq<seq<Chunk>>): State
    decreases |polls|
  {
    if polls == [] || polls[0] == [] || |s.events| >= MAX_BATCH_ROWS then s
    else Polled(TakeAll(s, polls[0]), polls[1..])
  }

  // ---------------------------------------------------------------- what polling holds

  /** How many records of `p` the chunks take. */
  ghost function SizeIn(chunks: seq<Chunk>, p: Partition): nat {
    if chunks == [] then 0
    else
      var n := |chunks| - 1;
      SizeIn(chunks[..n], p) + if chunks[n].partition == p then chunks[n].size else 0
  }

  /** The records of the chunks, each partition read on from where `s` stands. */
  ghost function Records(s: State, chunks: seq<Chunk>): seq<Event> {
    if chunks == [] then []
    else
      var n := |chunks| - 1;
      Records(s, chunks[..n]) + RecordsAt(s, chunks[n], SizeIn(chunks[..n], chunks[n].partition))
  }

  /** The records of `c`, `read` records of its partition having been read before. */
  ghost function RecordsAt(s: State, c: Chunk, read: nat): seq<Event> {
    var from := Offset(s.position, c.partition) + read;
    if from + c.size <= |Log(s, c.partition)| then Log(s, c.partition)[from..from + c.size] else []
  }

  lemma {:induction false} TakeAllOfNext(s: State, chunks: seq<Chunk>, c: Chunk)
    requires Available(s, chunks + [c])
    ensures Available(s, chunks) && TakeAll(s, chunks + [c]) == Take(TakeAll(s, chunks), c)
    ensures var s' := TakeAll(s, chunks); Offset(s'.position, c.partition) + c.size <= |Log(s', c.partition)|
    decreases |chunks|
  {
    if chunks == [] {
      assert [] + [c] == [c] && [c][1..] == [];
    } else {
      assert (chunks + [c])[1..] == chunks[1..] + [c];
      TakeAllOfNext(Take(s, chunks[0]), chunks[1..], c);
    }
  }

  lemma TakeReads(s: State, c: Chunk, p: Partition)
    requires Offset(s.position, c.partition) + c.size <= |Log(s, c.partition)|
    ensures var s' := Take(s, c);
      && s' == s.(position := s'.position, events := s'.events)
      && Offset(s'.position, p) == Offset(s.position, p) + (if c.partition == p then c.size else 0)
      && s'.events == s.events + RecordsAt(s, c, 0)
  {
  }

  /** A batch leaves everything but position and events alone. */
  lemma {:induction false} TakeAllOnlyReads(s: State, batch: seq<Chunk>)
    requires Available(s, batch)
    ensures var s' := TakeAll(s, batch); s' == s.(position := s'.position, events := s'.events)
    decreases |batch|
  {
    if batch != [] {
      TakeReads(s, batch[0], 0);
      TakeAllOnlyReads(Take(s, batch[0]), batch[1..]);
    }
  }

  /** A batch moves each position past its records of that partition. */
  lemma {:induction false} TakeAllMoves(s: State, chunks: seq<Chunk>, p: Partition)
    requires Available(s, chunks)
    ensures Offset(TakeAll(s, chunks).position, p) == Offset(s.position, p) + SizeIn(chunks, p)
    decreases |chunks|
  {
    if chunks != [] {
      var n := |chunks| - 1;
      assert chunks == chunks[..n] + [chunks[n]];
      TakeAllOfNext(s, chunks[..n], chunks[n]);
      TakeReads(TakeAll(s, chunks[..n]), chunks[n], p);
      TakeAllMoves(s, chunks[..n], p);
    }
  }

  lemma NextRead(s: State, before: seq<Chunk>, c: Chunk)
    requires Available(s, before + [c])
    ensures TakeAll(s, before + [c]).events
         == TakeAll(s, before).events + RecordsAt(s, c, SizeIn(before, c.partition))
  {
    var mid := TakeAll(s, before);
    TakeAllOfNext(s, before, c);
    TakeAllOnlyReads(s, before);
    TakeAllMoves(s, before, c.partition);
    TakeReads(mid, c, c.partition);
    assert Log(mid, c.partition) == Log(s, c.partition);
  }

  lemma Reassociate(a: seq<Event>, b: seq<Event>, c: seq<Event>)
    ensures (a + b) + c == a + (b + c)
  {
  }

  /** ... and holds exactly those. */
  lemma {:induction false} TakeAllReads(s: State, chunks: seq<Chunk>)
    requires Available(s, chunks)
    ensures TakeAll(s, chunks).events == s.events + Records(s, chunks)
    decreases |chunks|
  {
    if chunks == [] {
      assert s.events + [] == s.events;
    } else {
      var n := |chunks| - 1;
      assert chunks == chunks[..n] + [chunks[n]];
      NextRead(s, chunks[..n], chunks[n]);
      TakeAllOfNext(s, chunks[..n], chunks[n]);
      TakeAllReads(s, chunks[..n]);
      Reassociate(s.events, Records(s, chunks[..n]),
                  RecordsAt(s, chunks[n], SizeIn(chunks[..n], chunks[n].partition)));
    }
  }

  /** The batches one after the other. */
  ghost function Chunks(polls: seq<seq<Chunk>>): seq<Chunk> {
    if polls == [] then [] else polls[0] + Chunks(polls[1..])
  }

  lemma {:induction false} TakeAllOfConcat(s: State, a: seq<Chunk>, b: seq<Chunk>)
    requires Available(s, a) && Available(TakeAll(s, a), b)
    ensures Available(s, a + b) && TakeAll(s, a + b) == TakeAll(TakeAll(s, a), b)
    decreases |a|
  {
    if a == [] {
      assert a + b == b;
    } else {
      assert (a + b)[1..] == a[1..] + b;
      TakeAllOfConcat(Take(s, a[0]), a[1..], b);
    }
  }

  lemma {:induction false} BatchSizeOfConcat(a: seq<Chunk>, b: seq<Chunk>)
    ensures BatchSize(a + b) == BatchSize(a) + BatchSize(b)
  {
    if a == [] {
      assert a + b == b;
    } else {
      assert (a + b)[1..] == a[1..] + b;
      BatchSizeOfConcat(a[1..], b);
    }
  }

  lemma {:induction false} TakeAllCounts(s: State, batch: seq<Chunk>)
    requires Available(s, batch)
    ensures |TakeAll(s, batch).events| == |s.events| + BatchSize(batch)
    decreases |batch|
  {
    if batch != [] {
      TakeAllCounts(Take(s, batch[0]), batch[1..]);
    }
  }

  /** With `held` records at first, polling ends after `n` batches: at an empty one or at the cap,
      and not before. */
  ghost predicate StopsAfter(held: nat, polls: seq<seq<Chunk>>, n: nat) {
    && n <= |polls|
    && (forall k :: 0 <= k < n ==> GoesOnAt(held, polls, k))
    && (n < |polls| ==> !GoesOnAt(held, polls, n))
  }

  ghost predicate GoesOnAt(held: nat, polls: seq<seq<Chunk>>, k: nat)
    requires k < |polls|
  {
    polls[k] != [] && held + BatchSize(Chunks(polls[..k])) < MAX_BATCH_ROWS
  }

  lemma GoesOnLater(held: nat, polls: seq<seq<Chunk>>, k: nat)
    requires 1 <= k < |polls|
    ensures GoesOnAt(held, polls, k) <==> GoesOnAt(held + BatchSize(polls[0]), polls[1..], k - 1)
  {
    assert polls[..k][1..] == polls[1..][..k - 1];
    BatchSizeOfConcat(polls[0], Chunks(polls[1..][..k - 1]));
  }

  lemma StopsLater(held: nat, polls: seq<seq<Chunk>>, n: nat)
    requires polls != [] && GoesOnAt(held, polls, 0) && StopsAfter(held + BatchSize(polls[0]), polls[1..], n)
    ensures StopsAfter(held, polls, n + 1)
  {
    forall k | 1 <= k < |polls|
      ensures GoesOnAt(held, polls, k) <==> GoesOnAt(held + BatchSize(polls[0]), polls[1..], k - 1)
    {
      GoesOnLater(held, polls, k);
    }
  }

  lemma {:induction false} PolledIsTakeAll(s: State, polls: seq<seq<Chunk>>) returns (n: nat)
    requires AllAvailable(s, polls)
    ensures StopsAfter(|s.events|, polls, n)
    ensures Available(s, Chunks(polls[..n])) && Polled(s, polls) == TakeAll(s, Chunks(polls[..n]))
    decreases |polls|
  {
    if polls == [] || polls[0] == [] || |s.events| >= MAX_BATCH_ROWS {
      n := 0;
      assert polls != [] ==> Chunks(polls[..0]) == [];
    } else {
      assert Chunks(polls[..0]) == [];
      var m := PolledIsTakeAll(TakeAll(s, polls[0]), polls[1..]);
      TakeAllCounts(s, polls[0]);
      StopsLater(|s.events|, polls, m);
      n := m + 1;
      assert polls[..n][1..] == polls[1..][..m];
      TakeAllOfConcat(s, polls[0], Chunks(polls[1..][..m]));
    }
  }

  /** Polling holds every record of the batches before the first empty one or before the cap is
      reached, each once and in order, and moves each position past exactly those. */
  lemma PolledReads(s: State, polls: seq<seq<Chunk>>) returns (n: nat)
    requires AllAvailable(s, polls)
    ensures StopsAfter(|s.events|, polls, n)
    ensures Polled(s, polls).events == s.events + Records(s, Chunks(polls[..n]))
    ensures forall p :: Offset(Polled(s, polls).position, p) == Offset(s.position, p) + SizeIn(Chunks(polls[..n]), p)
  {
    n := PolledIsTakeAll(s, polls);
    forall p {
      TakeAllMoves(s, Chunks(polls[..n]), p);
    }
    TakeAllReads(s, Chunks(polls[..n]));
  }

  /** The records of `p` committed from offset `from` on are among `rows`. */
  ghost predicate CommittedSince(s: State, p: Partition, from: nat, rows: seq<BronzeRow>) {
    && Offset(s.committed, p) <= |Log(s, p)|
    && forall k :: from <= k < Offset(s.committed, p) ==> InBronze(rows, Log(s, p)[k])
  }

  lemma WrittenAreCommitted(s: State, s': State)
    requires Inv(s) && s.running && s' == Next(Next(s, Write), Commit)
    ensures s.bronze <= s'.bronze
    ensures forall p :: CommittedSince(s', p, Offset(s.committed, p), s'.bronze[|s.bronze|..])
  {
    var rows := s'.bronze[|s.bronze|..];
    assert rows == Stamped(s.events, s.clock + 1);
    forall p
      ensures CommittedSince(s', p, Offset(s.committed, p), rows)
    {
      assert Held(s, p);
      forall k | Offset(s.committed, p) <= k < Offset(s'.committed, p)
        ensures InBronze(rows, Log(s', p)[k])
      {
        var i :| 0 <= i < |s.events| && s.events[i] == Log(s, p)[k];
        assert rows[i].event == s.events[i];
      }
    }
  }

  ghost predicate AllAvailable(s: State, polls: seq<seq<Chunk>>)
    decreases |polls|
  {
    polls != [] ==> Available(s, polls[0]) && AllAvailable(TakeAll(s, polls[0]), polls[1..])
  }
}
