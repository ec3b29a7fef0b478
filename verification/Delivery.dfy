/**
 The at-least-once delivery protocol: any number of workers (worker/main.py) on one Redis Streams
 consumer group (consumers/stream_reader.py) and two tables (consumers/sink.py,
 consumers/quarantine.py), as a state machine. Each label is one call to Redis or to the database,
 or something the environment does; a run is any sequence of enabled labels, so every interleaving
 and every crash point is one. No entry is trimmed from the stream.
 */
module Delivery {
  import opened Wrappers
  import opened Timestamps
  import opened RecordIntegrity

  /** A stream entry's fields: `data` and `sig`, either of which may be missing. */
  datatype Entry = Entry(data: Option<string>, sig: Option<string>)

  /** A Pending Entries List record: owner, last delivery time, times delivered. */
  datatype Pending = Pending(owner: nat, since: nat, count: nat)

  /** One XPENDING item. */
  datatype Stale = Stale(id: nat, count: nat)

  /** A call a worker still has to make: `handle_message`, or `quarantine_and_ack`. */
  datatype Job =
    | Handle(id: nat, entry: Entry, at: nat)
    | Quarantine(id: nat, entry: Entry, attempts: nat)

  /** Whether the first job still has to reach the database or only the ack. */
  datatype Stage = Start | Durable

  /** A worker between calls. Sweeping: it holds an XPENDING snapshot and the poison entries read so far. */
  datatype Local =
    | Idle
    | Sweeping(stale: seq<Stale>, poison: seq<Job>)
    | Busy(stage: Stage, jobs: seq<Job>)

  datatype State = State(
    now: nat, stream: seq<Entry>, cursor: nat, pel: map<nat, Pending>,
    events: map<string, Record>, quarantine: map<nat, Record>, workers: seq<Local>)

  /** Builds the key and row `Sink.write` inserts for an entry, given the two defaults a parse may need;
      None when the entry does not parse or building the row raises. */
  type RowBuilder = (Entry, string, Datetime) -> Option<(string, Record)>

  /** The settings, and what the worker computes from an entry without touching shared state. */
  datatype Config = Config(
    minIdle: nat, maxDeliveries: nat, batch: nat,
    parses: Entry -> bool, carriedId: Entry -> Option<string>,
    eventRow: RowBuilder, quarantineRow: (nat, Entry, nat) -> Record)

  /** A row exists only for an entry that parses, under the event id it carries or else the fresh one. */
  ghost predicate IsConfig(c: Config) {
    forall entry, freshId, utcNow :: c.eventRow(entry, freshId, utcNow).Some? ==>
      && c.parses(entry)
      && c.eventRow(entry, freshId, utcNow).value.0 ==
         if c.carriedId(entry).Some? then c.carriedId(entry).value else freshId
  }

  /** A database call: it commits and says so, commits and fails to say so, or does not commit. */
  datatype Fate = Landed | Unconfirmed | Refused

  datatype Label =
    | Produce(entry: Entry)
    | Tick(d: nat)
    | Read(w: nat, n: nat)
    | Snapshot(w: nat)
    | XRange(w: nat)
    | Claim(w: nat)
    | ParseFail(w: nat)
    | Persist(w: nat, freshId: string, utcNow: Datetime, fate: Fate)
    | QuarantineWrite(w: nat, fate: Fate)
    | Ack(w: nat)
    | Crash(w: nat)

  // ----- Redis -----

  predicate IdleEnough(c: Config, p: Pending, now: nat) { now >= p.since + c.minIdle }

  /** XREADGROUP ">" with COUNT n: the n entries after the cursor become pending, delivered once. */
  function Delivered(pel: map<nat, Pending>, cursor: nat, now: nat, w: nat, n: nat): (r: map<nat, Pending>)
    ensures forall id: nat :: id in r <==> id in pel || cursor <= id < cursor + n
    ensures forall id :: id in r ==> r[id] == if cursor <= id < cursor + n then Pending(w, now, 1) else pel[id]
  {
    if n == 0 then pel else Delivered(pel, cursor, now, w, n - 1)[cursor + n - 1 := Pending(w, now, 1)]
  }

  /** XPENDING with IDLE and COUNT: the first `room` stale entries from id `lo` on, in id order. */
  function XPending(c: Config, pel: map<nat, Pending>, now: nat, lo: nat, hi: nat, room: nat): seq<Stale>
    decreases if lo < hi then hi - lo else 0
  {
    if lo >= hi || room == 0 then []
    else if lo in pel && IdleEnough(c, pel[lo], now) then
      [Stale(lo, pel[lo].count)] + XPending(c, pel, now, lo + 1, hi, room - 1)
    else XPending(c, pel, now, lo + 1, hi, room)
  }

  /** `times_delivered < max_deliveries`. */
  predicate Reclaimable(c: Config, e: Stale) { e.count < c.maxDeliveries }

  function PoisonOf(c: Config, stale: seq<Stale>): (r: seq<Stale>)
    ensures forall e :: e in r <==> e in stale && e.count >= c.maxDeliveries
  {
    if stale == [] then []
    else (if Reclaimable(c, stale[0]) then [] else [stale[0]]) + PoisonOf(c, stale[1..])
  }

  /** The ids one XCLAIM call names. */
  predicate Claims(c: Config, stale: seq<Stale>, id: nat) {
    exists e :: e in stale && e.id == id && Reclaimable(c, e)
  }

  /** XCLAIM: an entry that is still pending and still idle enough changes hands. */
  function XClaim(c: Config, pel: map<nat, Pending>, now: nat, w: nat, stale: seq<Stale>): map<nat, Pending> {
    map id | id in pel ::
      if Claims(c, stale, id) && IdleEnough(c, pel[id], now) then Pending(w, now, pel[id].count + 1) else pel[id]
  }

  /** The reply to XCLAIM, as the calls it leads to. */
  function ClaimedJobs(c: Config, stream: seq<Entry>, pel: map<nat, Pending>, now: nat, stale: seq<Stale>): seq<Job> {
    if stale == [] then []
    else
      var e := stale[0];
      (if Reclaimable(c, e) && e.id in pel && e.id < |stream| && IdleEnough(c, pel[e.id], now)
       then [Handle(e.id, stream[e.id], now)] else [])
      + ClaimedJobs(c, stream, pel, now, stale[1..])
  }

  /** The reply to XREADGROUP, as the calls it leads to. */
  function NewJobs(stream: seq<Entry>, cursor: nat, now: nat, n: nat): seq<Job>
    requires cursor + n <= |stream|
  {
    seq(n, i requires 0 <= i < n => Handle(cursor + i, stream[cursor + i], now))
  }

  // ----- the database -----

  /** A primary-key insert; a duplicate key is rolled back and counts as done. */
  function InsertIfAbsent<K, V>(table: map<K, V>, key: K, row: V): map<K, V> {
    if key in table then table else table[key := row]
  }

  // ----- workers -----

  function Resume(jobs: seq<Job>): Local { if jobs == [] then Idle else Busy(Start, jobs) }

  predicate IsWorker(s: State, w: nat) { w < |s.workers| }

  predicate HasJob(s: State, w: nat, stage: Stage) {
    IsWorker(s, w) && s.workers[w].Busy? && s.workers[w].stage == stage && s.workers[w].jobs != []
  }

  function Put(s: State, w: nat, local: Local): State
    requires IsWorker(s, w)
  {
    s.(workers := s.workers[w := local])
  }

  /** The first job is over, whatever came of it. */
  function Finish(s: State, w: nat): State
    requires IsWorker(s, w) && s.workers[w].Busy? && s.workers[w].jobs != []
  {
    Put(s, w, Resume(s.workers[w].jobs[1..]))
  }

  // ----- one step -----

  function StepRead(s: State, w: nat, n: nat): Option<State> {
    if IsWorker(s, w) && s.workers[w].Idle? && s.cursor + n <= |s.stream| then
      Some(Put(s.(pel := Delivered(s.pel, s.cursor, s.now, w, n), cursor := s.cursor + n), w, Resume(NewJobs(s.stream, s.cursor, s.now, n))))
    else None
  }

  function StepSnapshot(c: Config, s: State, w: nat): Option<State> {
    if IsWorker(s, w) && s.workers[w].Idle? then
      Some(Put(s, w, Sweeping(XPending(c, s.pel, s.now, 0, s.cursor, c.batch), [])))
    else None
  }

  /** The next poison entry's fields are read, without touching its PEL record. */
  function StepXRange(c: Config, s: State, w: nat): Option<State> {
    if !IsWorker(s, w) || !s.workers[w].Sweeping? then None
    else
      var Sweeping(stale, poison) := s.workers[w];
      var all := PoisonOf(c, stale);
      if |poison| >= |all| || all[|poison|].id >= |s.stream| then None
      else
        var e := all[|poison|];
        Some(Put(s, w, Sweeping(stale, poison + [Quarantine(e.id, s.stream[e.id], e.count)])))
  }

  function StepClaim(c: Config, s: State, w: nat): Option<State> {
    if !IsWorker(s, w) || !s.workers[w].Sweeping? then None
    else
      var Sweeping(stale, poison) := s.workers[w];
      if |poison| != |PoisonOf(c, stale)| then None
      else Some(Put(s.(pel := XClaim(c, s.pel, s.now, w, stale)), w, Resume(poison + ClaimedJobs(c, s.stream, s.pel, s.now, stale))))
  }

  function StepParseFail(c: Config, s: State, w: nat): Option<State> {
    if HasJob(s, w, Start) && s.workers[w].jobs[0].Handle? && !c.parses(s.workers[w].jobs[0].entry)
    then Some(Finish(s, w))
    else None
  }

  /** `Sink.write` and what `handle_message` makes of it. A fresh event id is one no row has yet. */
  function StepPersist(c: Config, s: State, w: nat, freshId: string, utcNow: Datetime, fate: Fate): Option<State> {
    if !HasJob(s, w, Start) || !s.workers[w].jobs[0].Handle? then None
    else
      var entry := s.workers[w].jobs[0].entry;
      if !c.parses(entry) then None
      else if fate.Refused? then Some(Finish(s, w))
      else if c.carriedId(entry).None? && freshId in s.events then None
      else
        match c.eventRow(entry, freshId, utcNow)
        case None => None
        case Some((eventId, row)) =>
          var t := s.(events := InsertIfAbsent(s.events, eventId, row));
          Some(if fate.Landed? then Put(t, w, Busy(Durable, s.workers[w].jobs)) else Finish(t, w))
  }

  function StepQuarantine(c: Config, s: State, w: nat, fate: Fate): Option<State> {
    if !HasJob(s, w, Start) || !s.workers[w].jobs[0].Quarantine? then None
    else if fate.Refused? then Some(Finish(s, w))
    else
      var Quarantine(id, entry, attempts) := s.workers[w].jobs[0];
      var t := s.(quarantine := InsertIfAbsent(s.quarantine, id, c.quarantineRow(id, entry, attempts)));
      Some(if fate.Landed? then Put(t, w, Busy(Durable, s.workers[w].jobs)) else Finish(t, w))
  }

  function StepAck(s: State, w: nat): Option<State> {
    if HasJob(s, w, Durable) then Some(Finish(s.(pel := s.pel - {s.workers[w].jobs[0].id}), w)) else None
  }

  /** One step; None when the label is not enabled. A crash, and a failing ack, lose the worker's
      local state; the process that replaces it starts idle. */
  function Step(c: Config, s: State, l: Label): Option<State> {
    match l
    case Produce(entry) => Some(s.(stream := s.stream + [entry]))
    case Tick(d) => Some(s.(now := s.now + d))
    case Read(w, n) => StepRead(s, w, n)
    case Snapshot(w) => StepSnapshot(c, s, w)
    case XRange(w) => StepXRange(c, s, w)
    case Claim(w) => StepClaim(c, s, w)
    case ParseFail(w) => StepParseFail(c, s, w)
    case Persist(w, freshId, utcNow, fate) => StepPersist(c, s, w, freshId, utcNow, fate)
    case QuarantineWrite(w, fate) => StepQuarantine(c, s, w, fate)
    case Ack(w) => StepAck(s, w)
    case Crash(w) => if IsWorker(s, w) then Some(Put(s, w, Idle)) else None
  }

  // ----- runs -----

  function Initial(n: nat): State { State(0, [], 0, map[], map[], map[], seq(n, _ => Idle)) }

  /** The state after a sequence of labels; None when one of them was not enabled. */
  function Run(c: Config, s: State, ls: seq<Label>): Option<State> {
    if ls == [] then Some(s)
    else
      match Run(c, s, ls[..|ls| - 1])
      case None => None
      case Some(t) => Step(c, t, ls[|ls| - 1])
  }

  lemma {:induction false} RunPrefix(c: Config, s: State, ls: seq<Label>, i: nat)
    requires i <= |ls| && Run(c, s, ls).Some?
    ensures Run(c, s, ls[..i]).Some?
  {
    if i < |ls| {
      var init := ls[..|ls| - 1];
      RunPrefix(c, s, init, i);
      assert init[..i] == ls[..i];
    } else {
      assert ls[..i] == ls;
    }
  }

  lemma {:induction false} RunConcat(c: Config, s: State, ls: seq<Label>, ms: seq<Label>)
    requires Run(c, s, ls).Some?
    ensures Run(c, s, ls + ms) == Run(c, Run(c, s, ls).value, ms)
  {
    if ms == [] {
      assert ls + ms == ls;
    } else {
      var init := ms[..|ms| - 1];
      RunConcat(c, s, ls, init);
      assert (ls + ms)[..|ls + ms| - 1] == ls + init;
    }
  }

  lemma RunOne(c: Config, s: State, l: Label)
    ensures Run(c, s, [l]) == Step(c, s, l)
  {
    assert [l][..0] == [];
  }

  lemma RunSnoc(c: Config, s: State, ls: seq<Label>, l: Label)
    requires Run(c, s, ls).Some?
    ensures Run(c, s, ls + [l]) == Step(c, Run(c, s, ls).value, l)
  {
    assert (ls + [l])[..|ls|] == ls;
  }

  /** A run followed by one step. */
  lemma Then(c: Config, s: State, ls: seq<Label>, t: State, l: Label, u: State)
    requires Run(c, s, ls) == Some(t) && Step(c, t, l) == Some(u)
    ensures Run(c, s, ls + [l]) == Some(u)
  {
    RunSnoc(c, s, ls, l);
  }
}
