/**
 The worker's own code: `StreamReader` (consumers/stream_reader.py), the two sinks' database calls, and
 `handle_message`, `quarantine_and_ack`, `sweep_pending` and `run` (worker/main.py). Other processes run between
 any two of its calls. Every method takes the protocol of module Delivery from one state of a run to another.
 Whether a database call succeeds is up to the caller's oracles.
 */
module Worker {
  import opened Wrappers
  import opened Timestamps
  import opened RecordIntegrity
  import opened Delivery
  import opened Sweeps
  import Safety = DeliverySafety
  import Bound = DeliveryBound
  import Timing = DeliveryTiming

  /** What the environment answers: the fate of each entry's database writes. */
  datatype Oracle = Oracle(persists: nat -> Fate, quarantines: nat -> Fate)

  function Lands(fates: Oracle): nat -> bool { (id: nat) => fates.quarantines(id).Landed? }

  // ----- runs between calls -----

  /** Some run leads from one state to the other. */
  ghost predicate Leads(c: Config, s: State, t: State) { exists ls :: Run(c, s, ls) == Some(t) }

  ghost predicate Reachable(c: Config, s: State) { exists n :: Leads(c, Initial(n), s) }

  lemma LeadsSelf(c: Config, s: State)
    ensures Leads(c, s, s)
  {
    assert Run(c, s, []) == Some(s);
  }

  lemma StepLeads(c: Config, s: State, l: Label)
    requires Step(c, s, l).Some?
    ensures Leads(c, s, Step(c, s, l).value)
  {
    RunOne(c, s, l);
  }

  lemma LeadsOn(c: Config, s: State, t: State, u: State)
    requires Leads(c, s, t) && Leads(c, t, u)
    ensures Leads(c, s, u)
  {
    var ls :| Run(c, s, ls) == Some(t);
    var ms :| Run(c, t, ms) == Some(u);
    RunConcat(c, s, ls, ms);
  }

  lemma StepOn(c: Config, s: State, t: State, l: Label)
    requires Leads(c, s, t) && Step(c, t, l).Some?
    ensures Leads(c, s, Step(c, t, l).value)
  {
    StepLeads(c, t, l);
    LeadsOn(c, s, t, Step(c, t, l).value);
  }

  lemma StaysReachable(c: Config, s: State, t: State)
    requires Reachable(c, s) && Leads(c, s, t)
    ensures Reachable(c, t)
  {
    var n :| Leads(c, Initial(n), s);
    LeadsOn(c, Initial(n), s, t);
  }

  /** Every theorem about runs holds of a reachable state; these are the two used here. */
  lemma ReachableSane(c: Config, s: State)
    requires IsConfig(c) && Reachable(c, s)
    ensures Safety.Inv(c, s) && Timing.PelInOrder(s)
  {
    var n :| Leads(c, Initial(n), s);
    var ls :| Run(c, Initial(n), ls) == Some(s);
    Safety.RunKeeps(c, n, ls);
    Timing.RunPel(c, Initial(n), ls, 0, 0);
  }

  /** What holds after every call of every worker: no delivered entry is without evidence, and none is delivered
      more often than the limit and the number of workers allow. */
  lemma ReachableSafe(c: Config, s: State, id: nat)
    requires IsConfig(c) && Reachable(c, s) && id < s.cursor && s.workers != []
    ensures id < |s.stream| && (id in s.pel || Safety.Evidence(c, s, id))
    ensures id in s.pel ==> s.pel[id].count <= Bound.Limit(c) + |s.workers| - 1
  {
    var n :| Leads(c, Initial(n), s);
    var ls :| Run(c, Initial(n), ls) == Some(s);
    Safety.EveryDeliveredEntryAccountedFor(c, n, ls, id);
    Safety.RunGrows(c, Initial(n), ls, 0);
    if id in s.pel { Bound.RacingWorkersBound(c, n, ls, s, id); }
  }

  lemma {:induction false} ProduceAll(c: Config, s: State, entries: seq<Entry>)
    ensures Leads(c, s, s.(stream := s.stream + entries))
  {
    if entries == [] {
      assert s.stream + entries == s.stream;
      LeadsSelf(c, s);
    } else {
      var n := |entries| - 1;
      ProduceAll(c, s, entries[..n]);
      var t := s.(stream := s.stream + entries[..n]);
      StepOn(c, s, t, Produce(entries[n]));
      assert s.stream + entries[..n] + [entries[n]] == s.stream + entries;
    }
  }

  lemma PassLeads(c: Config, s: State, tick: nat, arrivals: seq<Entry>)
    ensures Leads(c, s, s.(now := s.now + tick, stream := s.stream + arrivals))
  {
    var t := s.(now := s.now + tick);
    assert Step(c, s, Tick(tick)) == Some(t);
    StepLeads(c, s, Tick(tick));
    ProduceAll(c, t, arrivals);
    LeadsOn(c, s, t, t.(stream := t.stream + arrivals));
  }

  // ----- other processes -----

  /** The label is a call of worker w. */
  predicate By(l: Label, w: nat) { !l.Produce? && !l.Tick? && l.w == w }

  lemma OthersKeep(c: Config, s: State, l: Label, w: nat)
    requires Step(c, s, l).Some? && !By(l, w) && w < |s.workers|
    ensures |Step(c, s, l).value.workers| == |s.workers| && Step(c, s, l).value.workers[w] == s.workers[w]
  {
  }

  lemma LeadsGrow(c: Config, s: State, t: State)
    requires Leads(c, s, t)
    ensures Safety.Grows(s, t)
  {
    var ls :| Run(c, s, ls) == Some(t);
    Safety.RunGrows(c, s, ls, 0);
  }

  lemma GrowsOn(s: State, t: State, u: State)
    requires Safety.Grows(s, t) && Safety.Grows(t, u)
    ensures Safety.Grows(s, u)
  {
  }

  /** Worker w is in a position. */
  predicate At(s: State, w: nat, local: Local) { w < |s.workers| && s.workers[w] == local }

  // ----- Redis and the database, with everyone on them -----

  /** The protocol's state, and what other processes will do before each of this worker's next calls. A label that
      is not enabled when its turn comes is skipped. */
  class World {
    const c: Config
    var s: State
    var script: seq<seq<Label>>

    constructor (c: Config, workers: nat, script: seq<seq<Label>>)
      ensures this.c == c && s == Initial(workers) && this.script == script && Reachable(c, s)
    {
      this.c, this.s, this.script := c, Initial(workers), script;
      new;
      LeadsSelf(c, Initial(workers));
    }

    method Interfere(w: nat)
      requires w < |s.workers|
      modifies this
      ensures Leads(c, old(s), s) && Safety.Grows(old(s), s) && w < |s.workers| && s.workers[w] == old(s).workers[w]
      ensures old(script) == [] ==> s == old(s) && script == []
    {
      LeadsSelf(c, s);
      if script == [] {
        return;
      }
      var labels := script[0];
      script := script[1..];
      for i := 0 to |labels|
        invariant Leads(c, old(s), s) && Safety.Grows(old(s), s) && w < |s.workers| && s.workers[w] == old(s).workers[w]
      {
        var t := Step(c, s, labels[i]);
        if !By(labels[i], w) && t.Some? {
          OthersKeep(c, s, labels[i], w);
          StepOn(c, old(s), s, labels[i]);
          Safety.StepGrows(c, s, labels[i]);
          GrowsOn(old(s), s, t.value);
          s := t.value;
        }
      }
    }

    /** Time passes and producers add entries. */
    method Pass(tick: nat, arrivals: seq<Entry>)
      modifies this`s
      ensures Leads(c, old(s), s) && s == old(s).(now := old(s).now + tick, stream := old(s).stream + arrivals)
    {
      PassLeads(c, s, tick, arrivals);
      s := s.(now := s.now + tick, stream := s.stream + arrivals);
    }

    /** XREADGROUP for new entries. */
    method XReadGroup(w: nat, count: nat) returns (jobs: seq<Job>)
      requires At(s, w, Idle) && s.cursor <= |s.stream|
      modifies this`s
      ensures var n := if count <= |old(s).stream| - old(s).cursor then count else |old(s).stream| - old(s).cursor;
        && jobs == NewJobs(old(s).stream, old(s).cursor, old(s).now, n)
        && s == Put(old(s).(pel := Delivered(old(s).pel, old(s).cursor, old(s).now, w, n), cursor := old(s).cursor + n), w, Resume(jobs))
      ensures Leads(c, old(s), s)
    {
      var n: nat := if count <= |s.stream| - s.cursor then count else |s.stream| - s.cursor;
      StepLeads(c, s, Read(w, n));
      jobs := NewJobs(s.stream, s.cursor, s.now, n);
      s := Put(s.(pel := Delivered(s.pel, s.cursor, s.now, w, n), cursor := s.cursor + n), w, Resume(jobs));
    }

    /** XPENDING: the first stale entries of the group, whoever owns them, with their delivery counts. */
    method XPendingRange(w: nat) returns (stale: seq<Stale>)
      requires At(s, w, Idle)
      modifies this`s
      ensures FirstStale(c, old(s).pel, old(s).now, 0, old(s).cursor, c.batch, stale)
      ensures stale == XPending(c, old(s).pel, old(s).now, 0, old(s).cursor, c.batch)
      ensures s == Put(old(s), w, Sweeping(stale, [])) && Leads(c, old(s), s)
    {
      StepLeads(c, s, Snapshot(w));
      XPendingIsFirstStale(c, s.pel, s.now, 0, s.cursor, c.batch);
      stale := XPending(c, s.pel, s.now, 0, s.cursor, c.batch);
      s := Put(s, w, Sweeping(stale, []));
    }

    /** XRANGE of one poison entry: a read, which leaves the pending list alone. */
    method XRangeOne(w: nat, stale: seq<Stale>, poison: seq<Job>) returns (job: Job)
      requires At(s, w, Sweeping(stale, poison)) && |poison| < |PoisonOf(c, stale)| && PoisonOf(c, stale)[|poison|].id < |s.stream|
      modifies this`s
      ensures var e := PoisonOf(c, stale)[|poison|]; job == Quarantine(e.id, old(s).stream[e.id], e.count)
      ensures s == Put(old(s), w, Sweeping(stale, poison + [job])) && Leads(c, old(s), s)
    {
      StepLeads(c, s, XRange(w));
      var e := PoisonOf(c, stale)[|poison|];
      job := Quarantine(e.id, s.stream[e.id], e.count);
      s := Put(s, w, Sweeping(stale, poison + [job]));
    }

    /** XCLAIM of the reclaimable entries of the snapshot. */
    method XClaimAll(w: nat, stale: seq<Stale>, poison: seq<Job>) returns (claimed: seq<Job>)
      requires At(s, w, Sweeping(stale, poison)) && |poison| == |PoisonOf(c, stale)|
      modifies this`s
      ensures claimed == ClaimedJobs(c, old(s).stream, old(s).pel, old(s).now, stale)
      ensures s == Put(old(s).(pel := XClaim(c, old(s).pel, old(s).now, w, stale)), w, Resume(poison + claimed))
      ensures Leads(c, old(s), s)
    {
      StepLeads(c, s, Claim(w));
      claimed := ClaimedJobs(c, s.stream, s.pel, s.now, stale);
      s := Put(s.(pel := XClaim(c, s.pel, s.now, w, stale)), w, Resume(poison + claimed));
    }

    /** XACK, once the entry's row is durable. */
    method XAck(w: nat, job: Job, rest: seq<Job>)
      requires At(s, w, Busy(Durable, [job] + rest))
      modifies this`s
      ensures s == Put(old(s).(pel := old(s).pel - {job.id}), w, Resume(rest)) && Leads(c, old(s), s)
    {
      assert ([job] + rest)[0] == job && ([job] + rest)[1..] == rest;
      StepLeads(c, s, Ack(w));
      s := Put(s.(pel := s.pel - {job.id}), w, Resume(rest));
    }

    /** The payload does not parse: no call is made, and the entry stays pending. */
    method GiveUp(w: nat, job: Job, rest: seq<Job>)
      requires At(s, w, Busy(Start, [job] + rest)) && job.Handle? && !c.parses(job.entry)
      modifies this`s
      ensures s == Put(old(s), w, Resume(rest)) && Leads(c, old(s), s)
    {
      assert ([job] + rest)[0] == job && ([job] + rest)[1..] == rest;
      StepLeads(c, s, ParseFail(w));
      s := Put(s, w, Resume(rest));
    }

    /** A new event id: any that no row has. */
    method NewEventId() returns (id: string)
      ensures id !in s.events
    {
      ghost var n := LongerThanAll(s.events.Keys);
      assert seq(n, i => 'x') !in s.events;
      id :| id !in s.events;
    }

    /** `Sink.write`: add, commit, and treat a duplicate key as done. False when it raises. */
    method WriteEvent(w: nat, job: Job, rest: seq<Job>, freshId: string, utcNow: Datetime, fate: Fate) returns (ok: bool)
      requires At(s, w, Busy(Start, [job] + rest)) && job.Handle? && c.parses(job.entry) && freshId !in s.events
      modifies this`s
      ensures ok <==> fate.Landed? && c.eventRow(job.entry, freshId, utcNow).Some?
      ensures var built := c.eventRow(job.entry, freshId, utcNow);
        s.events == if fate.Refused? || built.None? then old(s).events else InsertIfAbsent(old(s).events, built.value.0, built.value.1)
      ensures s == Put(old(s).(events := s.events), w, if ok then Busy(Durable, [job] + rest) else Resume(rest))
      ensures Leads(c, old(s), s)
    {
      assert ([job] + rest)[0] == job && ([job] + rest)[1..] == rest;
      var built := c.eventRow(job.entry, freshId, utcNow);
      if built.None? || fate.Refused? {
        StepLeads(c, s, Persist(w, freshId, utcNow, Refused));
        s := Put(s, w, Resume(rest));
        return false;
      }
      StepLeads(c, s, Persist(w, freshId, utcNow, fate));
      var (eventId, row) := built.value;
      ok := fate.Landed?;
      var events := if eventId in s.events then s.events else s.events[eventId := row];
      s := Put(s.(events := events), w, if ok then Busy(Durable, [job] + rest) else Resume(rest));
    }

    /** `QuarantineSink.write`. */
    method WriteQuarantine(w: nat, job: Job, rest: seq<Job>, fate: Fate) returns (ok: bool)
      requires At(s, w, Busy(Start, [job] + rest)) && job.Quarantine?
      modifies this`s
      ensures ok <==> fate.Landed?
      ensures s.quarantine == if fate.Refused? then old(s).quarantine
                              else InsertIfAbsent(old(s).quarantine, job.id, c.quarantineRow(job.id, job.entry, job.attempts))
      ensures s == Put(old(s).(quarantine := s.quarantine), w, if ok then Busy(Durable, [job] + rest) else Resume(rest))
      ensures Leads(c, old(s), s)
    {
      assert ([job] + rest)[0] == job && ([job] + rest)[1..] == rest;
      StepLeads(c, s, QuarantineWrite(w, fate));
      if fate.Refused? {
        s := Put(s, w, Resume(rest));
        return false;
      }
      ok := fate.Landed?;
      var rows := if job.id in s.quarantine then s.quarantine
                  else s.quarantine[job.id := c.quarantineRow(job.id, job.entry, job.attempts)];
      s := Put(s.(quarantine := rows), w, if ok then Busy(Durable, [job] + rest) else Resume(rest));
    }
  }

  /** A length no id in the set reaches. */
  lemma {:induction false} LongerThanAll(ids: set<string>) returns (n: nat)
    ensures forall id :: id in ids ==> |id| < n
  {
    n := 0;
    if ids != {} {
      var x :| x in ids;
      var m := LongerThanAll(ids - {x});
      n := if |x| < m then m else |x| + 1;
      assert forall id :: id in ids ==> id == x || id in ids - {x};
    }
  }

  // ----- what the worker's methods keep -----

  /** The entry's row, in audit_events: under the id it carries, or built from it under a new one. */
  ghost predicate Persisted(c: Config, events: map<string, Record>, entry: Entry) {
    var carried := c.carriedId(entry);
    if carried.Some? then carried.value in events else Safety.HasRow(c, events, entry)
  }

  lemma PersistedGrows(c: Config, a: map<string, Record>, b: map<string, Record>, entry: Entry)
    requires Persisted(c, a, entry) && Safety.Contains(b, a)
    ensures Persisted(c, b, entry)
  {
    if c.carriedId(entry).None? {
      var e, utcNow :| e in a && c.eventRow(entry, e, utcNow) == Some((e, a[e]));
      assert e in b && c.eventRow(entry, e, utcNow) == Some((e, b[e]));
    }
  }

  /** Time, stream and cursor are as they were. */
  predicate SameStream(s: State, t: State) { t.now == s.now && t.stream == s.stream && t.cursor == s.cursor }

  /** The jobs of a sweep: one quarantine job for each poison entry, in order, and handle jobs only for
      reclaimable ones. */
  ghost predicate SweepJobs(c: Config, stale: seq<Stale>, poison: seq<Job>, claimed: seq<Job>) {
    && Fetched(PoisonOf(c, stale), poison) && |poison| == |PoisonOf(c, stale)|
    && forall j :: j in claimed ==> j.Handle? && Claims(c, stale, j.id)
  }

  /** One Quarantine job for each poison entry so far, in order. */
  predicate Fetched(poisonIds: seq<Stale>, poison: seq<Job>) {
    |poison| <= |poisonIds| && forall k :: 0 <= k < |poison| ==> poison[k].Quarantine? && poison[k].id == poisonIds[k].id
  }

  lemma FetchedNext(poisonIds: seq<Stale>, poison: seq<Job>, job: Job)
    requires Fetched(poisonIds, poison) && |poison| < |poisonIds| && job.Quarantine? && job.id == poisonIds[|poison|].id
    ensures Fetched(poisonIds, poison + [job])
  {
  }

  lemma {:induction false} ClaimedAreReclaimable(c: Config, stream: seq<Entry>, pel: map<nat, Pending>, now: nat, stale: seq<Stale>)
    ensures forall j :: j in ClaimedJobs(c, stream, pel, now, stale) ==> j.Handle? && Claims(c, stale, j.id)
  {
    if stale != [] {
      ClaimedAreReclaimable(c, stream, pel, now, stale[1..]);
      assert forall id :: Claims(c, stale[1..], id) ==> Claims(c, stale, id);
      assert stale[0] in stale;
    }
  }

  /** A handle job for the entry, with its fields, is among those claimed. */
  ghost predicate IsClaimed(stream: seq<Entry>, id: nat, claimed: seq<Job>) {
    id < |stream| && exists j :: j in claimed && j.Handle? && j.id == id && j.entry == stream[id]
  }

  ghost predicate AllClaimed(c: Config, stream: seq<Entry>, stale: seq<Stale>, claimed: seq<Job>) {
    forall e :: e in stale && Reclaimable(c, e) ==> IsClaimed(stream, e.id, claimed)
  }

  /** A listed reclaimable entry that is still pending and idle is claimed. */
  lemma {:induction false} ReclaimableIsClaimed(c: Config, stream: seq<Entry>, pel: map<nat, Pending>, now: nat, stale: seq<Stale>, e: Stale)
    requires e in stale && Reclaimable(c, e) && e.id < |stream| && IsStale(c, pel, now, e.id)
    ensures IsClaimed(stream, e.id, ClaimedJobs(c, stream, pel, now, stale))
  {
    if e == stale[0] {
      assert Handle(e.id, stream[e.id], now) in ClaimedJobs(c, stream, pel, now, stale);
    } else {
      ReclaimableIsClaimed(c, stream, pel, now, stale[1..], e);
      var j :| j in ClaimedJobs(c, stream, pel, now, stale[1..]) && j.Handle? && j.id == e.id && j.entry == stream[e.id];
      assert j in ClaimedJobs(c, stream, pel, now, stale);
    }
  }

  /** What working off jobs does to the pending list: it only loses entries, each for a job that acked it. */
  ghost predicate Worked(c: Config, before: map<nat, Pending>, after: map<nat, Pending>, done: seq<Job>, fates: Oracle) {
    && (forall id :: id in after ==> id in before && after[id] == before[id])
    && (forall id :: id in before && id !in after ==> exists j :: j in done && Acks(c, j, id, fates))
    && (forall j :: j in done && j.Quarantine? && fates.quarantines(j.id).Landed? ==> j.id !in after)
  }

  /** The job acked the entry: its write landed, and what was handled parsed. */
  predicate Acks(c: Config, j: Job, id: nat, fates: Oracle) {
    j.id == id && if j.Quarantine? then fates.quarantines(id).Landed? else c.parses(j.entry) && fates.persists(id).Landed?
  }

  /** Handling an entry cannot fail: it parses, its write lands, and a row can be built under any new id. */
  ghost predicate Succeeds(c: Config, entry: Entry, fate: Fate, utcNow: Datetime) {
    c.parses(entry) && fate.Landed? && forall f :: c.eventRow(entry, f, utcNow).Some?
  }

  /** Every handled entry that could not fail has left the list, and its row is stored. */
  ghost predicate Saved(c: Config, s: State, done: seq<Job>, utcNow: Datetime, fates: Oracle) {
    forall j :: j in done && j.Handle? && Succeeds(c, j.entry, fates.persists(j.id), utcNow) ==>
      j.id !in s.pel && Persisted(c, s.events, j.entry)
  }

  lemma SavedOne(c: Config, s: State, t: State, done: seq<Job>, j: Job, acked: bool, utcNow: Datetime, fates: Oracle)
    requires Saved(c, s, done, utcNow, fates) && Leads(c, s, t) && t.pel == if acked then s.pel - {j.id} else s.pel
    requires j.Handle? && acked ==> Persisted(c, t.events, j.entry)
    requires j.Handle? && Succeeds(c, j.entry, fates.persists(j.id), utcNow) ==> acked
    ensures Saved(c, t, done + [j], utcNow, fates)
  {
    LeadsGrow(c, s, t);
    forall k | k in done + [j] && k.Handle? && Succeeds(c, k.entry, fates.persists(k.id), utcNow)
      ensures k.id !in t.pel && Persisted(c, t.events, k.entry)
    {
      if k != j { PersistedGrows(c, s.events, t.events, k.entry); }
    }
  }

  lemma WorkedOne(c: Config, before: map<nat, Pending>, mid: map<nat, Pending>, after: map<nat, Pending>, done: seq<Job>, j: Job,
                  acked: bool, fates: Oracle)
    requires Worked(c, before, mid, done, fates) && after == if acked then mid - {j.id} else mid
    requires j.Quarantine? ==> (acked <==> fates.quarantines(j.id).Landed?)
    requires j.Handle? && acked ==> c.parses(j.entry) && fates.persists(j.id).Landed?
    ensures Worked(c, before, after, done + [j], fates)
  {
    assert j in done + [j] && forall k :: k in done ==> k in done + [j];
    forall id | id in before && id !in after ensures exists k :: k in done + [j] && Acks(c, k, id, fates) {
      if id !in mid {
        var k :| k in done && Acks(c, k, id, fates);
        assert k in done + [j];
      } else {
        assert Acks(c, j, id, fates);
      }
    }
  }

  lemma {:induction false} PoisonJob(c: Config, stale: seq<Stale>, poison: seq<Job>, e: Stale)
    requires Fetched(PoisonOf(c, stale), poison) && |poison| == |PoisonOf(c, stale)| && e in PoisonOf(c, stale)
    ensures exists j :: j in poison && j.Quarantine? && j.id == e.id
  {
    var k :| 0 <= k < |poison| && PoisonOf(c, stale)[k] == e;
    assert poison[k] in poison;
  }

  lemma PoisonJobListed(c: Config, stale: seq<Stale>, poison: seq<Job>, j: Job)
    requires Fetched(PoisonOf(c, stale), poison) && j in poison
    ensures j.Quarantine? && Listed(stale, j.id)
  {
    var k :| 0 <= k < |poison| && poison[k] == j;
    assert PoisonOf(c, stale)[k] in PoisonOf(c, stale);
  }

  /** Claiming and then working off all jobs is the sweep of module Sweeps. */
  lemma SweepIsEffect(c: Config, s: State, after: map<nat, Pending>, w: nat, poison: seq<Job>, claimed: seq<Job>, fates: Oracle)
    requires var stale := XPending(c, s.pel, s.now, 0, s.cursor, c.batch);
      SweepJobs(c, stale, poison, claimed) && Worked(c, XClaim(c, s.pel, s.now, w, stale), after, poison + claimed, fates)
    ensures SweepEffect(c, s.pel, after, w, s.now, XPending(c, s.pel, s.now, 0, s.cursor, c.batch), Lands(fates))
  {
    var stale := XPending(c, s.pel, s.now, 0, s.cursor, c.batch);
    Safety.PendingDelivered(c, s.pel, s.now, 0, s.cursor, c.batch);
    forall id | id in s.pel && !Listed(stale, id) ensures id in after && after[id] == s.pel[id] {
      UnlistedStays(c, stale, XClaim(c, s.pel, s.now, w, stale), after, poison, claimed, fates, id);
    }
    forall id | id in s.pel && Listed(stale, id) && s.pel[id].count >= c.maxDeliveries ensures id in after <==> !Lands(fates)(id) {
      var e :| e in stale && e.id == id;
      PoisonJob(c, stale, poison, e);
      PoisonStaysIff(c, s, XClaim(c, s.pel, s.now, w, stale), after, poison, claimed, fates, id);
    }
    forall id | id in after && Listed(stale, id)
      ensures if s.pel[id].count < c.maxDeliveries then after[id] == Pending(w, s.now, s.pel[id].count + 1)
              else !Lands(fates)(id) && after[id] == s.pel[id]
    {
      var e :| e in stale && e.id == id;
      assert Reclaimable(c, e) <==> Claims(c, stale, id);
    }
  }

  /** A listed entry under the limit whose handling cannot fail is out of the list after the sweep, and stored. */
  ghost predicate ReclaimedSaved(c: Config, s: State, t: State, utcNow: Datetime, fates: Oracle) {
    forall e :: e in XPending(c, s.pel, s.now, 0, s.cursor, c.batch) && Reclaimable(c, e) ==>
      e.id < |s.stream| && (Succeeds(c, s.stream[e.id], fates.persists(e.id), utcNow) ==>
        e.id !in t.pel && Persisted(c, t.events, s.stream[e.id]))
  }

  lemma SavedAfterSweep(c: Config, s: State, t: State, stale: seq<Stale>, poison: seq<Job>, claimed: seq<Job>, utcNow: Datetime, fates: Oracle)
    requires stale == XPending(c, s.pel, s.now, 0, s.cursor, c.batch) && AllClaimed(c, s.stream, stale, claimed)
    requires Saved(c, t, poison + claimed, utcNow, fates)
    ensures ReclaimedSaved(c, s, t, utcNow, fates)
  {
    forall e | e in stale && Reclaimable(c, e)
      ensures e.id < |s.stream|
      ensures Succeeds(c, s.stream[e.id], fates.persists(e.id), utcNow) ==> e.id !in t.pel && Persisted(c, t.events, s.stream[e.id])
    {
      assert IsClaimed(s.stream, e.id, claimed);
      var j :| j in claimed && j.Handle? && j.id == e.id && j.entry == s.stream[e.id];
      assert j in poison + claimed;
    }
  }

  lemma UnlistedStays(c: Config, stale: seq<Stale>, before: map<nat, Pending>, after: map<nat, Pending>, poison: seq<Job>, claimed: seq<Job>,
                      fates: Oracle, id: nat)
    requires SweepJobs(c, stale, poison, claimed) && Worked(c, before, after, poison + claimed, fates)
    requires id in before && !Listed(stale, id)
    ensures id in after && after[id] == before[id]
  {
    if id !in after {
      var j :| j in poison + claimed && Acks(c, j, id, fates);
      if j in poison { PoisonJobListed(c, stale, poison, j); }
    }
  }

  lemma PoisonStaysIff(c: Config, s: State, before: map<nat, Pending>, after: map<nat, Pending>, poison: seq<Job>, claimed: seq<Job>,
                       fates: Oracle, id: nat)
    requires var stale := XPending(c, s.pel, s.now, 0, s.cursor, c.batch);
      SweepJobs(c, stale, poison, claimed) && Worked(c, before, after, poison + claimed, fates)
    requires id in before && id in s.pel && s.pel[id].count >= c.maxDeliveries && exists j :: j in poison && j.Quarantine? && j.id == id
    ensures id in after <==> !fates.quarantines(id).Landed?
  {
    var stale := XPending(c, s.pel, s.now, 0, s.cursor, c.batch);
    Safety.PendingDelivered(c, s.pel, s.now, 0, s.cursor, c.batch);
    var q :| q in poison && q.Quarantine? && q.id == id;
    assert q in poison + claimed;
    if id !in after {
      var j :| j in poison + claimed && Acks(c, j, id, fates);
      if j in poison { PoisonJobListed(c, stale, poison, j); }
    }
  }

  // ----- worker/main.py -----

  /** One worker process. */
  class Consumer {
    const world: World
    const w: nat

    constructor (world: World, w: nat)
      ensures this.world == world && this.w == w
    {
      this.world, this.w := world, w;
    }

    /** `handle_message`: parse, persist, and only then ack. */
    method HandleMessage(job: Job, rest: seq<Job>, utcNow: Datetime, fate: Fate) returns (acked: bool)
      requires IsConfig(world.c) && At(world.s, w, Busy(Start, [job] + rest)) && job.Handle?
      modifies world
      ensures Leads(world.c, old(world.s), world.s) && At(world.s, w, Resume(rest))
      ensures acked ==> world.c.parses(job.entry) && fate.Landed? && Persisted(world.c, world.s.events, job.entry)
      ensures Succeeds(world.c, job.entry, fate, utcNow) ==> acked
      ensures old(world.script) == [] ==>
        && world.script == [] && SameStream(old(world.s), world.s)
        && world.s.pel == if acked then old(world.s).pel - {job.id} else old(world.s).pel
    {
      if !world.c.parses(job.entry) {
        world.GiveUp(w, job, rest);
        return false;
      }
      world.Interfere(w);
      ghost var t := world.s;
      var freshId := world.NewEventId();
      var ok := world.WriteEvent(w, job, rest, freshId, utcNow, fate);
      LeadsOn(world.c, old(world.s), t, world.s);
      if !ok {
        return false;
      }
      assert Persisted(world.c, world.s.events, job.entry);
      ghost var u := world.s;
      world.Interfere(w);
      LeadsOn(world.c, old(world.s), u, world.s);
      PersistedGrows(world.c, u.events, world.s.events, job.entry);
      ghost var v := world.s;
      world.XAck(w, job, rest);
      LeadsOn(world.c, old(world.s), v, world.s);
      return true;
    }

    /** `quarantine_and_ack`: the row first, the ack only after it. */
    method QuarantineAndAck(job: Job, rest: seq<Job>, fate: Fate) returns (acked: bool)
      requires At(world.s, w, Busy(Start, [job] + rest)) && job.Quarantine?
      modifies world
      ensures Leads(world.c, old(world.s), world.s) && At(world.s, w, Resume(rest))
      ensures acked <==> fate.Landed?
      ensures acked ==> job.id in world.s.quarantine
      ensures old(world.script) == [] ==>
        && world.script == [] && SameStream(old(world.s), world.s)
        && world.s.pel == if acked then old(world.s).pel - {job.id} else old(world.s).pel
    {
      world.Interfere(w);
      ghost var t := world.s;
      var ok := world.WriteQuarantine(w, job, rest, fate);
      LeadsOn(world.c, old(world.s), t, world.s);
      if !ok {
        return false;
      }
      ghost var u := world.s;
      world.Interfere(w);
      LeadsOn(world.c, old(world.s), u, world.s);
      ghost var v := world.s;
      world.XAck(w, job, rest);
      LeadsOn(world.c, old(world.s), v, world.s);
      return true;
    }

    /** `StreamReader.claim_stale`: XPENDING, one XRANGE per poison entry, then XCLAIM, with other workers' calls
        in between. */
    method ClaimStale() returns (claimed: seq<Job>, poison: seq<Job>, ghost stale: seq<Stale>)
      requires IsConfig(world.c) && Reachable(world.c, world.s) && At(world.s, w, Idle)
      modifies world
      ensures Leads(world.c, old(world.s), world.s) && At(world.s, w, Resume(poison + claimed))
      ensures SweepJobs(world.c, stale, poison, claimed)
      ensures old(world.script) == [] ==>
        && world.script == [] && SameStream(old(world.s), world.s)
        && stale == XPending(world.c, old(world.s).pel, old(world.s).now, 0, old(world.s).cursor, world.c.batch)
        && world.s.pel == XClaim(world.c, old(world.s).pel, old(world.s).now, w, stale)
        && AllClaimed(world.c, old(world.s).stream, stale, claimed)
    {
      world.Interfere(w);
      StaysReachable(world.c, old(world.s), world.s);
      ghost var t := world.s;
      var seen := world.XPendingRange(w);
      LeadsOn(world.c, old(world.s), t, world.s);
      stale := seen;
      ghost var u := world.s;
      StaysReachable(world.c, old(world.s), u);
      poison := FetchPoison(seen);
      LeadsOn(world.c, old(world.s), u, world.s);
      u := world.s;
      world.Interfere(w);
      LeadsOn(world.c, old(world.s), u, world.s);
      ghost var v := world.s;
      StaysReachable(world.c, old(world.s), v);
      ReachableSane(world.c, v);
      claimed := world.XClaimAll(w, seen, poison);
      LeadsOn(world.c, old(world.s), v, world.s);
      ClaimedAreReclaimable(world.c, v.stream, v.pel, v.now, seen);
      if old(world.script) == [] {
        forall e | e in stale && Reclaimable(world.c, e) ensures IsClaimed(v.stream, e.id, claimed) {
          ReclaimableIsClaimed(world.c, v.stream, v.pel, v.now, seen, e);
        }
      }
    }

    /** The loop over poison entries: a read of the stream each, the list untouched. */
    method FetchPoison(seen: seq<Stale>) returns (poison: seq<Job>)
      requires IsConfig(world.c) && Reachable(world.c, world.s) && At(world.s, w, Sweeping(seen, []))
      modifies world
      ensures Leads(world.c, old(world.s), world.s) && At(world.s, w, Sweeping(seen, poison))
      ensures Fetched(PoisonOf(world.c, seen), poison) && |poison| == |PoisonOf(world.c, seen)|
      ensures old(world.script) == [] ==> world.script == [] && SameStream(old(world.s), world.s) && world.s.pel == old(world.s).pel
    {
      var poisonIds := PoisonOf(world.c, seen);
      poison := [];
      LeadsSelf(world.c, world.s);
      for i := 0 to |poisonIds|
        invariant Leads(world.c, old(world.s), world.s) && At(world.s, w, Sweeping(seen, poison))
        invariant |poison| == i && Fetched(poisonIds, poison)
        invariant old(world.script) == [] ==> world.script == [] && SameStream(old(world.s), world.s) && world.s.pel == old(world.s).pel
      {
        ghost var t := world.s;
        StaysReachable(world.c, old(world.s), t);
        var job := FetchOne(seen, poison);
        LeadsOn(world.c, old(world.s), t, world.s);
        FetchedNext(poisonIds, poison, job);
        poison := poison + [job];
      }
    }

    /** One iteration of it. */
    method FetchOne(seen: seq<Stale>, poison: seq<Job>) returns (job: Job)
      requires IsConfig(world.c) && Reachable(world.c, world.s) && At(world.s, w, Sweeping(seen, poison))
      requires |poison| < |PoisonOf(world.c, seen)|
      modifies world
      ensures Leads(world.c, old(world.s), world.s) && At(world.s, w, Sweeping(seen, poison + [job]))
      ensures job.Quarantine? && job.id == PoisonOf(world.c, seen)[|poison|].id < |world.s.stream| && job.entry == world.s.stream[job.id]
      ensures old(world.script) == [] ==> world.script == [] && SameStream(old(world.s), world.s) && world.s.pel == old(world.s).pel
    {
      world.Interfere(w);
      ghost var t := world.s;
      StaysReachable(world.c, old(world.s), t);
      PoisonInStream(world.c, t, w, seen, poison);
      job := world.XRangeOne(w, seen, poison);
      LeadsOn(world.c, old(world.s), t, world.s);
    }

    /** One job, by its kind. */
    method WorkOff(job: Job, rest: seq<Job>, utcNow: Datetime, fates: Oracle) returns (acked: bool)
      requires IsConfig(world.c) && At(world.s, w, Busy(Start, [job] + rest))
      modifies world
      ensures Leads(world.c, old(world.s), world.s) && At(world.s, w, Resume(rest))
      ensures job.Quarantine? ==> (acked <==> fates.quarantines(job.id).Landed?)
      ensures job.Handle? && acked ==>
        world.c.parses(job.entry) && fates.persists(job.id).Landed? && Persisted(world.c, world.s.events, job.entry)
      ensures job.Handle? && Succeeds(world.c, job.entry, fates.persists(job.id), utcNow) ==> acked
      ensures old(world.script) == [] ==>
        && world.script == [] && SameStream(old(world.s), world.s)
        && world.s.pel == if acked then old(world.s).pel - {job.id} else old(world.s).pel
    {
      if job.Quarantine? {
        acked := QuarantineAndAck(job, rest, fates.quarantines(job.id));
      } else {
        acked := HandleMessage(job, rest, utcNow, fates.persists(job.id));
      }
    }

    /** The two loops of `sweep_pending`, and the one of `run`: each job in turn. */
    method WorkOffAll(jobs: seq<Job>, utcNow: Datetime, fates: Oracle)
      requires IsConfig(world.c) && At(world.s, w, Resume(jobs))
      modifies world
      ensures Leads(world.c, old(world.s), world.s) && At(world.s, w, Idle)
      ensures old(world.script) == [] ==>
        && world.script == [] && SameStream(old(world.s), world.s)
        && Worked(world.c, old(world.s).pel, world.s.pel, jobs, fates) && Saved(world.c, world.s, jobs, utcNow, fates)
    {
      LeadsSelf(world.c, world.s);
      for i := 0 to |jobs|
        invariant Leads(world.c, old(world.s), world.s) && At(world.s, w, Resume(jobs[i..]))
        invariant old(world.script) == [] ==>
          && world.script == [] && SameStream(old(world.s), world.s)
          && Worked(world.c, old(world.s).pel, world.s.pel, jobs[..i], fates) && Saved(world.c, world.s, jobs[..i], utcNow, fates)
      {
        ghost var t := world.s;
        assert jobs[i..] == [jobs[i]] + jobs[i + 1..];
        var acked := WorkOff(jobs[i], jobs[i + 1..], utcNow, fates);
        LeadsOn(world.c, old(world.s), t, world.s);
        if old(world.script) == [] {
          WorkedOne(world.c, old(world.s).pel, t.pel, world.s.pel, jobs[..i], jobs[i], acked, fates);
          SavedOne(world.c, t, world.s, jobs[..i], jobs[i], acked, utcNow, fates);
          assert jobs[..i + 1] == jobs[..i] + [jobs[i]];
        }
      }
      assert jobs[..|jobs|] == jobs;
    }

    /** `sweep_pending`: poison entries to quarantine first, then the reclaimed ones through `handle_message`. */
    method SweepPending(utcNow: Datetime, fates: Oracle)
      requires IsConfig(world.c) && Reachable(world.c, world.s) && At(world.s, w, Idle)
      modifies world
      ensures Leads(world.c, old(world.s), world.s) && At(world.s, w, Idle)
      ensures old(world.script) == [] ==>
        && world.script == [] && SameStream(old(world.s), world.s)
        && SweepEffect(world.c, old(world.s).pel, world.s.pel, w, old(world.s).now,
                       XPending(world.c, old(world.s).pel, old(world.s).now, 0, old(world.s).cursor, world.c.batch), Lands(fates))
        && ReclaimedSaved(world.c, old(world.s), world.s, utcNow, fates)
    {
      var claimed, poison; ghost var stale;
      claimed, poison, stale := ClaimStale();
      ghost var t := world.s;
      WorkOffAll(poison + claimed, utcNow, fates);
      LeadsOn(world.c, old(world.s), t, world.s);
      if old(world.script) == [] {
        SweepIsEffect(world.c, old(world.s), world.s.pel, w, poison, claimed, fates);
        SavedAfterSweep(world.c, old(world.s), world.s, stale, poison, claimed, utcNow, fates);
      }
    }

    /** The rest of an iteration of `run`: XREADGROUP for new entries, then each through `handle_message`. */
    method ReadAndHandle(count: nat, utcNow: Datetime, fates: Oracle)
      requires IsConfig(world.c) && Reachable(world.c, world.s) && At(world.s, w, Idle)
      modifies world
      ensures Leads(world.c, old(world.s), world.s) && At(world.s, w, Idle)
      ensures old(world.script) == [] ==>
        && world.script == [] && world.s.now == old(world.s).now && world.s.stream == old(world.s).stream
        && old(world.s).cursor <= world.s.cursor && world.s.cursor == NextCursor(world.s, old(world.s).cursor, count)
        && SameBelow(old(world.s).pel, world.s.pel, old(world.s).cursor)
        && Handled(world.c, world.s, old(world.s).cursor, w, utcNow, fates)
    {
      world.Interfere(w);
      ghost var t := world.s;
      StaysReachable(world.c, old(world.s), t);
      ReachableSane(world.c, t);
      var jobs := world.XReadGroup(w, count);
      LeadsOn(world.c, old(world.s), t, world.s);
      ghost var u := world.s;
      WorkOffAll(jobs, utcNow, fates);
      LeadsOn(world.c, old(world.s), u, world.s);
      if old(world.script) == [] {
        NewAreHandled(world.c, t, u, world.s, u.cursor - t.cursor, w, jobs, utcNow, fates);
      }
    }

    /** One iteration of `run`: time and new entries, a sweep, then new entries. */
    method Iterate(it: Iteration, count: nat) returns (ghost round: Round)
      requires IsConfig(world.c) && Reachable(world.c, world.s) && At(world.s, w, Idle)
      modifies world
      ensures Leads(world.c, old(world.s), world.s) && At(world.s, w, Idle)
      ensures old(world.script) == [] ==> world.script == [] && IsRound(world.c, round, w) && Between(old(world.s), world.s, round, it)
      ensures old(world.script) == [] ==>
        && world.s.stream == old(world.s).stream + it.arrivals
        && world.s.cursor == NextCursor(world.s, old(world.s).cursor, count)
        && Handled(world.c, world.s, old(world.s).cursor, w, it.utcNow, it.fates)
    {
      world.Pass(it.tick, it.arrivals);
      ghost var u := world.s;
      StaysReachable(world.c, old(world.s), u);
      SweepPending(it.utcNow, it.fates);
      LeadsOn(world.c, old(world.s), u, world.s);
      ghost var v := world.s;
      StaysReachable(world.c, old(world.s), v);
      ReadAndHandle(count, it.utcNow, it.fates);
      LeadsOn(world.c, old(world.s), v, world.s);
      round := Round(u.now, u.cursor, u.pel, v.pel, Lands(it.fates));
    }

    /** One more, after what the loop has come to so far. */
    method IterateOnce(ghost first: State, ghost rounds: seq<Round>, ghost done: seq<Iteration>, it: Iteration, count: nat)
      returns (ghost more: seq<Round>)
      requires IsConfig(world.c) && Reachable(world.c, first) && Leads(world.c, first, world.s) && At(world.s, w, Idle)
      modifies world
      ensures Leads(world.c, first, world.s) && At(world.s, w, Idle)
      ensures old(world.script) == [] && SoFar(world.c, first, old(world.s), rounds, w, done, count) ==>
        world.script == [] && SoFar(world.c, first, world.s, more, w, done + [it], count)
    {
      StaysReachable(world.c, first, world.s);
      ghost var round := Iterate(it, count);
      LeadsOn(world.c, first, old(world.s), world.s);
      more := rounds + [round];
      if old(world.script) == [] && SoFar(world.c, first, old(world.s), rounds, w, done, count) {
        OneMore(world.c, first, old(world.s), world.s, rounds, round, w, done, it, count);
      }
    }

    /** `run(max_iterations)`: sweep, read, handle, with time and new entries before each. With nobody else on the
        group, once as many idle thresholds as the summed rank have passed, however the sweeps fall, only those of
        the entries delivered before the first iteration remain whose quarantine writes fail, if they are fewer than
        a sweep lists. Behind a full batch of those an entry stays as it was. Each iteration reads up to `count` new
        entries, and what it reads is stored and gone from the list wherever handling it cannot fail. */
    method RunLoop(iterations: seq<Iteration>, count: nat) returns (ghost rounds: seq<Round>)
      requires IsConfig(world.c) && Reachable(world.c, world.s) && At(world.s, w, Idle)
      modifies world
      ensures Leads(world.c, old(world.s), world.s) && Reachable(world.c, world.s) && At(world.s, w, Idle)
      ensures old(world.script) == [] ==>
        world.script == [] && AloneItDoes(world.c, old(world.s), world.s, rounds, w, iterations, count)
    {
      rounds := [];
      ghost var first := world.s;
      ghost var alone := world.script == [];
      LeadsSelf(world.c, first);
      NothingYet(world.c, first, w, count);
      assert iterations[..0] == [];
      for i := 0 to |iterations|
        invariant Leads(world.c, first, world.s) && At(world.s, w, Idle)
        invariant alone ==> world.script == [] && SoFar(world.c, first, world.s, rounds, w, iterations[..i], count)
      {
        rounds := IterateOnce(first, rounds, iterations[..i], iterations[i], count);
        assert iterations[..i + 1] == iterations[..i] + [iterations[i]];
      }
      StaysReachable(world.c, first, world.s);
      assert iterations[..|iterations|] == iterations;
      if alone {
        Outcome(world.c, first, world.s, rounds, w, iterations, count);
      }
    }
  }

  /** What the environment does in one iteration: time and entries before it, and the answers it gets. */
  datatype Iteration = Iteration(tick: nat, arrivals: seq<Entry>, utcNow: Datetime, fates: Oracle)

  // ----- what the loop reads -----

  /** XREADGROUP moves the cursor by `count`, or to the end of the stream. */
  function NextCursor(s: State, cursor: nat, count: nat): nat {
    if cursor + count <= |s.stream| then cursor + count else |s.stream|
  }

  /** A delivered entry: gone from the list and stored if handling it cannot fail; pending, delivered once, if it
      does not parse or its write does not land. */
  ghost predicate HandledOne(c: Config, s: State, id: nat, entry: Entry, w: nat, utcNow: Datetime, fates: Oracle) {
    && (Succeeds(c, entry, fates.persists(id), utcNow) ==> id !in s.pel && Persisted(c, s.events, entry))
    && (!c.parses(entry) || !fates.persists(id).Landed? ==> id in s.pel && s.pel[id] == Pending(w, s.now, 1))
  }

  /** So are all entries delivered from `from` on. */
  ghost predicate Handled(c: Config, s: State, from: nat, w: nat, utcNow: Datetime, fates: Oracle) {
    forall id: nat :: from <= id < s.cursor && id < |s.stream| ==> HandledOne(c, s, id, s.stream[id], w, utcNow, fates)
  }

  lemma NewIsHandled(c: Config, before: State, n: nat, read: map<nat, Pending>, after: State, w: nat, jobs: seq<Job>,
                     utcNow: Datetime, fates: Oracle, id: nat)
    requires before.cursor <= id < before.cursor + n <= |before.stream| && after.now == before.now
    requires jobs == NewJobs(before.stream, before.cursor, before.now, n)
    requires id in read && read[id] == Pending(w, before.now, 1)
    requires Worked(c, read, after.pel, jobs, fates) && Saved(c, after, jobs, utcNow, fates)
    ensures HandledOne(c, after, id, before.stream[id], w, utcNow, fates)
  {
    var job := Handle(id, before.stream[id], before.now);
    NewJobOf(before.stream, before.cursor, before.now, n, id);
    if id !in after.pel {
      var j :| j in jobs && Acks(c, j, id, fates);
      assert j == job;
    }
  }

  /** Every new entry has its one job. */
  lemma NewJobOf(stream: seq<Entry>, cursor: nat, now: nat, n: nat, id: nat)
    requires cursor <= id < cursor + n <= |stream|
    ensures Handle(id, stream[id], now) in NewJobs(stream, cursor, now, n)
    ensures forall j :: j in NewJobs(stream, cursor, now, n) && j.id == id ==> j == Handle(id, stream[id], now)
  {
    assert NewJobs(stream, cursor, now, n)[id - cursor] == Handle(id, stream[id], now);
  }

  lemma NewAreHandled(c: Config, before: State, read: State, after: State, n: nat, w: nat, jobs: seq<Job>, utcNow: Datetime, fates: Oracle)
    requires before.cursor + n <= |before.stream| && jobs == NewJobs(before.stream, before.cursor, before.now, n)
    requires read.pel == Delivered(before.pel, before.cursor, before.now, w, n)
    requires after.now == before.now && after.stream == before.stream && after.cursor == before.cursor + n
    requires Worked(c, read.pel, after.pel, jobs, fates) && Saved(c, after, jobs, utcNow, fates)
    ensures Handled(c, after, before.cursor, w, utcNow, fates) && SameBelow(before.pel, after.pel, before.cursor)
  {
    forall id: nat | before.cursor <= id < after.cursor ensures HandledOne(c, after, id, after.stream[id], w, utcNow, fates) {
      NewIsHandled(c, before, n, read.pel, after, w, jobs, utcNow, fates, id);
    }
    assert forall j :: j in jobs ==> j.id >= before.cursor;
  }

  function Arrivals(iterations: seq<Iteration>): seq<Entry> {
    if iterations == [] then [] else Arrivals(iterations[..|iterations| - 1]) + iterations[|iterations| - 1].arrivals
  }

  /** k reads of `count` each. */
  function Times(k: nat, count: nat): nat { if k == 0 then 0 else Times(k - 1, count) + count }

  lemma {:induction false} TimesIsProduct(k: nat, count: nat)
    ensures Times(k, count) == k * count
  {
    if k > 0 {
      TimesIsProduct(k - 1, count);
      assert (k - 1) * count + count == k * count;
    }
  }

  /** All that had arrived is read, but for what exceeds `count` for each later iteration. */
  predicate ReadSince(from: nat, arrived: nat, cursor: nat, count: nat, later: nat) {
    cursor >= arrived || cursor >= from + Times(later, count)
  }

  /** However the arrivals fall, the loop keeps up with those of its first j iterations. */
  ghost predicate KeepsUp(s: State, t: State, iterations: seq<Iteration>, count: nat) {
    && s.cursor <= t.cursor <= |t.stream| && t.cursor <= s.cursor + Times(|iterations|, count)
    && forall j: nat :: j <= |iterations| ==>
         ReadSince(s.cursor, |s.stream| + |Arrivals(iterations[..j])|, t.cursor, count, |iterations| - j)
  }

  /** An entry the loop delivered that parses, whose writes land and whose row can be built in every iteration is
      out of the list, and its row is stored. */
  ghost predicate HandlesNew(c: Config, s: State, t: State, iterations: seq<Iteration>) {
    forall id: nat :: s.cursor <= id < t.cursor && id < |t.stream| && NeverFails(c, t.stream[id], id, iterations) ==>
      id !in t.pel && Persisted(c, t.events, t.stream[id])
  }

  ghost predicate NeverFails(c: Config, entry: Entry, id: nat, iterations: seq<Iteration>) {
    forall i :: 0 <= i < |iterations| ==> Succeeds(c, entry, iterations[i].fates.persists(id), iterations[i].utcNow)
  }

  ghost predicate Progress(c: Config, s: State, t: State, iterations: seq<Iteration>, count: nat) {
    && t.stream == s.stream + Arrivals(iterations)
    && KeepsUp(s, t, iterations, count) && HandlesNew(c, s, t, iterations)
  }

  lemma ReadSinceNext(from: nat, arrived: nat, cursor: nat, count: nat, later: nat, length: nat)
    requires ReadSince(from, arrived, cursor, count, later) && arrived <= length
    ensures ReadSince(from, arrived, if cursor + count <= length then cursor + count else length, count, later + 1)
  {
  }

  lemma KeepsUpNext(s: State, t: State, u: State, iterations: seq<Iteration>, it: Iteration, count: nat)
    requires KeepsUp(s, t, iterations, count) && t.stream == s.stream + Arrivals(iterations)
    requires u.stream == t.stream + it.arrivals && u.cursor == NextCursor(u, t.cursor, count)
    ensures KeepsUp(s, u, iterations + [it], count)
  {
    var its := iterations + [it];
    forall j: nat | j <= |its|
      ensures ReadSince(s.cursor, |s.stream| + |Arrivals(its[..j])|, u.cursor, count, |its| - j)
    {
      if j == |its| {
        assert Times(0, count) == 0;
      } else {
        assert its[..j] == iterations[..j];
        ArrivalsGrow(iterations, j);
        ReadSinceNext(s.cursor, |s.stream| + |Arrivals(iterations[..j])|, t.cursor, count, |iterations| - j, |u.stream|);
      }
    }
  }

  lemma {:induction false} ArrivalsGrow(iterations: seq<Iteration>, j: nat)
    requires j <= |iterations|
    ensures |Arrivals(iterations[..j])| <= |Arrivals(iterations)|
  {
    if j == |iterations| {
      assert iterations[..j] == iterations;
    } else {
      var init := iterations[..|iterations| - 1];
      assert init[..j] == iterations[..j];
      ArrivalsGrow(init, j);
    }
  }

  /** What an iteration does to the entries delivered before it: none comes back, and rows stay. */
  lemma HandlesNext(c: Config, s: State, t: State, u: State, w: nat, iterations: seq<Iteration>, it: Iteration, round: Round)
    requires HandlesNew(c, s, t, iterations) && Leads(c, t, u) && t.cursor <= |t.stream|
    requires IsRound(c, round, w) && Between(t, u, round, it) && Handled(c, u, t.cursor, w, it.utcNow, it.fates)
    ensures HandlesNew(c, s, u, iterations + [it])
  {
    var its := iterations + [it];
    LeadsGrow(c, t, u);
    forall id: nat | s.cursor <= id < u.cursor && id < |u.stream| && NeverFails(c, u.stream[id], id, its)
      ensures id !in u.pel && Persisted(c, u.events, u.stream[id])
    {
      assert its[|iterations|] == it;
      if id < t.cursor {
        assert u.stream[id] == t.stream[id];
        assert forall i :: 0 <= i < |iterations| ==> its[i] == iterations[i];
        PersistedGrows(c, t.events, u.events, t.stream[id]);
      }
    }
  }

  lemma ProgressNext(c: Config, s: State, t: State, u: State, iterations: seq<Iteration>, it: Iteration, count: nat)
    requires Progress(c, s, t, iterations, count) && HandlesNew(c, s, u, iterations + [it])
    requires u.stream == t.stream + it.arrivals && u.cursor == NextCursor(u, t.cursor, count)
    ensures Progress(c, s, u, iterations + [it], count)
  {
    ArrivalsSnoc(iterations, it);
    KeepsUpNext(s, t, u, iterations, it, count);
  }

  lemma ArrivalsSnoc(iterations: seq<Iteration>, it: Iteration)
    ensures Arrivals(iterations + [it]) == Arrivals(iterations) + it.arrivals
  {
    assert (iterations + [it])[..|iterations|] == iterations;
  }

  /** What the loop has come to: its sweeps, and what it read. */
  ghost predicate SoFar(c: Config, first: State, s: State, rounds: seq<Round>, w: nat, iterations: seq<Iteration>, count: nat) {
    |rounds| == |iterations| && History(c, first, s, rounds, w, iterations, first.cursor) && Progress(c, first, s, iterations, count)
  }

  lemma NothingYet(c: Config, s: State, w: nat, count: nat)
    requires IsConfig(c) && Reachable(c, s)
    ensures SoFar(c, s, s, [], w, [], count)
  {
    ReachableSane(c, s);
    assert Times(0, count) == 0;
  }

  lemma OneMore(c: Config, first: State, t: State, u: State, rounds: seq<Round>, round: Round, w: nat,
                iterations: seq<Iteration>, it: Iteration, count: nat)
    requires SoFar(c, first, t, rounds, w, iterations, count) && Leads(c, t, u)
    requires u.stream == t.stream + it.arrivals && u.cursor == NextCursor(u, t.cursor, count)
    requires IsRound(c, round, w) && Between(t, u, round, it) && Handled(c, u, t.cursor, w, it.utcNow, it.fates)
    ensures SoFar(c, first, u, rounds + [round], w, iterations + [it], count)
  {
    HistoryNext(c, first, t, u, rounds, round, w, iterations, it, first.cursor);
    HandlesNext(c, first, t, u, w, iterations, it, round);
    ProgressNext(c, first, t, u, iterations, it, count);
  }

  /** How often a full idle threshold passes over the iterations, `waited` of the first one being over. */
  function Thresholds(c: Config, waited: nat, iterations: seq<Iteration>): nat
    decreases |iterations|
  {
    if iterations == [] then 0
    else
      var t := waited + iterations[0].tick;
      if t >= c.minIdle then 1 + Thresholds(c, 0, iterations[1..]) else Thresholds(c, t, iterations[1..])
  }

  function Elapsed(iterations: seq<Iteration>): nat {
    if iterations == [] then 0 else iterations[0].tick + Elapsed(iterations[1..])
  }

  lemma {:induction false} ElapsedAtMost(c: Config, waited: nat, iterations: seq<Iteration>, gap: nat)
    requires waited <= c.minIdle && forall i :: 0 <= i < |iterations| ==> iterations[i].tick <= gap
    ensures waited + Elapsed(iterations) <= Thresholds(c, waited, iterations) * (c.minIdle + gap) + c.minIdle
    decreases |iterations|
  {
    if iterations != [] {
      var t, rest := waited + iterations[0].tick, iterations[1..];
      if t >= c.minIdle {
        ElapsedAtMost(c, 0, rest, gap);
        var n := Thresholds(c, 0, rest);
        assert (1 + n) * (c.minIdle + gap) == (c.minIdle + gap) + n * (c.minIdle + gap);
      } else {
        ElapsedAtMost(c, t, rest, gap);
      }
    }
  }

  /** In wall-clock terms: iterations at most `gap` apart that together take n times the threshold and the gap
      see n thresholds pass. */
  lemma EnoughTime(c: Config, iterations: seq<Iteration>, gap: nat, n: nat)
    requires forall i :: 0 <= i < |iterations| ==> iterations[i].tick <= gap
    requires Elapsed(iterations) + gap > n * (c.minIdle + gap)
    ensures Thresholds(c, 0, iterations) >= n
  {
    ElapsedAtMost(c, 0, iterations, gap);
    var k := Thresholds(c, 0, iterations);
    if k < n { OneMoreTime(k, n, c.minIdle + gap); }
  }

  lemma {:induction false} OneMoreTime(k: nat, n: nat, m: nat)
    requires k < n
    ensures n * m >= k * m + m
  {
    if n == k + 1 {
      assert (k + 1) * m == k * m + m;
    } else {
      OneMoreTime(k, n - 1, m);
      assert n * m == (n - 1) * m + m;
    }
  }

  /** Quarantine writes succeed in every iteration for every entry below `hi` that is not stuck. */
  ghost predicate LandAllBut(iterations: seq<Iteration>, stuck: set<nat>, hi: nat) {
    forall i, id: nat :: 0 <= i < |iterations| && id < hi && id !in stuck ==> iterations[i].fates.quarantines(id).Landed?
  }

  /** And in none for the stuck ones. */
  ghost predicate LandNone(iterations: seq<Iteration>, stuck: set<nat>) {
    forall i, id: nat :: 0 <= i < |iterations| && id in stuck ==> !iterations[i].fates.quarantines(id).Landed?
  }

  /** The sweeps are at the times the iterations make them. */
  ghost predicate Timed(start: nat, rounds: seq<Round>, iterations: seq<Iteration>)
    decreases |rounds|
  {
    && |rounds| == |iterations|
    && (rounds != [] ==> rounds[0].now == start + iterations[0].tick && Timed(rounds[0].now, rounds[1..], iterations[1..]))
  }

  lemma {:induction false} TimedSnoc(start: nat, rounds: seq<Round>, iterations: seq<Iteration>, r: Round, it: Iteration)
    requires Timed(start, rounds, iterations)
    requires r.now == (if rounds == [] then start else rounds[|rounds| - 1].now) + it.tick
    ensures Timed(start, rounds + [r], iterations + [it])
    decreases |rounds|
  {
    var rs, its := rounds + [r], iterations + [it];
    if rounds == [] {
      assert rs[1..] == [] && its[1..] == [];
    } else {
      TimedSnoc(rounds[0].now, rounds[1..], iterations[1..], r, it);
      assert rs[1..] == rounds[1..] + [r] && its[1..] == iterations[1..] + [it];
    }
  }

  lemma {:induction false} WindowsAreThresholds(c: Config, start: nat, at: nat, rounds: seq<Round>, iterations: seq<Iteration>)
    requires start <= at && Timed(at, rounds, iterations)
    ensures Windows(c, start, rounds) == Thresholds(c, at - start, iterations)
    decreases |rounds|
  {
    if rounds != [] {
      var t := rounds[0].now;
      WindowsAreThresholds(c, if t >= start + c.minIdle then t else start, t, rounds[1..], iterations[1..]);
    }
  }

  /** The sweeps so far, as rounds over the entries below `hi`. */
  ghost predicate History(c: Config, first: State, s: State, rounds: seq<Round>, w: nat, iterations: seq<Iteration>, hi: nat) {
    && Rounds(c, rounds, w, hi) && hi <= s.cursor && Timed(first.now, rounds, iterations)
    && (forall i :: 0 <= i < |rounds| ==> rounds[i].lands == Lands(iterations[i].fates))
    && (rounds == [] ==> s == first)
    && (rounds != [] ==>
          && rounds[0].before == first.pel
          && s.now == rounds[|rounds| - 1].now && SameBelow(rounds[|rounds| - 1].after, s.pel, hi))
  }

  lemma {:induction false} RoundsSnoc(c: Config, rs: seq<Round>, r: Round, w: nat, hi: nat)
    requires Rounds(c, rs, w, hi) && IsRound(c, r, w) && hi <= r.cursor && (rs != [] ==> Follows(rs[|rs| - 1], r, hi))
    ensures Rounds(c, rs + [r], w, hi)
  {
    var all := rs + [r];
    if rs == [] {
      assert all == [r] && [r][1..] == [];
    } else {
      RoundsSnoc(c, rs[1..], r, w, hi);
      assert all[0] == rs[0] && all[1..] == rs[1..] + [r];
    }
  }

  /** The sweep of an iteration from s to t. */
  ghost predicate Between(s: State, t: State, r: Round, it: Iteration) {
    && r.before == s.pel && r.cursor == s.cursor && r.now == s.now + it.tick && r.lands == Lands(it.fates)
    && t.now == r.now && s.cursor <= t.cursor && SameBelow(r.after, t.pel, s.cursor)
  }

  lemma HistoryNext(c: Config, first: State, s: State, t: State, rounds: seq<Round>, r: Round, w: nat,
                    iterations: seq<Iteration>, it: Iteration, hi: nat)
    requires History(c, first, s, rounds, w, iterations, hi) && IsRound(c, r, w) && Between(s, t, r, it)
    ensures History(c, first, t, rounds + [r], w, iterations + [it], hi)
  {
    RoundsSnoc(c, rounds, r, w, hi);
    TimedSnoc(first.now, rounds, iterations, r, it);
  }

  lemma HistoryDrains(c: Config, first: State, s: State, rounds: seq<Round>, w: nat, iterations: seq<Iteration>, hi: nat, stuck: set<nat>)
    requires History(c, first, s, rounds, w, iterations, hi) && Timing.PelInOrder(first)
    requires |stuck| < c.batch && LandAllBut(iterations, stuck, hi)
    requires Thresholds(c, 0, iterations) >= Potential(c, first.pel, stuck, hi)
    ensures OnlyStuck(s.pel, stuck, hi)
  {
    if rounds == [] {
      PotentialZero(c, first.pel, stuck, hi);
    } else {
      WindowsAreThresholds(c, first.now, first.now, rounds, iterations);
      AllOthersDrain(c, rounds, w, stuck, hi, first.now);
    }
  }

  lemma HistoryStarves(c: Config, first: State, s: State, rounds: seq<Round>, w: nat, iterations: seq<Iteration>, hi: nat,
                       stuck: set<nat>, id: nat)
    requires History(c, first, s, rounds, w, iterations, hi) && LandNone(iterations, stuck)
    requires Blocked(c, first.pel, first.now, stuck, id) && id in first.pel && id < hi
    ensures id in s.pel && s.pel[id] == first.pel[id]
  {
    if rounds != [] { FullBatchStarves(c, rounds, w, hi, stuck, id); }
  }

  /** Between two states with these iterations in between: once as many thresholds as the potential have passed,
      only stuck entries are left of those delivered before. */
  ghost predicate DrainsOthers(c: Config, s: State, t: State, iterations: seq<Iteration>) {
    forall stuck: set<nat> ::
      |stuck| < c.batch && LandAllBut(iterations, stuck, s.cursor) && Thresholds(c, 0, iterations) >= Potential(c, s.pel, stuck, s.cursor)
      ==> OnlyStuck(t.pel, stuck, s.cursor)
  }

  /** And an entry behind a full batch of idle poison entries whose quarantine writes fail is as it was. */
  ghost predicate StarvesBlocked(c: Config, s: State, t: State, iterations: seq<Iteration>) {
    forall stuck: set<nat>, id: nat ::
      Blocked(c, s.pel, s.now, stuck, id) && id in s.pel && LandNone(iterations, stuck) ==> id in t.pel && t.pel[id] == s.pel[id]
  }

  /** What the loop does, alone on its group, from one state to another. */
  ghost predicate AloneItDoes(c: Config, s: State, t: State, rounds: seq<Round>, w: nat, iterations: seq<Iteration>, count: nat) {
    && |rounds| == |iterations| && Rounds(c, rounds, w, s.cursor)
    && (forall i :: 0 <= i < |rounds| ==> rounds[i].lands == Lands(iterations[i].fates))
    && DrainsOthers(c, s, t, iterations) && StarvesBlocked(c, s, t, iterations)
    && t.stream == s.stream + Arrivals(iterations) && KeepsUp(s, t, iterations, count) && HandlesNew(c, s, t, iterations)
  }

  lemma Outcome(c: Config, first: State, s: State, rounds: seq<Round>, w: nat, iterations: seq<Iteration>, count: nat)
    requires SoFar(c, first, s, rounds, w, iterations, count) && IsConfig(c) && Reachable(c, first)
    ensures AloneItDoes(c, first, s, rounds, w, iterations, count)
  {
    ReachableSane(c, first);
    HistoryOutcome(c, first, s, rounds, w, iterations);
  }

  lemma HistoryOutcome(c: Config, first: State, s: State, rounds: seq<Round>, w: nat, iterations: seq<Iteration>)
    requires History(c, first, s, rounds, w, iterations, first.cursor) && Timing.PelInOrder(first)
    ensures DrainsOthers(c, first, s, iterations) && StarvesBlocked(c, first, s, iterations)
  {
    var hi := first.cursor;
    forall stuck: set<nat> |
      |stuck| < c.batch && LandAllBut(iterations, stuck, hi) && Thresholds(c, 0, iterations) >= Potential(c, first.pel, stuck, hi)
      ensures OnlyStuck(s.pel, stuck, hi)
    {
      HistoryDrains(c, first, s, rounds, w, iterations, hi, stuck);
    }
    forall stuck: set<nat>, id: nat |
      Blocked(c, first.pel, first.now, stuck, id) && id in first.pel && LandNone(iterations, stuck)
      ensures id in s.pel && s.pel[id] == first.pel[id]
    {
      HistoryStarves(c, first, s, rounds, w, iterations, hi, stuck, id);
    }
  }

  lemma PoisonInStream(c: Config, s: State, w: nat, seen: seq<Stale>, poison: seq<Job>)
    requires IsConfig(c) && Reachable(c, s) && At(s, w, Sweeping(seen, poison)) && |poison| < |PoisonOf(c, seen)|
    ensures PoisonOf(c, seen)[|poison|].id < |s.stream|
  {
    ReachableSane(c, s);
    assert Safety.LocalOk(c, s, s.workers[w]);
    assert PoisonOf(c, seen)[|poison|] in PoisonOf(c, seen);
  }
}
