/** What every run of the delivery protocol keeps: evidence before ack, rows that never change, and
    quarantine rows that are true to their entry. */
module DeliverySafety {
  import opened Wrappers
  import opened Timestamps
  import opened RecordIntegrity
  import opened Delivery

  // ----- growth: tables and stream only gain -----

  ghost predicate Contains<K(!new), V(!new)>(big: map<K, V>, small: map<K, V>) {
    forall k :: k in small ==> k in big && big[k] == small[k]
  }

  ghost predicate Grows(s: State, t: State) {
    && s.stream <= t.stream && s.cursor <= t.cursor && s.now <= t.now && |s.workers| == |t.workers|
    && Contains(t.events, s.events) && Contains(t.quarantine, s.quarantine)
  }

  lemma StepGrows(c: Config, s: State, l: Label)
    requires Step(c, s, l).Some?
    ensures Grows(s, Step(c, s, l).value)
  {
  }

  /** Nothing committed in a run is ever changed or removed by a later step of it. */
  lemma {:induction false} RunGrows(c: Config, s: State, ls: seq<Label>, i: nat)
    requires i <= |ls| && Run(c, s, ls).Some?
    ensures Run(c, s, ls[..i]).Some? && Grows(Run(c, s, ls[..i]).value, Run(c, s, ls).value)
  {
    if i < |ls| {
      var init := ls[..|ls| - 1];
      RunGrows(c, s, init, i);
      assert init[..i] == ls[..i];
      StepGrows(c, Run(c, s, init).value, ls[|ls| - 1]);
    } else {
      assert ls[..i] == ls;
    }
  }

  // ----- evidence -----

  /** A row of audit_events built from this entry. */
  ghost predicate HasRow(c: Config, events: map<string, Record>, entry: Entry) {
    exists e, utcNow :: e in events && c.eventRow(entry, e, utcNow) == Some((e, events[e]))
  }

  /** Durable evidence of an entry: a quarantine row under its stream id, or an audit_events row under
      the event id it carries, or, if it carries none, a row built from it. */
  ghost predicate Evidence(c: Config, s: State, id: nat)
    requires id < |s.stream|
  {
    || id in s.quarantine
    || (var carried := c.carriedId(s.stream[id]);
        if carried.Some? then carried.value in s.events else HasRow(c, s.events, s.stream[id]))
  }

  lemma EvidenceGrows(c: Config, s: State, t: State, id: nat)
    requires Grows(s, t) && id < |s.stream| && Evidence(c, s, id)
    ensures Evidence(c, t, id)
  {
    assert t.stream[id] == s.stream[id];
    if id !in s.quarantine && c.carriedId(s.stream[id]).None? {
      var e, utcNow :| e in s.events && c.eventRow(s.stream[id], e, utcNow) == Some((e, s.events[e]));
      assert c.eventRow(t.stream[id], e, utcNow) == Some((e, t.events[e]));
    }
  }

  // ----- the invariant -----

  predicate JobOk(c: Config, s: State, j: Job) {
    && j.id < s.cursor <= |s.stream| && j.entry == s.stream[j.id]
    && (j.Quarantine? ==> j.attempts >= c.maxDeliveries)
  }

  ghost predicate LocalOk(c: Config, s: State, local: Local) {
    match local
    case Idle => true
    case Sweeping(stale, poison) =>
      && (forall e :: e in stale ==> e.id < s.cursor)
      && (forall j :: j in poison ==> j.Quarantine? && JobOk(c, s, j))
    case Busy(stage, jobs) =>
      && jobs != [] && (forall j :: j in jobs ==> JobOk(c, s, j))
      && (stage.Durable? ==> JobOk(c, s, jobs[0]) && Evidence(c, s, jobs[0].id))
  }

  ghost predicate WorkersOk(c: Config, s: State) {
    forall w :: 0 <= w < |s.workers| ==> LocalOk(c, s, s.workers[w])
  }

  /** Every delivered entry is pending or has evidence. */
  ghost predicate NothingLost(c: Config, s: State) {
    && s.cursor <= |s.stream| && (forall id :: id in s.pel ==> id < s.cursor)
    && forall id: nat :: id < s.cursor ==> id in s.pel || Evidence(c, s, id)
  }

  /** Every quarantine row is its entry's own data and signature, with a delivery count at or over the limit. */
  ghost predicate QuarantineTrue(c: Config, s: State) {
    forall id :: id in s.quarantine ==>
      id < |s.stream| && exists k: nat :: k >= c.maxDeliveries && s.quarantine[id] == c.quarantineRow(id, s.stream[id], k)
  }

  /** Every audit_events row was built from some entry of the stream. */
  ghost predicate RowsTrue(c: Config, s: State) {
    forall e :: e in s.events ==>
      exists id: nat, f, utcNow :: id < |s.stream| && c.eventRow(s.stream[id], f, utcNow) == Some((e, s.events[e]))
  }

  ghost predicate Inv(c: Config, s: State) {
    NothingLost(c, s) && WorkersOk(c, s) && QuarantineTrue(c, s) && RowsTrue(c, s)
  }

  lemma LocalGrows(c: Config, s: State, t: State, local: Local)
    requires Grows(s, t) && t.cursor <= |t.stream| && LocalOk(c, s, local)
    ensures LocalOk(c, t, local)
  {
    if local.Busy? && local.stage.Durable? {
      assert local.jobs[0] in local.jobs;
      EvidenceGrows(c, s, t, local.jobs[0].id);
    }
  }

  /** A step by worker w that only grows the rest keeps every other worker in order. */
  lemma OthersOk(c: Config, s: State, t: State, w: nat)
    requires WorkersOk(c, s) && Grows(s, t) && t.cursor <= |t.stream| && w < |s.workers|
    requires forall v :: 0 <= v < |s.workers| && v != w ==> t.workers[v] == s.workers[v]
    requires LocalOk(c, t, t.workers[w])
    ensures WorkersOk(c, t)
  {
    forall v | 0 <= v < |t.workers| ensures LocalOk(c, t, t.workers[v]) {
      if v != w { LocalGrows(c, s, t, s.workers[v]); }
    }
  }

  lemma NothingLostGrows(c: Config, s: State, t: State)
    requires NothingLost(c, s) && Grows(s, t) && t.cursor <= |t.stream|
    requires forall id :: id in t.pel ==> id < t.cursor
    requires forall id :: id in s.pel || s.cursor <= id < t.cursor ==> id in t.pel || (id < |t.stream| && Evidence(c, t, id))
    ensures NothingLost(c, t)
  {
    forall id: nat | id < t.cursor && id !in t.pel ensures Evidence(c, t, id) {
      if id < s.cursor && id !in s.pel { EvidenceGrows(c, s, t, id); }
    }
  }

  lemma TablesGrow(c: Config, s: State, t: State)
    requires QuarantineTrue(c, s) && RowsTrue(c, s)
    requires s.stream <= t.stream && t.events == s.events && t.quarantine == s.quarantine
    ensures QuarantineTrue(c, t) && RowsTrue(c, t)
  {
    forall e | e in t.events
      ensures exists id: nat, f, utcNow :: id < |t.stream| && c.eventRow(t.stream[id], f, utcNow) == Some((e, t.events[e]))
    {
      var id: nat, f, utcNow :| id < |s.stream| && c.eventRow(s.stream[id], f, utcNow) == Some((e, s.events[e]));
      assert t.stream[id] == s.stream[id];
    }
  }

  // ----- each step keeps it -----

  lemma {:induction false} PendingDelivered(c: Config, pel: map<nat, Pending>, now: nat, lo: nat, hi: nat, room: nat)
    ensures forall e :: e in XPending(c, pel, now, lo, hi, room) ==>
      lo <= e.id < hi && e.id in pel && IdleEnough(c, pel[e.id], now) && e.count == pel[e.id].count
    decreases if lo < hi then hi - lo else 0
  {
    if lo < hi && room > 0 {
      PendingDelivered(c, pel, now, lo + 1, hi, room - 1);
      PendingDelivered(c, pel, now, lo + 1, hi, room);
    }
  }

  lemma {:induction false} ClaimedJobsOk(c: Config, s: State, stale: seq<Stale>)
    requires s.cursor <= |s.stream| && forall e :: e in stale ==> e.id < s.cursor
    ensures forall j :: j in ClaimedJobs(c, s.stream, s.pel, s.now, stale) ==> j.Handle? && JobOk(c, s, j)
  {
    if stale != [] { ClaimedJobsOk(c, s, stale[1..]); }
  }

  lemma EnvironmentKeeps(c: Config, s: State, l: Label)
    requires Inv(c, s) && (l.Produce? || l.Tick?)
    ensures Inv(c, Step(c, s, l).value)
  {
    var t := Step(c, s, l).value;
    forall w | 0 <= w < |t.workers| ensures LocalOk(c, t, t.workers[w]) { LocalGrows(c, s, t, s.workers[w]); }
    NothingLostGrows(c, s, t);
    TablesGrow(c, s, t);
  }

  lemma ReadKeeps(c: Config, s: State, w: nat, n: nat)
    requires Inv(c, s) && StepRead(s, w, n).Some?
    ensures Inv(c, StepRead(s, w, n).value)
  {
    var t := StepRead(s, w, n).value;
    assert LocalOk(c, t, t.workers[w]) by {
      forall j | j in NewJobs(s.stream, s.cursor, s.now, n) ensures JobOk(c, t, j) {}
    }
    OthersOk(c, s, t, w);
    NothingLostGrows(c, s, t);
    TablesGrow(c, s, t);
  }

  lemma SnapshotKeeps(c: Config, s: State, w: nat)
    requires Inv(c, s) && StepSnapshot(c, s, w).Some?
    ensures Inv(c, StepSnapshot(c, s, w).value)
  {
    var t := StepSnapshot(c, s, w).value;
    PendingDelivered(c, s.pel, s.now, 0, s.cursor, c.batch);
    OthersOk(c, s, t, w);
    NothingLostGrows(c, s, t);
    TablesGrow(c, s, t);
  }

  lemma XRangeKeeps(c: Config, s: State, w: nat)
    requires Inv(c, s) && StepXRange(c, s, w).Some?
    ensures Inv(c, StepXRange(c, s, w).value)
  {
    var t := StepXRange(c, s, w).value;
    var Sweeping(stale, poison) := s.workers[w];
    var e := PoisonOf(c, stale)[|poison|];
    assert e in PoisonOf(c, stale);
    assert LocalOk(c, s, s.workers[w]);
    OthersOk(c, s, t, w);
    NothingLostGrows(c, s, t);
    TablesGrow(c, s, t);
  }

  lemma ClaimKeeps(c: Config, s: State, w: nat)
    requires Inv(c, s) && StepClaim(c, s, w).Some?
    ensures Inv(c, StepClaim(c, s, w).value)
  {
    var t := StepClaim(c, s, w).value;
    assert LocalOk(c, s, s.workers[w]);
    ClaimedJobsOk(c, s, s.workers[w].stale);
    OthersOk(c, s, t, w);
    NothingLostGrows(c, s, t);
    TablesGrow(c, s, t);
  }

  /** Dropping the first job, with or without a table having grown, keeps the rest in order. */
  lemma FinishKeeps(c: Config, s: State, t: State, w: nat)
    requires Inv(c, s) && IsWorker(s, w) && s.workers[w].Busy?
    requires t.workers == s.workers[w := Resume(s.workers[w].jobs[1..])]
    requires Grows(s, t) && t.stream == s.stream && t.cursor == s.cursor
    requires t.pel == s.pel || (s.workers[w].stage.Durable? && t.pel == s.pel - {s.workers[w].jobs[0].id})
    ensures NothingLost(c, t) && WorkersOk(c, t)
  {
    var jobs := s.workers[w].jobs;
    assert LocalOk(c, s, s.workers[w]);
    assert jobs[0] in jobs;
    if s.workers[w].stage.Durable? { EvidenceGrows(c, s, t, jobs[0].id); }
    assert forall j :: j in jobs[1..] ==> j in jobs;
    OthersOk(c, s, t, w);
    NothingLostGrows(c, s, t);
  }

  lemma DropKeeps(c: Config, s: State, l: Label)
    requires Inv(c, s) && (l.ParseFail? || l.Ack?) && Step(c, s, l).Some?
    ensures Inv(c, Step(c, s, l).value)
  {
    var t := Step(c, s, l).value;
    FinishKeeps(c, s, t, l.w);
    TablesGrow(c, s, t);
  }

  lemma CrashKeeps(c: Config, s: State, w: nat)
    requires Inv(c, s) && IsWorker(s, w)
    ensures Inv(c, Put(s, w, Idle))
  {
    var t := Put(s, w, Idle);
    OthersOk(c, s, t, w);
    NothingLostGrows(c, s, t);
    TablesGrow(c, s, t);
  }

  /** The first job's table write has happened; the ack is all that is left of it. */
  lemma DurableKeeps(c: Config, s: State, t: State, w: nat)
    requires Inv(c, s) && HasJob(s, w, Start)
    requires t.workers == s.workers[w := Busy(Durable, s.workers[w].jobs)]
    requires Grows(s, t) && t.stream == s.stream && t.cursor == s.cursor && t.pel == s.pel
    requires s.workers[w].jobs[0].id < |t.stream| && Evidence(c, t, s.workers[w].jobs[0].id)
    ensures NothingLost(c, t) && WorkersOk(c, t)
  {
    assert LocalOk(c, s, s.workers[w]);
    OthersOk(c, s, t, w);
    NothingLostGrows(c, s, t);
  }

  lemma RowsStayTrue(c: Config, s: State, t: State, id: nat, freshId: string, utcNow: Datetime)
    requires RowsTrue(c, s) && t.stream == s.stream && id < |s.stream|
    requires c.eventRow(s.stream[id], freshId, utcNow).Some?
    requires var (e, row) := c.eventRow(s.stream[id], freshId, utcNow).value; t.events == InsertIfAbsent(s.events, e, row)
    ensures RowsTrue(c, t)
  {
    var (e, row) := c.eventRow(s.stream[id], freshId, utcNow).value;
    forall e' | e' in t.events
      ensures exists id: nat, f, u :: id < |t.stream| && c.eventRow(t.stream[id], f, u) == Some((e', t.events[e']))
    {
      if e' in s.events {
        assert t.events[e'] == s.events[e'];
        var id': nat, f, u :| id' < |s.stream| && c.eventRow(s.stream[id'], f, u) == Some((e', s.events[e']));
      } else {
        assert c.eventRow(t.stream[id], freshId, utcNow) == Some((e', t.events[e']));
      }
    }
  }

  lemma PersistLeavesEvidence(c: Config, s: State, t: State, id: nat, freshId: string, utcNow: Datetime)
    requires IsConfig(c) && id < |s.stream| && t.stream == s.stream
    requires c.eventRow(s.stream[id], freshId, utcNow).Some?
    requires c.carriedId(s.stream[id]).None? ==> freshId !in s.events
    requires var (e, row) := c.eventRow(s.stream[id], freshId, utcNow).value; t.events == InsertIfAbsent(s.events, e, row)
    ensures Evidence(c, t, id)
  {
    if c.carriedId(s.stream[id]).None? {
      assert c.eventRow(t.stream[id], freshId, utcNow) == Some((freshId, t.events[freshId]));
    }
  }

  lemma PersistKeeps(c: Config, s: State, w: nat, freshId: string, utcNow: Datetime, fate: Fate)
    requires IsConfig(c) && Inv(c, s) && StepPersist(c, s, w, freshId, utcNow, fate).Some?
    ensures Inv(c, StepPersist(c, s, w, freshId, utcNow, fate).value)
  {
    var t := StepPersist(c, s, w, freshId, utcNow, fate).value;
    var job := s.workers[w].jobs[0];
    assert LocalOk(c, s, s.workers[w]) && job in s.workers[w].jobs;
    if fate.Refused? {
      FinishKeeps(c, s, t, w);
      TablesGrow(c, s, t);
    } else {
      RowsStayTrue(c, s, t, job.id, freshId, utcNow);
      PersistLeavesEvidence(c, s, t, job.id, freshId, utcNow);
      if fate.Landed? { DurableKeeps(c, s, t, w); } else { FinishKeeps(c, s, t, w); }
    }
  }

  lemma QuarantineKeeps(c: Config, s: State, w: nat, fate: Fate)
    requires Inv(c, s) && StepQuarantine(c, s, w, fate).Some?
    ensures Inv(c, StepQuarantine(c, s, w, fate).value)
  {
    var t := StepQuarantine(c, s, w, fate).value;
    var job := s.workers[w].jobs[0];
    assert LocalOk(c, s, s.workers[w]) && job in s.workers[w].jobs;
    if fate.Landed? { DurableKeeps(c, s, t, w); } else { FinishKeeps(c, s, t, w); }
    assert c.quarantineRow(job.id, t.stream[job.id], job.attempts) == c.quarantineRow(job.id, job.entry, job.attempts);
  }

  lemma StepKeeps(c: Config, s: State, l: Label)
    requires IsConfig(c) && Inv(c, s) && Step(c, s, l).Some?
    ensures Inv(c, Step(c, s, l).value)
  {
    match l
    case Produce(_) => EnvironmentKeeps(c, s, l);
    case Tick(_) => EnvironmentKeeps(c, s, l);
    case Read(w, n) => ReadKeeps(c, s, w, n);
    case Snapshot(w) => SnapshotKeeps(c, s, w);
    case XRange(w) => XRangeKeeps(c, s, w);
    case Claim(w) => ClaimKeeps(c, s, w);
    case ParseFail(_) => DropKeeps(c, s, l);
    case Persist(w, freshId, utcNow, fate) => PersistKeeps(c, s, w, freshId, utcNow, fate);
    case QuarantineWrite(w, fate) => QuarantineKeeps(c, s, w, fate);
    case Ack(_) => DropKeeps(c, s, l);
    case Crash(w) => CrashKeeps(c, s, w);
  }

  // ----- theorems over every run -----

  lemma {:induction false} RunKeeps(c: Config, n: nat, ls: seq<Label>)
    requires IsConfig(c) && Run(c, Initial(n), ls).Some?
    ensures Inv(c, Run(c, Initial(n), ls).value)
  {
    if ls != [] {
      RunKeeps(c, n, ls[..|ls| - 1]);
      StepKeeps(c, Run(c, Initial(n), ls[..|ls| - 1]).value, ls[|ls| - 1]);
    }
  }

  /** In every run of any number of workers, each entry ever delivered is pending or has durable
      evidence: no entry is acked without it. */
  lemma EveryDeliveredEntryAccountedFor(c: Config, n: nat, ls: seq<Label>, id: nat)
    requires IsConfig(c) && Run(c, Initial(n), ls).Some? && id < Run(c, Initial(n), ls).value.cursor
    ensures var s := Run(c, Initial(n), ls).value;
      id < |s.stream| && (id in s.pel || Evidence(c, s, id))
  {
    RunKeeps(c, n, ls);
  }

  /** In every run each quarantine row holds its entry's exact fields and a count at or over the limit. */
  lemma QuarantineFaithful(c: Config, n: nat, ls: seq<Label>, id: nat)
    requires IsConfig(c) && Run(c, Initial(n), ls).Some? && id in Run(c, Initial(n), ls).value.quarantine
    ensures var s := Run(c, Initial(n), ls).value;
      id < |s.stream| && exists k: nat :: k >= c.maxDeliveries && s.quarantine[id] == c.quarantineRow(id, s.stream[id], k)
  {
    RunKeeps(c, n, ls);
  }

  /** Step i of the run is an enabled `Sink.write` for entry id. */
  ghost predicate WritesFor(c: Config, s: State, ls: seq<Label>, i: nat, id: nat)
    requires i < |ls|
  {
    && ls[i].Persist? && Run(c, s, ls[..i]).Some?
    && var t := Run(c, s, ls[..i]).value;
       HasJob(t, ls[i].w, Start) && t.workers[ls[i].w].jobs[0].id == id && Step(c, t, ls[i]).Some?
  }

  /** Whatever any step of any run writes to audit_events comes from an entry that parses. */
  lemma WrittenEntriesParse(c: Config, n: nat, ls: seq<Label>, id: nat, i: nat)
    requires IsConfig(c) && Run(c, Initial(n), ls).Some? && i < |ls| && WritesFor(c, Initial(n), ls, i, id)
    ensures id < |Run(c, Initial(n), ls).value.stream| && c.parses(Run(c, Initial(n), ls).value.stream[id])
  {
    RunGrows(c, Initial(n), ls, i);
    RunKeeps(c, n, ls[..i]);
    var s := Run(c, Initial(n), ls[..i]).value;
    var worker := s.workers[ls[i].w];
    assert LocalOk(c, s, worker) && worker.jobs[0] in worker.jobs;
  }

  // ----- audit_events is an insert-if-absent set -----

  /** What step i commits to audit_events, if anything. */
  function Commit(c: Config, s: State, l: Label): Option<(string, Record)> {
    if l.Persist? && !l.fate.Refused? && Step(c, s, l).Some? && HasJob(s, l.w, Start)
    then c.eventRow(s.workers[l.w].jobs[0].entry, l.freshId, l.utcNow)
    else None
  }

  function AsSeq<T>(o: Option<T>): seq<T> { if o.Some? then [o.value] else [] }

  /** The commits of a run, in order. */
  function Commits(c: Config, s: State, ls: seq<Label>): seq<(string, Record)> {
    if ls == [] then []
    else
      var init := ls[..|ls| - 1];
      Commits(c, s, init) + if Run(c, s, init).Some? then AsSeq(Commit(c, Run(c, s, init).value, ls[|ls| - 1])) else []
  }

  /** The row of the first pair with a key. */
  function First(kvs: seq<(string, Record)>, key: string): Option<Record> {
    if kvs == [] then None else if kvs[0].0 == key then Some(kvs[0].1) else First(kvs[1..], key)
  }

  lemma {:induction false} FirstOfSnoc(kvs: seq<(string, Record)>, kv: (string, Record), key: string)
    ensures First(kvs + [kv], key) ==
      if First(kvs, key).Some? then First(kvs, key) else if kv.0 == key then Some(kv.1) else None
  {
    if kvs != [] {
      FirstOfSnoc(kvs[1..], kv, key);
      assert (kvs + [kv])[1..] == kvs[1..] + [kv];
    }
  }

  function Inserted(events: map<string, Record>, commit: Option<(string, Record)>): map<string, Record> {
    if commit.Some? then InsertIfAbsent(events, commit.value.0, commit.value.1) else events
  }

  lemma CommitEffect(c: Config, s: State, l: Label)
    requires Step(c, s, l).Some?
    ensures Step(c, s, l).value.events == Inserted(s.events, Commit(c, s, l))
  {
  }

  function RowAt(events: map<string, Record>, e: string): Option<Record> {
    if e in events then Some(events[e]) else None
  }

  lemma FirstAfterInsert(kvs: seq<(string, Record)>, events: map<string, Record>, commit: Option<(string, Record)>, e: string)
    requires First(kvs, e) == RowAt(events, e)
    ensures First(kvs + AsSeq(commit), e) == RowAt(Inserted(events, commit), e)
  {
    if commit.Some? {
      FirstOfSnoc(kvs, commit.value, e);
    } else {
      assert kvs + AsSeq(commit) == kvs;
    }
  }

  /** In every run, with all its redeliveries and duplicates, audit_events holds exactly one row for each
      event id ever committed: the row of its first commit. */
  lemma {:induction false} FirstCommitWins(c: Config, n: nat, ls: seq<Label>, e: string)
    requires Run(c, Initial(n), ls).Some?
    ensures First(Commits(c, Initial(n), ls), e) == RowAt(Run(c, Initial(n), ls).value.events, e)
  {
    if ls != [] {
      var init, l := ls[..|ls| - 1], ls[|ls| - 1];
      FirstCommitWins(c, n, init, e);
      var s := Run(c, Initial(n), init).value;
      CommitEffect(c, s, l);
      FirstAfterInsert(Commits(c, Initial(n), init), s.events, Commit(c, s, l), e);
    }
  }

  // ----- whose row it is -----

  /** No parse of the run was given this id as a new one. */
  predicate NeverFresh(ls: seq<Label>, e: string) {
    forall i :: 0 <= i < |ls| && ls[i].Persist? ==> ls[i].freshId != e
  }

  /** A row built from an entry that carries its id. */
  ghost predicate BuiltByCarrier(c: Config, s: State, e: string) {
    e in s.events ==>
      exists id: nat, f, utcNow ::
        id < |s.stream| && c.carriedId(s.stream[id]) == Some(e) && c.eventRow(s.stream[id], f, utcNow) == Some((e, s.events[e]))
  }

  lemma CarrierGrows(c: Config, s: State, t: State, e: string)
    requires BuiltByCarrier(c, s, e) && Grows(s, t) && e in s.events
    ensures BuiltByCarrier(c, t, e)
  {
    var id: nat, f, utcNow :|
      id < |s.stream| && c.carriedId(s.stream[id]) == Some(e) && c.eventRow(s.stream[id], f, utcNow) == Some((e, s.events[e]));
    assert t.stream[id] == s.stream[id];
  }

  lemma CarrierPersists(c: Config, s: State, l: Label, e: string)
    requires IsConfig(c) && WorkersOk(c, s) && Step(c, s, l).Some? && e !in s.events && (l.Persist? ==> l.freshId != e)
    ensures BuiltByCarrier(c, Step(c, s, l).value, e)
  {
    CommitEffect(c, s, l);
    var t := Step(c, s, l).value;
    if e in t.events {
      var job := s.workers[l.w].jobs[0];
      assert LocalOk(c, s, s.workers[l.w]) && job in s.workers[l.w].jobs;
      assert t.stream == s.stream && c.eventRow(s.stream[job.id], l.freshId, l.utcNow) == Some((e, t.events[e]));
    }
  }

  lemma {:induction false} RowFromCarrier(c: Config, n: nat, ls: seq<Label>, e: string)
    requires IsConfig(c) && Run(c, Initial(n), ls).Some? && NeverFresh(ls, e)
    ensures BuiltByCarrier(c, Run(c, Initial(n), ls).value, e)
  {
    if ls != [] {
      var init, l := ls[..|ls| - 1], ls[|ls| - 1];
      RowFromCarrier(c, n, init, e);
      RunKeeps(c, n, init);
      var s := Run(c, Initial(n), init).value;
      if e in s.events {
        StepGrows(c, s, l);
        CarrierGrows(c, s, Step(c, s, l).value, e);
      } else {
        CarrierPersists(c, s, l, e);
      }
    }
  }

  /** When the evidence of an acked entry is its own: if it was not quarantined, if no new id happened to be its
      id, and if no different entry carries the same id, then the stored row is the one built from it. */
  lemma OwnRowStored(c: Config, n: nat, ls: seq<Label>, s: State, id: nat, e: string)
    requires IsConfig(c) && Run(c, Initial(n), ls) == Some(s) && id < s.cursor && id !in s.pel && id !in s.quarantine
    requires id < |s.stream| && c.carriedId(s.stream[id]) == Some(e) && NeverFresh(ls, e)
    requires forall k :: 0 <= k < |s.stream| && c.carriedId(s.stream[k]) == Some(e) ==> s.stream[k] == s.stream[id]
    ensures e in s.events && exists f, utcNow :: c.eventRow(s.stream[id], f, utcNow) == Some((e, s.events[e]))
  {
    RunKeeps(c, n, ls);
    RowFromCarrier(c, n, ls, e);
  }

  /** And when it is not: a second entry with other content under the same event id is acked, although its own
      content is in neither table. */
  lemma DuplicateIdLosesContent(c: Config, a: Entry, b: Entry, e: string, ra: Record, rb: Record, utcNow: Datetime)
    returns (ls: seq<Label>, s: State)
    requires IsConfig(c) && c.carriedId(a) == c.carriedId(b) == Some(e) && ra != rb
    requires c.eventRow(a, "", utcNow) == Some((e, ra)) && c.eventRow(b, "", utcNow) == Some((e, rb))
    ensures Run(c, Initial(1), ls) == Some(s) && s.stream == [a, b] && s.cursor == 2
    ensures s.pel == map[] && s.quarantine == map[] && s.events == map[e := ra]
  {
    var s0, write := Initial(1), Persist(0, "", utcNow, Landed);
    var ja, jb := Handle(0, a, 0), Handle(1, b, 0);
    var s1 := s0.(stream := [a]);
    var s2 := s0.(stream := [a, b]);
    var s3 := s2.(cursor := 2, pel := Delivered(map[], 0, 0, 0, 2), workers := [Busy(Start, [ja, jb])]);
    var s4 := s3.(events := map[e := ra], workers := [Busy(Durable, [ja, jb])]);
    var s5 := s4.(pel := s4.pel - {0}, workers := [Busy(Start, [jb])]);
    var s6 := s5.(workers := [Busy(Durable, [jb])]);
    s := s6.(pel := map[], workers := [Idle]);
    assert [ja] + [jb] == [ja, jb] && [jb] + [] == [jb];
    TwoProduced(c, a, b);
    ls := [Produce(a)] + [Produce(b)];
    ReadTwo(c, a, b, s2, s3);
    Then(c, s0, ls, s2, Read(0, 2), s3);
    ls := ls + [Read(0, 2)];
    PersistHead(c, s3, write, ja, [jb], e, ra, s4);
    Then(c, s0, ls, s3, write, s4);
    ls := ls + [write];
    AckHead(c, s4, ja, [jb], s5);
    Then(c, s0, ls, s4, Ack(0), s5);
    ls := ls + [Ack(0)];
    PersistHead(c, s5, write, jb, [], e, rb, s6);
    Then(c, s0, ls, s5, write, s6);
    ls := ls + [write];
    assert s6.pel - {1} == map[];
    AckHead(c, s6, jb, [], s);
    Then(c, s0, ls, s6, Ack(0), s);
    ls := ls + [Ack(0)];
  }

  lemma TwoProduced(c: Config, a: Entry, b: Entry)
    ensures Run(c, Initial(1), [Produce(a)] + [Produce(b)]) == Some(Initial(1).(stream := [a, b]))
  {
    var s0 := Initial(1);
    assert [] + [a] == [a] && [a] + [b] == [a, b];
    RunOne(c, s0, Produce(a));
    Then(c, s0, [Produce(a)], s0.(stream := [a]), Produce(b), s0.(stream := [a, b]));
  }

  lemma ReadTwo(c: Config, a: Entry, b: Entry, s: State, t: State)
    requires s == Initial(1).(stream := [a, b])
    requires t == s.(cursor := 2, pel := Delivered(map[], 0, 0, 0, 2), workers := [Busy(Start, [Handle(0, a, 0), Handle(1, b, 0)])])
    ensures Step(c, s, Read(0, 2)) == Some(t)
  {
    var jobs := [Handle(0, a, 0), Handle(1, b, 0)];
    assert NewJobs([a, b], 0, 0, 2) == jobs;
    assert s.workers == [Idle] && [Idle][0 := Busy(Start, jobs)] == [Busy(Start, jobs)];
  }

  lemma PersistHead(c: Config, s: State, l: Label, job: Job, rest: seq<Job>, e: string, row: Record, t: State)
    requires IsConfig(c) && s.workers == [Busy(Start, [job] + rest)] && job.Handle? && l.Persist? && l.w == 0 && l.fate.Landed?
    requires c.carriedId(job.entry).Some? && c.eventRow(job.entry, l.freshId, l.utcNow) == Some((e, row))
    requires t == s.(events := InsertIfAbsent(s.events, e, row), workers := [Busy(Durable, [job] + rest)])
    ensures Step(c, s, l) == Some(t)
  {
    assert s.workers[0].jobs[0] == job;
    assert s.workers[0 := Busy(Durable, [job] + rest)] == [Busy(Durable, [job] + rest)];
  }

  lemma AckHead(c: Config, s: State, job: Job, rest: seq<Job>, t: State)
    requires s.workers == [Busy(Durable, [job] + rest)] && t == s.(pel := s.pel - {job.id}, workers := [Resume(rest)])
    ensures Step(c, s, Ack(0)) == Some(t)
  {
    assert ([job] + rest)[0] == job && ([job] + rest)[1..] == rest;
    assert s.workers[0 := Resume(rest)] == [Resume(rest)];
  }
}
