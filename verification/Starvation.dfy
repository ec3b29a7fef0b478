/** That a full batch of stuck entries really comes about and really starves the rest: a run from the start, for
    every configuration, and what follows it. */
module Starvation {
  import opened Wrappers
  import opened Delivery
  import opened Sweeps
  import opened Worker
  import Safety = DeliverySafety
  import Timing = DeliveryTiming

  /** The list after the first `batch` of batch + 1 entries were delivered k times, last at `since`; the one behind
      them was delivered once, at the start. */
  function Backlog(n: nat, batch: nat, since: nat, k: nat): (pel: map<nat, Pending>)
    ensures forall id: nat :: id in pel <==> id < n
    ensures forall id :: id in pel ==> pel[id] == if id < batch then Pending(0, since, k) else Pending(0, 0, 1)
  {
    if n == 0 then map[] else Backlog(n - 1, batch, since, k)[n - 1 := if n - 1 < batch then Pending(0, since, k) else Pending(0, 0, 1)]
  }

  /** One idle worker on a group of batch + 1 entries, all read. */
  function AllRead(c: Config, entry: Entry, now: nat, pel: map<nat, Pending>): State {
    State(now, seq(c.batch + 1, _ => entry), c.batch + 1, pel, map[], map[], [Idle])
  }

  /** With the list above. */
  function Waiting(c: Config, entry: Entry, now: nat, since: nat, k: nat): State {
    AllRead(c, entry, now, Backlog(c.batch + 1, c.batch, since, k))
  }

  lemma CrashOn(c: Config, s: State, t: State, local: Local)
    requires Leads(c, s, t.(workers := [local]))
    ensures Leads(c, s, t.(workers := [Idle]))
  {
    var u := t.(workers := [local]);
    assert [local][0 := Idle] == [Idle];
    assert Step(c, u, Crash(0)) == Some(t.(workers := [Idle]));
    StepOn(c, s, u, Crash(0));
  }

  /** All entries are produced and read, and the worker dies. */
  lemma FirstRead(c: Config, entry: Entry)
    ensures Leads(c, Initial(1), Waiting(c, entry, 0, 0, 1))
  {
    var entries := seq(c.batch + 1, _ => entry);
    ProduceAll(c, Initial(1), entries);
    assert Initial(1).stream + entries == entries && Initial(1).workers == [Idle];
    var s := Initial(1).(stream := entries);
    ReadAndCrash(c, s);
    assert Delivered(map[], 0, 0, 0, c.batch + 1) == Backlog(c.batch + 1, c.batch, 0, 1);
    LeadsOn(c, Initial(1), s, Waiting(c, entry, 0, 0, 1));
  }

  lemma ReadAndCrash(c: Config, s: State)
    requires s.workers == [Idle] && s.cursor == 0
    ensures Leads(c, s, s.(pel := Delivered(s.pel, 0, s.now, 0, |s.stream|), cursor := |s.stream|))
  {
    var n := |s.stream|;
    var t := s.(pel := Delivered(s.pel, 0, s.now, 0, n), cursor := n);
    var local := Resume(NewJobs(s.stream, 0, s.now, n));
    assert [Idle][0 := local] == [local];
    assert Step(c, s, Read(0, n)) == Some(t.(workers := [local]));
    StepLeads(c, s, Read(0, n));
    CrashOn(c, s, t, local);
    assert t.(workers := [Idle]) == t;
  }

  /** With all of it idle, XPENDING lists exactly the first `batch` entries. */
  lemma FirstBatchListed(c: Config, now: nat, since: nat, k: nat, id: nat)
    requires now >= since + c.minIdle
    ensures Listed(XPending(c, Backlog(c.batch + 1, c.batch, since, k), now, 0, c.batch + 1, c.batch), id) <==> id < c.batch
  {
    var pel := Backlog(c.batch + 1, c.batch, since, k);
    Safety.PendingDelivered(c, pel, now, 0, c.batch + 1, c.batch);
    if id < c.batch {
      FewSmallerListed(c, pel, now, c.batch + 1, c.batch, FirstIds(id), id);
    } else if Listed(XPending(c, pel, now, 0, c.batch + 1, c.batch), id) {
      ListedHasRoom(c, pel, now, c.batch + 1, c.batch, FirstIds(c.batch), id);
    }
  }

  /** Below the limit all of them are claimed, and none is poison. */
  lemma FirstBatchClaimed(c: Config, now: nat, since: nat, k: nat)
    requires now >= since + c.minIdle && k < c.maxDeliveries
    ensures var pel := Backlog(c.batch + 1, c.batch, since, k);
      var stale := XPending(c, pel, now, 0, c.batch + 1, c.batch);
      PoisonOf(c, stale) == [] && XClaim(c, pel, now, 0, stale) == Backlog(c.batch + 1, c.batch, now, k + 1)
  {
    var pel := Backlog(c.batch + 1, c.batch, since, k);
    var stale := XPending(c, pel, now, 0, c.batch + 1, c.batch);
    forall e | e in stale ensures e.count == k {
      Safety.PendingDelivered(c, pel, now, 0, c.batch + 1, c.batch);
      FirstBatchListed(c, now, since, k, e.id);
    }
    forall id: nat | id < c.batch + 1 ensures Listed(stale, id) <==> id < c.batch {
      FirstBatchListed(c, now, since, k, id);
    }
    AllReclaimable(c, stale, k);
    ClaimMoves(c, c.batch + 1, c.batch, now, since, k, stale);
  }

  lemma {:induction false} AllReclaimable(c: Config, stale: seq<Stale>, k: nat)
    requires k < c.maxDeliveries && forall e :: e in stale ==> e.count == k
    ensures PoisonOf(c, stale) == [] && forall id: nat :: Claims(c, stale, id) <==> Listed(stale, id)
  {
    if stale != [] { AllReclaimable(c, stale[1..], k); }
  }

  lemma ClaimMoves(c: Config, n: nat, batch: nat, now: nat, since: nat, k: nat, stale: seq<Stale>)
    requires now >= since + c.minIdle && forall id: nat :: id < n ==> (Claims(c, stale, id) <==> id < batch)
    ensures XClaim(c, Backlog(n, batch, since, k), now, 0, stale) == Backlog(n, batch, now, k + 1)
  {
  }

  /** One reclaim of the first batch a threshold later, after which the worker dies again. */
  lemma ReclaimBatch(c: Config, entry: Entry, now: nat, since: nat, k: nat)
    requires since <= now && k < c.maxDeliveries
    ensures Leads(c, Waiting(c, entry, now, since, k), Waiting(c, entry, now + c.minIdle, now + c.minIdle, k + 1))
  {
    var later := now + c.minIdle;
    IdleOn(c, entry, now, since, k);
    SweepBatch(c, entry, later, since, k);
    LeadsOn(c, Waiting(c, entry, now, since, k), Waiting(c, entry, later, since, k), Waiting(c, entry, later, later, k + 1));
  }

  lemma SweepBatch(c: Config, entry: Entry, now: nat, since: nat, k: nat)
    requires now >= since + c.minIdle && k < c.maxDeliveries
    ensures Leads(c, Waiting(c, entry, now, since, k), Waiting(c, entry, now, now, k + 1))
  {
    FirstBatchClaimed(c, now, since, k);
    ClaimingSweep(c, entry, now, Backlog(c.batch + 1, c.batch, since, k), Backlog(c.batch + 1, c.batch, now, k + 1));
  }

  /** A sweep that finds no poison claims what it listed; then the worker dies. */
  lemma ClaimingSweep(c: Config, entry: Entry, now: nat, pel: map<nat, Pending>, claimed: map<nat, Pending>)
    requires var stale := XPending(c, pel, now, 0, c.batch + 1, c.batch);
      PoisonOf(c, stale) == [] && XClaim(c, pel, now, 0, stale) == claimed
    ensures Leads(c, AllRead(c, entry, now, pel), AllRead(c, entry, now, claimed))
  {
    var t, u := AllRead(c, entry, now, pel), AllRead(c, entry, now, claimed);
    var stale := XPending(c, pel, now, 0, c.batch + 1, c.batch);
    LeadsSelf(c, t);
    SnapshotOn(c, t, t, stale);
    ClaimOn(c, t, t, stale, u);
    assert u.(workers := [Idle]) == u;
  }

  lemma IdleOn(c: Config, entry: Entry, now: nat, since: nat, k: nat)
    ensures Leads(c, Waiting(c, entry, now, since, k), Waiting(c, entry, now + c.minIdle, since, k))
  {
    var t := Waiting(c, entry, now, since, k);
    assert Step(c, t, Tick(c.minIdle)) == Some(Waiting(c, entry, now + c.minIdle, since, k));
    StepLeads(c, t, Tick(c.minIdle));
  }

  lemma SnapshotOn(c: Config, s: State, t: State, stale: seq<Stale>)
    requires Leads(c, s, t) && t.workers == [Idle] && stale == XPending(c, t.pel, t.now, 0, t.cursor, c.batch)
    ensures Leads(c, s, t.(workers := [Sweeping(stale, [])]))
  {
    assert [Idle][0 := Sweeping(stale, [])] == [Sweeping(stale, [])];
    assert Step(c, t, Snapshot(0)) == Some(t.(workers := [Sweeping(stale, [])]));
    StepOn(c, s, t, Snapshot(0));
  }

  lemma ClaimOn(c: Config, s: State, t: State, stale: seq<Stale>, u: State)
    requires Leads(c, s, t.(workers := [Sweeping(stale, [])])) && PoisonOf(c, stale) == []
    requires u == t.(pel := XClaim(c, t.pel, t.now, 0, stale))
    ensures Leads(c, s, u.(workers := [Idle]))
  {
    var v := t.(workers := [Sweeping(stale, [])]);
    var local := Resume([] + ClaimedJobs(c, t.stream, t.pel, t.now, stale));
    assert [Sweeping(stale, [])][0 := local] == [local];
    assert Step(c, v, Claim(0)) == Some(u.(workers := [local]));
    StepOn(c, s, v, Claim(0));
    CrashOn(c, s, u, local);
  }

  /** Up to the limit. */
  lemma {:induction false} UpToLimit(c: Config, entry: Entry, k: nat) returns (now: nat, since: nat)
    requires k == 1 || 1 < k <= c.maxDeliveries
    ensures since <= now && Leads(c, Initial(1), Waiting(c, entry, now, since, k))
    decreases k
  {
    if k == 1 {
      FirstRead(c, entry);
      now, since := 0, 0;
    } else {
      now, since := UpToLimit(c, entry, k - 1);
      ReclaimBatch(c, entry, now, since, k - 1);
      LeadsOn(c, Initial(1), Waiting(c, entry, now, since, k - 1), Waiting(c, entry, now + c.minIdle, now + c.minIdle, k));
      now, since := now + c.minIdle, now + c.minIdle;
    }
  }

  /** In every configuration a run from the start brings a batch of idle poison entries and one more entry, delivered
      once, behind them. */
  lemma BlockageOccurs(c: Config, entry: Entry) returns (s: State)
    ensures Leads(c, Initial(1), s) && s.workers == [Idle] && s.cursor == |s.stream| == c.batch + 1
    ensures (forall id: nat :: id in s.pel <==> id <= c.batch) && s.pel[c.batch].count == 1
    ensures Blocked(c, s.pel, s.now, FirstIds(c.batch), c.batch)
  {
    var k := if c.maxDeliveries <= 1 then 1 else c.maxDeliveries;
    var now, since := UpToLimit(c, entry, k);
    IdleOn(c, entry, now, since, k);
    s := Waiting(c, entry, now + c.minIdle, since, k);
    LeadsOn(c, Initial(1), Waiting(c, entry, now, since, k), s);
  }

  // ----- and nothing follows from it -----

  /** A sweep of a blocked list in which just the first `batch` entries cannot be quarantined. */
  function Quiet(c: Config, pel: map<nat, Pending>, now: nat): Round { Round(now, c.batch + 1, pel, pel, (k: nat) => k >= c.batch) }

  lemma QuietIsRound(c: Config, pel: map<nat, Pending>, now: nat)
    requires (forall id: nat :: id in pel <==> id <= c.batch) && Blocked(c, pel, now, FirstIds(c.batch), c.batch)
    ensures IsRound(c, Quiet(c, pel, now), 0)
  {
    BlockedUnlisted(c, pel, now, c.batch + 1, FirstIds(c.batch), c.batch);
    Safety.PendingDelivered(c, pel, now, 0, c.batch + 1, c.batch);
  }

  lemma {:induction false} QuietRounds(c: Config, pel: map<nat, Pending>, n: nat, start: nat) returns (rs: seq<Round>)
    requires (forall id: nat :: id in pel <==> id <= c.batch) && Blocked(c, pel, start, FirstIds(c.batch), c.batch)
    ensures |rs| == n + 1 && Rounds(c, rs, 0, c.batch + 1) && Windows(c, start, rs) == n + 1 && rs[0].now == start + c.minIdle
    ensures forall i :: 0 <= i <= n ==> rs[i] == Quiet(c, pel, rs[i].now)
  {
    var now := start + c.minIdle;
    QuietIsRound(c, pel, now);
    rs := [Quiet(c, pel, now)];
    if n > 0 {
      var rest := QuietRounds(c, pel, n - 1, now);
      rs := [Quiet(c, pel, now)] + rest;
      assert rs[1..] == rest;
    } else {
      assert rs[1..] == [];
    }
  }

  /** The bound in the drain theorem cannot be relaxed by one: from a state that a run from the start reaches, with
      exactly a batch of stuck entries, any number of sweeps over any number of idle thresholds leaves the entry
      behind them pending. */
  lemma StarvationOccurs(c: Config, entry: Entry, n: nat) returns (s: State, rs: seq<Round>)
    ensures Leads(c, Initial(1), s) && |rs| == n + 1 && Rounds(c, rs, 0, s.cursor) && rs[0].before == s.pel
    ensures Windows(c, s.now, rs) == n + 1 && Since(s.pel, {}, s.cursor, s.now)
    ensures |FirstIds(c.batch)| == c.batch && forall i :: 0 <= i <= n ==> LandsOthers(rs[i], FirstIds(c.batch), s.cursor)
    ensures c.batch in rs[n].after && !OnlyStuck(rs[n].after, FirstIds(c.batch), s.cursor)
  {
    s := BlockageOccurs(c, entry);
    rs := QuietRounds(c, s.pel, n, s.now);
    assert rs[0] == Quiet(c, s.pel, rs[0].now) && rs[n] == Quiet(c, s.pel, rs[n].now);
    BlockedSince(c, s);
  }

  lemma BlockedSince(c: Config, s: State)
    requires Leads(c, Initial(1), s)
    ensures Since(s.pel, {}, s.cursor, s.now)
  {
    var ls :| Run(c, Initial(1), ls) == Some(s);
    Timing.RunPel(c, Initial(1), ls, 0, 0);
  }
}
