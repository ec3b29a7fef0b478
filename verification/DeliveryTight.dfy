/** That the bound on racing workers is exact: for every setting there is a run that reaches it. */
module DeliveryTight {
  import opened Wrappers
  import opened Delivery
  import opened DeliveryBound
  import Safety = DeliverySafety

  /** A group with one entry, which is pending. */
  function One(now: nat, p: Pending, entry: Entry, workers: seq<Local>): State {
    State(now, [entry], 1, map[0 := p], map[], map[], workers)
  }

  function Idlers(n: nat): seq<Local> { seq(n, _ => Idle) }

  lemma SnapshotOne(c: Config, now: nat, p: Pending, entry: Entry, workers: seq<Local>, w: nat)
    requires w < |workers| && workers[w].Idle? && IdleEnough(c, p, now) && c.batch >= 1
    ensures Step(c, One(now, p, entry, workers), Snapshot(w))
         == Some(One(now, p, entry, workers[w := Sweeping([Stale(0, p.count)], [])]))
  {
    var pel := map[0 := p];
    assert XPending(c, pel, now, 1, 1, c.batch - 1) == [];
    assert XPending(c, pel, now, 0, 1, c.batch) == [Stale(0, p.count)] + [] == [Stale(0, p.count)];
  }

  lemma ClaimOne(c: Config, now: nat, p: Pending, entry: Entry, workers: seq<Local>, w: nat, k: nat)
    requires w < |workers| && workers[w] == Sweeping([Stale(0, k)], []) && k < c.maxDeliveries && IdleEnough(c, p, now)
    ensures Step(c, One(now, p, entry, workers), Claim(w))
         == Some(One(now, Pending(w, now, p.count + 1), entry, workers[w := Busy(Start, [Handle(0, entry, now)])]))
  {
    var stale, pel := [Stale(0, k)], map[0 := p];
    assert stale[0] in stale && stale[1..] == [];
    assert PoisonOf(c, stale) == [];
    assert XClaim(c, pel, now, w, stale) == map[0 := Pending(w, now, p.count + 1)];
    assert ClaimedJobs(c, [entry], pel, now, stale) == [Handle(0, entry, now)] + ClaimedJobs(c, [entry], pel, now, []);
    assert [] + ClaimedJobs(c, [entry], pel, now, stale) == [Handle(0, entry, now)];
  }

  lemma TickOne(c: Config, now: nat, p: Pending, entry: Entry, workers: seq<Local>)
    requires p.since <= now
    ensures Step(c, One(now, p, entry, workers), Tick(c.minIdle)) == Some(One(now + c.minIdle, p, entry, workers))
    ensures IdleEnough(c, p, now + c.minIdle)
  {
  }

  lemma CrashOne(c: Config, now: nat, p: Pending, entry: Entry, workers: seq<Local>, w: nat)
    requires w < |workers|
    ensures Step(c, One(now, p, entry, workers), Crash(w)) == Some(One(now, p, entry, workers[w := Idle]))
  {
  }

  lemma ReadOne(c: Config, n: nat, entry: Entry)
    requires n >= 1
    ensures Step(c, Initial(n).(stream := [entry]), Read(0, 1))
         == Some(One(0, Pending(0, 0, 1), entry, Idlers(n)[0 := Busy(Start, [Handle(0, entry, 0)])]))
  {
    assert NewJobs([entry], 0, 0, 1) == [Handle(0, entry, 0)];
    assert Delivered(map[], 0, 0, 0, 1) == map[0 := Pending(0, 0, 1)];
    assert Initial(n).workers == Idlers(n);
  }

  lemma FirstDelivery(c: Config, n: nat, entry: Entry) returns (ls: seq<Label>)
    requires n >= 1
    ensures Run(c, Initial(n), ls) == Some(One(0, Pending(0, 0, 1), entry, Idlers(n)))
  {
    var read := Idlers(n)[0 := Busy(Start, [Handle(0, entry, 0)])];
    var s, t := Initial(n), One(0, Pending(0, 0, 1), entry, read);
    assert s.stream + [entry] == [entry];
    RunOne(c, s, Produce(entry));
    ReadOne(c, n, entry);
    Then(c, s, [Produce(entry)], s.(stream := [entry]), Read(0, 1), t);
    CrashOne(c, 0, Pending(0, 0, 1), entry, read, 0);
    assert read[0 := Idle] == Idlers(n);
    Then(c, s, [Produce(entry)] + [Read(0, 1)], t, Crash(0), One(0, Pending(0, 0, 1), entry, Idlers(n)));
    ls := [Produce(entry)] + [Read(0, 1)] + [Crash(0)];
  }

  /** One reclaim by worker 0, which then crashes. */
  lemma Reclaim(c: Config, n: nat, s: State, ls: seq<Label>, now: nat, p: Pending, entry: Entry) returns (ms: seq<Label>)
    requires n >= 1 && c.batch >= 1 && p.since <= now && p.count < c.maxDeliveries
    requires Run(c, s, ls) == Some(One(now, p, entry, Idlers(n)))
    ensures Run(c, s, ms) == Some(One(now + c.minIdle, Pending(0, now + c.minIdle, p.count + 1), entry, Idlers(n)))
  {
    var later := now + c.minIdle;
    var q := Pending(0, later, p.count + 1);
    var swept := Idlers(n)[0 := Sweeping([Stale(0, p.count)], [])];
    var busy := swept[0 := Busy(Start, [Handle(0, entry, later)])];
    TickOne(c, now, p, entry, Idlers(n));
    Then(c, s, ls, One(now, p, entry, Idlers(n)), Tick(c.minIdle), One(later, p, entry, Idlers(n)));
    ms := ls + [Tick(c.minIdle)];
    SnapshotOne(c, later, p, entry, Idlers(n), 0);
    Then(c, s, ms, One(later, p, entry, Idlers(n)), Snapshot(0), One(later, p, entry, swept));
    ms := ms + [Snapshot(0)];
    ClaimOne(c, later, p, entry, swept, 0, p.count);
    Then(c, s, ms, One(later, p, entry, swept), Claim(0), One(later, q, entry, busy));
    ms := ms + [Claim(0)];
    CrashOne(c, later, q, entry, busy, 0);
    assert busy[0 := Idle] == Idlers(n);
    Then(c, s, ms, One(later, q, entry, busy), Crash(0), One(later, q, entry, Idlers(n)));
    ms := ms + [Crash(0)];
  }

  /** Up to one delivery below the limit, one worker at a time. */
  lemma {:induction false} UpToLimit(c: Config, n: nat, k: nat, entry: Entry) returns (ls: seq<Label>, now: nat, p: Pending)
    requires n >= 1 && c.batch >= 1 && 1 <= k < c.maxDeliveries
    ensures Idled(c, n, ls, now, p, entry) && p.count == k
    decreases k
  {
    if k == 1 {
      ls := FirstDelivery(c, n, entry);
      now, p := 0, Pending(0, 0, 1);
    } else {
      ls, now, p := UpToLimit(c, n, k - 1, entry);
      ls, now, p := OneMore(c, n, ls, now, p, entry);
    }
  }

  /** The entry is pending and every worker is idle. */
  ghost predicate Idled(c: Config, n: nat, ls: seq<Label>, now: nat, p: Pending, entry: Entry) {
    Run(c, Initial(n), ls) == Some(One(now, p, entry, Idlers(n))) && p.since <= now
  }

  lemma OneMore(c: Config, n: nat, ls: seq<Label>, now: nat, p: Pending, entry: Entry) returns (ms: seq<Label>, later: nat, q: Pending)
    requires n >= 1 && c.batch >= 1 && p.count < c.maxDeliveries && Idled(c, n, ls, now, p, entry)
    ensures Idled(c, n, ms, later, q, entry) && q.count == p.count + 1
  {
    ms := Reclaim(c, n, Initial(n), ls, now, p, entry);
    later := now + c.minIdle;
    q := Pending(0, later, p.count + 1);
  }

  /** The first m of n workers hold a snapshot that shows the entry k times delivered. */
  function Holding(n: nat, m: nat, k: nat): seq<Local> {
    seq(n, i => if i < m then Sweeping([Stale(0, k)], []) else Idle)
  }

  lemma {:induction false} AllSnapshot(c: Config, n: nat, m: nat, s: State, ls: seq<Label>, now: nat, p: Pending, entry: Entry)
    returns (ms: seq<Label>)
    requires m <= n && c.batch >= 1 && IdleEnough(c, p, now)
    requires Run(c, s, ls) == Some(One(now, p, entry, Idlers(n)))
    ensures Run(c, s, ms) == Some(One(now, p, entry, Holding(n, m, p.count)))
    decreases m
  {
    if m == 0 {
      ms := ls;
      assert Holding(n, 0, p.count) == Idlers(n);
    } else {
      ms := AllSnapshot(c, n, m - 1, s, ls, now, p, entry);
      SnapshotOne(c, now, p, entry, Holding(n, m - 1, p.count), m - 1);
      RunSnoc(c, s, ms, Snapshot(m - 1));
      assert Holding(n, m - 1, p.count)[m - 1 := Sweeping([Stale(0, p.count)], [])] == Holding(n, m, p.count);
      ms := ms + [Snapshot(m - 1)];
    }
  }

  /** The first m of them claim in turn, each after the entry has idled again. */
  lemma {:induction false} AllClaim(c: Config, n: nat, m: nat, s: State, ls: seq<Label>, now: nat, p: Pending, entry: Entry)
    returns (ms: seq<Label>, later: nat, q: Pending, workers: seq<Local>)
    requires m <= n && p.count < c.maxDeliveries && p.since <= now
    requires Run(c, s, ls) == Some(One(now, p, entry, Holding(n, n, p.count)))
    ensures Run(c, s, ms) == Some(One(later, q, entry, workers)) && q.count == p.count + m && q.since <= later
    ensures |workers| == n && forall w :: m <= w < n ==> workers[w] == Sweeping([Stale(0, p.count)], [])
    decreases m
  {
    if m == 0 {
      ms, later, q, workers := ls, now, p, Holding(n, n, p.count);
    } else {
      ms, later, q, workers := AllClaim(c, n, m - 1, s, ls, now, p, entry);
      ms := ClaimNext(c, s, ms, later, q, entry, workers, m - 1, p.count);
      later := later + c.minIdle;
      q, workers := Pending(m - 1, later, q.count + 1), workers[m - 1 := Busy(Start, [Handle(0, entry, later)])];
    }
  }

  lemma ClaimNext(c: Config, s: State, ls: seq<Label>, now: nat, p: Pending, entry: Entry, workers: seq<Local>, w: nat, k: nat)
    returns (ms: seq<Label>)
    requires Run(c, s, ls) == Some(One(now, p, entry, workers)) && p.since <= now
    requires w < |workers| && workers[w] == Sweeping([Stale(0, k)], []) && k < c.maxDeliveries
    ensures var later := now + c.minIdle;
      Run(c, s, ms) == Some(One(later, Pending(w, later, p.count + 1), entry, workers[w := Busy(Start, [Handle(0, entry, later)])]))
  {
    var later := now + c.minIdle;
    TickOne(c, now, p, entry, workers);
    Then(c, s, ls, One(now, p, entry, workers), Tick(c.minIdle), One(later, p, entry, workers));
    ms := ls + [Tick(c.minIdle)];
    ClaimOne(c, later, p, entry, workers, w, k);
    Then(c, s, ms, One(later, p, entry, workers), Claim(w),
         One(later, Pending(w, later, p.count + 1), entry, workers[w := Busy(Start, [Handle(0, entry, later)])]));
    ms := ms + [Claim(w)];
  }

  /** For every limit of at least two and every number of workers, some run delivers an entry exactly
      limit + n - 1 times. */
  lemma BoundAttained(c: Config, n: nat, entry: Entry) returns (ls: seq<Label>)
    requires n >= 1 && c.batch >= 1 && c.maxDeliveries >= 2
    ensures Run(c, Initial(n), ls).Some? && 0 in Run(c, Initial(n), ls).value.pel
    ensures Run(c, Initial(n), ls).value.pel[0].count == c.maxDeliveries + n - 1
  {
    var now, p;
    ls, now, p := UpToLimit(c, n, c.maxDeliveries - 1, entry);
    TickOne(c, now, p, entry, Idlers(n));
    Then(c, Initial(n), ls, One(now, p, entry, Idlers(n)), Tick(c.minIdle), One(now + c.minIdle, p, entry, Idlers(n)));
    ls := ls + [Tick(c.minIdle)];
    ls := AllSnapshot(c, n, n, Initial(n), ls, now + c.minIdle, p, entry);
    var later, q, workers;
    ls, later, q, workers := AllClaim(c, n, n, Initial(n), ls, now + c.minIdle, p, entry);
  }

  // ----- a limit of one or none -----

  predicate DeliveredOnce(c: Config, s: State) {
    && (forall id :: id in s.pel ==> s.pel[id].count == 1)
    && forall w :: 0 <= w < |s.workers| && s.workers[w].Sweeping? ==> forall e :: e in s.workers[w].stale ==> e.count == 1
  }

  lemma ClaimDeliversOnce(c: Config, s: State, w: nat)
    requires c.maxDeliveries <= 1 && DeliveredOnce(c, s) && StepClaim(c, s, w).Some?
    ensures DeliveredOnce(c, StepClaim(c, s, w).value)
  {
    forall id: nat ensures !Claims(c, s.workers[w].stale, id) {
    }
  }

  lemma SnapshotDeliversOnce(c: Config, s: State, w: nat)
    requires DeliveredOnce(c, s) && StepSnapshot(c, s, w).Some?
    ensures DeliveredOnce(c, StepSnapshot(c, s, w).value)
  {
    Safety.PendingDelivered(c, s.pel, s.now, 0, s.cursor, c.batch);
  }

  /** The other steps take no snapshot. */
  lemma OtherSnapshots(c: Config, s: State, l: Label, w: nat)
    requires Step(c, s, l).Some? && !l.Snapshot? && w < |s.workers|
    ensures var t := Step(c, s, l).value;
      |t.workers| == |s.workers| && (t.workers[w].Sweeping? ==> s.workers[w].Sweeping? && t.workers[w].stale == s.workers[w].stale)
  {
  }

  lemma OtherDeliversOnce(c: Config, s: State, l: Label)
    requires DeliveredOnce(c, s) && Step(c, s, l).Some? && !l.Snapshot? && !l.Claim?
    ensures DeliveredOnce(c, Step(c, s, l).value)
  {
    var t := Step(c, s, l).value;
    forall w | 0 <= w < |t.workers| && t.workers[w].Sweeping? ensures forall e :: e in t.workers[w].stale ==> e.count == 1 {
      OtherSnapshots(c, s, l, if w < |s.workers| then w else 0);
    }
  }

  /** With a limit of one or none nothing is ever delivered twice, however many workers race. */
  lemma {:induction false} LowLimitDeliversOnce(c: Config, n: nat, ls: seq<Label>)
    requires c.maxDeliveries <= 1 && Run(c, Initial(n), ls).Some?
    ensures DeliveredOnce(c, Run(c, Initial(n), ls).value)
  {
    if ls != [] {
      LowLimitDeliversOnce(c, n, ls[..|ls| - 1]);
      var s, l := Run(c, Initial(n), ls[..|ls| - 1]).value, ls[|ls| - 1];
      if l.Claim? {
        ClaimDeliversOnce(c, s, l.w);
      } else if l.Snapshot? {
        SnapshotDeliversOnce(c, s, l.w);
      } else {
        OtherDeliversOnce(c, s, l);
      }
    }
  }
}
