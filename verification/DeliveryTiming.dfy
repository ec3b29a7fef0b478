/** Who may be handling an entry, and when: prompt workers never share one, and deliveries of one entry
    are at least the idle threshold apart. */
module DeliveryTiming {
  import opened Wrappers
  import opened Delivery
  import Safety = DeliverySafety

  function Jobs(local: Local): seq<Job> { if local.Busy? then local.jobs else [] }

  /** No worker still has a `handle_message` call to make, or to finish, a full idle threshold after the
      entry was delivered to it; time queued behind earlier entries of its batch counts. */
  predicate Prompt(c: Config, s: State) {
    forall w :: 0 <= w < |s.workers| ==>
      forall j :: j in Jobs(s.workers[w]) && j.Handle? ==> s.now < j.at + c.minIdle
  }

  /** No two workers have the same entry to handle. */
  predicate Exclusive(s: State) {
    forall v, w :: 0 <= v < w < |s.workers| ==>
      forall j, k :: j in Jobs(s.workers[v]) && k in Jobs(s.workers[w]) && j.Handle? && k.Handle? ==> j.id != k.id
  }

  /** An entry a worker has to handle, if still pending, was last delivered when that worker got it. */
  predicate JobsCurrent(s: State) {
    forall w :: 0 <= w < |s.workers| ==>
      forall j :: j in Jobs(s.workers[w]) && j.Handle? && j.id in s.pel ==> s.pel[j.id].since == j.at
  }

  lemma {:induction false} ClaimedJobsClaimed(c: Config, s: State, stale: seq<Stale>)
    ensures forall j :: j in ClaimedJobs(c, s.stream, s.pel, s.now, stale) ==>
      j.Handle? && j.at == s.now && j.id in s.pel && IdleEnough(c, s.pel[j.id], s.now) && Claims(c, stale, j.id)
  {
    if stale != [] {
      ClaimedJobsClaimed(c, s, stale[1..]);
      assert forall id :: Claims(c, stale[1..], id) ==> Claims(c, stale, id);
      assert stale[0] in stale;
    }
  }

  lemma ReadExclusive(c: Config, s: State, w: nat, n: nat)
    requires Safety.Inv(c, s) && Exclusive(s) && JobsCurrent(s) && StepRead(s, w, n).Some?
    ensures Exclusive(StepRead(s, w, n).value) && JobsCurrent(StepRead(s, w, n).value)
  {
    var t := StepRead(s, w, n).value;
    forall v, j | 0 <= v < |s.workers| && j in Jobs(s.workers[v]) ensures j.id < s.cursor {
      assert Safety.LocalOk(c, s, s.workers[v]);
    }
    ReadJobsNew(s, w, n);
  }

  lemma ReadJobsNew(s: State, w: nat, n: nat)
    requires StepRead(s, w, n).Some?
    ensures forall j :: j in Jobs(StepRead(s, w, n).value.workers[w]) ==> s.cursor <= j.id < s.cursor + n && j.at == s.now
  {
    assert forall j :: j in Jobs(StepRead(s, w, n).value.workers[w]) ==> j in NewJobs(s.stream, s.cursor, s.now, n);
  }

  lemma ClaimExclusive(c: Config, s: State, w: nat)
    requires Safety.Inv(c, s) && Prompt(c, s) && Exclusive(s) && JobsCurrent(s) && StepClaim(c, s, w).Some?
    ensures Exclusive(StepClaim(c, s, w).value) && JobsCurrent(StepClaim(c, s, w).value)
  {
    var t := StepClaim(c, s, w).value;
    var Sweeping(stale, poison) := s.workers[w];
    assert Safety.LocalOk(c, s, s.workers[w]);
    ClaimedJobsClaimed(c, s, stale);
    // an entry idle enough to be claimed is in no other worker's hands
    forall v, j | 0 <= v < |s.workers| && j in Jobs(s.workers[v]) && j.Handle? && j.id in s.pel
      ensures !IdleEnough(c, s.pel[j.id], s.now)
    {
    }
    assert forall j :: j in Jobs(t.workers[w]) && j.Handle? ==> j in ClaimedJobs(c, s.stream, s.pel, s.now, stale);
  }

  lemma OtherExclusive(c: Config, s: State, l: Label)
    requires Exclusive(s) && JobsCurrent(s) && Step(c, s, l).Some? && !l.Read? && !l.Claim?
    ensures Exclusive(Step(c, s, l).value) && JobsCurrent(Step(c, s, l).value)
  {
    var t := Step(c, s, l).value;
    forall w | 0 <= w < |s.workers| ensures forall j :: j in Jobs(t.workers[w]) ==> j in Jobs(s.workers[w]) {
      JobsOnlyLeave(c, s, l, w);
    }
    PelOnlyShrinks(c, s, l);
    OnlyLeave(s, t);
  }

  lemma JobsOnlyLeave(c: Config, s: State, l: Label, w: nat)
    requires Step(c, s, l).Some? && !l.Read? && !l.Claim? && w < |s.workers|
    ensures var t := Step(c, s, l).value;
      |t.workers| == |s.workers| && (forall j :: j in Jobs(t.workers[w]) ==> j in Jobs(s.workers[w]))
  {
  }

  lemma PelOnlyShrinks(c: Config, s: State, l: Label)
    requires Step(c, s, l).Some? && !l.Read? && !l.Claim?
    ensures var t := Step(c, s, l).value;
      |t.workers| == |s.workers| && forall id :: id in t.pel ==> id in s.pel && t.pel[id] == s.pel[id]
  {
  }

  lemma OnlyLeave(s: State, t: State)
    requires Exclusive(s) && JobsCurrent(s) && |t.workers| == |s.workers|
    requires forall w :: 0 <= w < |s.workers| ==> forall j :: j in Jobs(t.workers[w]) ==> j in Jobs(s.workers[w])
    requires forall id :: id in t.pel ==> id in s.pel && t.pel[id] == s.pel[id]
    ensures Exclusive(t) && JobsCurrent(t)
  {
  }

  /** If in every state of a run every worker is prompt, then in every state no two workers are handling,
      or are about to handle, the same entry. */
  lemma {:induction false} PromptWorkersNeverShare(c: Config, n: nat, ls: seq<Label>)
    requires IsConfig(c) && Run(c, Initial(n), ls).Some?
    requires forall i :: 0 <= i < |ls| && Run(c, Initial(n), ls[..i]).Some? ==> Prompt(c, Run(c, Initial(n), ls[..i]).value)
    ensures Exclusive(Run(c, Initial(n), ls).value) && JobsCurrent(Run(c, Initial(n), ls).value)
  {
    if ls != [] {
      var init, l := ls[..|ls| - 1], ls[|ls| - 1];
      assert forall i :: 0 <= i < |init| ==> init[..i] == ls[..i];
      PromptWorkersNeverShare(c, n, init);
      Safety.RunKeeps(c, n, init);
      var s := Run(c, Initial(n), init).value;
      assert Prompt(c, s);
      if l.Read? {
        ReadExclusive(c, s, l.w, l.n);
      } else if l.Claim? {
        ClaimExclusive(c, s, l.w);
      } else {
        OtherExclusive(c, s, l);
      }
    }
  }

  // ----- spacing -----

  /** The step delivers the entry: it becomes pending, or its delivery count changes. */
  predicate Delivers(c: Config, s: State, l: Label, id: nat) {
    && Step(c, s, l).Some? && id in Step(c, s, l).value.pel
    && (id !in s.pel || Step(c, s, l).value.pel[id].count != s.pel[id].count)
  }

  predicate PelInOrder(s: State) {
    forall id :: id in s.pel ==> id < s.cursor && s.pel[id].since <= s.now
  }

  lemma StepPel(c: Config, s: State, l: Label)
    requires Step(c, s, l).Some? && PelInOrder(s)
    ensures var t := Step(c, s, l).value;
      && PelInOrder(t) && s.cursor <= t.cursor
      && (forall id :: id in t.pel && id < s.cursor ==> id in s.pel && s.pel[id].since <= t.pel[id].since)
  {
  }

  lemma DeliveryTimes(c: Config, s: State, l: Label, id: nat)
    requires PelInOrder(s) && Delivers(c, s, l, id)
    ensures var t := Step(c, s, l).value;
      id in t.pel && id < t.cursor && t.pel[id].since == s.now
    ensures id < s.cursor ==> id in s.pel && IdleEnough(c, s.pel[id], s.now)
  {
  }

  lemma {:induction false} RunPel(c: Config, s: State, ls: seq<Label>, i: nat, id: nat)
    requires PelInOrder(s) && i <= |ls| && Run(c, s, ls).Some?
    ensures Run(c, s, ls[..i]).Some?
    ensures var a, b := Run(c, s, ls[..i]).value, Run(c, s, ls).value;
      && PelInOrder(a) && PelInOrder(b) && a.cursor <= b.cursor
      && (id in b.pel && id < a.cursor ==> id in a.pel && a.pel[id].since <= b.pel[id].since)
  {
    if i < |ls| {
      var init := ls[..|ls| - 1];
      RunPel(c, s, init, i, id);
      assert init[..i] == ls[..i];
      StepPel(c, Run(c, s, init).value, ls[|ls| - 1]);
    } else {
      assert ls[..i] == ls;
      if ls != [] {
        RunPel(c, s, ls[..|ls| - 1], 0, id);
        StepPel(c, Run(c, s, ls[..|ls| - 1]).value, ls[|ls| - 1]);
      }
    }
  }

  /** In every run, two deliveries of one entry are at least the idle threshold apart. */
  lemma DeliveriesSpaced(c: Config, n: nat, ls: seq<Label>, i: nat, j: nat, s: State, t: State, id: nat)
    requires i < j < |ls|
    requires Run(c, Initial(n), ls[..i]) == Some(s) && Delivers(c, s, ls[i], id)
    requires Run(c, Initial(n), ls[..j]) == Some(t) && Delivers(c, t, ls[j], id)
    ensures t.now >= s.now + c.minIdle
  {
    RunPel(c, Initial(n), ls[..i], 0, id);
    StepPel(c, s, ls[i]);
    DeliveryTimes(c, s, ls[i], id);
    var upToI := ls[..i + 1];
    assert upToI[..i] == ls[..i] && ls[..j][..i + 1] == upToI;
    RunPel(c, Initial(n), ls[..j], i + 1, id);
    DeliveryTimes(c, t, ls[j], id);
  }
}
