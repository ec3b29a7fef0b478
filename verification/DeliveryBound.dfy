/** How often one entry can be delivered when several workers race on stale XPENDING snapshots. */
module DeliveryBound {
  import opened Wrappers
  import opened Delivery
  import Safety = DeliverySafety

  /** The worker holds a snapshot, not yet used in XCLAIM, that lists the entry as reclaimable. */
  predicate Holds(c: Config, local: Local, id: nat) { local.Sweeping? && Claims(c, local.stale, id) }

  function Holders(c: Config, workers: seq<Local>, id: nat): nat {
    if workers == [] then 0 else (if Holds(c, workers[0], id) then 1 else 0) + Holders(c, workers[1..], id)
  }

  /** How many workers are between XPENDING and XCLAIM. */
  function Sweepers(workers: seq<Local>): nat {
    if workers == [] then 0 else (if workers[0].Sweeping? then 1 else 0) + Sweepers(workers[1..])
  }

  lemma {:induction false} HoldersSweep(c: Config, workers: seq<Local>, id: nat)
    ensures Holders(c, workers, id) <= Sweepers(workers) <= |workers|
  {
    if workers != [] { HoldersSweep(c, workers[1..], id); }
  }

  /** What replacing one worker's state does to both counts. */
  lemma {:induction false} Replace(c: Config, workers: seq<Local>, w: nat, local: Local, id: nat)
    requires w < |workers|
    ensures Holders(c, workers[w := local], id) + (if Holds(c, workers[w], id) then 1 else 0)
         == Holders(c, workers, id) + (if Holds(c, local, id) then 1 else 0)
    ensures Sweepers(workers[w := local]) + (if workers[w].Sweeping? then 1 else 0)
         == Sweepers(workers) + (if local.Sweeping? then 1 else 0)
  {
    if w == 0 {
      assert workers[w := local][1..] == workers[1..];
    } else {
      Replace(c, workers[1..], w - 1, local, id);
      assert workers[w := local][1..] == workers[1..][w - 1 := local];
    }
  }

  lemma {:induction false} NobodyHolds(c: Config, workers: seq<Local>, id: nat)
    requires forall w :: 0 <= w < |workers| ==> !Holds(c, workers[w], id)
    ensures Holders(c, workers, id) == 0
  {
    if workers != [] {
      assert forall w :: 0 <= w < |workers| - 1 ==> workers[1..][w] == workers[w + 1];
      NobodyHolds(c, workers[1..], id);
    }
  }

  /** The count at which an entry is poison; the first delivery is not refused even with limit 0. */
  function Limit(c: Config): nat { if c.maxDeliveries == 0 then 1 else c.maxDeliveries }

  /** Once an entry reaches the limit, its count and the snapshots still out for it stay under limit + k - 1. */
  predicate Bounded(c: Config, s: State, k: nat) {
    forall id :: id in s.pel ==>
      s.pel[id].count < Limit(c) || s.pel[id].count + Holders(c, s.workers, id) <= Limit(c) + k - 1
  }

  lemma ReadBounded(c: Config, s: State, w: nat, n: nat, k: nat)
    requires Safety.Inv(c, s) && Bounded(c, s, k) && k >= 1 && StepRead(s, w, n).Some?
    ensures Bounded(c, StepRead(s, w, n).value, k)
  {
    var t := StepRead(s, w, n).value;
    forall id | id in t.pel
      ensures t.pel[id].count < Limit(c) || t.pel[id].count + Holders(c, t.workers, id) <= Limit(c) + k - 1
    {
      Replace(c, s.workers, w, t.workers[w], id);
      if id >= s.cursor {
        forall v | 0 <= v < |s.workers| ensures !Holds(c, s.workers[v], id) {
          assert Safety.LocalOk(c, s, s.workers[v]);
        }
        NobodyHolds(c, s.workers, id);
      }
    }
  }

  lemma SnapshotBounded(c: Config, s: State, w: nat, k: nat)
    requires Bounded(c, s, k) && StepSnapshot(c, s, w).Some?
    ensures Bounded(c, StepSnapshot(c, s, w).value, k)
  {
    var t := StepSnapshot(c, s, w).value;
    Safety.PendingDelivered(c, s.pel, s.now, 0, s.cursor, c.batch);
    forall id | id in t.pel
      ensures t.pel[id].count < Limit(c) || t.pel[id].count + Holders(c, t.workers, id) <= Limit(c) + k - 1
    {
      Replace(c, s.workers, w, t.workers[w], id);
    }
  }

  lemma ClaimBounded(c: Config, s: State, w: nat, k: nat)
    requires Bounded(c, s, k) && StepClaim(c, s, w).Some? && Sweepers(s.workers) <= k
    ensures Bounded(c, StepClaim(c, s, w).value, k)
  {
    var t := StepClaim(c, s, w).value;
    forall id | id in t.pel
      ensures t.pel[id].count < Limit(c) || t.pel[id].count + Holders(c, t.workers, id) <= Limit(c) + k - 1
    {
      Replace(c, s.workers, w, t.workers[w], id);
      HoldersSweep(c, t.workers, id);
    }
  }

  lemma OtherBounded(c: Config, s: State, l: Label, k: nat)
    requires Bounded(c, s, k) && Step(c, s, l).Some? && !l.Read? && !l.Snapshot? && !l.Claim?
    ensures Bounded(c, Step(c, s, l).value, k)
  {
    var t := Step(c, s, l).value;
    forall id | id in t.pel
      ensures t.pel[id].count < Limit(c) || t.pel[id].count + Holders(c, t.workers, id) <= Limit(c) + k - 1
    {
      assert id in s.pel && t.pel[id] == s.pel[id];
      if !l.Produce? && !l.Tick? {
        assert t.workers == s.workers[l.w := t.workers[l.w]];
        Replace(c, s.workers, l.w, t.workers[l.w], id);
        XRangeHolds(c, s, l, id);
      }
    }
  }

  lemma XRangeHolds(c: Config, s: State, l: Label, id: nat)
    requires Step(c, s, l).Some? && !l.Produce? && !l.Tick? && !l.Read? && !l.Snapshot? && !l.Claim?
    ensures IsWorker(s, l.w) && |Step(c, s, l).value.workers| == |s.workers|
    ensures Holds(c, Step(c, s, l).value.workers[l.w], id) ==> Holds(c, s.workers[l.w], id)
  {
  }

  /** If at no point of a run more than k workers are between their XPENDING and their XCLAIM, no entry is
      delivered more than limit + k - 1 times. */
  lemma {:induction false} DeliveriesBounded(c: Config, n: nat, ls: seq<Label>, k: nat)
    requires IsConfig(c) && k >= 1 && Run(c, Initial(n), ls).Some?
    requires forall i :: 0 <= i < |ls| && Run(c, Initial(n), ls[..i]).Some? ==> Sweepers(Run(c, Initial(n), ls[..i]).value.workers) <= k
    ensures Bounded(c, Run(c, Initial(n), ls).value, k)
    ensures forall id :: id in Run(c, Initial(n), ls).value.pel ==>
      Run(c, Initial(n), ls).value.pel[id].count <= Limit(c) + k - 1
  {
    if ls != [] {
      var init, l := ls[..|ls| - 1], ls[|ls| - 1];
      assert forall i :: 0 <= i < |init| ==> init[..i] == ls[..i];
      DeliveriesBounded(c, n, init, k);
      Safety.RunKeeps(c, n, init);
      var s := Run(c, Initial(n), init).value;
      assert Sweepers(s.workers) <= k;
      if l.Read? {
        ReadBounded(c, s, l.w, l.n, k);
      } else if l.Snapshot? {
        SnapshotBounded(c, s, l.w, k);
      } else if l.Claim? {
        ClaimBounded(c, s, l.w, k);
      } else {
        OtherBounded(c, s, l, k);
      }
    }
  }

  /** With n workers, racing in any way: at most limit + n - 1. */
  lemma RacingWorkersBound(c: Config, n: nat, ls: seq<Label>, s: State, id: nat)
    requires IsConfig(c) && n >= 1 && Run(c, Initial(n), ls) == Some(s) && id in s.pel
    ensures s.pel[id].count <= Limit(c) + n - 1
  {
    forall i | 0 <= i < |ls| && Run(c, Initial(n), ls[..i]).Some?
      ensures Sweepers(Run(c, Initial(n), ls[..i]).value.workers) <= n
    {
      Safety.RunGrows(c, Initial(n), ls[..i], 0);
      HoldersSweep(c, Run(c, Initial(n), ls[..i]).value.workers, 0);
    }
    DeliveriesBounded(c, n, ls, n);
  }

  /** When sweeps do not overlap: at most the limit. */
  lemma AtomicSweepsBound(c: Config, n: nat, ls: seq<Label>, s: State, id: nat)
    requires IsConfig(c) && Run(c, Initial(n), ls) == Some(s) && id in s.pel
    requires forall i :: 0 <= i < |ls| && Run(c, Initial(n), ls[..i]).Some? ==> Sweepers(Run(c, Initial(n), ls[..i]).value.workers) <= 1
    ensures s.pel[id].count <= Limit(c)
  {
    DeliveriesBounded(c, n, ls, 1);
  }
}
