/** Progress of one sweeping worker: what a sweep does to the Pending Entries List (worker/main.py,
    `sweep_pending`), and why every entry leaves it unless too many quarantine writes keep failing. */
module Sweeps {
  import opened Wrappers
  import opened Delivery
  import Safety = DeliverySafety

  predicate Listed(stale: seq<Stale>, id: nat) { exists e :: e in stale && e.id == id }

  // ----- what XPENDING lists -----

  predicate Ascending(stale: seq<Stale>) { forall i, j :: 0 <= i < j < |stale| ==> stale[i].id < stale[j].id }

  /** Pending, and idle for the threshold. */
  predicate IsStale(c: Config, pel: map<nat, Pending>, now: nat, id: nat) { id in pel && IdleEnough(c, pel[id], now) }

  /** The first `room` stale entries with ids from `lo` below `hi`: each with its count, in id order, and none left
      out unless the list is full of smaller ids. */
  ghost predicate FirstStale(c: Config, pel: map<nat, Pending>, now: nat, lo: nat, hi: nat, room: nat, r: seq<Stale>) {
    && |r| <= room && Ascending(r)
    && (forall e :: e in r ==> lo <= e.id < hi && IsStale(c, pel, now, e.id) && e.count == pel[e.id].count)
    && (forall id: nat :: lo <= id < hi && IsStale(c, pel, now, id) ==>
          Listed(r, id) || (|r| == room && forall e :: e in r ==> e.id < id))
  }

  lemma {:induction false} XPendingIsFirstStale(c: Config, pel: map<nat, Pending>, now: nat, lo: nat, hi: nat, room: nat)
    ensures FirstStale(c, pel, now, lo, hi, room, XPending(c, pel, now, lo, hi, room))
    decreases if lo < hi then hi - lo else 0
  {
    var r := XPending(c, pel, now, lo, hi, room);
    if lo < hi && room > 0 && !IsStale(c, pel, now, lo) {
      XPendingIsFirstStale(c, pel, now, lo + 1, hi, room);
    } else if lo < hi && room > 0 {
      XPendingIsFirstStale(c, pel, now, lo + 1, hi, room - 1);
      FirstStaleCons(c, pel, now, lo, hi, room, XPending(c, pel, now, lo + 1, hi, room - 1));
    }
  }

  lemma AscendingCons(first: Stale, rest: seq<Stale>)
    requires Ascending(rest) && forall e :: e in rest ==> first.id < e.id
    ensures Ascending([first] + rest)
  {
    var r := [first] + rest;
    forall i, j | 0 <= i < j < |r| ensures r[i].id < r[j].id {
      assert r[j] == rest[j - 1] && rest[j - 1] in rest;
      if i > 0 { assert r[i] == rest[i - 1]; }
    }
  }

  lemma ListedCons(first: Stale, rest: seq<Stale>, id: nat)
    ensures Listed([first] + rest, id) <==> first.id == id || Listed(rest, id)
  {
    var r := [first] + rest;
    assert first in r && forall e :: e in rest ==> e in r;
    if Listed(rest, id) {
      var e :| e in rest && e.id == id;
      assert e in r;
    }
  }

  lemma FirstStaleCons(c: Config, pel: map<nat, Pending>, now: nat, lo: nat, hi: nat, room: nat, rest: seq<Stale>)
    requires lo < hi && room > 0 && IsStale(c, pel, now, lo) && FirstStale(c, pel, now, lo + 1, hi, room - 1, rest)
    ensures FirstStale(c, pel, now, lo, hi, room, [Stale(lo, pel[lo].count)] + rest)
  {
    var first := Stale(lo, pel[lo].count);
    var r := [first] + rest;
    AscendingCons(first, rest);
    assert forall e :: e in r ==> e == first || e in rest;
    forall id: nat | lo <= id < hi && IsStale(c, pel, now, id)
      ensures Listed(r, id) || (|r| == room && forall e :: e in r ==> e.id < id)
    {
      ListedCons(first, rest, id);
    }
  }

  /** The poison entries of a snapshot keep its order. */
  lemma {:induction false} PoisonInOrder(c: Config, stale: seq<Stale>)
    requires Ascending(stale)
    ensures Ascending(PoisonOf(c, stale))
  {
    if stale != [] {
      var rest := PoisonOf(c, stale[1..]);
      PoisonInOrder(c, stale[1..]);
      if !Reclaimable(c, stale[0]) {
        forall e | e in rest ensures stale[0].id < e.id {
          var i :| 0 <= i < |stale[1..]| && stale[1..][i] == e;
          assert stale[i + 1] == e;
        }
        AscendingCons(stale[0], rest);
      } else {
        assert [] + rest == rest;
      }
    }
  }

  function Ids(stale: seq<Stale>): set<nat> { set e | e in stale :: e.id }

  lemma IdsCons(stale: seq<Stale>)
    requires stale != []
    ensures Ids(stale) == {stale[0].id} + Ids(stale[1..])
  {
    assert stale == [stale[0]] + stale[1..];
  }

  lemma {:induction false} IdsAtMost(stale: seq<Stale>)
    ensures |Ids(stale)| <= |stale|
  {
    if stale != [] {
      IdsAtMost(stale[1..]);
      IdsCons(stale);
    }
  }

  /** A listed entry has every smaller stale entry listed before it, so there are fewer of them than room. */
  lemma ListedHasRoom(c: Config, pel: map<nat, Pending>, now: nat, hi: nat, room: nat, smaller: set<nat>, id: nat)
    requires Listed(XPending(c, pel, now, 0, hi, room), id)
    requires forall k :: k in smaller ==> k < id && IsStale(c, pel, now, k)
    ensures |smaller| < room
  {
    var r := XPending(c, pel, now, 0, hi, room);
    XPendingIsFirstStale(c, pel, now, 0, hi, room);
    IdsAtMost(r);
    var e :| e in r && e.id == id;
    forall k | k in smaller + {id} ensures k in Ids(r) {
      if k != id { assert k < hi && Listed(r, k); }
    }
    SubsetAtMost(smaller + {id}, Ids(r));
  }

  lemma {:induction false} SubsetAtMost(a: set<nat>, b: set<nat>)
    requires a <= b
    ensures |a| <= |b|
  {
    if a != {} {
      var x :| x in a;
      SubsetAtMost(a - {x}, b - {x});
    }
  }

  /** And a stale entry with fewer stale entries below it than room is listed. */
  lemma FewSmallerListed(c: Config, pel: map<nat, Pending>, now: nat, hi: nat, room: nat, smaller: set<nat>, id: nat)
    requires id < hi && IsStale(c, pel, now, id) && |smaller| < room
    requires forall k: nat :: k < id && IsStale(c, pel, now, k) ==> k in smaller
    ensures Listed(XPending(c, pel, now, 0, hi, room), id)
  {
    var r := XPending(c, pel, now, 0, hi, room);
    XPendingIsFirstStale(c, pel, now, 0, hi, room);
    if !Listed(r, id) {
      AscendingIds(r);
      SubsetAtMost(Ids(r), smaller);
    }
  }

  lemma {:induction false} AscendingIds(r: seq<Stale>)
    requires Ascending(r)
    ensures |Ids(r)| == |r|
  {
    if r != [] {
      AscendingIds(r[1..]);
      IdsCons(r);
      FirstIsSmallest(r);
    }
  }

  lemma FirstIsSmallest(r: seq<Stale>)
    requires Ascending(r) && r != []
    ensures r[0].id !in Ids(r[1..])
  {
    var rest := r[1..];
    forall e | e in rest ensures e.id != r[0].id {
      var i :| 0 <= i < |rest| && rest[i] == e;
      assert r[i + 1] == e;
    }
  }

  // ----- one sweep -----

  /** The effect of one undisturbed sweep, with acks that succeed. `lands(id)` says whether the quarantine
      write for an entry succeeds; whether handling succeeds is left open. */
  ghost predicate SweepEffect(c: Config, before: map<nat, Pending>, after: map<nat, Pending>, w: nat, now: nat,
                              stale: seq<Stale>, lands: nat -> bool) {
    && (forall id :: id in after ==> id in before)
    && (forall id :: id in before && !Listed(stale, id) ==> id in after && after[id] == before[id])
    && (forall id :: id in after && Listed(stale, id) ==>
          if before[id].count < c.maxDeliveries then after[id] == Pending(w, now, before[id].count + 1)
          else !lands(id) && after[id] == before[id])
    && (forall id :: id in before && Listed(stale, id) && before[id].count >= c.maxDeliveries ==> (id in after <==> !lands(id)))
  }

  /** How many more listings an entry survives at most: its reclaims left and one quarantine. */
  function Rank(c: Config, p: Pending): nat {
    1 + if p.count < c.maxDeliveries then c.maxDeliveries - p.count else 0
  }

  function Weight(c: Config, pel: map<nat, Pending>, stuck: set<nat>, id: nat): nat {
    if id in pel && id !in stuck then Rank(c, pel[id]) else 0
  }

  /** The summed rank of the pending entries with id below `hi` that are not in `stuck`. */
  function Potential(c: Config, pel: map<nat, Pending>, stuck: set<nat>, hi: nat): nat {
    if hi == 0 then 0 else Potential(c, pel, stuck, hi - 1) + Weight(c, pel, stuck, hi - 1)
  }

  function Listings(stale: seq<Stale>, stuck: set<nat>, hi: nat): nat {
    if hi == 0 then 0
    else Listings(stale, stuck, hi - 1) + if Listed(stale, hi - 1) && hi - 1 !in stuck then 1 else 0
  }

  /** The potential falls by at least the number of listed entries whose quarantine write, if it comes to
      that, succeeds. */
  lemma {:induction false} PotentialFalls(c: Config, before: map<nat, Pending>, after: map<nat, Pending>, w: nat, now: nat,
                                          stale: seq<Stale>, lands: nat -> bool, stuck: set<nat>, hi: nat)
    requires SweepEffect(c, before, after, w, now, stale, lands)
    requires forall e :: e in stale ==> e.id in before
    requires forall id :: id in before && id < hi && id !in stuck ==> lands(id)
    ensures Potential(c, after, stuck, hi) + Listings(stale, stuck, hi) <= Potential(c, before, stuck, hi)
  {
    if hi > 0 {
      PotentialFalls(c, before, after, w, now, stale, lands, stuck, hi - 1);
    }
  }

  lemma {:induction false} ListingsOfCons(e: Stale, rest: seq<Stale>, hi: nat)
    requires !Listed(rest, e.id)
    ensures Listings([e] + rest, {}, hi) == Listings(rest, {}, hi) + if e.id < hi then 1 else 0
  {
    if hi > 0 {
      ListingsOfCons(e, rest, hi - 1);
      assert Listed([e] + rest, hi - 1) <==> Listed(rest, hi - 1) || e.id == hi - 1 by {
        assert e in [e] + rest && forall x :: x in rest ==> x in [e] + rest;
      }
    }
  }

  /** XPENDING lists no entry twice. */
  lemma {:induction false} ListingsOfPending(c: Config, pel: map<nat, Pending>, now: nat, lo: nat, hi: nat, room: nat)
    ensures var stale := XPending(c, pel, now, lo, hi, room); Listings(stale, {}, hi) == |stale|
    decreases if lo < hi then hi - lo else 0
  {
    if lo >= hi || room == 0 {
      NoListings(hi);
    } else if lo in pel && IdleEnough(c, pel[lo], now) {
      var rest := XPending(c, pel, now, lo + 1, hi, room - 1);
      ListingsOfPending(c, pel, now, lo + 1, hi, room - 1);
      Safety.PendingDelivered(c, pel, now, lo + 1, hi, room - 1);
      ListingsOfCons(Stale(lo, pel[lo].count), rest, hi);
    } else {
      ListingsOfPending(c, pel, now, lo + 1, hi, room);
    }
  }

  lemma {:induction false} NoListings(hi: nat)
    ensures Listings([], {}, hi) == 0
  {
    if hi > 0 { NoListings(hi - 1); }
  }

  /** With every quarantine write succeeding, the potential of the whole list falls by at least the number
      of stale entries the sweep saw. */
  lemma SweepMakesProgress(c: Config, before: map<nat, Pending>, after: map<nat, Pending>, w: nat, now: nat, cursor: nat)
    requires SweepEffect(c, before, after, w, now, XPending(c, before, now, 0, cursor, c.batch), _ => true)
    ensures Potential(c, after, {}, cursor) + |XPending(c, before, now, 0, cursor, c.batch)| <= Potential(c, before, {}, cursor)
  {
    var stale := XPending(c, before, now, 0, cursor, c.batch);
    Safety.PendingDelivered(c, before, now, 0, cursor, c.batch);
    ListingsOfPending(c, before, now, 0, cursor, c.batch);
    PotentialFalls(c, before, after, w, now, stale, _ => true, {}, cursor);
  }

  /** While fewer than `room` ids are stuck, XPENDING lists an entry that is not, if one is stale. */
  lemma {:induction false} ReachesOther(c: Config, pel: map<nat, Pending>, now: nat, lo: nat, hi: nat, room: nat,
                                        stuck: set<nat>, id: nat) returns (e: Stale)
    requires lo <= id < hi && id in pel && id !in stuck && IdleEnough(c, pel[id], now) && |stuck| < room
    ensures e in XPending(c, pel, now, lo, hi, room) && e.id !in stuck && e.id <= id
    decreases hi - lo
  {
    if lo in pel && IdleEnough(c, pel[lo], now) {
      if lo !in stuck {
        e := Stale(lo, pel[lo].count);
      } else {
        e := ReachesOther(c, pel, now, lo + 1, hi, room - 1, stuck - {lo}, id);
        Safety.PendingDelivered(c, pel, now, lo + 1, hi, room - 1);
      }
    } else {
      e := ReachesOther(c, pel, now, lo + 1, hi, room, stuck, id);
    }
  }

  lemma {:induction false} ListingsPositive(stale: seq<Stale>, stuck: set<nat>, hi: nat, e: Stale)
    requires e in stale && e.id !in stuck && e.id < hi
    ensures Listings(stale, stuck, hi) >= 1
  {
    if e.id != hi - 1 { ListingsPositive(stale, stuck, hi - 1, e); }
  }

  // ----- many sweeps -----

  /** One sweep of a sequence: its time, the group's cursor, the list before and after, and the entries whose
      quarantine writes succeed in it. */
  datatype Round = Round(now: nat, cursor: nat, before: map<nat, Pending>, after: map<nat, Pending>, lands: nat -> bool)

  function Listing(c: Config, r: Round): seq<Stale> { XPending(c, r.before, r.now, 0, r.cursor, c.batch) }

  ghost predicate IsRound(c: Config, r: Round, w: nat) {
    SweepEffect(c, r.before, r.after, w, r.now, Listing(c, r), r.lands)
  }

  predicate SameBelow(a: map<nat, Pending>, b: map<nat, Pending>, hi: nat) {
    forall id: nat :: id < hi ==> (id in a <==> id in b) && (id in a ==> a[id] == b[id])
  }

  /** The next sweep, at any later time or at once. In between new entries, with ids from `hi` on, may come and
      go; the entries below `hi` are only touched by the sweeps. */
  ghost predicate Follows(r: Round, next: Round, hi: nat) { next.now >= r.now && SameBelow(r.after, next.before, hi) }

  ghost predicate Rounds(c: Config, rs: seq<Round>, w: nat, hi: nat) {
    rs != [] ==>
      && IsRound(c, rs[0], w) && hi <= rs[0].cursor
      && (|rs| > 1 ==> Follows(rs[0], rs[1], hi)) && Rounds(c, rs[1..], w, hi)
  }

  /** How often a full idle threshold passes, from `start` on and seen at the times of the sweeps. */
  function Windows(c: Config, start: nat, rs: seq<Round>): nat
    decreases |rs|
  {
    if rs == [] then 0
    else if rs[0].now >= start + c.minIdle then 1 + Windows(c, rs[0].now, rs[1..])
    else Windows(c, start, rs[1..])
  }

  /** No pending entry but the stuck ones was delivered after t. */
  predicate Since(pel: map<nat, Pending>, stuck: set<nat>, hi: nat, t: nat) {
    forall id :: id in pel && id < hi && id !in stuck ==> pel[id].since <= t
  }

  predicate OnlyStuck(pel: map<nat, Pending>, stuck: set<nat>, hi: nat) {
    forall id :: id in pel && id < hi ==> id in stuck
  }

  lemma {:induction false} PotentialZero(c: Config, pel: map<nat, Pending>, stuck: set<nat>, hi: nat)
    requires Potential(c, pel, stuck, hi) == 0
    ensures OnlyStuck(pel, stuck, hi)
  {
    if hi > 0 { PotentialZero(c, pel, stuck, hi - 1); }
  }

  lemma {:induction false} PotentialSame(c: Config, a: map<nat, Pending>, b: map<nat, Pending>, stuck: set<nat>, hi: nat)
    requires SameBelow(a, b, hi)
    ensures Potential(c, a, stuck, hi) == Potential(c, b, stuck, hi)
  {
    if hi > 0 { PotentialSame(c, a, b, stuck, hi - 1); }
  }

  /** Quarantine writes succeed in the round for every pending entry below `hi` that is not stuck. */
  ghost predicate LandsOthers(r: Round, stuck: set<nat>, hi: nat) {
    forall id :: id in r.before && id < hi && id !in stuck ==> r.lands(id)
  }

  /** A sweep never raises the potential, and lowers it if it lists an entry that is not stuck. */
  lemma RoundNeverRises(c: Config, r: Round, w: nat, stuck: set<nat>, hi: nat)
    requires IsRound(c, r, w) && LandsOthers(r, stuck, hi)
    ensures Potential(c, r.after, stuck, hi) + Listings(Listing(c, r), stuck, hi) <= Potential(c, r.before, stuck, hi)
  {
    Safety.PendingDelivered(c, r.before, r.now, 0, r.cursor, c.batch);
    PotentialFalls(c, r.before, r.after, w, r.now, Listing(c, r), r.lands, stuck, hi);
  }

  /** A sweep a full threshold after the last delivery of every other entry makes progress. */
  lemma RoundProgress(c: Config, r: Round, w: nat, stuck: set<nat>, hi: nat, start: nat)
    requires IsRound(c, r, w) && hi <= r.cursor && Since(r.before, stuck, hi, start) && r.now >= start + c.minIdle
    requires |stuck| < c.batch && LandsOthers(r, stuck, hi)
    ensures Potential(c, r.after, stuck, hi) < Potential(c, r.before, stuck, hi) || OnlyStuck(r.before, stuck, hi)
  {
    RoundNeverRises(c, r, w, stuck, hi);
    if !OnlyStuck(r.before, stuck, hi) {
      var id :| id in r.before && id < hi && id !in stuck;
      var e := ReachesOther(c, r.before, r.now, 0, r.cursor, c.batch, stuck, id);
      ListingsPositive(Listing(c, r), stuck, hi, e);
    }
  }

  /** A sweep that makes none has not touched those entries. */
  lemma NoProgressNoChange(c: Config, r: Round, w: nat, stuck: set<nat>, hi: nat, start: nat)
    requires IsRound(c, r, w) && LandsOthers(r, stuck, hi) && Since(r.before, stuck, hi, start)
    requires Potential(c, r.after, stuck, hi) == Potential(c, r.before, stuck, hi)
    ensures Since(r.after, stuck, hi, start)
  {
    RoundNeverRises(c, r, w, stuck, hi);
    forall id | id in r.after && id < hi && id !in stuck ensures r.after[id].since <= start {
      if Listed(Listing(c, r), id) {
        var e :| e in Listing(c, r) && e.id == id;
        ListingsPositive(Listing(c, r), stuck, hi, e);
      }
    }
  }

  lemma SinceNow(c: Config, r: Round, w: nat, stuck: set<nat>, hi: nat)
    requires IsRound(c, r, w) && Since(r.before, stuck, hi, r.now)
    ensures Since(r.after, stuck, hi, r.now)
  {
  }

  lemma {:induction false} StaysOnlyStuck(c: Config, rs: seq<Round>, w: nat, stuck: set<nat>, hi: nat)
    requires Rounds(c, rs, w, hi) && rs != [] && OnlyStuck(rs[0].before, stuck, hi)
    ensures OnlyStuck(rs[|rs| - 1].after, stuck, hi)
  {
    if |rs| > 1 {
      StaysOnlyStuck(c, rs[1..], w, stuck, hi);
    }
  }

  /** The state of a drain after some sweeps: the windows still to come cover the potential, and one more if it
      has already fallen in the current window; if it has not, nothing was delivered since that window began. */
  ghost predicate OnTrack(c: Config, pel: map<nat, Pending>, stuck: set<nat>, hi: nat, start: nat, rs: seq<Round>, fell: bool) {
    && Windows(c, start, rs) >= Potential(c, pel, stuck, hi) + (if fell then 1 else 0)
    && (fell || Since(pel, stuck, hi, start))
  }

  lemma StillOnTrack(c: Config, rs: seq<Round>, w: nat, stuck: set<nat>, hi: nat, start: nat, fell: bool)
    returns (start': nat, fell': bool)
    requires rs != [] && IsRound(c, rs[0], w) && hi <= rs[0].cursor && |stuck| < c.batch && LandsOthers(rs[0], stuck, hi)
    requires OnTrack(c, rs[0].before, stuck, hi, start, rs, fell) && Since(rs[0].before, stuck, hi, rs[0].now)
    requires !OnlyStuck(rs[0].before, stuck, hi)
    ensures OnTrack(c, rs[0].after, stuck, hi, start', rs[1..], fell') && Since(rs[0].after, stuck, hi, rs[0].now)
  {
    var r := rs[0];
    RoundNeverRises(c, r, w, stuck, hi);
    SinceNow(c, r, w, stuck, hi);
    if r.now >= start + c.minIdle {
      if !fell { RoundProgress(c, r, w, stuck, hi, start); }
      start', fell' := r.now, false;
    } else if Potential(c, r.after, stuck, hi) < Potential(c, r.before, stuck, hi) {
      start', fell' := start, true;
    } else {
      if !fell { NoProgressNoChange(c, r, w, stuck, hi, start); }
      start', fell' := start, fell;
    }
  }

  lemma {:induction false} Drains(c: Config, rs: seq<Round>, w: nat, stuck: set<nat>, hi: nat, start: nat, fell: bool)
    requires Rounds(c, rs, w, hi) && rs != [] && |stuck| < c.batch && forall i :: 0 <= i < |rs| ==> LandsOthers(rs[i], stuck, hi)
    requires OnTrack(c, rs[0].before, stuck, hi, start, rs, fell) && Since(rs[0].before, stuck, hi, rs[0].now)
    ensures OnlyStuck(rs[|rs| - 1].after, stuck, hi)
  {
    if OnlyStuck(rs[0].before, stuck, hi) {
      StaysOnlyStuck(c, rs, w, stuck, hi);
    } else {
      var start', fell' := StillOnTrack(c, rs, w, stuck, hi, start, fell);
      var rest := rs[1..];
      if rest == [] {
        PotentialZero(c, rs[0].after, stuck, hi);
      } else {
        PotentialSame(c, rs[0].after, rest[0].before, stuck, hi);
        Drains(c, rest, w, stuck, hi, start', fell');
      }
    }
  }

  /** While fewer than a batch of entries have quarantine writes that fail, sweeps at any times clear the list of
      every other entry once as many idle thresholds as the potential have passed, however often handling fails
      and whatever new traffic arrives meanwhile. */
  lemma AllOthersDrain(c: Config, rs: seq<Round>, w: nat, stuck: set<nat>, hi: nat, start: nat)
    requires Rounds(c, rs, w, hi) && rs != [] && start <= rs[0].now && Since(rs[0].before, stuck, hi, start)
    requires |stuck| < c.batch && forall i :: 0 <= i < |rs| ==> LandsOthers(rs[i], stuck, hi)
    requires Windows(c, start, rs) >= Potential(c, rs[0].before, stuck, hi)
    ensures OnlyStuck(rs[|rs| - 1].after, stuck, hi)
  {
    Drains(c, rs, w, stuck, hi, start, false);
  }

  // ----- a full batch of stuck entries -----

  /** At least a batch of poison entries, all idle, all with smaller ids. */
  ghost predicate Blocked(c: Config, pel: map<nat, Pending>, now: nat, stuck: set<nat>, id: nat) {
    |stuck| >= c.batch && forall k :: k in stuck ==> k < id && IsStale(c, pel, now, k) && pel[k].count >= c.maxDeliveries
  }

  lemma BlockedUnlisted(c: Config, pel: map<nat, Pending>, now: nat, hi: nat, stuck: set<nat>, id: nat)
    requires Blocked(c, pel, now, stuck, id)
    ensures !Listed(XPending(c, pel, now, 0, hi, c.batch), id)
  {
    if Listed(XPending(c, pel, now, 0, hi, c.batch), id) { ListedHasRoom(c, pel, now, hi, c.batch, stuck, id); }
  }

  lemma BlockedRound(c: Config, r: Round, w: nat, stuck: set<nat>, id: nat)
    requires IsRound(c, r, w) && Blocked(c, r.before, r.now, stuck, id) && id in r.before
    requires forall k :: k in stuck ==> !r.lands(k)
    ensures id in r.after && r.after[id] == r.before[id]
    ensures forall k :: k in stuck ==> k in r.after && r.after[k] == r.before[k]
  {
    BlockedUnlisted(c, r.before, r.now, r.cursor, stuck, id);
  }

  lemma StillBlocked(c: Config, r: Round, next: Round, w: nat, hi: nat, stuck: set<nat>, id: nat)
    requires IsRound(c, r, w) && Follows(r, next, hi) && Blocked(c, r.before, r.now, stuck, id) && id in r.before && id < hi
    requires forall k :: k in stuck ==> !r.lands(k)
    ensures Blocked(c, next.before, next.now, stuck, id) && id in next.before && next.before[id] == r.before[id]
  {
    BlockedRound(c, r, w, stuck, id);
  }

  /** Why fewer than a batch: behind a full batch of idle poison entries whose quarantine writes keep failing, no
      number of sweeps ever lists an entry, and it stays on the list as it was. */
  lemma {:induction false} FullBatchStarves(c: Config, rs: seq<Round>, w: nat, hi: nat, stuck: set<nat>, id: nat)
    requires Rounds(c, rs, w, hi) && rs != [] && Blocked(c, rs[0].before, rs[0].now, stuck, id) && id in rs[0].before && id < hi
    requires forall i, k :: 0 <= i < |rs| && k in stuck ==> !rs[i].lands(k)
    ensures forall i :: 0 <= i < |rs| ==> !Listed(Listing(c, rs[i]), id)
    ensures id in rs[|rs| - 1].after && rs[|rs| - 1].after[id] == rs[0].before[id]
  {
    BlockedUnlisted(c, rs[0].before, rs[0].now, rs[0].cursor, stuck, id);
    BlockedRound(c, rs[0], w, stuck, id);
    if |rs| > 1 {
      var rest := rs[1..];
      StillBlocked(c, rs[0], rest[0], w, hi, stuck, id);
      FullBatchStarves(c, rest, w, hi, stuck, id);
      forall i | 0 <= i < |rs| ensures !Listed(Listing(c, rs[i]), id) {
        if i > 0 { assert rs[i] == rest[i - 1]; }
      }
    }
  }

  function FirstIds(n: nat): (s: set<nat>)
    ensures |s| == n && forall k: nat :: k in s <==> k < n
  {
    if n == 0 then {} else FirstIds(n - 1) + {n - 1}
  }

  // ----- one entry -----

  /** Pending ids below an entry's. */
  function Below(pel: map<nat, Pending>, id: nat): set<nat> { set k | k in pel && k < id }

  lemma {:induction false} BelowShrinks(c: Config, rs: seq<Round>, w: nat, hi: nat, id: nat, i: nat)
    requires Rounds(c, rs, w, hi) && id <= hi && i < |rs|
    ensures Below(rs[i].before, id) <= Below(rs[0].before, id)
  {
    if i > 0 {
      var rest := rs[1..];
      BelowShrinks(c, rest, w, hi, id, i - 1);
      assert Below(rest[0].before, id) <= Below(rs[0].before, id);
    }
  }

  lemma {:induction false} RoundsNarrow(c: Config, rs: seq<Round>, w: nat, hi: nat, lo: nat)
    requires Rounds(c, rs, w, hi) && lo <= hi
    ensures Rounds(c, rs, w, lo)
  {
    if rs != [] { RoundsNarrow(c, rs[1..], w, hi, lo); }
  }

  lemma {:induction false} NothingElse(c: Config, pel: map<nat, Pending>, id: nat, hi: nat)
    requires hi <= id
    ensures Potential(c, pel, Below(pel, id), hi) == 0
  {
    if hi > 0 { NothingElse(c, pel, id, hi - 1); }
  }

  /** An entry whose quarantine write succeeds, with fewer than a batch of pending entries before it, leaves the
      list once as many idle thresholds as its rank have passed: after its first delivery, that is the limit less
      one reclaims and one quarantine sweep. */
  lemma EntryLeaves(c: Config, rs: seq<Round>, w: nat, hi: nat, id: nat, start: nat)
    requires Rounds(c, rs, w, hi) && rs != [] && id < hi && start <= rs[0].now && (id in rs[0].before ==> rs[0].before[id].since <= start)
    requires |Below(rs[0].before, id)| < c.batch && forall i :: 0 <= i < |rs| ==> rs[i].lands(id)
    requires id in rs[0].before ==> Windows(c, start, rs) >= Rank(c, rs[0].before[id])
    ensures id !in rs[|rs| - 1].after
  {
    var stuck := Below(rs[0].before, id);
    RoundsNarrow(c, rs, w, hi, id + 1);
    OnlyEntry(c, rs[0].before, id);
    forall i | 0 <= i < |rs| ensures LandsOthers(rs[i], stuck, id + 1) {
      BelowShrinks(c, rs, w, hi, id, i);
      LandsEntry(rs[i], stuck, id);
    }
    AllOthersDrain(c, rs, w, stuck, id + 1, start);
    assert id !in stuck;
  }

  lemma OnlyEntry(c: Config, pel: map<nat, Pending>, id: nat)
    ensures Potential(c, pel, Below(pel, id), id + 1) == if id in pel then Rank(c, pel[id]) else 0
    ensures forall k :: k in pel && k < id + 1 && k !in Below(pel, id) ==> k == id
  {
    NothingElse(c, pel, id, id);
  }

  lemma LandsEntry(r: Round, stuck: set<nat>, id: nat)
    requires Below(r.before, id) <= stuck && r.lands(id)
    ensures LandsOthers(r, stuck, id + 1)
  {
    assert forall k :: k in r.before && k < id ==> k in Below(r.before, id);
  }
}
