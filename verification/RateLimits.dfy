/** Keyed rate limiting over a clock, as `emit_security_alert` (audit/security_alerts.py) and
    `_handle_nogroup` (worker/main.py) do it. */
module RateLimits {

  /** A request at a time; an exempt one always passes and still counts as the key's latest. */
  datatype Event<K> = Event(key: K, now: real, exempt: bool)

  predicate Passes<K>(last: map<K, real>, e: Event<K>, window: real) {
    e.exempt || e.key !in last || e.now - last[e.key] >= window
  }

  function After<K>(last: map<K, real>, e: Event<K>, window: real): map<K, real> {
    if Passes(last, e, window) then last[e.key := e.now] else last
  }

  /** The times kept after a sequence of requests, from none. */
  function Last<K>(es: seq<Event<K>>, window: real): map<K, real> {
    if es == [] then map[] else After(Last(es[..|es| - 1], window), es[|es| - 1], window)
  }

  predicate PassedAt<K(==)>(es: seq<Event<K>>, window: real, i: nat)
    requires i < |es|
  {
    Passes(Last(es[..i], window), es[i], window)
  }

  predicate Monotone<K>(es: seq<Event<K>>) {
    forall i, j :: 0 <= i <= j < |es| ==> es[i].now <= es[j].now
  }

  /** The time kept for a key is no earlier than any of its requests that passed. */
  lemma {:induction false} LastAtLeast<K>(es: seq<Event<K>>, window: real, i: nat)
    requires i < |es| && Monotone(es) && PassedAt(es, window, i)
    ensures es[i].key in Last(es, window) && Last(es, window)[es[i].key] >= es[i].now
  {
    var n := |es| - 1;
    if i == n {
      assert es[..i] == es[..n];
    } else {
      var init := es[..n];
      assert init[..i] == es[..i];
      LastAtLeast(init, window, i);
    }
  }

  /** And it is the time of one of them. */
  lemma {:induction false} LastWitness<K>(es: seq<Event<K>>, window: real, key: K) returns (i: nat)
    requires key in Last(es, window)
    ensures i < |es| && es[i].key == key && PassedAt(es, window, i) && es[i].now == Last(es, window)[key]
  {
    var n := |es| - 1;
    var init := es[..n];
    if es[n].key == key && Passes(Last(init, window), es[n], window) {
      i := n;
    } else {
      i := LastWitness(init, window, key);
      assert init[..i] == es[..i];
    }
  }

  /** Two passes of one key, the later not exempt, are at least a window apart. */
  lemma PassesSpaced<K>(es: seq<Event<K>>, window: real, i: nat, j: nat)
    requires i < j < |es| && Monotone(es) && es[i].key == es[j].key && !es[j].exempt
    requires PassedAt(es, window, i) && PassedAt(es, window, j)
    ensures es[j].now - es[i].now >= window
  {
    var upToJ := es[..j];
    assert upToJ[..i] == es[..i];
    LastAtLeast(upToJ, window, i);
  }

  /** Positions, in order, of passes of one key that are not exempt. */
  predicate PassesOf<K(==)>(es: seq<Event<K>>, window: real, key: K, at: seq<nat>) {
    && (forall k :: 0 <= k < |at| ==> at[k] < |es| && es[at[k]].key == key && !es[at[k]].exempt && PassedAt(es, window, at[k]))
    && (forall k, m :: 0 <= k < m < |at| ==> at[k] < at[m])
  }

  /** Any k of them span at least k - 1 windows. */
  lemma {:induction false} PassesSpan<K>(es: seq<Event<K>>, window: real, key: K, at: seq<nat>)
    requires Monotone(es) && at != [] && PassesOf(es, window, key, at)
    ensures es[at[|at| - 1]].now - es[at[0]].now >= (|at| - 1) as real * window
  {
    var n := |at| - 1;
    if n > 0 {
      PassesSpan(es, window, key, at[..n]);
      PassesSpaced(es, window, at[n - 1], at[n]);
      assert n as real * window == (n - 1) as real * window + window;
    }
  }

  /** What does not pass follows a pass of its key by less than a window. */
  lemma SuppressedNearAPass<K>(es: seq<Event<K>>, window: real, j: nat) returns (i: nat)
    requires j < |es| && !PassedAt(es, window, j)
    ensures i < j && es[i].key == es[j].key && PassedAt(es, window, i) && es[j].now - es[i].now < window
  {
    i := LastWitness(es[..j], window, es[j].key);
    assert es[..j][..i] == es[..i];
  }

  /** A request touches no key but its own. */
  lemma OtherKeysUnaffected<K>(last: map<K, real>, e: Event<K>, window: real, key: K)
    requires key != e.key
    ensures key in After(last, e, window) <==> key in last
    ensures key in last ==> After(last, e, window)[key] == last[key]
  {
  }
}

/** Security alerts and stream recreation, each on its own limiter. */
module Alerts {
  import opened Wrappers
  import opened RateLimits
  import Lines

  const RECOVERED := "_recovered"

  predicate IsRecovery(condition: string) {
    |condition| >= |RECOVERED| && condition[|condition| - |RECOVERED|..] == RECOVERED
  }

  function KeyOf(component: string, condition: string): string { component + ":" + condition }

  datatype Call = Call(component: string, condition: string, now: real)

  function EventOf(call: Call): Event<string> {
    Event(KeyOf(call.component, call.condition), call.now, IsRecovery(call.condition))
  }

  /** The de-duplication state of `emit_security_alert`. */
  class AlertGate {
    var lastSent: map<string, real>

    constructor ()
      ensures lastSent == map[]
    {
      lastSent := map[];
    }

    method Emit(call: Call, window: real) returns (sent: bool)
      modifies this
      ensures sent == Passes(old(lastSent), EventOf(call), window)
      ensures lastSent == After(old(lastSent), EventOf(call), window)
    {
      var key := KeyOf(call.component, call.condition);
      if !IsRecovery(call.condition) && key in lastSent && call.now - lastSent[key] < window {
        return false;
      }
      lastSent := lastSent[key := call.now];
      return true;
    }
  }

  function EventsOf(calls: seq<Call>): (es: seq<Event<string>>)
    ensures |es| == |calls| && forall i :: 0 <= i < |es| ==> es[i] == EventOf(calls[i])
  {
    seq(|calls|, i requires 0 <= i < |calls| => EventOf(calls[i]))
  }

  /** A fresh gate fed a whole sequence of calls sends exactly the calls that pass in it. */
  method EmitAll(calls: seq<Call>, window: real) returns (sent: seq<bool>)
    ensures |sent| == |calls| && forall i :: 0 <= i < |calls| ==> sent[i] == PassedAt(EventsOf(calls), window, i)
  {
    var gate := new AlertGate();
    sent := [];
    ghost var es := EventsOf(calls);
    for n := 0 to |calls|
      invariant |sent| == n && gate.lastSent == Last(es[..n], window)
      invariant forall i :: 0 <= i < n ==> sent[i] == PassedAt(es, window, i)
    {
      var b := gate.Emit(calls[n], window);
      assert es[..n + 1][..n] == es[..n];
      sent := sent + [b];
    }
  }

  /** Components without a colon keep the keys of different alerts apart. */
  lemma KeysDistinct(a: Call, b: Call)
    requires ':' !in a.component && ':' !in b.component && KeyOf(a.component, a.condition) == KeyOf(b.component, b.condition)
    ensures a.component == b.component && a.condition == b.condition
  {
    assert KeyOf(a.component, a.condition) == a.component + (":" + a.condition);
    assert KeyOf(b.component, b.condition) == b.component + (":" + b.condition);
    Lines.HeadsAgree(':', a.component, b.component, ":" + a.condition, ":" + b.condition);
    assert a.condition == (":" + a.condition)[1..] && b.condition == (":" + b.condition)[1..];
  }

  /** Over every sequence of calls on a clock that does not run backwards: alerts for one component and one
      condition, not a recovery, that are sent at positions `at` span at least one window less than there are
      of them. */
  lemma AlertsSpan(calls: seq<Call>, window: real, component: string, condition: string, at: seq<nat>)
    requires (forall i, j :: 0 <= i <= j < |calls| ==> calls[i].now <= calls[j].now) && !IsRecovery(condition) && at != []
    requires forall k :: 0 <= k < |at| ==>
      && at[k] < |calls| && calls[at[k]].component == component && calls[at[k]].condition == condition
      && PassedAt(EventsOf(calls), window, at[k])
    requires forall k, m :: 0 <= k < m < |at| ==> at[k] < at[m]
    ensures calls[at[|at| - 1]].now - calls[at[0]].now >= (|at| - 1) as real * window
  {
    PassesSpan(EventsOf(calls), window, KeyOf(component, condition), at);
  }

  /** A suppressed alert is no recovery and follows a sent alert of the same component and condition by less
      than a window. */
  lemma SuppressedIsRepeat(calls: seq<Call>, window: real, j: nat) returns (i: nat)
    requires j < |calls| && !PassedAt(EventsOf(calls), window, j)
    requires forall k :: 0 <= k < |calls| ==> ':' !in calls[k].component
    ensures forall stem: string :: calls[j].condition != stem + "_recovered"
    ensures i < j && calls[i].component == calls[j].component && calls[i].condition == calls[j].condition
    ensures PassedAt(EventsOf(calls), window, i) && calls[j].now - calls[i].now < window
  {
    i := SuppressedNearAPass(EventsOf(calls), window, j);
    KeysDistinct(calls[i], calls[j]);
    forall stem: string ensures calls[j].condition != stem + "_recovered" {
      if calls[j].condition == stem + "_recovered" { RecoveryAlwaysSent(calls, window, j, stem); }
    }
  }

  /** A recovery is sent whatever was sent before, and leaves the key of the alert it ends as it was. */
  lemma RecoveryAlwaysSent(calls: seq<Call>, window: real, j: nat, stem: string)
    requires j < |calls| && calls[j].condition == stem + "_recovered"
    ensures PassedAt(EventsOf(calls), window, j)
    ensures KeyOf(calls[j].component, stem) != KeyOf(calls[j].component, calls[j].condition)
  {
    assert calls[j].condition[|stem|..] == "_recovered";
    assert |KeyOf(calls[j].component, stem)| < |KeyOf(calls[j].component, calls[j].condition)|;
  }

  /** The rate limit on recreating the stream in `_handle_nogroup`. */
  class NogroupGuard {
    var lastAttempt: Option<real>

    constructor ()
      ensures lastAttempt == None
    {
      lastAttempt := None;
    }

    ghost function View(): map<(), real>
      reads this
    {
      if lastAttempt.None? then map[] else map[() := lastAttempt.value]
    }

    /** Whether this NOGROUP error leads to an attempt. */
    method Handle(autoRecreate: bool, now: real, backoff: real) returns (attempts: bool)
      modifies this
      ensures attempts == (autoRecreate && Passes(old(View()), Event((), now, false), backoff))
      ensures View() == if autoRecreate then After(old(View()), Event((), now, false), backoff) else old(View())
    {
      if !autoRecreate {
        return false;
      }
      if lastAttempt.Some? && now - lastAttempt.value < backoff {
        return false;
      }
      lastAttempt := Some(now);
      return true;
    }
  }

  /** A worker with recreation enabled, over a whole sequence of NOGROUP errors: attempts are at least one
      backoff apart. */
  method HandleAll(times: seq<real>, backoff: real) returns (attempts: seq<bool>)
    requires forall i, j :: 0 <= i <= j < |times| ==> times[i] <= times[j]
    ensures |attempts| == |times|
    ensures times != [] ==> attempts[0]
    ensures forall i, j :: 0 <= i < j < |times| && attempts[i] && attempts[j] ==> times[j] - times[i] >= backoff
  {
    var guard := new NogroupGuard();
    attempts := [];
    ghost var es := seq(|times|, i requires 0 <= i < |times| => Event((), times[i], false));
    for n := 0 to |times|
      invariant |attempts| == n && guard.View() == Last(es[..n], backoff)
      invariant forall i :: 0 <= i < n ==> attempts[i] == PassedAt(es, backoff, i)
    {
      var b := guard.Handle(true, times[n], backoff);
      assert es[..n + 1][..n] == es[..n];
      attempts := attempts + [b];
    }
    forall i, j | 0 <= i < j < |times| && attempts[i] && attempts[j] ensures times[j] - times[i] >= backoff {
      PassesSpaced(es, backoff, i, j);
    }
  }
}
