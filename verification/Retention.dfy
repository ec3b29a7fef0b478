/**
 Append-only tables, legal holds and retention: the triggers of alembic/versions/0005 as guards on
 statements, any accounts and any interleaving, and scripts/audit_retention_cleanup.py on top of them.
 */
module Retention {
  import opened Wrappers
  import opened RecordIntegrity
  import opened Tables

  const MAINTENANCE := "audit_maintenance"

  /** A row's date column (`timestamp` or `quarantined_at`) and the rest of it. */
  datatype Row = Row(date: int, content: Record)

  type Key = (Table, string)

  datatype Db = Db(rows: map<Key, Row>, holds: set<Key>)

  /** One committed statement. An UPDATE names the rows its WHERE matches. */
  datatype Statement =
    | Insert(at: Key, row: Row)
    | Update(ats: set<Key>, row: Row)
    | Delete(ats: set<Key>)
    | Hold(at: Key)
    | UpdateHold(ats: set<Key>)
    | Release(at: Key)

  /** A statement and the account (`user@host`) that issues it. */
  datatype Action = Action(account: string, statement: Statement)

  /** `SUBSTRING_INDEX(USER(), '@', 1)`. */
  function UserName(account: string): string {
    if account == "" || account[0] == '@' then "" else [account[0]] + UserName(account[1..])
  }

  /** The host never matters. */
  lemma {:induction false} UserOfAccount(user: string, host: string)
    requires '@' !in user
    ensures UserName(user + "@" + host) == UserName(user) == user
  {
    if user != "" {
      UserOfAccount(user[1..], host);
      assert (user + "@" + host)[1..] == user[1..] + "@" + host;
    }
  }

  /** The delete trigger, row by row: only the maintenance user, and never a held row. */
  predicate MayDelete(db: Db, account: string, k: Key) { UserName(account) == MAINTENANCE && k !in db.holds }

  function Matched(db: Db, ats: set<Key>): set<Key> { set k | k in ats && k in db.rows }

  /** None when a trigger or a primary key refuses; a refused statement changes nothing. */
  function Try(db: Db, a: Action): Option<Db> {
    match a.statement
    case Insert(at, row) => if at in db.rows then None else Some(db.(rows := db.rows[at := row]))
    case Update(ats, _) => if Matched(db, ats) == {} then Some(db) else None
    case Delete(ats) =>
      if forall k :: k in Matched(db, ats) ==> MayDelete(db, a.account, k)
      then Some(db.(rows := db.rows - Matched(db, ats))) else None
    case Hold(at) => if at in db.holds then None else Some(db.(holds := db.holds + {at}))
    case UpdateHold(ats) => if ats * db.holds == {} then Some(db) else None
    case Release(at) => Some(db.(holds := db.holds - {at}))
  }

  function Apply(db: Db, a: Action): Db { if Try(db, a).Some? then Try(db, a).value else db }

  function RunLog(db: Db, log: seq<Action>): Db {
    if log == [] then db else Apply(RunLog(db, log[..|log| - 1]), log[|log| - 1])
  }

  lemma {:induction false} RunLogConcat(db: Db, a: seq<Action>, b: seq<Action>)
    ensures RunLog(db, a + b) == RunLog(RunLog(db, a), b)
  {
    if b == [] {
      assert a + b == a;
    } else {
      RunLogConcat(db, a, b[..|b| - 1]);
      assert (a + b)[..|a + b| - 1] == a + b[..|b| - 1];
    }
  }

  // ----- rows are append-only -----

  /** Step k removed the row, for the maintenance user, while nothing held it. */
  ghost predicate RemovedAt(db: Db, log: seq<Action>, k: nat, key: Key, row: Row)
    requires k < |log|
  {
    var at := RunLog(db, log[..k]);
    && log[k].statement.Delete? && key in log[k].statement.ats && UserName(log[k].account) == MAINTENANCE
    && key in at.rows && at.rows[key] == row && key !in at.holds
  }

  lemma ApplyKeepsRow(db: Db, a: Action, key: Key)
    requires key in db.rows
    ensures var t := Apply(db, a);
      || (key in t.rows && t.rows[key] == db.rows[key])
      || (a.statement.Delete? && key in a.statement.ats && UserName(a.account) == MAINTENANCE && key !in db.holds)
  {
    if a.statement.Delete? && key in a.statement.ats { assert key in Matched(db, a.statement.ats); }
  }

  /** In every log, under any accounts: a row once present is at the end present with the same content, or
      some step removed that very row, issued by the maintenance user, with no hold on it at that moment. */
  lemma {:induction false} RowsOnlyLeaveUnheld(db: Db, log: seq<Action>, i: nat, key: Key)
    requires i <= |log| && key in RunLog(db, log[..i]).rows
    ensures var row := RunLog(db, log[..i]).rows[key];
      || (key in RunLog(db, log).rows && RunLog(db, log).rows[key] == row)
      || exists k: nat :: i <= k < |log| && RemovedAt(db, log, k, key, row)
  {
    var row := RunLog(db, log[..i]).rows[key];
    if i == |log| {
      assert log[..i] == log;
    } else {
      var n := |log| - 1;
      var init := log[..n];
      assert init[..i] == log[..i];
      RowsOnlyLeaveUnheld(db, init, i, key);
      if key in RunLog(db, init).rows && RunLog(db, init).rows[key] == row {
        ApplyKeepsRow(RunLog(db, init), log[n], key);
        if !(key in RunLog(db, log).rows && RunLog(db, log).rows[key] == row) {
          assert RemovedAt(db, log, n, key, row);
        }
      } else {
        var k: nat :| i <= k < |init| && RemovedAt(db, init, k, key, row);
        assert init[..k] == log[..k];
        assert RemovedAt(db, log, k, key, row);
      }
    }
  }

  /** A held row stays, whoever tries, as long as the hold is not released. */
  lemma {:induction false} HeldRowsStay(db: Db, log: seq<Action>, key: Key)
    requires key in db.rows && key in db.holds
    requires forall k :: 0 <= k < |log| ==> log[k].statement != Release(key)
    ensures key in RunLog(db, log).rows && RunLog(db, log).rows[key] == db.rows[key] && key in RunLog(db, log).holds
  {
    if log != [] {
      var init := log[..|log| - 1];
      HeldRowsStay(db, init, key);
      ApplyKeepsRow(RunLog(db, init), log[|log| - 1], key);
    }
  }

  /** Releasing a hold undoes it, for any account and for that row alone; what the hold kept the script's account can
      then delete. */
  lemma ReleaseUndoesHold(db: Db, key: Key, holder: string, releaser: string, account: string)
    requires key in db.rows && key !in db.holds && UserName(account) == MAINTENANCE
    ensures var held := Apply(db, Action(holder, Hold(key)));
      && key in held.holds && Apply(held, Action(account, Delete({key}))) == held
      && Apply(held, Action(releaser, Release(key))) == db
      && Apply(db, Action(account, Delete({key}))) == db.(rows := db.rows - {key})
  {
    var held := Apply(db, Action(holder, Hold(key)));
    assert Matched(db, {key}) == {key} && Matched(held, {key}) == {key};
    assert held.holds - {key} == db.holds;
  }

  // ----- the retention script -----

  /** The WHERE clause of both script queries. */
  function Eligible(db: Db, table: Table, cutoff: int): set<Key> {
    set k | k in db.rows && k.0 == table && db.rows[k].date < cutoff && k !in db.holds
  }

  /** How one table's transaction goes wrong, if it does: the count raises, the delete raises, or the commit
      raises with its work undone or done. */
  datatype Fate = Works | CountRaises | DeleteRaises | CommitRaises(applied: bool)

  datatype Result = DryRun(count: nat) | Success(count: nat) | Partial(expected: nat, actual: nat) | Failed

  /** What the environment does to the script: per table, other sessions' statements before its transaction and
      between its count and its delete, and how the transaction goes. */
  datatype Environment = Environment(before: Table -> seq<Action>, meanwhile: Table -> seq<Action>, fate: Table -> Fate)

  /** What a table's result promises about the rows the script removed from it. */
  predicate ResultTrue(r: Result, removed: set<Key>) {
    match r
    case DryRun(_) => removed == {}
    case Success(n) => |removed| == n
    case Partial(expected, actual) => |removed| == actual != expected
    case Failed => true
  }

  /** The rows the script removed from a table are exactly those rows of it that, when its one delete ran for the
      maintenance user, were dated before the cutoff and not held. */
  ghost predicate OnlyEligible(db: Db, log: seq<Action>, account: string, table: Table, cutoff: int, removed: set<Key>) {
    removed == {} ||
    exists i: nat :: i < |log| && log[i] == Action(account, Delete(removed)) && UserName(account) == MAINTENANCE
      && DatedAndUnheld(RunLog(db, log[..i]), table, cutoff, removed)
  }

  /** The keys are those of the table's rows dated before the cutoff that no hold covers. */
  ghost predicate DatedAndUnheld(at: Db, table: Table, cutoff: int, keys: set<Key>) {
    forall k :: k in keys <==> k in at.rows && k.0 == table && at.rows[k].date < cutoff && k !in at.holds
  }

  lemma OnlyEligibleExtends(db: Db, log: seq<Action>, more: seq<Action>, account: string, table: Table, cutoff: int, removed: set<Key>)
    requires OnlyEligible(db, log, account, table, cutoff, removed)
    ensures OnlyEligible(db, log + more, account, table, cutoff, removed)
  {
    if removed != {} {
      var i: nat :| i < |log| && log[i] == Action(account, Delete(removed)) && UserName(account) == MAINTENANCE
        && DatedAndUnheld(RunLog(db, log[..i]), table, cutoff, removed);
      assert (log + more)[i] == log[i] && (log + more)[..i] == log[..i];
    }
  }

  lemma OnlyEligiblePrepends(db: Db, log: seq<Action>, more: seq<Action>, account: string, table: Table, cutoff: int, removed: set<Key>)
    requires OnlyEligible(RunLog(db, log), more, account, table, cutoff, removed)
    ensures OnlyEligible(db, log + more, account, table, cutoff, removed)
  {
    if removed != {} {
      var i: nat :| i < |more| && more[i] == Action(account, Delete(removed)) && UserName(account) == MAINTENANCE
        && DatedAndUnheld(RunLog(RunLog(db, log), more[..i]), table, cutoff, removed);
      RunLogConcat(db, log, more[..i]);
      assert (log + more)[|log| + i] == more[i] && (log + more)[..|log| + i] == log + more[..i];
    }
  }

  /** Every result so far is true of the rows removed, and those were eligible. */
  ghost predicate Told(db: Db, log: seq<Action>, account: string, cutoff: int, execute: bool,
                       results: map<Table, Result>, removed: map<Table, set<Key>>)
  {
    results.Keys == removed.Keys && forall t :: t in results ==>
      && ResultTrue(results[t], removed[t]) && OnlyEligible(db, log, account, t, cutoff, removed[t])
      && (if execute then !results[t].DryRun? else removed[t] == {})
  }

  lemma ToldNext(db: Db, log: seq<Action>, more: seq<Action>, account: string, cutoff: int, execute: bool,
                 results: map<Table, Result>, removed: map<Table, set<Key>>, table: Table, r: Result, gone: set<Key>)
    requires Told(db, log, account, cutoff, execute, results, removed)
    requires ResultTrue(r, gone) && (if execute then !r.DryRun? else gone == {})
    requires OnlyEligible(RunLog(db, log), more, account, table, cutoff, gone)
    ensures Told(db, log + more, account, cutoff, execute, results[table := r], removed[table := gone])
  {
    var after := removed[table := gone];
    forall t | t in after ensures OnlyEligible(db, log + more, account, t, cutoff, after[t]) {
      if t == table {
        OnlyEligiblePrepends(db, log, more, account, table, cutoff, gone);
      } else {
        OnlyEligibleExtends(db, log, more, account, t, cutoff, removed[t]);
      }
    }
  }

  /** Every action in the log is another session's, or this script's delete of the rows it reports removed. */
  ghost predicate Explained(log: seq<Action>, account: string, env: Environment, removed: map<Table, set<Key>>) {
    forall a :: a in log ==> exists t :: t in removed && ByTable(a, account, env, t, removed[t])
  }

  predicate ByTable(a: Action, account: string, env: Environment, table: Table, gone: set<Key>) {
    a in env.before(table) || a in env.meanwhile(table) || a == Action(account, Delete(gone))
  }

  lemma ExplainedNext(log: seq<Action>, more: seq<Action>, account: string, env: Environment,
                      removed: map<Table, set<Key>>, table: Table, gone: set<Key>)
    requires Explained(log, account, env, removed) && table !in removed
    requires forall a :: a in more ==> ByTable(a, account, env, table, gone)
    ensures Explained(log + more, account, env, removed[table := gone])
  {
    var now := removed[table := gone];
    forall a | a in log + more ensures exists t :: t in now && ByTable(a, account, env, t, now[t]) {
      if a in log {
        var t :| t in removed && ByTable(a, account, env, t, removed[t]);
        assert t in now && now[t] == removed[t];
      } else {
        assert now[table] == gone && ByTable(a, account, env, table, gone);
      }
    }
  }

  /** What one table's transaction comes to. */
  datatype Cleaned = Cleaned(result: Result, removed: set<Key>, log: seq<Action>)

  /** The rows the count finds. */
  function Counted(db: Db, table: Table, cutoff: int, env: Environment): set<Key> {
    Eligible(RunLog(db, env.before(table)), table, cutoff)
  }

  /** The rows the delete finds: those eligible after what other sessions did since the count. */
  function Victims(db: Db, table: Table, cutoff: int, env: Environment): set<Key> {
    Eligible(RunLog(db, env.before(table) + env.meanwhile(table)), table, cutoff)
  }

  function Clean(db: Db, account: string, table: Table, cutoff: int, execute: bool, env: Environment): Cleaned {
    var fate, expected, before := env.fate(table), |Counted(db, table, cutoff, env)|, env.before(table);
    if fate.CountRaises? then Cleaned(Failed, {}, before)
    else if !execute then Cleaned(DryRun(expected), {}, before)
    else if expected == 0 then Cleaned(Success(0), {}, before)
    else
      var others, victims := before + env.meanwhile(table), Victims(db, table, cutoff, env);
      if (victims != {} && UserName(account) != MAINTENANCE) || fate.DeleteRaises? || fate == CommitRaises(false)
      then Cleaned(Failed, {}, others)
      else
        Cleaned(
          if fate.CommitRaises? then Failed else if |victims| != expected then Partial(expected, |victims|) else Success(expected),
          victims, others + if victims == {} then [] else [Action(account, Delete(victims))])
  }

  /** Rows are removed that no success is reported for: the delete removed some, and either the commit raised
      after taking effect or another session had changed how many there were. */
  predicate Missed(db: Db, account: string, table: Table, cutoff: int, execute: bool, env: Environment) {
    var counted, victims := Counted(db, table, cutoff, env), Victims(db, table, cutoff, env);
    && execute && counted != {} && victims != {} && UserName(account) == MAINTENANCE
    && (env.fate(table) == CommitRaises(true) || (env.fate(table).Works? && |victims| != |counted|))
  }

  lemma MissedIff(db: Db, account: string, table: Table, cutoff: int, execute: bool, env: Environment)
    ensures var c := Clean(db, account, table, cutoff, execute, env);
      && (Missed(db, account, table, cutoff, execute, env) <==> c.removed != {} && !c.result.Success?)
      && (c.result.Success? ==> c.result.count == |c.removed|)
  {
  }

  function TableResults(first: Cleaned, second: Cleaned): map<Table, Result> {
    map[AuditEvents := first.result, QuarantinedAuditEvents := second.result]
  }

  /** When the total in the status file is the number of rows removed: exactly when neither table has removed
      rows that go unreported. */
  lemma TotalExactIff(db: Db, account: string, cutoff: int, execute: bool, env: Environment)
    ensures var first := Clean(db, account, AuditEvents, cutoff, execute, env);
      var between := RunLog(db, first.log);
      var second := Clean(between, account, QuarantinedAuditEvents, cutoff, execute, env);
      TotalDeleted(TableResults(first, second)) == |first.removed| + |second.removed| <==>
        !Missed(db, account, AuditEvents, cutoff, execute, env) && !Missed(between, account, QuarantinedAuditEvents, cutoff, execute, env)
  {
    var first := Clean(db, account, AuditEvents, cutoff, execute, env);
    var between := RunLog(db, first.log);
    MissedIff(db, account, AuditEvents, cutoff, execute, env);
    MissedIff(between, account, QuarantinedAuditEvents, cutoff, execute, env);
    TotalOf(first, Clean(between, account, QuarantinedAuditEvents, cutoff, execute, env));
  }

  lemma TotalOf(first: Cleaned, second: Cleaned)
    requires first.result.Success? ==> first.result.count == |first.removed|
    requires second.result.Success? ==> second.result.count == |second.removed|
    ensures TotalDeleted(TableResults(first, second)) ==
      (if first.result.Success? then |first.removed| else 0) + (if second.result.Success? then |second.removed| else 0)
    ensures first.removed != {} <==> |first.removed| > 0
    ensures second.removed != {} <==> |second.removed| > 0
  {
    if first.removed != {} { var k :| k in first.removed; assert first.removed == {k} + (first.removed - {k}); }
    if second.removed != {} { var k :| k in second.removed; assert second.removed == {k} + (second.removed - {k}); }
  }

  /** Another session puts a hold on one row before the delete; nothing else goes wrong. */
  function HoldMeanwhile(key: Key): Environment {
    Environment(
      (t: Table) => [], (t: Table) => if t == AuditEvents then [Action("ops@db", Hold(key))] else [], (t: Table) => Works)
  }

  /** One of two eligible rows gets a hold between the count and the delete: the other is removed, the result is
      partial, and the total says that nothing was deleted. */
  lemma HoldMidwayUnreported(db: Db, a: Key, b: Key)
    requires a != b && a.0 == b.0 == AuditEvents && db == Db(map[a := Row(0, map[]), b := Row(0, map[])], {})
    ensures var first := Clean(db, MAINTENANCE + "@db", AuditEvents, 1, true, HoldMeanwhile(b));
      var second := Clean(RunLog(db, first.log), MAINTENANCE + "@db", QuarantinedAuditEvents, 1, true, HoldMeanwhile(b));
      && first.result == Partial(2, 1) && first.removed == {a} && second.result == Success(0) && second.removed == {}
      && TotalDeleted(TableResults(first, second)) == 0
  {
    var account, env := MAINTENANCE + "@db", HoldMeanwhile(b);
    HeldRowSpared(db, a, b);
    UserNameStops(MAINTENANCE, "db");
    assert MAINTENANCE + "@" + "db" == account;
    FewerThanCounted(db, account, AuditEvents, 1, env, a, b);
    NoOtherTable(db, Clean(db, account, AuditEvents, 1, true, env).log, 1);
  }

  lemma HeldRowSpared(db: Db, a: Key, b: Key)
    requires a != b && a.0 == b.0 == AuditEvents && db == Db(map[a := Row(0, map[]), b := Row(0, map[])], {})
    ensures Counted(db, AuditEvents, 1, HoldMeanwhile(b)) == {a, b}
    ensures Victims(db, AuditEvents, 1, HoldMeanwhile(b)) == {a}
  {
    var hold := Action("ops@db", Hold(b));
    assert [hold][..0] == [] && [] + [hold] == [hold];
    assert RunLog(db, [hold]) == db.(holds := {b});
  }

  lemma FewerThanCounted(db: Db, account: string, table: Table, cutoff: int, env: Environment, a: Key, b: Key)
    requires a != b && Counted(db, table, cutoff, env) == {a, b} && Victims(db, table, cutoff, env) == {a}
    requires UserName(account) == MAINTENANCE && env.fate(table).Works?
    ensures Clean(db, account, table, cutoff, true, env)
      == Cleaned(Partial(2, 1), {a}, env.before(table) + env.meanwhile(table) + [Action(account, Delete({a}))])
  {
    assert |{a, b}| == 2 && |{a}| == 1;
  }

  lemma {:induction false} UserNameStops(name: string, host: string)
    requires '@' !in name
    ensures UserName(name + "@" + host) == name
  {
    var account := name + "@" + host;
    if name != "" {
      UserNameStops(name[1..], host);
      assert account[1..] == name[1..] + "@" + host;
    }
  }

  /** Without inserts a table that is empty stays empty. */
  lemma {:induction false} NoOtherTable(db: Db, log: seq<Action>, cutoff: int)
    requires forall k :: k in db.rows ==> k.0 == AuditEvents
    requires forall i :: 0 <= i < |log| ==> !log[i].statement.Insert?
    ensures forall k :: k in RunLog(db, log).rows ==> k.0 == AuditEvents
    ensures Eligible(RunLog(db, log), QuarantinedAuditEvents, cutoff) == {}
  {
    if log != [] { NoOtherTable(db, log[..|log| - 1], cutoff); }
  }

  /** No table failed or came out partial. */
  predicate NothingWrong(results: map<Table, Result>) { forall t :: t in results ==> results[t].Success? || results[t].DryRun? }

  lemma NothingWrongNext(results: map<Table, Result>, table: Table, r: Result)
    requires table !in results
    ensures NothingWrong(results[table := r]) <==> NothingWrong(results) && (r.Success? || r.DryRun?)
  {
    var next := results[table := r];
    assert next[table] == r && forall t :: t in results ==> t in next && next[t] == results[t];
  }

  /** After i tables the script has what `Clean` says of each. */
  predicate AsCleaned(i: nat, results: map<Table, Result>, removed: map<Table, set<Key>>, log: seq<Action>, first: Cleaned, second: Cleaned) {
    && (i == 0 ==> log == [])
    && (i == 1 ==> log == first.log && results == map[AuditEvents := first.result] && removed == map[AuditEvents := first.removed])
    && (i == 2 ==> results == TableResults(first, second)
                   && removed == map[AuditEvents := first.removed, QuarantinedAuditEvents := second.removed])
  }

  /** What `Clean` promises: the result is true, the rows removed were eligible when the delete ran, and every
      other action is another session's. */
  lemma CleanTells(db: Db, account: string, table: Table, cutoff: int, execute: bool, env: Environment)
    ensures var c := Clean(db, account, table, cutoff, execute, env);
      && ResultTrue(c.result, c.removed) && OnlyEligible(db, c.log, account, table, cutoff, c.removed)
      && forall a :: a in c.log ==> ByTable(a, account, env, table, c.removed)
  {
    var c := Clean(db, account, table, cutoff, execute, env);
    if c.removed != {} {
      var others := env.before(table) + env.meanwhile(table);
      assert c.log[..|others|] == others && c.log[|others|] == Action(account, Delete(c.removed));
    }
  }

  // ----- what stays and what goes -----

  /** No statement of the log deletes the row. */
  predicate Untouched(log: seq<Action>, key: Key) { forall a :: a in log && a.statement.Delete? ==> key !in a.statement.ats }

  lemma {:induction false} UntouchedStays(db: Db, log: seq<Action>, key: Key)
    requires key in db.rows && Untouched(log, key)
    ensures key in RunLog(db, log).rows && RunLog(db, log).rows[key] == db.rows[key]
  {
    if log != [] {
      var n := |log| - 1;
      assert forall a :: a in log[..n] ==> a in log;
      UntouchedStays(db, log[..n], key);
      assert log[n] in log;
      ApplyKeepsRow(RunLog(db, log[..n]), log[n], key);
    }
  }

  /** A row dated at or after the cutoff, or one of the other table, is not the script's to remove. */
  lemma FreshRowStays(db: Db, account: string, table: Table, cutoff: int, execute: bool, env: Environment, key: Key)
    requires key in db.rows && (key.0 != table || db.rows[key].date >= cutoff)
    requires Untouched(env.before(table) + env.meanwhile(table), key)
    ensures var t := RunLog(db, Clean(db, account, table, cutoff, execute, env).log);
      key in t.rows && t.rows[key] == db.rows[key]
  {
    var c, before, others := Clean(db, account, table, cutoff, execute, env), env.before(table), env.before(table) + env.meanwhile(table);
    assert forall a :: a in before ==> a in others;
    UntouchedStays(db, before, key);
    UntouchedStays(db, others, key);
    assert others + [] == others;
    if c.removed != {} {
      RunLogConcat(db, others, [Action(account, Delete(c.removed))]);
      assert [Action(account, Delete(c.removed))][..0] == [];
      ApplyKeepsRow(RunLog(db, others), Action(account, Delete(c.removed)), key);
    }
  }

  /** Rows of other tables, and rows dated at or after the cutoff, are as they were unless another session deleted
      them. */
  ghost predicate OthersStay(s: Db, t: Db, others: seq<Action>, table: Table, cutoff: int) {
    forall k ::
      k in s.rows && (k.0 != table || s.rows[k].date >= cutoff) && Untouched(others, k) ==> k in t.rows && t.rows[k] == s.rows[k]
  }

  lemma CleanSpares(db: Db, account: string, table: Table, cutoff: int, execute: bool, env: Environment)
    ensures OthersStay(db, RunLog(db, Clean(db, account, table, cutoff, execute, env).log),
                       env.before(table) + env.meanwhile(table), table, cutoff)
  {
    forall k | k in db.rows && (k.0 != table || db.rows[k].date >= cutoff) && Untouched(env.before(table) + env.meanwhile(table), k)
      ensures var t := RunLog(db, Clean(db, account, table, cutoff, execute, env).log); k in t.rows && t.rows[k] == db.rows[k]
    {
      FreshRowStays(db, account, table, cutoff, execute, env, k);
    }
  }

  /** The table has so many rows dated before the cutoff that no hold covers. */
  ghost predicate Amounts(at: Db, table: Table, cutoff: int, count: nat) {
    exists keys :: DatedAndUnheld(at, table, cutoff, keys) && count == |keys|
  }

  /** A dry run's count is that of the table as it stands, a success's that of the table when it was counted. */
  lemma CleanCounts(db: Db, account: string, table: Table, cutoff: int, execute: bool, env: Environment)
    ensures var c := Clean(db, account, table, cutoff, execute, env);
      && (c.result.DryRun? ==> Amounts(RunLog(db, c.log), table, cutoff, c.result.count))
      && (c.result.Success? ==> Amounts(RunLog(db, env.before(table)), table, cutoff, c.result.count))
  {
    assert DatedAndUnheld(RunLog(db, env.before(table)), table, cutoff, Counted(db, table, cutoff, env));
  }

  /** No row of the table is left that is dated before the cutoff and not held. */
  ghost predicate Swept(db: Db, table: Table, cutoff: int) {
    forall k :: k in db.rows && k.0 == table && db.rows[k].date < cutoff ==> k in db.holds
  }

  /** If nothing goes wrong, the maintenance user's transaction leaves no such row. */
  lemma CleanSweeps(db: Db, account: string, table: Table, cutoff: int, env: Environment)
    requires env.fate(table).Works? && UserName(account) == MAINTENANCE
    ensures Swept(RunLog(db, Clean(db, account, table, cutoff, true, env).log), table, cutoff)
  {
    var c, before, others := Clean(db, account, table, cutoff, true, env), env.before(table), env.before(table) + env.meanwhile(table);
    if Counted(db, table, cutoff, env) == {} {
      NoneEligible(RunLog(db, before), table, cutoff);
    } else if c.removed == {} {
      assert others + [] == others;
      NoneEligible(RunLog(db, others), table, cutoff);
    } else {
      RunLogConcat(db, others, [Action(account, Delete(c.removed))]);
      assert [Action(account, Delete(c.removed))][..0] == [];
      DeleteRemoves(RunLog(db, others), account, table, cutoff);
    }
  }

  lemma NoneEligible(db: Db, table: Table, cutoff: int)
    ensures Eligible(db, table, cutoff) == {} <==> Swept(db, table, cutoff)
  {
    forall k | k in db.rows && k.0 == table && db.rows[k].date < cutoff && k !in db.holds ensures k in Eligible(db, table, cutoff) {}
  }

  /** What one table's transaction, with other sessions around it, has done between two states: the rows removed are
      those dated before the cutoff and not held when the delete ran, the result and its count are true, a dry run
      only counts, other rows are as they were, every action is another session's or the delete, and if nothing went
      wrong for the maintenance user no such row is left. */
  ghost predicate TableDone(s: Db, t: Db, c: Cleaned, account: string, table: Table, cutoff: int, execute: bool, env: Environment) {
    && OnlyEligible(s, c.log, account, table, cutoff, c.removed)
    && ResultTrue(c.result, c.removed) && (!execute ==> c.removed == {} && c.log == env.before(table))
    && (c.result.DryRun? ==> !execute && Amounts(t, table, cutoff, c.result.count))
    && (c.result.Success? ==> execute && Amounts(RunLog(s, env.before(table)), table, cutoff, c.result.count))
    && OthersStay(s, t, env.before(table) + env.meanwhile(table), table, cutoff)
    && (forall a :: a in c.log ==> ByTable(a, account, env, table, c.removed))
    && (execute && env.fate(table).Works? && UserName(account) == MAINTENANCE ==> !c.result.Failed? && Swept(t, table, cutoff))
  }

  lemma CleanIsDone(db: Db, account: string, table: Table, cutoff: int, execute: bool, env: Environment)
    ensures var c := Clean(db, account, table, cutoff, execute, env);
      TableDone(db, RunLog(db, c.log), c, account, table, cutoff, execute, env)
  {
    CleanTells(db, account, table, cutoff, execute, env);
    CleanSpares(db, account, table, cutoff, execute, env);
    CleanCounts(db, account, table, cutoff, execute, env);
    if env.fate(table).Works? && UserName(account) == MAINTENANCE { CleanSweeps(db, account, table, cutoff, env); }
  }

  /** At some moment of the log no such row was left. */
  ghost predicate SweptAtSomeTime(db: Db, log: seq<Action>, table: Table, cutoff: int) {
    exists i: nat :: i <= |log| && Swept(RunLog(db, log[..i]), table, cutoff)
  }

  /** No other session's statement deletes the row. */
  predicate UntouchedByOthers(env: Environment, key: Key) {
    && Untouched(env.before(AuditEvents) + env.meanwhile(AuditEvents), key)
    && Untouched(env.before(QuarantinedAuditEvents) + env.meanwhile(QuarantinedAuditEvents), key)
  }

  ghost predicate FreshStay(s: Db, t: Db, env: Environment, cutoff: int) {
    forall k :: k in s.rows && s.rows[k].date >= cutoff && UntouchedByOthers(env, k) ==> k in t.rows && t.rows[k] == s.rows[k]
  }

  lemma FreshStayNext(s: Db, t: Db, u: Db, env: Environment, table: Table, cutoff: int)
    requires FreshStay(s, t, env, cutoff) && OthersStay(t, u, env.before(table) + env.meanwhile(table), table, cutoff)
    ensures FreshStay(s, u, env, cutoff)
  {
  }

  ghost predicate AllSwept(db: Db, log: seq<Action>, env: Environment, cutoff: int, tables: set<Table>) {
    forall t :: t in tables && env.fate(t).Works? ==> SweptAtSomeTime(db, log, t, cutoff)
  }

  lemma AllSweptNext(db: Db, log: seq<Action>, more: seq<Action>, env: Environment, cutoff: int, tables: set<Table>, table: Table)
    requires AllSwept(db, log, env, cutoff, tables)
    requires env.fate(table).Works? ==> Swept(RunLog(db, log + more), table, cutoff)
    ensures AllSwept(db, log + more, env, cutoff, tables + {table})
  {
    var all := log + more;
    forall t | t in tables + {table} && env.fate(t).Works? ensures SweptAtSomeTime(db, all, t, cutoff) {
      if t == table {
        assert all[..|all|] == all;
      } else {
        var i: nat :| i <= |log| && Swept(RunLog(db, log[..i]), t, cutoff);
        assert all[..i] == log[..i];
      }
    }
  }

  class Maintenance {
    var db: Db

    /** One iteration of the loop in `main`. */
    method CleanTable(account: string, table: Table, cutoff: int, execute: bool, env: Environment)
      returns (r: Result, ghost log: seq<Action>, ghost removed: set<Key>)
      modifies this
      ensures Cleaned(r, removed, log) == Clean(old(db), account, table, cutoff, execute, env)
      ensures db == RunLog(old(db), log) && TableDone(old(db), db, Cleaned(r, removed, log), account, table, cutoff, execute, env)
    {
      r, log, removed := Transact(account, table, cutoff, execute, env);
      CleanIsDone(old(db), account, table, cutoff, execute, env);
    }

    /** Its transaction: count, delete, commit. */
    method Transact(account: string, table: Table, cutoff: int, execute: bool, env: Environment)
      returns (r: Result, ghost log: seq<Action>, ghost removed: set<Key>)
      modifies this
      ensures Cleaned(r, removed, log) == Clean(old(db), account, table, cutoff, execute, env) && db == RunLog(old(db), log)
    {
      var before := env.before(table);
      log, removed := before, {};
      db := RunLog(db, before);
      var fate := env.fate(table);
      if fate.CountRaises? {
        return Failed, log, removed;
      }
      var eligible := |Eligible(db, table, cutoff)|;
      if !execute {
        return DryRun(eligible), log, removed;
      }
      if eligible == 0 {
        return Success(0), log, removed;
      }
      var others := env.meanwhile(table);
      RunLogConcat(old(db), before, others);
      log := before + others;
      db := RunLog(db, others);
      var victims := Eligible(db, table, cutoff);
      if victims != {} && UserName(account) != MAINTENANCE {
        return Failed, log, removed;
      }
      if fate.DeleteRaises? || fate == CommitRaises(false) {
        return Failed, log, removed;
      }
      ghost var delete := Action(account, Delete(victims));
      DeleteRemoves(db, account, table, cutoff);
      if victims != {} {
        removed := victims;
        RunLogConcat(old(db), log, [delete]);
        assert [delete][..0] == [];
        log := log + [delete];
      }
      db := db.(rows := db.rows - victims);
      if fate.CommitRaises? {
        return Failed, log, removed;
      }
      if |victims| != eligible {
        return Partial(eligible, |victims|), log, removed;
      }
      return Success(|victims|), log, removed;
    }

    /** The loop over both tables, and the overall verdict. */
    method Cleanup(account: string, cutoff: int, execute: bool, env: Environment)
      returns (results: map<Table, Result>, ok: bool, ghost log: seq<Action>, ghost removed: map<Table, set<Key>>)
      modifies this
      ensures results.Keys == removed.Keys == {AuditEvents, QuarantinedAuditEvents}
      ensures db == RunLog(old(db), log)
      ensures forall t :: t in results ==>
        ResultTrue(results[t], removed[t]) && OnlyEligible(old(db), log, account, t, cutoff, removed[t])
      ensures Explained(log, account, env, removed)
      ensures forall k :: k in old(db).rows && old(db).rows[k].date >= cutoff && UntouchedByOthers(env, k) ==>
        k in db.rows && db.rows[k] == old(db).rows[k]
      ensures execute && UserName(account) == MAINTENANCE ==>
        forall t :: t in results && env.fate(t).Works? ==> SweptAtSomeTime(old(db), log, t, cutoff)
      ensures !execute ==> log == env.before(AuditEvents) + env.before(QuarantinedAuditEvents) && forall t :: t in removed ==> removed[t] == {}
      ensures ok <==> NothingWrong(results)
      ensures var between := RunLog(old(db), Clean(old(db), account, AuditEvents, cutoff, execute, env).log);
        TotalDeleted(results) == |removed[AuditEvents]| + |removed[QuarantinedAuditEvents]| <==>
          && !Missed(old(db), account, AuditEvents, cutoff, execute, env)
          && !Missed(between, account, QuarantinedAuditEvents, cutoff, execute, env)
    {
      results, ok, log, removed := map[], true, [], map[];
      ghost var first := Clean(db, account, AuditEvents, cutoff, execute, env);
      ghost var second := Clean(RunLog(db, first.log), account, QuarantinedAuditEvents, cutoff, execute, env);
      var tables := [AuditEvents, QuarantinedAuditEvents];
      for i := 0 to |tables|
        invariant i == 0 ==> results == map[] && removed == map[]
        invariant db == RunLog(old(db), log)
        invariant !execute && i == 2 ==> log == env.before(AuditEvents) + env.before(QuarantinedAuditEvents)
        invariant Told(old(db), log, account, cutoff, execute, results, removed)
        invariant AsCleaned(i, results, removed, log, first, second)
        invariant Explained(log, account, env, removed)
        invariant FreshStay(old(db), db, env, cutoff)
        invariant execute && UserName(account) == MAINTENANCE ==> AllSwept(old(db), log, env, cutoff, results.Keys)
        invariant ok <==> NothingWrong(results)
      {
        var r; ghost var more, gone;
        r, more, gone := CleanTable(account, tables[i], cutoff, execute, env);
        RunLogConcat(old(db), log, more);
        FreshStayNext(old(db), RunLog(old(db), log), db, env, tables[i], cutoff);
        if execute && UserName(account) == MAINTENANCE {
          AllSweptNext(old(db), log, more, env, cutoff, results.Keys, tables[i]);
        }
        ToldNext(old(db), log, more, account, cutoff, execute, results, removed, tables[i], r, gone);
        ExplainedNext(log, more, account, env, removed, tables[i], gone);
        NothingWrongNext(results, tables[i], r);
        log := log + more;
        results, removed := results[tables[i] := r], removed[tables[i] := gone];
        if !r.Success? && !r.DryRun? {
          ok := false;
        }
      }
      TotalExactIff(old(db), account, cutoff, execute, env);
    }
  }

  /** The total in the status file: the counts of the tables reported as success. */
  function TotalDeleted(results: map<Table, Result>): nat
    requires results.Keys == {AuditEvents, QuarantinedAuditEvents}
  {
    (if results[AuditEvents].Success? then results[AuditEvents].count else 0)
    + if results[QuarantinedAuditEvents].Success? then results[QuarantinedAuditEvents].count else 0
  }

  /** For the maintenance user the script's delete is never refused and removes exactly the eligible rows. */
  lemma DeleteRemoves(db: Db, account: string, table: Table, cutoff: int)
    requires UserName(account) == MAINTENANCE || Eligible(db, table, cutoff) == {}
    ensures Apply(db, Action(account, Delete(Eligible(db, table, cutoff)))) == db.(rows := db.rows - Eligible(db, table, cutoff))
  {
    assert Matched(db, Eligible(db, table, cutoff)) == Eligible(db, table, cutoff);
  }
}
