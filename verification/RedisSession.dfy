/** The guarded Redis session of scripts/redis_acl_safety.py, with the commands that reach the wire as state. */
module RedisSession {
  import opened Wrappers

  const PRODUCTION_PORT := 6380

  /** A command argument, as `str` or as `bytes`. */
  datatype Arg = Text(text: string) | Raw(bytes: seq<bv8>)

  type Command = seq<Arg>
  type Name = seq<string>

  datatype Error = Classification | AuthenticationFailed | IdentityMismatch | Prohibited | Dangerous | SessionClosed | ServerError

  datatype Answer = True | Words(words: string) | Other

  /** What one `execute_command` gives back: an answer, or an exception of the client library or another. */
  datatype Reply = Answered(answer: Answer) | RedisFailure | OtherFailure

  const DANGEROUS_COMMANDS: set<Name> :=
    { ["FLUSHALL"], ["FLUSHDB"], ["SHUTDOWN"], ["DEBUG"], ["CONFIG", "SET"], ["ACL", "SETUSER"], ["ACL", "DELUSER"],
      ["ACL", "LOAD"], ["ACL", "SAVE"], ["ACL", "LOG"], ["MODULE", "LOAD"], ["MODULE", "UNLOAD"], ["MIGRATE"],
      ["RESTORE"], ["RESTORE-ASKING"], ["SWAPDB"], ["REPLICAOF"], ["SLAVEOF"] }

  const PRODUCTION_ALLOWED_COMMANDS: set<Name> := { ["PING"], ["ACL", "WHOAMI"], ["INFO"] }

  const KNOWN_SUBCOMMAND_PREFIXES: set<string> :=
    { "ACL", "CONFIG", "CLIENT", "XGROUP", "XINFO", "SCRIPT", "FUNCTION", "MODULE", "COMMAND", "CLUSTER", "LATENCY",
      "SLOWLOG", "MEMORY", "OBJECT", "PUBSUB" }

  // ----- one argument -----

  /** What Python does beyond ASCII: upper-casing, white space, and decoding bytes with replacement. */
  datatype Unicode = Unicode(upper: char -> string, isSpace: char -> bool, decode: seq<bv8> -> string)

  predicate IsAscii(bytes: seq<bv8>) { forall i :: 0 <= i < |bytes| ==> bytes[i] < 0x80 }

  function AsciiText(bytes: seq<bv8>): string
    requires IsAscii(bytes)
  {
    seq(|bytes|, i requires 0 <= i < |bytes| => bytes[i] as int as char)
  }

  /** `str(a)`, after `decode("utf-8", errors="replace")` if it is bytes. */
  function ArgText(u: Unicode, a: Arg): string {
    match a
    case Text(text) => text
    case Raw(bytes) => if IsAscii(bytes) then AsciiText(bytes) else u.decode(bytes)
  }

  predicate IsSpace(u: Unicode, c: char) {
    var n := c as int;
    if n < 128 then 9 <= n <= 13 || 28 <= n <= 32 else u.isSpace(c)
  }

  function StripLeft(u: Unicode, s: string): string {
    if s != "" && IsSpace(u, s[0]) then StripLeft(u, s[1..]) else s
  }

  function StripRight(u: Unicode, s: string): string {
    if s != "" && IsSpace(u, s[|s| - 1]) then StripRight(u, s[..|s| - 1]) else s
  }

  function UpperChar(u: Unicode, c: char): string {
    if 'a' <= c <= 'z' then [c - 'a' + 'A'] else if c as int < 128 then [c] else u.upper(c)
  }

  function Upper(u: Unicode, s: string): string { if s == "" then "" else UpperChar(u, s[0]) + Upper(u, s[1..]) }

  /** `.strip().upper()`. */
  function Fold(u: Unicode, a: Arg): string { Upper(u, StripRight(u, StripLeft(u, ArgText(u, a)))) }

  predicate AllSpace(u: Unicode, s: string) { forall i :: 0 <= i < |s| ==> IsSpace(u, s[i]) }

  lemma {:induction false} PadLeft(u: Unicode, pad: string, s: string)
    requires AllSpace(u, pad)
    ensures StripLeft(u, pad + s) == StripLeft(u, s)
  {
    if pad == "" {
      assert pad + s == s;
    } else {
      PadLeft(u, pad[1..], s);
      assert (pad + s)[1..] == pad[1..] + s;
    }
  }

  lemma {:induction false} PadRight(u: Unicode, s: string, pad: string)
    requires AllSpace(u, pad)
    ensures StripRight(u, s + pad) == StripRight(u, s)
  {
    if pad == "" {
      assert s + pad == s;
    } else {
      var n := |pad| - 1;
      PadRight(u, s, pad[..n]);
      assert (s + pad)[..|s + pad| - 1] == s + pad[..n];
    }
  }

  /** Padding on the right is not touched by stripping the left, unless nothing else is left. */
  lemma {:induction false} PadAfter(u: Unicode, s: string, pad: string)
    requires AllSpace(u, pad)
    ensures StripRight(u, StripLeft(u, s + pad)) == StripRight(u, StripLeft(u, s))
  {
    if s == "" {
      PadLeft(u, pad, "");
      assert s + pad == pad + "";
    } else if IsSpace(u, s[0]) {
      PadAfter(u, s[1..], pad);
      assert (s + pad)[1..] == s[1..] + pad;
    } else {
      assert (s + pad)[0] == s[0];
      PadRight(u, s, pad);
    }
  }

  /** ASCII characters `str.strip` removes: tab to carriage return, the four separators and the space. */
  predicate Padding(s: string) {
    forall i :: 0 <= i < |s| ==> s[i] in {'\t', '\n', '\r', ' '} || s[i] as int in {11, 12, 28, 29, 30, 31}
  }

  /** White space around an argument does not matter. */
  lemma PaddingIgnored(u: Unicode, left: string, s: string, right: string)
    requires (Padding(left) || AllSpace(u, left)) && (Padding(right) || AllSpace(u, right))
    ensures Fold(u, Text(left + s + right)) == Fold(u, Text(s))
  {
    assert left + s + right == left + (s + right);
    PadLeft(u, left, s + right);
    PadAfter(u, s, right);
  }

  function LowerChar(c: char): char { if 'A' <= c <= 'Z' then c - 'A' + 'a' else c }

  function Lower(s: string): (t: string)
    ensures |t| == |s| && forall i :: 0 <= i < |s| ==> t[i] == LowerChar(s[i])
  {
    seq(|s|, i requires 0 <= i < |s| => LowerChar(s[i]))
  }

  lemma {:induction false} UpperOfLower(u: Unicode, s: string)
    ensures Upper(u, Lower(s)) == Upper(u, s)
  {
    if s != "" {
      UpperOfLower(u, s[1..]);
      assert Lower(s)[1..] == Lower(s[1..]);
      assert UpperChar(u, LowerChar(s[0])) == UpperChar(u, s[0]);
    }
  }

  lemma {:induction false} StripLeftOfLower(u: Unicode, s: string)
    ensures StripLeft(u, Lower(s)) == Lower(StripLeft(u, s))
  {
    if s != "" {
      StripLeftOfLower(u, s[1..]);
      assert Lower(s)[1..] == Lower(s[1..]);
    }
  }

  lemma {:induction false} StripRightOfLower(u: Unicode, s: string)
    ensures StripRight(u, Lower(s)) == Lower(StripRight(u, s))
  {
    if s != "" {
      StripRightOfLower(u, s[..|s| - 1]);
      assert Lower(s)[..|s| - 1] == Lower(s[..|s| - 1]);
    }
  }

  /** Nor does the case of its ASCII letters, or whether it came as text or as bytes. */
  lemma CaseIgnored(u: Unicode, s: string)
    ensures Fold(u, Text(Lower(s))) == Fold(u, Text(s))
  {
    StripLeftOfLower(u, s);
    StripRightOfLower(u, StripLeft(u, s));
    UpperOfLower(u, StripRight(u, StripLeft(u, s)));
  }

  /** The bytes are the ASCII codes of the text. */
  predicate Encodes(bytes: seq<bv8>, s: string) {
    |bytes| == |s| && forall i :: 0 <= i < |s| ==> bytes[i] < 0x80 && bytes[i] as int == s[i] as int
  }

  lemma BytesIgnored(u: Unicode, bytes: seq<bv8>, s: string)
    requires Encodes(bytes, s)
    ensures Fold(u, Raw(bytes)) == Fold(u, Text(s))
  {
    assert AsciiText(bytes) == s;
  }

  predicate Capital(s: string) { forall i :: 0 <= i < |s| ==> 'A' <= s[i] <= 'Z' || s[i] == '-' }

  lemma {:induction false} CapitalUpper(u: Unicode, s: string)
    requires Capital(s)
    ensures Upper(u, s) == s
  {
    if s != "" {
      CapitalUpper(u, s[1..]);
      assert s == [s[0]] + s[1..];
    }
  }

  lemma CapitalFolds(u: Unicode, s: string)
    requires Capital(s)
    ensures Fold(u, Text(s)) == s
  {
    assert StripLeft(u, s) == s && StripRight(u, s) == s;
    CapitalUpper(u, s);
  }

  /** Every gate permits the identity check that `authenticate` sends. */
  lemma WhoamiPermitted(u: Unicode, gate: Gate)
    ensures Permits(gate, u, WHOAMI)
  {
    WhoamiName(u);
    AllowedNotDangerous(["ACL", "WHOAMI"]);
  }

  lemma WhoamiName(u: Unicode)
    ensures NameOf(u, WHOAMI) == Some(["ACL", "WHOAMI"])
  {
    TwoWordName(u, "ACL", "WHOAMI");
  }

  lemma TwoWordName(u: Unicode, a: string, b: string)
    requires Capital(a) && Capital(b) && a != "" && a in KNOWN_SUBCOMMAND_PREFIXES
    ensures NameOf(u, [Text(a), Text(b)]) == Some([a, b])
  {
    CapitalFolds(u, a);
    CapitalFolds(u, b);
  }

  // ----- names and gates -----

  /** A command's name, folded. */
  function NameOf(u: Unicode, args: Command): Option<Name> {
    if args == [] || Fold(u, args[0]) == "" then None
    else if |args| >= 2 && Fold(u, args[0]) in KNOWN_SUBCOMMAND_PREFIXES then Some([Fold(u, args[0]), Fold(u, args[1])])
    else Some([Fold(u, args[0])])
  }

  method NormalizeCommand(u: Unicode, args: Command) returns (name: Option<Name>)
    ensures name == NameOf(u, args)
  {
    if args == [] {
      return None;
    }
    var parts: seq<string> := [];
    for i := 0 to |args|
      invariant |parts| == i && forall k :: 0 <= k < i ==> parts[k] == Fold(u, args[k])
    {
      parts := parts + [Fold(u, args[i])];
    }
    if parts[0] == "" {
      return None;
    }
    if |parts| >= 2 && parts[0] in KNOWN_SUBCOMMAND_PREFIXES {
      return Some([parts[0], parts[1]]);
    }
    return Some([parts[0]]);
  }

  datatype Gate = Production | Disposable | DisposableNegativeTest

  /** What a gate lets through, said of the command's name alone. */
  predicate Permits(gate: Gate, u: Unicode, args: Command) {
    var name := NameOf(u, args);
    name.Some? && match gate
      case Production => name.value in PRODUCTION_ALLOWED_COMMANDS
      case Disposable => name.value !in DANGEROUS_COMMANDS
      case DisposableNegativeTest => true
  }

  /** No allowed command is on the denylist. */
  lemma AllowedNotDangerous(name: Name)
    requires name in PRODUCTION_ALLOWED_COMMANDS
    ensures name !in DANGEROUS_COMMANDS
  {
    if name == ["PING"] {
      assert name[0] == "PING";
    } else if name == ["INFO"] {
      assert name[0] == "INFO";
    } else {
      assert name == ["ACL", "WHOAMI"] && name[1] == "WHOAMI";
    }
  }

  /** A listed name as `NameOf` can produce it: two words exactly when the first has subcommands. */
  predicate Reachable(name: Name) {
    && (|name| == 1 || |name| == 2) && name[0] != "" && (forall i :: 0 <= i < |name| ==> Capital(name[i]))
    && (|name| == 2 <==> name[0] in KNOWN_SUBCOMMAND_PREFIXES)
  }

  lemma DangerousWords(name: Name)
    requires name in DANGEROUS_COMMANDS
    ensures (|name| == 1 || |name| == 2) && forall i :: 0 <= i < |name| ==> name[i] != "" && Capital(name[i])
  {
  }

  lemma DangerousPrefixes(name: Name)
    requires name in DANGEROUS_COMMANDS
    ensures if |name| == 2 then name[0] in {"CONFIG", "ACL", "MODULE"}
      else |name| == 1 && name[0] !in KNOWN_SUBCOMMAND_PREFIXES
  {
  }

  lemma DangerousReachable(name: Name)
    requires name in DANGEROUS_COMMANDS
    ensures Reachable(name)
  {
    DangerousWords(name);
    DangerousPrefixes(name);
  }

  lemma AllowedReachable(name: Name)
    requires name in PRODUCTION_ALLOWED_COMMANDS
    ensures Reachable(name)
  {
  }

  lemma ReachableRecognized(u: Unicode, name: Name, args: Command)
    requires Reachable(name) && |name| <= |args| && forall i :: 0 <= i < |name| ==> args[i] == Text(name[i])
    ensures NameOf(u, args) == Some(name)
  {
    CapitalFolds(u, name[0]);
    if |name| == 2 {
      CapitalFolds(u, name[1]);
      assert name == [name[0], name[1]];
    } else {
      assert name == [name[0]];
    }
  }

  /** Neither list has a dead name: a listed command typed as listed is recognized, whatever arguments follow. */
  lemma ListedRecognized(u: Unicode, name: Name, args: Command)
    requires name in DANGEROUS_COMMANDS || name in PRODUCTION_ALLOWED_COMMANDS
    requires |name| <= |args| && forall i :: 0 <= i < |name| ==> args[i] == Text(name[i])
    ensures NameOf(u, args) == Some(name)
  {
    if name in DANGEROUS_COMMANDS { DangerousReachable(name); } else { AllowedReachable(name); }
    ReachableRecognized(u, name, args);
  }

  /** `authorize` of each gate: the error raised, or none. A dangerous command is told apart from one that is
      merely not allowed, and the production allowlist loses nothing to the denylist checked before it. */
  method Authorize(gate: Gate, u: Unicode, args: Command) returns (raised: Option<Error>)
    ensures raised.None? <==> Permits(gate, u, args)
    ensures raised.Some? ==> raised.value == Prohibited || raised.value == Dangerous
    ensures raised == Some(Dangerous) <==>
      !gate.DisposableNegativeTest? && NameOf(u, args).Some? && NameOf(u, args).value in DANGEROUS_COMMANDS
  {
    var name := NormalizeCommand(u, args);
    if name.None? {
      return Some(Prohibited);
    }
    if gate.DisposableNegativeTest? {
      return None;
    }
    if name.value in DANGEROUS_COMMANDS {
      if name.value in PRODUCTION_ALLOWED_COMMANDS {
        AllowedNotDangerous(name.value);
      }
      return Some(Dangerous);
    }
    if gate.Production? && name.value !in PRODUCTION_ALLOWED_COMMANDS {
      return Some(Prohibited);
    }
    return None;
  }

  /** One connection. The server may answer in any way, as a function of all it was sent. */
  class Connection {
    const server: seq<Command> -> Reply
    var wire: seq<Command>
    var open: bool

    constructor (server: seq<Command> -> Reply)
      ensures this.server == server && wire == [] && open
    {
      this.server := server;
      wire := [];
      open := true;
    }

    method ExecuteCommand(args: Command) returns (reply: Reply)
      requires open
      modifies this
      ensures wire == old(wire) + [args] && open && reply == server(wire)
    {
      wire := wire + [args];
      reply := server(wire);
    }

    method Close()
      modifies this`open
      ensures !open
    {
      open := false;
    }
  }

  datatype Call = Run(args: Command) | Close

  /** What one call on an open session sends. */
  function Passed(gate: Gate, u: Unicode, args: Command): seq<Command> { if Permits(gate, u, args) then [args] else [] }

  /** The commands that calls made on an open session put on the wire: those the gate permits, up to the first
      close. */
  function Sent(gate: Gate, u: Unicode, calls: seq<Call>): seq<Command> {
    if calls == [] || calls[0].Close? then []
    else Passed(gate, u, calls[0].args) + Sent(gate, u, calls[1..])
  }

  lemma {:induction false} SentPermitted(gate: Gate, u: Unicode, calls: seq<Call>)
    ensures forall c <- Sent(gate, u, calls) :: Permits(gate, u, c) && Run(c) in calls
  {
    if calls != [] && calls[0].Run? {
      SentPermitted(gate, u, calls[1..]);
    }
  }

  /** A closed session sends nothing more, whatever is called on it. */
  lemma {:induction false} NothingAfterClose(gate: Gate, u: Unicode, before: seq<Call>, after: seq<Call>)
    ensures Sent(gate, u, before + [Close] + after) == Sent(gate, u, before)
  {
    var all := before + [Close] + after;
    if before == [] {
      assert all[0] == Close;
    } else if before[0].Run? {
      assert all[0] == before[0] && all[1..] == before[1..] + [Close] + after;
      NothingAfterClose(gate, u, before[1..], after);
    }
  }

  /** Until a close, calls add up and a permitted command is never dropped. */
  lemma {:induction false} OpenSessionSendsAll(gate: Gate, u: Unicode, before: seq<Call>, after: seq<Call>)
    requires Close !in before
    ensures Sent(gate, u, before + after) == Sent(gate, u, before) + Sent(gate, u, after)
  {
    if before == [] {
      assert before + after == after;
    } else {
      var all := before + after;
      assert before[0] in before && all[0] == before[0] && all[1..] == before[1..] + after;
      OpenSessionSendsAll(gate, u, before[1..], after);
      Reassociate(Passed(gate, u, before[0].args), Sent(gate, u, before[1..]), Sent(gate, u, after));
    }
  }

  /** What the calls still to come will send. */
  function Pending(gate: Gate, u: Unicode, closed: bool, calls: seq<Call>): seq<Command> {
    if closed then [] else Sent(gate, u, calls)
  }

  lemma SentFrom(gate: Gate, u: Unicode, calls: seq<Call>, i: nat)
    requires i < |calls| && calls[i].Run?
    ensures Sent(gate, u, calls[i..]) == Passed(gate, u, calls[i].args) + Sent(gate, u, calls[i + 1..])
  {
    var rest := calls[i..];
    assert rest[0] == calls[i] && rest[1..] == calls[i + 1..];
  }

  lemma PendingStep(gate: Gate, u: Unicode, closed: bool, wire: seq<Command>, calls: seq<Call>, i: nat)
    requires i < |calls|
    ensures calls[i].Run? ==>
      wire + Pending(gate, u, closed, calls[i..])
        == wire + (if closed then [] else Passed(gate, u, calls[i].args)) + Pending(gate, u, closed, calls[i + 1..])
    ensures calls[i].Close? ==> Pending(gate, u, closed, calls[i..]) == []
  {
    if calls[i].Run? && !closed {
      SentFrom(gate, u, calls, i);
      Reassociate(wire, Passed(gate, u, calls[i].args), Sent(gate, u, calls[i + 1..]));
    } else {
      assert calls[i..][0] == calls[i];
    }
  }

  lemma Reassociate(a: seq<Command>, b: seq<Command>, c: seq<Command>)
    ensures a + (b + c) == a + b + c
  {
  }

  lemma ClosedBy(calls: seq<Call>, i: nat)
    requires i < |calls|
    ensures Call.Close in calls[..i + 1] <==> Call.Close in calls[..i] || calls[i].Close?
  {
    assert calls[..i + 1] == calls[..i] + [calls[i]];
  }

  class AuthenticatedSession {
    const gate: Gate
    const u: Unicode
    const client: Connection
    var closed: bool

    ghost predicate Valid()
      reads this, client
    {
      !closed ==> client.open
    }

    constructor (gate: Gate, u: Unicode, client: Connection)
      requires client.open
      ensures this.gate == gate && this.u == u && this.client == client && !closed && Valid()
    {
      this.gate := gate;
      this.u := u;
      this.client := client;
      closed := false;
    }

    method Run(args: Command) returns (raised: Option<Error>)
      requires Valid()
      modifies client
      ensures Valid() && client.open == old(client.open)
      ensures client.wire == old(client.wire) + if closed then [] else Passed(gate, u, args)
      ensures closed ==> raised == Some(SessionClosed)
      ensures raised.None? <==> !closed && Permits(gate, u, args) && client.server(client.wire).Answered?
      ensures raised == Some(ServerError) <==> !closed && Permits(gate, u, args) && !client.server(client.wire).Answered?
    {
      if closed {
        return Some(SessionClosed);
      }
      raised := Authorize(gate, u, args);
      if raised.None? {
        var reply := client.ExecuteCommand(args);
        raised := if reply.Answered? then None else Some(ServerError);
      }
    }

    method Close()
      requires Valid()
      modifies this, client
      ensures Valid() && closed && client.wire == old(client.wire)
      ensures !old(closed) ==> !client.open
    {
      if closed {
        return;
      }
      closed := true;
      client.Close();
    }

    /** Any sequence of calls on the session: the wire grows by exactly what `Sent` says. */
    method Use(calls: seq<Call>)
      requires Valid()
      modifies this, client
      ensures Valid()
      ensures client.wire == old(client.wire) + Pending(gate, u, old(closed), calls)
      ensures closed == (old(closed) || Call.Close in calls)
    {
      ghost var total := client.wire + Pending(gate, u, closed, calls);
      for i := 0 to |calls|
        invariant Valid()
        invariant closed == (old(closed) || Call.Close in calls[..i])
        invariant client.wire + Pending(gate, u, closed, calls[i..]) == total
      {
        PendingStep(gate, u, closed, client.wire, calls, i);
        ClosedBy(calls, i);
        match calls[i] {
          case Run(args) =>
            var raised := Run(args);
          case Close =>
            Close();
        }
      }
    }
  }

  function AuthCommand(username: string, password: string): Command {
    [Text("AUTH"), Text(username), Text(password)]
  }

  const WHOAMI: Command := [Text("ACL"), Text("WHOAMI")]

  predicate Accepts(reply: Reply) {
    reply.Answered? && (reply.answer == True || reply.answer == Words("OK"))
  }

  /** What `authenticate` owes on a server that answers in any way at all. */
  predicate Proven(server: seq<Command> -> Reply, auth: Command, expected: string) {
    Accepts(server([auth])) && server([auth, WHOAMI]) == Answered(Words(expected))
  }

  datatype Outcome = Session(session: AuthenticatedSession) | Raised(error: Error)

  /** Opens a new connection, sends AUTH first and ACL WHOAMI second. It is unreachable when `server` is None.
      Succeeds exactly when the server accepted AUTH and named the expected identity; on any failure the
      connection is already closed, and a refused AUTH was the only command on it. */
  method Authenticate(server: Option<seq<Command> -> Reply>, u: Unicode, username: string, password: string,
                      expected: string, gate: Gate)
    returns (outcome: Outcome, client: Option<Connection>)
    ensures client.Some? <==> server.Some?
    ensures client.Some? ==> fresh(client.value)
    ensures outcome.Session? <==>
      server.Some? && Permits(gate, u, WHOAMI) && Proven(server.value, AuthCommand(username, password), expected)
    ensures outcome.Session? ==>
      && fresh(outcome.session) && outcome.session.Valid() && !outcome.session.closed
      && outcome.session.gate == gate && outcome.session.u == u && outcome.session.client == client.value
      && client.value.wire == [AuthCommand(username, password), WHOAMI]
    ensures outcome.Raised? && client.Some? ==>
      && !client.value.open
      && client.value.wire <= [AuthCommand(username, password), WHOAMI]
      && (!Accepts(server.value([AuthCommand(username, password)])) ==>
           client.value.wire == [AuthCommand(username, password)] && outcome.error == AuthenticationFailed)
      && (Accepts(server.value([AuthCommand(username, password)])) && Permits(gate, u, WHOAMI) ==>
           && client.value.wire == [AuthCommand(username, password), WHOAMI]
           && outcome.error == if server.value(client.value.wire).OtherFailure? then AuthenticationFailed else IdentityMismatch)
    ensures server.None? ==> outcome == Raised(AuthenticationFailed)
  {
    var auth := AuthCommand(username, password);
    if server.None? {
      return Raised(AuthenticationFailed), None;
    }
    var connection := new Connection(server.value);
    client := Some(connection);
    var ok := connection.ExecuteCommand(auth);
    assert connection.wire == [auth];
    if !Accepts(ok) {
      connection.Close();
      return Raised(AuthenticationFailed), client;
    }
    var refused := Authorize(gate, u, WHOAMI);
    if refused.Some? {
      connection.Close();
      return Raised(refused.value), client;
    }
    var actual := connection.ExecuteCommand(WHOAMI);
    assert connection.wire == [auth, WHOAMI];
    if actual != Answered(Words(expected)) {
      connection.Close();
      return Raised(if actual.OtherFailure? then AuthenticationFailed else IdentityMismatch), client;
    }
    var session := new AuthenticatedSession(gate, u, connection);
    return Session(session), client;
  }

  /** `authenticate_production`, which insists on the production port before it connects. */
  method AuthenticateProduction(server: Option<seq<Command> -> Reply>, u: Unicode, port: int, username: string,
                                password: string, expected: string)
    returns (outcome: Outcome, client: Option<Connection>)
    ensures port != PRODUCTION_PORT ==> outcome == Raised(Classification) && client == None
    ensures client.Some? ==> fresh(client.value)
    ensures outcome.Session? <==>
      port == PRODUCTION_PORT && server.Some? && Proven(server.value, AuthCommand(username, password), expected)
    ensures outcome.Session? ==>
      && fresh(outcome.session) && outcome.session.Valid() && !outcome.session.closed
      && outcome.session.gate == Production && outcome.session.u == u && client == Some(outcome.session.client)
      && outcome.session.client.wire == [AuthCommand(username, password), WHOAMI]
    ensures outcome.Raised? && client.Some? ==>
      && server.Some?
      && !client.value.open && client.value.wire <= [AuthCommand(username, password), WHOAMI]
      && (outcome.error == IdentityMismatch <==>
            && Accepts(server.value([AuthCommand(username, password)]))
            && !server.value([AuthCommand(username, password), WHOAMI]).OtherFailure?)
      && (outcome.error != IdentityMismatch ==> outcome.error == AuthenticationFailed)
  {
    if port != PRODUCTION_PORT {
      return Raised(Classification), None;
    }
    WhoamiPermitted(u, Production);
    outcome, client := Authenticate(server, u, username, password, expected, Production);
  }

  predicate Harmless(u: Unicode, command: Command) {
    var name := NameOf(u, command);
    name.Some? && name.value in PRODUCTION_ALLOWED_COMMANDS && name.value !in DANGEROUS_COMMANDS
  }

  lemma PermittedHarmless(u: Unicode, command: Command)
    requires Permits(Production, u, command)
    ensures Harmless(u, command)
  {
    AllowedNotDangerous(NameOf(u, command).value);
  }

  /** Past the first `start` commands the wire holds only permitted ones. */
  lemma ProductionSendsHarmless(u: Unicode, calls: seq<Call>, wire: seq<Command>, start: nat)
    requires start <= |wire| && wire[start..] == Sent(Production, u, calls)
    ensures forall i :: start <= i < |wire| ==> Run(wire[i]) in calls && Harmless(u, wire[i])
  {
    SentPermitted(Production, u, calls);
    forall i | start <= i < |wire| ensures Run(wire[i]) in calls && Harmless(u, wire[i]) {
      assert wire[i] == wire[start..][i - start];
      PermittedHarmless(u, wire[i]);
    }
  }

  /** A whole production check, for every server and every later sequence of calls: what was on the wire when it
      ended. It is a prefix of AUTH, ACL WHOAMI, or those two followed by commands whose names are on the
      production allowlist, and so never dangerous ones, with nothing from beyond the first close. */
  method ProductionCheck(server: Option<seq<Command> -> Reply>, u: Unicode, port: int, username: string,
                         password: string, expected: string, calls: seq<Call>)
    returns (raised: bool, wire: seq<Command>)
    ensures var auth, whoami := [Text("AUTH"), Text(username), Text(password)], [Text("ACL"), Text("WHOAMI")];
      && (raised ==> wire <= [auth, whoami])
      && (!raised ==> wire == [auth, whoami] + Sent(Production, u, calls))
      && (!raised <==>
            && port == 6380 && server.Some? && server.value([auth, whoami]) == Answered(Words(expected))
            && (server.value([auth]) == Answered(True) || server.value([auth]) == Answered(Words("OK"))))
    ensures forall i :: 2 <= i < |wire| ==> Run(wire[i]) in calls && Harmless(u, wire[i])
  {
    var outcome, client := AuthenticateProduction(server, u, port, username, password, expected);
    raised := outcome.Raised?;
    if outcome.Session? {
      outcome.session.Use(calls);
      ProductionSendsHarmless(u, calls, outcome.session.client.wire, 2);
    }
    wire := if client.Some? then client.value.wire else [];
  }
}
