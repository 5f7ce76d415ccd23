/**
 * The server's shared state and the per-session state machine, as values:
 * the registry of authenticated connections, the message log, and what each
 * connection has been sent. `Chat.Broadcast`, `Chat.Cleanup` and `Chat.Step`
 * are the specifications that the imperative `Server.ChatServer` meets.
 */
module Chat {
  import opened Wrappers
  import opened Text
  import Credentials

  /** A connection, standing for the socket object `handle_client` owns. */
  type ConnId = nat

  const ServerSender: string := "Server"
  const UsernamePrompt: string := "Username: "
  const PasswordPrompt: string := "Password: "
  const AuthFailed: string := "Authentication failed.\n"
  const QuitCommand: string := "/quit"

  function Welcome(username: string): string { "Welcome, " + username + "!\n" }
  function Joined(username: string): string { username + " has joined the chat." }
  function Left(username: string): string { username + " has left the chat." }
  function ChatLine(username: string, message: string): string { "[" + username + "]: " + message }

  /**
   * `clients` is `ChatServer.clients`; `log` is the sequence of entries
   * appended to the log file, one per `log_message` call (an entry ends in a
   * newline, but a message with a newline inside it makes the entry span
   * several lines of the file); `inbox[c]` is everything sent successfully to
   * connection `c`, in order.
   */
  datatype State = State(clients: map<ConnId, string>, log: seq<string>, inbox: map<ConnId, seq<string>>)

  /** What connection `c` has been sent so far. */
  function Received(inbox: map<ConnId, seq<string>>, c: ConnId): seq<string> {
    if c in inbox then inbox[c] else []
  }

  // ---------------------------------------------------------------- log entries

  /** The log entry `broadcast` writes: `[ts] sender: message` and a newline. */
  function LogEntry(ts: string, sender: string, message: string): string {
    "[" + ts + "] " + sender + ": " + message + "\n"
  }

  datatype LogRecord = LogRecord(timestamp: string, sender: string, message: string)

  /** Reads a log entry back: the timestamp up to the first `]`, the sender up to the first `:`. */
  function ParseLogEntry(line: string): Option<LogRecord> {
    if |line| < 2 || line[0] != '[' || line[|line| - 1] != '\n' then None
    else
      var body := line[1..|line| - 1];
      var k := IndexOf(body, ']');
      if k + 1 >= |body| || body[k + 1] != ' ' then None
      else
        var rest := body[k + 2..];
        var j := IndexOf(rest, ':');
        if j + 1 >= |rest| || rest[j + 1] != ' ' then None
        else Some(LogRecord(body[..k], rest[..j], rest[j + 2..]))
  }

  /**
   * Every log entry can be read back into its timestamp, sender and message,
   * provided the timestamp has no `]` and the sender no `:` (a `strftime`
   * timestamp and a user name from the credential store never do).
   */
  lemma LogEntryRoundTrip(ts: string, sender: string, message: string)
    requires ']' !in ts && ':' !in sender
    ensures ParseLogEntry(LogEntry(ts, sender, message)) == Some(LogRecord(ts, sender, message))
  {
    var line := LogEntry(ts, sender, message);
    var body := line[1..|line| - 1];
    assert body == ts + "] " + sender + ": " + message;
    var k := IndexOf(body, ']');
    assert body[|ts|] == ']';
    assert k == |ts|;
    var rest := body[k + 2..];
    assert rest == sender + ": " + message;
    assert rest[|sender|] == ':';
    var j := IndexOf(rest, ':');
    assert j == |sender|;
    assert body[..k] == ts;
    assert rest[..j] == sender;
    assert rest[j + 2..] == message;
  }

  // ------------------------------------------------------------ registry, sends

  /** One successful send to `conn`. */
  function Send(s: State, conn: ConnId, text: string): State {
    s.(inbox := s.inbox[conn := Received(s.inbox, conn) + [text]])
  }

  /** `clients[conn] = username`. */
  function Register(s: State, conn: ConnId, username: string): State {
    s.(clients := s.clients[conn := username])
  }

  /** `clients.pop(conn, None)`: the state without `conn`'s entry, and the user removed if there was one. */
  function Unregister(s: State, conn: ConnId): (State, Option<string>) {
    (s.(clients := s.clients - {conn}), if conn in s.clients then Some(s.clients[conn]) else None)
  }

  /** Unregistering removes exactly `conn`'s entry and reports it; a second unregister finds nothing. */
  lemma UnregisterSpec(s: State, conn: ConnId)
    ensures var (t, user) := Unregister(s, conn);
            && conn !in t.clients
            && (forall c :: c != conn ==> (c in t.clients <==> c in s.clients))
            && (forall c :: c in t.clients ==> t.clients[c] == s.clients[c])
            && (user.Some? <==> conn in s.clients)
            && (user.Some? ==> user.value == s.clients[conn])
            && t.log == s.log && t.inbox == s.inbox
            && Unregister(t, conn) == (t, None)
  {
    var t := Unregister(s, conn).0;
    assert t.clients - {conn} == t.clients;
  }

  // ----------------------------------------------------------------- broadcast

  /** Delivery of `text` to every connection of `to` that is not broken; all others keep their inbox. */
  function Deliver(inbox: map<ConnId, seq<string>>, to: set<ConnId>, broken: set<ConnId>, text: string)
    : map<ConnId, seq<string>>
  {
    map c | c in inbox.Keys + (to - broken) :: if c in to && c !in broken then Received(inbox, c) + [text] else inbox[c]
  }

  /** Adding one recipient to a delivery appends to its inbox when it is not broken, and changes nothing otherwise. */
  lemma DeliverOneMore(inbox: map<ConnId, seq<string>>, done: set<ConnId>, c: ConnId, broken: set<ConnId>, text: string)
    requires c !in done
    ensures var d := Deliver(inbox, done, broken, text);
            Deliver(inbox, done + {c}, broken, text)
            == if c in broken then d else d[c := Received(d, c) + [text]]
  {
    var d := Deliver(inbox, done, broken, text);
    var e := Deliver(inbox, done + {c}, broken, text);
    if c in broken {
      assert e.Keys == d.Keys;
    } else {
      assert e.Keys == d.Keys + {c};
    }
  }

  /**
   * `ChatServer.broadcast`: append one log entry, then send `message` and a
   * newline to every registered connection, the sender's own included; a
   * broken recipient is skipped.
   */
  function Broadcast(s: State, message: string, sender: string, ts: string, broken: set<ConnId>): State {
    State(s.clients, s.log + [LogEntry(ts, sender, message)], Deliver(s.inbox, s.clients.Keys, broken, message + "\n"))
  }

  /**
   * A broadcast leaves the registry alone, adds exactly one log entry, and
   * gives every registered, non-broken connection the message, and nothing
   * to anyone else.
   */
  lemma BroadcastSpec(s: State, message: string, sender: string, ts: string, broken: set<ConnId>, c: ConnId)
    ensures Broadcast(s, message, sender, ts, broken).clients == s.clients
    ensures Broadcast(s, message, sender, ts, broken).log == s.log + ["[" + ts + "] " + sender + ": " + message + "\n"]
    ensures Received(Broadcast(s, message, sender, ts, broken).inbox, c)
            == Received(s.inbox, c) + (if c in s.clients && c !in broken then [message + "\n"] else [])
  {
  }

  /** Failure isolation: what a live recipient gets does not depend on which other recipients fail. */
  lemma BroadcastIsolation(s: State, message: string, sender: string, ts: string,
                           broken1: set<ConnId>, broken2: set<ConnId>, c: ConnId)
    requires c !in broken1 && c !in broken2
    ensures Received(Broadcast(s, message, sender, ts, broken1).inbox, c)
            == Received(Broadcast(s, message, sender, ts, broken2).inbox, c)
  {
    BroadcastSpec(s, message, sender, ts, broken1, c);
    BroadcastSpec(s, message, sender, ts, broken2, c);
  }

  // ------------------------------------------------------------------- cleanup

  /**
   * The `finally` block of `handle_client`: pop the connection's entry, and
   * broadcast its departure when the popped user name is truthy (present
   * and not empty).
   */
  function Cleanup(s: State, conn: ConnId, ts: string, broken: set<ConnId>): State {
    var (t, user) := Unregister(s, conn);
    if user.Some? && user.value != "" then Broadcast(t, Left(user.value), ServerSender, ts, broken) else t
  }

  /**
   * Cleanup removes the connection's entry, keeps every other entry, and logs
   * a departure only when an entry with a non-empty name was removed; the
   * departing connection is not sent its own notice.
   */
  lemma CleanupSpec(s: State, conn: ConnId, ts: string, broken: set<ConnId>)
    ensures Cleanup(s, conn, ts, broken).clients == s.clients - {conn}
    ensures Cleanup(s, conn, ts, broken).log
            == if conn in s.clients && s.clients[conn] != ""
               then s.log + [LogEntry(ts, ServerSender, Left(s.clients[conn]))]
               else s.log
    ensures Received(Cleanup(s, conn, ts, broken).inbox, conn) == Received(s.inbox, conn)
    ensures conn !in s.clients ==> Cleanup(s, conn, ts, broken) == s
  {
    var (t, user) := Unregister(s, conn);
    if user.Some? && user.value != "" {
      BroadcastSpec(t, Left(user.value), ServerSender, ts, broken, conn);
    }
  }

  /** The departure notice reaches every other registered, non-broken connection, and nobody else. */
  lemma CleanupNotice(s: State, conn: ConnId, ts: string, broken: set<ConnId>, c: ConnId)
    ensures Received(Cleanup(s, conn, ts, broken).inbox, c)
            == Received(s.inbox, c)
               + (if conn in s.clients && s.clients[conn] != "" && c != conn && c in s.clients && c !in broken
                  then [Left(s.clients[conn]) + "\n"] else [])
  {
    var (t, user) := Unregister(s, conn);
    if user.Some? && user.value != "" {
      BroadcastSpec(t, Left(user.value), ServerSender, ts, broken, c);
    }
  }

  /** A second cleanup of the same connection changes nothing and broadcasts nothing. */
  lemma CleanupIdempotent(s: State, conn: ConnId, ts1: string, ts2: string, broken1: set<ConnId>, broken2: set<ConnId>)
    ensures Cleanup(Cleanup(s, conn, ts1, broken1), conn, ts2, broken2) == Cleanup(s, conn, ts1, broken1)
  {
    CleanupSpec(s, conn, ts1, broken1);
    CleanupSpec(Cleanup(s, conn, ts1, broken1), conn, ts2, broken2);
  }

  // ---------------------------------------------------------- session lifecycle

  /** The credential store and the digest function a session authenticates against. */
  datatype Config = Config(credentials: map<string, string>, hash: string -> string)

  datatype Phase = AwaitingUsername | AwaitingPassword(username: string) | Active(username: string) | Closed

  /** What one `recv` gives the session: the data read (empty when the peer closed), or a reset connection. */
  datatype Event = Recv(data: string) | Reset

  /** `message.lower() == "/quit"`. */
  predicate IsQuit(message: string) {
    Lower(message) == QuitCommand
  }

  /** The quit command is `/quit` in any mix of upper and lower case, and nothing else. */
  lemma IsQuitIff(message: string)
    ensures IsQuit(message) <==>
            |message| == 5 && message[0] == '/' && message[1] in "qQ" && message[2] in "uU"
            && message[3] in "iI" && message[4] in "tT"
  {
    if |message| == 5 {
      var l := Lower(message);
      assert IsQuit(message) <==> l[0] == '/' && l[1] == 'q' && l[2] == 'u' && l[3] == 'i' && l[4] == 't';
    }
  }

  /**
   * One atomic step of `handle_client` for connection `conn` in phase `phase`
   * on input `e`, at clock reading `ts`, with the recipients in `broken`
   * failing any broadcast send.
   */
  function Step(cfg: Config, s: State, conn: ConnId, phase: Phase, e: Event, ts: string, broken: set<ConnId>)
    : (State, Phase)
  {
    match phase
    case Closed => (s, Closed)
    case AwaitingUsername =>
      (match e
       case Reset => (Cleanup(s, conn, ts, broken), Closed)
       case Recv(data) => (Send(s, conn, PasswordPrompt), AwaitingPassword(Strip(data))))
    case AwaitingPassword(username) =>
      (match e
       case Reset => (Cleanup(s, conn, ts, broken), Closed)
       case Recv(data) =>
         if !Credentials.VerifyCredentials(username, Strip(data), cfg.credentials, cfg.hash) then
           (Cleanup(Send(s, conn, AuthFailed), conn, ts, broken), Closed)
         else
           var registered := Register(Send(s, conn, Welcome(username)), conn, username);
           (Broadcast(registered, Joined(username), ServerSender, ts, broken), Active(username)))
    case Active(username) =>
      match e
      case Reset => (Cleanup(s, conn, ts, broken), Closed)
      case Recv(data) =>
        if data == "" || IsQuit(Strip(data)) then (Cleanup(s, conn, ts, broken), Closed)
        else (Broadcast(s, ChatLine(username, Strip(data)), username, ts, broken), Active(username))
  }

  /**
   * The steps for `events` from `(s0, p0)`; event `i` is handled at clock
   * reading `clock(i)`, and the broadcast sends that fail while handling it
   * are those to `failing(i)`.
   */
  function Run(cfg: Config, s0: State, p0: Phase, conn: ConnId, events: seq<Event>,
               clock: nat -> string, failing: nat -> set<ConnId>): (State, Phase)
    decreases |events|
  {
    if events == [] then (s0, p0)
    else
      var before := Run(cfg, s0, p0, conn, events[..|events| - 1], clock, failing);
      Step(cfg, before.0, conn, before.1, events[|events| - 1], clock(|events| - 1), failing(|events| - 1))
  }

  /** `handle_client` from its first prompt, for the inputs `events`. */
  function Session(cfg: Config, s: State, conn: ConnId, events: seq<Event>, clock: nat -> string,
                   failing: nat -> set<ConnId>): (State, Phase)
  {
    Run(cfg, Send(s, conn, UsernamePrompt), AwaitingUsername, conn, events, clock, failing)
  }

  /** Once closed, a session ignores every further input: no registry change, no send, no log entry. */
  lemma {:induction false} ClosedIsFinal(cfg: Config, s0: State, p0: Phase, conn: ConnId, events: seq<Event>,
                                         clock: nat -> string, failing: nat -> set<ConnId>, i: nat)
    requires i <= |events|
    requires Run(cfg, s0, p0, conn, events[..i], clock, failing).1 == Closed
    ensures Run(cfg, s0, p0, conn, events, clock, failing) == Run(cfg, s0, p0, conn, events[..i], clock, failing)
    decreases |events| - i
  {
    if i == |events| {
      assert events[..i] == events;
    } else {
      var next := events[..i + 1];
      assert next[..i] == events[..i];
      ClosedIsFinal(cfg, s0, p0, conn, events, clock, failing, i + 1);
    }
  }

  /**
   * A failed login sends the two prompts and exactly "Authentication
   * failed.", leaves the registry and the log untouched (no join notice, and
   * cleanup finds no entry to announce), and the session is closed for good.
   */
  lemma AuthFailure(cfg: Config, s: State, conn: ConnId, user: string, password: string, rest: seq<Event>,
                    clock: nat -> string, failing: nat -> set<ConnId>)
    requires conn !in s.clients
    requires !Credentials.VerifyCredentials(Strip(user), Strip(password), cfg.credentials, cfg.hash)
    ensures Session(cfg, s, conn, [Recv(user), Recv(password)] + rest, clock, failing)
            == (State(s.clients, s.log,
                      s.inbox[conn := Received(s.inbox, conn) + [UsernamePrompt, PasswordPrompt, AuthFailed]]),
                Closed)
  {
    var events := [Recv(user), Recv(password)] + rest;
    var s0 := Send(s, conn, UsernamePrompt);
    var first := events[..2];
    assert first == [Recv(user), Recv(password)];
    assert first[..1] == [Recv(user)];
    assert first[..1][..0] == [];
    var s1 := Send(s0, conn, PasswordPrompt);
    assert Run(cfg, s0, AwaitingUsername, conn, first[..1], clock, failing) == (s1, AwaitingPassword(Strip(user)));
    var failed := Send(s1, conn, AuthFailed);
    var r := Received(s.inbox, conn);
    assert Received(failed.inbox, conn) == r + [UsernamePrompt] + [PasswordPrompt] + [AuthFailed];
    assert r + [UsernamePrompt] + [PasswordPrompt] + [AuthFailed] == r + [UsernamePrompt, PasswordPrompt, AuthFailed];
    assert failed.inbox == s.inbox[conn := Received(s.inbox, conn) + [UsernamePrompt, PasswordPrompt, AuthFailed]];
    CleanupSpec(failed, conn, clock(1), failing(1));
    assert Run(cfg, s0, AwaitingUsername, conn, first, clock, failing) == (failed, Closed);
    ClosedIsFinal(cfg, s0, AwaitingUsername, conn, events, clock, failing, 2);
  }

  /**
   * A successful login sends the prompts and the welcome, registers the
   * connection under the user name and changes no other entry, and then
   * broadcasts the join notice as `Server`: one log entry, and the notice to
   * every registered non-broken connection, the new one included.
   */
  lemma AuthSuccess(cfg: Config, s: State, conn: ConnId, user: string, password: string,
                    clock: nat -> string, failing: nat -> set<ConnId>, c: ConnId)
    requires Credentials.VerifyCredentials(Strip(user), Strip(password), cfg.credentials, cfg.hash)
    ensures var (t, phase) := Session(cfg, s, conn, [Recv(user), Recv(password)], clock, failing);
            && phase == Active(Strip(user))
            && t.clients == s.clients[conn := Strip(user)]
            && t.log == s.log + [LogEntry(clock(1), ServerSender, Joined(Strip(user)))]
            && Received(t.inbox, conn)
               == Received(s.inbox, conn) + [UsernamePrompt, PasswordPrompt, Welcome(Strip(user))]
                  + (if conn in failing(1) then [] else [Joined(Strip(user)) + "\n"])
            && (c != conn ==> Received(t.inbox, c)
                              == Received(s.inbox, c)
                                 + (if c in s.clients && c !in failing(1) then [Joined(Strip(user)) + "\n"] else []))
  {
    var events := [Recv(user), Recv(password)];
    assert events[..1] == [Recv(user)];
    assert events[..1][..0] == [];
    var u := Strip(user);
    var s0 := Send(s, conn, UsernamePrompt);
    var s1 := Send(s0, conn, PasswordPrompt);
    assert Run(cfg, s0, AwaitingUsername, conn, events[..1], clock, failing) == (s1, AwaitingPassword(u));
    var registered := Register(Send(s1, conn, Welcome(u)), conn, u);
    var joined := Broadcast(registered, Joined(u), ServerSender, clock(1), failing(1));
    assert Run(cfg, s0, AwaitingUsername, conn, events, clock, failing) == (joined, Active(u));
    LoginDelivery(s, conn, u, clock(1), failing(1), c);
  }

  /** What each connection receives while a login of `conn` as `u` completes. */
  lemma LoginDelivery(s: State, conn: ConnId, u: string, ts: string, broken: set<ConnId>, c: ConnId)
    ensures var t := Broadcast(Register(Send(Send(Send(s, conn, UsernamePrompt), conn, PasswordPrompt), conn, Welcome(u)), conn, u),
                               Joined(u), ServerSender, ts, broken);
            && t.clients == s.clients[conn := u]
            && t.log == s.log + [LogEntry(ts, ServerSender, Joined(u))]
            && Received(t.inbox, conn)
               == Received(s.inbox, conn) + [UsernamePrompt, PasswordPrompt, Welcome(u)]
                  + (if conn in broken then [] else [Joined(u) + "\n"])
            && (c != conn ==> Received(t.inbox, c)
                              == Received(s.inbox, c)
                                 + (if c in s.clients && c !in broken then [Joined(u) + "\n"] else []))
  {
    var s3 := Send(Send(Send(s, conn, UsernamePrompt), conn, PasswordPrompt), conn, Welcome(u));
    var r := Received(s.inbox, conn);
    assert r + [UsernamePrompt] + [PasswordPrompt] + [Welcome(u)] == r + [UsernamePrompt, PasswordPrompt, Welcome(u)];
    assert Received(s3.inbox, conn) == Received(s.inbox, conn) + [UsernamePrompt, PasswordPrompt, Welcome(u)];
    assert c != conn ==> Received(s3.inbox, c) == Received(s.inbox, c);
    var registered := Register(s3, conn, u);
    BroadcastSpec(registered, Joined(u), ServerSender, ts, broken, c);
    BroadcastSpec(registered, Joined(u), ServerSender, ts, broken, conn);
  }

  /**
   * In the active loop, a non-empty read that is not the quit command is
   * broadcast as `[user]: message` with the user as sender, and the session
   * stays active.
   */
  lemma ActiveMessage(cfg: Config, s: State, conn: ConnId, username: string, data: string, ts: string,
                      broken: set<ConnId>, c: ConnId)
    requires data != "" && !IsQuit(Strip(data))
    ensures var (t, phase) := Step(cfg, s, conn, Active(username), Recv(data), ts, broken);
            && phase == Active(username)
            && t.clients == s.clients
            && t.log == s.log + [LogEntry(ts, username, "[" + username + "]: " + Strip(data))]
            && Received(t.inbox, c) == Received(s.inbox, c)
               + (if c in s.clients && c !in broken then ["[" + username + "]: " + Strip(data) + "\n"] else [])
  {
    BroadcastSpec(s, ChatLine(username, Strip(data)), username, ts, broken, c);
  }

  /**
   * In the active loop, an empty read, the quit command or a reset ends the
   * session: the entry is removed, no chat line is broadcast, and the only
   * log entry is the departure notice, written when the name is not empty.
   */
  lemma ActiveEnd(cfg: Config, s: State, conn: ConnId, username: string, e: Event, ts: string,
                  broken: set<ConnId>, c: ConnId)
    requires conn in s.clients && s.clients[conn] == username
    requires e.Reset? || e.data == "" || IsQuit(Strip(e.data))
    ensures var (t, phase) := Step(cfg, s, conn, Active(username), e, ts, broken);
            && phase == Closed
            && t.clients == s.clients - {conn}
            && t.log == s.log + (if username != "" then [LogEntry(ts, ServerSender, Left(username))] else [])
            && Received(t.inbox, c) == Received(s.inbox, c)
               + (if username != "" && c != conn && c in s.clients && c !in broken then [Left(username) + "\n"] else [])
  {
    CleanupSpec(s, conn, ts, broken);
    CleanupNotice(s, conn, ts, broken, c);
  }

  /**
   * The registry invariant of one session: its connection has an entry
   * exactly while the session is active, under the session's user name, and
   * every other entry is as it was before the session started.
   */
  predicate Tracks(before: State, s: State, conn: ConnId, phase: Phase) {
    && (conn in s.clients <==> phase.Active?)
    && (phase.Active? ==> s.clients[conn] == phase.username)
    && s.clients - {conn} == before.clients - {conn}
  }

  lemma StepTracks(cfg: Config, before: State, s: State, conn: ConnId, phase: Phase, e: Event, ts: string,
                   broken: set<ConnId>)
    requires Tracks(before, s, conn, phase)
    ensures Tracks(before, Step(cfg, s, conn, phase, e, ts, broken).0, conn, Step(cfg, s, conn, phase, e, ts, broken).1)
  {
    var r := Step(cfg, s, conn, phase, e, ts, broken);
    if r.1 == Closed && phase != Closed {
      CleanupClientsFree(s, conn, ts, broken);
      CleanupClientsFree(Send(s, conn, AuthFailed), conn, ts, broken);
      assert r.0.clients == s.clients - {conn};
      assert r.0.clients - {conn} == s.clients - {conn};
    } else if r.1.Active? && !phase.Active? {
      assert r.0.clients == s.clients[conn := r.1.username];
      assert r.0.clients - {conn} == s.clients - {conn};
    }
  }

  /** How cleanup acts on the registry, stated without the log and the inboxes. */
  lemma CleanupClientsFree(s: State, conn: ConnId, ts: string, broken: set<ConnId>)
    ensures Cleanup(s, conn, ts, broken).clients == s.clients - {conn}
  {
    CleanupSpec(s, conn, ts, broken);
  }

  lemma {:induction false} RunTracks(cfg: Config, before: State, s0: State, p0: Phase, conn: ConnId,
                                     events: seq<Event>, clock: nat -> string, failing: nat -> set<ConnId>)
    requires Tracks(before, s0, conn, p0)
    ensures var (t, phase) := Run(cfg, s0, p0, conn, events, clock, failing); Tracks(before, t, conn, phase)
    decreases |events|
  {
    if events != [] {
      RunTracks(cfg, before, s0, p0, conn, events[..|events| - 1], clock, failing);
      var mid := Run(cfg, s0, p0, conn, events[..|events| - 1], clock, failing);
      StepTracks(cfg, before, mid.0, conn, mid.1, events[|events| - 1], clock(|events| - 1), failing(|events| - 1));
    }
  }

  /**
   * For a freshly accepted connection and any inputs, the connection is
   * registered exactly while its session is active, and no other
   * connection's entry is touched.
   */
  lemma SessionRegistry(cfg: Config, s: State, conn: ConnId, events: seq<Event>, clock: nat -> string,
                        failing: nat -> set<ConnId>)
    requires conn !in s.clients
    ensures var (t, phase) := Session(cfg, s, conn, events, clock, failing);
            && (conn in t.clients <==> phase.Active?)
            && (phase.Active? ==> t.clients[conn] == phase.username)
            && t.clients - {conn} == s.clients
  {
    RunTracks(cfg, s, Send(s, conn, UsernamePrompt), AwaitingUsername, conn, events, clock, failing);
  }

  /** Every entry of the log reads back as a log record. */
  predicate WellFormedLog(log: seq<string>) {
    forall i :: 0 <= i < |log| ==> ParseLogEntry(log[i]).Some?
  }

  /** A step appends at most one log entry, and its sender is `Server` or an authenticated user. */
  lemma StepLogEntry(cfg: Config, s: State, conn: ConnId, phase: Phase, e: Event, ts: string,
                     broken: set<ConnId>) returns (sender: string, message: string)
    requires phase.Active? ==> phase.username in cfg.credentials
    requires forall u :: u in cfg.credentials ==> ':' !in u
    ensures ':' !in sender
    ensures var t := Step(cfg, s, conn, phase, e, ts, broken).0;
            t.log == s.log || t.log == s.log + [LogEntry(ts, sender, message)]
    ensures var next := Step(cfg, s, conn, phase, e, ts, broken).1;
            next.Active? ==> next.username in cfg.credentials
  {
    var t := Step(cfg, s, conn, phase, e, ts, broken).0;
    sender, message := ServerSender, "";
    match phase {
      case Closed =>
      case AwaitingUsername =>
        CleanupSpec(s, conn, ts, broken);
        if conn in s.clients { message := Left(s.clients[conn]); }
      case AwaitingPassword(username) =>
        if e.Reset? {
          CleanupSpec(s, conn, ts, broken);
          if conn in s.clients { message := Left(s.clients[conn]); }
        } else if !Credentials.VerifyCredentials(username, Strip(e.data), cfg.credentials, cfg.hash) {
          var failed := Send(s, conn, AuthFailed);
          CleanupSpec(failed, conn, ts, broken);
          if conn in s.clients { message := Left(s.clients[conn]); }
        } else {
          message := Joined(username);
        }
      case Active(username) =>
        if e.Reset? || e.data == "" || IsQuit(Strip(e.data)) {
          CleanupSpec(s, conn, ts, broken);
          if conn in s.clients { message := Left(s.clients[conn]); }
        } else {
          sender, message := username, ChatLine(username, Strip(e.data));
        }
    }
  }

  lemma StepKeepsLogWellFormed(cfg: Config, s: State, conn: ConnId, phase: Phase, e: Event, ts: string,
                               broken: set<ConnId>)
    requires WellFormedLog(s.log) && ']' !in ts
    requires forall u :: u in cfg.credentials ==> ':' !in u
    requires phase.Active? ==> phase.username in cfg.credentials
    ensures var (t, next) := Step(cfg, s, conn, phase, e, ts, broken);
            && WellFormedLog(t.log)
            && (next.Active? ==> next.username in cfg.credentials)
            && s.log <= t.log
  {
    var t := Step(cfg, s, conn, phase, e, ts, broken).0;
    var sender, message := StepLogEntry(cfg, s, conn, phase, e, ts, broken);
    if t.log != s.log {
      LogEntryRoundTrip(ts, sender, message);
      forall i | 0 <= i < |t.log| ensures ParseLogEntry(t.log[i]).Some? {
        if i < |s.log| {
          assert t.log[i] == s.log[i];
        }
      }
    }
  }

  lemma {:induction false} RunKeepsLogWellFormed(cfg: Config, s0: State, p0: Phase, conn: ConnId,
                                                 events: seq<Event>, clock: nat -> string, failing: nat -> set<ConnId>)
    requires WellFormedLog(s0.log) && (p0.Active? ==> p0.username in cfg.credentials)
    requires forall i :: ']' !in clock(i)
    requires forall u :: u in cfg.credentials ==> ':' !in u
    ensures var (t, phase) := Run(cfg, s0, p0, conn, events, clock, failing);
            WellFormedLog(t.log) && s0.log <= t.log && (phase.Active? ==> phase.username in cfg.credentials)
    decreases |events|
  {
    if events != [] {
      RunKeepsLogWellFormed(cfg, s0, p0, conn, events[..|events| - 1], clock, failing);
      var mid := Run(cfg, s0, p0, conn, events[..|events| - 1], clock, failing);
      StepKeepsLogWellFormed(cfg, mid.0, conn, mid.1, events[|events| - 1], clock(|events| - 1), failing(|events| - 1));
    }
  }

  /**
   * A session only appends to the log, and every entry it appends reads back
   * as a record, provided clock readings hold no `]` and stored user names no
   * `:` (which `Credentials.ParsedUsersHaveNoColon` guarantees for a parsed
   * store).
   */
  lemma SessionLogWellFormed(cfg: Config, s: State, conn: ConnId, events: seq<Event>, clock: nat -> string,
                             failing: nat -> set<ConnId>)
    requires WellFormedLog(s.log)
    requires forall i :: ']' !in clock(i)
    requires forall u :: u in cfg.credentials ==> ':' !in u
    ensures WellFormedLog(Session(cfg, s, conn, events, clock, failing).0.log)
    ensures s.log <= Session(cfg, s, conn, events, clock, failing).0.log
  {
    RunKeepsLogWellFormed(cfg, Send(s, conn, UsernamePrompt), AwaitingUsername, conn, events, clock, failing);
  }

  /** No broadcast send fails, whatever the event. */
  function NoFailures(i: nat): set<ConnId> { {} }

  /**
   * A whole session end to end, with another client `b` registered: `a`
   * logs in, says one line and quits. `b` receives the join notice, the chat
   * line and the departure notice; `a` receives the prompts, the welcome and
   * the two broadcasts made while it was registered; the log gains one entry
   * per broadcast; the registry ends as it began. (`Credentials.DefaultLogin`
   * gives the credentials for the seeded account aiba/123.)
   */
  lemma LoginChatQuit(cfg: Config, s: State, a: ConnId, b: ConnId, user: string, password: string,
                      message: string, quit: string, clock: nat -> string)
    requires a != b && a !in s.clients && b in s.clients
    requires Trimmed(user) && user != ""
    requires Credentials.VerifyCredentials(user, Strip(password), cfg.credentials, cfg.hash)
    requires Trimmed(message) && message != "" && !IsQuit(message)
    requires quit != "" && IsQuit(Strip(quit))
    ensures var (t, phase) := Session(cfg, s, a, [Recv(user), Recv(password), Recv(message), Recv(quit)], clock, NoFailures);
            && phase == Closed
            && t.clients == s.clients
            && Received(t.inbox, b) == Received(s.inbox, b) + [Joined(user) + "\n", ChatLine(user, message) + "\n", Left(user) + "\n"]
            && Received(t.inbox, a) == Received(s.inbox, a)
               + [UsernamePrompt, PasswordPrompt, Welcome(user), Joined(user) + "\n", ChatLine(user, message) + "\n"]
            && t.log == s.log + [LogEntry(clock(1), ServerSender, Joined(user)),
                                 LogEntry(clock(2), user, ChatLine(user, message)),
                                 LogEntry(clock(3), ServerSender, Left(user))]
  {
    var events := [Recv(user), Recv(password), Recv(message), Recv(quit)];
    StripTrimmed(user);
    var e2 := events[..2];
    assert e2 == [Recv(user), Recv(password)];
    AuthSuccess(cfg, s, a, user, password, clock, NoFailures, b);
    AuthSuccess(cfg, s, a, user, password, clock, NoFailures, a);
    var s2 := Session(cfg, s, a, e2, clock, NoFailures).0;
    var s0 := Send(s, a, UsernamePrompt);
    assert a !in {};
    AfterLogin(cfg, s, s2, a, b, user, message, quit, clock);
    var e3 := events[..3];
    assert e3[..|e3| - 1] == e2 && e3[|e3| - 1] == Recv(message);
    assert Run(cfg, s0, AwaitingUsername, a, e2, clock, NoFailures) == (s2, Active(user));
    var r3 := Step(cfg, s2, a, Active(user), Recv(message), clock(2), {});
    assert Run(cfg, s0, AwaitingUsername, a, e3, clock, NoFailures) == r3;
    assert events[..|events| - 1] == e3 && events[|events| - 1] == Recv(quit);
    var r4 := Step(cfg, r3.0, a, r3.1, Recv(quit), clock(3), {});
    assert Run(cfg, s0, AwaitingUsername, a, events, clock, NoFailures) == r4;
  }

  /** The effect of `LoginChatQuit` once the login is done: the chat line and the quit, added to the login's effect. */
  lemma AfterLogin(cfg: Config, s: State, s2: State, a: ConnId, b: ConnId, user: string,
                   message: string, quit: string, clock: nat -> string)
    requires a != b && a !in s.clients && b in s.clients && user != ""
    requires s2.clients == s.clients[a := user]
    requires s2.log == s.log + [LogEntry(clock(1), ServerSender, Joined(user))]
    requires Received(s2.inbox, a) == Received(s.inbox, a) + [UsernamePrompt, PasswordPrompt, Welcome(user)] + [Joined(user) + "\n"]
    requires Received(s2.inbox, b) == Received(s.inbox, b) + [Joined(user) + "\n"]
    requires Trimmed(message) && message != "" && !IsQuit(message)
    requires quit != "" && IsQuit(Strip(quit))
    ensures var r3 := Step(cfg, s2, a, Active(user), Recv(message), clock(2), {});
            var r4 := Step(cfg, r3.0, a, r3.1, Recv(quit), clock(3), {});
            && r4.1 == Closed
            && r4.0.clients == s.clients
            && Received(r4.0.inbox, b) == Received(s.inbox, b) + [Joined(user) + "\n", ChatLine(user, message) + "\n", Left(user) + "\n"]
            && Received(r4.0.inbox, a) == Received(s.inbox, a)
               + [UsernamePrompt, PasswordPrompt, Welcome(user), Joined(user) + "\n", ChatLine(user, message) + "\n"]
            && r4.0.log == s.log + [LogEntry(clock(1), ServerSender, Joined(user)),
                                    LogEntry(clock(2), user, ChatLine(user, message)),
                                    LogEntry(clock(3), ServerSender, Left(user))]
  {
    var jn, cl, lf := Joined(user) + "\n", ChatLine(user, message) + "\n", Left(user) + "\n";
    var rb := Received(s.inbox, b);
    assert rb + [jn] + [cl, lf] == rb + [jn, cl, lf];
    var ra := Received(s.inbox, a);
    assert ra + [UsernamePrompt, PasswordPrompt, Welcome(user)] + [jn] + [cl]
           == ra + [UsernamePrompt, PasswordPrompt, Welcome(user), jn, cl];
    var j := LogEntry(clock(1), ServerSender, Joined(user));
    var m := LogEntry(clock(2), user, ChatLine(user, message));
    var l := LogEntry(clock(3), ServerSender, Left(user));
    assert s.log + [j] + [m, l] == s.log + [j, m, l];
    assert s2.clients - {a} == s.clients;
    ChatThenQuit(cfg, s2, a, b, user, message, quit, clock(2), clock(3));
  }

  /** The last two steps of `LoginChatQuit`: one chat line from an active session, then the quit command. */
  lemma ChatThenQuit(cfg: Config, s: State, a: ConnId, b: ConnId, user: string, message: string, quit: string,
                     ts2: string, ts3: string)
    requires a != b && a in s.clients && s.clients[a] == user && b in s.clients && user != ""
    requires Trimmed(message) && message != "" && !IsQuit(message)
    requires quit != "" && IsQuit(Strip(quit))
    ensures var r3 := Step(cfg, s, a, Active(user), Recv(message), ts2, {});
            var r4 := Step(cfg, r3.0, a, r3.1, Recv(quit), ts3, {});
            && r4.1 == Closed
            && r4.0.clients == s.clients - {a}
            && Received(r4.0.inbox, b) == Received(s.inbox, b) + [ChatLine(user, message) + "\n", Left(user) + "\n"]
            && Received(r4.0.inbox, a) == Received(s.inbox, a) + [ChatLine(user, message) + "\n"]
            && r4.0.log == s.log + [LogEntry(ts2, user, ChatLine(user, message)), LogEntry(ts3, ServerSender, Left(user))]
  {
    StripTrimmed(message);
    ActiveMessage(cfg, s, a, user, message, ts2, {}, a);
    ActiveMessage(cfg, s, a, user, message, ts2, {}, b);
    var r3 := Step(cfg, s, a, Active(user), Recv(message), ts2, {});
    ActiveEnd(cfg, r3.0, a, user, Recv(quit), ts3, {}, a);
    ActiveEnd(cfg, r3.0, a, user, Recv(quit), ts3, {}, b);
    var rb := Received(s.inbox, b);
    assert rb + [ChatLine(user, message) + "\n"] + [Left(user) + "\n"] == rb + [ChatLine(user, message) + "\n", Left(user) + "\n"];
    assert s.log + [LogEntry(ts2, user, ChatLine(user, message))] + [LogEntry(ts3, ServerSender, Left(user))]
           == s.log + [LogEntry(ts2, user, ChatLine(user, message)), LogEntry(ts3, ServerSender, Left(user))];
  }
}
