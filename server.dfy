/**
 * `ChatServer` with its shared registry, its log and the sends it makes, as a
 * class whose methods are the server's atomic steps. Each method is proved to
 * have the effect the corresponding function of `Chat` describes.
 */
module Server {
  import opened Wrappers
  import opened Text
  import Credentials
  import Chat

  class ChatServer {
    /** Loaded once by `load_credentials` and never changed. */
    const credentials: map<string, string>
    const hash: string -> string
    /** `self.clients`: connection to user name. */
    var clients: map<Chat.ConnId, string>
    /** The entries of the log file, one per `log_message` call, oldest first. */
    var log: seq<string>
    /** Everything sent successfully to each connection, in order. */
    var inbox: map<Chat.ConnId, seq<string>>

    function Snapshot(): Chat.State
      reads this
    {
      Chat.State(clients, log, inbox)
    }

    function Auth(): Chat.Config {
      Chat.Config(credentials, hash)
    }

    /**
     * `ChatServer.__init__`, given the credentials `load_credentials` returned
     * and the entries already in the log file (which the server opens only to
     * append): no clients, nothing sent, the existing log kept.
     */
    constructor (credentials: map<string, string>, hash: string -> string, existingLog: seq<string>)
      ensures this.credentials == credentials && this.hash == hash
      ensures clients == map[] && log == existingLog && inbox == map[]
    {
      this.credentials := credentials;
      this.hash := hash;
      clients := map[];
      log := existingLog;
      inbox := map[];
    }

    /** A send to the session's own peer. */
    method SendTo(conn: Chat.ConnId, text: string)
      modifies this
      ensures Snapshot() == Chat.Send(old(Snapshot()), conn, text)
    {
      inbox := inbox[conn := Chat.Received(inbox, conn) + [text]];
    }

    /** `log_message`: append one entry to the log. */
    method LogMessage(entry: string)
      modifies this
      ensures log == old(log) + [entry]
      ensures clients == old(clients) && inbox == old(inbox)
    {
      log := log + [entry];
    }

    /** `clients[conn] = username`, under the lock. */
    method Register(conn: Chat.ConnId, username: string)
      modifies this
      ensures Snapshot() == Chat.Register(old(Snapshot()), conn, username)
    {
      clients := clients[conn := username];
    }

    /** `clients.pop(conn, None)`, under the lock. */
    method Unregister(conn: Chat.ConnId) returns (user: Option<string>)
      modifies this
      ensures (Snapshot(), user) == Chat.Unregister(old(Snapshot()), conn)
    {
      user := if conn in clients then Some(clients[conn]) else None;
      clients := clients - {conn};
    }

    /**
     * `broadcast`: log one entry, then try every registered connection in
     * turn; a recipient in `broken` fails and is skipped, the others still
     * receive the message.
     */
    method Broadcast(message: string, sender: string, ts: string, broken: set<Chat.ConnId>)
      modifies this
      ensures Snapshot() == Chat.Broadcast(old(Snapshot()), message, sender, ts, broken)
    {
      LogMessage(Chat.LogEntry(ts, sender, message));
      var text := message + "\n";
      ghost var start := inbox;
      assert Chat.Deliver(start, {}, broken, text) == start;
      var pending := clients.Keys;
      while pending != {}
        invariant pending <= clients.Keys
        invariant clients == old(clients) && log == old(log) + [Chat.LogEntry(ts, sender, message)]
        invariant inbox == Chat.Deliver(start, clients.Keys - pending, broken, text)
        decreases pending
      {
        var c :| c in pending;
        Chat.DeliverOneMore(start, clients.Keys - pending, c, broken, text);
        if c !in broken {
          inbox := inbox[c := Chat.Received(inbox, c) + [text]];
        }
        assert clients.Keys - (pending - {c}) == (clients.Keys - pending) + {c};
        pending := pending - {c};
      }
      assert clients.Keys - pending == clients.Keys;
    }

    /** The `finally` block of `handle_client`. */
    method Cleanup(conn: Chat.ConnId, ts: string, broken: set<Chat.ConnId>)
      modifies this
      ensures Snapshot() == Chat.Cleanup(old(Snapshot()), conn, ts, broken)
    {
      var user := Unregister(conn);
      if user.Some? && user.value != "" {
        Broadcast(Chat.Left(user.value), Chat.ServerSender, ts, broken);
      }
    }

    /** One input of `handle_client` for `conn`, handled in phase `phase`. */
    method Handle(conn: Chat.ConnId, phase: Chat.Phase, e: Chat.Event, ts: string, broken: set<Chat.ConnId>)
      returns (next: Chat.Phase)
      modifies this
      ensures (Snapshot(), next) == Chat.Step(Auth(), old(Snapshot()), conn, phase, e, ts, broken)
    {
      match phase {
        case Closed =>
          next := Chat.Closed;
        case AwaitingUsername =>
          match e {
            case Reset =>
              Cleanup(conn, ts, broken);
              next := Chat.Closed;
            case Recv(data) =>
              var username := Strip(data);
              SendTo(conn, Chat.PasswordPrompt);
              next := Chat.AwaitingPassword(username);
          }
        case AwaitingPassword(username) =>
          match e {
            case Reset =>
              Cleanup(conn, ts, broken);
              next := Chat.Closed;
            case Recv(data) =>
              var password := Strip(data);
              if !Credentials.VerifyCredentials(username, password, credentials, hash) {
                SendTo(conn, Chat.AuthFailed);
                Cleanup(conn, ts, broken);
                next := Chat.Closed;
              } else {
                SendTo(conn, Chat.Welcome(username));
                Register(conn, username);
                Broadcast(Chat.Joined(username), Chat.ServerSender, ts, broken);
                next := Chat.Active(username);
              }
          }
        case Active(username) =>
          match e {
            case Reset =>
              Cleanup(conn, ts, broken);
              next := Chat.Closed;
            case Recv(data) =>
              if data == "" {
                Cleanup(conn, ts, broken);
                next := Chat.Closed;
              } else {
                var message := Strip(data);
                if Lower(message) == Chat.QuitCommand {
                  Cleanup(conn, ts, broken);
                  next := Chat.Closed;
                } else {
                  Broadcast(Chat.ChatLine(username, message), username, ts, broken);
                  next := Chat.Active(username);
                }
              }
          }
      }
    }

    /**
     * `handle_client`: prompt for the user name, then handle the inputs in
     * order until the session closes or the inputs run out (the session then
     * waits in its current phase). Event `i` is handled at clock reading
     * `clock(i)`, and the broadcast sends that fail while handling it are
     * those to `failing(i)`.
     */
    method HandleClient(conn: Chat.ConnId, events: seq<Chat.Event>, clock: nat -> string, failing: nat -> set<Chat.ConnId>)
      returns (phase: Chat.Phase)
      modifies this
      ensures (Snapshot(), phase) == Chat.Session(Auth(), old(Snapshot()), conn, events, clock, failing)
    {
      SendTo(conn, Chat.UsernamePrompt);
      ghost var s0 := Snapshot();
      phase := Chat.AwaitingUsername;
      var i := 0;
      assert events[..0] == [];
      while i < |events| && phase != Chat.Closed
        invariant 0 <= i <= |events|
        invariant (Snapshot(), phase) == Chat.Run(Auth(), s0, Chat.AwaitingUsername, conn, events[..i], clock, failing)
      {
        assert events[..i + 1][..i] == events[..i];
        phase := Handle(conn, phase, events[i], clock(i), failing(i));
        i := i + 1;
      }
      if i < |events| {
        Chat.ClosedIsFinal(Auth(), s0, Chat.AwaitingUsername, conn, events, clock, failing, i);
      } else {
        assert events[..i] == events;
      }
    }
  }
}
