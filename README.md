# Chat server model

A Dafny model of the sequential logic of the multi-client chat server
`Aibek_Murat_task2_server.py`:

- **Credential store** (`credentials.dfy`, module `Credentials`):
  - `load_credentials` seeds the default account `aiba` / `123` when the store is absent.
  - It then reads the store line by line. Blank lines are skipped. A line `user:digest` adds or overwrites an entry.
  - Any other line makes the load fail, because the two-way unpacking of `split(":")` raises.
  - `verify_credentials` looks the user name up and compares the password's digest.
  - The digest function (SHA-256 in hex) is a parameter `hash: string -> string`.
  - The store is `Option<seq<string>>`: `None` when the file is absent, otherwise its lines.
- **Python string helpers** (`text.dfy`, module `Text`):
  - `str.strip()` with Python's whitespace set.
  - ASCII `str.lower()`.
  - `str.split(sep)` and its inverse `join`.
- **Server state** (`chat.dfy`, module `Chat`):
  - The registry `clients`, a map from connection id to user name.
  - The append-only log: the entries written to the log file, one per `log_message` call.
  - Per connection, everything that was sent to it successfully.
  - Pure functions give the meaning of every step: `Send`, `Register`, `Unregister` (`pop(conn, None)`), `Broadcast`, `Cleanup` (the `finally` block of `handle_client`).
  - `Step` is one received input of `handle_client`. `Run` and `Session` are a whole sequence of inputs.
  - The session's phases are awaiting user name, awaiting password, active (the receive loop) and closed.
  - An input is `Recv(data)`, one decoded read (an empty read is `Recv("")`), or `Reset`, a connection reset raised by a read.
- **The `ChatServer` object** (`server.dfy`, module `Server`):
  - A class with the fields `clients`, `log` (the entries of the log file) and `inbox`.
  - Each `with self.lock` block is one atomic method. `Register` is line 101 and `Unregister` is line 129.
  - `Broadcast` loops over the registered connections. A recipient in the given `broken` set fails its send and is skipped.
  - `Handle` is one step of `handle_client`. `HandleClient` is its input loop.
  - Every method is proved to change the state exactly as the matching `Chat` function says. The lemmas about those functions therefore carry over to the class.

Timestamps and send failures are parameters. One step takes a timestamp `ts` and the set `broken` of connections whose broadcast sends fail. A session takes `clock(i)` and `failing(i)` for its `i`-th input, so a recipient can fail one broadcast and receive the next.

Where the code and the documented design differ, the model follows the code:

- Cleanup announces a departure only when the popped name is truthy (`if user:`). A user whose stored name is empty therefore leaves silently.
- Fan-out happens while the registry lock is held. It does not work from a snapshot of the registry.
- The log entry is written before the lock is taken.
- A malformed store line raises at the first such line. The model reports this as `Err(Malformed(line, fields))`, and nothing is loaded.
- An empty read during the user name or password prompt is not treated as a disconnect. It yields an empty user name or password, and authentication goes ahead.

## Model

| member | source | states |
|---|---|---|
| Credentials.LoadCredentials | Aibek_Murat_task2_server.py:19-37 | the lines read are the stored lines, or the single seeded `aiba:<hash("123")>` line when the store is absent; the result is what line-by-line parsing of those lines gives, fixed by the loop invariant `Parsed(file[..i]) == Ok(m)` |
| Credentials.ClassifySpec | Aibek_Murat_task2_server.py:32-35 | a stripped line is blank iff it is all whitespace; it is an entry iff it is non-blank with exactly one colon, in which case it equals `user:digest` with neither part containing a colon; otherwise it is an error carrying the stripped line and a field count other than 2 |
| Credentials.ClassifyEntry | Aibek_Murat_task2_server.py:35-36 | a line that strips to `u:d`, with no colon in `u` or `d`, is read as the entry `(u, d)` |
| Credentials.ParsedOkIff | Aibek_Murat_task2_server.py:31-36 | loading succeeds iff no line is malformed |
| Credentials.ParsedFirstBad | Aibek_Murat_task2_server.py:35 | when lines fail to unpack, loading fails with the first such line and its field count |
| Credentials.ParsedStopsAtError | Aibek_Murat_task2_server.py:31-35 | once a prefix fails, later lines do not change the outcome |
| Credentials.ParsedLastEntryWins | Aibek_Murat_task2_server.py:35-36 | a user's stored digest is the one on the last line for that user, so later duplicates overwrite earlier ones |
| Credentials.ParsedUsers | Aibek_Murat_task2_server.py:31-36 | a name is a key of the loaded map iff some line is an entry for that name |
| Credentials.ParsedUsersHaveNoColon | Aibek_Murat_task2_server.py:35 | no loaded user name contains a colon |
| Credentials.BlankLineSkipped | Aibek_Murat_task2_server.py:32-34 | inserting a whitespace-only line anywhere leaves the loaded result unchanged |
| Credentials.SeedRoundTrip | Aibek_Murat_task2_server.py:22-36 | the seeded store loads back to exactly `{aiba: hash("123")}` |
| Credentials.DefaultLogin | Aibek_Murat_task2_server.py:22-47 | with the seeded store, `aiba` / `123` verifies, and no other user name verifies with any password |
| Credentials.VerifyCredentials | Aibek_Murat_task2_server.py:40-47 | an unknown user name never verifies; verification holds iff the name is a key and the password's digest equals the stored digest |
| Credentials.StoredPasswordVerifies | Aibek_Murat_task2_server.py:40-47 | a password whose digest is on a user's last store line verifies for that user after loading |
| Text.StripSpec | Aibek_Murat_task2_server.py:32 | `strip()` returns a contiguous infix with no leading or trailing whitespace, and only whitespace is removed on either side |
| Text.StripAround | Aibek_Murat_task2_server.py:87 | a non-empty trimmed text padded with whitespace on both sides strips back to itself |
| Text.StripEmpty | Aibek_Murat_task2_server.py:33 | a line strips to empty iff it is all whitespace |
| Text.LowerSpec | Aibek_Murat_task2_server.py:115 | after `lower()` no capital ASCII letter is left, each capital becomes its small letter, every other character is kept, and lowering twice is lowering once |
| Text.Split | Aibek_Murat_task2_server.py:35 | `split(sep)` yields one more part than there are separators, and no part contains the separator |
| Text.JoinSplit | Aibek_Murat_task2_server.py:35 | joining the parts of a split with the separator gives back the original string |
| Text.SplitOnce | Aibek_Murat_task2_server.py:35 | a string with exactly one separator splits into exactly the two sides |
| Chat.LogEntryRoundTrip | Aibek_Murat_task2_server.py:141 | a log entry `[ts] sender: message\n` reads back to its timestamp, sender and message when the timestamp has no `]` and the sender no `:` |
| Chat.UnregisterSpec | Aibek_Murat_task2_server.py:128-129 | `pop(conn, None)` removes exactly that entry, keeps every other entry, returns the removed name iff there was one, and a second pop finds nothing |
| Chat.DeliverOneMore | Aibek_Murat_task2_server.py:145-150 | each further recipient of the fan-out gets the text appended, unless its send fails, in which case nothing changes |
| Chat.BroadcastSpec | Aibek_Murat_task2_server.py:135-150 | a broadcast keeps the registry, appends exactly the entry `[ts] sender: message\n` to the log, and appends `message\n` to every registered non-broken connection (the sender included) and to no one else |
| Chat.BroadcastIsolation | Aibek_Murat_task2_server.py:145-150 | what a live recipient receives does not depend on which other recipients fail |
| Chat.CleanupSpec | Aibek_Murat_task2_server.py:126-131 | cleanup removes exactly the connection's entry; it logs a departure notice iff an entry with a non-empty name was removed; the departing connection is sent nothing; cleanup of an unregistered connection changes nothing |
| Chat.CleanupNotice | Aibek_Murat_task2_server.py:128-131 | the departure notice reaches exactly the other registered, non-broken connections |
| Chat.CleanupIdempotent | Aibek_Murat_task2_server.py:128-131 | a second cleanup of the same connection, at any time and with any failing recipients, changes nothing |
| Chat.IsQuitIff | Aibek_Murat_task2_server.py:115 | a message is the quit command iff it is `/quit` in any mix of upper and lower case |
| Chat.ClosedIsFinal | Aibek_Murat_task2_server.py:84-133 | once a session is closed, further inputs change nothing |
| Chat.AuthFailure | Aibek_Murat_task2_server.py:86-96 | on a failed login the peer is sent exactly the two prompts and `Authentication failed.\n`, the registry and log are unchanged (no join and no departure notice), nobody else receives anything, and the session is closed |
| Chat.AuthSuccess | Aibek_Murat_task2_server.py:86-105 | on a successful login the peer gets the prompts and the welcome, the connection is registered under the stripped user name with other entries unchanged, one join entry is logged as the server, and the join notice reaches every registered non-broken connection, the new one included |
| Chat.LoginDelivery | Aibek_Murat_task2_server.py:99-105 | the registry, log and per-connection deliveries produced by the welcome, the registration and the join broadcast |
| Chat.ActiveMessage | Aibek_Murat_task2_server.py:108-121 | in the receive loop, a non-empty read that is not the quit command is broadcast as `[user]: message` with the user as sender, and the session stays active with the registry unchanged |
| Chat.ActiveEnd | Aibek_Murat_task2_server.py:108-131 | in the receive loop, an empty read, the quit command or a reset closes the session without broadcasting the message; the connection is unregistered and only the departure notice is logged and delivered to the others |
| Chat.StepTracks | Aibek_Murat_task2_server.py:99-131 | one step keeps the invariant "the connection is registered iff the session is active, under the session's user name, and no other entry changes" |
| Chat.RunTracks | Aibek_Murat_task2_server.py:99-131 | that invariant holds after any sequence of inputs |
| Chat.SessionRegistry | Aibek_Murat_task2_server.py:99-131 | after any inputs, a session for an unregistered connection has registered it iff it is active, under its own user name, and has left every other entry as it was |
| Chat.StepLogEntry | Aibek_Murat_task2_server.py:105-142 | a step appends at most one log entry, and its sender has no colon when stored user names have none |
| Chat.StepKeepsLogWellFormed | Aibek_Murat_task2_server.py:140-142 | one step only appends to the log, and every entry still reads back |
| Chat.RunKeepsLogWellFormed | Aibek_Murat_task2_server.py:140-142 | any sequence of steps only appends to the log, and every entry still reads back |
| Chat.SessionLogWellFormed | Aibek_Murat_task2_server.py:140-142 | a whole session keeps the log append-only and every entry readable back into timestamp, sender and message |
| Chat.LoginChatQuit | Aibek_Murat_task2_server.py:77-131 | a login, one chat line and `/quit` leave the registry as it was; another user receives the join, the `[user]: message` line and the departure; the peer receives the prompts, the welcome, the join and its own line; the log gains exactly those three entries |
| Text.Strip | Aibek_Murat_task2_server.py:87 | `str.strip()` with Python's whitespace set; its properties are `Text.StripSpec`, `Text.StripAround` and `Text.StripEmpty` |
| Credentials.Classify | Aibek_Murat_task2_server.py:32-35 | how the loop body treats one line; its properties are `Credentials.ClassifySpec` and `Credentials.ClassifyEntry` |
| Credentials.Parsed | Aibek_Murat_task2_server.py:31-36 | the loop of `load_credentials` over the lines; its properties are the `Credentials.Parsed…` lemmas and `Credentials.BlankLineSkipped` |
| Chat.LogEntry | Aibek_Murat_task2_server.py:141 | the entry `broadcast` logs; its inverse is `Chat.ParseLogEntry`, by `Chat.LogEntryRoundTrip` |
| Chat.ParseLogEntry | Aibek_Murat_task2_server.py:141 | reads an entry back into timestamp, sender and message; `Chat.LogEntryRoundTrip` |
| Chat.Broadcast | Aibek_Murat_task2_server.py:135-150 | the effect of one broadcast; its properties are `Chat.BroadcastSpec` and `Chat.BroadcastIsolation` |
| Chat.Cleanup | Aibek_Murat_task2_server.py:126-131 | the `finally` block; its properties are `Chat.CleanupSpec`, `Chat.CleanupNotice` and `Chat.CleanupIdempotent` |
| Chat.Step | Aibek_Murat_task2_server.py:84-131 | one input of `handle_client` in each phase; its properties are `Chat.AuthFailure`, `Chat.AuthSuccess`, `Chat.ActiveMessage`, `Chat.ActiveEnd`, `Chat.StepTracks` and `Chat.StepKeepsLogWellFormed` |
| Text.Lower | Aibek_Murat_task2_server.py:115 | `lower()` on ASCII letters; its properties are `Text.LowerSpec` |
| Credentials.SeedLine | Aibek_Murat_task2_server.py:25-28 | the single line written for the default account; `Credentials.SeedRoundTrip` reads it back |
| Credentials.Seeded | Aibek_Murat_task2_server.py:22-28 | the store's lines after seeding an absent store; its properties are `Credentials.SeedRoundTrip`, `Credentials.DefaultLogin` and `Credentials.LoadCredentials` |
| Chat.Send | Aibek_Murat_task2_server.py:86-99 | a send to the peer (the prompts, the failure notice, the welcome); its effect is stated in `Chat.AuthFailure`, `Chat.AuthSuccess` and `Chat.LoginDelivery` |
| Chat.Register | Aibek_Murat_task2_server.py:101 | the registry insert; its effect is stated in `Chat.AuthSuccess`, `Chat.StepTracks` and `Chat.SessionRegistry` |
| Chat.Unregister | Aibek_Murat_task2_server.py:129 | `clients.pop(conn, None)`; its properties are `Chat.UnregisterSpec` |
| Chat.Deliver | Aibek_Murat_task2_server.py:145-150 | the send loop over `clients`; its properties are `Chat.DeliverOneMore` and `Chat.BroadcastSpec` |
| Chat.IsQuit | Aibek_Murat_task2_server.py:115 | the quit test; its properties are `Chat.IsQuitIff` |
| Chat.Run | Aibek_Murat_task2_server.py:84-131 | the inputs handled in order from a given state and phase; its properties are `Chat.RunTracks`, `Chat.ClosedIsFinal` and `Chat.RunKeepsLogWellFormed` |
| Chat.Session | Aibek_Murat_task2_server.py:84-131 | `handle_client` from its first prompt; its properties are `Chat.SessionRegistry`, `Chat.SessionLogWellFormed`, `Chat.AuthFailure`, `Chat.AuthSuccess` and `Chat.LoginChatQuit` |
| Server.ChatServer.constructor | Aibek_Murat_task2_server.py:50-57 | a new server has the given credentials, no clients and nothing sent, and keeps the entries already in the log file, which is only ever appended to |
| Server.ChatServer.SendTo | Aibek_Murat_task2_server.py:86 | a send to the peer appends the text to that connection's deliveries |
| Server.ChatServer.LogMessage | Aibek_Murat_task2_server.py:152-157 | `log_message` appends exactly the entry to the log and changes nothing else |
| Server.ChatServer.Register | Aibek_Murat_task2_server.py:100-101 | the registry insert has the effect of `Chat.Register` |
| Server.ChatServer.Unregister | Aibek_Murat_task2_server.py:128-129 | the pop has the effect of `Chat.Unregister` and returns the removed name |
| Server.ChatServer.Broadcast | Aibek_Murat_task2_server.py:135-150 | the logging and send loop over `clients` reaches the state `Chat.Broadcast` describes |
| Server.ChatServer.Cleanup | Aibek_Murat_task2_server.py:126-131 | the `finally` block reaches the state `Chat.Cleanup` describes |
| Server.ChatServer.Handle | Aibek_Murat_task2_server.py:84-131 | handling one input gives the state and phase of `Chat.Step` |
| Server.ChatServer.HandleClient | Aibek_Murat_task2_server.py:77-133 | the whole session loop gives the state and phase of `Chat.Session` |

## Left out

- Sockets: `bind`, `listen`, `accept`, `send`, `recv` and `close`. Connections are opaque ids, and each read is one input event. The 1024-byte chunking and UTF-8 decoding are not modelled.
- The accept loop `start_server` (lines 59-75). It only starts one thread per connection.
- Threads and `threading.Lock`. Each locked block is one atomic method, and sessions are not interleaved with one another.
- SHA-256 and hex encoding. The digest is the function parameter `hash`.
- The clock read `datetime.now().strftime`. Timestamps are parameters.
- Lines of the log file. The log is modelled as entries. A chat message with a newline inside it (strip removes only the ends) makes its entry span several lines of the file, and those lines do not each read back.
- File I/O in `load_credentials` and `log_message`. The store is a sequence of lines, and the log is a sequence of entries. Writing the seeded file and reading it back is one step.
- `print` diagnostics.
- Socket closing, including the double close on the failed-login path. The model makes no claims about released resources.
- Failures of sends to the session's own peer outside a broadcast, such as a broken pipe on a prompt. Those sends always succeed in the model. A connection reset during a read is the `Reset` event.
- Exceptions in `handle_client` other than `ConnectionResetError`, which is the `Reset` event. Only that one is caught (line 123). The others escape the session, and none is modelled. Examples:
  - a `UnicodeDecodeError` from a read;
  - an exception from a send to the peer;
  - a `recv` failure other than a reset, such as `TimeoutError` or `ConnectionAbortedError`;
  - an `OSError` from opening the log file in `log_message` (line 156), which any broadcast can raise (lines 105, 121, 131). Raised at line 131, it also skips the `close()` at line 133.
- Text.Lower: lowers ASCII letters only. Python's `lower()` also lowers non-ASCII letters, but only ASCII matters for comparison with `/quit`.
- Credentials.SeedRoundTrip: requires the digest of `123` to be 64 lowercase hex characters. This is what `hexdigest()` returns, and it rules out a colon in the seeded line.
- The client program `Aibek_Murat_task2_client.py`, a terminal and socket loop that is not part of this model.
