# Chat server routing, modelled in Dafny

This project models the message routing of a small Java chat server
(`src/ChatServer.java`). The server keeps a static set of client handlers and
an append-only log file. Each handler asks its client for a name and then
reads lines until end of stream. A line is a private message (`/pm name
text`), a roster query (`/users`, any case) or chat that is broadcast to
everyone else as `name: line`. When the stream ends the handler removes
itself and a leave notice goes to everyone who is left.

The model is a single sequential state machine, in two layers:

- `Routing` (routing.dfy) states the rules as functions on a value. A `Room`
  holds the registry, in iteration order, as `Member(name, outbox)` records,
  plus the log. Its operations are `Broadcast`, `PrivateMessage`, `Roster`,
  `Leave`, `Greet`, one client line (`Step`), the read loop (`Lines`) and a
  whole session (`Lifecycle`). A second, per-recipient definition says what
  each member receives from one line (`Inbox`) and what the log gains
  (`Logged`). Lemmas prove that the two definitions agree, line by line and
  over a whole session.
- `ChatServer` (chat_server.dfy) holds the objects. `Session` is a
  `ClientHandler`: a name that may be null and the lines written to its
  socket. `Server` holds the handler set as a `seq<Session>` of distinct
  objects, plus the log. Every method that changes these fields does so in
  place. Each is proved to act on `View()` exactly as the `Routing`
  function of the same role says, or, for the fan-out loop `SendAll`, to
  give each handler object other than the sender one more line. The search
  `FindRecipient` and the roster builder `GetUserList` change nothing: they
  are proved to return `Routing.Lookup` and `Routing.Roster` of the current
  names.

Supporting modules: `JavaStrings` (java_strings.dfy) models `String.split`
with a one-character delimiter and a positive limit, the position `indexOf`
finds (or the length when there is none),
`startsWith`, ASCII `equalsIgnoreCase`, and the `"null"` that concatenation
prints for a null reference. `Commands` (commands.dfy) holds the
classification of client lines. `Scenario` (scenario.dfy) traces a
two-client session through the routing functions.

Behaviours of the code that the model keeps as written:

- `getUserList` always cuts two characters, because a builder that starts
  with `"Connected users: "` is never empty. With an empty registry it
  returns `"Connected users"`, not `"Connected users: "`. A `/users` line can
  never see an empty registry, since its sender is still registered
  (`UsersReplyListsNames`).
- A `/pm` line is split on single spaces only, not on any whitespace. Two
  spaces after `/pm` give an empty recipient, a trailing space gives an empty
  text, and `/pm ` or `/pm name` is malformed.
- `sendPrivateMessage` calls `getClientName().equalsIgnoreCase(..)` on each
  handler in turn. A handler that has been accepted but has not yet sent its
  name has a null name. If it comes before the first match, or anywhere when
  no handler matches, the call throws
  `NullPointerException`. Nothing has been sent at that point. The
  exception is not an `IOException`, so it ends the sender's read loop, and
  the `finally` block removes the sender. The model returns `ok == false`
  (`Match.Unnamed`, `Survives`, `Reach`; lemma `Scenario.UnnamedBeforeBob`).
- A client whose stream ends before it sends a name keeps a null name. It is
  announced as `"null has joined the chat."` and leaves as `"null has left
  the chat."` (`JavaStrings.Text`).
- The `/pm ` prefix is case-sensitive and `/users` is not. Every other line,
  slash-words included, is broadcast.

## Model

| member | source | states |
|---|---|---|
| `JavaStrings.Text` | src/ChatServer.java:47 | The characters that concatenation gives a name that may be null: the name itself, or `null`. It has no contract of its own. Every message format built from a name uses it (lines 47, 59, 66, 106, 124), and `Scenario.AliceJoins` and `Scenario.BobLeaves` pin down concrete results. |
| `JavaStrings.EqualsIgnoreCase` | src/ChatServer.java:46 | `equalsIgnoreCase` on non-null strings, as equal lengths and equal ASCII-folded characters. It has no contract of its own. `Commands.ParseListUsers` (line 119) and `Routing.Scan` (line 46) state what it decides. |
| `JavaStrings.StartsWith` | src/ChatServer.java:111 | The case-sensitive `startsWith` test. It has no contract of its own. `Commands.ParsePrivate` and `Commands.ParseMalformed` state what it decides. |
| `JavaStrings.Split` | src/ChatServer.java:113 | `split(" ", limit)` with a positive limit gives between one and `limit` parts. `JavaStrings.SplitFields` and `JavaStrings.SplitUnique` characterise the parts completely. |
| `JavaStrings.SplitFields` | src/ChatServer.java:113 | `split(" ", limit)` gives parts that join back to the line with the delimiter between them. Only the last part may hold the delimiter, and it may only when the limit was reached. |
| `JavaStrings.SplitUnique` | src/ChatServer.java:113 | Conversely, any parts with those properties are exactly what `split` returns. |
| `JavaStrings.IndexOf` | src/ChatServer.java:113 | The position `split` cuts at is the first occurrence of the delimiter, or the length when there is none. |
| `JavaStrings.IndexOfBefore` | src/ChatServer.java:113 | The text before the cut holds no delimiter. |
| `JavaStrings.IndexOfAfter` | src/ChatServer.java:113 | In a text made of a delimiter-free head, the delimiter and a rest, the cut falls right after the head. |
| `JavaStrings.SplitJoin` | src/ChatServer.java:113 | The parts `split` returns join back to the text with the delimiter between them. |
| `JavaStrings.JoinAround` | src/ChatServer.java:113 | The text before a delimiter, joined with parts that rebuild the text after it, gives the whole text. |
| `JavaStrings.SplitInner` | src/ChatServer.java:113 | No part `split` returns, except the last, holds the delimiter. |
| `JavaStrings.SplitLast` | src/ChatServer.java:113 | When `split` returns fewer parts than the limit, the last part holds no delimiter either. |
| `JavaStrings.SplitCons` | src/ChatServer.java:113 | A text made of a delimiter-free head, the delimiter and a rest splits into the head, then the parts of the rest with the limit one lower. |
| `JavaStrings.SplitStep` | src/ChatServer.java:113 | The same step, stated for a text equal to such a head, delimiter and rest, whose rest is known to split into given parts. It adds nothing to `JavaStrings.SplitCons`; it keeps the solver's work in `JavaStrings.SplitUnique` small. |
| `JavaStrings.JoinWithSnoc` | src/ChatServer.java:64-71 | Joining one more part adds the separator and that part, the step the roster builder takes per handler. |
| `JavaStrings.JoinWithCons` | src/ChatServer.java:64-71 | Joining a head before at least one more part puts the separator right after the head. |
| `Commands.Parse` | src/ChatServer.java:111-125 | The branch `run` takes for one line. It has no contract of its own. `Commands.ParsePrivate`, `Commands.ParseMalformed` and `Commands.ParseListUsers` characterise each branch with an if-and-only-if, and every other line is chat. |
| `Commands.PrivateSplit` | src/ChatServer.java:111-113 | For a line starting with `/pm `, the split gives `/pm` followed by the split of the rest with limit 2. |
| `Commands.PrivateIntro` | src/ChatServer.java:111-115 | A line `/pm r t` with no space in `r` is a private message to `r` with text `t`. |
| `Commands.SplitInTwo` | src/ChatServer.java:113-114 | Two parts from a split with limit 2 are the text before the first space and the text after it. |
| `Commands.PrivateElim` | src/ChatServer.java:111-115 | A private message to `r` with text `t` came from the line `/pm r t`, with no space in `r`. |
| `Commands.PrivateRest` | src/ChatServer.java:111-115 | A line that starts with `/pm ` and whose rest splits into `r` and `t` reads `/pm r t`, with no space in `r`. |
| `Commands.ParsePrivate` | src/ChatServer.java:111-115 | A line is a private message to `r` with text `t` if and only if it reads `/pm r t` with no space in `r`. |
| `Commands.ParseMalformed` | src/ChatServer.java:111-118 | A line gets the usage error if and only if it starts with `/pm ` and no space follows the prefix. |
| `Commands.ParseListUsers` | src/ChatServer.java:119-121 | A line asks for the roster if and only if it equals `/users` ignoring case. |
| `Commands.SampleExtraWords` | src/ChatServer.java:113-115 | `/pm a b c d` goes to `a` with text `b c d`. |
| `Commands.SampleEmptyText` | src/ChatServer.java:113-115 | `/pm Bob ` goes to `Bob` with an empty text. |
| `Commands.SampleMissingText` | src/ChatServer.java:113-118 | `/pm Bob` gets the usage error. |
| `Commands.SampleCase` | src/ChatServer.java:111-125 | `/PM x y` and `/exit` are broadcast, and `/USERS` asks for the roster. |
| `Routing.JoinNotice` | src/ChatServer.java:106 | The join notice, `name has joined the chat.`, with `null` for a missing name. It has no contract of its own. `Routing.Greet` states who receives it, and `Scenario.JoinLines` gives it for Alice and Bob. |
| `Routing.LeaveNotice` | src/ChatServer.java:59 | The leave notice, `name has left the chat.`. It has no contract of its own. `Routing.Leave` states who receives it, and `Scenario.BobLeaves` gives it for Bob. |
| `Routing.ChatLine` | src/ChatServer.java:124 | The broadcast form of a chat line, `name: line`. It has no contract of its own. `Routing.StepEffect` states who receives it and that the log gains it, and `Scenario.AliceSaysHi` gives it for Alice's `hi`. |
| `Routing.PrivateIn` | src/ChatServer.java:47 | The line the recipient gets, `[Private] sender: text`. It has no contract of its own. `Routing.PrivateMessageEffect` states who receives it, and `Scenario.WhisperLines` gives it for the scenario. |
| `Routing.PrivateEcho` | src/ChatServer.java:48 | The echo to the sender, `[Private to r] text`, with `r` as typed. It has no contract of its own. `Routing.PrivateMessageEffect` states who receives it, and `Scenario.WhisperLines` gives it for the scenario. |
| `Routing.NotFoundNotice` | src/ChatServer.java:52 | The reply when no handler matches, `User 'r' not found.`. It has no contract of its own. `Routing.PrivateMessageEffect` states that the sender alone receives it. The usage line `Usage` of line 117 goes to the sender alone in the same way, as `Routing.StepEffect` states. |
| `Routing.Deliver` | src/ChatServer.java:141-143 | `sendMessage` on a member value: one line added to that member's outbox. It has no contract of its own. `ChatServer.Server.Notify` shows that a call of `Session.Send` acts on `View()` as it says. |
| `Routing.Appended` | src/ChatServer.java:64-67 | What the builder loop appends after the label `RosterLabel`: each name and `", "`. It has no contract of its own. `Routing.AppendedJoin` states it as the names joined by `", "` plus one more `", "`. |
| `Routing.Without` | src/ChatServer.java:57 | `clientHandlers.remove` on member values: the member at the given place taken out, or nothing when the handler is absent. It has no contract of its own. `Routing.Leave` states the remaining members in order. |
| `Routing.FirstLine` | src/ChatServer.java:103-104 | The name `readLine` returns after the prompt `Prompt`: the first input line, or null at end of stream. It has no contract of its own. `Routing.ActiveEffect` and `ChatServer.Server.Serve` state that the handler takes it as its name. |
| `Routing.Rest` | src/ChatServer.java:110 | The lines the loop's `readLine` returns after the name. It has no contract of its own. `Routing.ActiveEffect` states what each member receives from them. |
| `Routing.FanOut` | src/ChatServer.java:34-39 | From position `i` on, the loop gives `m` once to every handler except the sender. It leaves earlier handlers, the sender and all names unchanged. |
| `Routing.Broadcast` | src/ChatServer.java:33-41 | Every member other than the sender gets exactly one new line `m`. The sender gets nothing, or with no sender every member gets `m`. Names and order are kept and the log gains `m` once. |
| `Routing.BroadcastUnique` | src/ChatServer.java:33-41 | Those effects determine the broadcast completely. |
| `Routing.Scan` | src/ChatServer.java:45-51 | The search finds the first member, in iteration order, whose name equals the recipient ignoring case. It reports an unnamed member met first, or no match when every name differs. |
| `Routing.Lookup` | src/ChatServer.java:45-51 | The search from the first handler. It has no contract of its own; `Routing.Scan` from position 0 states its result. |
| `Routing.PrivateMessage` | src/ChatServer.java:44-53 | `sendPrivateMessage` on a room. It has no contract of its own; `Routing.PrivateMessageEffect` states who receives what. |
| `Routing.PrivateMessageEffect` | src/ChatServer.java:44-53 | On a match, the first matching member gets `[Private] sender: text` and then the sender gets `[Private to r] text`, with `r` as typed. With no match the sender alone gets `User 'r' not found.`. An unnamed member met first makes it throw with nothing sent. Other outboxes, names and the log never change. |
| `Routing.AppendedJoin` | src/ChatServer.java:64-71 | What the builder loop appends is the names joined by `", "`, plus one more `", "`. |
| `Routing.Roster` | src/ChatServer.java:63-73 | With members, the result is `Connected users: ` then the names joined by `", "` in iteration order, with no trailing separator. With none, it is `Connected users`. |
| `Routing.Admit` | src/ChatServer.java:21-22 | `clientHandlers.add` of a new, unnamed handler at the place the hash gives it. It has no contract of its own; `ChatServer.Server.Accept` states the insertion on the objects. |
| `Routing.Leave` | src/ChatServer.java:56-60 | The handler is removed first and every remaining member, in the same order, gets `name has left the chat.`. The removed handler gets nothing and the log gains the notice. An unregistered handler removes nothing. |
| `Routing.Greet` | src/ChatServer.java:103-106 | The new handler gets the prompt and takes its name. Everyone else gets `name has joined the chat.` and the log gains it. |
| `Routing.Step` | src/ChatServer.java:110-125 | Dispatching a line never changes the registry's members, order or names. |
| `Routing.StepEffect` | src/ChatServer.java:110-125 | One line as the room-level step and as the per-recipient `Inbox` agree: member `k` gains `Inbox(k)` and the log gains the chat line for chat only. The step returns normally if and only if the line `Survives`. |
| `Routing.Lines` | src/ChatServer.java:110-126 | The read loop never changes the registry's members, order or names. |
| `Routing.Reach` | src/ChatServer.java:110-126 | The loop handles the lines before the first one that throws, or all of them. |
| `Routing.LinesEffect` | src/ChatServer.java:110-126 | After the loop, each member's outbox has gained what it `Heard` from the reached lines and the log what was `Said` (chat lines only). The loop ends normally if and only if every line was reached. |
| `Routing.ReachAllNamed` | src/ChatServer.java:45-46 | When every member has a name, no line throws. |
| `Routing.LinesStop` | src/ChatServer.java:110-127 | Once a pass has thrown, later lines change nothing. |
| `Routing.LinesDone` | src/ChatServer.java:110-127 | Once the loop has read every line, or a line has thrown, the result over the whole input equals the result over the lines read. |
| `Routing.HeardGrows` | src/ChatServer.java:110-126 | Outboxes that had heard the earlier lines, and then gain one more line's inbox, have heard all the lines. |
| `Routing.AccountsExtend` | src/ChatServer.java:110-126 | A loop state that adds one more surviving line's inbox and log entry to the state after the earlier lines matches the per-recipient account of all the lines. |
| `Routing.Active` | src/ChatServer.java:103-126 | `run` up to its `finally`: the greeting with the first line as name, then the read loop over the rest. It has no contract of its own; `Routing.ActiveEffect` states its effect. |
| `Routing.Lifecycle` | src/ChatServer.java:96-137 | A whole `run`, with `removeClient` in `finally`. It has no contract of its own; `Routing.LifecycleEffect` states its effect. |
| `Routing.ActiveEffect` | src/ChatServer.java:103-126 | Up to `finally`: the sender gets the prompt and its replies, every other member the join notice and what it heard, and the log the join notice and the chat lines. |
| `Routing.LifecycleEffect` | src/ChatServer.java:96-137 | For a whole session, the handler is gone and the others keep their order. Each of them gets the join notice, what it heard and the leave notice. The log gains the join notice, the chat lines and the leave notice, and no private message or roster. |
| `Routing.LeaveAfter` | src/ChatServer.java:129-137 | The leave step after any session state: the handler goes, the others keep their order and names, and each gets the leave notice after what it had. The log gains the leave notice. |
| `Routing.UsersReplyListsNames` | src/ChatServer.java:119-121 | `/users` sends the sender alone the listed names, never the bare `Connected users`. |
| `ChatServer.Position` | src/ChatServer.java:36 | A handler's place in the registry is found by identity, or it is absent. |
| `ChatServer.RemovedAt` | src/ChatServer.java:57 | Removing the handler at one place from a registry that holds each handler once leaves every other handler, each still once. |
| `ChatServer.Session.constructor` | src/ChatServer.java:91-93 | A new handler has a null name and has been sent nothing. |
| `ChatServer.Session.Send` | src/ChatServer.java:141-143 | `sendMessage` adds one line to this handler's output and changes nothing else. |
| `ChatServer.Server.constructor` | src/ChatServer.java:8 | The registry and the log start empty. |
| `ChatServer.Server.Accept` | src/ChatServer.java:21-22 | A fresh, unnamed handler is added to the registry before its name is read. No other handler and no log line changes. |
| `ChatServer.Server.BroadcastMessage` | src/ChatServer.java:33-41 | The loop updates the objects exactly as `Routing.Broadcast` says, keeping the registry. |
| `ChatServer.Server.SendAll` | src/ChatServer.java:34-39 | The loop gives `m` once to every handler object other than the sender and keeps all names. |
| `ChatServer.Server.FindRecipient` | src/ChatServer.java:45-51 | The search loop returns the `Routing.Lookup` result for the current names. |
| `ChatServer.Server.SendPrivateMessage` | src/ChatServer.java:44-53 | The objects change exactly as `Routing.PrivateMessage` says, with `ok` false where Java throws. The registry and the log are unchanged. |
| `ChatServer.Server.Notify` | src/ChatServer.java:47-52 | `sendMessage` on the handler at a given place changes that member alone, as `Routing.Deliver` says, and keeps the registry and the log. |
| `ChatServer.Server.GetUserList` | src/ChatServer.java:63-73 | The builder loop and the two-character cut return `Routing.Roster` of the current names. |
| `ChatServer.Server.RemoveClient` | src/ChatServer.java:56-60 | The handler is taken out of the registry sequence, and every other handler object keeps its place in order. Its own output is untouched. The objects change as `Routing.Leave` says. |
| `ChatServer.Server.Handshake` | src/ChatServer.java:103-106 | Prompt, name and join notice act on the objects as `Routing.Greet` says. |
| `ChatServer.Server.Dispatch` | src/ChatServer.java:111-125 | One line acts on the objects as `Routing.Step` says. |
| `ChatServer.Server.ReadLoop` | src/ChatServer.java:109-126 | The loop acts on the objects as `Routing.Lines` says, stopping at a pass that throws. |
| `ChatServer.Server.Serve` | src/ChatServer.java:103-126 | The `try` block keeps the registry, names the handler with the first line, and acts on the objects as `Routing.Active` says. |
| `ChatServer.Server.Finish` | src/ChatServer.java:136 | `removeClient(this)` in `finally` takes the handler out of the registry sequence, keeps the other handler objects in order, and acts on the objects as `Routing.Leave` says. |
| `ChatServer.Server.RunAt` | src/ChatServer.java:96-137 | A whole `run` for the handler at a given place: it ends out of the registry sequence, with the others in order. The objects end as `Routing.Lifecycle` says, and the handler keeps its name and what it was sent. |
| `ChatServer.Server.Run` | src/ChatServer.java:96-137 | A whole `run` ends with the handler taken out of the registry sequence and every other handler object kept in order. The objects end as `Routing.Lifecycle` says and the handler's output as `Routing.Active` says. The handler keeps the first line as its name. |
| `Scenario.AliceJoins` | src/ChatServer.java:21-22 | Alice, the first to join, gets only the prompt. The log gains `Alice has joined the chat.`. |
| `Scenario.JoinLines` | src/ChatServer.java:106 | The join notices read `Alice has joined the chat.` and `Bob has joined the chat.`. |
| `Scenario.BobJoins` | src/ChatServer.java:103-106 | Bob's join notice reaches Alice and not Bob. |
| `Scenario.AliceSaysHi` | src/ChatServer.java:122-125 | Alice's `hi` reaches Bob as `Alice: hi`, and the log gains that line. |
| `Scenario.BobIsFound` | src/ChatServer.java:45-46 | Looking up `Bob` finds the second handler. |
| `Scenario.WhisperLines` | src/ChatServer.java:47-48 | The private lines read `[Private] Alice: hello there` and `[Private to Bob] hello there`. |
| `Scenario.BobGetsWhisper` | src/ChatServer.java:44-50 | Bob gets `[Private] Alice: hello there` and Alice gets `[Private to Bob] hello there`. The log is unchanged. |
| `Scenario.AliceWhispersToBob` | src/ChatServer.java:111-115 | The line `/pm Bob hello there` has exactly that effect. |
| `Scenario.BobLeaves` | src/ChatServer.java:56-60 | After Bob leaves, only Alice remains and she gets `Bob has left the chat.`. |
| `Scenario.UnnamedBeforeBob` | src/ChatServer.java:45-46 | With an unnamed handler before Bob in iteration order, Alice's `/pm Bob hi` throws and no one gets anything. |

## Left out

- The accept loop, `ServerSocket`, thread creation and socket stream setup (src/ChatServer.java:11-30, 99-100): network plumbing. A client's input is a `seq<string>` of lines, and each handler's output is the sequence of lines written to it.
- Concurrency. The handler set is shared unsynchronised between threads, so iteration and mutation can race (`ConcurrentModificationException`). The model runs one sequential interleaving. `Server.Run` runs one whole session while the other handlers only receive. Some finer interleavings can be built from `Accept`, `Handshake`, `Dispatch` and `RemoveClient`, as `Scenario` does on values.
- The wait between the prompt and the name (src/ChatServer.java:103-104). In the model the prompt, the name and the join notice are one step (`Routing.Greet`, `ChatServer.Server.Handshake`). The state "prompted, name still null" cannot be built. So a line that reaches a client while it is typing its name lands before its prompt in the model (`[m, Prompt]`). In Java it lands after the prompt (`[Prompt, m]`), unless it arrives in the short window after line 100 opens the output and before line 103 sends the prompt.
- A handler accepted but whose thread has not yet opened its output stream. A `sendMessage` to it would throw `NullPointerException`. The model treats every registered handler's output as open.
- The concrete `HashSet` order. The registry is a sequence in some fixed order, a new handler goes wherever `Accept`'s position puts it, and a rehash that reorders existing handlers is not modelled.
- File I/O in `logMessage` and its swallowed `IOException` (src/ChatServer.java:76-82): the log is an appended sequence of lines.
- `IOException` while reading and `socket.close` (src/ChatServer.java:127-135). A read error inside the read loop (line 110) skips to `finally` just as end of stream ends the loop, so it is the end of the input sequence. A read error on the name (line 104) is different and is not modelled. It skips lines 105-106, so no join notice is sent or logged, and the others get only `null has left the chat.`. The model treats every input that ends before the name as end of stream, which does send and log `null has joined the chat.`.
- Console output through `System.out` and `System.err`, and the stack trace of the uncaught `NullPointerException`.
- Unicode case folding in `equalsIgnoreCase`: only ASCII letters are folded.
- The general regular-expression `split`: only a one-character literal delimiter with a positive limit is modelled.
- src/ChatClient.java is not part of this model. It is a console socket client whose only logic is its `/exit` check.
- ChatServer.Server.SendPrivateMessage: requires the sender to be registered. Java accepts any sender, but its only caller passes the running handler, which is always registered.
