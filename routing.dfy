/// The chat server's routing rules as functions on a value: who receives
/// what, and what the log gains, for each operation of `ChatServer` and for
/// a client's whole session. The imperative model in module `ChatServer` is
/// proved to follow these functions.
module Routing {
  import opened Options
  import opened JavaStrings
  import opened Commands

  /** A registered handler as seen by routing: its name (absent until the
      handler has read its first line) and the lines sent to it so far. */
  datatype Member = Member(name: Option<string>, outbox: seq<string>)

  /** The registry in iteration order, and the log file's lines. */
  datatype Room = Room(members: seq<Member>, log: seq<string>)

  /** The room after an operation, and whether it returned normally (false:
      it threw `NullPointerException`). */
  datatype Next = Next(room: Room, ok: bool)

  /** The outcome of the private-message search: the first member whose
      name matches, no match, or a member without a name met first (whose
      `getClientName().equalsIgnoreCase` throws). */
  datatype Match = Found(index: nat) | NotFound | Unnamed(index: nat)

  const Prompt := "Enter your name: "
  const Usage := "Invalid private message format. Use: /pm [username] [message]"
  const RosterLabel := "Connected users: "

  function JoinNotice(name: Option<string>): string { Text(name) + " has joined the chat." }
  function LeaveNotice(name: Option<string>): string { Text(name) + " has left the chat." }
  function ChatLine(name: Option<string>, line: string): string { Text(name) + ": " + line }
  function PrivateIn(from: Option<string>, text: string): string { "[Private] " + Text(from) + ": " + text }
  function PrivateEcho(recipient: string, text: string): string { "[Private to " + recipient + "] " + text }
  function NotFoundNotice(recipient: string): string { "User '" + recipient + "' not found." }

  function Names(ms: seq<Member>): (names: seq<Option<string>>)
  {
    seq(|ms|, i requires 0 <= i < |ms| => ms[i].name)
  }

  /** `sendMessage(m)` to member `i`. */
  function Deliver(ms: seq<Member>, i: nat, m: string): seq<Member>
    requires i < |ms|
  {
    ms[i := ms[i].(outbox := ms[i].outbox + [m])]
  }

  // ---------------------------------------------------------------- broadcast

  /** The fan-out loop of `broadcastMessage` from position `i` on: `m` goes
      to every member at `i` or later except the excluded one. */
  function FanOut(ms: seq<Member>, m: string, exclude: Option<nat>, i: nat): (r: seq<Member>)
    requires i <= |ms|
    ensures |r| == |ms|
    ensures forall j :: 0 <= j < |ms| ==> r[j].name == ms[j].name
    ensures forall j :: 0 <= j < |ms| ==>
      r[j].outbox == ms[j].outbox + (if j < i || exclude == Some(j) then [] else [m])
    decreases |ms| - i
  {
    if i == |ms| then ms
    else FanOut(if exclude == Some(i) then ms else Deliver(ms, i, m), m, exclude, i + 1)
  }

  /** `broadcastMessage(m, sender)`, the sender being the member at
      `exclude` (or none): every other member receives `m` once, the sender
      nothing, names and order are kept, and the log gains `m`. */
  function Broadcast(room: Room, m: string, exclude: Option<nat>): (r: Room)
    ensures |r.members| == |room.members| && Names(r.members) == Names(room.members)
    ensures forall j :: 0 <= j < |room.members| ==>
      r.members[j].outbox == room.members[j].outbox + (if exclude == Some(j) then [] else [m])
    ensures r.log == room.log + [m]
  {
    Room(FanOut(room.members, m, exclude, 0), room.log + [m])
  }

  /** Those properties determine the broadcast: a room that differs from
      `room` in just that way is `Broadcast(room, m, exclude)`. */
  lemma BroadcastUnique(room: Room, after: Room, m: string, exclude: Option<nat>)
    requires |after.members| == |room.members| && after.log == room.log + [m]
    requires forall j :: 0 <= j < |room.members| ==>
      after.members[j].name == room.members[j].name &&
      after.members[j].outbox == room.members[j].outbox + (if exclude == Some(j) then [] else [m])
    ensures after == Broadcast(room, m, exclude)
  {
    var b := Broadcast(room, m, exclude);
    forall j | 0 <= j < |room.members|
      ensures after.members[j] == b.members[j]
    {
      assert b.members[j].name == Names(b.members)[j] == Names(room.members)[j];
    }
    assert after.members == b.members;
  }

  // ---------------------------------------------------------- private message

  /** The search loop of `sendPrivateMessage` from position `i` on. */
  function Scan(names: seq<Option<string>>, r: string, i: nat): (m: Match)
    requires i <= |names|
    ensures m.Found? ==> i <= m.index < |names| && names[m.index].Some? && EqualsIgnoreCase(names[m.index].value, r)
    ensures m.Unnamed? ==> i <= m.index < |names| && names[m.index].None?
    ensures m.Found? || m.Unnamed? ==>
      forall j :: i <= j < m.index ==> names[j].Some? && !EqualsIgnoreCase(names[j].value, r)
    ensures m.NotFound? ==>
      forall j :: i <= j < |names| ==> names[j].Some? && !EqualsIgnoreCase(names[j].value, r)
    decreases |names| - i
  {
    if i == |names| then NotFound
    else if names[i].None? then Unnamed(i)
    else if EqualsIgnoreCase(names[i].value, r) then Found(i)
    else Scan(names, r, i + 1)
  }

  /** The first member in iteration order whose name equals `r` up to case,
      unless a member without a name comes first. */
  function Lookup(names: seq<Option<string>>, r: string): Match
  {
    Scan(names, r, 0)
  }

  /** `sendPrivateMessage(r, text, sender)`, the sender being member `me`:
      the first match receives the private line and then the sender its
      echo; with no match the sender alone gets the not-found notice; an
      unnamed member met first makes it throw before sending anything.
      Nothing is logged. */
  function PrivateMessage(room: Room, r: string, text: string, me: nat): Next
    requires me < |room.members|
  {
    var ms := room.members;
    match Lookup(Names(ms), r)
    case Found(i) =>
      Next(Room(Deliver(Deliver(ms, i, PrivateIn(ms[me].name, text)), me, PrivateEcho(r, text)), room.log), true)
    case NotFound =>
      Next(Room(Deliver(ms, me, NotFoundNotice(r)), room.log), true)
    case Unnamed(_) =>
      Next(room, false)
  }

  /** Who receives what from `sendPrivateMessage`: on a match, member
      `i` the private line and the sender the echo (both, in that order, when
      the sender wrote to itself); with no match the sender alone the
      not-found notice; when it throws, no one anything. Names, order and
      log never change. */
  lemma PrivateMessageEffect(room: Room, r: string, text: string, me: nat)
    requires me < |room.members|
    ensures var n, ms := PrivateMessage(room, r, text, me), room.members;
      |n.room.members| == |ms| && Names(n.room.members) == Names(ms) &&
      n.room.log == room.log &&
      n.ok == !Lookup(Names(ms), r).Unnamed? &&
      forall k :: 0 <= k < |ms| ==>
        n.room.members[k].outbox == ms[k].outbox +
          match Lookup(Names(ms), r)
          case Found(i) =>
            (if k == i then [PrivateIn(ms[me].name, text)] else []) + (if k == me then [PrivateEcho(r, text)] else [])
          case NotFound => if k == me then [NotFoundNotice(r)] else []
          case Unnamed(_) => []
  {
    var n, ms := PrivateMessage(room, r, text, me), room.members;
    match Lookup(Names(ms), r) {
      case Found(i) =>
        forall k | 0 <= k < |ms|
          ensures n.room.members[k].outbox ==
            ms[k].outbox + (if k == i then [PrivateIn(ms[me].name, text)] else []) + (if k == me then [PrivateEcho(r, text)] else [])
        {
        }
      case NotFound =>
      case Unnamed(_) =>
    }
  }

  // ------------------------------------------------------------------- roster

  /** What `getUserList`'s loop appends to the builder: each name and `", "`. */
  function Appended(names: seq<Option<string>>): string
  {
    if names == [] then "" else Appended(names[..|names| - 1]) + Text(names[|names| - 1]) + ", "
  }

  function Texts(names: seq<Option<string>>): (ts: seq<string>)
  {
    seq(|names|, i requires 0 <= i < |names| => Text(names[i]))
  }

  /** The appended text is the names joined by `", "` with one more `", "`. */
  lemma {:induction false} AppendedJoin(names: seq<Option<string>>)
    ensures names != [] ==> Appended(names) == JoinWith(Texts(names), ", ") + ", "
  {
    var n := |names|;
    if n > 1 {
      var init := names[..n - 1];
      AppendedJoin(init);
      assert Texts(names) == Texts(init) + [Text(names[n - 1])];
      JoinWithSnoc(Texts(init), Text(names[n - 1]), ", ");
    }
  }

  /** `getUserList()` as written: the label, every name followed by `", "`,
      then the last two characters cut off (the length test before the cut
      always passes). With members this lists the names joined by `", "`;
      with none the cut eats the label's own `": "`. */
  function Roster(names: seq<Option<string>>): (s: string)
    ensures names != [] ==> s == RosterLabel + JoinWith(Texts(names), ", ")
    ensures names == [] ==> s == "Connected users"
  {
    var built := RosterLabel + Appended(names);
    AppendedJoin(names);
    assert names != [] ==> built == RosterLabel + JoinWith(Texts(names), ", ") + ", ";
    built[..|built| - 2]
  }

  // ------------------------------------------------------ registration, leave

  /** `clientHandlers.add` of a new handler, which has no name yet; the hash
      decides its place `pos` in iteration order. */
  function Admit(room: Room, pos: nat): (r: Room)
    requires pos <= |room.members|
  {
    Room(room.members[..pos] + [Member(None, [])] + room.members[pos..], room.log)
  }

  /** The registry without the member at `who` (unchanged when absent). */
  function Without(ms: seq<Member>, who: Option<nat>): seq<Member>
  {
    if who.Some? && who.value < |ms| then ms[..who.value] + ms[who.value + 1..] else ms
  }

  /** `removeClient(h)`, `h` being at `who` (or not registered) and named
      `name`: `h` is removed first, then the leave notice is broadcast to
      everyone still present and logged. */
  function Leave(room: Room, who: Option<nat>, name: Option<string>): (r: Room)
    ensures who.Some? && who.value < |room.members| ==>
      |r.members| == |room.members| - 1 &&
      forall j :: 0 <= j < |room.members| && j != who.value ==>
        r.members[if j < who.value then j else j - 1] ==
        room.members[j].(outbox := room.members[j].outbox + [LeaveNotice(name)])
    ensures !(who.Some? && who.value < |room.members|) ==>
      |r.members| == |room.members| &&
      forall j :: 0 <= j < |room.members| ==>
        r.members[j] == room.members[j].(outbox := room.members[j].outbox + [LeaveNotice(name)])
    ensures r.log == room.log + [LeaveNotice(name)]
  {
    Broadcast(Room(Without(room.members, who), room.log), LeaveNotice(name), None)
  }

  // ----------------------------------------------------------- one client line

  /** One pass of `run`'s read loop for member `me`'s line: a private
      message, the usage error or the roster to the sender alone, or the line
      broadcast as `name: line` to everyone else. */
  function Step(room: Room, me: nat, line: string): (n: Next)
    requires me < |room.members|
    ensures |n.room.members| == |room.members| && Names(n.room.members) == Names(room.members)
  {
    var ms := room.members;
    match Parse(line)
    case Private(r, t) => PrivateMessage(room, r, t, me)
    case MalformedPrivate => Next(Room(Deliver(ms, me, Usage), room.log), true)
    case ListUsers => Next(Room(Deliver(ms, me, Roster(Names(ms))), room.log), true)
    case Chat => Next(Broadcast(room, ChatLine(ms[me].name, line), Some(me)), true)
  }

  /** The read loop over `lines`: each line in turn, stopping at the first
      that throws. */
  function Lines(room: Room, me: nat, lines: seq<string>): (n: Next)
    requires me < |room.members|
    ensures |n.room.members| == |room.members| && Names(n.room.members) == Names(room.members)
    decreases |lines|
  {
    if lines == [] then Next(room, true)
    else
      var prev := Lines(room, me, lines[..|lines| - 1]);
      if prev.ok then Step(prev.room, me, lines[|lines| - 1]) else prev
  }

  // ------------------------------------------------ who receives what, per line

  /** Whether dispatching `line` returns normally: only a private message
      whose search meets an unnamed member first throws. */
  predicate Survives(names: seq<Option<string>>, line: string)
  {
    !(Parse(line).Private? && Lookup(names, Parse(line).recipient).Unnamed?)
  }

  /** What member `k` receives when member `me` sends `line`, stated per
      recipient: chat goes to everyone but the sender; a private line to
      the first match, its echo or the not-found notice to the sender; the
      usage error and the roster to the sender alone. */
  function Inbox(names: seq<Option<string>>, me: nat, k: nat, line: string): seq<string>
    requires me < |names|
  {
    match Parse(line)
    case Private(r, t) =>
      (match Lookup(names, r)
       case Found(i) =>
         (if k == i then [PrivateIn(names[me], t)] else []) + (if k == me then [PrivateEcho(r, t)] else [])
       case NotFound => if k == me then [NotFoundNotice(r)] else []
       case Unnamed(_) => [])
    case MalformedPrivate => if k == me then [Usage] else []
    case ListUsers => if k == me then [Roster(names)] else []
    case Chat => if k == me then [] else [ChatLine(names[me], line)]
  }

  /** What the log gains when a member named `name` sends `line`: the chat
      line for chat, nothing for commands. */
  function Logged(name: Option<string>, line: string): seq<string>
  {
    if Parse(line) == Chat then [ChatLine(name, line)] else []
  }

  /** The room-level step agrees with the per-recipient view: member `k`'s
      outbox gains `Inbox(.., k, line)`, the log gains `Logged(line)`, and
      the step returns normally exactly when the line `Survives`. */
  lemma StepEffect(room: Room, me: nat, line: string)
    requires me < |room.members|
    ensures Step(room, me, line).ok == Survives(Names(room.members), line)
    ensures Step(room, me, line).room.log == room.log + Logged(room.members[me].name, line)
    ensures forall k :: 0 <= k < |room.members| ==>
      Step(room, me, line).room.members[k].outbox ==
      room.members[k].outbox + Inbox(Names(room.members), me, k, line)
  {
    var ms, names := room.members, Names(room.members);
    var n := Step(room, me, line);
    match Parse(line) {
      case Private(r, t) =>
        match Lookup(names, r) {
          case Found(i) =>
            forall k | 0 <= k < |ms|
              ensures n.room.members[k].outbox == ms[k].outbox + Inbox(names, me, k, line)
            {
              if k == i && k == me {
                assert n.room.members[k].outbox == ms[k].outbox + [PrivateIn(names[me], t)] + [PrivateEcho(r, t)];
              }
            }
          case NotFound =>
          case Unnamed(_) =>
        }
      case MalformedPrivate =>
      case ListUsers =>
      case Chat =>
    }
  }

  // ---------------------------------------------- who receives what, per session

  /** How many of `lines` the read loop dispatches: up to and excluding the
      first line that throws, or all of them. */
  function Reach(names: seq<Option<string>>, lines: seq<string>): (k: nat)
    ensures k <= |lines|
    ensures forall j :: 0 <= j < k ==> Survives(names, lines[j])
    ensures k < |lines| ==> !Survives(names, lines[k])
    decreases |lines|
  {
    if lines == [] then 0
    else
      var init := lines[..|lines| - 1];
      var k := Reach(names, init);
      assert forall j :: 0 <= j < |init| ==> init[j] == lines[j];
      if k < |lines| - 1 then k
      else if Survives(names, lines[|lines| - 1]) then |lines|
      else |lines| - 1
  }

  /** Everything member `k` receives while member `me` sends `lines`. */
  function Heard(names: seq<Option<string>>, me: nat, k: nat, lines: seq<string>): seq<string>
    requires me < |names|
  {
    if lines == [] then []
    else Heard(names, me, k, lines[..|lines| - 1]) + Inbox(names, me, k, lines[|lines| - 1])
  }

  /** Everything the log gains while a member named `name` sends `lines`:
      its chat lines in order, and no private message and no roster. */
  function Said(name: Option<string>, lines: seq<string>): seq<string>
  {
    if lines == [] then []
    else Said(name, lines[..|lines| - 1]) + Logged(name, lines[|lines| - 1])
  }

  /** `n` is what the read loop leaves after member `me` sent `lines` from
      `room`: the first `Reach` lines dispatched, each member's outbox grown
      by what it `Heard` from them, the log by what was `Said`, and a normal
      end exactly when every line was reached. */
  ghost predicate Accounts(room: Room, me: nat, lines: seq<string>, n: Next)
    requires me < |room.members|
  {
    var names, k := Names(room.members), Reach(Names(room.members), lines);
    |n.room.members| == |room.members| &&
    Names(n.room.members) == names &&
    n.ok == (k == |lines|) &&
    n.room.log == room.log + Said(room.members[me].name, lines[..k]) &&
    forall j :: 0 <= j < |room.members| ==>
      n.room.members[j].outbox == room.members[j].outbox + Heard(names, me, j, lines[..k])
  }

  /** A loop that already threw ignores further lines. */
  lemma AccountsAfterThrow(room: Room, me: nat, lines: seq<string>, prev: Next)
    requires me < |room.members| && lines != []
    requires Accounts(room, me, lines[..|lines| - 1], prev) && !prev.ok
    ensures Accounts(room, me, lines, prev)
  {
    var names := Names(room.members);
    var init := lines[..|lines| - 1];
    var k0 := Reach(names, init);
    assert Reach(names, lines) == k0;
    assert init[..k0] == lines[..k0];
  }

  /** Outboxes that had `Heard` the first lines and then gain one more
      line's `Inbox` have `Heard` all of them. */
  lemma {:induction false} HeardGrows(names: seq<Option<string>>, me: nat, before: seq<Member>,
                                      mid: seq<Member>, after: seq<Member>, lines: seq<string>)
    requires me < |names| && lines != []
    requires |mid| == |after| == |before|
    requires forall j :: 0 <= j < |before| ==>
      mid[j].outbox == before[j].outbox + Heard(names, me, j, lines[..|lines| - 1])
    requires forall j :: 0 <= j < |before| ==>
      after[j].outbox == mid[j].outbox + Inbox(names, me, j, lines[|lines| - 1])
    ensures forall j :: 0 <= j < |before| ==>
      after[j].outbox == before[j].outbox + Heard(names, me, j, lines)
  {
    forall j | 0 <= j < |before|
      ensures after[j].outbox == before[j].outbox + Heard(names, me, j, lines)
    {
      var had, heard, inbox := before[j].outbox, Heard(names, me, j, lines[..|lines| - 1]), Inbox(names, me, j, lines[|lines| - 1]);
      assert Heard(names, me, j, lines) == heard + inbox;
      assert after[j].outbox == (had + heard) + inbox;
      assert (had + heard) + inbox == had + (heard + inbox);
    }
  }

  /** A state `next` that adds one surviving line's `Inbox` and `Logged`
      parts to a loop state that reached every earlier line reaches all. */
  lemma AccountsExtend(room: Room, me: nat, lines: seq<string>, prev: Next, next: Next)
    requires me < |room.members| && lines != []
    requires Accounts(room, me, lines[..|lines| - 1], prev) && prev.ok
    requires Survives(Names(room.members), lines[|lines| - 1]) && next.ok
    requires |next.room.members| == |room.members| && Names(next.room.members) == Names(room.members)
    requires next.room.log == prev.room.log + Logged(room.members[me].name, lines[|lines| - 1])
    requires forall k :: 0 <= k < |room.members| ==>
      next.room.members[k].outbox ==
      prev.room.members[k].outbox + Inbox(Names(room.members), me, k, lines[|lines| - 1])
    ensures Accounts(room, me, lines, next)
  {
    var names, name := Names(room.members), room.members[me].name;
    var n := |lines|;
    var init, last := lines[..n - 1], lines[n - 1];
    assert Reach(names, init) == n - 1 && init[..n - 1] == init;
    assert Reach(names, lines) == n && lines[..n] == lines;
    assert Said(name, lines) == Said(name, init) + Logged(name, last);
    HeardGrows(names, me, room.members, prev.room.members, next.room.members, lines);
  }

  /** A line that returns normally adds its `Inbox` and `Logged` parts. */
  lemma AccountsSurvive(room: Room, me: nat, lines: seq<string>, prev: Next)
    requires me < |room.members| && lines != []
    requires Accounts(room, me, lines[..|lines| - 1], prev) && prev.ok
    requires Survives(Names(room.members), lines[|lines| - 1])
    ensures Accounts(room, me, lines, Step(prev.room, me, lines[|lines| - 1]))
  {
    var names, last := Names(room.members), lines[|lines| - 1];
    assert Names(prev.room.members) == names;
    assert prev.room.members[me].name == room.members[me].name by {
      assert Names(prev.room.members)[me] == names[me];
    }
    StepEffect(prev.room, me, last);
    AccountsExtend(room, me, lines, prev, Step(prev.room, me, last));
  }

  /** A line that throws changes nothing and ends the loop. */
  lemma AccountsThrow(room: Room, me: nat, lines: seq<string>, prev: Next)
    requires me < |room.members| && lines != []
    requires Accounts(room, me, lines[..|lines| - 1], prev) && prev.ok
    requires !Survives(Names(room.members), lines[|lines| - 1])
    ensures Accounts(room, me, lines, Step(prev.room, me, lines[|lines| - 1]))
  {
    var names := Names(room.members);
    var n := |lines|;
    var init, last := lines[..n - 1], lines[n - 1];
    assert Reach(names, init) == n - 1;
    assert Reach(names, lines) == n - 1 && lines[..n - 1] == init;
    assert Names(prev.room.members) == names;
    assert Step(prev.room, me, last) == Next(prev.room, false);
    assert init[..n - 1] == init;
    assert prev.room.log == room.log + Said(room.members[me].name, lines[..n - 1]);
    assert forall j :: 0 <= j < |room.members| ==>
      prev.room.members[j].outbox == room.members[j].outbox + Heard(names, me, j, lines[..n - 1]);
  }

  /** The read loop over `lines` dispatches the first `Reach` lines: each
      member's outbox gains what it `Heard` from them and the log what was
      `Said`; the loop ends normally exactly when every line was reached. */
  lemma {:induction false} LinesEffect(room: Room, me: nat, lines: seq<string>)
    requires me < |room.members|
    ensures Accounts(room, me, lines, Lines(room, me, lines))
    decreases |lines|
  {
    if lines != [] {
      var prev := Lines(room, me, lines[..|lines| - 1]);
      LinesEffect(room, me, lines[..|lines| - 1]);
      if !prev.ok {
        AccountsAfterThrow(room, me, lines, prev);
      } else if Survives(Names(room.members), lines[|lines| - 1]) {
        AccountsSurvive(room, me, lines, prev);
      } else {
        AccountsThrow(room, me, lines, prev);
      }
    }
  }

  /** When every member has a name, no line throws and the whole input is
      dispatched. */
  lemma {:induction false} ReachAllNamed(names: seq<Option<string>>, lines: seq<string>)
    requires forall j :: 0 <= j < |names| ==> names[j].Some?
    ensures Reach(names, lines) == |lines|
    decreases |lines|
  {
    if lines != [] {
      ReachAllNamed(names, lines[..|lines| - 1]);
      var r := Parse(lines[|lines| - 1]);
      if r.Private? {
        assert !Lookup(names, r.recipient).Unnamed?;
      }
    }
  }

  // ----------------------------------------------------------- whole session

  /** The name `run` reads: the first input line, or null at end of stream. */
  function FirstLine(input: seq<string>): Option<string>
  {
    if input == [] then None else Some(input[0])
  }

  /** The lines `run`'s loop reads after the name. */
  function Rest(input: seq<string>): seq<string>
  {
    if input == [] then [] else input[1..]
  }

  /** The start of `run` for member `me`: the name prompt to `me`, the name
      stored, and the join notice broadcast to everyone but `me`. */
  function Greet(room: Room, me: nat, name: Option<string>): (r: Room)
    requires me < |room.members|
    ensures |r.members| == |room.members| && Names(r.members) == Names(room.members)[me := name]
    ensures r.members[me].outbox == room.members[me].outbox + [Prompt]
    ensures forall j :: 0 <= j < |room.members| && j != me ==>
      r.members[j].outbox == room.members[j].outbox + [JoinNotice(name)]
    ensures r.log == room.log + [JoinNotice(name)]
  {
    var ms := Deliver(room.members, me, Prompt);
    Broadcast(Room(ms[me := ms[me].(name := name)], room.log), JoinNotice(name), Some(me))
  }

  /** `run` up to its `finally` block: greeting, then the read loop. */
  function Active(room: Room, me: nat, input: seq<string>): (n: Next)
    requires me < |room.members|
  {
    Lines(Greet(room, me, FirstLine(input)), me, Rest(input))
  }

  /** A whole session of member `me` reading `input`: `run`, then
      `removeClient` in its `finally` block. */
  function Lifecycle(room: Room, me: nat, input: seq<string>): Room
    requires me < |room.members|
  {
    var n := Active(room, me, input);
    Leave(n.room, Some(me), n.room.members[me].name)
  }

  /** During the session, member `k` receives: the sender the prompt then
      its replies, every other member the join notice then what it `Heard`;
      the log gains the join notice then the chat lines `Said`, and the
      session keeps its name. */
  lemma ActiveEffect(room: Room, me: nat, input: seq<string>)
    requires me < |room.members|
    ensures var name, lines := FirstLine(input), Rest(input);
      var names := Names(room.members)[me := name];
      var k := Reach(names, lines);
      var n := Active(room, me, input);
      |n.room.members| == |room.members| &&
      Names(n.room.members) == names &&
      n.room.log == room.log + [JoinNotice(name)] + Said(name, lines[..k]) &&
      n.room.members[me].outbox == room.members[me].outbox + [Prompt] + Heard(names, me, me, lines[..k]) &&
      forall j :: 0 <= j < |room.members| && j != me ==>
        n.room.members[j].outbox == room.members[j].outbox + [JoinNotice(name)] + Heard(names, me, j, lines[..k])
  {
    var name, lines := FirstLine(input), Rest(input);
    var greeted := Greet(room, me, name);
    assert greeted.members[me].name == name by {
      assert Names(greeted.members)[me] == name;
    }
    LinesEffect(greeted, me, lines);
  }

  /** The whole session: the member is removed and the others keep their
      order; each other member receives the join notice, what it `Heard`,
      and the leave notice; the log gains the join notice, the chat lines
      `Said` and the leave notice. */
  lemma LifecycleEffect(room: Room, me: nat, input: seq<string>)
    requires me < |room.members|
    ensures var name, lines := FirstLine(input), Rest(input);
      var names := Names(room.members)[me := name];
      var k := Reach(names, lines);
      var r := Lifecycle(room, me, input);
      |r.members| == |room.members| - 1 &&
      Names(r.members) == Names(room.members[..me] + room.members[me + 1..]) &&
      r.log == room.log + [JoinNotice(name)] + Said(name, lines[..k]) + [LeaveNotice(name)] &&
      forall j :: 0 <= j < |room.members| && j != me ==>
        r.members[if j < me then j else j - 1].outbox ==
        room.members[j].outbox + [JoinNotice(name)] + Heard(names, me, j, lines[..k]) + [LeaveNotice(name)]
  {
    var name, lines := FirstLine(input), Rest(input);
    var names := Names(room.members)[me := name];
    var k := Reach(names, lines);
    ActiveEffect(room, me, input);
    LeaveAfter(room, Active(room, me, input).room, me, name, names, lines[..k]);
  }

  /** The leave step of `Lifecycle`, for any room `n` the session left
      behind: `n` has the member's new name at `me`, the other names
      unchanged, and the join notice and chat lines on the log and in the
      other outboxes. */
  lemma LeaveAfter(room: Room, n: Room, me: nat, name: Option<string>,
                   names: seq<Option<string>>, heard: seq<string>)
    requires me < |room.members| && |n.members| == |room.members|
    requires names == Names(room.members)[me := name] && Names(n.members) == names
    requires n.log == room.log + [JoinNotice(name)] + Said(name, heard)
    requires forall j :: 0 <= j < |room.members| && j != me ==>
      n.members[j].outbox == room.members[j].outbox + [JoinNotice(name)] + Heard(names, me, j, heard)
    ensures var r := Leave(n, Some(me), n.members[me].name);
      |r.members| == |room.members| - 1 &&
      Names(r.members) == Names(room.members[..me] + room.members[me + 1..]) &&
      r.log == room.log + [JoinNotice(name)] + Said(name, heard) + [LeaveNotice(name)] &&
      forall j :: 0 <= j < |room.members| && j != me ==>
        r.members[if j < me then j else j - 1].outbox ==
        room.members[j].outbox + [JoinNotice(name)] + Heard(names, me, j, heard) + [LeaveNotice(name)]
  {
    assert n.members[me].name == name by {
      assert Names(n.members)[me] == name;
    }
    var r := Leave(n, Some(me), name);
    var rest := room.members[..me] + room.members[me + 1..];
    forall j | 0 <= j < |rest|
      ensures r.members[j].name == rest[j].name
    {
      var i := if j < me then j else j + 1;
      assert rest[j] == room.members[i];
      assert n.members[i].name == Names(n.members)[i] == names[i];
    }
  }

  /** Once the read loop has thrown, later lines change nothing. */
  lemma {:induction false} LinesStop(room: Room, me: nat, lines: seq<string>, i: nat)
    requires me < |room.members| && i <= |lines|
    requires !Lines(room, me, lines[..i]).ok
    ensures Lines(room, me, lines) == Lines(room, me, lines[..i])
    decreases |lines| - i
  {
    if i < |lines| {
      assert lines[..i + 1][..i] == lines[..i];
      LinesStop(room, me, lines, i + 1);
    } else {
      assert lines[..i] == lines;
    }
  }

  /** The read loop's result once it has read every line or thrown. */
  lemma LinesDone(room: Room, me: nat, lines: seq<string>, i: nat)
    requires me < |room.members| && i <= |lines|
    requires i == |lines| || !Lines(room, me, lines[..i]).ok
    ensures Lines(room, me, lines) == Lines(room, me, lines[..i])
  {
    if i == |lines| {
      assert lines[..i] == lines;
    } else {
      LinesStop(room, me, lines, i);
    }
  }

  /** A `/users` line always reaches `getUserList` with the sender still
      registered, so the reply lists names and the bare `"Connected users"`
      of an empty registry is never sent. */
  lemma UsersReplyListsNames(names: seq<Option<string>>, me: nat, k: nat, line: string)
    requires me < |names| && Parse(line) == ListUsers
    ensures Inbox(names, me, k, line) == if k == me then [RosterLabel + JoinWith(Texts(names), ", ")] else []
  {
  }
}
