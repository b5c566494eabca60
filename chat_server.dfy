/// `ChatServer` and its `ClientHandler`s as objects updated in place: the
/// registry of handlers, each handler's name and output, and the log file.
/// Every operation is proved to act on `View()` as the function of the same
/// name in module `Routing` says.
module ChatServer {
  import opened Options
  import opened JavaStrings
  import opened Commands
  import opened Routing

  /** A `ClientHandler`: its name (null until `run` reads it) and the lines
      written to its socket. */
  class Session {
    var name: Option<string>
    var outbox: seq<string>

    constructor ()
      ensures name == None && outbox == []
    {
      name := None;
      outbox := [];
    }

    /** `sendMessage(m)`: one line written to this client. */
    method Send(m: string)
      modifies this
      ensures name == old(name) && outbox == old(outbox) + [m]
    {
      outbox := outbox + [m];
    }
  }

  /** Where handler `h` is in the registry's iteration order, if anywhere. */
  function Position(ss: seq<Session>, h: Session?): (p: Option<nat>)
    ensures p.Some? ==> p.value < |ss| && ss[p.value] == h
    ensures p.None? ==> h !in ss
  {
    if ss == [] then None
    else if ss[|ss| - 1] == h then Some(|ss| - 1)
    else Position(ss[..|ss| - 1], h)
  }

  /** Taking the handler at `p` out of a registry that holds each handler
      once leaves every other handler, each still once. */
  lemma RemovedAt(ss: seq<Session>, p: nat)
    requires p < |ss|
    requires forall i, j :: 0 <= i < j < |ss| ==> ss[i] != ss[j]
    ensures var rest := ss[..p] + ss[p + 1..];
      (forall i, j :: 0 <= i < j < |rest| ==> rest[i] != rest[j]) &&
      (forall s :: s in rest <==> s in ss && s != ss[p])
  {
    var rest := ss[..p] + ss[p + 1..];
    assert forall i :: 0 <= i < |rest| ==> rest[i] == ss[if i < p then i else i + 1];
    forall s | s in ss && s != ss[p]
      ensures s in rest
    {
      var i :| 0 <= i < |ss| && ss[i] == s;
      assert rest[if i < p then i else i - 1] == s;
    }
  }

  /** The static state of `ChatServer`: `clientHandlers`, in its iteration
      order, and the lines of the log file. */
  class Server {
    var members: seq<Session>
    var log: seq<string>

    /** A set holds each handler once. */
    ghost predicate Valid()
      reads this
    {
      forall i, j :: 0 <= i < j < |members| ==> members[i] != members[j]
    }

    /** The registry and log as a value, for the functions of `Routing`. */
    ghost function View(): Room
      reads this, members
    {
      Room(seq(|members|, i reads this, members requires 0 <= i < |members| =>
             Member(members[i].name, members[i].outbox)), log)
    }

    constructor ()
      ensures Valid() && members == [] && log == []
    {
      members := [];
      log := [];
    }

    /** Lines 21-22 of `main`: a new handler, not yet named, joins the
        registry at the place `pos` its hash gives it. */
    method Accept(pos: nat) returns (h: Session)
      requires Valid() && pos <= |members|
      modifies this
      ensures Valid() && fresh(h)
      ensures members == old(members)[..pos] + [h] + old(members)[pos..] && log == old(log)
      ensures View() == Admit(old(View()), pos)
    {
      h := new Session();
      members := members[..pos] + [h] + members[pos..];
      assert View().members == old(View()).members[..pos] + [Member(None, [])] + old(View()).members[pos..];
    }

    /** The loop of `broadcastMessage`: `m` to every handler but `sender`. */
    method SendAll(m: string, sender: Session?)
      requires Valid()
      modifies members
      ensures forall j :: 0 <= j < |members| ==>
        members[j].name == old(members[j].name) &&
        members[j].outbox == old(members[j].outbox) + (if members[j] != sender then [m] else [])
    {
      var i := 0;
      while i < |members|
        invariant 0 <= i <= |members|
        invariant forall j :: 0 <= j < |members| ==> members[j].name == old(members[j].name)
        invariant forall j :: 0 <= j < |members| ==>
          members[j].outbox == old(members[j].outbox) + (if j < i && members[j] != sender then [m] else [])
      {
        if members[i] != sender {
          members[i].Send(m);
        }
        i := i + 1;
      }
    }

    /** `broadcastMessage(m, sender)`: the loop, then the log line. */
    method BroadcastMessage(m: string, sender: Session?)
      requires Valid()
      modifies this`log, members
      ensures Valid() && members == old(members)
      ensures View() == Routing.Broadcast(old(View()), m, Position(members, sender))
    {
      ghost var before, ex := View(), Position(members, sender);
      SendAll(m, sender);
      log := log + [m];
      forall j | 0 <= j < |members|
        ensures View().members[j].name == before.members[j].name
        ensures View().members[j].outbox == before.members[j].outbox + (if ex == Some(j) then [] else [m])
      {
        assert (members[j] != sender) == (ex != Some(j));
      }
      BroadcastUnique(before, View(), m, ex);
    }

    /** The search loop of `sendPrivateMessage`: the first handler whose
        name equals `recipient` up to case, unless an unnamed handler comes
        first. */
    method FindRecipient(recipient: string) returns (m: Match)
      ensures m == Lookup(Names(View().members), recipient)
    {
      ghost var names := Names(View().members);
      var i := 0;
      while i < |members|
        invariant 0 <= i <= |members|
        invariant Scan(names, recipient, i) == Lookup(names, recipient)
      {
        var n := members[i].name;
        if n.None? {
          return Unnamed(i);
        }
        if EqualsIgnoreCase(n.value, recipient) {
          return Found(i);
        }
        i := i + 1;
      }
      return NotFound;
    }

    /** `sendMessage(m)` on the handler `h` found at `at` in the registry. */
    method Notify(h: Session, ghost at: nat, m: string)
      requires Valid() && at < |members| && members[at] == h
      modifies members
      ensures Valid() && members == old(members) && log == old(log)
      ensures View() == Room(Deliver(old(View()).members, at, m), log)
    {
      h.Send(m);
      assert View().members == Deliver(old(View()).members, at, m);
    }

    /** `sendPrivateMessage(recipient, text, sender)`; `ok` is false where
        Java throws `NullPointerException`. */
    method SendPrivateMessage(recipient: string, text: string, sender: Session) returns (ok: bool)
      requires Valid() && sender in members
      modifies members
      ensures Valid() && members == old(members) && log == old(log)
      ensures Next(View(), ok) == PrivateMessage(old(View()), recipient, text, Position(members, sender).value)
    {
      ghost var me := Position(members, sender).value;
      var found := FindRecipient(recipient);
      match found {
        case Found(i) =>
          Notify(members[i], i, PrivateIn(sender.name, text));
          Notify(sender, me, PrivateEcho(recipient, text));
          ok := true;
        case NotFound =>
          Notify(sender, me, NotFoundNotice(recipient));
          ok := true;
        case Unnamed(_) =>
          ok := false;
      }
    }

    /** `getUserList()`: a builder starting with the label gets each name
        and `", "`, then loses its last two characters. */
    method GetUserList() returns (s: string)
      ensures s == Roster(Names(View().members))
    {
      ghost var names := Names(View().members);
      var builder := RosterLabel;
      var i := 0;
      while i < |members|
        invariant 0 <= i <= |members|
        invariant builder == RosterLabel + Appended(names[..i])
      {
        assert names[..i + 1][..i] == names[..i];
        builder := builder + Text(members[i].name) + ", ";
        i := i + 1;
      }
      assert names[..i] == names;
      if |builder| > 0 {
        builder := builder[..|builder| - 2];
      }
      s := builder;
    }

    /** `removeClient(h)`: out of the registry first, then the leave notice
        to everyone left. */
    method RemoveClient(h: Session)
      requires Valid()
      modifies this, members
      ensures Valid() && h !in members
      ensures forall s :: s in members <==> s in old(members) && s != h
      ensures members == if h in old(members)
        then old(members)[..Position(old(members), h).value] + old(members)[Position(old(members), h).value + 1..]
        else old(members)
      ensures h.outbox == old(h.outbox) && h.name == old(h.name)
      ensures View() == Leave(old(View()), Position(old(members), h), old(h.name))
    {
      ghost var start := View();
      var p := Position(members, h);
      if p.Some? {
        RemovedAt(members, p.value);
        members := members[..p.value] + members[p.value + 1..];
        assert View().members == Without(start.members, p);
      } else {
        assert View().members == Without(start.members, p);
      }
      assert View() == Room(Without(start.members, p), start.log);
      BroadcastMessage(LeaveNotice(h.name), null);
      assert Position(members, null) == None;
    }

    /** The start of `run` (lines 103-106): the name prompt, the first line
        read as the name, and the join notice to everyone else. */
    method Handshake(h: Session, first: Option<string>)
      requires Valid() && h in members
      modifies this`log, members
      ensures Valid() && members == old(members)
      ensures View() == Greet(old(View()), Position(members, h).value, first)
    {
      ghost var me := Position(members, h).value;
      h.Send(Prompt);
      h.name := first;
      ghost var ms := Deliver(old(View()).members, me, Prompt);
      assert View() == Room(ms[me := ms[me].(name := first)], log);
      BroadcastMessage(JoinNotice(h.name), h);
    }

    /** One pass of `run`'s read loop (lines 111-125) for handler `h`; `ok`
        is false when the private-message search throws. */
    method Dispatch(h: Session, line: string) returns (ok: bool)
      requires Valid() && h in members
      modifies this`log, members
      ensures Valid() && members == old(members)
      ensures Next(View(), ok) == Step(old(View()), Position(members, h).value, line)
    {
      ghost var me := Position(members, h).value;
      match Parse(line) {
        case Private(r, t) =>
          ok := SendPrivateMessage(r, t, h);
        case MalformedPrivate =>
          h.Send(Usage);
          ok := true;
          assert View().members == Deliver(old(View()).members, me, Usage);
        case ListUsers =>
          var roster := GetUserList();
          h.Send(roster);
          ok := true;
          assert View().members == Deliver(old(View()).members, me, roster);
        case Chat =>
          BroadcastMessage(ChatLine(h.name, line), h);
          ok := true;
      }
    }

    /** The read loop of `run` (lines 110-126) for handler `h` over the
        lines its client sends after the name; it stops early when a pass
        throws. */
    method ReadLoop(h: Session, lines: seq<string>) returns (ok: bool)
      requires Valid() && h in members
      modifies this`log, members
      ensures Valid() && members == old(members)
      ensures Next(View(), ok) == Lines(old(View()), Position(members, h).value, lines)
    {
      ghost var me, start := Position(members, h).value, View();
      var i := 0;
      ok := true;
      while i < |lines| && ok
        invariant 0 <= i <= |lines|
        invariant Valid() && members == old(members)
        invariant Next(View(), ok) == Lines(start, me, lines[..i])
      {
        ghost var prev := View();
        assert lines[..i + 1][..i] == lines[..i];
        assert Lines(start, me, lines[..i + 1]) == Step(prev, me, lines[i]);
        ok := Dispatch(h, lines[i]);
        i := i + 1;
      }
      LinesDone(start, me, lines, i);
    }

    /** The `try` block of `ClientHandler.run` (lines 103-126) for handler
        `h` whose client sends `input`: the handshake with the first line as
        the name, then the read loop over the rest. */
    method Serve(h: Session, input: seq<string>)
      requires Valid() && h in members
      modifies this`log, members
      ensures Valid() && members == old(members)
      ensures View() == Active(old(View()), Position(members, h).value, input).room
      ensures h.name == FirstLine(input)
    {
      ghost var me, start := Position(members, h).value, View();
      Handshake(h, if |input| > 0 then Some(input[0]) else None);
      ghost var greeted := View();
      assert greeted == Greet(start, me, FirstLine(input));
      assert Names(greeted.members)[me] == FirstLine(input);
      var lines := if |input| > 0 then input[1..] else [];
      assert lines == Rest(input);
      var ok := ReadLoop(h, lines);
      assert members[me] == h;
      assert View().members[me].name == h.name;
      assert Names(View().members)[me] == Names(greeted.members)[me];
    }

    /** The `finally` block of `ClientHandler.run` (line 136): handler
        `h`, at `me`, leaves the registry `active` that the `try` block left. */
    method Finish(h: Session, ghost active: Room, ghost me: nat)
      requires Valid() && me < |members| && members[me] == h && View() == active
      modifies this, members
      ensures Valid() && h !in members
      ensures forall s :: s in members <==> s in old(members) && s != h
      ensures members == old(members)[..me] + old(members)[me + 1..]
      ensures View() == Leave(active, Some(me), active.members[me].name)
      ensures h.outbox == old(h.outbox) && h.name == old(h.name)
    {
      assert Position(members, h) == Some(me);
      assert active.members[me].name == h.name;
      RemoveClient(h);
    }

    /** `ClientHandler.run` for handler `h`, at `me` in the registry,
        whose client sends `input`: the `try` block, then `removeClient` in
        the `finally` block, at end of input or when the read loop throws. */
    method RunAt(h: Session, input: seq<string>, ghost me: nat)
      requires Valid() && me < |members| && members[me] == h
      modifies this, members
      ensures Valid() && h !in members
      ensures forall s :: s in members <==> s in old(members) && s != h
      ensures members == old(members)[..me] + old(members)[me + 1..]
      ensures View() == Lifecycle(old(View()), me, input)
      ensures h.outbox == Active(old(View()), me, input).room.members[me].outbox
      ensures h.name == FirstLine(input)
    {
      ghost var start := View();
      assert Position(members, h) == Some(me);
      Serve(h, input);
      assert members[me] == h;
      assert View().members[me].outbox == h.outbox;
      ghost var active := View();
      Finish(h, active, me);
      assert Lifecycle(start, me, input) == Leave(active, Some(me), active.members[me].name);
    }

    /** `ClientHandler.run` for handler `h` whose client sends `input`. */
    method Run(h: Session, input: seq<string>)
      requires Valid() && h in members
      modifies this, members
      ensures Valid() && h !in members
      ensures forall s :: s in members <==> s in old(members) && s != h
      ensures members == old(members)[..Position(old(members), h).value] + old(members)[Position(old(members), h).value + 1..]
      ensures View() == Lifecycle(old(View()), Position(old(members), h).value, input)
      ensures h.outbox == Active(old(View()), Position(old(members), h).value, input).room.members[Position(old(members), h).value].outbox
      ensures h.name == FirstLine(input)
    {
      RunAt(h, input, Position(members, h).value);
    }
  }
}
