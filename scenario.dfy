/// A two-client session traced through the routing functions: Alice joins,
/// Bob joins, Alice chats and writes to Bob privately, Bob leaves. Each
/// lemma takes the room of the previous one to the next.
module Scenario {
  import opened Options
  import opened JavaStrings
  import opened Commands
  import opened Routing

  const Alice: Option<string> := Some("Alice")
  const Bob: Option<string> := Some("Bob")

  /** Alice named and alone, prompted; her join notice went to no one. */
  const AliceIn := Room([Member(Alice, [Prompt])], ["Alice has joined the chat."])

  /** Both named; Alice saw Bob's join notice, Bob did not see his own. */
  const BothIn := Room(
    [Member(Alice, [Prompt, "Bob has joined the chat."]), Member(Bob, [Prompt])],
    ["Alice has joined the chat.", "Bob has joined the chat."])

  /** After Alice's `hi`. */
  const AfterHi := Room(
    [Member(Alice, [Prompt, "Bob has joined the chat."]), Member(Bob, [Prompt, "Alice: hi"])],
    BothIn.log + ["Alice: hi"])

  /** After Alice's private message to Bob: nothing logged. */
  const AfterWhisper := Room(
    [Member(Alice, [Prompt, "Bob has joined the chat.", "[Private to Bob] hello there"]),
     Member(Bob, [Prompt, "Alice: hi", "[Private] Alice: hello there"])],
    AfterHi.log)

  /** After Bob's session ends: only Alice is left, told that Bob left. */
  const AfterBobLeft := Room(
    [Member(Alice, [Prompt, "Bob has joined the chat.", "[Private to Bob] hello there", "Bob has left the chat."])],
    AfterHi.log + ["Bob has left the chat."])

  /** The join notices of Alice and Bob, as the clients see them. */
  lemma JoinLines()
    ensures JoinNotice(Alice) == "Alice has joined the chat."
    ensures JoinNotice(Bob) == "Bob has joined the chat."
  {
  }

  lemma AliceJoins()
    ensures Greet(Admit(Room([], []), 0), 0, Alice) == AliceIn
  {
    JoinLines();
    var admitted := Admit(Room([], []), 0);
    assert admitted.members == [Member(None, [])];
    var alice := Greet(admitted, 0, Alice);
    assert alice.members[0].name == Names(alice.members)[0] == Alice;
    assert alice.members[0].outbox == [Prompt];
    assert alice.members == AliceIn.members;
  }

  lemma BobJoins()
    ensures Greet(Admit(AliceIn, 1), 1, Bob) == BothIn
  {
    JoinLines();
    var admitted := Admit(AliceIn, 1);
    assert admitted.members == [Member(Alice, [Prompt]), Member(None, [])];
    var both := Greet(admitted, 1, Bob);
    assert both.members[0].name == Names(both.members)[0] == Alice;
    assert both.members[1].name == Names(both.members)[1] == Bob;
    assert both.members[0] == BothIn.members[0];
    assert both.members[1] == BothIn.members[1];
    assert both.members == BothIn.members;
  }

  lemma AliceSaysHi()
    ensures Step(BothIn, 0, "hi") == Next(AfterHi, true)
  {
    assert Parse("hi") == Chat by {
      assert !EqualsIgnoreCase("hi", UsersCommand);
    }
    assert ChatLine(Alice, "hi") == "Alice: hi";
    var n := Step(BothIn, 0, "hi");
    assert n.room.members[0].name == Names(n.room.members)[0] == Alice;
    assert n.room.members[1].name == Names(n.room.members)[1] == Bob;
    assert n.room.members[0] == AfterHi.members[0];
    assert n.room.members[1] == AfterHi.members[1];
    assert n.room.members == AfterHi.members;
  }

  lemma BobIsFound()
    ensures Lookup(Names(AfterHi.members), "Bob") == Found(1)
  {
    var names := Names(AfterHi.members);
    assert names == [Alice, Bob];
    assert EqualsIgnoreCase("Bob", "Bob");
    assert Scan(names, "Bob", 1) == Found(1);
    assert !EqualsIgnoreCase("Alice", "Bob");
    assert Scan(names, "Bob", 0) == Scan(names, "Bob", 1);
  }

  /** The two lines of Alice's private message, as the clients see them. */
  lemma WhisperLines()
    ensures PrivateIn(Alice, "hello there") == "[Private] Alice: hello there"
    ensures PrivateEcho("Bob", "hello there") == "[Private to Bob] hello there"
  {
  }

  lemma BobGetsWhisper()
    ensures PrivateMessage(AfterHi, "Bob", "hello there", 0) == Next(AfterWhisper, true)
  {
    BobIsFound();
    WhisperLines();
    var n := PrivateMessage(AfterHi, "Bob", "hello there", 0);
    assert n.room.members[0] == AfterWhisper.members[0];
    assert n.room.members[1] == AfterWhisper.members[1];
    assert n.room.members == AfterWhisper.members;
  }

  lemma AliceWhispersToBob()
    ensures Step(AfterHi, 0, "/pm Bob hello there") == Next(AfterWhisper, true)
  {
    PrivateIntro("/pm Bob hello there", "Bob", "hello there");
    BobGetsWhisper();
  }

  lemma BobLeaves()
    ensures Leave(AfterWhisper, Some(1), Bob) == AfterBobLeft
  {
    assert LeaveNotice(Bob) == "Bob has left the chat.";
    var r := Leave(AfterWhisper, Some(1), Bob);
    assert r.members[0] == AfterBobLeft.members[0];
    assert r.members == AfterBobLeft.members;
  }

  /** A handler accepted but not yet named sits before Bob in iteration
      order: Alice's `/pm Bob hi` throws before reaching Bob, no one receives
      anything, and her read loop ends there. */
  lemma UnnamedBeforeBob()
    ensures var room := Room([Member(None, []), Member(Bob, []), Member(Alice, [])], []);
      Step(room, 2, "/pm Bob hi") == Next(room, false)
  {
    var room := Room([Member(None, []), Member(Bob, []), Member(Alice, [])], []);
    PrivateIntro("/pm Bob hi", "Bob", "hi");
    assert Names(room.members)[0] == None;
    assert Lookup(Names(room.members), "Bob") == Unnamed(0);
  }
}
