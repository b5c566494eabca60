/// How `ClientHandler.run` classifies each line a client sends after its name.
module Commands {
  import opened JavaStrings

  const PrivatePrefix := "/pm "
  const UsersCommand := "/users"

  /** The three kinds of client lines, with a private message's recipient and text. */
  datatype Command =
    | Private(recipient: string, text: string)
    | MalformedPrivate
    | ListUsers
    | Chat

  /** The branch `run` takes for one line: a line starting with `/pm ` is
      split on single spaces with limit 3 and is a private message when that
      gives three parts; otherwise a line equal to `/users` up to case asks
      for the roster; every other line is chat to broadcast. */
  function Parse(line: string): Command
  {
    if StartsWith(line, PrivatePrefix) then
      var parts := Split(line, ' ', 3);
      if |parts| == 3 then Private(parts[1], parts[2]) else MalformedPrivate
    else if EqualsIgnoreCase(line, UsersCommand) then ListUsers
    else Chat
  }

  /** After the `/pm ` prefix, the split sees `/pm` then the rest of the line. */
  lemma PrivateSplit(line: string)
    requires StartsWith(line, PrivatePrefix)
    ensures Split(line, ' ', 3) == ["/pm"] + Split(line[4..], ' ', 2)
  {
    assert line[..4] == "/pm ";
    assert line[3] == ' ' && line[0] != ' ' && line[1] != ' ' && line[2] != ' ';
    assert IndexOf(line, ' ') == 3;
    assert line[..3] == "/pm";
  }

  /** A line that reads `/pm r t`, with no space inside `r`, is a private
      message to `r` with text `t`. */
  lemma PrivateIntro(line: string, r: string, t: string)
    requires line == PrivatePrefix + r + " " + t && ' ' !in r
    ensures Parse(line) == Private(r, t)
  {
    assert line[..4] == PrivatePrefix;
    var rest := line[4..];
    assert rest == r + " " + t;
    assert JoinWith([r, t], [' ']) == rest;
    SplitUnique(rest, ' ', 2, [r, t]);
    PrivateSplit(line);
    assert Split(line, ' ', 3) == ["/pm", r, t];
  }

  /** Two parts from a split with limit 2 are the text before the first
      space and the text after it. */
  lemma SplitInTwo(rest: string, r: string, t: string)
    requires Split(rest, ' ', 2) == [r, t]
    ensures rest == r + " " + t && ' ' !in r
  {
    SplitFields(rest, ' ', 2);
    assert JoinWith([r, t], [' ']) == r + " " + t;
  }

  /** A private message to `r` with text `t` came from a line `/pm r t`
      with no space inside `r`. */
  lemma PrivateElim(line: string, r: string, t: string)
    requires Parse(line) == Private(r, t)
    ensures line == PrivatePrefix + r + " " + t && ' ' !in r
  {
    assert StartsWith(line, PrivatePrefix);
    PrivateSplit(line);
    assert Split(line[4..], ' ', 2) == [r, t];
    PrivateRest(line, r, t);
  }

  /** The text after the `/pm ` prefix, split in two, rebuilds the line. */
  lemma PrivateRest(line: string, r: string, t: string)
    requires StartsWith(line, PrivatePrefix) && Split(line[4..], ' ', 2) == [r, t]
    ensures line == PrivatePrefix + r + " " + t && ' ' !in r
  {
    SplitInTwo(line[4..], r, t);
    assert line == line[..4] + line[4..];
  }

  /** A line is a private message to `r` with text `t` exactly when it reads
      `/pm r t` with no space inside `r`; the text keeps its own spaces and
      may be empty. */
  lemma ParsePrivate(line: string, r: string, t: string)
    ensures Parse(line) == Private(r, t) <==> line == PrivatePrefix + r + " " + t && ' ' !in r
  {
    if line == PrivatePrefix + r + " " + t && ' ' !in r {
      PrivateIntro(line, r, t);
    }
    if Parse(line) == Private(r, t) {
      PrivateElim(line, r, t);
    }
  }

  /** A line is a malformed private message exactly when it starts with
      `/pm ` and no space follows the prefix (so `/pm Bob` and `/pm `). */
  lemma ParseMalformed(line: string)
    ensures Parse(line) == MalformedPrivate <==> StartsWith(line, PrivatePrefix) && ' ' !in line[4..]
  {
    if StartsWith(line, PrivatePrefix) {
      PrivateSplit(line);
      var rest := Split(line[4..], ' ', 2);
      SplitFields(line[4..], ' ', 2);
      if ' ' !in line[4..] {
        assert IndexOf(line[4..], ' ') == |line[4..]|;
      }
    }
  }

  /** A line asks for the roster exactly when it equals `/users` up to case. */
  lemma ParseListUsers(line: string)
    ensures Parse(line) == ListUsers <==> EqualsIgnoreCase(line, UsersCommand)
  {
    if EqualsIgnoreCase(line, UsersCommand) {
      assert Fold(line[1]) == 'u';
      assert line[1] != 'p';
    }
  }

  /** Extra words after the recipient stay in the text. */
  lemma SampleExtraWords()
    ensures Parse("/pm a b c d") == Private("a", "b c d")
  {
    PrivateIntro("/pm a b c d", "a", "b c d");
  }

  /** A trailing space after the recipient gives an empty text. */
  lemma SampleEmptyText()
    ensures Parse("/pm Bob ") == Private("Bob", "")
  {
    PrivateIntro("/pm Bob ", "Bob", "");
  }

  /** A recipient with no text after it is malformed. */
  lemma SampleMissingText()
    ensures Parse("/pm Bob") == MalformedPrivate
  {
    var line := "/pm Bob";
    assert line[..4] == PrivatePrefix && line[4..] == "Bob";
    ParseMalformed(line);
  }

  /** The `/pm ` prefix is case-sensitive, `/users` is not, and other
      slash-words are plain chat. */
  lemma SampleCase()
    ensures Parse("/PM x y") == Chat
    ensures Parse("/USERS") == ListUsers
    ensures Parse("/exit") == Chat
  {
    assert "/PM x y"[1] != PrivatePrefix[1];
    assert "/USERS"[1] != PrivatePrefix[1];
    assert EqualsIgnoreCase("/USERS", UsersCommand);
    assert "/exit"[1] != PrivatePrefix[1];
    assert Fold("/exit"[1]) != Fold(UsersCommand[1]);
  }
}
