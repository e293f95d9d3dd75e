/** The turn loop of `vicuna_chat`: read a request, wrap it with retrieved documentation, add it
    and an empty assistant slot to the conversation, stream the answer, and store the stripped
    answer in that slot. Retrieval, prompt rendering and generation are outside this module and
    enter as functions. */
module VicunaChat {
  import opened Results
  import opened PyStr
  import opened SimpleChatIO
  import opened ChatPrompt

  /** One entry of `conv.messages`: a role and its text, `None` while the answer is pending. */
  datatype Message = Message(role: string, text: Option<string>)

  /** The conversation being extended; `roles.0` is the user, `roles.1` the assistant. */
  class Conversation {
    const roles: (string, string)
    var messages: seq<Message>

    constructor(roles: (string, string), messages: seq<Message>)
      ensures this.roles == roles && this.messages == messages
    {
      this.roles := roles;
      this.messages := messages;
    }

    /** `append_message(role, text)`. */
    method AppendMessage(role: string, text: Option<string>)
      modifies this
      ensures messages == old(messages) + [Message(role, text)]
    {
      messages := messages + [Message(role, text)];
    }

    /** `messages[-1][-1] = text`: the last entry keeps its role and gets the text. */
    method SetLastText(text: string)
      requires messages != []
      modifies this
      ensures messages == old(messages)[..|old(messages)| - 1] + [Message(old(messages)[|old(messages)| - 1].role, Some(text))]
    {
      var last := |messages| - 1;
      messages := messages[..last] + [Message(messages[last].role, Some(text))];
    }
  }

  /** The console line a turn reads: `input()` raising `EOFError` (`None`) counts as empty. */
  function ReadLine(line: Option<string>): (r: string)
    ensures line.Some? ==> r == line.value
    ensures r == "" <==> line.None? || line.value == ""
  {
    match line
    case None => ""
    case Some(text) => text
  }

  /** How a turn ends: the user left, an answer was stored, or the answer stream raised. */
  datatype TurnOutcome = Exited | Answered(reply: string) | Crashed(error: PyError)

  /** The messages after an accepted turn: the wrapped request, then the assistant's entry. */
  function TurnMessages(history: seq<Message>, roles: (string, string), request: string, reply: Option<string>): (ms: seq<Message>)
    ensures |ms| == |history| + 2 && ms[..|history|] == history
    ensures ms[|history|] == Message(roles.0, Some(request)) && ms[|history| + 1] == Message(roles.1, reply)
  {
    history + [Message(roles.0, Some(request)), Message(roles.1, reply)]
  }

  /** Setting the text of the pending assistant entry gives the answered turn. */
  lemma TurnAnswered(history: seq<Message>, roles: (string, string), request: string, reply: string)
    ensures var pending := TurnMessages(history, roles, request, None);
      pending[..|pending| - 1] + [Message(pending[|pending| - 1].role, Some(reply))]
        == TurnMessages(history, roles, request, Some(reply))
  {
    var pending := TurnMessages(history, roles, request, None);
    assert pending[..|pending| - 1] == history + [Message(roles.0, Some(request))];
  }

  /** The user and the assistant take turns, the user first, and every exchange is complete. */
  predicate Alternates(ms: seq<Message>, roles: (string, string)) {
    |ms| % 2 == 0 && forall k :: 0 <= k < |ms| ==> ms[k].role == (if k % 2 == 0 then roles.0 else roles.1)
  }

  /** A turn keeps the conversation alternating and leaves every earlier entry as it was. */
  lemma TurnKeepsAlternation(history: seq<Message>, roles: (string, string), request: string, reply: Option<string>)
    requires Alternates(history, roles)
    ensures Alternates(TurnMessages(history, roles, request, reply), roles)
  {
    var ms := TurnMessages(history, roles, request, reply);
    var n := |history|;
    forall k | 0 <= k < |ms| ensures ms[k].role == (if k % 2 == 0 then roles.0 else roles.1) {
      if k < n {
        assert ms[k] == ms[..n][k] == history[k];
      } else if k == n {
        assert k % 2 == 0;
      } else {
        assert k == n + 1 && k % 2 == 1;
      }
    }
  }

  /** What one turn leaves: how it ended, the conversation's messages, and the console chunks. */
  datatype TurnState = TurnState(outcome: TurnOutcome, messages: seq<Message>, printed: seq<string>)

  /** One iteration of the `while True` loop as a function of the conversation before it: an empty
      line ends the session; otherwise the wrapped request and an assistant slot are added, and
      the slot gets the stripped answer unless the stream is empty, which raises. */
  function Turn(history: seq<Message>, roles: (string, string), line: Option<string>, retrieve: string -> string,
                render: seq<Message> -> string, generate: string -> seq<string>): (t: TurnState)
    ensures t.outcome == Exited <==> ReadLine(line) == ""
    ensures t.outcome == Exited ==> t.messages == history
    ensures t.outcome != Exited ==>
      |t.messages| == |history| + 2 &&
      t.messages == TurnMessages(history, roles, ChatInput(ReadLine(line), retrieve(ReadLine(line))),
        t.messages[|history| + 1].text)
    ensures t.outcome.Crashed? ==>
      t.outcome.error == UnboundLocalError("outputs") && t.messages[|history| + 1].text == None
    ensures t.outcome.Answered? ==>
      t.messages[|history| + 1].text == Some(t.outcome.reply) && Trimmed(t.outcome.reply)
  {
    var inp := ReadLine(line);
    if inp == "" then TurnState(Exited, history, [RoleLabel(roles.0), "exit...\n"])
    else
      var request := ChatInput(inp, retrieve(inp));
      var pending := TurnMessages(history, roles, request, None);
      var prompt := render(pending);
      var stream := generate(prompt);
      var printed := [RoleLabel(roles.0), RoleLabel(roles.1)] + Printed(stream, SkipEchoLen(prompt));
      if stream == [] then TurnState(Crashed(UnboundLocalError("outputs")), pending, printed)
      else
        var reply := Reply(stream, SkipEchoLen(prompt));
        TurnState(Answered(reply), TurnMessages(history, roles, request, Some(reply)), printed)
  }

  /** A turn on a non-empty line, step by step: the wrapped request, the pending messages, the
      rendered prompt and the stream generated from it decide the turn. */
  lemma TurnSteps(history: seq<Message>, roles: (string, string), line: Option<string>, retrieve: string -> string,
                  render: seq<Message> -> string, generate: string -> seq<string>,
                  request: string, pending: seq<Message>, prompt: string, stream: seq<string>)
    requires ReadLine(line) != "" && request == ChatInput(ReadLine(line), retrieve(ReadLine(line)))
    requires pending == TurnMessages(history, roles, request, None)
    requires prompt == render(pending) && stream == generate(prompt)
    ensures stream == [] ==>
      Turn(history, roles, line, retrieve, render, generate) ==
        TurnState(Crashed(UnboundLocalError("outputs")), pending,
          [RoleLabel(roles.0), RoleLabel(roles.1)] + Printed(stream, SkipEchoLen(prompt)))
    ensures stream != [] ==>
      Turn(history, roles, line, retrieve, render, generate) ==
        TurnState(Answered(Reply(stream, SkipEchoLen(prompt))),
          TurnMessages(history, roles, request, Some(Reply(stream, SkipEchoLen(prompt)))),
          [RoleLabel(roles.0), RoleLabel(roles.1)] + Printed(stream, SkipEchoLen(prompt)))
  {
  }

  /** A turn on a non-empty line raises exactly when the stream generated for its prompt is
      empty; otherwise its answer is that stream's reply. Either way it writes the two role labels
      and then what `stream_output` writes for that stream. */
  lemma TurnFollowsStream(history: seq<Message>, roles: (string, string), line: Option<string>,
                          retrieve: string -> string, render: seq<Message> -> string,
                          generate: string -> seq<string>)
    requires ReadLine(line) != ""
    ensures var request := ChatInput(ReadLine(line), retrieve(ReadLine(line)));
      var prompt := render(TurnMessages(history, roles, request, None));
      var stream := generate(prompt);
      var t := Turn(history, roles, line, retrieve, render, generate);
      && (t.outcome.Crashed? <==> stream == [])
      && (stream != [] ==> t.outcome == Answered(Reply(stream, SkipEchoLen(prompt))))
      && t.printed == [RoleLabel(roles.0), RoleLabel(roles.1)] + Printed(stream, SkipEchoLen(prompt))
  {
  }

  /** One iteration of the `while True` loop. On an empty line it writes `exit...` and changes
      nothing. Otherwise it appends the wrapped request and an empty assistant entry, writes the
      assistant's label and the streamed answer, and stores the answer, stripped, as the last
      entry's text; when the stream yields nothing the answer fails and the entry stays empty. */
  method ChatTurn(conv: Conversation, line: Option<string>, retrieve: string -> string,
                  render: seq<Message> -> string, generate: string -> seq<string>)
    returns (outcome: TurnOutcome, printed: seq<string>)
    modifies conv
    ensures TurnState(outcome, conv.messages, printed) == Turn(old(conv.messages), conv.roles, line, retrieve, render, generate)
    ensures outcome == Exited <==> ReadLine(line) == ""
  {
    printed := [RoleLabel(conv.roles.0)];
    var inp := ReadLine(line);
    if inp == "" {
      printed := printed + ["exit...\n"];
      return Exited, printed;
    }
    var docs := retrieve(inp);
    var request := ChatInput(inp, docs);
    conv.AppendMessage(conv.roles.0, Some(request));
    conv.AppendMessage(conv.roles.1, None);
    ghost var pending := TurnMessages(old(conv.messages), conv.roles, request, None);
    assert conv.messages == pending;
    var prompt := render(conv.messages);
    var skipEchoLen := SkipEchoLen(prompt);
    printed := printed + [RoleLabel(conv.roles.1)];
    var stream := generate(prompt);
    var out;
    outcome, out := StreamAnswer(conv, stream, skipEchoLen);
    printed := printed + out;
    TurnSteps(old(conv.messages), conv.roles, line, retrieve, render, generate, request, pending, prompt, stream);
    if stream != [] {
      var reply := Reply(stream, skipEchoLen);
      assert outcome == Answered(reply);
      TurnAnswered(old(conv.messages), conv.roles, request, reply);
      assert conv.messages == TurnMessages(old(conv.messages), conv.roles, request, Some(reply));
    }
  }

  /** The answer a non-empty stream leaves: its last snapshot without the echoed prompt and
      surrounding whitespace. */
  function Reply(stream: seq<string>, skipEchoLen: int): (r: string)
    requires stream != []
    ensures Trimmed(r) && |r| <= |SliceFrom(stream[|stream| - 1], skipEchoLen)|
  {
    Strip(SliceFrom(stream[|stream| - 1], skipEchoLen))
  }

  /** Streams the answer and stores it, stripped, as the text of the last entry. */
  method StreamAnswer(conv: Conversation, stream: seq<string>, skipEchoLen: int)
    returns (outcome: TurnOutcome, printed: seq<string>)
    requires conv.messages != []
    modifies conv
    ensures printed == Printed(stream, skipEchoLen)
    ensures stream == [] ==> outcome == Crashed(UnboundLocalError("outputs")) && conv.messages == old(conv.messages)
    ensures stream != [] ==>
      outcome == Answered(Reply(stream, skipEchoLen)) &&
      conv.messages == old(conv.messages)[..|old(conv.messages)| - 1] +
        [Message(old(conv.messages)[|old(conv.messages)| - 1].role, Some(Reply(stream, skipEchoLen)))]
  {
    var r;
    r, printed := StreamOutput(stream, skipEchoLen);
    match r
    case Err(e) =>
      outcome := Crashed(e);
    case Ok(outputs) =>
      StripIdempotent(SliceFrom(stream[|stream| - 1], skipEchoLen));
      conv.SetLastText(Strip(outputs));
      outcome := Answered(outputs);
  }

  /** How the whole loop ends: the user left, or an exception escaped a turn. */
  datatype SessionEnd = Quit | Raised(error: PyError)

  /** What the loop leaves: how it ended, the number of answered turns, the conversation's
      messages, and every console chunk written. */
  datatype SessionState = SessionState(end: SessionEnd, turns: nat, messages: seq<Message>, printed: seq<string>)

  /** The console line the loop reads after `lines`: `None` once they are used up. */
  function NextLine(lines: seq<string>): (line: Option<string>)
    ensures line.Some? <==> lines != []
    ensures lines != [] ==> line == Some(lines[0])
  {
    if lines == [] then None else Some(lines[0])
  }

  /** Answered turns and their output in front of the rest of a session. */
  function After(turns: nat, printed: seq<string>, rest: SessionState): (st: SessionState)
    ensures st.end == rest.end && st.messages == rest.messages
    ensures st.turns == turns + rest.turns && st.printed == printed + rest.printed
  {
    SessionState(rest.end, turns + rest.turns, rest.messages, printed + rest.printed)
  }

  /** The `while True` loop over the console lines `lines`, after which `input()` raises
      `EOFError`, as turns folded from the conversation `history`. */
  function Session(history: seq<Message>, roles: (string, string), lines: seq<string>, retrieve: string -> string,
                   render: seq<Message> -> string, generate: string -> seq<string>): (st: SessionState)
    decreases |lines|
  {
    var t := Turn(history, roles, NextLine(lines), retrieve, render, generate);
    match t.outcome
    case Exited => SessionState(Quit, 0, history, t.printed)
    case Crashed(e) => SessionState(Raised(e), 0, t.messages, t.printed)
    case Answered(_) => After(1, t.printed, Session(t.messages, roles, lines[1..], retrieve, render, generate))
  }

  /** The first turn decides the session: leaving, raising, or answering and going on with the
      rest of the lines. */
  lemma SessionUnfold(history: seq<Message>, roles: (string, string), lines: seq<string>,
                      retrieve: string -> string, render: seq<Message> -> string,
                      generate: string -> seq<string>, t: TurnState)
    requires t == Turn(history, roles, NextLine(lines), retrieve, render, generate)
    ensures t.outcome == Exited ==>
      Session(history, roles, lines, retrieve, render, generate) == SessionState(Quit, 0, history, t.printed)
    ensures t.outcome.Crashed? ==>
      Session(history, roles, lines, retrieve, render, generate) == SessionState(Raised(t.outcome.error), 0, t.messages, t.printed)
    ensures t.outcome.Answered? ==>
      lines != [] &&
      Session(history, roles, lines, retrieve, render, generate) ==
        After(1, t.printed, Session(t.messages, roles, lines[1..], retrieve, render, generate))
  {
  }

  /** Answered turns in front of answered turns add up. */
  lemma AfterAfter(turns: nat, printed: seq<string>, out: seq<string>, rest: SessionState)
    ensures After(turns, printed, After(1, out, rest)) == After(turns + 1, printed + out, rest)
  {
    assert (printed + out) + rest.printed == printed + (out + rest.printed);
  }

  /** The session answers one turn per leading non-empty line and stops at the first empty line,
      at the end of input, or at the first turn whose stream yields nothing, which raises
      `UnboundLocalError` on `outputs`. */
  lemma {:induction false} SessionTurns(history: seq<Message>, roles: (string, string), lines: seq<string>,
                                        retrieve: string -> string, render: seq<Message> -> string,
                                        generate: string -> seq<string>, st: SessionState)
    requires st == Session(history, roles, lines, retrieve, render, generate)
    ensures st.turns <= |lines| && forall k :: 0 <= k < st.turns ==> lines[k] != ""
    ensures st.end == Quit ==> st.turns == |lines| || lines[st.turns] == ""
    ensures st.end.Raised? ==> st.turns < |lines| && lines[st.turns] != "" && st.end.error == UnboundLocalError("outputs")
    decreases |lines|
  {
    var t := Turn(history, roles, NextLine(lines), retrieve, render, generate);
    if t.outcome.Answered? {
      var rest := Session(t.messages, roles, lines[1..], retrieve, render, generate);
      SessionTurns(t.messages, roles, lines[1..], retrieve, render, generate, rest);
      forall k | 0 <= k < st.turns ensures lines[k] != "" {
        if k > 0 {
          assert lines[k] == lines[1..][k - 1];
        }
      }
      if st.end == Quit && st.turns < |lines| {
        assert lines[st.turns] == lines[1..][rest.turns];
      }
      if st.end.Raised? {
        assert lines[st.turns] == lines[1..][rest.turns];
      }
    }
  }

  /** The `k`-th exchange appended after the first `n` messages: the user's entry, then the
      assistant's. */
  function Exchange(ms: seq<Message>, n: nat, k: nat): (Message, Message)
    requires n + 2 * k + 1 < |ms|
  {
    (ms[n + 2 * k], ms[n + 2 * k + 1])
  }

  /** The session keeps `history` and appends two entries per answered turn, and two more when
      a turn raises. */
  lemma {:induction false} SessionKeepsHistory(history: seq<Message>, roles: (string, string), lines: seq<string>,
                                               retrieve: string -> string, render: seq<Message> -> string,
                                               generate: string -> seq<string>, st: SessionState)
    requires st == Session(history, roles, lines, retrieve, render, generate)
    ensures |st.messages| == |history| + 2 * st.turns + (if st.end == Quit then 0 else 2)
    ensures st.messages[..|history|] == history
    decreases |lines|
  {
    var t := Turn(history, roles, NextLine(lines), retrieve, render, generate);
    if t.outcome.Answered? {
      var rest := Session(t.messages, roles, lines[1..], retrieve, render, generate);
      SessionKeepsHistory(t.messages, roles, lines[1..], retrieve, render, generate, rest);
      assert st.messages[..|history|] == rest.messages[..|t.messages|][..|history|];
    }
  }

  /** Per answered turn the session appends the wrapped line and then the assistant's stripped
      answer. */
  lemma {:induction false} SessionExchanges(history: seq<Message>, roles: (string, string), lines: seq<string>,
                                            retrieve: string -> string, render: seq<Message> -> string,
                                            generate: string -> seq<string>, st: SessionState)
    requires st == Session(history, roles, lines, retrieve, render, generate)
    ensures st.turns <= |lines|
    ensures |st.messages| == |history| + 2 * st.turns + (if st.end == Quit then 0 else 2)
    ensures forall k :: 0 <= k < st.turns ==>
      AnsweredExchange(Exchange(st.messages, |history|, k), roles, ChatInput(lines[k], retrieve(lines[k])))
    decreases |lines|
  {
    SessionTurns(history, roles, lines, retrieve, render, generate, st);
    SessionKeepsHistory(history, roles, lines, retrieve, render, generate, st);
    var t := Turn(history, roles, NextLine(lines), retrieve, render, generate);
    var n := |history|;
    if t.outcome.Answered? {
      var rest := Session(t.messages, roles, lines[1..], retrieve, render, generate);
      assert st == After(1, t.printed, rest);
      SessionExchanges(t.messages, roles, lines[1..], retrieve, render, generate, rest);
      SessionKeepsHistory(t.messages, roles, lines[1..], retrieve, render, generate, rest);
      FirstExchange(st.messages, t.messages, n);
      assert ReadLine(NextLine(lines)) == lines[0];
      assert AnsweredExchange(Exchange(st.messages, n, 0), roles, ChatInput(lines[0], retrieve(lines[0])));
      ExchangesShift(st.messages, n, roles, lines, retrieve, st.turns);
    }
  }

  /** An answered exchange: the user's entry holds `request`, and the assistant's entry holds a
      stripped answer. */
  predicate AnsweredExchange(e: (Message, Message), roles: (string, string), request: string) {
    e.0 == Message(roles.0, Some(request)) && e.1.role == roles.1 && e.1.text.Some? && Trimmed(e.1.text.value)
  }

  /** Answered exchanges for the lines after the first, behind an answered exchange for the
      first line, are answered exchanges for all the lines. */
  lemma ExchangesShift(ms: seq<Message>, n: nat, roles: (string, string), lines: seq<string>,
                       retrieve: string -> string, turns: nat)
    requires 1 <= turns <= |lines| && n + 2 * turns <= |ms|
    requires AnsweredExchange(Exchange(ms, n, 0), roles, ChatInput(lines[0], retrieve(lines[0])))
    requires forall k :: 0 <= k < turns - 1 ==>
      AnsweredExchange(Exchange(ms, n + 2, k), roles, ChatInput(lines[1..][k], retrieve(lines[1..][k])))
    ensures forall k :: 0 <= k < turns ==>
      AnsweredExchange(Exchange(ms, n, k), roles, ChatInput(lines[k], retrieve(lines[k])))
  {
    forall k | 0 < k < turns
      ensures AnsweredExchange(Exchange(ms, n, k), roles, ChatInput(lines[k], retrieve(lines[k])))
    {
      assert Exchange(ms, n, k) == Exchange(ms, n + 2, k - 1);
      assert lines[k] == lines[1..][k - 1];
    }
  }

  /** Messages that extend `prefix` hold its last two entries as the exchange after `n`. */
  lemma FirstExchange(ms: seq<Message>, prefix: seq<Message>, n: nat)
    requires |prefix| == n + 2 && |prefix| <= |ms| && ms[..|prefix|] == prefix
    ensures Exchange(ms, n, 0) == (prefix[n], prefix[n + 1])
  {
    assert ms[n] == ms[..|prefix|][n];
    assert ms[n + 1] == ms[..|prefix|][n + 1];
  }

  /** A conversation in which user and assistant alternate still alternates after the session. */
  lemma {:induction false} SessionAlternates(history: seq<Message>, roles: (string, string), lines: seq<string>,
                                             retrieve: string -> string, render: seq<Message> -> string,
                                             generate: string -> seq<string>)
    requires Alternates(history, roles)
    ensures Alternates(Session(history, roles, lines, retrieve, render, generate).messages, roles)
    decreases |lines|
  {
    var t := Turn(history, roles, NextLine(lines), retrieve, render, generate);
    if t.outcome != Exited {
      TurnKeepsAlternation(history, roles, ChatInput(ReadLine(NextLine(lines)), retrieve(ReadLine(NextLine(lines)))),
        t.messages[|history| + 1].text);
    }
    if t.outcome.Answered? {
      SessionAlternates(t.messages, roles, lines[1..], retrieve, render, generate);
    }
  }

  /** The `while True` loop over the console lines `lines`, after which `input()` raises
      `EOFError`. It answers one turn per leading non-empty line, and stops at the first empty
      line, at the end of input, or at the first turn that raises. */
  method ChatSession(conv: Conversation, lines: seq<string>, retrieve: string -> string,
                     render: seq<Message> -> string, generate: string -> seq<string>)
    returns (end: SessionEnd, turns: nat, printed: seq<string>)
    modifies conv
    ensures SessionState(end, turns, conv.messages, printed) ==
      Session(old(conv.messages), conv.roles, lines, retrieve, render, generate)
    ensures turns <= |lines| && forall k :: 0 <= k < turns ==> lines[k] != ""
    ensures end == Quit ==> turns == |lines| || lines[turns] == ""
    ensures end.Raised? ==> end.error == UnboundLocalError("outputs")
    ensures |conv.messages| == |old(conv.messages)| + 2 * turns + (if end == Quit then 0 else 2)
    ensures conv.messages[..|old(conv.messages)|] == old(conv.messages)
    ensures Alternates(old(conv.messages), conv.roles) ==> Alternates(conv.messages, conv.roles)
  {
    ghost var history := conv.messages;
    turns := 0;
    printed := [];
    assert lines[0..] == lines;
    while true
      invariant turns <= |lines|
      invariant Session(history, conv.roles, lines, retrieve, render, generate) ==
        After(turns, printed, Session(conv.messages, conv.roles, lines[turns..], retrieve, render, generate))
      decreases |lines| - turns
    {
      var line := if turns < |lines| then Some(lines[turns]) else None;
      assert line == NextLine(lines[turns..]);
      ghost var before := conv.messages;
      var outcome, out := ChatTurn(conv, line, retrieve, render, generate);
      SessionUnfold(before, conv.roles, lines[turns..], retrieve, render, generate,
        TurnState(outcome, conv.messages, out));
      match outcome
      case Exited =>
        end := Quit;
        printed := printed + out;
        break;
      case Crashed(e) =>
        end := Raised(e);
        printed := printed + out;
        break;
      case Answered(_) =>
        assert lines[turns..][1..] == lines[turns + 1..];
        AfterAfter(turns, printed, out, Session(conv.messages, conv.roles, lines[turns + 1..], retrieve, render, generate));
        printed := printed + out;
        turns := turns + 1;
    }
    ghost var st := Session(history, conv.roles, lines, retrieve, render, generate);
    SessionTurns(history, conv.roles, lines, retrieve, render, generate, st);
    SessionKeepsHistory(history, conv.roles, lines, retrieve, render, generate, st);
    if Alternates(history, conv.roles) {
      SessionAlternates(history, conv.roles, lines, retrieve, render, generate);
    }
  }
}
