/** The line protocol one server-side reader follows (handle_client in
    src/chat.h), as a state machine from received lines to registry actions.

    The first line is the display name; every later non-empty line is
    relayed as `name: line`; the end of the stream, at any point, deregisters
    the connection and announces the departure. */
module Protocol {
  import opened Base

  const DefaultName: string := "Unknown"
  const LeftMessage: string := "A user has left the chat."

  /** The name a handshake line stands for: the line itself, unless it is
      exactly empty. Nothing is trimmed. */
  function DisplayName(line: string): string {
    if line == "" then DefaultName else line
  }

  function JoinedMessage(name: string): string {
    name + " has joined the chat."
  }

  function ChatMessage(name: string, text: string): string {
    name + ": " + text
  }

  datatype Phase = AwaitName | Chatting(name: string) | Gone

  /** What a reader asks of the shared registry. */
  datatype Action =
    | Register(name: string)   // client_names[client] = username
    | Send(message: string)    // broadcast(message)
    | Deregister               // erase-remove from clients, erase from client_names

  /** The reader's reaction to one complete line. */
  function OnLine(p: Phase, line: string): (Phase, seq<Action>) {
    match p
    case AwaitName =>
      var n := DisplayName(line);
      (Chatting(n), [Register(n), Send(JoinedMessage(n))])
    case Chatting(n) =>
      (p, if line == "" then [] else [Send(ChatMessage(n, line))])
    case Gone => (Gone, [])
  }

  /** The reader's reaction to a failed read: the catch block. */
  function OnEnd(p: Phase): (Phase, seq<Action>) {
    if p == Gone then (Gone, []) else (Gone, [Deregister, Send(LeftMessage)])
  }

  /** The phase reached and the actions taken after `lines`, in order. */
  function Run(p: Phase, lines: seq<string>): (Phase, seq<Action>)
    decreases |lines|
  {
    if lines == [] then (p, [])
    else
      var before := Run(p, lines[..|lines| - 1]);
      var step := OnLine(before.0, lines[|lines| - 1]);
      (step.0, before.1 + step.1)
  }

  /** Every action of one connection whose complete lines were `lines`. */
  function Session(lines: seq<string>): seq<Action> {
    var r := Run(AwaitName, lines);
    r.1 + OnEnd(r.0).1
  }

  /** The non-empty elements of `ls`, in order. */
  function NonEmpty(ls: seq<string>): seq<string> {
    if ls == [] then []
    else (if ls[0] == "" then [] else [ls[0]]) + NonEmpty(ls[1..])
  }

  /** Filtering keeps only non-empty elements of the input, and keeps an
      input that has no empty element whole. */
  lemma {:induction false} NonEmptyFilters(ls: seq<string>)
    ensures forall i :: 0 <= i < |NonEmpty(ls)| ==> NonEmpty(ls)[i] != "" && NonEmpty(ls)[i] in ls
    ensures "" !in ls ==> NonEmpty(ls) == ls
  {
    if ls != [] {
      NonEmptyFilters(ls[1..]);
      var head, tail := if ls[0] == "" then [] else [ls[0]], NonEmpty(ls[1..]);
      assert NonEmpty(ls) == head + tail;
      forall i | 0 <= i < |NonEmpty(ls)| ensures NonEmpty(ls)[i] != "" && NonEmpty(ls)[i] in ls {
        if i < |head| {
          assert NonEmpty(ls)[i] == ls[0];
        } else {
          assert NonEmpty(ls)[i] == tail[i - |head|];
          assert tail[i - |head|] in ls[1..];
        }
      }
      if "" !in ls {
        assert "" !in ls[1..];
        assert ls == [ls[0]] + ls[1..];
      }
    }
  }

  /** The relayed form of every non-empty line, in order: a reference
      definition that does not go through the phase machine. */
  function ChatMessages(name: string, ls: seq<string>): seq<string> {
    if ls == [] then []
    else
      var tail := ChatMessages(name, ls[1..]);
      (if ls[0] == "" then [] else [ChatMessage(name, ls[0])]) + tail
  }

  /** The reference definition agrees with relaying each non-empty line. */
  lemma {:induction false} ChatMessagesNonEmpty(name: string, ls: seq<string>)
    ensures |ChatMessages(name, ls)| == |NonEmpty(ls)|
    ensures forall i :: 0 <= i < |NonEmpty(ls)| ==> ChatMessages(name, ls)[i] == ChatMessage(name, NonEmpty(ls)[i])
  {
    if ls != [] {
      ChatMessagesNonEmpty(name, ls[1..]);
    }
  }

  /** Dropping the empty lines first changes nothing: the reader skips them anyway. */
  lemma {:induction false} ChatMessagesSkipEmpty(name: string, ls: seq<string>)
    ensures ChatMessages(name, NonEmpty(ls)) == ChatMessages(name, ls)
  {
    if ls != [] {
      ChatMessagesSkipEmpty(name, ls[1..]);
      var tail := NonEmpty(ls[1..]);
      if ls[0] == "" {
        assert NonEmpty(ls) == tail;
      } else {
        assert NonEmpty(ls) == [ls[0]] + tail;
        assert ([ls[0]] + tail)[1..] == tail;
      }
    }
  }

  function Sends(ms: seq<string>): seq<Action> {
    if ms == [] then [] else [Send(ms[0])] + Sends(ms[1..])
  }

  /** One broadcast per message. */
  lemma {:induction false} SendsLength(ms: seq<string>)
    ensures |Sends(ms)| == |ms|
  {
    if ms != [] {
      SendsLength(ms[1..]);
    }
  }

  lemma {:induction false} NonEmptyAppend(a: seq<string>, b: seq<string>)
    ensures NonEmpty(a + b) == NonEmpty(a) + NonEmpty(b)
  {
    if a == [] {
      assert a + b == b;
    } else {
      assert (a + b)[1..] == a[1..] + b;
      NonEmptyAppend(a[1..], b);
      AppendAssoc(if a[0] == "" then [] else [a[0]], NonEmpty(a[1..]), NonEmpty(b));
    }
  }

  lemma {:induction false} NonEmptyIdempotent(ls: seq<string>)
    ensures NonEmpty(NonEmpty(ls)) == NonEmpty(ls)
  {
    var r := NonEmpty(ls);
    NonEmptyFilters(ls);
    assert "" !in r by {
      forall i | 0 <= i < |r| ensures r[i] != "" { }
    }
    NonEmptyFilters(r);
  }

  lemma {:induction false} ChatMessagesAppend(name: string, a: seq<string>, b: seq<string>)
    ensures ChatMessages(name, a + b) == ChatMessages(name, a) + ChatMessages(name, b)
  {
    if a == [] {
      assert a + b == b;
    } else {
      assert (a + b)[1..] == a[1..] + b;
      ChatMessagesAppend(name, a[1..], b);
      AppendAssoc(if a[0] == "" then [] else [ChatMessage(name, a[0])],
                  ChatMessages(name, a[1..]), ChatMessages(name, b));
    }
  }

  lemma {:induction false} SendsAppend(a: seq<string>, b: seq<string>)
    ensures Sends(a + b) == Sends(a) + Sends(b)
  {
    if a == [] {
      assert a + b == b;
    } else {
      assert (a + b)[1..] == a[1..] + b;
      SendsAppend(a[1..], b);
      AppendAssoc([Send(a[0])], Sends(a[1..]), Sends(b));
    }
  }

  /** Running over `a + b` is running over `a` and then over `b`. */
  lemma {:induction false} RunAppend(p: Phase, a: seq<string>, b: seq<string>)
    ensures Run(p, a + b) == (Run(Run(p, a).0, b).0, Run(p, a).1 + Run(Run(p, a).0, b).1)
    decreases |b|
  {
    if b == [] {
      assert a + b == a;
      assert Run(Run(p, a).0, b) == (Run(p, a).0, []);
      assert Run(p, a).1 + [] == Run(p, a).1;
    } else {
      var b' := b[..|b| - 1];
      assert (a + b)[..|a + b| - 1] == a + b';
      assert (a + b)[|a + b| - 1] == b[|b| - 1];
      RunAppend(p, a, b');
      var q, acts := Run(p, a).0, Run(p, a).1;
      var mid := Run(q, b');
      var step := OnLine(mid.0, b[|b| - 1]);
      assert Run(p, a + b) == (step.0, acts + mid.1 + step.1);
      assert Run(q, b) == (step.0, mid.1 + step.1);
      AppendAssoc(acts, mid.1, step.1);
    }
  }

  /** While chatting, the reader relays exactly the non-empty lines, each once,
      in order, prefixed with the name; the phase does not change. */
  lemma {:induction false} RunChatting(name: string, ls: seq<string>)
    ensures Run(Chatting(name), ls) == (Chatting(name), Sends(ChatMessages(name, ls)))
    decreases |ls|
  {
    if ls != [] {
      var init, last := ls[..|ls| - 1], ls[|ls| - 1];
      RunChatting(name, init);
      assert ls == init + [last];
      ChatMessagesAppend(name, init, [last]);
      SendsAppend(ChatMessages(name, init), ChatMessages(name, [last]));
      if last != "" {
        assert Sends([ChatMessage(name, last)]) == [Send(ChatMessage(name, last))];
      }
    }
  }

  /** The handshake: the first line names the connection, which is then
      registered and announced to everyone. */
  lemma RunHandshake(first: string)
    ensures var n := DisplayName(first);
            Run(AwaitName, [first]) == (Chatting(n), [Register(n), Send(JoinedMessage(n))])
  {
    var n := DisplayName(first);
    var joined := [Register(n), Send(JoinedMessage(n))];
    assert [first][..0] == [];
    assert Run(AwaitName, []) == (AwaitName, []);
    assert OnLine(AwaitName, first) == (Chatting(n), joined);
    assert [] + joined == joined;
  }

  /** A connection that sent no complete line is still deregistered and its
      departure still announced. */
  lemma SessionWithoutHandshake()
    ensures Session([]) == [Deregister, Send(LeftMessage)]
  {
  }

  /** A session has four actions besides one per relayed line: the
      registration, the join, the removal and the departure. */
  lemma SessionLength(first: string, rest: seq<string>)
    ensures |Session([first] + rest)| == |ChatMessages(DisplayName(first), rest)| + 4
  {
    var n := DisplayName(first);
    SessionShape(first, rest);
    SendsLength([JoinedMessage(n)] + ChatMessages(n, rest));
  }

  /** The whole conversation of one connection: the first line names it and
      its join is announced, every later non-empty line is relayed, and the
      end of the stream deregisters it and announces the departure. */
  lemma SessionShape(first: string, rest: seq<string>)
    ensures var n := DisplayName(first);
            Session([first] + rest)
            == [Register(n)] + Sends([JoinedMessage(n)] + ChatMessages(n, rest)) + [Deregister, Send(LeftMessage)]
  {
    var n := DisplayName(first);
    var joined := [Register(n), Send(JoinedMessage(n))];
    RunHandshake(first);
    RunAppend(AwaitName, [first], rest);
    RunChatting(n, rest);
    var chat := Sends(ChatMessages(n, rest));
    assert Run(AwaitName, [first] + rest) == (Chatting(n), joined + chat);
    SendsAppend([JoinedMessage(n)], ChatMessages(n, rest));
    assert Sends([JoinedMessage(n)]) == [Send(JoinedMessage(n))];
    assert Sends([JoinedMessage(n)] + ChatMessages(n, rest)) == [Send(JoinedMessage(n))] + chat;
  }
}
