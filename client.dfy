/** The client side of run_client in src/chat.h: the main thread's sender and
    the reader thread.

    Standard input is given as the lines `std::getline` returns, in order;
    the console is the sequence of lines the reader writes to `std::cout`. */
module Client {
  import opened Base
  import opened Wire
  import opened Protocol
  import opened Relay

  /** What the reader thread prints once its read fails. */
  const DisconnectedNotice: string := "Disconnected from server."

  /** The username prompt reads one line; an exhausted input leaves it empty. */
  function FirstLine(stdin: seq<string>): string {
    if stdin == [] then "" else stdin[0]
  }

  /** The lines the send loop reads after the username. */
  function Rest(stdin: seq<string>): seq<string> {
    if stdin == [] then [] else stdin[1..]
  }

  /** The lines the client puts on the socket: its display name, then every
      non-empty input line. */
  function Outgoing(stdin: seq<string>): seq<string> {
    [DisplayName(FirstLine(stdin))] + NonEmpty(Rest(stdin))
  }

  /** The main thread: write the username line, then one write per non-empty
      input line, each followed by '\n'. */
  method SendLines(stdin: seq<string>) returns (writes: seq<string>)
    ensures writes == Framed(Outgoing(stdin))
  {
    var username := FirstLine(stdin);
    if username == "" {
      username := DefaultName;
    }
    writes := [username + "\n"];
    var rest := Rest(stdin);
    var k := 0;
    while k < |rest|
      invariant 0 <= k <= |rest|
      invariant writes == [username + "\n"] + Framed(NonEmpty(rest[..k]))
    {
      var line := rest[k];
      FramedStep(rest, k);
      if line != "" {
        writes := writes + [line + "\n"];
      }
      k := k + 1;
    }
    assert rest[..k] == rest;
    FramedAppend([username], NonEmpty(rest));
  }

  /** One more input line adds one write when it is non-empty, none otherwise. */
  lemma FramedStep(rest: seq<string>, k: nat)
    requires k < |rest|
    ensures Framed(NonEmpty(rest[..k + 1]))
            == Framed(NonEmpty(rest[..k])) + (if rest[k] == "" then [] else [rest[k] + "\n"])
  {
    assert rest[..k + 1] == rest[..k] + [rest[k]];
    NonEmptyAppend(rest[..k], [rest[k]]);
    FramedAppend(NonEmpty(rest[..k]), NonEmpty([rest[k]]));
    if rest[k] != "" {
      assert NonEmpty([rest[k]]) == [rest[k]];
    } else {
      assert NonEmpty([rest[k]]) == [];
    }
  }

  /** The reader thread over the reads `chunks`, which then fail: every
      complete non-empty line is printed, the empty ones are not, and the
      failed read prints the disconnect notice. */
  method ShowLines(chunks: seq<string>) returns (shown: seq<string>)
    ensures shown == NonEmpty(Frame(Concat(chunks)).0) + [DisconnectedNotice]
  {
    ghost var consumed: seq<string> := [];
    var i: nat, buf: string := 0, "";
    shown := [];
    assert chunks[0..] == chunks;
    assert Concat(chunks) == Unframe(consumed) + (buf + Concat(chunks[i..]));
    while true
      invariant i <= |chunks|
      invariant Lines(consumed)
      invariant Concat(chunks) == Unframe(consumed) + (buf + Concat(chunks[i..]))
      invariant shown == NonEmpty(consumed)
      decreases |buf| + |Concat(chunks[i..])|
    {
      ghost var buf0, i0 := buf, i;
      var line;
      line, i, buf := ReadLine(chunks, i, buf);
      if line.None? {
        FrameUnique(consumed, buf0 + Concat(chunks[i0..]));
        break;
      }
      var message := line.value;
      UnframeStep(consumed, message, buf, Concat(chunks[i..]));
      LinesAppend(consumed, [message]);
      NonEmptyAppend(consumed, [message]);
      consumed := consumed + [message];
      if message != "" {
        assert NonEmpty([message]) == [message];
        shown := shown + [message];
      } else {
        assert NonEmpty([message]) == [];
        assert shown + [] == shown;
      }
    }
    shown := shown + [DisconnectedNotice];
  }

  /** The server reads back exactly the lines the client sent: the name the
      client chose is the name it is registered under, and its non-empty
      input lines are relayed in order, each once. */
  lemma ServerReadsClient(stdin: seq<string>)
    requires Lines(stdin)
    ensures Frame(Concat(Framed(Outgoing(stdin)))) == (Outgoing(stdin), "")
    ensures var n := DisplayName(FirstLine(stdin));
            Session(Outgoing(stdin))
            == [Register(n)] + Sends([JoinedMessage(n)] + ChatMessages(n, Rest(stdin)))
               + [Deregister, Send(LeftMessage)]
  {
    var name := DisplayName(FirstLine(stdin));
    var rest := Rest(stdin);
    var tail := NonEmpty(rest);
    NonEmptyFilters(rest);
    assert '\n' !in DefaultName;
    assert '\n' !in FirstLine(stdin) by {
      if stdin != [] { assert stdin[0] == FirstLine(stdin); }
    }
    assert Lines(tail) by {
      forall i | 0 <= i < |tail| ensures '\n' !in tail[i] {
        assert tail[i] in rest;
        var j :| 0 <= j < |rest| && rest[j] == tail[i];
        assert rest[j] == stdin[j + 1];
      }
    }
    LinesAppend([name], tail);
    ReadBackFramed(Outgoing(stdin));
    SessionShape(name, tail);
    assert DisplayName(name) == name;
    ChatMessagesSkipEmpty(name, rest);
  }

  /** Whatever the server wrote to this client's socket, one delimiter-free
      message per write, the reader prints exactly the non-empty ones, in
      order, and then the disconnect notice. */
  lemma ShowsWhatServerSent(ms: seq<string>)
    requires Lines(ms)
    ensures NonEmpty(Frame(Concat(Framed(ms))).0) + [DisconnectedNotice]
            == NonEmpty(ms) + [DisconnectedNotice]
    ensures "" !in ms ==> NonEmpty(Frame(Concat(Framed(ms))).0) == ms
  {
    ReadBackFramed(ms);
    NonEmptyFilters(ms);
  }

  /** Every message the server sends for a session is a non-empty line. */
  lemma SessionMessagesAreLines(name: string, ls: seq<string>)
    requires '\n' !in name && Lines(ls)
    ensures var ms := [JoinedMessage(name)] + ChatMessages(name, ls) + [LeftMessage];
            Lines(ms) && "" !in ms
  {
    var cm := ChatMessages(name, ls);
    var ms := [JoinedMessage(name)] + cm + [LeftMessage];
    ChatMessagesNonEmpty(name, ls);
    NonEmptyFilters(ls);
    forall i | 0 <= i < |ms| ensures '\n' !in ms[i] && ms[i] != "" {
      if 0 < i < |ms| - 1 {
        var line := NonEmpty(ls)[i - 1];
        assert line in ls;
        var j :| 0 <= j < |ls| && ls[j] == line;
        assert ms[i] == cm[i - 1] == name + ": " + line;
      } else if i == 0 {
        assert ms[i] == name + " has joined the chat.";
      } else {
        assert ms[i] == LeftMessage;
      }
    }
  }

  /** The conversation seen end to end: another client `r`, registered
      before the session starts, whose writes succeed and which has already
      received the lines `prior` (its own join, say), prints the non-empty
      ones of those, then the newcomer's join, then every non-empty line the
      newcomer typed as `name: line`, in order, then the departure. */
  lemma RoundTrip(s: Registry, h: Handle, stdin: seq<string>, failing: set<Handle>, r: Handle,
                  prior: seq<string>)
    requires Lines(stdin) && Distinct(s.clients)
    requires Lines(prior) && Inbox(s.outbox, r) == Framed(prior)
    requires r in s.clients && r !in failing && r != h
    ensures var n := DisplayName(FirstLine(stdin));
            var e := ApplyAll(s, h, Session(Frame(Concat(Framed(Outgoing(stdin)))).0), failing);
            NonEmpty(Frame(Concat(Inbox(e.outbox, r))).0)
            == NonEmpty(prior) + ([JoinedMessage(n)] + ChatMessages(n, Rest(stdin)) + [LeftMessage])
  {
    var n := DisplayName(FirstLine(stdin));
    var rest := Rest(stdin);
    var cm := ChatMessages(n, rest);
    var ms := [JoinedMessage(n)] + cm + [LeftMessage];
    ServerReadsClient(stdin);
    assert Outgoing(stdin) == [n] + NonEmpty(rest);
    SessionDelivery(s, h, n, NonEmpty(rest), failing, r);
    assert DisplayName(n) == n;
    ChatMessagesSkipEmpty(n, rest);
    var e := ApplyAll(s, h, Session(Outgoing(stdin)), failing);
    assert Inbox(e.outbox, r) == Framed(prior) + (Framed([JoinedMessage(n)] + cm) + [LeftMessage + "\n"]);
    FramedAppend([JoinedMessage(n)] + cm, [LeftMessage]);
    assert Framed([LeftMessage]) == [LeftMessage + "\n"];
    FramedAppend(prior, ms);
    assert Inbox(e.outbox, r) == Framed(prior + ms);
    assert '\n' !in n by {
      if stdin != [] && stdin[0] != "" { assert n == stdin[0]; }
    }
    assert Lines(rest) by {
      forall i | 0 <= i < |rest| ensures '\n' !in rest[i] {
        assert rest[i] == stdin[i + 1];
      }
    }
    SessionMessagesAreLines(n, rest);
    LinesAppend(prior, ms);
    ReadBackFramed(prior + ms);
    NonEmptyAppend(prior, ms);
    NonEmptyFilters(ms);
  }
}
