/** The server's shared registry (src/chat.h): the `clients` vector, the
    `client_names` map, the fan-out in `broadcast`, and one connection's
    reader `handle_client`.

    Sockets are handles; what a write puts on a socket is appended to that
    handle's outbox, and whether a write fails is given per recipient. */
module Relay {
  import opened Base
  import opened Wire
  import opened Protocol
  import opened LockOrder

  /** Identity of an accepted socket (the shared_ptr's target). */
  type Handle = nat

  /** One call of asio::write during a broadcast: the recipient, the bytes,
      and whether the write went through. */
  datatype Write = Write(to: Handle, data: string, delivered: bool)

  /** The registry as a value: what `clients`, `client_names` and every
      socket's received bytes are at one moment. */
  datatype Registry = Registry(
    clients: seq<Handle>,
    names: map<Handle, string>,
    outbox: map<Handle, seq<string>>)

  /** No handle is registered twice. */
  ghost predicate Distinct(cs: seq<Handle>) {
    forall x :: multiset(cs)[x] <= 1
  }

  /** The writes a handle's socket has received so far. */
  function Inbox(outbox: map<Handle, seq<string>>, h: Handle): seq<string> {
    if h in outbox then outbox[h] else []
  }

  function Repeat(x: string, n: nat): seq<string> {
    if n == 0 then [] else Repeat(x, n - 1) + [x]
  }

  /** `std::remove` followed by `erase`: every occurrence of `h` goes, the
      others keep their order (RemoveAllAppend) and their multiplicity
      (RemoveAllCount); an absent handle changes nothing (RemoveAllAbsent). */
  function RemoveAll(cs: seq<Handle>, h: Handle): seq<Handle> {
    if cs == [] then []
    else (if cs[0] == h then [] else [cs[0]]) + RemoveAll(cs[1..], h)
  }

  lemma {:induction false} RemoveAllCount(cs: seq<Handle>, h: Handle, x: Handle)
    ensures multiset(RemoveAll(cs, h))[x] == if x == h then 0 else multiset(cs)[x]
  {
    if cs != [] {
      RemoveAllCount(cs[1..], h, x);
      var head := if cs[0] == h then [] else [cs[0]];
      assert RemoveAll(cs, h) == head + RemoveAll(cs[1..], h);
      assert multiset(RemoveAll(cs, h)) == multiset(head) + multiset(RemoveAll(cs[1..], h));
      assert cs == [cs[0]] + cs[1..];
      assert multiset(cs) == multiset([cs[0]]) + multiset(cs[1..]);
    }
  }

  /** Removing an absent handle changes nothing. */
  lemma {:induction false} RemoveAllAbsent(cs: seq<Handle>, h: Handle)
    requires h !in cs
    ensures RemoveAll(cs, h) == cs
  {
    if cs != [] {
      assert h !in cs[1..];
      RemoveAllAbsent(cs[1..], h);
      assert cs == [cs[0]] + cs[1..];
    }
  }

  lemma RemoveAllGone(cs: seq<Handle>, h: Handle)
    ensures h !in RemoveAll(cs, h)
  {
    RemoveAllCount(cs, h, h);
  }

  /** The outboxes after writing `data` to each of `cs` in order; a write to
      a handle in `failing` fails and changes nothing. */
  function Fanout(outbox: map<Handle, seq<string>>, cs: seq<Handle>, data: string,
                  failing: set<Handle>): map<Handle, seq<string>>
    decreases |cs|
  {
    if cs == [] then outbox
    else
      var before := Fanout(outbox, cs[..|cs| - 1], data, failing);
      var c := cs[|cs| - 1];
      if c in failing then before else before[c := Inbox(before, c) + [data]]
  }

  /** The registry after one action of the reader for `h`. */
  function Apply(s: Registry, h: Handle, a: Action, failing: set<Handle>): Registry {
    match a
    case Register(n) => s.(names := s.names[h := n])
    case Send(m) => s.(outbox := Fanout(s.outbox, s.clients, m + "\n", failing))
    case Deregister => s.(clients := RemoveAll(s.clients, h), names := s.names - {h})
  }

  function ApplyAll(s: Registry, h: Handle, acts: seq<Action>, failing: set<Handle>): Registry
    decreases |acts|
  {
    if acts == [] then s else ApplyAll(Apply(s, h, acts[0], failing), h, acts[1..], failing)
  }

  /** Removal distributes over concatenation: what survives keeps its
      relative order. */
  lemma {:induction false} RemoveAllAppend(a: seq<Handle>, b: seq<Handle>, h: Handle)
    ensures RemoveAll(a + b, h) == RemoveAll(a, h) + RemoveAll(b, h)
  {
    if a == [] {
      assert a + b == b;
    } else {
      assert (a + b)[1..] == a[1..] + b;
      assert (a + b)[0] == a[0];
      RemoveAllAppend(a[1..], b, h);
      AppendAssoc(if a[0] == h then [] else [a[0]], RemoveAll(a[1..], h), RemoveAll(b, h));
    }
  }

  /** Removing a handle twice is removing it once. */
  lemma RemoveAllIdempotent(cs: seq<Handle>, h: Handle)
    ensures RemoveAll(RemoveAll(cs, h), h) == RemoveAll(cs, h)
  {
    RemoveAllGone(cs, h);
    RemoveAllAbsent(RemoveAll(cs, h), h);
  }

  /** Each recipient receives `data` once per occurrence in `cs` unless its
      write fails; nobody else receives anything. */
  lemma {:induction false} FanoutInbox(outbox: map<Handle, seq<string>>, cs: seq<Handle>,
                                       data: string, failing: set<Handle>, r: Handle)
    ensures Inbox(Fanout(outbox, cs, data, failing), r)
            == Inbox(outbox, r) + (if r in failing then [] else Repeat(data, multiset(cs)[r]))
    decreases |cs|
  {
    if cs != [] {
      var init: seq<Handle>, c: Handle := cs[..|cs| - 1], cs[|cs| - 1];
      FanoutInbox(outbox, init, data, failing, r);
      FanoutStep(outbox, cs, data, failing, r);
      CountSnoc(cs, r);
      if r !in failing && c == r {
        AppendAssoc(Inbox(outbox, r), Repeat(data, multiset(init)[r]), [data]);
      }
    }
  }

  /** The last write of a fan-out reaches only its own recipient. */
  lemma FanoutStep(outbox: map<Handle, seq<string>>, cs: seq<Handle>, data: string,
                   failing: set<Handle>, r: Handle)
    requires cs != []
    ensures Inbox(Fanout(outbox, cs, data, failing), r)
            == Inbox(Fanout(outbox, cs[..|cs| - 1], data, failing), r)
               + (if r !in failing && cs[|cs| - 1] == r then [data] else [])
  {
  }

  lemma CountSnoc(cs: seq<Handle>, r: Handle)
    requires cs != []
    ensures multiset(cs)[r] == multiset(cs[..|cs| - 1])[r] + (if cs[|cs| - 1] == r then 1 else 0)
  {
    assert cs == cs[..|cs| - 1] + [cs[|cs| - 1]];
  }

  lemma DistinctAppend(cs: seq<Handle>, h: Handle)
    requires Distinct(cs) && h !in cs
    ensures Distinct(cs + [h])
  {
    forall x ensures multiset(cs + [h])[x] <= 1 {
      assert multiset(cs + [h])[x] == multiset(cs)[x] + (if x == h then 1 else 0);
    }
  }

  /** The leave path's removal on a connection that is neither registered
      nor named changes nothing. */
  lemma RemoveAbsentIsNoop(s: Registry, h: Handle, failing: set<Handle>)
    requires h !in s.clients && h !in s.names
    ensures Apply(s, h, Deregister, failing) == s
  {
    RemoveAllAbsent(s.clients, h);
    assert s.names - {h} == s.names;
  }

  /** Removal keeps every other registered handle registered. */
  lemma RemoveAllKeeps(cs: seq<Handle>, h: Handle, x: Handle)
    requires x != h
    ensures x in RemoveAll(cs, h) <==> x in cs
  {
    RemoveAllCount(cs, h, x);
    assert multiset(RemoveAll(cs, h))[x] == multiset(cs)[x];
  }

  lemma DistinctRemoveAll(cs: seq<Handle>, h: Handle)
    requires Distinct(cs)
    ensures Distinct(RemoveAll(cs, h))
  {
    forall x ensures multiset(RemoveAll(cs, h))[x] <= 1 {
      RemoveAllCount(cs, h, x);
    }
  }

  lemma DistinctCount(cs: seq<Handle>, r: Handle)
    requires Distinct(cs)
    ensures multiset(cs)[r] == if r in cs then 1 else 0
  {
    assert multiset(cs)[r] <= 1;
  }

  /** The registry's invariant: no socket is registered twice, every
      registered socket was handed out before `next`, and only registered
      sockets have a name. */
  ghost predicate Consistent(cs: seq<Handle>, names: map<Handle, string>, next: Handle) {
    && Distinct(cs)
    && (forall c :: c in cs ==> c < next)
    && (forall k :: k in names ==> k in cs)
  }

  /** Appending a freshly made socket keeps the invariant. */
  lemma AcceptKeepsConsistent(cs: seq<Handle>, names: map<Handle, string>, next: Handle)
    requires Consistent(cs, names, next)
    ensures next !in cs && Consistent(cs + [next], names, next + 1)
  {
    DistinctAppend(cs, next);
  }

  /** The leave path keeps the invariant. */
  lemma LeaveKeepsConsistent(cs: seq<Handle>, names: map<Handle, string>, next: Handle, h: Handle)
    requires Consistent(cs, names, next)
    ensures Consistent(RemoveAll(cs, h), names - {h}, next)
  {
    DistinctRemoveAll(cs, h);
    RemoveAllGone(cs, h);
    forall c | c in RemoveAll(cs, h) ensures c < next {
      RemoveAllKeeps(cs, h, c);
    }
    forall k | k in names - {h} ensures k in RemoveAll(cs, h) {
      RemoveAllKeeps(cs, h, k);
    }
  }

  /** With no handle registered twice, a broadcast reaches every registered
      handle whose write succeeds exactly once. */
  lemma BroadcastReachesEachOnce(outbox: map<Handle, seq<string>>, cs: seq<Handle>,
                                 data: string, failing: set<Handle>, r: Handle)
    requires Distinct(cs)
    ensures Inbox(Fanout(outbox, cs, data, failing), r)
            == Inbox(outbox, r) + (if r in cs && r !in failing then [data] else [])
  {
    FanoutInbox(outbox, cs, data, failing, r);
    DistinctCount(cs, r);
    assert Repeat(data, 1) == [data];
  }

  lemma ApplyAllOne(s: Registry, h: Handle, a: Action, failing: set<Handle>)
    ensures ApplyAll(s, h, [a], failing) == Apply(s, h, a, failing)
  {
    assert [a][1..] == [];
  }

  lemma ApplyAllPair(s: Registry, h: Handle, a: Action, b: Action, failing: set<Handle>)
    ensures ApplyAll(s, h, [a, b], failing) == Apply(Apply(s, h, a, failing), h, b, failing)
  {
    assert [a, b][1..] == [b];
    assert ApplyAll(s, h, [a, b], failing) == ApplyAll(Apply(s, h, a, failing), h, [b], failing);
    ApplyAllOne(Apply(s, h, a, failing), h, b, failing);
  }

  lemma ApplyAllThree(s: Registry, h: Handle, a: seq<Action>, b: seq<Action>, c: seq<Action>,
                      failing: set<Handle>)
    ensures ApplyAll(s, h, a + b + c, failing)
            == ApplyAll(ApplyAll(ApplyAll(s, h, a, failing), h, b, failing), h, c, failing)
  {
    ApplyAllAppend(s, h, a + b, c, failing);
    ApplyAllAppend(s, h, a, b, failing);
  }

  lemma {:induction false} ApplyAllAppend(s: Registry, h: Handle, a: seq<Action>,
                                          b: seq<Action>, failing: set<Handle>)
    ensures ApplyAll(s, h, a + b, failing) == ApplyAll(ApplyAll(s, h, a, failing), h, b, failing)
    decreases |a|
  {
    if a == [] {
      assert a + b == b;
    } else {
      assert (a + b)[0] == a[0];
      assert (a + b)[1..] == a[1..] + b;
      ApplyAllAppend(Apply(s, h, a[0], failing), h, a[1..], b, failing);
    }
  }

  /** A run of broadcasts leaves membership and names alone and hands each
      registered recipient whose writes succeed every message, in order. */
  lemma {:induction false} SendsDelivery(s: Registry, h: Handle, ms: seq<string>,
                                         failing: set<Handle>, r: Handle)
    requires Distinct(s.clients)
    ensures ApplyAll(s, h, Sends(ms), failing).clients == s.clients
    ensures ApplyAll(s, h, Sends(ms), failing).names == s.names
    ensures Inbox(ApplyAll(s, h, Sends(ms), failing).outbox, r)
            == Inbox(s.outbox, r) + (if r in s.clients && r !in failing then Framed(ms) else [])
    decreases |ms|
  {
    if ms != [] {
      var acts := Sends(ms);
      assert acts[0] == Send(ms[0]) && acts[1..] == Sends(ms[1..]);
      var next := Apply(s, h, Send(ms[0]), failing);
      assert ApplyAll(s, h, acts, failing) == ApplyAll(next, h, Sends(ms[1..]), failing);
      BroadcastReachesEachOnce(s.outbox, s.clients, ms[0] + "\n", failing, r);
      SendsDelivery(next, h, ms[1..], failing, r);
      assert Framed(ms) == [ms[0] + "\n"] + Framed(ms[1..]);
      if r in s.clients && r !in failing {
        AppendAssoc(Inbox(s.outbox, r), [ms[0] + "\n"], Framed(ms[1..]));
      }
    }
  }

  /** The leave path: the connection is removed, its name erased, and the
      departure reaches only the handles still registered. */
  lemma LeaveDelivery(s: Registry, h: Handle, failing: set<Handle>, r: Handle)
    requires Distinct(s.clients)
    ensures var e := ApplyAll(s, h, [Deregister, Send(LeftMessage)], failing);
            && e.clients == RemoveAll(s.clients, h)
            && e.names == s.names - {h}
            && Inbox(e.outbox, r)
               == Inbox(s.outbox, r)
                  + (if r in s.clients && r != h && r !in failing then [LeftMessage + "\n"] else [])
  {
    var s1 := Apply(s, h, Deregister, failing);
    ApplyAllPair(s, h, Deregister, Send(LeftMessage), failing);
    DistinctRemoveAll(s.clients, h);
    RemoveAllGone(s.clients, h);
    BroadcastReachesEachOnce(s1.outbox, s1.clients, LeftMessage + "\n", failing, r);
    if r != h {
      RemoveAllKeeps(s.clients, h, r);
    }
  }

  /** Erasing a key forgets what was last assigned to it. */
  lemma EraseAfterAssign(m: map<Handle, string>, h: Handle, n: string)
    ensures m[h := n] - {h} == m - {h}
  {
    assert (m[h := n] - {h}).Keys == (m - {h}).Keys;
  }

  lemma InboxChain(before: seq<string>, a: seq<string>, b: seq<string>, got: bool, other: bool)
    ensures before + (if got then a else []) + (if got && other then b else [])
            == before + (if got then a + (if other then b else []) else [])
  {
  }

  lemma ConversationSteps(s: Registry, h: Handle, n: string, ms: seq<string>, failing: set<Handle>)
    ensures ApplyAll(s, h, [Register(n)] + Sends(ms) + [Deregister, Send(LeftMessage)], failing)
            == ApplyAll(ApplyAll(s.(names := s.names[h := n]), h, Sends(ms), failing),
                        h, [Deregister, Send(LeftMessage)], failing)
  {
    ApplyAllThree(s, h, [Register(n)], Sends(ms), [Deregister, Send(LeftMessage)], failing);
    ApplyAllOne(s, h, Register(n), failing);
  }

  /** A session's actions in the three stretches handle_client performs
      them in: the handshake, the relay loop, the catch block. */
  lemma SessionSteps(s: Registry, h: Handle, first: string, rest: seq<string>, failing: set<Handle>)
    ensures var n := DisplayName(first);
            ApplyAll(s, h, Session([first] + rest), failing)
            == ApplyAll(ApplyAll(ApplyAll(s, h, [Register(n), Send(JoinedMessage(n))], failing),
                                 h, Sends(ChatMessages(n, rest)), failing),
                        h, [Deregister, Send(LeftMessage)], failing)
  {
    var n := DisplayName(first);
    var cm := ChatMessages(n, rest);
    SessionShape(first, rest);
    SendsAppend([JoinedMessage(n)], cm);
    assert Sends([JoinedMessage(n)]) == [Send(JoinedMessage(n))];
    var acts := [Register(n)] + Sends([JoinedMessage(n)] + cm) + [Deregister, Send(LeftMessage)];
    assert acts == [Register(n), Send(JoinedMessage(n))] + Sends(cm) + [Deregister, Send(LeftMessage)];
    ApplyAllThree(s, h, [Register(n), Send(JoinedMessage(n))], Sends(cm), [Deregister, Send(LeftMessage)], failing);
  }

  /** The same, for a connection whose bytes are a handshake line followed
      by `pending`. */
  lemma SessionOfStream(s: Registry, h: Handle, first: string, pending: string, failing: set<Handle>)
    requires '\n' !in first
    ensures Frame(Unframe([first]) + pending).0 == [first] + Frame(pending).0
    ensures var n := DisplayName(first);
            ApplyAll(s, h, Session(Frame(Unframe([first]) + pending).0), failing)
            == ApplyAll(ApplyAll(ApplyAll(s, h, [Register(n), Send(JoinedMessage(n))], failing),
                                 h, Sends(ChatMessages(n, Frame(pending).0)), failing),
                        h, [Deregister, Send(LeftMessage)], failing)
  {
    assert Lines([first]);
    FrameAfterLines([first], pending);
    SessionSteps(s, h, first, Frame(pending).0, failing);
  }

  /** A registration, a run of broadcasts, then the leave path. */
  lemma ConversationDelivery(s: Registry, h: Handle, n: string, ms: seq<string>,
                             failing: set<Handle>, r: Handle)
    requires Distinct(s.clients)
    ensures var e := ApplyAll(s, h, [Register(n)] + Sends(ms) + [Deregister, Send(LeftMessage)], failing);
            && e.clients == RemoveAll(s.clients, h)
            && e.names == s.names - {h}
            && Inbox(e.outbox, r)
               == Inbox(s.outbox, r)
                  + (if r in s.clients && r !in failing
                     then Framed(ms) + (if r != h then [LeftMessage + "\n"] else [])
                     else [])
  {
    var s1 := Apply(s, h, Register(n), failing);
    var s2 := ApplyAll(s1, h, Sends(ms), failing);
    ConversationSteps(s, h, n, ms, failing);
    SendsDelivery(s1, h, ms, failing, r);
    LeaveDelivery(s2, h, failing, r);
    EraseAfterAssign(s.names, h, n);
    InboxChain(Inbox(s.outbox, r), Framed(ms), [LeftMessage + "\n"], r in s.clients && r !in failing, r != h);
  }

  /** What one connection's whole session does to the registry, seen by any
      handle `r`: the newcomer and everyone registered get the join and every
      relayed line (the sender included), only the others get the departure,
      and afterwards the connection is neither a client nor named. */
  lemma SessionDelivery(s: Registry, h: Handle, first: string, rest: seq<string>,
                        failing: set<Handle>, r: Handle)
    requires Distinct(s.clients)
    ensures var n := DisplayName(first);
            var e := ApplyAll(s, h, Session([first] + rest), failing);
            && e.clients == RemoveAll(s.clients, h)
            && e.names == s.names - {h}
            && Inbox(e.outbox, r)
               == Inbox(s.outbox, r)
                  + (if r in s.clients && r !in failing
                     then Framed([JoinedMessage(n)] + ChatMessages(n, rest))
                          + (if r != h then [LeftMessage + "\n"] else [])
                     else [])
  {
    SessionShape(first, rest);
    var n := DisplayName(first);
    ConversationDelivery(s, h, n, [JoinedMessage(n)] + ChatMessages(n, rest), failing, r);
  }

  /** A connection that closes before a complete handshake line is removed
      and only the remaining clients hear that a user left. */
  lemma SilentSessionDelivery(s: Registry, h: Handle, failing: set<Handle>, r: Handle)
    requires Distinct(s.clients)
    ensures var e := ApplyAll(s, h, Session([]), failing);
            && e.clients == RemoveAll(s.clients, h)
            && e.names == s.names - {h}
            && Inbox(e.outbox, r)
               == Inbox(s.outbox, r)
                  + (if r in s.clients && r != h && r !in failing then [LeftMessage + "\n"] else [])
  {
    SessionWithoutHandshake();
    LeaveDelivery(s, h, failing, r);
  }

  /** The relay loop's state after one more line: the messages and guards
      of `consumed` followed by those of `message` are those of both. */
  lemma RelaySteps(s0: Registry, h: Handle, name: string, consumed: seq<string>, message: string,
                   failing: set<Handle>, log0: seq<LockOp>)
    ensures var a, b := ChatMessages(name, consumed), ChatMessages(name, [message]);
            && ApplyAll(ApplyAll(s0, h, Sends(a), failing), h, Sends(b), failing)
               == ApplyAll(s0, h, Sends(ChatMessages(name, consumed + [message])), failing)
            && log0 + Guards(|a|) + Guards(|b|) == log0 + Guards(|ChatMessages(name, consumed + [message])|)
  {
    var a, b := ChatMessages(name, consumed), ChatMessages(name, [message]);
    ChatMessagesAppend(name, consumed, [message]);
    SendsAppend(a, b);
    ApplyAllAppend(s0, h, Sends(a), Sends(b), failing);
    GuardsAppend(|a|, |b|);
    AppendAssoc(log0, Guards(|a|), Guards(|b|));
  }

  /** A fan-out writes only to the recipients it is given. */
  lemma {:induction false} FanoutKeys(outbox: map<Handle, seq<string>>, cs: seq<Handle>, data: string,
                                      failing: set<Handle>, bound: Handle)
    requires forall k :: k in outbox ==> k < bound
    requires forall c :: c in cs ==> c < bound
    ensures forall k :: k in Fanout(outbox, cs, data, failing) ==> k < bound
    decreases |cs|
  {
    if cs != [] {
      var init := cs[..|cs| - 1];
      assert forall c :: c in init ==> c in cs;
      FanoutKeys(outbox, init, data, failing, bound);
      var c := cs[|cs| - 1];
      assert c in cs;
      var before := Fanout(outbox, init, data, failing);
      assert Fanout(outbox, cs, data, failing)
             == if c in failing then before else before[c := Inbox(before, c) + [data]];
    }
  }

  class Server {
    var clients: seq<Handle>
    var names: map<Handle, string>
    var outbox: map<Handle, seq<string>>
    /** The next socket `make_shared` would hand out. */
    var nextSocket: Handle
    /** Whether the running operation holds `clients_mutex`. */
    ghost var lockHeld: bool
    /** Every lock and unlock of `clients_mutex` so far, in order. */
    ghost var lockLog: seq<LockOp>

    /** The registry invariant, and only sockets already made have been
        written to. */
    ghost predicate Valid()
      reads this`clients, this`names, this`outbox, this`nextSocket
    {
      && Consistent(clients, names, nextSocket)
      && (forall k :: k in outbox ==> k < nextSocket)
    }

    /** The ghost flag agrees with the lock trace. */
    ghost predicate Locking()
      reads this`lockHeld, this`lockLog
    {
      Replay(false, lockLog) == Some(lockHeld)
    }

    function State(): Registry
      reads this`clients, this`names, this`outbox
    {
      Registry(clients, names, outbox)
    }

    /** The process-wide state at startup: empty vector, empty map. */
    constructor ()
      ensures Valid() && Locking() && !lockHeld
      ensures State() == Registry([], map[], map[]) && nextSocket == 0
    {
      clients, names, outbox, nextSocket := [], map[], map[], 0;
      lockHeld, lockLog := false, [];
    }

    /** std::mutex::lock; `clients_mutex` is not recursive. */
    ghost method Acquire()
      requires Locking() && !lockHeld
      modifies this`lockHeld, this`lockLog
      ensures Locking() && lockHeld && lockLog == old(lockLog) + [Lock]
    {
      ReplayAppend(false, lockLog, [Lock]);
      lockLog, lockHeld := lockLog + [Lock], true;
    }

    ghost method Release()
      requires Locking() && lockHeld
      modifies this`lockHeld, this`lockLog
      ensures Locking() && !lockHeld && lockLog == old(lockLog) + [Unlock]
    {
      ReplayAppend(false, lockLog, [Unlock]);
      lockLog, lockHeld := lockLog + [Unlock], false;
    }

    /** One iteration of the accept loop: a new socket is appended to
        `clients` under the lock; it has no name yet. */
    method Accept() returns (h: Handle)
      requires Valid() && Locking() && !lockHeld
      modifies this`clients, this`nextSocket, this`lockHeld, this`lockLog
      ensures Valid() && Locking() && !lockHeld && lockLog == old(lockLog) + GuardOps()
      ensures h == old(nextSocket) && h !in old(clients) && h !in names && Inbox(outbox, h) == []
      ensures clients == old(clients) + [h] && nextSocket == old(nextSocket) + 1
    {
      h := nextSocket;
      AcceptKeepsConsistent(clients, names, nextSocket);
      nextSocket := nextSocket + 1;
      GuardLog(lockLog);
      Acquire();
      clients := clients + [h];
      Release();
    }

    /** The handshake's `client_names[client] = username`, under the lock. */
    method SetName(h: Handle, name: string)
      requires Valid() && Locking() && !lockHeld && h in clients
      modifies this`names, this`lockHeld, this`lockLog
      ensures Valid() && Locking() && !lockHeld && lockLog == old(lockLog) + GuardOps()
      ensures names == old(names)[h := name]
    {
      GuardLog(lockLog);
      Acquire();
      names := names[h := name];
      Release();
    }

    /** broadcast: under the lock, one write of `message + "\n"` to every
        element of `clients`, in order; a failed write is ignored and the
        loop goes on. Membership and names do not change. */
    method Broadcast(message: string, failing: set<Handle>) returns (attempts: seq<Write>)
      requires Valid() && Locking() && !lockHeld
      modifies this`outbox, this`lockHeld, this`lockLog
      ensures Valid() && Locking() && !lockHeld && lockLog == old(lockLog) + GuardOps()
      ensures |attempts| == |clients|
      ensures forall k :: 0 <= k < |clients| ==>
                attempts[k] == Write(clients[k], message + "\n", clients[k] !in failing)
      ensures outbox == Fanout(old(outbox), clients, message + "\n", failing)
    {
      GuardLog(lockLog);
      Acquire();
      var data := message + "\n";
      attempts := [];
      var i := 0;
      while i < |clients|
        invariant 0 <= i <= |clients|
        invariant |attempts| == i
        invariant forall k :: 0 <= k < i ==> attempts[k] == Write(clients[k], data, clients[k] !in failing)
        invariant outbox == Fanout(old(outbox), clients[..i], data, failing)
        invariant Locking() && lockHeld && lockLog == old(lockLog) + [Lock]
      {
        var c := clients[i];
        var delivered := c !in failing;
        if delivered {
          outbox := outbox[c := Inbox(outbox, c) + [data]];
        }
        attempts := attempts + [Write(c, data, delivered)];
        assert clients[..i + 1][..i] == clients[..i];
        i := i + 1;
      }
      assert clients[..i] == clients;
      FanoutKeys(old(outbox), clients, data, failing, nextSocket);
      Release();
    }

    /** The locked part of the catch block: erase-remove from `clients` and
        erase from `client_names`. Removing an absent handle changes nothing. */
    method Remove(h: Handle)
      requires Valid() && Locking() && !lockHeld
      modifies this`clients, this`names, this`lockHeld, this`lockLog
      ensures Valid() && Locking() && !lockHeld && lockLog == old(lockLog) + GuardOps()
      ensures clients == RemoveAll(old(clients), h) && names == old(names) - {h}
    {
      GuardLog(lockLog);
      LeaveKeepsConsistent(clients, names, nextSocket, h);
      Acquire();
      clients := RemoveAll(clients, h);
      names := names - {h};
      Release();
    }

    /** The catch block of handle_client, with the guard released before the
        departure is broadcast (see LockOrder.LeaveAsWrittenDeadlocks for the
        order the code has). */
    method Disconnect(h: Handle, failing: set<Handle>)
      requires Valid() && Locking() && !lockHeld
      modifies this`clients, this`names, this`outbox, this`lockHeld, this`lockLog
      ensures Valid() && Locking() && !lockHeld && lockLog == old(lockLog) + LeaveOps()
      ensures State() == ApplyAll(old(State()), h, [Deregister, Send(LeftMessage)], failing)
    {
      ApplyAllPair(State(), h, Deregister, Send(LeftMessage), failing);
      LeaveLog(lockLog);
      Remove(h);
      var _ := Broadcast(LeftMessage, failing);
    }

    /** The handshake's registration and announcement: the name is recorded
        under the lock, then the join is broadcast to every client. */
    method Join(h: Handle, username: string, failing: set<Handle>)
      requires Valid() && Locking() && !lockHeld && h in clients
      modifies this`names, this`outbox, this`lockHeld, this`lockLog
      ensures Valid() && Locking() && !lockHeld && h in clients
      ensures lockLog == old(lockLog) + GuardOps() + GuardOps()
      ensures State() == ApplyAll(old(State()), h, [Register(username), Send(JoinedMessage(username))], failing)
    {
      ApplyAllPair(State(), h, Register(username), Send(JoinedMessage(username)), failing);
      SetName(h, username);
      var _ := Broadcast(JoinedMessage(username), failing);
    }

    /** One received line of the relay loop: an empty line is skipped,
        any other is broadcast as `username: line`. */
    method RelayLine(h: Handle, username: string, message: string, failing: set<Handle>)
      requires Valid() && Locking() && !lockHeld
      modifies this`outbox, this`lockHeld, this`lockLog
      ensures Valid() && Locking() && !lockHeld && clients == old(clients)
      ensures lockLog == old(lockLog) + Guards(|ChatMessages(username, [message])|)
      ensures State() == ApplyAll(old(State()), h, Sends(ChatMessages(username, [message])), failing)
    {
      if message == "" {
        assert ChatMessages(username, [message]) == [];
        return;
      }
      var formatted := ChatMessage(username, message);
      assert ChatMessages(username, [message]) == [formatted];
      assert Sends([formatted]) == [Send(formatted)];
      ApplyAllOne(State(), h, Send(formatted), failing);
      GuardsStep([], 0);
      var _ := Broadcast(formatted, failing);
    }

    /** The `while (true)` loop of handle_client once the connection is named:
        `buf` and `chunks[i..]` are what is still to be read. Each complete
        non-empty line is broadcast as `username: line`; an empty one is
        skipped; the loop ends at the first failed read. */
    method RelayLines(h: Handle, username: string, chunks: seq<string>, i: nat, buf: string,
                      failing: set<Handle>)
      requires Valid() && Locking() && !lockHeld && h in clients && i <= |chunks|
      modifies this`outbox, this`lockHeld, this`lockLog
      ensures Valid() && Locking() && !lockHeld
      ensures lockLog == old(lockLog) + Guards(|ChatMessages(username, Frame(buf + Concat(chunks[i..])).0)|)
      ensures State() == ApplyAll(old(State()), h,
                                  Sends(ChatMessages(username, Frame(buf + Concat(chunks[i..])).0)),
                                  failing)
    {
      ghost var s0 := State();
      ghost var pending := buf + Concat(chunks[i..]);
      ghost var consumed: seq<string> := [];
      ghost var log0 := lockLog;
      var j, rest := i, buf;
      assert pending == Unframe(consumed) + (rest + Concat(chunks[j..]));
      while true
        invariant i <= j <= |chunks|
        invariant Lines(consumed)
        invariant pending == Unframe(consumed) + (rest + Concat(chunks[j..]))
        invariant State() == ApplyAll(s0, h, Sends(ChatMessages(username, consumed)), failing)
        invariant lockLog == log0 + Guards(|ChatMessages(username, consumed)|)
        invariant Valid() && Locking() && !lockHeld && clients == s0.clients
        decreases |rest| + |Concat(chunks[j..])|
      {
        ghost var rest0, j0 := rest, j;
        var line;
        line, j, rest := ReadLine(chunks, j, rest);
        if line.None? {
          FrameUnique(consumed, rest0 + Concat(chunks[j0..]));
          break;
        }
        var message := line.value;
        UnframeStep(consumed, message, rest, Concat(chunks[j..]));
        LinesAppend(consumed, [message]);
        RelaySteps(s0, h, username, consumed, message, failing, log0);
        RelayLine(h, username, message, failing);
        consumed := consumed + [message];
      }
    }

    /** handle_client for the socket `h`, whose reads deliver `chunks` and
        then fail. One stream buffer serves every read; the first line names
        the connection, every later non-empty line is relayed, and the
        failed read leads to the catch block. */
    method HandleClient(h: Handle, chunks: seq<string>, failing: set<Handle>)
      requires Valid() && Locking() && !lockHeld && h in clients
      modifies this`clients, this`names, this`outbox, this`lockHeld, this`lockLog
      ensures Valid() && Locking() && !lockHeld
      ensures lockLog == old(lockLog) + Guards(|Session(Frame(Concat(chunks)).0)|)
      ensures State() == ApplyAll(old(State()), h, Session(Frame(Concat(chunks)).0), failing)
    {
      ghost var log0 := lockLog;
      var line, i, buf := ReadLine(chunks, 0, "");
      assert "" + Concat(chunks[0..]) == Concat(chunks) by {
        assert chunks[0..] == chunks;
      }
      if line.None? {
        NoCompleteLine(chunks);
        LeaveLog(log0);
        Disconnect(h, failing);
        SessionWithoutHandshake();
        return;
      }
      ghost var s0 := State();
      var username := DisplayName(line.value);
      Join(h, username, failing);
      FirstLineRead(chunks, line.value, i, buf);
      SessionOfStream(s0, h, line.value, buf + Concat(chunks[i..]), failing);
      ghost var pending := Frame(buf + Concat(chunks[i..])).0;
      RelayLines(h, username, chunks, i, buf, failing);
      SessionGuards(log0, |ChatMessages(username, pending)|);
      SessionLength(line.value, pending);
      Disconnect(h, failing);
    }
  }
}
