# xCom chat relay — a Dafny model

xCom is a terminal chat program. It has two parts, both in `src/chat.h`:

- **The server** (`run_server`) accepts TCP connections and keeps them in a shared `clients` vector. It keeps each connection's display name in a `client_names` map. Both are guarded by one `clients_mutex`.
- **The per-connection reader** (`handle_client`) reads a username line, records the name and announces the join. It then relays every non-empty line to every client as `name: line`. When a read fails, it removes the connection and means to announce that a user left. As written, it blocks at that point instead (see Findings).

**The client** (`run_client`) sends a username line and then each non-empty input line. A reader thread prints each non-empty line the server sends.

The model has six modules:

- `Base` holds the `Option` type and the associativity of concatenation, shared by the others.
- `Wire` models newline framing of a byte stream.
  - `Frame` splits a stream into its complete lines and an unterminated tail.
  - `ReadUntil` and `ReadLine` model `asio::read_until` followed by `std::getline`. They work on a stream buffer that persists across reads: bytes read past the first newline stay for the next call.
- `Protocol` models the reader's phase machine, `AwaitName → Chatting(name) → Gone`. It maps each received line to registry actions (`Register`, `Send`, `Deregister`). `Session` gives every action of one connection.
- `Relay` models the registry.
  - As a value: `Registry`, with `Apply`/`ApplyAll` and the fan-out `Fanout`.
  - As a class: `Relay.Server` holds the fields `clients`, `names` and `outbox` and a ghost lock. Its methods are `Accept`, `SetName`, `Broadcast`, `Remove`, `Disconnect`, `Join`, `RelayLine`, `RelayLines` and `HandleClient`. `Accept`, `SetName` and `Remove` state their new fields directly. `Broadcast` states its new outbox through `Fanout`. `Disconnect`, `Join`, `RelayLine`, `RelayLines` and `HandleClient` state their new registry as the value-level actions applied to the old one.
- `LockOrder` describes each operation by the lock and unlock steps its `lock_guard`s perform. Every registry operation takes one scoped guard (`GuardOps`). The class methods state their trace of guards, and the same traces show the finding below.
- `Client` models the client's send filter and receive filter. It also holds the end-to-end lemma `RoundTrip`: a peer prints the join, every non-empty typed line as `name: line`, and the departure.

Modelling conventions:

- **Sockets** are natural-number handles. `Accept` draws a fresh handle from a counter, as `make_shared` yields a new socket.
- **What is written to a socket** is appended to that handle's entry in `outbox`.
- **Whether a write fails** is given as a set of failing handles.
- **What a connection's reads deliver** is a sequence of chunks. After the last chunk the next read fails, which is the only way the source leaves its read loop.
- **Names are not trimmed.** The code only treats an exactly-empty line as empty: an empty username becomes `Unknown` (chat.h:48), and an empty chat line is skipped (chat.h:61). A line of blanks is a name, or is relayed. Lines of blanks are not treated as empty.

## Model

| member | source | states |
|---|---|---|
| Wire.Find | src/chat.h:44 | the result is the position of the first delimiter, or the length when there is none |
| Wire.FrameSplits | src/chat.h:41-47 | framing (`Frame`, the lines a persistent stream buffer hands out) yields delimiter-free lines and a delimiter-free tail, which together re-make the stream |
| Wire.FrameUnique | src/chat.h:41-47 | framing inverts unframing: lines followed by an unterminated tail are read back exactly |
| Wire.FrameAfterLines | src/chat.h:41-47 | lines already taken off the front of a stream do not change how the rest is split |
| Wire.ReadBackFramed | src/chat.h:121 | delimiter-free messages written one per write are read back exactly, with nothing pending |
| Wire.ConcatFramed | src/chat.h:30 | writing messages one at a time puts exactly their newline framing on the wire |
| Wire.NoCompleteLine | src/chat.h:44 | a stream in which the first read_until fails holds no complete line |
| Wire.ReadUntil | src/chat.h:44 | read_until consumes whole reads until the buffer holds a delimiter or the reads run out; every read but the last added had no delimiter |
| Wire.ReadLine | src/chat.h:58-60 | getline after read_until returns the bytes before the first delimiter; the buffer keeps everything after it; a failed read returns no line and the buffer held no delimiter |
| Protocol.RunHandshake | src/chat.h:44-55 | the reader's first step (`OnLine` in `AwaitName`) names the connection by `DisplayName` (`Unknown` when empty), registers it and then announces it |
| Protocol.RunChatting | src/chat.h:57-65 | while chatting, exactly the non-empty lines are relayed, in order, as `name: line`, and the phase stays |
| Protocol.RunAppend | src/chat.h:57-66 | the reader's run over two stretches of lines is its run over the first followed by its run over the second |
| Protocol.SessionShape | src/chat.h:39-74 | a connection's actions (`Session`: every `OnLine` step, then `OnEnd` for the failed read) are: register, announce the join, relay every non-empty line, deregister, announce the departure |
| Protocol.SessionLength | src/chat.h:39-74 | a session has one action per relayed line plus four: register, join, remove, leave |
| Protocol.SessionWithoutHandshake | src/chat.h:68-73 | a connection with no complete line is still deregistered, and the departure is still announced |
| Protocol.NonEmptyFilters | src/chat.h:61 | the filter keeps only non-empty lines that came from the input, and keeps an input without empty lines whole |
| Protocol.NonEmptyAppend | src/chat.h:61 | filtering works line by line over concatenation |
| Protocol.NonEmptyIdempotent | src/chat.h:61 | filtering twice is filtering once |
| Protocol.ChatMessagesNonEmpty | src/chat.h:61-63 | the relayed messages are the non-empty lines, one each, prefixed with `name: ` |
| Protocol.ChatMessagesSkipEmpty | src/chat.h:61 | dropping empty lines first changes nothing that is relayed |
| Protocol.ChatMessagesAppend | src/chat.h:57-65 | relaying works line by line over concatenation |
| Relay.RemoveAllCount | src/chat.h:70 | erase-remove (`RemoveAll`) deletes every occurrence of the handle and keeps every other handle's multiplicity |
| Relay.RemoveAllAppend | src/chat.h:70 | erase-remove keeps the survivors in their relative order |
| Relay.RemoveAllAbsent | src/chat.h:70 | removing an absent handle leaves `clients` unchanged |
| Relay.RemoveAllIdempotent | src/chat.h:70 | removing twice is removing once |
| Relay.RemoveAbsentIsNoop | src/chat.h:70-71 | removal of a connection that is neither a client nor named changes nothing |
| Relay.FanoutInbox | src/chat.h:28-34 | in the fan-out loop (`Fanout`), each handle receives the message once per occurrence in `clients` unless its write fails; a failure stops no later write; nobody else receives anything |
| Relay.FanoutKeys | src/chat.h:28-34 | the fan-out writes only to the sockets in `clients` |
| Relay.BroadcastReachesEachOnce | src/chat.h:26-36 | with no duplicate clients, each registered handle that does not fail receives the message exactly once |
| Relay.SendsDelivery | src/chat.h:26-36 | a run of broadcasts keeps membership and names, and hands each registered, non-failing recipient every message in order |
| Relay.LeaveDelivery | src/chat.h:69-73 | the leave path removes the connection, erases its name, and tells only the remaining non-failing clients |
| Relay.AcceptKeepsConsistent | src/chat.h:86-92 | appending a fresh socket keeps `clients` duplicate-free and every named handle a client |
| Relay.LeaveKeepsConsistent | src/chat.h:69-71 | removal keeps `clients` duplicate-free and every named handle a client |
| Relay.ConversationDelivery | src/chat.h:50-73 | registration, a run of broadcasts, then leaving: each recipient gets every message, only the others get the departure, and the connection ends up neither a client nor named |
| Relay.SessionDelivery | src/chat.h:39-74 | over a whole session, the newcomer and every other client get the join and every relayed line (the sender included); only the others get the departure |
| Relay.SilentSessionDelivery | src/chat.h:68-73 | a connection that closes before its handshake is removed, and only the remaining clients hear that a user left |
| Relay.Server.constructor | src/chat.h:15-17 | the registry starts with no clients, no names, nothing written and the lock free |
| Relay.Server.Accept | src/chat.h:86-92 | a fresh handle is appended to `clients` under one scoped guard; it has no name and has received nothing |
| Relay.Server.SetName | src/chat.h:50-53 | the handle's name is set under one scoped guard, and nothing else changes |
| Relay.Server.Broadcast | src/chat.h:26-36 | under the lock, one attempt per client in order, each of `message + "\n"`, delivered exactly when the write does not fail, all under one scoped guard; membership is unchanged |
| Relay.Server.Remove | src/chat.h:69-71 | under one lock, every occurrence of the handle leaves `clients` and its name is erased |
| Relay.Server.Disconnect | src/chat.h:68-74 | the catch block with the lock released before the announcement: the new registry is Deregister then Send(leave) applied to the old one |
| Relay.Server.Join | src/chat.h:50-55 | the new registry is Register(name) then Send(join) applied to the old one; the lock is taken twice, once for each, and released in between |
| Relay.Server.RelayLine | src/chat.h:59-65 | an empty line changes nothing and takes no lock; any other line is broadcast once as `name: line` under one guard |
| Relay.Server.RelayLines | src/chat.h:57-66 | the loop relays exactly the messages of the complete lines still pending, under one guard each, and ignores an unterminated tail |
| Relay.Server.HandleClient | src/chat.h:39-75 | the registry after the connection ends is the old one with the connection's Session applied, computed from the complete lines of its stream; the lock is taken exactly once per action of the session and released each time |
| LockOrder.GuardsAppend | src/chat.h:27-36 | the guards of two stretches of operations are the guards of the first followed by those of the second |
| LockOrder.ReplayAppend | src/chat.h:27 | the lock state after two stretches of lock steps is that of the first followed by that of the second |
| LockOrder.BroadcastUnderLockDeadlocks | src/chat.h:27 | calling broadcast while holding the registry lock never returns |
| LockOrder.LeaveAsWrittenDeadlocks | src/chat.h:69-74 | the leave path as written self-deadlocks from every state in which the lock is free |
| LockOrder.LeaveReleases | src/chat.h:69-74 | the corrected leave path returns with the lock free |
| Client.SendLines | src/chat.h:118-148 | the writes are the username line (`Unknown` when empty), then one line per non-empty input line, in order |
| Client.ShowLines | src/chat.h:124-139 | the printed lines are the non-empty complete lines received, in order, then the disconnection notice; an unterminated tail is never printed |
| Client.ServerReadsClient | src/chat.h:118-148 | the server frames the client's writes back into exactly the lines sent (`Outgoing`: the display name, then the non-empty input lines), and its session registers the name and relays every non-empty line |
| Client.ShowsWhatServerSent | src/chat.h:132-134 | the reader prints every non-empty message the server sent, in order; when none was empty, it prints all of them |
| Client.SessionMessagesAreLines | src/chat.h:55-73 | every message a session sends is non-empty and free of delimiters |
| Client.RoundTrip | src/chat.h:39-74 | a peer that was already connected, whose writes go through and which has already received some lines (its own join, say), prints the non-empty ones of those, then the newcomer's join, each non-empty typed line as `name: line` in order, then the departure |

## Left out

- Sockets, `io_context`, the acceptor and its endpoint, the resolver and `connect` (chat.h:80-83, 106-114) are left out: they are I/O, so reads become given chunks and writes become outbox entries.
- Threads and scheduling are left out. `thread(...).detach()` (chat.h:94) and `reader.join()` (chat.h:150) are not modelled. Each connection's reader runs alone against a registry state, so interleavings between readers are not modelled. The mutex is a ghost flag with a trace of lock steps.
- Console output is left out (chat.h:64, 72, 83, 95, 99, 114, 117, 154). The client reader's printed lines are the exception: they are `ShowLines`'s result.
- The server's outer `catch (std::exception&)` block (chat.h:98-100) is left out, because it only prints. So is the client's (chat.h:153-155) for failures before the reader thread exists (chat.h:106-121).
- `Client.SendLines`: every write of the client is assumed to succeed. In the source, a failed `asio::write` at chat.h:121 throws, which only prints at chat.h:154. A failed write at chat.h:146 throws while the reader thread built at chat.h:124 is still joinable. Its destructor then calls `std::terminate`, so the catch at chat.h:153-155 is never reached and the process aborts. This happens, for example, when the server has gone away and the user types another line. The model does not capture that abort.
- `Relay.Server.HandleClient`: whether each peer's write fails is one set for the whole session. A write that fails for one broadcast and succeeds for a later one is not modelled.
- `Relay.Server.Disconnect`: models the corrected order (release the lock, then broadcast). The order as written is exhibited by `LockOrder.LeaveAsWrittenDeadlocks` instead.
- `Relay.Server.SetName`, `Relay.Server.Join`, `Relay.Server.RelayLines` and `Relay.Server.HandleClient` require the handle to be in `clients`. In the source only a connection's own reader removes it, so this holds for every call the source makes.
- `Client.SendLines` takes standard input as the sequence of lines `getline` returns. How the console stream is split into lines is not modelled.
- `xCom.cpp` (argument parsing and the choice of server or client) is not part of this model.

## Findings

| source | as written | input that shows it | evidently intended | confidence | as-written member | corrected member |
|---|---|---|---|---|---|---|
| src/chat.h:69-74 | the catch block takes `clients_mutex` at line 69 and keeps it to line 74, but calls `broadcast` at line 73, and `broadcast` locks the same non-recursive mutex again at line 27. The thread blocks there and never releases the guard from line 69, so every later lock of `clients_mutex` blocks too: the `push_back` at line 91 and every other reader's broadcast. The whole server stalls, not only this reader | any connection whose read fails, for example a client that closes its socket | remove the connection under the lock, release it, then broadcast the departure | not executed | LockOrder.LeaveAsWrittenDeadlocks | Relay.Server.Disconnect |
