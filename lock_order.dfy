/** Lock discipline on `clients_mutex`, a non-recursive `std::mutex`.

    Each registry operation is described by the lock and unlock steps its
    `lock_guard`s perform, in order. A thread that locks the mutex while it
    already holds it blocks forever, so such a trace has no successor state. */
module LockOrder {
  import opened Base

  datatype LockOp = Lock | Unlock

  /** Whether the mutex is held after one thread performs `ops` starting
      from `held`; `None` once the thread locks a mutex it already holds
      (self-deadlock) or unlocks one it does not hold. */
  function Replay(held: bool, ops: seq<LockOp>): Option<bool>
    decreases |ops|
  {
    if ops == [] then Some(held)
    else match ops[0]
      case Lock => if held then None else Replay(true, ops[1..])
      case Unlock => if held then Replay(false, ops[1..]) else None
  }

  /** One scoped `lock_guard`: locked where it is declared, released where its
      block ends. Every registry operation the source performs under the
      mutex takes one: the push_back on accept (chat.h:89-92), the name
      assignment in the handshake (chat.h:50-53) and broadcast (chat.h:27-36). */
  function GuardOps(): seq<LockOp> { [Lock, Unlock] }

  /** `n` scoped guards, one after another. */
  function Guards(n: nat): seq<LockOp> {
    if n == 0 then [] else Guards(n - 1) + GuardOps()
  }

  /** The leave path as written: the guard taken at chat.h:69 lives until the
      catch block ends at chat.h:74, and broadcast, called inside it at
      chat.h:73, takes its own guard. */
  function LeaveAsWrittenOps(): seq<LockOp> { [Lock] + GuardOps() + [Unlock] }

  /** The leave path as evidently intended: release the guard after the
      removal, then broadcast. */
  function LeaveOps(): seq<LockOp> { GuardOps() + GuardOps() }

  /** A lock followed by an unlock is one scoped guard. */
  lemma GuardLog(log: seq<LockOp>)
    ensures log + [Lock] + [Unlock] == log + GuardOps()
  {
    AppendAssoc(log, [Lock], [Unlock]);
  }

  /** Two operations under the lock, one after the other. */
  lemma LeaveLog(log: seq<LockOp>)
    ensures log + GuardOps() + GuardOps() == log + LeaveOps() == log + Guards(2)
  {
    AppendAssoc(log, GuardOps(), GuardOps());
    assert Guards(2) == Guards(1) + GuardOps();
  }

  /** One more guard. */
  lemma GuardsStep(log: seq<LockOp>, k: nat)
    ensures log + Guards(k) + GuardOps() == log + Guards(k + 1)
  {
    AppendAssoc(log, Guards(k), GuardOps());
  }

  /** Guards taken in two stretches are the guards of both, in order. */
  lemma {:induction false} GuardsAppend(a: nat, b: nat)
    ensures Guards(a + b) == Guards(a) + Guards(b)
    decreases b
  {
    if b > 0 {
      GuardsAppend(a, b - 1);
      AppendAssoc(Guards(a), Guards(b - 1), GuardOps());
    }
  }

  /** Two guards, `k` guards, then the two guards of the leave path. */
  lemma SessionGuards(log: seq<LockOp>, k: nat)
    ensures log + GuardOps() + GuardOps() + Guards(k) + LeaveOps() == log + Guards(k + 4)
  {
    var two := Guards(2);
    LeaveLog(log);
    LeaveLog([]);
    assert LeaveOps() == two;
    GuardsAppend(2, k);
    GuardsAppend(2 + k, 2);
    AppendAssoc(log, two, Guards(k));
    AppendAssoc(log, two + Guards(k), two);
  }

  lemma {:induction false} ReplayAppend(held: bool, a: seq<LockOp>, b: seq<LockOp>)
    ensures Replay(held, a + b)
            == (if Replay(held, a).None? then None else Replay(Replay(held, a).value, b))
    decreases |a|
  {
    if a == [] {
      assert a + b == b;
    } else {
      assert (a + b)[0] == a[0];
      assert (a + b)[1..] == a[1..] + b;
      match a[0]
      case Lock => if !held { ReplayAppend(true, a[1..], b); }
      case Unlock => if held { ReplayAppend(false, a[1..], b); }
    }
  }

  /** Calling broadcast while holding the registry lock never returns,
      whatever the thread did before and would do after. */
  lemma BroadcastUnderLockDeadlocks(before: seq<LockOp>, after: seq<LockOp>)
    requires Replay(false, before) == Some(true)
    ensures Replay(false, before + GuardOps() + after) == None
  {
    ReplayAppend(false, before, GuardOps());
    ReplayAppend(false, before + GuardOps(), after);
  }

  /** The leave path as written self-deadlocks from every state in which the
      thread does not hold the lock. */
  lemma LeaveAsWrittenDeadlocks(before: seq<LockOp>)
    requires Replay(false, before) == Some(false)
    ensures Replay(false, before + LeaveAsWrittenOps()) == None
  {
    ReplayAppend(false, before, [Lock]);
    BroadcastUnderLockDeadlocks(before + [Lock], [Unlock]);
    assert before + LeaveAsWrittenOps() == before + [Lock] + GuardOps() + [Unlock];
  }

  /** The corrected leave path, like every other operation, returns with the
      lock released. */
  lemma LeaveReleases(before: seq<LockOp>)
    requires Replay(false, before) == Some(false)
    ensures Replay(false, before + LeaveOps()) == Some(false)
  {
    ReplayAppend(false, before, LeaveOps());
  }
}
