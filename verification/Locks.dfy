/** A readers-writer lock, by the threads that hold it. */
module Locks {
  import opened Basics

  datatype RwLock = RwLock(readers: set<nat>, writer: Option<nat>) {
    predicate CanRead() {
      writer.None?
    }

    predicate CanWrite() {
      writer.None? && readers == {}
    }

    function Read(t: nat): RwLock {
      this.(readers := readers + {t})
    }

    function Unread(t: nat): RwLock {
      this.(readers := readers - {t})
    }

    function Write(t: nat): RwLock {
      this.(writer := Some(t))
    }

    function Unwrite(): RwLock {
      this.(writer := None)
    }

    ghost predicate Exclusive() {
      writer.Some? ==> readers == {}
    }
  }

  const FREE: RwLock := RwLock({}, None)

  /** A thread's hold on a lock. */
  datatype Hold = NoHold | ReadHold | WriteHold

  /** The lock records exactly the holds of the threads. */
  ghost predicate HeldAs(lock: RwLock, holds: seq<Hold>) {
    && lock.Exclusive()
    && (forall t :: t in lock.readers ==> t < |holds|)
    && (lock.writer.Some? ==> lock.writer.value < |holds|)
    && forall t :: 0 <= t < |holds| ==>
                     && (t in lock.readers <==> holds[t] == ReadHold)
                     && (lock.writer == Some(t) <==> holds[t] == WriteHold)
  }

  /** What a thread may do to a lock, and to its hold on it: wait, acquire, or release. */
  ghost predicate LockMove(lock: RwLock, lock': RwLock, t: nat, was: Hold, now: Hold) {
    if now == was then lock' == lock
    else if now == ReadHold then was == NoHold && lock.CanRead() && lock' == lock.Read(t)
    else if now == WriteHold then was == NoHold && lock.CanWrite() && lock' == lock.Write(t)
    else if was == ReadHold then lock' == lock.Unread(t)
    else lock' == lock.Unwrite()
  }

  lemma MoveKeepsHeld(lock: RwLock, lock': RwLock, holds: seq<Hold>, t: nat, now: Hold)
    requires t < |holds| && HeldAs(lock, holds) && LockMove(lock, lock', t, holds[t], now)
    ensures HeldAs(lock', holds[t := now])
  {
  }
}
