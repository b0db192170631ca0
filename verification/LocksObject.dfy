/** The lock service as an object, with handles that an extension updates in place. */
module LocksObject {
  import opened Prelude
  import opened Locks

  class LockHandle {
    const resource: string
    const token: string
    var expiresAt: int
    ghost var released: bool

    constructor (resource: string, token: string, expiresAt: int)
      ensures this.resource == resource && this.token == token && this.expiresAt == expiresAt && !released
    {
      this.resource, this.token, this.expiresAt, released := resource, token, expiresAt, false;
    }

    ghost function View(): Handle
      reads this
    {
      Handle(resource, token, expiresAt, released)
    }
  }

  class DistributedLockService {
    var memoryLocks: map<string, Lease>
    /** The handles given out so far. */
    ghost var issued: seq<LockHandle>

    ghost predicate Valid()
      reads this
    {
      forall i, j :: 0 <= i < j < |issued| ==> issued[i] != issued[j]
    }

    ghost function View(): Table
      reads this, issued
    {
      Table(memoryLocks, seq(|issued|, i requires 0 <= i < |issued| reads this, issued => issued[i].View()))
    }

    constructor ()
      ensures Valid() && View() == Empty() && issued == []
    {
      memoryLocks, issued := map[], [];
    }

    method TryAcquire(resource: string, ttlMs: int, token: string, now: int) returns (handle: LockHandle?)
      requires Valid()
      modifies this
      ensures Valid() && View() == Acquire(old(View()), resource, ttlMs, token, now)
      ensures handle == null <==> old(Taken(View(), resource, now))
      ensures handle == null ==> issued == old(issued)
      ensures handle != null ==> fresh(handle) && issued == old(issued) + [handle]
      ensures handle != null ==>
                handle.resource == resource && handle.token == token && !handle.released && handle.expiresAt == now + ttlMs
    {
      if resource in memoryLocks && memoryLocks[resource].expiresAt > now { return null; }
      handle := new LockHandle(resource, token, now + ttlMs);
      memoryLocks := memoryLocks[resource := Lease(token, handle.expiresAt)];
      issued := issued + [handle];
    }

    method TryRelease(handle: LockHandle, ghost h: nat) returns (ok: bool)
      requires Valid() && h < |issued| && issued[h] == handle
      modifies this`memoryLocks, handle`released
      ensures Valid() && issued == old(issued) && View() == Release(old(View()), h)
      ensures ok == old(Holds(View(), h))
    {
      ok := handle.resource in memoryLocks && memoryLocks[handle.resource].token == handle.token;
      if ok {
        memoryLocks := memoryLocks - {handle.resource};
        handle.released := true;
      }
    }

    method TryExtend(handle: LockHandle, ttlMs: int, now: int, ghost h: nat) returns (ok: bool)
      requires Valid() && h < |issued| && issued[h] == handle
      modifies this`memoryLocks, handle`expiresAt
      ensures Valid() && issued == old(issued) && View() == Extend(old(View()), h, ttlMs, now)
      ensures ok == old(Holds(View(), h))
      ensures handle.expiresAt == if ok then now + ttlMs else old(handle.expiresAt)
    {
      ok := handle.resource in memoryLocks && memoryLocks[handle.resource].token == handle.token;
      if ok {
        memoryLocks := memoryLocks[handle.resource := Lease(handle.token, now + ttlMs)];
        handle.expiresAt := memoryLocks[handle.resource].expiresAt;
      }
    }
  }
}
