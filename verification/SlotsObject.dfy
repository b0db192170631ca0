/** The slot table as the registry keeps it: fields updated in place. */
module SlotsObject {
  import opened Prelude
  import opened Slots
  import opened SlotsSafety

  ghost predicate Within(queue: seq<nat>, n: nat) {
    forall i :: 0 <= i < |queue| ==> queue[i] < n
  }

  /** Queues mention only callers that exist. */
  ghost predicate InRange(t: Table) {
    forall k <- t.sems :: Within(t.sems[k].queue, |t.callers|)
  }

  lemma InvInRange(t: Table)
    requires Inv(t)
    ensures InRange(t)
  {
    forall k | k in t.sems ensures Within(t.sems[k].queue, |t.callers|) {
      assert Queued(t, k);
      assert forall i :: 0 <= i < |t.sems[k].queue| ==> t.sems[k].queue[i] in SemOf(t, k).queue;
    }
  }

  /** A caller waits only for a semaphore that exists. */
  lemma WaitersAreQueued(t: Table, c: nat, k: Key)
    requires Inv(t) && c < |t.callers| && Waits(t.callers[c], k)
    ensures k in t.sems
  {
    assert Queued(t, k);
  }

  class SlotRegistry {
    const limit: nat
    var semaphores: map<Key, Sem>
    var callers: seq<Caller>

    function View(): Table
      reads this
    {
      Table(limit, semaphores, callers)
    }

    ghost predicate Valid()
      reads this
    {
      Inv(View())
    }

    constructor (limit: nat)
      ensures Valid() && View() == Empty(limit)
    {
      this.limit := limit;
      semaphores := map[];
      callers := [];
    }

    /** Find the caller in a queue and splice it out; a caller that is not there is no error. */
    method Splice(queue: seq<nat>, c: nat) returns (left: seq<nat>)
      ensures left == Without(queue, c)
    {
      var i := 0;
      while i < |queue| && queue[i] != c
        invariant 0 <= i <= |queue|
        invariant Without(queue, c) == queue[..i] + Without(queue[i..], c)
      {
        assert queue[..i + 1] == queue[..i] + [queue[i]];
        assert queue[i..][1..] == queue[i + 1..];
        i := i + 1;
      }
      if i < |queue| {
        left := queue[..i] + queue[i + 1..];
        assert queue[i..][1..] == queue[i + 1..];
      } else {
        left := queue;
        assert queue[..i] == queue;
      }
    }

    method SetPhase(c: nat, phase: Phase)
      requires c < |callers|
      modifies this`callers
      ensures callers == old(callers)[c := old(callers)[c].(phase := phase)]
    {
      callers := callers[c := callers[c].(phase := phase)];
    }

    method AcquireSemaphore(k: Key, c: nat, got: Phase, waits: Phase)
      requires c < |callers|
      modifies this
      ensures View() == Slots.AcquireSemaphore(old(View()), k, c, got, waits)
    {
      if k !in semaphores {
        semaphores := semaphores[k := Sem(0, [])];
      }
      var sem := semaphores[k];
      if sem.count < Limit(limit, k) {
        semaphores := semaphores[k := sem.(count := sem.count + 1)];
        SetPhase(c, got);
      } else {
        semaphores := semaphores[k := sem.(queue := sem.queue + [c])];
        SetPhase(c, waits);
      }
    }

    method ReleaseSemaphore(k: Key)
      requires InRange(View())
      modifies this
      ensures InRange(View())
      ensures View() == Slots.ReleaseSemaphore(old(View()), k)
    {
      if k !in semaphores { return; }
      var sem := semaphores[k];
      assert Within(sem.queue, |callers|);
      semaphores := semaphores[k := sem.(count := Max(0, sem.count - 1))];
      if sem.queue != [] {
        var next := sem.queue[0];
        semaphores := semaphores[k := Sem(semaphores[k].count + 1, sem.queue[1..])];
        SetPhase(next, Woken(k));
      }
      assert forall k' <- semaphores :: k' != k ==> semaphores[k'] == old(semaphores)[k'];
      assert Within(semaphores[k].queue, |callers|);
    }

    /** What the abort listener of a queued caller does. */
    method LeaveQueue(k: Key, c: nat, phase: Phase)
      requires c < |callers| && k in semaphores
      modifies this
      ensures View() == Slots.LeaveQueue(old(View()), k, c, phase)
    {
      var left := Splice(semaphores[k].queue, c);
      semaphores := semaphores[k := semaphores[k].(queue := left)];
      SetPhase(c, phase);
    }

    method Acquire(provider: string, host: Option<string>, hasSignal: bool, preAborted: bool) returns (c: nat)
      requires Valid()
      modifies this
      ensures c == |old(callers)|
      ensures Valid() && View() == Slots.Acquire(old(View()), provider, host, hasSignal, preAborted)
    {
      AcquireKeeps(View(), provider, host, hasSignal, preAborted);
      c := |callers|;
      callers := callers + [Caller(provider, host, hasSignal, preAborted, Aborted)];
      if !preAborted {
        AcquireSemaphore(Provider(provider), c, HasProvider, WaitingProvider);
      }
    }

    /** The part of an acquire after its provider slot, and the part after its host was refused. */
    method Resume(c: nat)
      requires Valid()
      modifies this
      ensures Valid() && View() == Slots.Resume(old(View()), c)
    {
      ResumeKeeps(View(), c);
      InvInRange(View());
      if c >= |callers| { return; }
      var caller := callers[c];
      match caller.phase
      case HasProvider =>
        match HostKey(caller) {
          case None => SetPhase(c, Phase.Holding);
          case Some(k) =>
            AcquireSemaphore(k, c, Phase.Holding, WaitingHost);
            if callers[c].phase.WaitingHost? && caller.signalled {
              LeaveQueue(k, c, HostRefused);
            }
        }
      case HostRefused =>
        SetPhase(c, Aborted);
        ReleaseSemaphore(Provider(caller.provider));
      case _ =>
    }

    method Abort(c: nat)
      requires Valid()
      modifies this
      ensures Valid() && View() == Slots.Abort(old(View()), c)
    {
      AbortKeeps(View(), c);
      if c >= |callers| || !callers[c].hasSignal { return; }
      if Waits(callers[c], Provider(callers[c].provider)) {
        WaitersAreQueued(View(), c, Provider(callers[c].provider));
      } else if callers[c].phase.WaitingHost? && HostKey(callers[c]).Some? {
        WaitersAreQueued(View(), c, HostKey(callers[c]).value);
      }
      callers := callers[c := callers[c].(signalled := true)];
      var caller := callers[c];
      match caller.phase
      case WaitingProvider => LeaveQueue(Provider(caller.provider), c, Aborted);
      case WaitingHost =>
        match HostKey(caller) {
          case Some(k) => LeaveQueue(k, c, HostRefused);
          case None =>
        }
      case _ =>
    }

    /** The release function handed to caller `c`. */
    method Release(c: nat)
      requires Valid()
      modifies this
      ensures Valid() && View() == Slots.Release(old(View()), c)
    {
      ReleaseKeeps(View(), c);
      InvInRange(View());
      if c >= |callers| || !callers[c].phase.Holding? { return; }
      var caller := callers[c];
      SetPhase(c, Released);
      ReleaseSemaphore(Provider(caller.provider));
      match HostKey(caller) {
        case None =>
        case Some(k) => ReleaseSemaphore(k);
      }
    }
  }
}
