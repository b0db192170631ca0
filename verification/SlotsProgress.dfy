/** Waiting for a slot ends: nothing deadlocks and every schedule is finite. */
module SlotsProgress {
  import opened Prelude
  import opened Counting
  import opened Slots
  import opened SlotsSafety
  import opened SlotsRuns

  /** The most steps a caller has still before it. */
  function Rank(c: Caller): nat {
    match c.phase
    case WaitingProvider => 4
    case HasProvider => 3
    case WaitingHost => 2
    case HostRefused => 1
    case Holding => 1
    case _ => 0
  }

  function Work(callers: seq<Caller>): nat {
    if callers == [] then 0 else Rank(callers[0]) + Work(callers[1..])
  }

  lemma {:induction false} WorkUpdate(callers: seq<Caller>, c: nat, caller: Caller)
    requires c < |callers|
    ensures Work(callers[c := caller]) == Work(callers) - Rank(callers[c]) + Rank(caller)
  {
    if c == 0 {
      assert callers[0 := caller][1..] == callers[1..];
    } else {
      WorkUpdate(callers[1..], c - 1, caller);
      assert callers[c := caller][1..] == callers[1..][c - 1 := caller];
    }
  }

  lemma {:induction false} WorkIsZero(callers: seq<Caller>)
    ensures Work(callers) == 0 <==> forall c <- callers :: Rank(c) == 0
  {
    if callers != [] {
      WorkIsZero(callers[1..]);
      assert forall c <- callers :: c == callers[0] || c in callers[1..];
    }
  }

  /** The step changes something: a caller goes on after its promise was settled, gives its
      slots back, or is aborted in a queue. */
  predicate Effective(t: Table, op: Op) {
    match op
    case DoAcquire(_, _, _, _) => false
    case DoResume(c) => c < |t.callers| && (t.callers[c].phase.HasProvider? || t.callers[c].phase.HostRefused?)
    case DoRelease(c) => c < |t.callers| && t.callers[c].phase.Holding?
    case DoAbort(c) =>
      && c < |t.callers| && t.callers[c].hasSignal
      && (t.callers[c].phase.WaitingProvider? || t.callers[c].phase.WaitingHost?)
  }

  lemma HandOffWorks(t: Table, k: Key)
    requires Queued(t, k)
    ensures Work(ReleaseSemaphore(t, k).callers) <= Work(t.callers)
  {
    var queue := SemOf(t, k).queue;
    if k in t.sems && queue != [] {
      assert queue[0] in queue;
      WorkUpdate(t.callers, queue[0], t.callers[queue[0]].(phase := Woken(k)));
    }
  }

  lemma BecomeWorks(t: Table, c: nat, caller: Caller)
    requires c < |t.callers| && Rank(caller) < Rank(t.callers[c])
    ensures Work(t.callers[c := caller]) < Work(t.callers)
  {
    WorkUpdate(t.callers, c, caller);
  }

  lemma ResumeWorks(t: Table, c: nat)
    requires Inv(t) && Effective(t, DoResume(c))
    ensures Work(Resume(t, c).callers) < Work(t.callers)
  {
    var caller := t.callers[c];
    if caller.phase.HostRefused? {
      var owed := set k' | k' in SlotsOf(caller) && Holds(caller, k');
      BecomeWorks(t, c, caller.(phase := Aborted));
      DoneOwes(t, c, Aborted);
      assert Queued(Become(t, c, Aborted), Provider(caller.provider));
      HandOffWorks(Become(t, c, Aborted), Provider(caller.provider));
    } else {
      var after := Resume(t, c).callers;
      assert after == t.callers[c := after[c]];
      BecomeWorks(t, c, after[c]);
    }
  }

  lemma ReleaseWorks(t: Table, c: nat)
    requires Inv(t) && Effective(t, DoRelease(c))
    ensures Work(Release(t, c).callers) < Work(t.callers)
  {
    var caller := t.callers[c];
    var k := Provider(caller.provider);
    var owed := set k' | k' in SlotsOf(caller) && Holds(caller, k');
    var done := Become(t, c, Released);
    BecomeWorks(t, c, caller.(phase := Released));
    DoneOwes(t, c, Released);
    assert Queued(done, k);
    HandOffWorks(done, k);
    if HostKey(caller).Some? {
      ReleaseSettles(done, k, owed);
      assert Queued(ReleaseSemaphore(done, k), HostKey(caller).value);
      HandOffWorks(ReleaseSemaphore(done, k), HostKey(caller).value);
    }
  }

  lemma AbortWorks(t: Table, c: nat)
    requires Inv(t) && Effective(t, DoAbort(c))
    ensures Work(Abort(t, c).callers) < Work(t.callers)
  {
    var caller := t.callers[c];
    assert caller in t.callers;
    var after := Abort(t, c).callers;
    assert after == t.callers[c := after[c]];
    BecomeWorks(t, c, after[c]);
  }

  /** Every step of the schedule changes something. */
  predicate Busy(t: Table, ops: seq<Op>)
    decreases |ops|
  {
    ops == [] || (Effective(t, ops[0]) && Busy(Step(t, ops[0]), ops[1..]))
  }

  /** Without new arrivals no schedule goes on for ever. */
  lemma {:induction false} SchedulesAreFinite(t: Table, ops: seq<Op>)
    requires Inv(t) && Busy(t, ops)
    ensures |ops| + Work(Run(t, ops).callers) <= Work(t.callers)
    decreases |ops|
  {
    if ops != [] {
      match ops[0] {
        case DoResume(c) => ResumeWorks(t, c);
        case DoRelease(c) => ReleaseWorks(t, c);
        case DoAbort(c) => AbortWorks(t, c);
        case _ =>
      }
      StepKeeps(t, ops[0]);
      SchedulesAreFinite(Step(t, ops[0]), ops[1..]);
    }
  }

  /** Where there is a waiter there is a caller that holds what it waits for. */
  lemma WaitersHaveHolders(t: Table, c: nat, k: Key) returns (h: nat)
    requires Inv(t) && t.limit >= 1 && c < |t.callers| && Waits(t.callers[c], k)
    ensures h < |t.callers| && Holds(t.callers[h], k)
  {
    assert Balanced(t, k, {}) && Queued(t, k);
    CountPositive(t.callers, HolderOf(k));
    assert c in SemOf(t, k).queue;
    h :| 0 <= h < |t.callers| && HolderOf(k)(t.callers[h]);
  }

  /** While anybody is unfinished, somebody can move without an abort: waiting for a provider
      slot, then a host slot, cannot close a circle. */
  lemma SomebodyCanMove(t: Table, c: nat) returns (mover: nat)
    requires Inv(t) && t.limit >= 1 && c < |t.callers| && Rank(t.callers[c]) > 0
    ensures mover < |t.callers| && (Effective(t, DoResume(mover)) || Effective(t, DoRelease(mover)))
  {
    mover := c;
    if t.callers[mover].phase.WaitingProvider? {
      mover := WaitersHaveHolders(t, mover, Provider(t.callers[mover].provider));
    }
    if t.callers[mover].phase.WaitingHost? {
      assert t.callers[mover] in t.callers;
      mover := WaitersHaveHolders(t, mover, HostKey(t.callers[mover]).value);
    }
  }

  /** In any reachable state in which nobody can move, everybody is finished and every slot is
      free again. */
  lemma RestMeansFree(limit: nat, ops: seq<Op>, k: Key)
    requires limit >= 1
    requires var t := Reached(limit, ops);
             forall c: nat :: c < |t.callers| ==> !Effective(t, DoResume(c)) && !Effective(t, DoRelease(c))
    ensures var t := Reached(limit, ops);
            && (forall c <- t.callers :: c.phase.Released? || c.phase.Aborted?)
            && SemOf(t, k) == Sem(0, [])
  {
    RunKeeps(Empty(limit), ops);
    LimitStays(Empty(limit), ops);
    var t := Reached(limit, ops);
    forall c | c in t.callers ensures Rank(c) == 0 {
      var i :| 0 <= i < |t.callers| && t.callers[i] == c;
      if Rank(c) > 0 {
        var mover := SomebodyCanMove(t, i);
      }
    }
    SlotsAreExact(limit, ops, k);
    CountPositive(t.callers, HolderOf(k));
  }

  lemma {:induction false} LimitStays(t: Table, ops: seq<Op>)
    ensures Run(t, ops).limit == t.limit
    decreases |ops|
  {
    if ops != [] {
      LimitStays(Step(t, ops[0]), ops[1..]);
    }
  }

  /** With no slots at all every caller waits for ever. */
  lemma LimitZeroStarves(provider: string)
    ensures var t := Reached(0, [DoAcquire(provider, None, false, false)]);
            && |t.callers| == 1 && t.callers[0].phase.WaitingProvider?
            && forall c: nat :: c < |t.callers| ==> !Effective(t, DoResume(c)) && !Effective(t, DoRelease(c))
  {
    var op := DoAcquire(provider, None, false, false);
    assert [op][1..] == [];
    assert Run(Empty(0), [op]) == Run(Step(Empty(0), op), []);
  }

  // ---------------------------------------------------------------- single operations

  /** Aborting a caller that waits for its host gives its provider slot back: the first waiter
      of the provider gets it, or the count goes down. The host keeps its count. */
  lemma AbortReturnsProviderSlot(t: Table, c: nat)
    requires Inv(t) && c < |t.callers| && t.callers[c].phase.WaitingHost? && t.callers[c].hasSignal
    ensures var u := Resume(Abort(t, c), c);
            var p := Provider(t.callers[c].provider);
            var queue := SemOf(t, p).queue;
            && u.callers[c].phase.Aborted?
            && c !in SemOf(u, HostKey(t.callers[c]).GetOr(p)).queue
            && SemOf(u, HostKey(t.callers[c]).GetOr(p)).count == SemOf(t, HostKey(t.callers[c]).GetOr(p)).count
            && (queue == [] ==> SemOf(u, p).count == SemOf(t, p).count - 1)
            && (queue != [] ==> SemOf(u, p) == Sem(SemOf(t, p).count, queue[1..])
                                && queue[0] < |u.callers| && u.callers[queue[0]].phase.HasProvider?)
  {
    var caller := t.callers[c];
    assert caller in t.callers;
    var p := Provider(caller.provider);
    var h := HostKey(caller).value;
    assert Balanced(t, p, {}) && Queued(t, p) && Queued(t, h);
    CountPositive(t.callers, HolderOf(p));
    assert HolderOf(p)(t.callers[c]);
    WithoutIs(SemOf(t, h).queue, c);
    if SemOf(t, p).queue != [] { assert SemOf(t, p).queue[0] in SemOf(t, p).queue; }
  }

  /** A release function called twice gives back once. */
  lemma ReleaseIsIdempotent(t: Table, c: nat)
    requires Inv(t)
    ensures Release(Release(t, c), c) == Release(t, c)
  {
    if c < |t.callers| && t.callers[c].phase.Holding? {
      var caller := t.callers[c];
      var k := Provider(caller.provider);
      var done := Become(t, c, Released);
      var owed := set k' | k' in SlotsOf(caller) && Holds(caller, k');
      DoneOwes(t, c, Released);
      assert Queued(done, k);
      ReleaseSettles(done, k, owed);
      var u := ReleaseSemaphore(done, k);
      if SemOf(done, k).queue != [] { assert SemOf(done, k).queue[0] in SemOf(done, k).queue; }
      assert u.callers[c].phase.Released?;
      if HostKey(caller).Some? {
        assert Queued(u, HostKey(caller).value);
        var queue := SemOf(u, HostKey(caller).value).queue;
        if queue != [] { assert queue[0] in queue; }
      }
    }
  }
}
