/** Slot counts are exact, nobody overtakes, nothing deadlocks. */
module SlotsSafety {
  import opened Prelude
  import opened Counting
  import opened Slots

  /** The caller counts towards `k`. */
  predicate Holds(c: Caller, k: Key) {
    match c.phase
    case HasProvider => k == Provider(c.provider)
    case WaitingHost => k == Provider(c.provider)
    case HostRefused => k == Provider(c.provider)
    case Holding => k == Provider(c.provider) || Some(k) == HostKey(c)
    case _ => false
  }

  /** The caller is in the queue of `k`. */
  predicate Waits(c: Caller, k: Key) {
    match c.phase
    case WaitingProvider => k == Provider(c.provider)
    case WaitingHost => Some(k) == HostKey(c)
    case _ => false
  }

  function HolderOf(k: Key): Caller -> bool { (c: Caller) => Holds(c, k) }

  ghost predicate NoRepeats(queue: seq<nat>) {
    forall i, j :: 0 <= i < j < |queue| ==> queue[i] != queue[j]
  }

  /** The queue lists exactly the callers that wait for `k`, each once. */
  ghost predicate Lists(queue: seq<nat>, callers: seq<Caller>, k: Key) {
    && NoRepeats(queue)
    && (forall c <- queue :: c < |callers| && Waits(callers[c], k))
    && (forall c :: 0 <= c < |callers| && Waits(callers[c], k) ==> c in queue)
  }

  ghost predicate Queued(t: Table, k: Key) {
    Lists(SemOf(t, k).queue, t.callers, k)
  }

  /** The count of `k` is its holders plus what is owed on it; waiters exist only when all
      slots are taken. */
  ghost predicate Balanced(t: Table, k: Key, owed: set<Key>) {
    var sem := SemOf(t, k);
    && sem.count == Count(t.callers, HolderOf(k)) + (if k in owed then 1 else 0)
    && sem.count <= Limit(t.limit, k)
    && (sem.queue != [] ==> sem.count == Limit(t.limit, k))
  }

  ghost predicate Owing(t: Table, owed: set<Key>) {
    && (forall k :: Balanced(t, k, owed) && Queued(t, k))
    && (forall c <- t.callers :: c.phase.WaitingHost? ==> HostKey(c).Some?)
    && (forall c <- t.callers :: c.signalled ==> !c.phase.WaitingProvider? && !c.phase.WaitingHost?)
  }

  ghost predicate Inv(t: Table) {
    Owing(t, {})
  }

  // ---------------------------------------------------------------- one caller changes

  lemma CountsChange(t: Table, c: nat, caller: Caller)
    requires c < |t.callers|
    ensures forall k :: Count(t.callers[c := caller], HolderOf(k)) + (if Holds(t.callers[c], k) then 1 else 0)
                        == Count(t.callers, HolderOf(k)) + if Holds(caller, k) then 1 else 0
  {
    forall k ensures Count(t.callers[c := caller], HolderOf(k)) + (if Holds(t.callers[c], k) then 1 else 0)
                     == Count(t.callers, HolderOf(k)) + if Holds(caller, k) then 1 else 0
    {
      CountUpdate(t.callers, c, caller, HolderOf(k));
    }
  }

  lemma {:induction false} WithoutIs(queue: seq<nat>, c: nat)
    requires NoRepeats(queue)
    ensures NoRepeats(Without(queue, c))
    ensures forall x <- Without(queue, c) :: x in queue && x != c
    ensures forall x <- queue :: x != c ==> x in Without(queue, c)
    ensures Without(queue, c) != [] ==> queue != []
  {
    if queue != [] && queue[0] != c {
      WithoutIs(queue[1..], c);
      assert forall x :: x in queue <==> x == queue[0] || x in queue[1..];
      assert queue[0] !in queue[1..];
    } else if queue != [] {
      assert forall x :: x in queue <==> x == queue[0] || x in queue[1..];
      assert queue[0] !in queue[1..];
    }
  }

  lemma QueueUnaffected(queue: seq<nat>, callers: seq<Caller>, c: nat, caller: Caller, k: Key)
    requires Lists(queue, callers, k) && c < |callers| && (Waits(callers[c], k) <==> Waits(caller, k))
    ensures Lists(queue, callers[c := caller], k)
  {
  }

  lemma QueueGains(queue: seq<nat>, callers: seq<Caller>, c: nat, caller: Caller, k: Key)
    requires Lists(queue, callers, k) && c < |callers| && !Waits(callers[c], k) && Waits(caller, k)
    ensures Lists(queue + [c], callers[c := caller], k)
  {
    assert c !in queue;
  }

  lemma QueueLoses(queue: seq<nat>, callers: seq<Caller>, c: nat, caller: Caller, k: Key)
    requires Lists(queue, callers, k) && c < |callers| && !Waits(caller, k)
    ensures Lists(Without(queue, c), callers[c := caller], k)
  {
    WithoutIs(queue, c);
  }

  // ---------------------------------------------------------------- steps

  lemma ArrivalKeeps(t: Table, caller: Caller)
    requires Inv(t) && caller.phase.Aborted?
    ensures Inv(t.(callers := t.callers + [caller]))
  {
    forall k ensures Count(t.callers + [caller], HolderOf(k)) == Count(t.callers, HolderOf(k)) {
      CountAppend(t.callers, caller, HolderOf(k));
    }
    var t' := t.(callers := t.callers + [caller]);
    forall k ensures Balanced(t', k, {}) && Queued(t', k) {
      assert Balanced(t, k, {}) && Queued(t, k);
    }
  }

  /** The caller got the slot exactly when one was free, and is last in the queue exactly when
      none was; nobody else's state and no other semaphore changed. */
  ghost predicate Answered(before: Table, after: Table, k: Key, c: nat, got: Phase, waits: Phase)
    requires c < |before.callers|
  {
    var free := SemOf(before, k).count < Limit(before.limit, k);
    && (SemOf(after, k).count == SemOf(before, k).count + 1 <==> free)
    && (SemOf(after, k).queue == SemOf(before, k).queue + [c] <==> !free)
    && SemOf(after, k).count + |SemOf(after, k).queue| == SemOf(before, k).count + |SemOf(before, k).queue| + 1
    && after.callers == before.callers[c := before.callers[c].(phase := if free then got else waits)]
    && (forall k' :: k' != k ==> SemOf(after, k') == SemOf(before, k'))
  }

  lemma AskIsAnswered(t: Table, k: Key, c: nat, got: Phase, waits: Phase)
    requires c < |t.callers|
    ensures Answered(t, AcquireSemaphore(t, k, c, got, waits), k, c, got, waits)
  {
  }

  /** Asking for a slot of `k`, by a caller that neither holds nor waits for it and that keeps
      whatever else it holds. */
  lemma AskKeeps(t: Table, k: Key, c: nat, got: Phase, waits: Phase)
    requires Inv(t) && c < |t.callers|
    requires forall k' :: !Waits(t.callers[c], k')
    requires forall k' :: Holds(t.callers[c].(phase := got), k') <==> Holds(t.callers[c], k') || k' == k
    requires forall k' :: !Waits(t.callers[c].(phase := got), k')
    requires forall k' :: Holds(t.callers[c].(phase := waits), k') <==> Holds(t.callers[c], k')
    requires forall k' :: Waits(t.callers[c].(phase := waits), k') <==> k' == k
    requires !Holds(t.callers[c], k)
    requires (waits.WaitingHost? ==> HostKey(t.callers[c]).Some?) && !got.WaitingHost?
    requires !t.callers[c].signalled || (SemOf(t, k).count < Limit(t.limit, k) && !got.WaitingProvider?)
    ensures Inv(AcquireSemaphore(t, k, c, got, waits))
  {
    var sem := SemOf(t, k);
    var t' := AcquireSemaphore(t, k, c, got, waits);
    var caller := t'.callers[c];
    assert t'.callers == t.callers[c := caller];
    CountsChange(t, c, caller);
    forall k' ensures Balanced(t', k', {}) && Queued(t', k') {
      assert Balanced(t, k', {}) && Queued(t, k');
      if k' == k && caller.phase == waits && sem.count >= Limit(t.limit, k) {
        QueueGains(sem.queue, t.callers, c, caller, k);
      } else {
        QueueUnaffected(SemOf(t, k').queue, t.callers, c, caller, k');
      }
    }
  }

  /** A caller that stops waiting leaves the queue and holds what it held before. */
  lemma LeaveKeeps(t: Table, k: Key, c: nat, phase: Phase, u: Table)
    requires c < |t.callers| && Inv(t) && Waits(t.callers[c], k)
    requires !phase.WaitingProvider? && !phase.WaitingHost?
    requires u == t || u == t.(callers := t.callers[c := t.callers[c].(signalled := true)])
    requires forall k' :: Holds(t.callers[c].(phase := phase), k') <==> Holds(t.callers[c], k')
    ensures Inv(LeaveQueue(u, k, c, phase))
  {
    var t' := LeaveQueue(u, k, c, phase);
    var caller := t'.callers[c];
    assert t'.callers == t.callers[c := caller];
    CountsChange(t, c, caller);
    forall k' ensures Balanced(t', k', {}) && Queued(t', k') {
      assert Balanced(t, k', {}) && Queued(t, k');
      if k' == k {
        QueueLoses(SemOf(t, k).queue, t.callers, c, caller, k);
        WithoutIs(SemOf(t, k).queue, c);
      } else {
        QueueUnaffected(SemOf(t, k').queue, t.callers, c, caller, k');
      }
    }
  }

  /** A caller that is done leaves its slots behind, owed until they are released. */
  lemma DoneOwes(t: Table, c: nat, phase: Phase)
    requires Inv(t) && c < |t.callers| && (phase.Released? || phase.Aborted?)
    requires forall k :: !Waits(t.callers[c], k)
    ensures Owing(Become(t, c, phase), set k | k in SlotsOf(t.callers[c]) && Holds(t.callers[c], k))
  {
    var caller := t.callers[c];
    var t' := Become(t, c, phase);
    var owed := set k | k in SlotsOf(caller) && Holds(caller, k);
    CountsChange(t, c, t'.callers[c]);
    forall k ensures Balanced(t', k, owed) && Queued(t', k) {
      assert Balanced(t, k, {}) && Queued(t, k);
      QueueUnaffected(SemOf(t, k).queue, t.callers, c, t'.callers[c], k);
    }
  }

  /** The slots a caller could hold. */
  function SlotsOf(c: Caller): set<Key> {
    {Provider(c.provider)} + if HostKey(c).Some? then {HostKey(c).value} else {}
  }

  /** Releasing an owed slot settles it: the count goes down by one, or the first waiter gets
      the slot. The clamp at zero does not take effect. */
  lemma ReleaseSettles(t: Table, k: Key, owed: set<Key>)
    requires Owing(t, owed) && k in owed
    ensures Owing(ReleaseSemaphore(t, k), owed - {k})
    ensures SemOf(t, k).count >= 1
  {
    var sem := SemOf(t, k);
    var t' := ReleaseSemaphore(t, k);
    assert Balanced(t, k, owed) && Queued(t, k);
    assert sem.count >= 1 && k in t.sems;
    if sem.queue == [] {
      forall k' ensures Balanced(t', k', owed - {k}) && Queued(t', k') {
        assert Balanced(t, k', owed) && Queued(t, k');
      }
    } else {
      HandOffSettles(t, k, owed, sem.queue[0]);
    }
  }

  /** The first waiter takes the owed slot over. */
  lemma HandOffSettles(t: Table, k: Key, owed: set<Key>, w: nat)
    requires Owing(t, owed) && k in owed && SemOf(t, k).queue != [] && w == SemOf(t, k).queue[0]
    ensures Owing(ReleaseSemaphore(t, k), owed - {k})
  {
    var sem := SemOf(t, k);
    var t' := ReleaseSemaphore(t, k);
    assert Balanced(t, k, owed) && Queued(t, k);
    assert w in sem.queue;
    var caller := t'.callers[w];
    assert t'.callers == t.callers[w := caller];
    CountsChange(t, w, caller);
    forall k' ensures Balanced(t', k', owed - {k}) && Queued(t', k') {
      HandOffQueued(t, k, owed, w, k');
    }
  }

  lemma HandOffQueued(t: Table, k: Key, owed: set<Key>, w: nat, k': Key)
    requires Owing(t, owed) && k in owed && SemOf(t, k).queue != [] && w == SemOf(t, k).queue[0] && w < |t.callers|
    requires ReleaseSemaphore(t, k).callers == t.callers[w := ReleaseSemaphore(t, k).callers[w]]
    ensures Balanced(ReleaseSemaphore(t, k), k', owed - {k}) && Queued(ReleaseSemaphore(t, k), k')
  {
    var caller := ReleaseSemaphore(t, k).callers[w];
    assert Balanced(t, k', owed) && Queued(t, k');
    assert Queued(t, k) && w in SemOf(t, k).queue;
    CountsChange(t, w, caller);
    if k' == k {
      QueueLoses(SemOf(t, k).queue, t.callers, w, caller, k);
    } else {
      QueueUnaffected(SemOf(t, k').queue, t.callers, w, caller, k');
    }
  }

  /** A caller whose signal fired between its two slots is refused its host at once when the
      host is full: it has not entered the queue. */
  lemma RefusedAtOnce(t: Table, k: Key, c: nat)
    requires Inv(t) && c < |t.callers| && t.callers[c].phase.HasProvider? && HostKey(t.callers[c]) == Some(k)
    requires SemOf(t, k).count >= Limit(t.limit, k)
    ensures Inv(LeaveQueue(AcquireSemaphore(t, k, c, Phase.Holding, WaitingHost), k, c, HostRefused))
    ensures var t' := LeaveQueue(AcquireSemaphore(t, k, c, Phase.Holding, WaitingHost), k, c, HostRefused);
            && SemOf(t', k) == SemOf(t, k) && c !in SemOf(t', k).queue && t'.callers[c].phase.HostRefused?
  {
    var sem := SemOf(t, k);
    var t' := LeaveQueue(AcquireSemaphore(t, k, c, Phase.Holding, WaitingHost), k, c, HostRefused);
    var caller := t'.callers[c];
    assert Queued(t, k);
    assert c !in sem.queue;
    WithoutAppended(sem.queue, c);
    assert t'.callers == t.callers[c := caller];
    CountsChange(t, c, caller);
    forall k' ensures Balanced(t', k', {}) && Queued(t', k') {
      assert Balanced(t, k', {}) && Queued(t, k');
      QueueUnaffected(SemOf(t, k').queue, t.callers, c, caller, k');
    }
  }

  lemma {:induction false} WithoutAppended(queue: seq<nat>, c: nat)
    requires c !in queue
    ensures Without(queue + [c], c) == queue
  {
    if queue != [] {
      WithoutAppended(queue[1..], c);
      assert (queue + [c])[1..] == queue[1..] + [c];
    } else {
      assert ([] + [c])[1..] == [];
    }
  }

  lemma PhaseKeeps(t: Table, c: nat, caller: Caller)
    requires Inv(t) && c < |t.callers|
    requires forall k :: Holds(caller, k) <==> Holds(t.callers[c], k)
    requires forall k :: Waits(caller, k) <==> Waits(t.callers[c], k)
    requires !caller.phase.WaitingHost? && !caller.phase.WaitingProvider?
    ensures Inv(t.(callers := t.callers[c := caller]))
  {
    var t' := t.(callers := t.callers[c := caller]);
    CountsChange(t, c, caller);
    forall k ensures Balanced(t', k, {}) && Queued(t', k) {
      assert Balanced(t, k, {}) && Queued(t, k);
      QueueUnaffected(SemOf(t, k).queue, t.callers, c, caller, k);
    }
  }

  lemma AcquireKeeps(t: Table, provider: string, host: Option<string>, hasSignal: bool, preAborted: bool)
    requires Inv(t)
    ensures Inv(Acquire(t, provider, host, hasSignal, preAborted))
  {
    var caller := Caller(provider, host, hasSignal, preAborted, Aborted);
    ArrivalKeeps(t, caller);
    if !preAborted {
      var arrived := t.(callers := t.callers + [caller]);
      AskKeeps(arrived, Provider(provider), |t.callers|, HasProvider, WaitingProvider);
    }
  }

  lemma ResumeKeeps(t: Table, c: nat)
    requires Inv(t)
    ensures Inv(Resume(t, c))
  {
    if c < |t.callers| {
      var caller := t.callers[c];
      match caller.phase
      case HasProvider =>
        match HostKey(caller) {
          case None => PhaseKeeps(t, c, caller.(phase := Phase.Holding));
          case Some(k) =>
            if SemOf(t, k).count >= Limit(t.limit, k) && caller.signalled {
              RefusedAtOnce(t, k, c);
            } else {
              AskKeeps(t, k, c, Phase.Holding, WaitingHost);
            }
        }
      case HostRefused =>
        var k := Provider(caller.provider);
        var owed := set k' | k' in SlotsOf(caller) && Holds(caller, k');
        DoneOwes(t, c, Aborted);
        ReleaseSettles(Become(t, c, Aborted), k, owed);
        assert owed - {k} == {};
      case _ =>
    }
  }

  lemma AbortKeeps(t: Table, c: nat)
    requires Inv(t)
    ensures Inv(Abort(t, c))
  {
    if c < |t.callers| && t.callers[c].hasSignal {
      var caller := t.callers[c];
      var u := t.(callers := t.callers[c := caller.(signalled := true)]);
      match caller.phase
      case WaitingProvider => LeaveKeeps(t, Provider(caller.provider), c, Aborted, u);
      case WaitingHost =>
        assert caller in t.callers;
        LeaveKeeps(t, HostKey(caller).value, c, HostRefused, u);
      case _ => PhaseKeeps(t, c, caller.(signalled := true));
    }
  }

  lemma ReleaseKeeps(t: Table, c: nat)
    requires Inv(t)
    ensures Inv(Release(t, c))
  {
    if c < |t.callers| && t.callers[c].phase.Holding? {
      var caller := t.callers[c];
      var k := Provider(caller.provider);
      var owed := set k' | k' in SlotsOf(caller) && Holds(caller, k');
      DoneOwes(t, c, Released);
      ReleaseSettles(Become(t, c, Released), k, owed);
      match HostKey(caller)
      case None => assert owed - {k} == {};
      case Some(h) =>
        ReleaseSettles(ReleaseSemaphore(Become(t, c, Released), k), h, owed - {k});
        assert owed - {k} - {h} == {};
    }
  }

  lemma StepKeeps(t: Table, op: Op)
    requires Inv(t)
    ensures Inv(Step(t, op))
  {
    match op
    case DoAcquire(p, h, s, pre) => AcquireKeeps(t, p, h, s, pre);
    case DoResume(c) => ResumeKeeps(t, c);
    case DoAbort(c) => AbortKeeps(t, c);
    case DoRelease(c) => ReleaseKeeps(t, c);
  }

  lemma {:induction false} RunKeeps(t: Table, ops: seq<Op>)
    requires Inv(t)
    ensures Inv(Run(t, ops))
    decreases |ops|
  {
    if ops != [] {
      StepKeeps(t, ops[0]);
      RunKeeps(Step(t, ops[0]), ops[1..]);
    }
  }
}
