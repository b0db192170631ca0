/** What the slot table guarantees over whole runs. */
module SlotsRuns {
  import opened Prelude
  import opened Counting
  import opened Slots
  import opened SlotsSafety

  function Reached(limit: nat, ops: seq<Op>): Table {
    Run(Empty(limit), ops)
  }

  /** In every reachable state each count is the number of its holders and within the limit, the
      queue lists exactly the callers that wait, and they wait only while all slots are taken. */
  lemma SlotsAreExact(limit: nat, ops: seq<Op>, k: Key)
    ensures var t := Reached(limit, ops);
            && SemOf(t, k).count == Count(t.callers, HolderOf(k)) <= Limit(t.limit, k)
            && (SemOf(t, k).queue != [] ==> SemOf(t, k).count == Limit(t.limit, k))
            && Lists(SemOf(t, k).queue, t.callers, k)
  {
    RunKeeps(Empty(limit), ops);
    var t := Reached(limit, ops);
    assert Balanced(t, k, {}) && Queued(t, k);
  }

  /** In every reachable state, releasing a slot that is held never meets the clamp at zero. */
  lemma ClampNeverBites(limit: nat, ops: seq<Op>, c: nat, k: Key)
    requires var t := Reached(limit, ops); c < |t.callers| && Holds(t.callers[c], k)
    ensures SemOf(Reached(limit, ops), k).count >= 1
  {
    SlotsAreExact(limit, ops, k);
    var t := Reached(limit, ops);
    CountPositive(t.callers, HolderOf(k));
    assert HolderOf(k)(t.callers[c]);
  }

  // ---------------------------------------------------------------- first come, first served

  ghost predicate Ahead(queue: seq<nat>, a: nat, b: nat) {
    exists i, j :: 0 <= i < j < |queue| && queue[i] == a && queue[j] == b
  }

  /** A caller that waited for `k` waits for it no more. */
  predicate Past(c: Caller, k: Key) {
    match k
    case Provider(_) => !c.phase.WaitingProvider?
    case Host(_) => !c.phase.WaitingProvider? && !c.phase.HasProvider? && !c.phase.WaitingHost?
  }

  /** A caller that waited for `k` went away without getting it. */
  predicate Left(c: Caller, k: Key) {
    c.phase.Aborted? || (k.Host? && c.phase.HostRefused?)
  }

  /** `b` has not overtaken `a` in the queue of `k`. */
  ghost predicate InTurn(t: Table, a: nat, b: nat, k: Key)
    requires a < |t.callers| && b < |t.callers|
  {
    Past(t.callers[a], k) || Ahead(SemOf(t, k).queue, a, b) || Left(t.callers[b], k)
  }

  lemma AheadAppend(queue: seq<nat>, c: nat, a: nat, b: nat)
    requires Ahead(queue, a, b)
    ensures Ahead(queue + [c], a, b)
  {
    var i, j :| 0 <= i < j < |queue| && queue[i] == a && queue[j] == b;
    assert (queue + [c])[i] == a && (queue + [c])[j] == b;
  }

  lemma {:induction false} AheadWithout(queue: seq<nat>, c: nat, a: nat, b: nat)
    requires Ahead(queue, a, b) && c != a && c != b
    ensures Ahead(Without(queue, c), a, b)
  {
    var i, j :| 0 <= i < j < |queue| && queue[i] == a && queue[j] == b;
    if queue[0] == c {
      assert queue[1..][i - 1] == a && queue[1..][j - 1] == b;
    } else if i > 0 {
      assert queue[1..][i - 1] == a && queue[1..][j - 1] == b;
      AheadWithout(queue[1..], c, a, b);
      var w := Without(queue[1..], c);
      var x, y :| 0 <= x < y < |w| && w[x] == a && w[y] == b;
      assert ([queue[0]] + w)[x + 1] == a && ([queue[0]] + w)[y + 1] == b;
    } else {
      assert b in queue[1..] by { assert queue[1..][j - 1] == b; }
      StaysIn(queue[1..], c, b);
      var w := Without(queue[1..], c);
      var y :| 0 <= y < |w| && w[y] == b;
      assert ([queue[0]] + w)[0] == a && ([queue[0]] + w)[y + 1] == b;
    }
  }

  lemma {:induction false} StaysIn(queue: seq<nat>, c: nat, b: nat)
    requires b in queue && c != b
    ensures b in Without(queue, c)
  {
    if queue[0] != b {
      assert b in queue[1..];
      if queue[0] != c { StaysIn(queue[1..], c, b); }
    } else {
      assert queue[0] == b;
    }
  }

  lemma AheadHead(queue: seq<nat>, a: nat, b: nat)
    requires Ahead(queue, a, b) && NoRepeats(queue)
    ensures queue[0] != b
    ensures queue[0] == a || Ahead(queue[1..], a, b)
  {
    var i, j :| 0 <= i < j < |queue| && queue[i] == a && queue[j] == b;
    if i > 0 { assert queue[1..][i - 1] == a && queue[1..][j - 1] == b; }
  }

  /** A hand-off serves the head of its own queue and nobody else's. */
  lemma HandOffInTurn(t: Table, k0: Key, a: nat, b: nat, k: Key)
    requires a < |t.callers| && b < |t.callers| && InTurn(t, a, b, k)
    requires Queued(t, k0)
    ensures InTurn(ReleaseSemaphore(t, k0), a, b, k)
  {
    var queue := SemOf(t, k0).queue;
    if k0 in t.sems && queue != [] {
      assert queue[0] in queue;
      if k0 == k && Ahead(queue, a, b) { AheadHead(queue, a, b); }
    }
  }

  lemma BecomeInTurn(t: Table, c: nat, caller: Caller, a: nat, b: nat, k: Key)
    requires a < |t.callers| && b < |t.callers| && c < |t.callers| && InTurn(t, a, b, k)
    requires Past(t.callers[c], k) ==> Past(caller, k)
    requires Left(t.callers[c], k) ==> Left(caller, k)
    ensures InTurn(t.(callers := t.callers[c := caller]), a, b, k)
  {
  }

  /** A caller that takes itself out of a queue left it, or was past it. */
  lemma LeaveInTurn(t: Table, k0: Key, c: nat, phase: Phase, a: nat, b: nat, k: Key)
    requires a < |t.callers| && b < |t.callers| && c < |t.callers| && InTurn(t, a, b, k)
    requires Past(t.callers[c], k) ==> Past(t.callers[c].(phase := phase), k)
    requires Left(t.callers[c], k) ==> Left(t.callers[c].(phase := phase), k)
    requires k0 == k ==> Past(t.callers[c].(phase := phase), k) && Left(t.callers[c].(phase := phase), k)
    ensures InTurn(LeaveQueue(t, k0, c, phase), a, b, k)
  {
    if k0 == k && c != a && c != b && Ahead(SemOf(t, k).queue, a, b) {
      AheadWithout(SemOf(t, k).queue, c, a, b);
    }
  }

  lemma AskInTurn(t: Table, k0: Key, c: nat, got: Phase, waits: Phase, a: nat, b: nat, k: Key)
    requires a < |t.callers| && b < |t.callers| && c < |t.callers| && InTurn(t, a, b, k)
    requires Past(t.callers[c], k) ==> Past(t.callers[c].(phase := got), k) && Past(t.callers[c].(phase := waits), k)
    requires !Left(t.callers[c], k)
    ensures InTurn(AcquireSemaphore(t, k0, c, got, waits), a, b, k)
  {
    AskPast(t, k0, c, got, waits, a, k);
    AskPast(t, k0, c, got, waits, b, k);
    var queue, queue' := SemOf(t, k).queue, SemOf(AcquireSemaphore(t, k0, c, got, waits), k).queue;
    if Ahead(queue, a, b) && queue' != queue {
      AheadAppend(queue, c, a, b);
    }
  }

  /** Asking for a slot moves nobody back, and adds at most the caller at the end of a queue. */
  lemma AskPast(t: Table, k0: Key, c: nat, got: Phase, waits: Phase, x: nat, k: Key)
    requires x < |t.callers| && c < |t.callers|
    requires Past(t.callers[c], k) ==> Past(t.callers[c].(phase := got), k) && Past(t.callers[c].(phase := waits), k)
    requires !Left(t.callers[c], k)
    ensures var t' := AcquireSemaphore(t, k0, c, got, waits);
            && |t'.callers| == |t.callers|
            && (Past(t.callers[x], k) ==> Past(t'.callers[x], k)) && (Left(t.callers[x], k) ==> Left(t'.callers[x], k))
            && (SemOf(t', k).queue == SemOf(t, k).queue || SemOf(t', k).queue == SemOf(t, k).queue + [c])
  {
  }

  lemma AcquireInTurn(t: Table, provider: string, host: Option<string>, hasSignal: bool, preAborted: bool,
                      a: nat, b: nat, k: Key)
    requires a < |t.callers| && b < |t.callers| && InTurn(t, a, b, k)
    ensures InTurn(Acquire(t, provider, host, hasSignal, preAborted), a, b, k)
  {
    var c := |t.callers|;
    var arrived := t.(callers := t.callers + [Caller(provider, host, hasSignal, preAborted, Aborted)]);
    assert InTurn(arrived, a, b, k);
    var k0 := Provider(provider);
    if !preAborted && k0 == k && Ahead(SemOf(t, k).queue, a, b) {
      AheadAppend(SemOf(t, k).queue, c, a, b);
    }
  }

  lemma ResumeInTurn(t: Table, c: nat, a: nat, b: nat, k: Key)
    requires Inv(t) && a < |t.callers| && b < |t.callers| && InTurn(t, a, b, k)
    ensures InTurn(Resume(t, c), a, b, k)
  {
    if c < |t.callers| {
      var caller := t.callers[c];
      match caller.phase
      case HasProvider =>
        match HostKey(caller) {
          case None => BecomeInTurn(t, c, caller.(phase := Phase.Holding), a, b, k);
          case Some(h) =>
            AskInTurn(t, h, c, Phase.Holding, WaitingHost, a, b, k);
            if SemOf(t, h).count >= Limit(t.limit, h) && caller.signalled {
              LeaveInTurn(AcquireSemaphore(t, h, c, Phase.Holding, WaitingHost), h, c, HostRefused, a, b, k);
            }
        }
      case HostRefused =>
        BecomeInTurn(t, c, caller.(phase := Aborted), a, b, k);
        ReleaseOne(t, c, Aborted, a, b, k);
      case _ =>
    }
  }

  lemma ReleaseOne(t: Table, c: nat, phase: Phase, a: nat, b: nat, k: Key)
    requires Inv(t) && a < |t.callers| && b < |t.callers| && c < |t.callers|
    requires forall k' :: !Waits(t.callers[c], k')
    requires phase.Aborted? || phase.Released?
    requires InTurn(Become(t, c, phase), a, b, k)
    ensures InTurn(ReleaseSemaphore(Become(t, c, phase), Provider(t.callers[c].provider)), a, b, k)
  {
    DoneOwes(t, c, phase);
    assert Queued(Become(t, c, phase), Provider(t.callers[c].provider));
    HandOffInTurn(Become(t, c, phase), Provider(t.callers[c].provider), a, b, k);
  }

  lemma AbortInTurn(t: Table, c: nat, a: nat, b: nat, k: Key)
    requires Inv(t) && a < |t.callers| && b < |t.callers| && InTurn(t, a, b, k)
    ensures InTurn(Abort(t, c), a, b, k)
  {
    if c < |t.callers| && t.callers[c].hasSignal {
      var caller := t.callers[c].(signalled := true);
      var u := t.(callers := t.callers[c := caller]);
      BecomeInTurn(t, c, caller, a, b, k);
      match caller.phase
      case WaitingProvider => LeaveInTurn(u, Provider(caller.provider), c, Aborted, a, b, k);
      case WaitingHost =>
        if HostKey(caller).Some? {
          LeaveInTurn(u, HostKey(caller).value, c, HostRefused, a, b, k);
        }
      case _ =>
    }
  }

  lemma ReleaseInTurn(t: Table, c: nat, a: nat, b: nat, k: Key)
    requires Inv(t) && a < |t.callers| && b < |t.callers| && InTurn(t, a, b, k)
    ensures InTurn(Release(t, c), a, b, k)
  {
    if c < |t.callers| && t.callers[c].phase.Holding? {
      var caller := t.callers[c];
      var k0 := Provider(caller.provider);
      BecomeInTurn(t, c, caller.(phase := Released), a, b, k);
      ReleaseOne(t, c, Released, a, b, k);
      if HostKey(caller).Some? {
        var h := HostKey(caller).value;
        var owed := set k' | k' in SlotsOf(caller) && Holds(caller, k');
        DoneOwes(t, c, Released);
        ReleaseSettles(Become(t, c, Released), k0, owed);
        var u := ReleaseSemaphore(Become(t, c, Released), k0);
        assert Queued(u, h);
        HandOffInTurn(u, h, a, b, k);
      }
    }
  }

  lemma StepInTurn(t: Table, op: Op, a: nat, b: nat, k: Key)
    requires Inv(t) && a < |t.callers| && b < |t.callers| && InTurn(t, a, b, k)
    ensures |Step(t, op).callers| >= |t.callers|
    ensures InTurn(Step(t, op), a, b, k)
  {
    match op
    case DoAcquire(p, h, s, pre) => AcquireInTurn(t, p, h, s, pre, a, b, k);
    case DoResume(c) => ResumeInTurn(t, c, a, b, k);
    case DoAbort(c) => AbortInTurn(t, c, a, b, k);
    case DoRelease(c) => ReleaseInTurn(t, c, a, b, k);
  }

  lemma {:induction false} RunInTurn(t: Table, ops: seq<Op>, a: nat, b: nat, k: Key)
    requires Inv(t) && a < |t.callers| && b < |t.callers| && InTurn(t, a, b, k)
    ensures |Run(t, ops).callers| >= |t.callers|
    ensures InTurn(Run(t, ops), a, b, k)
    decreases |ops|
  {
    if ops != [] {
      StepKeeps(t, ops[0]);
      StepInTurn(t, ops[0], a, b, k);
      RunInTurn(Step(t, ops[0]), ops[1..], a, b, k);
    }
  }

  /** First come, first served: if `a` is in the queue of `k` ahead of `b` at some moment of a
      run, then at every later moment at which `a` still waits, `b` has no slot of `k`. */
  lemma NobodyOvertakes(limit: nat, before: seq<Op>, after: seq<Op>, a: nat, b: nat, k: Key)
    requires Ahead(SemOf(Reached(limit, before), k).queue, a, b)
    ensures var t := Run(Reached(limit, before), after);
            && a < |t.callers| && b < |t.callers|
            && (Waits(t.callers[a], k) ==> !Holds(t.callers[b], k))
  {
    var s := Reached(limit, before);
    SlotsAreExact(limit, before, k);
    RunKeeps(Empty(limit), before);
    assert a in SemOf(s, k).queue && b in SemOf(s, k).queue;
    RunInTurn(s, after, a, b, k);
    RunKeeps(s, after);
    var t := Run(s, after);
    assert Queued(t, k);
    if Waits(t.callers[a], k) {
      if Ahead(SemOf(t, k).queue, a, b) {
        assert b in SemOf(t, k).queue;
        assert Waits(t.callers[b], k);
      } else {
        assert Left(t.callers[b], k);
      }
    }
  }
}
