/** How often a waiter can be passed: by lighter waiters of its own priority, and by waiters of a
    higher one. */
module SemaphoreOvertaking {
  import opened Prelude
  import opened Semaphore
  import opened SemaphoreSafety
  import opened SemaphoreRuns

  function Ask(weight: real): Request {
    Request(Some(weight), None, NoSignal, Some(0), 0)
  }

  /** The heavy waiter: it needs the whole pool of two. */
  const HEAVY := Entry(2, 2, 0.0, 0, 0, false, false)

  /** Two light calls, which fill the pool, and the heavy one, which has to wait. */
  function Opening(): seq<Op> {
    [DoAcquire(Ask(1.0)), DoAcquire(Ask(1.0)), DoAcquire(Ask(2.0))]
  }

  /** A light call arrives, and the light call admitted longest ago releases. */
  function Round(n: nat): seq<Op> {
    [DoAcquire(Ask(1.0)), DoRelease(n)]
  }

  function Rounds(n: nat): seq<Op> {
    if n == 0 then Opening() else Rounds(n - 1) + Round(n - 1)
  }

  /** The heavy waiter is alone in the queue, and `n` calls that arrived after it were admitted. */
  ghost predicate Passed(p: Pool, n: nat) {
    && p.limit == 2 && p.maxQueue == 16 && p.inFlight == 2
    && p.queue == [HEAVY] && p.nextArrival == n + 1 && p.calls == n + 3
    && p.totalAdmitted == n + 2 && p.totalRejectedFull == p.totalQueueTimeouts == p.totalAborted == 0
    && p.timers == map[] && p.listeners == map[]
    && |p.releasers| == n + 2 && (forall k :: 0 <= k < n + 2 ==> p.releasers[k] == Releaser(1, k < n))
  }

  lemma Charges()
    ensures Clamp(2, Some(1.0)) == 1 && Clamp(2, Some(2.0)) == 2
  {
  }

  /** A pool of two in which `n` light calls were admitted and nobody waits. */
  ghost predicate Light(p: Pool, n: nat) {
    && p.limit == 2 && p.maxQueue == 16 && p.inFlight == n && p.queue == []
    && p.nextArrival == 0 && p.calls == n && p.totalAdmitted == n
    && p.totalRejectedFull == p.totalQueueTimeouts == p.totalAborted == 0
    && p.timers == map[] && p.listeners == map[]
    && |p.releasers| == n && (forall k :: 0 <= k < n ==> p.releasers[k] == Releaser(1, false))
  }

  lemma LightEnters(p: Pool, n: nat)
    requires Light(p, n) && n < 2
    ensures Light(Step(p, DoAcquire(Ask(1.0))), n + 1)
  {
    Charges();
  }

  lemma HeavyWaits(p: Pool)
    requires Light(p, 2)
    ensures Passed(Step(p, DoAcquire(Ask(2.0))), 0)
  {
    Charges();
    assert NewEntry(p, Ask(2.0)) == HEAVY;
  }

  lemma RunThree(p: Pool, a: Op, b: Op, c: Op)
    ensures Run(p, [a, b, c]) == Step(Step(Step(p, a), b), c)
  {
    assert [a, b, c][1..] == [b, c] && [b, c][1..] == [c] && [c][1..] == [];
    assert Run(Step(Step(p, a), b), [c]) == Run(Step(Step(Step(p, a), b), c), []);
    assert Run(Step(p, a), [b, c]) == Run(Step(Step(p, a), b), [c]);
  }

  lemma ThreeEnter(p: Pool)
    requires Light(p, 0)
    ensures Passed(Run(p, Opening()), 0)
  {
    var light, heavy := DoAcquire(Ask(1.0)), DoAcquire(Ask(2.0));
    RunThree(p, light, light, heavy);
    LightEnters(p, 0);
    var q := Step(p, light);
    LightEnters(q, 1);
    HeavyWaits(Step(q, light));
  }

  lemma FreshIsLight()
    ensures Light(Create(2.0, None, None), 0)
  {
    assert (16 as real).Floor == 16;
  }

  lemma OpeningWaits()
    ensures Passed(Run(Create(2.0, None, None), Opening()), 0)
  {
    FreshIsLight();
    ThreeEnter(Create(2.0, None, None));
  }

  lemma RoundPasses(p: Pool, n: nat)
    requires Passed(p, n)
    ensures Passed(Run(p, Round(n)), n + 1)
  {
    var ask, release := DoAcquire(Ask(1.0)), DoRelease(n);
    assert [ask, release][1..] == [release] && [release][1..] == [];
    var q := Step(p, ask);
    var e := NewEntry(p, Ask(1.0));
    assert Ahead([HEAVY], 0.0) == 1 by { assert [HEAVY][1..] == []; }
    assert q.queue == [HEAVY, e];
    LightPasses(q, e, n);
    assert Run(q, [release]) == Run(Step(q, release), []);
  }

  /** The release makes room for the light waiter only, and the pump lets it by. */
  lemma LightPasses(q: Pool, e: Entry, n: nat)
    requires q.limit == 2 && q.inFlight == 2 && q.queue == [HEAVY, e] && e.weight == 1 && e.priority == 0.0
    requires !e.hasTimer && !e.hasListener && n < |q.releasers| && q.releasers[n] == Releaser(1, false)
    ensures var r := Step(q, DoRelease(n));
            && r.queue == [HEAVY] && r.inFlight == 2 && r.totalAdmitted == q.totalAdmitted + 1
            && r.releasers == q.releasers[n := Releaser(1, true)] + [Releaser(1, false)]
            && r == q.(queue := r.queue, releasers := r.releasers, totalAdmitted := r.totalAdmitted, log := r.log)
  {
    var g := GiveBack(q, n);
    assert g.queue[1..] == [e] && g.inFlight == 1;
    assert FirstFit([e], 0.0, 1) == Some(0);
    assert FirstFit(g.queue, 0.0, 1) == Some(1);
    assert Next(g) == Some(1);
    var a := AdmitAt(g, 1);
    assert a.queue == [HEAVY] && [HEAVY][1..] == [];
    assert Next(a) == None;
    assert Pump(g) == Pump(a) == a;
  }

  /** There is no bound: for every `n` there is a run in which `n` calls of the same priority that
      arrived after the heavy one are admitted while it waits. */
  lemma {:induction false} NoBoundOnOvertaking(n: nat)
    ensures Passed(Run(Create(2.0, None, None), Rounds(n)), n)
  {
    if n == 0 {
      OpeningWaits();
    } else {
      NoBoundOnOvertaking(n - 1);
      RunConcat(Create(2.0, None, None), Rounds(n - 1), Round(n - 1));
      RoundPasses(Run(Create(2.0, None, None), Rounds(n - 1)), n - 1);
    }
  }

  /** A release lets the head by exactly when it leaves room for it. */
  lemma HeadIsAdmittedIff(p: Pool, k: nat)
    requires Inv(p) && p.queue != [] && k < |p.releasers| && !p.releasers[k].released
    ensures p.queue[0] !in Release(p, k).queue <==> p.inFlight - p.releasers[k].weight + p.queue[0].weight <= p.limit
  {
    var g := GiveBack(p, k);
    GiveBackKeeps(p, k);
    HeadLeavesIff(g);
  }

  lemma {:induction false} HeadLeavesIff(g: Pool)
    requires Steady(g) && g.queue != []
    ensures g.queue[0] !in Pump(g).queue <==> g.inFlight + g.queue[0].weight <= g.limit
    decreases |g.queue|
  {
    match Next(g)
    case None => assert g.queue[0] in g.queue;
    case Some(i) =>
      AdmitKeeps(g, i);
      var a := AdmitAt(g, i);
      if i == 0 {
        RemoveKeepsOrder(g.queue, 0);
        PumpShrinks(a);
      } else {
        assert a.queue[0] == g.queue[0];
        assert g.inFlight + g.queue[0].weight > g.limit;
        assert g.queue[i] in g.queue;
        HeadLeavesIff(a);
      }
  }

  lemma {:induction false} PumpShrinks(g: Pool)
    ensures forall e <- Pump(g).queue :: e in g.queue
    decreases |g.queue|
  {
    match Next(g)
    case None =>
    case Some(i) => PumpShrinks(AdmitAt(g, i));
  }

  // ---------------------------------------------------------------- between priorities

  function High(): Request {
    Request(Some(1.0), Some(1.0), NoSignal, Some(0), 0)
  }

  /** The waiter of low priority. */
  const LOW := Entry(1, 1, 0.0, 0, 0, false, false)

  /** `n` rounds: a call of high priority arrives, and the one that holds the slot releases. */
  function HighRounds(n: nat): seq<Op> {
    if n == 0 then [DoAcquire(High()), DoAcquire(Ask(1.0))] else HighRounds(n - 1) + [DoAcquire(High()), DoRelease(n - 1)]
  }

  /** The low waiter is alone in the queue of a pool of one, and `n` calls that arrived after it
      were admitted. */
  ghost predicate KeptOut(p: Pool, n: nat) {
    && p.limit == 1 && p.maxQueue == 8 && p.inFlight == 1 && p.queue == [LOW]
    && p.nextArrival == n + 1 && p.calls == n + 2 && p.totalAdmitted == n + 1
    && p.totalRejectedFull == p.totalQueueTimeouts == p.totalAborted == 0
    && p.timers == map[] && p.listeners == map[]
    && |p.releasers| == n + 1 && (forall k :: 0 <= k < n + 1 ==> p.releasers[k] == Releaser(1, k < n))
  }

  ghost predicate Blank(p: Pool) {
    && p.limit == 1 && p.maxQueue == 8 && p.inFlight == 0 && p.queue == [] && p.queueTimeoutMs == 10000
    && p.nextArrival == 0 && p.calls == 0 && p.totalAdmitted == 0
    && p.totalRejectedFull == p.totalQueueTimeouts == p.totalAborted == 0
    && p.timers == map[] && p.listeners == map[] && p.releasers == []
  }

  lemma LowWaits(p: Pool)
    requires Blank(p)
    ensures KeptOut(Step(Step(p, DoAcquire(High())), DoAcquire(Ask(1.0))), 0)
  {
    HighHolds(p);
    LowQueues(Step(p, DoAcquire(High())));
  }

  ghost predicate HeldByHigh(p: Pool) {
    && p.limit == 1 && p.maxQueue == 8 && p.inFlight == 1 && p.queue == [] && p.queueTimeoutMs == 10000
    && p.nextArrival == 0 && p.calls == 1 && p.totalAdmitted == 1
    && p.totalRejectedFull == p.totalQueueTimeouts == p.totalAborted == 0
    && p.timers == map[] && p.listeners == map[] && p.releasers == [Releaser(1, false)]
  }

  lemma HighHolds(p: Pool)
    requires Blank(p)
    ensures HeldByHigh(Step(p, DoAcquire(High())))
  {
    UnitCharge();
  }

  lemma UnitCharge()
    ensures Clamp(1, Some(1.0)) == 1
  {
  }

  lemma LowQueues(p: Pool)
    requires HeldByHigh(p)
    ensures KeptOut(Step(p, DoAcquire(Ask(1.0))), 0)
  {
    UnitCharge();
    assert NewEntry(p, Ask(1.0)) == LOW;
  }

  lemma HighPasses(p: Pool, n: nat)
    requires KeptOut(p, n)
    ensures KeptOut(Step(Step(p, DoAcquire(High())), DoRelease(n)), n + 1)
  {
    var q := Step(p, DoAcquire(High()));
    var e := NewEntry(p, High());
    assert Ahead([LOW], 1.0) == 0 by { assert [LOW][1..] == []; }
    assert q.queue == [e, LOW];
    HighIsNext(q, e, n);
  }

  lemma HighIsNext(q: Pool, e: Entry, n: nat)
    requires q.limit == 1 && q.inFlight == 1 && q.queue == [e, LOW] && e.weight == 1 && e.priority == 1.0
    requires !e.hasTimer && !e.hasListener && n < |q.releasers| && q.releasers[n] == Releaser(1, false)
    ensures var r := Step(q, DoRelease(n));
            && r.queue == [LOW] && r.inFlight == 1 && r.totalAdmitted == q.totalAdmitted + 1
            && r.releasers == q.releasers[n := Releaser(1, true)] + [Releaser(1, false)]
            && r == q.(queue := r.queue, releasers := r.releasers, totalAdmitted := r.totalAdmitted, log := r.log)
  {
    var g := GiveBack(q, n);
    assert g.inFlight == 0 && Next(g) == Some(0);
    var a := AdmitAt(g, 0);
    assert a.queue == [LOW] && [LOW][1..] == [];
    assert Next(a) == None;
    assert Pump(g) == Pump(a) == a;
  }

  /** Operational work can starve user traffic: for every `n` there is a run in which `n` calls of
      higher priority that arrived later are admitted while a call of low priority waits. */
  lemma {:induction false} HigherPriorityStarves(n: nat)
    ensures KeptOut(Run(Create(1.0, None, None), HighRounds(n)), n)
  {
    if n == 0 {
      assert (8 as real).Floor == 8;
      LowWaits(Create(1.0, None, None));
      RunTwo(Create(1.0, None, None), [], DoAcquire(High()), DoAcquire(Ask(1.0)));
      assert [] + [DoAcquire(High()), DoAcquire(Ask(1.0))] == HighRounds(0);
    } else {
      HigherPriorityStarves(n - 1);
      OneMoreHigh(Create(1.0, None, None), HighRounds(n - 1), n - 1);
    }
  }

  lemma RunTwo(p: Pool, before: seq<Op>, a: Op, b: Op)
    ensures Run(p, before + [a, b]) == Step(Step(Run(p, before), a), b)
  {
    assert before + [a, b] == before + [a] + [b];
    RunAppend(p, before, a);
    RunAppend(p, before + [a], b);
  }

  lemma OneMoreHigh(p: Pool, before: seq<Op>, n: nat)
    requires KeptOut(Run(p, before), n)
    ensures KeptOut(Run(p, before + [DoAcquire(High()), DoRelease(n)]), n + 1)
  {
    RunTwo(p, before, DoAcquire(High()), DoRelease(n));
    HighPasses(Run(p, before), n);
  }

  // ---------------------------------------------------------------- when a priority is served

  function Weight(es: seq<Entry>): nat {
    if es == [] then 0 else es[0].weight + Weight(es[1..])
  }

  lemma {:induction false} WeightRemove(es: seq<Entry>, m: nat)
    requires m < |es|
    ensures Weight(RemoveAt(es, m)) == Weight(es) - es[m].weight
  {
    if m == 0 {
      assert RemoveAt(es, 0) == es[1..];
    } else {
      WeightRemove(es[1..], m - 1);
      assert RemoveAt(es, m) == [es[0]] + RemoveAt(es[1..], m - 1);
    }
  }

  /** The waiters of one priority start at `i`. */
  ghost predicate TierStarts(queue: seq<Entry>, i: nat) {
    i < |queue| && forall j :: 0 <= j < i ==> queue[j].priority > queue[i].priority
  }

  /** Somebody of this priority gets its slot between two queues. */
  ghost predicate Served(before: seq<Entry>, after: seq<Entry>, priority: real) {
    exists e <- before :: e.priority == priority && e !in after
  }

  /** There is room for everybody ahead of `i` and, besides them, for somebody of its priority. */
  ghost predicate RoomFor(p: Pool, i: nat)
    requires i < |p.queue|
  {
    exists e <- p.queue :: e.priority == p.queue[i].priority && p.inFlight + Weight(p.queue[..i]) + e.weight <= p.limit
  }

  lemma NextIsAhead(g: Pool, m: nat, i: nat)
    requires Ordered(g.queue) && Next(g) == Some(m) && TierStarts(g.queue, i) && i > 0
    ensures m < i
  {
  }

  /** While somebody of a higher priority is admitted, the tier moves up by one. */
  lemma TierMovesUp(g: Pool, m: nat, i: nat)
    requires Ordered(g.queue) && Next(g) == Some(m) && TierStarts(g.queue, i) && i > 0
    ensures var a := AdmitAt(g, m);
            && TierStarts(a.queue, i - 1) && a.queue[i - 1] == g.queue[i]
            && a.inFlight + Weight(a.queue[..i - 1]) == g.inFlight + Weight(g.queue[..i])
  {
    NextIsAhead(g, m, i);
    RemovedAhead(g.queue, m, i);
    assert g.queue[..i][m] == g.queue[m];
  }

  lemma RemovedAhead(queue: seq<Entry>, m: nat, i: nat)
    requires m < i && TierStarts(queue, i)
    ensures var rest := RemoveAt(queue, m);
            && TierStarts(rest, i - 1) && rest[i - 1] == queue[i]
            && Weight(rest[..i - 1]) == Weight(queue[..i]) - queue[m].weight
  {
    var rest := RemoveAt(queue, m);
    assert rest[..i - 1] == RemoveAt(queue[..i], m);
    WeightRemove(queue[..i], m);
    assert forall j :: 0 <= j < i - 1 ==> rest[j] == queue[if j < m then j else j + 1];
  }

  /** The same waiters of one priority. */
  ghost predicate SameTier(a: seq<Entry>, b: seq<Entry>, priority: real) {
    forall e: Entry :: e.priority == priority ==> (e in a <==> e in b)
  }

  lemma LowerStay(queue: seq<Entry>, m: nat, priority: real)
    requires Ordered(queue) && m < |queue| && queue[m].priority != priority
    ensures SameTier(queue, RemoveAt(queue, m), priority)
  {
    RemoveKeepsOrder(queue, m);
    RemoveSeparates(queue, m);
  }

  lemma SameTierServed(a: seq<Entry>, b: seq<Entry>, after: seq<Entry>, priority: real)
    requires SameTier(a, b, priority)
    ensures Served(a, after, priority) <==> Served(b, after, priority)
  {
  }

  /** While somebody of a higher priority is admitted, the question stays the same. */
  lemma HigherAdmitted(g: Pool, m: nat, i: nat) returns (a: Pool)
    requires Ordered(g.queue) && Next(g) == Some(m) && TierStarts(g.queue, i) && i > 0
    ensures Pump(g) == Pump(a) && Ordered(a.queue) && |a.queue| < |g.queue|
    ensures TierStarts(a.queue, i - 1) && a.queue[i - 1] == g.queue[i]
    ensures SameTier(g.queue, a.queue, g.queue[i].priority)
    ensures RoomFor(g, i) <==> RoomFor(a, i - 1)
  {
    a := AdmitAt(g, m);
    TierMovesUp(g, m, i);
    LowerStay(g.queue, m, g.queue[i].priority);
    RemoveKeepsOrder(g.queue, m);
    PumpOnce(g, m);
  }

  /** The answer for what is left is the answer for the whole. */
  lemma ServedLater(g: Pool, a: Pool, i: nat, q: Pool)
    requires 0 < i < |g.queue| && i - 1 < |a.queue| && a.queue[i - 1] == g.queue[i]
    requires SameTier(g.queue, a.queue, g.queue[i].priority) && (RoomFor(g, i) <==> RoomFor(a, i - 1))
    requires Served(a.queue, q.queue, a.queue[i - 1].priority) <==> RoomFor(a, i - 1)
    ensures Served(g.queue, q.queue, g.queue[i].priority) <==> RoomFor(g, i)
  {
    SameTierServed(g.queue, a.queue, q.queue, g.queue[i].priority);
  }

  lemma ServedNow(g: Pool, i: nat)
    requires Ordered(g.queue) && TierStarts(g.queue, i) && (i == 0 || Next(g) == None)
    ensures Served(g.queue, Pump(g).queue, g.queue[i].priority) <==> RoomFor(g, i)
  {
    if Next(g) == None { NobodyServed(g, i); } else { FirstServed(g, Next(g).value); }
  }

  /** Either the answer is known, or a pump goes on with a shorter queue and the same question. */
  lemma ServedNowOrLater(g: Pool, i: nat) returns (now: bool, a: Pool)
    requires Ordered(g.queue) && TierStarts(g.queue, i)
    ensures now ==> (Served(g.queue, Pump(g).queue, g.queue[i].priority) <==> RoomFor(g, i))
    ensures !now ==> i > 0 && Pump(g) == Pump(a) && Ordered(a.queue) && |a.queue| < |g.queue| && TierStarts(a.queue, i - 1)
    ensures !now ==> SameTier(g.queue, a.queue, g.queue[i].priority) && a.queue[i - 1] == g.queue[i]
    ensures !now ==> (RoomFor(g, i) <==> RoomFor(a, i - 1))
  {
    now, a := i == 0 || Next(g) == None, g;
    if now { ServedNow(g, i); } else { a := HigherAdmitted(g, Next(g).value, i); }
  }

  lemma {:induction false} PumpServesIff(g: Pool, i: nat) returns (q: Pool)
    requires Ordered(g.queue) && TierStarts(g.queue, i)
    ensures q == Pump(g) && (Served(g.queue, q.queue, g.queue[i].priority) <==> RoomFor(g, i))
    decreases |g.queue|
  {
    var now, a := ServedNowOrLater(g, i);
    if now {
      q := Pump(g);
    } else {
      q := PumpServesIff(a, i - 1);
      ServedLater(g, a, i, q);
    }
  }

  lemma NobodyServed(g: Pool, i: nat)
    requires Next(g) == None && i < |g.queue|
    ensures !Served(g.queue, Pump(g).queue, g.queue[i].priority) && !RoomFor(g, i)
  {
    if i > 0 { assert g.queue[..i][0] == g.queue[0]; }
  }

  lemma FirstServed(g: Pool, m: nat)
    requires Ordered(g.queue) && Next(g) == Some(m)
    ensures Served(g.queue, Pump(g).queue, g.queue[0].priority) && RoomFor(g, 0)
  {
    var e := g.queue[m];
    assert e in g.queue && g.queue[..0] == [];
    RemoveKeepsOrder(g.queue, m);
    PumpShrinks(AdmitAt(g, m));
    assert e !in Pump(AdmitAt(g, m)).queue;
  }

  /** When a priority is served: a release admits somebody of it exactly when the room it leaves
      is enough for all waiters of higher priorities and one of its own. As long as calls of higher
      priority keep that room filled, it starves. */
  lemma PriorityIsServedIff(p: Pool, k: nat, i: nat)
    requires Inv(p) && k < |p.releasers| && !p.releasers[k].released && TierStarts(p.queue, i)
    ensures Served(p.queue, Release(p, k).queue, p.queue[i].priority)
            <==> exists e <- p.queue ::
                   e.priority == p.queue[i].priority
                   && p.inFlight - p.releasers[k].weight + Weight(p.queue[..i]) + e.weight <= p.limit
  {
    GiveBackKeeps(p, k);
    var q := PumpServesIff(GiveBack(p, k), i);
  }
}
