/**
 Coalescing of duplicate calls: while a function runs for a key, further calls with that key get
 the same promise. An execution is named by its position in `executions`; a call is the
 execution whose promise it was given.
 */
module SingleFlight {
  import opened Prelude
  import opened Counting

  datatype Outcome<V> = Returned(value: V) | Threw(error: string)

  /** An execution runs until it has an outcome. */
  datatype Execution<V> = Execution(key: string, outcome: Option<Outcome<V>>)

  datatype Call = Call(key: string, execution: nat)

  datatype Group<V> = Group(inFlight: map<string, nat>, executions: seq<Execution<V>>, calls: seq<Call>,
                            executed: nat, coalesced: nat)

  function Empty<V>(): Group<V> {
    Group(map[], [], [], 0, 0)
  }

  /** Call with a key. A function that throws before it returns a promise settles its execution
      before the execution is entered in the table. */
  function Do<V>(g: Group<V>, key: string, thrown: Option<string>): Group<V> {
    if key in g.inFlight then
      g.(calls := g.calls + [Call(key, g.inFlight[key])], coalesced := g.coalesced + 1)
    else
      var n := |g.executions|;
      var outcome := if thrown.Some? then Some(Threw(thrown.value)) else None;
      Group(g.inFlight[key := n], g.executions + [Execution(key, outcome)], g.calls + [Call(key, n)],
            g.executed + 1, g.coalesced)
  }

  /** An execution settles and takes its key out of the table, whatever the table holds there. */
  function Settle<V>(g: Group<V>, n: nat, outcome: Outcome<V>): Group<V> {
    if n >= |g.executions| || g.executions[n].outcome.Some? then g
    else
      g.(executions := g.executions[n := g.executions[n].(outcome := Some(outcome))],
         inFlight := g.inFlight - {g.executions[n].key})
  }

  function Reset<V>(g: Group<V>): Group<V> {
    g.(inFlight := map[], executed := 0, coalesced := 0)
  }

  predicate Running<V>(g: Group<V>, n: nat) {
    n < |g.executions| && g.executions[n].outcome.None?
  }

  // ---------------------------------------------------------------- runs

  datatype Op<V> = DoCall(key: string, thrown: Option<string>) | DoSettle(n: nat, outcome: Outcome<V>) | DoReset

  function Step<V>(g: Group<V>, op: Op<V>): Group<V> {
    match op
    case DoCall(key, thrown) => Do(g, key, thrown)
    case DoSettle(n, outcome) => Settle(g, n, outcome)
    case DoReset => Reset(g)
  }

  function Run<V>(g: Group<V>, ops: seq<Op<V>>): Group<V>
    decreases |ops|
  {
    if ops == [] then g else Run(Step(g, ops[0]), ops[1..])
  }

  // ---------------------------------------------------------------- the table tracks what runs

  /** Every running execution is the one its key leads to. */
  ghost predicate Listed<V>(g: Group<V>) {
    forall n: nat :: n < |g.executions| && g.executions[n].outcome.None?
      ==> g.executions[n].key in g.inFlight && g.inFlight[g.executions[n].key] == n
  }

  /** Every entry leads to an execution of its key, and so does every call. */
  ghost predicate Keyed<V>(g: Group<V>) {
    && (forall k <- g.inFlight :: g.inFlight[k] < |g.executions| && g.executions[g.inFlight[k]].key == k)
    && (forall c <- g.calls :: c.execution < |g.executions| && g.executions[c.execution].key == c.key)
  }

  ghost predicate Tracks<V>(g: Group<V>) {
    Listed(g) && Keyed(g)
  }

  /** No entry of the table leads to an execution that is over. */
  ghost predicate Clean<V>(g: Group<V>) {
    forall k <- g.inFlight :: Running(g, g.inFlight[k])
  }

  ghost predicate Quiet<V>(ops: seq<Op<V>>) {
    forall op <- ops :: !op.DoReset?
  }

  ghost predicate Punctual<V>(ops: seq<Op<V>>) {
    forall op <- ops :: op.DoCall? ==> op.thrown.None?
  }

  lemma StepKeyed<V>(g: Group<V>, op: Op<V>)
    requires Keyed(g)
    ensures Keyed(Step(g, op))
  {
  }

  lemma StepTracks<V>(g: Group<V>, op: Op<V>)
    requires Tracks(g) && !op.DoReset?
    ensures Tracks(Step(g, op))
  {
  }

  lemma {:induction false} RunTracks<V>(g: Group<V>, ops: seq<Op<V>>)
    requires Tracks(g) && Quiet(ops)
    ensures Tracks(Run(g, ops))
    decreases |ops|
  {
    if ops != [] {
      StepTracks(g, ops[0]);
      assert forall op <- ops[1..] :: op in ops;
      RunTracks(Step(g, ops[0]), ops[1..]);
    }
  }

  /** As long as the group is not reset, at most one execution per key runs at any time. */
  lemma AtMostOneRuns<V>(ops: seq<Op<V>>, m: nat, n: nat)
    requires Quiet(ops)
    requires var g := Run(Empty<V>(), ops); Running(g, m) && Running(g, n) && g.executions[m].key == g.executions[n].key
    ensures m == n
  {
    RunTracks(Empty<V>(), ops);
  }

  /** A reset keeps the table in step exactly when nothing runs. */
  lemma ResetTracksIff<V>(g: Group<V>)
    requires Tracks(g)
    ensures Tracks(Reset(g)) <==> forall n: nat :: n < |g.executions| ==> g.executions[n].outcome.Some?
  {
  }

  /** A reset while a function runs lets the next call start a second execution for the key. */
  lemma ResetDoublesWork<V>(g: Group<V>, n: nat)
    requires Running(g, n)
    ensures var after := Do(Reset(g), g.executions[n].key, None);
            && Running(after, n) && Running(after, |g.executions|)
            && after.executions[n].key == after.executions[|g.executions|].key
  {
  }

  /** When the older of two executions settles it removes the entry of the newer one, so that a
      third call starts a third execution beside it. */
  lemma SettlingRemovesAnothersEntry<V>(g: Group<V>, n: nat, outcome: Outcome<V>)
    requires Running(g, n)
    ensures var second := Do(Reset(g), g.executions[n].key, None);
            var third := Do(Settle(second, n, outcome), g.executions[n].key, None);
            && Running(third, |g.executions|) && Running(third, |g.executions| + 1)
            && third.executions[|g.executions|].key == third.executions[|g.executions| + 1].key
  {
  }

  // ---------------------------------------------------------------- what a call gets

  lemma StepClean<V>(g: Group<V>, op: Op<V>)
    requires Keyed(g) && Clean(g)
    requires op.DoCall? ==> op.thrown.None?
    ensures Clean(Step(g, op))
  {
  }

  lemma {:induction false} RunClean<V>(g: Group<V>, ops: seq<Op<V>>)
    requires Tracks(g) && Clean(g) && Quiet(ops) && Punctual(ops)
    ensures Tracks(Run(g, ops)) && Clean(Run(g, ops))
    decreases |ops|
  {
    if ops != [] {
      StepTracks(g, ops[0]);
      StepClean(g, ops[0]);
      assert forall op <- ops[1..] :: op in ops;
      RunClean(Step(g, ops[0]), ops[1..]);
    }
  }

  /** A call is given the promise of an execution of its own key that is running: the one that
      runs already, or else a new one. It never gets an old result. */
  lemma CallGetsRunning<V>(ops: seq<Op<V>>, key: string)
    requires Quiet(ops) && Punctual(ops)
    ensures var g := Run(Empty<V>(), ops);
            var after := Do(g, key, None);
            |after.calls| == |g.calls| + 1 &&
            var n := after.calls[|g.calls|].execution;
            && Running(after, n) && after.executions[n].key == key
            && (n < |g.executions| <==> exists m: nat :: m < |g.executions| && Running(g, m) && g.executions[m].key == key)
            && (forall m: nat :: m < |g.executions| && Running(g, m) && g.executions[m].key == key ==> m == n)
  {
    RunClean(Empty<V>(), ops);
    var g := Run(Empty<V>(), ops);
    if key in g.inFlight {
      assert Running(g, g.inFlight[key]);
    }
  }

  /** An outcome is final, and so is the execution a call was given: everybody who joined an
      execution gets the outcome it settled with. */
  lemma {:induction false} OutcomesAreFinal<V>(g: Group<V>, ops: seq<Op<V>>)
    ensures |g.executions| <= |Run(g, ops).executions| && g.calls <= Run(g, ops).calls
    ensures forall n :: 0 <= n < |g.executions| && g.executions[n].outcome.Some?
              ==> Run(g, ops).executions[n] == g.executions[n]
    decreases |ops|
  {
    if ops != [] {
      OutcomesAreFinal(Step(g, ops[0]), ops[1..]);
    }
  }

  lemma JoinersShareTheOutcome<V>(g: Group<V>, ops: seq<Op<V>>, i: nat, j: nat, outcome: Outcome<V>)
    requires Tracks(g) && i < |g.calls| && j < |g.calls| && g.calls[i].execution == g.calls[j].execution
    requires Running(g, g.calls[i].execution)
    ensures var end := Run(Settle(g, g.calls[i].execution, outcome), ops);
            && |end.calls| >= |g.calls| && |end.executions| >= |g.executions|
            && end.calls[i] == g.calls[i] && end.calls[j] == g.calls[j]
            && end.executions[end.calls[i].execution].outcome == Some(outcome)
            && end.executions[end.calls[j].execution].outcome == Some(outcome)
  {
    var settled := Settle(g, g.calls[i].execution, outcome);
    OutcomesAreFinal(settled, ops);
  }

  // ---------------------------------------------------------------- a function that throws at once

  /** The key leads to an execution that is over. */
  predicate Poisoned<V>(g: Group<V>, key: string, n: nat) {
    key in g.inFlight && g.inFlight[key] == n && n < |g.executions| && g.executions[n].key == key && !Running(g, n)
  }

  /** After a function has thrown before it returned a promise, every later call with the key
      gets that failure and nothing runs for the key again, until a reset. */
  lemma {:induction false} ThrowAtOncePoisons<V>(g: Group<V>, key: string, n: nat, ops: seq<Op<V>>)
    requires Tracks(g) && Poisoned(g, key, n) && Quiet(ops)
    ensures Poisoned(Run(g, ops), key, n)
    ensures Run(g, ops).executions[n] == g.executions[n]
    ensures forall i :: |g.calls| <= i < |Run(g, ops).calls| && Run(g, ops).calls[i].key == key
              ==> Run(g, ops).calls[i].execution == n
    decreases |ops|
  {
    if ops != [] {
      assert ops[0] in ops;
      assert forall op <- ops[1..] :: op in ops;
      StepTracks(g, ops[0]);
      var next := Step(g, ops[0]);
      ThrowAtOncePoisons(next, key, n, ops[1..]);
      OutcomesAreFinal(next, ops[1..]);
    }
  }

  lemma ThrowingPoisons<V>(g: Group<V>, key: string, error: string)
    requires key !in g.inFlight
    ensures Poisoned(Do(g, key, Some(error)), key, |g.executions|)
    ensures Do(g, key, Some(error)).executions[|g.executions|].outcome == Some(Threw(error))
  {
  }

  /** The key leads to some execution that is over. */
  predicate IsPoisoned<V>(g: Group<V>, key: string) {
    key in g.inFlight && Poisoned(g, key, g.inFlight[key])
  }

  /** The call starts an execution whose function throws before it returns a promise. */
  predicate ThrowsAtOnce<V>(g: Group<V>, op: Op<V>, key: string) {
    op.DoCall? && op.key == key && op.thrown.Some? && key !in g.inFlight
  }

  lemma StepPoisonsIff<V>(g: Group<V>, op: Op<V>, key: string)
    requires Tracks(g) && !op.DoReset?
    ensures IsPoisoned(Step(g, op), key) <==> IsPoisoned(g, key) || ThrowsAtOnce(g, op, key)
  {
  }

  /** A key is poisoned exactly when some call of the run started an execution for it whose
      function threw before it returned a promise. Joining calls and later rejections do no harm. */
  lemma {:induction false} PoisonedIff<V>(g: Group<V>, ops: seq<Op<V>>, key: string)
    requires Tracks(g) && Quiet(ops)
    ensures IsPoisoned(Run(g, ops), key)
            <==> IsPoisoned(g, key) || exists j :: 0 <= j < |ops| && ThrowsAtOnce(Run(g, ops[..j]), ops[j], key)
    decreases |ops|
  {
    if ops != [] {
      assert ops[0] in ops;
      assert forall op <- ops[1..] :: op in ops;
      StepTracks(g, ops[0]);
      StepPoisonsIff(g, ops[0], key);
      PoisonedIff(Step(g, ops[0]), ops[1..], key);
      SomeThrowSplits(g, ops, key);
    }
  }

  lemma SomeThrowSplits<V>(g: Group<V>, ops: seq<Op<V>>, key: string)
    requires ops != []
    ensures (exists j :: 0 <= j < |ops| && ThrowsAtOnce(Run(g, ops[..j]), ops[j], key))
            <==> ThrowsAtOnce(g, ops[0], key)
                 || exists j :: 0 <= j < |ops[1..]| && ThrowsAtOnce(Run(Step(g, ops[0]), ops[1..][..j]), ops[1..][j], key)
  {
    var next, rest := Step(g, ops[0]), ops[1..];
    assert ops[..0] == [];
    forall j | 0 <= j < |rest| ensures Run(g, ops[..j + 1]) == Run(next, rest[..j]) {
      assert ops[..j + 1][1..] == rest[..j];
    }
    if j :| 0 <= j < |ops| && ThrowsAtOnce(Run(g, ops[..j]), ops[j], key) {
      if j > 0 { assert ThrowsAtOnce(Run(next, rest[..j - 1]), rest[j - 1], key); }
    }
    if j :| 0 <= j < |rest| && ThrowsAtOnce(Run(next, rest[..j]), rest[j], key) {
      assert ThrowsAtOnce(Run(g, ops[..j + 1]), ops[j + 1], key);
    }
    if ThrowsAtOnce(g, ops[0], key) {
      assert ThrowsAtOnce(Run(g, ops[..0]), ops[0], key);
    }
  }

  /** A run of two calls: the first function throws at once, the second would have returned, and
      its caller gets the first one's failure although nothing runs. */
  lemma SecondCallGetsTheThrow<V>(key: string, error: string)
    ensures var g := Run(Empty<V>(), [DoCall(key, Some(error)), DoCall(key, None)]);
            && |g.executions| == 1 && g.executions[0] == Execution(key, Some(Threw(error)))
            && g.calls == [Call(key, 0), Call(key, 0)]
  {
    var first: Op<V>, second: Op<V> := DoCall(key, Some(error)), DoCall(key, None);
    assert [first, second][1..] == [second] && [second][1..] == [];
    assert Run(Step(Empty<V>(), first), [second]) == Run(Step(Step(Empty<V>(), first), second), []);
  }

  // ---------------------------------------------------------------- metrics

  function IsRunning<V>(): Execution<V> -> bool { (e: Execution<V>) => e.outcome.None? }

  ghost predicate Counted<V>(g: Group<V>) {
    && |g.calls| == g.executed + g.coalesced
    && |g.executions| == g.executed
    && |g.inFlight| == Count(g.executions, IsRunning())
  }

  lemma StepCounts<V>(g: Group<V>, op: Op<V>)
    requires Tracks(g) && Clean(g) && Counted(g)
    requires !op.DoReset? && (op.DoCall? ==> op.thrown.None?)
    ensures Counted(Step(g, op))
  {
    match op
    case DoCall(key, thrown) =>
      if key !in g.inFlight {
        CountAppend(g.executions, Execution(key, None), IsRunning());
      }
    case DoSettle(n, outcome) =>
      if Running(g, n) {
        CountUpdate(g.executions, n, g.executions[n].(outcome := Some(outcome)), IsRunning());
        var key := g.executions[n].key;
        assert (g.inFlight - {key}).Keys == g.inFlight.Keys - {key};
        assert |g.inFlight.Keys - {key}| == |g.inFlight.Keys| - 1;
        assert |g.inFlight| == |g.inFlight.Keys| && |g.inFlight - {key}| == |(g.inFlight - {key}).Keys|;
      }
  }

  /** Every call either started an execution or was coalesced, and the size of the table is the
      number of functions that run. */
  lemma {:induction false} MetricsAreExact<V>(g: Group<V>, ops: seq<Op<V>>)
    requires Tracks(g) && Clean(g) && Counted(g) && Quiet(ops) && Punctual(ops)
    ensures Counted(Run(g, ops))
    decreases |ops|
  {
    if ops != [] {
      StepTracks(g, ops[0]);
      StepClean(g, ops[0]);
      StepCounts(g, ops[0]);
      assert forall op <- ops[1..] :: op in ops;
      MetricsAreExact(Step(g, ops[0]), ops[1..]);
    }
  }

  lemma EmptyIsCounted<V>()
    ensures Tracks(Empty<V>()) && Clean(Empty<V>()) && Counted(Empty<V>())
  {
  }

  lemma {:induction false} CountsGrow<V>(g: Group<V>, ops: seq<Op<V>>)
    requires Quiet(ops)
    ensures var t := Run(g, ops);
            && t.executed - g.executed == |t.executions| - |g.executions|
            && t.executed - g.executed + t.coalesced - g.coalesced == |t.calls| - |g.calls|
    decreases |ops|
  {
    if ops != [] {
      assert forall op <- ops[1..] :: op in ops;
      CountsGrow(Step(g, ops[0]), ops[1..]);
    }
  }

  /** After a reset the metrics start anew, in whatever state it found the group: the executed ones
      are those started since, and the coalesced ones are the other calls since. */
  lemma {:induction false} CountsSinceReset<V>(g: Group<V>, ops: seq<Op<V>>)
    requires Quiet(ops)
    ensures var t := Run(Step(g, DoReset), ops);
            && t.executed == |t.executions| - |g.executions|
            && t.coalesced == |t.calls| - |g.calls| - t.executed
  {
    CountsGrow(Step(g, DoReset), ops);
  }
}
