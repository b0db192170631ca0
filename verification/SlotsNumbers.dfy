/** How many calls a provider and a host have at once, in numbers. */
module SlotsNumbers {
  import opened Prelude
  import opened Counting
  import opened Slots
  import opened SlotsSafety
  import opened SlotsRuns

  /** The call has a slot of provider `p`: from the moment it gets one until it gives it back. */
  function UsesProvider(p: string): Caller -> bool {
    (c: Caller) => c.provider == p && c.phase in {HasProvider, WaitingHost, HostRefused, Phase.Holding}
  }

  /** The call has a slot of host `h`. */
  function UsesHost(h: string): Caller -> bool {
    (c: Caller) => c.host == Some(h) && c.phase.Holding?
  }

  lemma CountSame(cs: seq<Caller>, p: Caller -> bool, q: Caller -> bool)
    requires forall c <- cs :: p(c) <==> q(c)
    ensures Count(cs, p) == Count(cs, q)
  {
    CountWithin(cs, p, q);
    CountWithin(cs, q, p);
  }

  /** In every reachable state at most `limit` calls have a slot of one provider and at most twice
      as many one of a host, and somebody waits for either only while exactly that many have one. */
  lemma {:induction false} AtMostLimit(limit: nat, ops: seq<Op>, p: string, h: string)
    requires h != ""
    ensures var cs := Reached(limit, ops).callers;
            && Count(cs, UsesProvider(p)) <= limit
            && ((exists c <- cs :: c.provider == p && c.phase.WaitingProvider?) ==> Count(cs, UsesProvider(p)) == limit)
            && Count(cs, UsesHost(h)) <= 2 * limit
            && ((exists c <- cs :: c.host == Some(h) && c.phase.WaitingHost?) ==> Count(cs, UsesHost(h)) == 2 * limit)
  {
    var t := Reached(limit, ops);
    RunLimit(Empty(limit), ops);
    SlotsAreExact(limit, ops, Provider(p));
    SlotsAreExact(limit, ops, Host(h));
    CountSame(t.callers, HolderOf(Provider(p)), UsesProvider(p));
    CountSame(t.callers, HolderOf(Host(h)), UsesHost(h));
    forall c | c in t.callers && c.provider == p && c.phase.WaitingProvider? ensures SemOf(t, Provider(p)).queue != [] {
      var i :| 0 <= i < |t.callers| && t.callers[i] == c;
      assert Waits(t.callers[i], Provider(p));
    }
    forall c | c in t.callers && c.host == Some(h) && c.phase.WaitingHost? ensures SemOf(t, Host(h)).queue != [] {
      var i :| 0 <= i < |t.callers| && t.callers[i] == c;
      assert Waits(t.callers[i], Host(h));
    }
  }

  lemma {:induction false} RunLimit(t: Table, ops: seq<Op>)
    ensures Run(t, ops).limit == t.limit
    decreases |ops|
  {
    if ops != [] { RunLimit(Step(t, ops[0]), ops[1..]); }
  }

  /** What a new call becomes: it is turned away if its signal has fired, gets a slot if fewer than
      `limit` calls of its provider have one, and waits otherwise. */
  lemma {:induction false} ArrivalBecomes(limit: nat, ops: seq<Op>, p: string, host: Option<string>, hasSignal: bool, preAborted: bool)
    ensures var t := Reached(limit, ops);
            var u := Acquire(t, p, host, hasSignal, preAborted);
            var phase := if preAborted then Aborted
                         else if Count(t.callers, UsesProvider(p)) < limit then HasProvider else WaitingProvider;
            u.callers == t.callers + [Caller(p, host, hasSignal, preAborted, phase)]
  {
    RunLimit(Empty(limit), ops);
    SlotsAreExact(limit, ops, Provider(p));
    CountSame(Reached(limit, ops).callers, HolderOf(Provider(p)), UsesProvider(p));
  }

  /** What a call that has its provider becomes when it goes on: without a host, or with an empty
      one, it is through; with a host it needs one of twice as many slots, and is refused at once
      when there is none and its signal has fired. */
  lemma {:induction false} CallBecomes(limit: nat, ops: seq<Op>, c: nat)
    requires var t := Reached(limit, ops); c < |t.callers| && t.callers[c].phase.HasProvider?
    ensures var t := Reached(limit, ops);
            var caller := t.callers[c];
            var phase := if caller.host.None? || caller.host.value == "" then Phase.Holding
                         else if Count(t.callers, UsesHost(caller.host.value)) < 2 * limit then Phase.Holding
                         else if caller.signalled then HostRefused else WaitingHost;
            Resume(t, c).callers == t.callers[c := caller.(phase := phase)]
  {
    var t := Reached(limit, ops);
    RunLimit(Empty(limit), ops);
    if t.callers[c].host.Some? && t.callers[c].host.value != "" {
      var h := t.callers[c].host.value;
      SlotsAreExact(limit, ops, Host(h));
      CountSame(t.callers, HolderOf(Host(h)), UsesHost(h));
    }
  }

  /** What a signal does: nothing to a call that gave none; a call that waits for its provider is
      out, one that waits for its host still has its provider to give back, any other one only
      remembers it. */
  lemma {:induction false} SignalBecomes(limit: nat, ops: seq<Op>, c: nat)
    requires c < |Reached(limit, ops).callers|
    ensures var t := Reached(limit, ops);
            var caller := t.callers[c];
            Abort(t, c).callers ==
              if !caller.hasSignal then t.callers
              else t.callers[c := caller.(signalled := true,
                                          phase := match caller.phase
                                                   case WaitingProvider => Aborted
                                                   case WaitingHost => HostRefused
                                                   case other => other)]
  {
    RunKeeps(Empty(limit), ops);
    assert Reached(limit, ops).callers[c] in Reached(limit, ops).callers;
  }
}
