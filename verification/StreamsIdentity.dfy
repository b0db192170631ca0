/** The caps on streams in terms of who the callers are. */
module StreamsIdentity {
  import opened Prelude
  import opened Counting
  import opened Streams
  import opened StreamsSafety
  import opened StreamsRuns

  /** An admitted stream. */
  function Anybody(): Caller -> bool { (c: Caller) => c.phase.Admitted? }

  /** An admitted stream of this user. */
  function OfUser(u: string): Caller -> bool { (c: Caller) => c.phase.Admitted? && c.who.userId == Some(u) }

  /** An admitted stream from this address. */
  function OfIp(a: string): Caller -> bool { (c: Caller) => c.phase.Admitted? && c.who.ip == a }

  /** An admitted stream of some user; an empty user id is nobody. */
  function OfSomeUser(): Caller -> bool {
    (c: Caller) => c.phase.Admitted? && c.who.userId.Some? && c.who.userId.value != ""
  }

  lemma CountSame(cs: seq<Caller>, p: Caller -> bool, q: Caller -> bool)
    requires forall c <- cs :: p(c) <==> q(c)
    ensures Count(cs, p) == Count(cs, q)
  {
    CountWithin(cs, p, q);
    CountWithin(cs, q, p);
  }

  /** What an admitted stream owes to which counter, read off its identity. */
  lemma Owes(t: Tracker, u: string, a: string)
    requires Inv(t) && u != ""
    ensures t.cfg.maxGlobal > 0 ==> Count(t.callers, StreamingAt(Global)) == Count(t.callers, Anybody())
    ensures t.cfg.maxPerUser > 0 ==> Count(t.callers, StreamingAt(User(u))) == Count(t.callers, OfUser(u))
    ensures t.cfg.maxPerIp > 0 ==> Count(t.callers, StreamingAt(Ip(a))) == Count(t.callers, OfIp(a))
  {
    assert forall c <- t.callers :: OnPlan(t.cfg, c);
    if t.cfg.maxGlobal > 0 { CountSame(t.callers, StreamingAt(Global), Anybody()); }
    if t.cfg.maxPerUser > 0 { CountSame(t.callers, StreamingAt(User(u)), OfUser(u)); }
    if t.cfg.maxPerIp > 0 { CountSame(t.callers, StreamingAt(Ip(a)), OfIp(a)); }
  }

  /** In every timely run no more streams are admitted than the caps say: in all, for one user and
      for one address. A cap of zero is no cap. */
  lemma CapsPerIdentity(cfg: Config, ops: seq<Op>, u: string, a: string)
    requires Timely(Fresh(cfg), ops) && u != ""
    ensures var cs := Run(Fresh(cfg), ops).callers;
            && (cfg.maxGlobal > 0 ==> Count(cs, Anybody()) <= cfg.maxGlobal)
            && (cfg.maxPerUser > 0 ==> Count(cs, OfUser(u)) <= cfg.maxPerUser)
            && (cfg.maxPerIp > 0 ==> Count(cs, OfIp(a)) <= cfg.maxPerIp)
  {
    var t := Run(Fresh(cfg), ops);
    FreshInv(cfg);
    RunKeeps(Fresh(cfg), ops);
    RunConfig(Fresh(cfg), ops);
    Owes(t, u, a);
    CapsHold(cfg, ops, Global);
    CapsHold(cfg, ops, User(u));
    CapsHold(cfg, ops, Ip(a));
  }

  /** In every timely run the gauges count the admitted streams, and those that have a user. */
  lemma GaugesPerIdentity(cfg: Config, ops: seq<Op>)
    requires Timely(Fresh(cfg), ops)
    ensures var t := Run(Fresh(cfg), ops);
            && t.activeGlobal == t.activeIp == Count(t.callers, Anybody())
            && t.activeUser == Count(t.callers, OfSomeUser())
  {
    GaugesAreExact(cfg, ops);
    CountSame(Run(Fresh(cfg), ops).callers, Streaming(), Anybody());
    CountSame(Run(Fresh(cfg), ops).callers, StreamingUser(), OfSomeUser());
  }

  /** What the caps say of a newcomer: the deployment as a whole comes first, then its user, then
      its address. */
  ghost function Answer(t: Tracker, who: Identity): Phase {
    if t.cfg.maxGlobal > 0 && Count(t.callers, Anybody()) >= t.cfg.maxGlobal then Rejected(Global)
    else if t.cfg.maxPerUser > 0 && who.userId.Some? && who.userId.value != ""
            && Count(t.callers, OfUser(who.userId.value)) >= t.cfg.maxPerUser then Rejected(User(who.userId.value))
    else if t.cfg.maxPerIp > 0 && Count(t.callers, OfIp(who.ip)) >= t.cfg.maxPerIp then Rejected(Ip(who.ip))
    else Admitted
  }

  /** How an acquisition that nobody interrupts ends, read off the identities of the admitted
      streams. */
  lemma UncontendedAnswer(t: Tracker, who: Identity, now: int)
    requires Inv(t) && Quiet(t.callers) && Unexpired(t.memory, now) && t.cfg.ttl >= 0
    ensures var c := Finish(Arrive(t, who), |t.callers|, now, STEPS).callers;
            |c| == |t.callers| + 1 && c[|t.callers|].phase == Answer(t, who)
  {
    UncontendedAcquireIff(t, who, now);
    var u := if who.userId.Some? && who.userId.value != "" then who.userId.value else "nobody";
    Owes(t, u, who.ip);
    FullIs(t, who, u);
    FirstFullMeans(t.cfg, t.callers, Plan(t.cfg, who), 0);
    assert Plan(t.cfg, who)[0..] == Plan(t.cfg, who);
  }

  lemma FullStep(t: Tracker, plan: seq<Key>, i: nat)
    ensures FirstFull(t.cfg, t.callers, plan, i)
            == if i >= |plan| then None
               else if Saturated(t.cfg, t.callers, plan[i]) then Some(plan[i])
               else FirstFull(t.cfg, t.callers, plan, i + 1)
  {
  }

  /** The planned counters are looked at in the order of the scopes. */
  lemma FullIs(t: Tracker, who: Identity, u: string)
    requires u != "" && (who.userId.Some? && who.userId.value != "" ==> u == who.userId.value)
    requires t.cfg.maxGlobal > 0 ==> Count(t.callers, StreamingAt(Global)) == Count(t.callers, Anybody())
    requires t.cfg.maxPerUser > 0 ==> Count(t.callers, StreamingAt(User(u))) == Count(t.callers, OfUser(u))
    requires t.cfg.maxPerIp > 0 ==> Count(t.callers, StreamingAt(Ip(who.ip))) == Count(t.callers, OfIp(who.ip))
    ensures FirstFull(t.cfg, t.callers, Plan(t.cfg, who), 0)
            == if Answer(t, who).Rejected? then Some(Answer(t, who).at) else None
  {
    var plan := Plan(t.cfg, who);
    assert |plan| <= 3;
    FullStep(t, plan, 0);
    FullStep(t, plan, 1);
    FullStep(t, plan, 2);
  }
}
