/** The runtime's fetch/reload state machine (pavis, agent/fsm.rs). `Tick` is the transition function;
    the class `Fsm` is the object that performs it in place. */
module AgentFsm {
  import opened Common

  type Tag = string

  const REJECT_TTL_MS := 600_000

  const U32_MAX := 0xFFFF_FFFF

  datatype Context = Context(
    lastApplied: Option<Tag>,
    lastRejected: Option<Tag>,
    rejectedUntil: Option<int>,
    attempts: nat,
    observed: Option<nat>,
    forced: nat)

  const NewContext := Context(None, None, None, 0, None, 0)

  datatype Phase = Idle | Fetching | Verifying | Applying | Sleeping | Stopped

  datatype Update = Update(tag: Tag, version: Option<nat>)

  datatype Response =
    | NewArtifact(tag: Tag, version: Option<nat>, bytes: Bytes)
    | NoUpdate
    | NeedResync
    | Unavailable

  datatype Event =
    | Start(now: int)
    | Reply(response: Response, now: int)
    | VerifyOk(update: Update, now: int)
    | VerifyFail(tag: Tag, now: int)
    | ApplyOk(tag: Tag, version: Option<nat>, now: int)
    | ApplyFail(tag: Tag, now: int)
    | TimerFired(now: int)
    | Shutdown

  /** `Fetch(None)` is the unconditional fetch; `Schedule` carries the attempt its delay is for. */
  datatype Effect =
    | Fetch(ifNoneMatch: Option<Tag>)
    | Verify(tag: Tag, version: Option<nat>, bytes: Bytes)
    | Apply(update: Update)
    | Schedule(attempt: nat)
    | DiscardTemp

  datatype Machine = Machine(phase: Phase, ctx: Context)

  function ClearExpired(c: Context, now: int): Context {
    if c.rejectedUntil.Some? && now >= c.rejectedUntil.value then c.(lastRejected := None, rejectedUntil := None) else c
  }

  /** The context and the ETag of the next fetch. */
  function Conditional(c: Context, now: int): (Context, Option<Tag>) {
    var c := ClearExpired(c, now);
    if c.forced > 0 then (c.(forced := c.forced - 1), None)
    else (c, if c.lastRejected.Some? then c.lastRejected else c.lastApplied)
  }

  function Refetch(c: Context, now: int): (Machine, seq<Effect>) {
    var (c', tag) := Conditional(c, now);
    (Machine(Fetching, c'), [Fetch(tag)])
  }

  function Backoff(c: Context): (Machine, seq<Effect>) {
    var next := if c.attempts < U32_MAX then c.attempts + 1 else U32_MAX;
    (Machine(Sleeping, c.(attempts := next)), [Schedule(c.attempts)])
  }

  function Rejected(c: Context, tag: Tag, now: int): Context {
    c.(lastRejected := Some(tag), rejectedUntil := Some(now + REJECT_TTL_MS))
  }

  predicate SkipsRejected(c: Context, tag: Tag, now: int) {
    c.lastRejected == Some(tag) && c.rejectedUntil.Some? && now < c.rejectedUntil.value
  }

  function TickReply(c: Context, r: Response, now: int): (Machine, seq<Effect>) {
    var c := ClearExpired(c, now);
    match r
    case NewArtifact(tag, version, bytes) =>
      if SkipsRejected(c, tag, now) then Refetch(c.(attempts := 0), now)
      else (Machine(Verifying, c), [Verify(tag, version, bytes)])
    case NoUpdate => Refetch(c.(attempts := 0), now)
    case NeedResync =>
      var cleared := c.(lastApplied := None, lastRejected := None, rejectedUntil := None, forced := 2, attempts := 0);
      (Machine(Fetching, cleared), [Fetch(None)])
    case Unavailable => Backoff(c)
  }

  function TickVerified(c: Context, u: Update, now: int): (Machine, seq<Effect>) {
    var c := ClearExpired(c, now);
    if c.lastApplied == Some(u.tag) then
      var (c', tag) := Conditional(c.(attempts := 0), now);
      (Machine(Fetching, c'), [DiscardTemp, Fetch(tag)])
    else (Machine(Applying, c), [Apply(u)])
  }

  function TickApplied(c: Context, tag: Tag, version: Option<nat>, now: int): (Machine, seq<Effect>) {
    var c := if c.forced == 0 then c.(lastApplied := Some(tag)) else c;
    Refetch(c.(lastRejected := None, rejectedUntil := None, attempts := 0, observed := version), now)
  }

  function Tick(m: Machine, e: Event): (Machine, seq<Effect>) {
    match (m.phase, e)
    case (_, Shutdown) => (m.(phase := Stopped), [])
    case (Idle, Start(now)) => (Machine(Fetching, ClearExpired(m.ctx, now)), [Fetch(None)])
    case (Idle, TimerFired(now)) => Refetch(m.ctx, now)
    case (Fetching, Reply(r, now)) => TickReply(m.ctx, r, now)
    case (Verifying, VerifyOk(u, now)) => TickVerified(m.ctx, u, now)
    case (Verifying, VerifyFail(tag, now)) => Backoff(Rejected(m.ctx, tag, now))
    case (Applying, ApplyOk(tag, version, now)) => TickApplied(m.ctx, tag, version, now)
    case (Applying, ApplyFail(tag, now)) => Backoff(Rejected(m.ctx, tag, now))
    case (Sleeping, TimerFired(now)) => Refetch(m.ctx, now)
    case (_, _) => (m, [])
  }

  /* ---- rejected artifacts and backoff, over runs of events ---- */

  function RunEvents(m: Machine, es: seq<Event>): Machine
    decreases |es|
  {
    if es == [] then m else RunEvents(Tick(m, es[0]).0, es[1..])
  }

  /** All effects of a run of events, in order. */
  function Effects(m: Machine, es: seq<Event>): seq<Effect>
    decreases |es|
  {
    if es == [] then [] else Tick(m, es[0]).1 + Effects(Tick(m, es[0]).0, es[1..])
  }

  /** The tag is rejected at least until the given time. */
  ghost predicate RejectedUntil(c: Context, tag: Tag, until: int) {
    c.lastRejected == Some(tag) && c.rejectedUntil.Some? && c.rejectedUntil.value >= until
  }

  /** An event between a rejection and its end. */
  ghost predicate WithinRejection(e: Event, until: int) {
    !e.Shutdown? ==> until - REJECT_TTL_MS <= e.now < until
  }

  /** What ends a rejection before its time: a resync answer, any applied artifact, and the failure of
      another one, which takes its place. */
  ghost predicate Lifts(m: Machine, e: Event, tag: Tag) {
    || (m.phase.Fetching? && e.Reply? && e.response.NeedResync?)
    || (m.phase.Applying? && e.ApplyOk?)
    || (m.phase.Verifying? && e.VerifyFail? && e.tag != tag)
    || (m.phase.Applying? && e.ApplyFail? && e.tag != tag)
  }

  /** One event keeps a rejection exactly when it is none of those, and then the rejected artifact is not
      sent to verification. */
  lemma RejectionStep(m: Machine, e: Event, tag: Tag, until: int)
    requires RejectedUntil(m.ctx, tag, until) && WithinRejection(e, until)
    ensures RejectedUntil(Tick(m, e).0.ctx, tag, until) <==> !Lifts(m, e, tag)
    ensures forall i :: 0 <= i < |Tick(m, e).1| ==> Tick(m, e).1[i].Verify? ==> Tick(m, e).1[i].tag != tag
  {
  }

  /** The rejection is in force at every point of the run. */
  ghost predicate KeptThroughout(m: Machine, es: seq<Event>, tag: Tag, until: int)
    decreases |es|
  {
    RejectedUntil(m.ctx, tag, until) && (es == [] || KeptThroughout(Tick(m, es[0]).0, es[1..], tag, until))
  }

  /** No event of the run lifts it. */
  ghost predicate NeverLifted(m: Machine, es: seq<Event>, tag: Tag)
    decreases |es|
  {
    es == [] || (!Lifts(m, es[0], tag) && NeverLifted(Tick(m, es[0]).0, es[1..], tag))
  }

  /** Before its time to live is over, a rejection is in force throughout a run if and only if no event of
      the run lifts it; and as long as it is, the rejected artifact is not verified again, however often
      the relay delivers it. */
  lemma {:induction false} RejectionHoldsExactlyUnlessLifted(m: Machine, es: seq<Event>, tag: Tag, until: int)
    requires RejectedUntil(m.ctx, tag, until) && forall i :: 0 <= i < |es| ==> WithinRejection(es[i], until)
    ensures KeptThroughout(m, es, tag, until) <==> NeverLifted(m, es, tag)
    ensures NeverLifted(m, es, tag) ==>
              forall i :: 0 <= i < |Effects(m, es)| ==> Effects(m, es)[i].Verify? ==> Effects(m, es)[i].tag != tag
    decreases |es|
  {
    if es != [] {
      RejectionStep(m, es[0], tag, until);
      if !Lifts(m, es[0], tag) {
        RejectionHoldsExactlyUnlessLifted(Tick(m, es[0]).0, es[1..], tag, until);
      }
    }
  }

  /** Applying one artifact lifts the rejection of another: with B rejected, the next delivery of B after C
      has been applied is verified, at any time. */
  lemma OtherApplicationLifts(
    c: Context, tagB: Tag, tagC: Tag, version: Option<nat>, bytes: Bytes, until: int, now: int, later: int)
    requires RejectedUntil(c, tagB, until) && tagB != tagC
    ensures var m := Tick(Machine(Applying, c), ApplyOk(tagC, version, now)).0;
            && m.phase == Fetching && m.ctx.lastRejected.None?
            && Tick(m, Reply(NewArtifact(tagB, version, bytes), later)).1 == [Verify(tagB, version, bytes)]
  {
  }

  /** ... and from that time on the next delivery is verified. */
  lemma RejectionExpires(c: Context, version: Option<nat>, bytes: Bytes, tag: Tag, now: int)
    requires c.lastRejected == Some(tag) && c.rejectedUntil.Some?
    ensures Tick(Machine(Fetching, c), Reply(NewArtifact(tag, version, bytes), now)).1 == [Verify(tag, version, bytes)]
            <==> now >= c.rejectedUntil.value
  {
    var effects := Tick(Machine(Fetching, c), Reply(NewArtifact(tag, version, bytes), now)).1;
    assert |effects| == 1;
    assert effects[0].Verify? <==> now >= c.rejectedUntil.value;
  }

  /** A failed verification or application rejects the artifact for ten minutes from then: the next delivery of it
      is verified if and only if those are over. */
  lemma RejectionLasts(c: Context, e: Event, version: Option<nat>, bytes: Bytes, later: int, now: int)
    requires e.VerifyFail? || e.ApplyFail?
    ensures var m := Tick(Machine(if e.VerifyFail? then Verifying else Applying, c), e).0;
            var woken := Tick(m, TimerFired(later)).0;
            && m.ctx.lastRejected == Some(e.tag) && m.ctx.rejectedUntil == Some(e.now + 600_000)
            && (later < e.now + 600_000 ==>
                  (Tick(woken, Reply(NewArtifact(e.tag, version, bytes), now)).1 == [Verify(e.tag, version, bytes)]
                   <==> now >= e.now + 600_000))
  {
    var m := Tick(Machine(if e.VerifyFail? then Verifying else Applying, c), e).0;
    var woken := Tick(m, TimerFired(later)).0;
    if later < e.now + 600_000 { RejectionExpires(woken.ctx, version, bytes, e.tag, now); }
  }

  /** The observed version is that of the last applied artifact; nothing else moves it. */
  lemma ObservedExactly(m: Machine, e: Event)
    ensures Tick(m, e).0.ctx.observed == if m.phase.Applying? && e.ApplyOk? then e.version else m.ctx.observed
  {
  }

  /** Failed fetches in a row, each followed by its timer, at the given pairs of clock readings. */
  function Outage(clocks: seq<(int, int)>): seq<Event> {
    if clocks == [] then [] else [Reply(Unavailable, clocks[0].0), TimerFired(clocks[0].1)] + Outage(clocks[1..])
  }

  function Schedules(effects: seq<Effect>): seq<nat> {
    if effects == [] then []
    else if effects[0].Schedule? then [effects[0].attempt] + Schedules(effects[1..])
    else Schedules(effects[1..])
  }

  lemma OutageStep(c: Context, es: seq<Event>, now: int, later: int) returns (c': Context)
    ensures c'.attempts == if c.attempts < U32_MAX then c.attempts + 1 else U32_MAX
    ensures RunEvents(Machine(Fetching, c), [Reply(Unavailable, now), TimerFired(later)] + es)
         == RunEvents(Machine(Fetching, c'), es)
    ensures Schedules(Effects(Machine(Fetching, c), [Reply(Unavailable, now), TimerFired(later)] + es))
         == [c.attempts] + Schedules(Effects(Machine(Fetching, c'), es))
  {
    var all := [Reply(Unavailable, now), TimerFired(later)] + es;
    var m0 := Machine(Fetching, c);
    var (m1, e1) := Tick(m0, all[0]);
    var (m2, e2) := Tick(m1, all[1]);
    c' := m2.ctx;
    assert all[1..][1..] == es;
    assert Effects(m0, all) == e1 + (e2 + Effects(m2, es));
    assert e1 == [Schedule(c.attempts)] && |e2| == 1 && e2[0].Fetch?;
    assert (e1 + (e2 + Effects(m2, es)))[1..] == e2 + Effects(m2, es);
    assert (e2 + Effects(m2, es))[1..] == Effects(m2, es);
  }

  /** Consecutive attempts, counted in 32 bits without wrapping. */
  function AttemptsFrom(first: nat, n: nat): seq<nat> {
    seq(n, i requires 0 <= i < n => if first + i < U32_MAX then first + i else U32_MAX)
  }

  lemma AttemptsCons(first: nat, n: nat)
    requires first <= U32_MAX
    ensures AttemptsFrom(first, n + 1) == [first] + AttemptsFrom(if first < U32_MAX then first + 1 else U32_MAX, n)
  {
  }

  /** In an outage of any length, at any clock readings, the delays are scheduled for consecutive
      attempts, starting from the attempts so far, up to the largest 32-bit number. */
  lemma {:induction false} OutageBacksOff(c: Context, clocks: seq<(int, int)>)
    requires c.attempts <= U32_MAX
    ensures RunEvents(Machine(Fetching, c), Outage(clocks)).ctx.attempts == Min(c.attempts + |clocks|, U32_MAX)
    ensures Schedules(Effects(Machine(Fetching, c), Outage(clocks))) == AttemptsFrom(c.attempts, |clocks|)
    decreases |clocks|
  {
    if clocks != [] {
      var c' := OutageStep(c, Outage(clocks[1..]), clocks[0].0, clocks[0].1);
      OutageBacksOff(c', clocks[1..]);
      AttemptsCons(c.attempts, |clocks| - 1);
    }
  }

  /* ---- what a fetch carries, and what a failure leads to ---- */

  /** A fetch without a tag whatever is known: at the start, at a resync answer, and while forced. */
  ghost predicate Unconditional(m: Machine, e: Event) {
    e.Start? || (e.Reply? && e.response.NeedResync?) || m.ctx.forced > 0
  }

  /** A rejection is in force at the event. */
  ghost predicate InForce(c: Context, e: Event) {
    c.lastRejected.Some? && (c.rejectedUntil.Some? && !e.Shutdown? ==> e.now < c.rejectedUntil.value)
  }

  /** What a fetch carries, from the context before the event: nothing when unconditional, the tag just
      applied, else the rejected tag while that rejection is in force, else the applied one. It carries
      the applied tag, as the specification has it, exactly when no other tag is rejected. */
  lemma FetchCarries(m: Machine, e: Event, i: nat)
    requires i < |Tick(m, e).1| && Tick(m, e).1[i].Fetch?
    ensures var tag := Tick(m, e).1[i].ifNoneMatch;
            var applied := if e.ApplyOk? then Some(e.tag) else m.ctx.lastApplied;
            var rejected := !e.ApplyOk? && InForce(m.ctx, e);
            && tag == (if Unconditional(m, e) then None else if rejected then m.ctx.lastRejected else applied)
            && (!Unconditional(m, e) ==> (tag == applied <==> !rejected || m.ctx.lastRejected == applied))
  {
  }

  /** The attempts reset: a fetch that ends without work, a duplicate, an applied artifact. */
  ghost predicate ResetsAttempts(m: Machine, e: Event) {
    || (m.phase.Fetching? && e.Reply? && (e.response.NoUpdate? || e.response.NeedResync?))
    || (m.phase.Fetching? && e.Reply? && e.response.NewArtifact?
        && SkipsRejected(ClearExpired(m.ctx, e.now), e.response.tag, e.now))
    || (m.phase.Verifying? && e.VerifyOk? && m.ctx.lastApplied == Some(e.update.tag))
    || (m.phase.Applying? && e.ApplyOk?)
  }

  ghost predicate Fails(m: Machine, e: Event) {
    || (m.phase.Fetching? && e.Reply? && e.response.Unavailable?)
    || (m.phase.Verifying? && e.VerifyFail?)
    || (m.phase.Applying? && e.ApplyFail?)
  }

  /** The attempt counter after any event. In particular a delivery that goes to verification leaves it as
      it is, where the specification resets it, so a failure after a delivery backs off further. */
  lemma AttemptsExactly(m: Machine, e: Event)
    ensures Tick(m, e).0.ctx.attempts ==
            if Fails(m, e) then (if m.ctx.attempts < U32_MAX then m.ctx.attempts + 1 else U32_MAX)
            else if ResetsAttempts(m, e) then 0
            else m.ctx.attempts
  {
  }

  lemma DeliveryKeepsAttempts(c: Context, tag: Tag, version: Option<nat>, bytes: Bytes, now: int, later: int)
    requires !SkipsRejected(ClearExpired(c, now), tag, now)
    ensures var m := Tick(Machine(Fetching, c), Reply(NewArtifact(tag, version, bytes), now)).0;
            m.phase == Verifying && Tick(m, VerifyFail(tag, later)).1 == [Schedule(c.attempts)]
  {
  }

  /** A timer is scheduled exactly on a failed fetch, verification or application, never a fetch with it. */
  lemma TimerExactlyAfterFailure(m: Machine, e: Event)
    ensures (exists i :: 0 <= i < |Tick(m, e).1| && Tick(m, e).1[i].Schedule?) <==>
            Fails(m, e)
    ensures (exists i :: 0 <= i < |Tick(m, e).1| && Tick(m, e).1[i].Schedule?) ==>
            Tick(m, e).1 == [Schedule(m.ctx.attempts)] && Tick(m, e).0.phase == Sleeping
  {
    var effects := Tick(m, e).1;
    assert |effects| <= 2;
    if Fails(m, e) {
      assert effects == [Schedule(m.ctx.attempts)];
      assert effects[0].Schedule?;
    }
  }

  /** The object: the same transitions, performed on its fields. */
  class Fsm {
    var phase: Phase
    var ctx: Context

    constructor ()
      ensures Value() == Machine(Idle, NewContext)
    {
      phase, ctx := Idle, NewContext;
    }

    function Value(): Machine reads this { Machine(phase, ctx) }

    method ClearRejectedIfExpired(now: int)
      modifies this`ctx
      ensures ctx == ClearExpired(old(ctx), now)
    {
      if ctx.rejectedUntil.Some? && now >= ctx.rejectedUntil.value {
        ctx := ctx.(lastRejected := None, rejectedUntil := None);
      }
    }

    method ConditionalEtag(now: int) returns (tag: Option<Tag>)
      modifies this`ctx
      ensures (ctx, tag) == Conditional(old(ctx), now)
    {
      ClearRejectedIfExpired(now);
      if ctx.forced > 0 {
        ctx := ctx.(forced := ctx.forced - 1);
        return None;
      }
      tag := if ctx.lastRejected.Some? then ctx.lastRejected else ctx.lastApplied;
    }

    method NextFetch(now: int) returns (fetch: Effect)
      modifies this`ctx
      ensures (ctx, fetch) == (Conditional(old(ctx), now).0, Fetch(Conditional(old(ctx), now).1))
    {
      var tag := ConditionalEtag(now);
      fetch := Fetch(tag);
    }

    method BackOff() returns (effects: seq<Effect>)
      modifies this
      ensures (Value(), effects) == Backoff(old(ctx))
    {
      effects := [Schedule(ctx.attempts)];
      ctx := ctx.(attempts := if ctx.attempts < U32_MAX then ctx.attempts + 1 else U32_MAX);
      phase := Sleeping;
    }

    method HandleReply(response: Response, now: int) returns (effects: seq<Effect>)
      modifies this
      ensures (Value(), effects) == TickReply(old(ctx), response, now)
    {
      var fetch: Effect;
      effects := [];
      ClearRejectedIfExpired(now);
      match response
      case NewArtifact(tag, version, bytes) =>
        if SkipsRejected(ctx, tag, now) {
          phase := Fetching;
          ctx := ctx.(attempts := 0);
          fetch := NextFetch(now);
          effects := [fetch];
        } else {
          phase := Verifying;
          effects := [Verify(tag, version, bytes)];
        }
      case NoUpdate =>
        phase := Fetching;
        ctx := ctx.(attempts := 0);
        fetch := NextFetch(now);
        effects := [fetch];
      case NeedResync =>
        ctx := ctx.(lastApplied := None, lastRejected := None, rejectedUntil := None, forced := 2);
        ctx := ctx.(attempts := 0);
        phase := Fetching;
        effects := [Fetch(None)];
      case Unavailable =>
        effects := BackOff();
    }

    method TickInPlace(event: Event) returns (effects: seq<Effect>)
      modifies this
      ensures (Value(), effects) == Tick(old(Value()), event)
    {
      var fetch: Effect;
      effects := [];
      match (phase, event)
      case (_, Shutdown) => phase := Stopped;
      case (Idle, Start(now)) =>
        ClearRejectedIfExpired(now);
        phase := Fetching;
        effects := [Fetch(None)];
      case (Idle, TimerFired(now)) =>
        ClearRejectedIfExpired(now);
        phase := Fetching;
        fetch := NextFetch(now);
        effects := [fetch];
      case (Fetching, Reply(response, now)) =>
        effects := HandleReply(response, now);
      case (Verifying, VerifyOk(u, now)) =>
        ClearRejectedIfExpired(now);
        if ctx.lastApplied == Some(u.tag) {
          phase := Fetching;
          ctx := ctx.(attempts := 0);
          fetch := NextFetch(now);
          effects := [DiscardTemp, fetch];
        } else {
          phase := Applying;
          effects := [Apply(u)];
        }
      case (Verifying, VerifyFail(tag, now)) =>
        ctx := Rejected(ctx, tag, now);
        effects := BackOff();
      case (Applying, ApplyOk(tag, version, now)) =>
        if ctx.forced == 0 { ctx := ctx.(lastApplied := Some(tag)); }
        ctx := ctx.(lastRejected := None, rejectedUntil := None, attempts := 0, observed := version);
        phase := Fetching;
        fetch := NextFetch(now);
        effects := [fetch];
      case (Applying, ApplyFail(tag, now)) =>
        ctx := Rejected(ctx, tag, now);
        effects := BackOff();
      case (Sleeping, TimerFired(now)) =>
        ClearRejectedIfExpired(now);
        phase := Fetching;
        fetch := NextFetch(now);
        effects := [fetch];
      case (_, _) =>
    }
  }
}
