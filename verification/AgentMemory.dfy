/** What the agent remembers having applied, over every run, and what follows for artifacts delivered
    again (pavis: agent/fsm.rs and agent/driver.rs). */
module AgentMemory {
  import opened Common
  import opened AgentFsm
  import opened Agent

  /* ---- the log of a run ---- */

  /** What matters for the remembered tag: a resync answer, an acknowledged application, any other event
      that leads to a fetch, and the swap of the served configuration. */
  datatype Mark = Resynced | Acknowledged(tag: Tag) | Refetched | Swapped(tag: Tag)

  function MarkOf(env: Env, a: State, l: Label): seq<Mark> {
    if a.fsm.phase.Stopped? then []
    else if a.effects != [] then
      if l.Exec? && a.effects[0].Apply? && ApplyUpdate(env, a.files, a.served, l.io).swapped
      then [Swapped(a.effects[0].update.tag)] else []
    else if a.queue != [] && l.Pop? then
      var e, effects := a.queue[0], Tick(a.fsm, a.queue[0]).1;
      if e.Reply? && e.response.NeedResync? then [Resynced]
      else if e.ApplyOk? then [Acknowledged(e.tag)]
      else if !e.Start? && effects != [] && effects[|effects| - 1].Fetch? then [Refetched]
      else []
    else []
  }

  function Log(env: Env, a: State, labels: seq<Label>): seq<Mark> {
    if labels == [] then []
    else
      var n := |labels| - 1;
      Log(env, a, labels[..n]) + MarkOf(env, Run(env, a, labels[..n]), labels[n])
  }

  /** How many fetches have followed the last resync answer, if there was one. */
  function SinceResync(log: seq<Mark>): Option<nat> {
    if log == [] then None
    else
      var front, last := log[..|log| - 1], log[|log| - 1];
      match last
      case Resynced => Some(0)
      case Swapped(_) => SinceResync(front)
      case _ => if SinceResync(front).Some? then Some(SinceResync(front).value + 1) else None
  }

  /** The acknowledgement at `i` counts: no resync answer before it, or two fetches since the last one. */
  predicate Counts(log: seq<Mark>, i: nat)
    requires i < |log|
  {
    log[i].Acknowledged? && (SinceResync(log[..i]).None? || SinceResync(log[..i]).value >= 2)
  }

  /** The tag a log leaves remembered. */
  function Remembered(log: seq<Mark>, boot: Option<Tag>): Option<Tag> {
    if log == [] then boot
    else
      var n := |log| - 1;
      if log[n].Resynced? then None
      else if Counts(log, n) then Some(log[n].tag)
      else Remembered(log[..n], boot)
  }

  /** The tag a log leaves served. */
  function Served(log: seq<Mark>, boot: Option<Tag>): Option<Tag> {
    if log == [] then boot
    else if log[|log| - 1].Swapped? then Some(log[|log| - 1].tag)
    else Served(log[..|log| - 1], boot)
  }

  /** Memory is up to date: nothing was swapped in or forgotten since the last acknowledgement that counts. */
  predicate UpToDate(log: seq<Mark>) {
    if log == [] then true
    else
      var n := |log| - 1;
      if log[n].Resynced? || log[n].Swapped? then false
      else Counts(log, n) || UpToDate(log[..n])
  }

  /** The remembered tag, without recursion: the last acknowledgement that counts, with no resync answer
      behind it; or what bootstrap left, if there was neither. */
  lemma {:induction false} RememberedMeaning(log: seq<Mark>, boot: Option<Tag>, t: Tag)
    ensures Remembered(log, boot) == Some(t) <==>
            || (exists i :: 0 <= i < |log| && Counts(log, i) && log[i].tag == t && NothingBehind(log, i + 1))
            || (boot == Some(t) && NothingBehind(log, 0))
  {
    if log != [] {
      var n := |log| - 1;
      RememberedMeaning(log[..n], boot, t);
      forall i | 0 <= i < n ensures log[..n][i] == log[i] && Counts(log[..n], i) == Counts(log, i) {
        assert log[..n][..i] == log[..i];
      }
      if Relevant(log, n) {
        assert forall i :: 0 <= i <= n ==> !NothingBehind(log, i);
        assert NothingBehind(log, n + 1);
      } else {
        forall i | 0 <= i <= n ensures NothingBehind(log, i) <==> NothingBehind(log[..n], i) {
          NothingBehindSnoc(log, i);
        }
      }
    }
  }

  /** A resync answer or an acknowledgement that counts. */
  predicate Relevant(log: seq<Mark>, i: nat)
    requires i < |log|
  {
    log[i].Resynced? || Counts(log, i)
  }

  ghost predicate NothingBehind(log: seq<Mark>, from: nat) { forall j :: from <= j < |log| ==> !Relevant(log, j) }

  lemma NothingBehindSnoc(log: seq<Mark>, from: nat)
    requires log != [] && from < |log| && !Relevant(log, |log| - 1)
    ensures NothingBehind(log, from) <==> NothingBehind(log[..|log| - 1], from)
  {
    var n := |log| - 1;
    forall j | from <= j < n ensures Relevant(log[..n], j) == Relevant(log, j) { assert log[..n][..j] == log[..j]; }
  }

  /** Up to date, without recursion. */
  lemma {:induction false} UpToDateMeaning(log: seq<Mark>)
    ensures UpToDate(log) <==>
            || (exists i :: 0 <= i < |log| && Counts(log, i) && NoChange(log, i + 1))
            || NoChange(log, 0)
  {
    if log != [] {
      var n := |log| - 1;
      UpToDateMeaning(log[..n]);
      forall i | 0 <= i < n ensures log[..n][i] == log[i] && Counts(log[..n], i) == Counts(log, i) {
        assert log[..n][..i] == log[..i];
      }
      if log[n].Resynced? || log[n].Swapped? {
        forall i | 0 <= i <= n ensures !NoChange(log, i) { }
      } else {
        forall i | 0 <= i <= n ensures NoChange(log, i) <==> NoChange(log[..n], i) { NoChangeSnoc(log, i); }
        assert NoChange(log, n + 1);
      }
    }
  }

  ghost predicate NoChange(log: seq<Mark>, from: nat) {
    forall j :: from <= j < |log| ==> !log[j].Resynced? && !log[j].Swapped?
  }

  lemma NoChangeSnoc(log: seq<Mark>, from: nat)
    requires log != [] && from < |log| && !log[|log| - 1].Resynced? && !log[|log| - 1].Swapped?
    ensures NoChange(log, from) <==> NoChange(log[..|log| - 1], from)
  {
    var n := |log| - 1;
    assert forall j :: from <= j < n ==> log[..n][j] == log[j];
  }

  /* ---- the log and the machine ---- */

  /** The unconditional fetches still due. */
  function Forced(since: Option<nat>): nat { if since.None? || since.value >= 2 then 0 else 2 - since.value }

  /** What a log comes down to. */
  datatype Memory = Memory(since: Option<nat>, remembered: Option<Tag>, served: Option<Tag>, upToDate: bool)

  function Summary(log: seq<Mark>, boot: Option<Tag>): Memory {
    Memory(SinceResync(log), Remembered(log, boot), Served(log, boot), UpToDate(log))
  }

  /** One mark more. */
  function Note(m: Memory, marks: seq<Mark>): Memory {
    if marks == [] then m
    else
      match marks[0]
      case Resynced => Memory(Some(0), None, m.served, false)
      case Swapped(t) => m.(served := Some(t), upToDate := false)
      case Refetched => m.(since := if m.since.Some? then Some(m.since.value + 1) else None)
      case Acknowledged(t) =>
        var since := if m.since.Some? then Some(m.since.value + 1) else None;
        if Forced(m.since) == 0 then Memory(since, Some(t), m.served, true) else m.(since := since)
  }

  lemma SummaryNotes(log: seq<Mark>, marks: seq<Mark>, boot: Option<Tag>)
    requires |marks| <= 1
    ensures Summary(log + marks, boot) == Note(Summary(log, boot), marks)
  {
    var longer := log + marks;
    if marks == [] {
      assert longer == log;
    } else {
      assert longer[..|longer| - 1] == log && longer[|longer| - 1] == marks[0];
    }
  }

  ghost predicate MemoryInv(a: State, m: Memory) {
    && a.fsm.ctx.forced == Forced(m.since)
    && a.fsm.ctx.lastApplied == m.remembered
    && a.current == m.served
    && (a.effects != [] && a.effects[0].Apply? ==> m.remembered != Some(a.effects[0].update.tag))
    && (a.queue != [] && a.queue[0].ApplyOk? ==> m.served == Some(a.queue[0].tag))
    && (m.upToDate ==> m.remembered == m.served)
    && (!m.upToDate && m.served.Some? ==> m.remembered != m.served)
  }

  lemma ReplyKeepsMemory(env: Env, a: State, m: Memory)
    requires OneOutstanding(a) && MemoryInv(a, m) && a.fsm.phase.Fetching?
    ensures MemoryInv(Step(env, a, Pop), Note(m, MarkOf(env, a, Pop)))
  {
  }

  lemma ReportKeepsMemory(env: Env, a: State, m: Memory)
    requires OneOutstanding(a) && MemoryInv(a, m) && !a.fsm.phase.Fetching?
    ensures MemoryInv(Step(env, a, Pop), Note(m, MarkOf(env, a, Pop)))
  {
  }

  lemma PopKeepsMemory(env: Env, a: State, m: Memory)
    requires OneOutstanding(a) && MemoryInv(a, m)
    ensures MemoryInv(Step(env, a, Pop), Note(m, MarkOf(env, a, Pop)))
  {
    if a.fsm.phase.Fetching? { ReplyKeepsMemory(env, a, m); } else { ReportKeepsMemory(env, a, m); }
  }

  lemma ExecKeepsMemory(env: Env, a: State, m: Memory, io: Io, now: int)
    requires OneOutstanding(a) && MemoryInv(a, m)
    ensures MemoryInv(Step(env, a, Exec(io, now)), Note(m, MarkOf(env, a, Exec(io, now))))
  {
  }

  lemma SelectKeepsMemory(env: Env, a: State, m: Memory, l: Label)
    requires OneOutstanding(a) && MemoryInv(a, m) && (l.Fetched? || l.Fired? || l.Halt?)
    ensures MemoryInv(Step(env, a, l), Note(m, MarkOf(env, a, l)))
  {
  }

  lemma StepKeepsMemory(env: Env, a: State, m: Memory, l: Label)
    requires OneOutstanding(a) && MemoryInv(a, m)
    ensures MemoryInv(Step(env, a, l), Note(m, MarkOf(env, a, l)))
  {
    match l
    case Pop => PopKeepsMemory(env, a, m);
    case Exec(io, now) => ExecKeepsMemory(env, a, m, io, now);
    case _ => SelectKeepsMemory(env, a, m, l);
  }

  /** Over every run: the remembered tag and the served one are those of the log. */
  lemma {:induction false} RunKeepsLog(env: Env, start: Origin, labels: seq<Label>)
    ensures MemoryInv(Run(env, Begin(env, start), labels),
                      Summary(Log(env, Begin(env, start), labels), Begin(env, start).current))
  {
    if labels != [] {
      var n := |labels| - 1;
      RunKeepsLog(env, start, labels[..n]);
      RunKeepsInv(env, start, labels[..n]);
      var s := Begin(env, start);
      var a, log := Run(env, s, labels[..n]), Log(env, s, labels[..n]);
      var m := Summary(log, s.current);
      SummaryNotes(log, MarkOf(env, a, labels[n]), s.current);
      StepKeepsMemory(env, a, m, labels[n]);
    }
  }

  /* ---- when a verified artifact is applied, and when it is discarded ---- */

  /** A verified update is waiting to be decided on. */
  predicate Deciding(a: State) { !a.fsm.phase.Stopped? && a.effects == [] && a.queue != [] && a.queue[0].VerifyOk? }

  /** The decision, in terms of what the log comes down to. */
  lemma DecisionFollowsMemory(env: Env, a: State, m: Memory)
    requires OneOutstanding(a) && MemoryInv(a, m) && Deciding(a)
    ensures var u, effects := a.queue[0].update, Step(env, a, Pop).effects;
            && (effects == [Apply(u)] || (|effects| == 2 && effects[0].DiscardTemp? && effects[1].Fetch?))
            && (effects == [Apply(u)] <==> m.remembered != Some(u.tag))
            && (m.served == Some(u.tag) ==> (m.remembered != Some(u.tag) <==> !m.upToDate))
            && (m.served != Some(u.tag) && m.remembered == Some(u.tag) ==> !m.upToDate)
  {
  }

  /** For every run. A verified artifact is discarded exactly when its tag is the remembered one, and
      applied otherwise. So the one being served is applied again exactly when memory is not up to
      date, and one that is not being served is discarded exactly when it is remembered, which takes a
      memory that is not up to date. */
  lemma VerifiedUpdateIsAppliedExactlyWhen(env: Env, start: Origin, labels: seq<Label>)
    requires Deciding(Run(env, Begin(env, start), labels))
    ensures var a, log := Run(env, Begin(env, start), labels), Log(env, Begin(env, start), labels);
            var u, b := a.queue[0].update, Step(env, a, Pop);
            var remembered := Remembered(log, Begin(env, start).current);
            && (b.effects == [Apply(u)] || (|b.effects| == 2 && b.effects[0].DiscardTemp? && b.effects[1].Fetch?))
            && (b.effects == [Apply(u)] <==> remembered != Some(u.tag))
            && (a.current == Some(u.tag) ==> (b.effects == [Apply(u)] <==> !UpToDate(log)))
            && (a.current != Some(u.tag) && b.effects != [Apply(u)] ==> !UpToDate(log))
  {
    RunKeepsLog(env, start, labels);
    RunKeepsInv(env, start, labels);
    var s := Begin(env, start);
    DecisionFollowsMemory(env, Run(env, s, labels), Summary(Log(env, s, labels), s.current));
  }

  /** A run without a resync answer and without a failing update callback. */
  ghost predicate Quiet(l: Label) {
    (l.Fetched? ==> !l.response.NeedResync?) && (l.Exec? ==> l.io.callback)
  }

  ghost predicate AllQuiet(labels: seq<Label>) { forall i :: 0 <= i < |labels| ==> Quiet(labels[i]) }

  /** In such a run memory lags only while the report of a finished application is queued. */
  ghost predicate Fresh(a: State, m: Memory) {
    && m.since.None?
    && (a.queue != [] && a.queue[0].Reply? ==> !a.queue[0].response.NeedResync?)
    && (m.upToDate || (!a.fsm.phase.Stopped? && a.queue != [] && a.queue[0].ApplyOk?))
  }

  lemma QuietStepKeepsFresh(env: Env, a: State, m: Memory, l: Label)
    requires OneOutstanding(a) && Fresh(a, m) && Quiet(l)
    ensures Fresh(Step(env, a, l), Note(m, MarkOf(env, a, l)))
  {
  }

  lemma {:induction false} QuietRunIsFresh(env: Env, start: Origin, labels: seq<Label>)
    requires AllQuiet(labels)
    ensures Fresh(Run(env, Begin(env, start), labels),
                  Summary(Log(env, Begin(env, start), labels), Begin(env, start).current))
  {
    if labels != [] {
      var n := |labels| - 1;
      QuietRunIsFresh(env, start, labels[..n]);
      RunKeepsInv(env, start, labels[..n]);
      var s := Begin(env, start);
      var a, log := Run(env, s, labels[..n]), Log(env, s, labels[..n]);
      SummaryNotes(log, MarkOf(env, a, labels[n]), s.current);
      QuietStepKeepsFresh(env, a, Summary(log, s.current), labels[n]);
    }
  }

  /** In a quiet run no artifact is applied twice in a row, and none is skipped: a verified update is
      applied exactly when its tag is not the one being served. */
  lemma QuietRunDeduplicates(env: Env, start: Origin, labels: seq<Label>, l: Label)
    requires AllQuiet(labels) && Quiet(l)
    ensures var a := Run(env, Begin(env, start), labels);
            var b := Step(env, a, l);
            && (b.swaps != a.swaps ==> b.swaps == a.swaps + 1 && b.current != a.current)
            && (Deciding(a) && l == Pop ==>
                  (b.effects == [Apply(a.queue[0].update)] <==> a.current != Some(a.queue[0].update.tag)))
  {
    QuietRunIsFresh(env, start, labels);
    RunKeepsLog(env, start, labels);
    RunKeepsInv(env, start, labels);
  }

  /* ---- rounds: the relay answers with one artifact ---- */

  /** An artifact that passes every check against what is served. */
  ghost predicate Acceptable(env: Env, a: State, tag: Tag, bytes: Bytes) {
    && env.checksum(bytes) == tag && Usable(env, bytes)
    && Boot(env.decode(bytes).value) == Boot(a.served)
  }

  const AllWell := Io(true, true, true, true, true, true, true)

  /** The relay answers with an artifact; `io` is how its application fares, and nothing else fails. */
  function Delivery(tag: Tag, version: Option<nat>, bytes: Bytes, now: int, io: Io): seq<Label> {
    [Fetched(NewArtifact(tag, version, bytes), now),
     Pop, Exec(AllWell, now), Pop, Exec(io, now), Pop, Exec(AllWell, now)]
  }

  function Round(tag: Tag, version: Option<nat>, bytes: Bytes, now: int): seq<Label> {
    Delivery(tag, version, bytes, now, AllWell)
  }

  function RunFrom(env: Env, a: State, labels: seq<Label>): State
    decreases |labels|
  {
    if labels == [] then a else RunFrom(env, Step(env, a, labels[0]), labels[1..])
  }

  lemma RunFromThree(env: Env, a: State, ls: seq<Label>)
    requires |ls| == 3
    ensures RunFrom(env, a, ls) == Step(env, Step(env, Step(env, a, ls[0]), ls[1]), ls[2])
  {
    var b := Step(env, a, ls[0]);
    var c := Step(env, b, ls[1]);
    assert RunFrom(env, a, ls) == RunFrom(env, b, ls[1..]);
    assert RunFrom(env, b, ls[1..]) == RunFrom(env, c, ls[1..][1..]);
    assert ls[1..][1..] == [ls[2]];
    assert RunFrom(env, c, [ls[2]]) == RunFrom(env, Step(env, c, ls[2]), []) by { assert [ls[2]][1..] == []; }
  }

  lemma RunFromSeven(env: Env, a: State, ls: seq<Label>)
    requires |ls| == 7
    ensures var b := Step(env, Step(env, Step(env, Step(env, a, ls[0]), ls[1]), ls[2]), ls[3]);
            RunFrom(env, a, ls) == Step(env, Step(env, Step(env, b, ls[4]), ls[5]), ls[6])
  {
    var b := Step(env, Step(env, a, ls[0]), ls[1]);
    assert RunFrom(env, a, ls) == RunFrom(env, b, ls[2..]) by { assert ls[1..][1..] == ls[2..]; }
    var c := Step(env, Step(env, b, ls[2]), ls[3]);
    assert RunFrom(env, b, ls[2..]) == RunFrom(env, c, ls[4..]) by { assert ls[2..][1..][1..] == ls[4..]; }
    RunFromThree(env, c, ls[4..]);
  }

  ghost predicate AwaitsReply(a: State) {
    a.fsm.phase.Fetching? && a.fetch && !a.timer && a.queue == [] && a.effects == []
  }

  /** The first part of a delivery: fetched, staged and verified. */
  function VerifiedState(a: State, tag: Tag, version: Option<nat>, bytes: Bytes, now: int): State {
    a.(fsm := Machine(Verifying, ClearExpired(a.fsm.ctx, now)), fetch := false,
       files := a.files.(tmp := Some(bytes)), queue := [VerifyOk(Update(tag, version), now)])
  }

  lemma ArtifactIsVerified(env: Env, a: State, tag: Tag, version: Option<nat>, bytes: Bytes, now: int)
    requires AwaitsReply(a) && Acceptable(env, a, tag, bytes)
    requires ClearExpired(a.fsm.ctx, now).lastRejected != Some(tag)
    ensures Step(env, Step(env, Step(env, a, Fetched(NewArtifact(tag, version, bytes), now)), Pop), Exec(AllWell, now))
         == VerifiedState(a, tag, version, bytes, now)
  {
    var b := Step(env, Step(env, a, Fetched(NewArtifact(tag, version, bytes), now)), Pop);
    assert b.effects == [Verify(tag, version, bytes)];
  }

  /** The second part: swapped in, with the report of the application queued. */
  function SwappedState(env: Env, a: State, tag: Tag, version: Option<nat>, bytes: Bytes, now: int, ok: bool): State
    requires env.decode(bytes).Some?
  {
    a.(fsm := Machine(Applying, ClearExpired(a.fsm.ctx, now)), fetch := false,
       files := Files(None, Some(bytes)), served := env.decode(bytes).value, current := Some(tag), swaps := a.swaps + 1,
       queue := [if ok then ApplyOk(tag, version, now) else ApplyFail(tag, now)])
  }

  lemma ArtifactIsSwappedIn(env: Env, a: State, tag: Tag, version: Option<nat>, bytes: Bytes, now: int, ok: bool)
    requires AwaitsReply(a) && Acceptable(env, a, tag, bytes) && a.fsm.ctx.lastApplied != Some(tag)
    ensures Step(env, Step(env, VerifiedState(a, tag, version, bytes, now), Pop), Exec(AllWell.(callback := ok), now))
         == SwappedState(env, a, tag, version, bytes, now, ok)
  {
    var b := Step(env, VerifiedState(a, tag, version, bytes, now), Pop);
    assert b.effects == [Apply(Update(tag, version))];
  }

  /** The state after an acceptable artifact has been fetched, verified, applied and reported. */
  function AfterRound(env: Env, a: State, tag: Tag, version: Option<nat>, bytes: Bytes, now: int): State
    requires env.decode(bytes).Some?
  {
    var c := ClearExpired(a.fsm.ctx, now);
    var remembered := if c.forced == 0 then c.(lastApplied := Some(tag)) else c;
    var (ctx, carried) := Conditional(
      remembered.(lastRejected := None, rejectedUntil := None, attempts := 0, observed := version), now);
    a.(fsm := Machine(Fetching, ctx), files := Files(None, Some(bytes)), served := env.decode(bytes).value,
       current := Some(tag), swaps := a.swaps + 1, polls := a.polls + [carried])
  }

  /** An acceptable artifact that is neither remembered as applied nor still rejected is taken all the
      way: it becomes the last-known-good file and what is served, and the agent is fetching again. */
  lemma AcceptableArtifactIsApplied(env: Env, a: State, tag: Tag, version: Option<nat>, bytes: Bytes, now: int)
    requires AwaitsReply(a) && Acceptable(env, a, tag, bytes)
    requires ClearExpired(a.fsm.ctx, now).lastRejected != Some(tag) && a.fsm.ctx.lastApplied != Some(tag)
    ensures RunFrom(env, a, Round(tag, version, bytes, now)) == AfterRound(env, a, tag, version, bytes, now)
    ensures AwaitsReply(AfterRound(env, a, tag, version, bytes, now))
  {
    ArtifactIsVerified(env, a, tag, version, bytes, now);
    ArtifactIsSwappedIn(env, a, tag, version, bytes, now, true);
    var c := SwappedState(env, a, tag, version, bytes, now, true);
    assert |Step(env, c, Pop).effects| == 1;
    assert Step(env, Step(env, c, Pop), Exec(AllWell, now)) == AfterRound(env, a, tag, version, bytes, now);
    RunFromSeven(env, a, Round(tag, version, bytes, now));
  }

  /** The state after a delivery whose artifact is remembered as applied. */
  function AfterDiscard(a: State, now: int): State {
    var (ctx, carried) := Conditional(ClearExpired(a.fsm.ctx, now).(attempts := 0), now);
    a.(fsm := Machine(Fetching, ctx), files := a.files.(tmp := None), polls := a.polls + [carried])
  }

  lemma RememberedArtifactIsDiscarded(env: Env, a: State, tag: Tag, version: Option<nat>, bytes: Bytes, now: int)
    requires AwaitsReply(a) && Acceptable(env, a, tag, bytes)
    requires ClearExpired(a.fsm.ctx, now).lastRejected != Some(tag) && a.fsm.ctx.lastApplied == Some(tag)
    ensures RunFrom(env, a, Round(tag, version, bytes, now)) == AfterDiscard(a, now)
    ensures AwaitsReply(AfterDiscard(a, now))
  {
    ArtifactIsVerified(env, a, tag, version, bytes, now);
    var b := Step(env, VerifiedState(a, tag, version, bytes, now), Pop);
    assert |b.effects| == 2 && b.effects[0].DiscardTemp? && b.effects[1].Fetch?;
    var c := Step(env, b, Exec(AllWell, now));
    assert Step(env, c, Pop) == c;
    assert Step(env, c, Exec(AllWell, now)) == AfterDiscard(a, now);
    RunFromSeven(env, a, Round(tag, version, bytes, now));
  }

  /* ---- after a resync answer ---- */

  /** The agent right after it has been told to resync and has sent the unconditional fetch. */
  function AfterResync(a: State, now: int): State {
    var c := ClearExpired(a.fsm.ctx, now);
    var cleared := c.(lastApplied := None, lastRejected := None, rejectedUntil := None, forced := 2, attempts := 0);
    a.(fsm := Machine(Fetching, cleared), polls := a.polls + [None])
  }

  function ResyncAnswer(now: int): seq<Label> { [Fetched(NeedResync, now), Pop, Exec(AllWell, now)] }

  lemma ResyncAnswerForgets(env: Env, a: State, now: int)
    requires AwaitsReply(a)
    ensures RunFrom(env, a, ResyncAnswer(now)) == AfterResync(a, now) && AwaitsReply(AfterResync(a, now))
  {
    var b := Step(env, Step(env, a, Fetched(NeedResync, now)), Pop);
    assert b.effects == [Fetch(None)];
    RunFromThree(env, a, ResyncAnswer(now));
  }

  /** After a resync answer the promise not to re-apply an unchanged artifact fails, for every
      acceptable artifact including the one being served: against a relay that keeps answering with
      it, it is applied in each of the next three rounds, at any clock readings. Only then is it
      remembered again, and a fourth delivery is discarded after verification. */
  lemma ResyncAppliesThreeTimes(
    env: Env, a: State, tag: Tag, version: Option<nat>, bytes: Bytes, t0: int, t1: int, t2: int, t3: int, t4: int)
    requires AwaitsReply(a) && Acceptable(env, a, tag, bytes)
    ensures var told := RunFrom(env, a, ResyncAnswer(t0));
            var one := RunFrom(env, told, Round(tag, version, bytes, t1));
            var two := RunFrom(env, one, Round(tag, version, bytes, t2));
            var three := RunFrom(env, two, Round(tag, version, bytes, t3));
            var four := RunFrom(env, three, Round(tag, version, bytes, t4));
            && one.swaps == a.swaps + 1 && two.swaps == a.swaps + 2 && three.swaps == a.swaps + 3
            && one.fsm.ctx.lastApplied.None? && two.fsm.ctx.lastApplied.None? && three.fsm.ctx.lastApplied == Some(tag)
            && three.current == Some(tag) && three.polls == a.polls + [None, None, None, Some(tag)]
            && four.swaps == a.swaps + 3 && four.files.tmp.None? && AwaitsReply(four)
  {
    ResyncAnswerForgets(env, a, t0);
    var told := AfterResync(a, t0);
    var one := ForcedRound(env, told, tag, version, bytes, t1);
    var two := ForcedRound(env, one, tag, version, bytes, t2);
    var three := CountingRound(env, two, tag, version, bytes, t3);
    RememberedArtifactIsDiscarded(env, three, tag, version, bytes, t4);
    FourPolls(a.polls, tag);
  }

  lemma FourPolls(polls: seq<Option<Tag>>, tag: Tag)
    ensures polls + [None] + [None] + [None] + [Some(tag)] == polls + [None, None, None, Some(tag)]
  {
  }

  /** A round while unconditional fetches are due: applied, not remembered, and one fetch fewer due. */
  lemma ForcedRound(env: Env, a: State, tag: Tag, version: Option<nat>, bytes: Bytes, now: int) returns (b: State)
    requires AwaitsReply(a) && Acceptable(env, a, tag, bytes) && a.fsm.ctx.forced > 0
    requires a.fsm.ctx.lastApplied.None? && a.fsm.ctx.lastRejected.None?
    ensures b == RunFrom(env, a, Round(tag, version, bytes, now)) && AwaitsReply(b) && Acceptable(env, b, tag, bytes)
    ensures b.fsm.ctx.forced == a.fsm.ctx.forced - 1
    ensures b.fsm.ctx.lastApplied.None? && b.fsm.ctx.lastRejected.None?
    ensures b.swaps == a.swaps + 1 && b.polls == a.polls + [None] && b.current == Some(tag)
  {
    AcceptableArtifactIsApplied(env, a, tag, version, bytes, now);
    b := AfterRound(env, a, tag, version, bytes, now);
  }

  /** The first round when none is due any more: applied and remembered. */
  lemma CountingRound(env: Env, a: State, tag: Tag, version: Option<nat>, bytes: Bytes, now: int) returns (b: State)
    requires AwaitsReply(a) && Acceptable(env, a, tag, bytes) && a.fsm.ctx.forced == 0
    requires a.fsm.ctx.lastApplied.None? && a.fsm.ctx.lastRejected.None?
    ensures b == RunFrom(env, a, Round(tag, version, bytes, now)) && AwaitsReply(b) && Acceptable(env, b, tag, bytes)
    ensures b.fsm.ctx.lastApplied == Some(tag) && b.fsm.ctx.lastRejected.None?
    ensures b.swaps == a.swaps + 1 && b.polls == a.polls + [Some(tag)] && b.current == Some(tag)
  {
    AcceptableArtifactIsApplied(env, a, tag, version, bytes, now);
    b := AfterRound(env, a, tag, version, bytes, now);
  }

  /* ---- after a failing callback ---- */

  const CallbackFails := AllWell.(callback := false)

  /** Served, but rejected and not remembered: the state after a swap whose callback fails. */
  function AfterFailure(env: Env, a: State, tag: Tag, bytes: Bytes, now: int): State
    requires env.decode(bytes).Some?
  {
    var c := Rejected(ClearExpired(a.fsm.ctx, now), tag, now);
    a.(fsm := Backoff(c).0, fetch := false, timer := true, files := Files(None, Some(bytes)),
       served := env.decode(bytes).value, current := Some(tag), swaps := a.swaps + 1)
  }

  lemma CallbackFailureForgets(env: Env, a: State, tag: Tag, version: Option<nat>, bytes: Bytes, now: int)
    requires AwaitsReply(a) && Acceptable(env, a, tag, bytes)
    requires ClearExpired(a.fsm.ctx, now).lastRejected != Some(tag) && a.fsm.ctx.lastApplied != Some(tag)
    ensures RunFrom(env, a, Delivery(tag, version, bytes, now, CallbackFails)) == AfterFailure(env, a, tag, bytes, now)
  {
    ArtifactIsVerified(env, a, tag, version, bytes, now);
    ArtifactIsSwappedIn(env, a, tag, version, bytes, now, false);
    var d := Step(env, SwappedState(env, a, tag, version, bytes, now, false), Pop);
    assert |d.effects| == 1 && d.effects[0].Schedule?;
    assert Step(env, d, Exec(AllWell, now)) == AfterFailure(env, a, tag, bytes, now);
    RunFromSeven(env, a, Delivery(tag, version, bytes, now, CallbackFails));
  }

  function TimerGoesOff(now: int): seq<Label> { [Fired(now), Pop, Exec(AllWell, now)] }

  function AfterTimer(a: State, now: int): State {
    var (ctx, carried) := Conditional(a.fsm.ctx, now);
    a.(fsm := Machine(Fetching, ctx), fetch := true, timer := false, polls := a.polls + [carried])
  }

  lemma TimerRefetches(env: Env, a: State, now: int)
    requires a.fsm.phase.Sleeping? && a.timer && !a.fetch && a.queue == [] && a.effects == []
    ensures RunFrom(env, a, TimerGoesOff(now)) == AfterTimer(a, now) && AwaitsReply(AfterTimer(a, now))
  {
    var b := Step(env, Step(env, a, Fired(now)), Pop);
    assert |b.effects| == 1 && b.effects[0].Fetch?;
    RunFromThree(env, a, TimerGoesOff(now));
  }

  /** A relay rolled back to the artifact remembered before is ignored. With A remembered and B swapped
      in by an application whose callback fails, a delivery of A is verified and discarded, whenever it
      comes: the agent goes on serving B. */
  lemma RollbackIsIgnored(
    env: Env, a: State, tagA: Tag, bytesA: Bytes, tagB: Tag, bytesB: Bytes, version: Option<nat>,
    now: int, later: int, again: int)
    requires AwaitsReply(a) && tagA != tagB && Acceptable(env, a, tagA, bytesA) && Acceptable(env, a, tagB, bytesB)
    requires a.fsm.ctx.lastApplied == Some(tagA) && ClearExpired(a.fsm.ctx, now).lastRejected != Some(tagB)
    ensures var b := RunFrom(env, a, Delivery(tagB, version, bytesB, now, CallbackFails));
            var c := RunFrom(env, b, TimerGoesOff(later));
            var d := RunFrom(env, c, Round(tagA, version, bytesA, again));
            && b.swaps == a.swaps + 1 && d.swaps == b.swaps && AwaitsReply(d)
            && d.current == Some(tagB) && d.files == Files(None, Some(bytesB)) && env.decode(bytesB) == Some(d.served)
  {
    CallbackFailureForgets(env, a, tagB, version, bytesB, now);
    var b := AfterFailure(env, a, tagB, bytesB, now);
    TimerRefetches(env, b, later);
    RememberedArtifactIsDiscarded(env, AfterTimer(b, later), tagA, version, bytesA, again);
  }

  /** ... and B, though it is being served, is applied again once its rejection is over. */
  lemma FailedApplicationIsRepeated(
    env: Env, a: State, tagA: Tag, tagB: Tag, bytesB: Bytes, version: Option<nat>, now: int, later: int, again: int)
    requires AwaitsReply(a) && tagA != tagB && Acceptable(env, a, tagB, bytesB)
    requires a.fsm.ctx.lastApplied == Some(tagA) && ClearExpired(a.fsm.ctx, now).lastRejected != Some(tagB)
    requires again >= now + REJECT_TTL_MS
    ensures var b := RunFrom(env, a, Delivery(tagB, version, bytesB, now, CallbackFails));
            var c := RunFrom(env, b, TimerGoesOff(later));
            var d := RunFrom(env, c, Round(tagB, version, bytesB, again));
            c.current == Some(tagB) && d.current == Some(tagB) && d.swaps == c.swaps + 1
  {
    CallbackFailureForgets(env, a, tagB, version, bytesB, now);
    var b := AfterFailure(env, a, tagB, bytesB, now);
    TimerRefetches(env, b, later);
    AcceptableArtifactIsApplied(env, AfterTimer(b, later), tagB, version, bytesB, again);
  }

  /** A failed verification or application is always followed by a timer and never at once by a fetch:
      over every run, handling its report leaves the agent waiting on the timer alone. */
  lemma FailureWaitsForTimer(env: Env, start: Origin, labels: seq<Label>, io: Io, now: int)
    requires var a := Run(env, Begin(env, start), labels);
             !a.fsm.phase.Stopped? && a.queue != [] && (a.queue[0].VerifyFail? || a.queue[0].ApplyFail?)
    ensures var a := Run(env, Begin(env, start), labels);
            var b := Step(env, Step(env, a, Pop), Exec(io, now));
            Waiting(b) && b.timer && !b.fetch && b.polls == a.polls && b.fsm.phase.Sleeping?
  {
    RunKeepsInv(env, start, labels);
    var a := Run(env, Begin(env, start), labels);
    assert Step(env, a, Pop).effects == [Schedule(a.fsm.ctx.attempts)];
  }

  /* ---- polling with a rejected tag ---- */

  /** Artifact A is remembered and B rejected until `until`; the relay is back at A. */
  ghost predicate Spinning(env: Env, a: State, tagA: Tag, bytesA: Bytes, tagB: Tag, until: int) {
    && AwaitsReply(a) && tagA != tagB && Acceptable(env, a, tagA, bytesA)
    && a.fsm.ctx.forced == 0 && a.fsm.ctx.lastApplied == Some(tagA)
    && a.fsm.ctx.lastRejected == Some(tagB) && a.fsm.ctx.rejectedUntil == Some(until)
  }

  /** The state after `n` rounds in which A is delivered and discarded: `n` more polls for B's tag. */
  function AfterSpins(a: State, tagB: Tag, n: nat): State {
    if n == 0 then a
    else a.(fsm := Machine(Fetching, a.fsm.ctx.(attempts := 0)), files := a.files.(tmp := None),
            polls := a.polls + seq(n, i => Some(tagB)))
  }

  function Rounds(tag: Tag, version: Option<nat>, bytes: Bytes, clocks: seq<int>): seq<Label> {
    if clocks == [] then []
    else
      var n := |clocks| - 1;
      Rounds(tag, version, bytes, clocks[..n]) + Round(tag, version, bytes, clocks[n])
  }

  lemma {:induction false} RunFromConcat(env: Env, a: State, first: seq<Label>, second: seq<Label>)
    ensures RunFrom(env, a, first + second) == RunFrom(env, RunFrom(env, a, first), second)
    decreases |first|
  {
    if first == [] {
      assert first + second == second;
    } else {
      assert (first + second)[1..] == first[1..] + second;
      RunFromConcat(env, Step(env, a, first[0]), first[1..], second);
    }
  }

  lemma SpinStep(
    env: Env, a: State, tagA: Tag, version: Option<nat>, bytesA: Bytes, tagB: Tag, until: int, n: nat, now: int)
    requires Spinning(env, a, tagA, bytesA, tagB, until) && now < until
    ensures RunFrom(env, AfterSpins(a, tagB, n), Round(tagA, version, bytesA, now)) == AfterSpins(a, tagB, n + 1)
  {
    var b := AfterSpins(a, tagB, n);
    RememberedArtifactIsDiscarded(env, b, tagA, version, bytesA, now);
    assert seq(n + 1, i => Some(tagB)) == seq(n, i => Some(tagB)) + [Some(tagB)];
    assert AfterDiscard(b, now).polls == a.polls + seq(n + 1, i => Some(tagB));
  }

  /** Every fetch carries the rejected tag, so a relay back at the served artifact answers at once, and
      the agent polls again without delay: over any number of rounds before the rejection ends it
      verifies and discards the artifact it serves and asks for the rejected one. */
  lemma {:induction false} RejectedTagSpins(
    env: Env, a: State, tagA: Tag, version: Option<nat>, bytesA: Bytes, tagB: Tag, until: int, clocks: seq<int>)
    requires Spinning(env, a, tagA, bytesA, tagB, until) && forall i :: 0 <= i < |clocks| ==> clocks[i] < until
    ensures RunFrom(env, a, Rounds(tagA, version, bytesA, clocks)) == AfterSpins(a, tagB, |clocks|)
    decreases |clocks|
  {
    if clocks != [] {
      var n := |clocks| - 1;
      RejectedTagSpins(env, a, tagA, version, bytesA, tagB, until, clocks[..n]);
      RunFromConcat(env, a, Rounds(tagA, version, bytesA, clocks[..n]), Round(tagA, version, bytesA, clocks[n]));
      SpinStep(env, a, tagA, version, bytesA, tagB, until, n, clocks[n]);
    }
  }

  /** The first round after the rejection has ended asks with the applied tag again. */
  lemma SpinEnds(env: Env, a: State, tagA: Tag, version: Option<nat>, bytesA: Bytes, tagB: Tag, until: int, now: int)
    requires Spinning(env, a, tagA, bytesA, tagB, until) && now >= until
    ensures RunFrom(env, a, Round(tagA, version, bytesA, now)).polls == a.polls + [Some(tagA)]
    ensures RunFrom(env, a, Round(tagA, version, bytesA, now)).fsm.ctx.lastRejected.None?
  {
    RememberedArtifactIsDiscarded(env, a, tagA, version, bytesA, now);
  }
}
