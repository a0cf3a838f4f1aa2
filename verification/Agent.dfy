/** The configuration agent around its state machine (pavis, agent/driver.rs, agent/lkg.rs, and
    pavis-core, runtime/reload.rs): verify, apply, bootstrap and the event loop. */
module Agent {
  import opened Common
  import opened AgentFsm

  import opened Listeners

  /* ---- configurations and the reload boundary ---- */

  /** A configuration: its boot-time parts and the rest. */
  datatype Config = Config(
    listeners: seq<Listener>, admin: Endpoint, shutdown: Shutdown, metrics: Endpoint, accessLog: AccessLog,
    rest: string)

  /** What a reload must not change. */
  datatype BootPart = BootPart(
    listeners: seq<Listener>, admin: Endpoint, shutdown: Shutdown, metrics: Endpoint, accessLog: AccessLog)

  function Boot(c: Config): BootPart { BootPart(c.listeners, c.admin, c.shutdown, c.metrics, c.accessLog) }

  lemma PrintingTellsPartsApart(p: Printable, a: Config, b: Config)
    ensures Fingerprints(p, a.listeners) == Fingerprints(p, b.listeners) <==> a.listeners == b.listeners
    ensures EndpointText(a.admin) == EndpointText(b.admin) <==> a.admin == b.admin
    ensures ShutdownText(a.shutdown) == ShutdownText(b.shutdown) <==> a.shutdown == b.shutdown
    ensures EndpointText(a.metrics) == EndpointText(b.metrics) <==> a.metrics == b.metrics
    ensures AccessLogText(p, a.accessLog) == AccessLogText(p, b.accessLog) <==> a.accessLog == b.accessLog
  {
    FingerprintsIdentifyListeners(p, a.listeners, b.listeners);
    EndpointTextInjective(a.admin, b.admin);
    ShutdownTextInjective(a.shutdown, b.shutdown);
    EndpointTextInjective(a.metrics, b.metrics);
    AccessLogTextInjective(p, a.accessLog, b.accessLog);
  }

  datatype Differences = Differences(listeners: bool, admin: bool, shutdown: bool, metrics: bool, accessLog: bool)

  /** The five comparisons, made on printed text. */
  method CompareTexts(p: Printable, a: Config, b: Config) returns (d: Differences)
    ensures d == Differences(a.listeners != b.listeners, a.admin != b.admin, a.shutdown != b.shutdown,
                             a.metrics != b.metrics, a.accessLog != b.accessLog)
  {
    PrintingTellsPartsApart(p, a, b);
    d := Differences(Fingerprints(p, a.listeners) != Fingerprints(p, b.listeners),
                     EndpointText(a.admin) != EndpointText(b.admin),
                     ShutdownText(a.shutdown) != ShutdownText(b.shutdown),
                     EndpointText(a.metrics) != EndpointText(b.metrics),
                     AccessLogText(p, a.accessLog) != AccessLogText(p, b.accessLog));
  }

  function Listed(differs: bool, name: string): seq<string> { if differs then [name] else [] }

  /** The names of the parts that differ, in this order. */
  function Names(d: Differences): seq<string> {
    Listed(d.listeners, "listeners") + Listed(d.admin, "admin") + Listed(d.shutdown, "shutdown")
    + Listed(d.metrics, "telemetry.metrics") + Listed(d.accessLog, "telemetry.access_log")
  }

  method ListNames(d: Differences) returns (names: seq<string>)
    ensures names == Names(d)
  {
    names := [];
    if d.listeners { names := names + ["listeners"]; }
    if d.admin { names := names + ["admin"]; }
    if d.shutdown { names := names + ["shutdown"]; }
    if d.metrics { names := names + ["telemetry.metrics"]; }
    if d.accessLog { names := names + ["telemetry.access_log"]; }
  }

  lemma NamesMeaning(d: Differences)
    ensures "listeners" in Names(d) <==> d.listeners
    ensures "admin" in Names(d) <==> d.admin
    ensures "shutdown" in Names(d) <==> d.shutdown
    ensures "telemetry.metrics" in Names(d) <==> d.metrics
    ensures "telemetry.access_log" in Names(d) <==> d.accessLog
    ensures Names(d) == [] <==> d == Differences(false, false, false, false, false)
  {
  }

  /** `ensure_runtime_reload_safe`: the names of the boot-time parts that differ, in order. It compares printed
      text, and that is comparing the parts. */
  method ChangedFields(printable: Printable, current: Config, next: Config) returns (changed: seq<string>)
    ensures changed == [] <==> Boot(current) == Boot(next)
    ensures changed == Names(Differences(current.listeners != next.listeners, current.admin != next.admin,
                                         current.shutdown != next.shutdown, current.metrics != next.metrics,
                                         current.accessLog != next.accessLog))
    ensures "listeners" in changed <==> current.listeners != next.listeners
    ensures "admin" in changed <==> current.admin != next.admin
    ensures "shutdown" in changed <==> current.shutdown != next.shutdown
    ensures "telemetry.metrics" in changed <==> current.metrics != next.metrics
    ensures "telemetry.access_log" in changed <==> current.accessLog != next.accessLog
  {
    var d := CompareTexts(printable, current, next);
    changed := ListNames(d);
    NamesMeaning(d);
  }

  /* ---- verify, apply, bootstrap ---- */

  /** `checksum_for_bytes`, `pavis_pvs::verify`, the decoding done by `pavis_pvs::load`, and the printing
      of characters. */
  datatype Env = Env(
    checksum: Bytes -> Tag, verified: Bytes -> bool, decode: Bytes -> Option<Config>, printable: Printable)

  /** Which of the fallible parts of one operation succeed: writing or renaming, reading a file back,
      removing it, the environment check, building the runtime state, the update callback. */
  datatype Io = Io(write: bool, load: bool, remove: bool, envOk: bool, build: bool, rename: bool, callback: bool)

  /** The staging file and the last-known-good file. */
  datatype Files = Files(tmp: Option<Bytes>, lkg: Option<Bytes>)

  datatype Verdict = Verdict(tmp: Option<Bytes>, ok: bool)

  function VerifyUpdate(env: Env, tmp: Option<Bytes>, served: Config, bytes: Bytes, tag: Tag, io: Io): Verdict {
    if env.checksum(bytes) != tag || !env.verified(bytes) || !io.write then Verdict(tmp, false)
    else if !io.load || env.decode(bytes).None? then Verdict(if io.remove then None else Some(bytes), false)
    else if Boot(env.decode(bytes).value) != Boot(served) then Verdict(Some(bytes), false)
    else if !io.envOk then Verdict(if io.remove then None else Some(bytes), false)
    else Verdict(Some(bytes), io.build)
  }

  datatype Applied = Applied(files: Files, served: Config, swapped: bool, ok: bool)

  function ApplyUpdate(env: Env, files: Files, served: Config, io: Io): Applied {
    if !io.load || files.tmp.None? || env.decode(files.tmp.value).None?
    then Applied(if io.remove then files.(tmp := None) else files, served, false, false)
    else if !io.build || !io.rename then Applied(files, served, false, false)
    else Applied(Files(None, files.tmp), env.decode(files.tmp.value).value, true, io.callback)
  }

  datatype Booted = Booted(served: Config, current: Option<Tag>)

  function Bootstrap(env: Env, lkg: Option<Bytes>, startup: Config, io: Io): Booted {
    if lkg.Some? && io.load && env.verified(lkg.value) && env.decode(lkg.value).Some? && io.envOk && io.build
    then Booted(env.decode(lkg.value).value, Some(env.checksum(lkg.value)))
    else Booted(startup, None)
  }

  /** The agent's files and served configuration, updated in place. */
  class ConfigAgent {
    var tmp: Option<Bytes>
    var lkg: Option<Bytes>
    var served: Config

    constructor (tmp: Option<Bytes>, lkg: Option<Bytes>, startup: Config)
      ensures this.tmp == tmp && this.lkg == lkg && served == startup
    {
      this.tmp, this.lkg, served := tmp, lkg, startup;
    }

    method Verify(env: Env, bytes: Bytes, tag: Tag, io: Io) returns (ok: bool)
      modifies this`tmp
      ensures Verdict(tmp, ok) == VerifyUpdate(env, old(tmp), served, bytes, tag, io)
      ensures ok <==> && env.checksum(bytes) == tag && env.verified(bytes) && env.decode(bytes).Some?
                      && Boot(env.decode(bytes).value) == Boot(served)
                      && io.write && io.load && io.envOk && io.build
      ensures ok ==> tmp == Some(bytes)
      ensures !ok ==>
        var staged := env.checksum(bytes) == tag && env.verified(bytes) && io.write;
        var readable := io.load && env.decode(bytes).Some?;
        var safe := readable && Boot(env.decode(bytes).value) == Boot(served);
        tmp == (if !staged then old(tmp)
                else if (!readable || (safe && !io.envOk)) && io.remove then None
                else Some(bytes))
    {
      if env.checksum(bytes) != tag { return false; }
      if !env.verified(bytes) { return false; }
      if !io.write { return false; }
      tmp := Some(bytes);
      var config := env.decode(bytes);
      if !io.load || config.None? {
        if io.remove { tmp := None; }
        return false;
      }
      var changed := ChangedFields(env.printable, served, config.value);
      if changed != [] { return false; }
      if !io.envOk {
        if io.remove { tmp := None; }
        return false;
      }
      ok := io.build;
    }

    method Apply(env: Env, io: Io) returns (swapped: bool, ok: bool)
      modifies this
      ensures Applied(Files(tmp, lkg), served, swapped, ok) == ApplyUpdate(env, old(Files(tmp, lkg)), old(served), io)
      ensures swapped <==> old(tmp).Some? && env.decode(old(tmp).value).Some? && io.load && io.build && io.rename
      ensures swapped ==> lkg == old(tmp) && tmp == None && env.decode(lkg.value) == Some(served)
      ensures !swapped ==>
        var readable := io.load && old(tmp).Some? && env.decode(old(tmp).value).Some?;
        lkg == old(lkg) && served == old(served) && tmp == if !readable && io.remove then None else old(tmp)
      ensures ok <==> swapped && io.callback
    {
      if !io.load || tmp.None? || env.decode(tmp.value).None? {
        if io.remove { tmp := None; }
        return false, false;
      }
      var config := env.decode(tmp.value).value;
      if !io.build || !io.rename { return false, false; }
      lkg, tmp := tmp, None;
      served := config;
      swapped, ok := true, io.callback;
    }

    method BootstrapFromLkg(env: Env, io: Io) returns (current: Option<Tag>)
      modifies this`served
      ensures Booted(served, current) == Bootstrap(env, lkg, old(served), io)
      ensures current.Some? <==> lkg.Some? && env.verified(lkg.value) && env.decode(lkg.value).Some?
                                 && io.load && io.envOk && io.build
      ensures current.Some? ==> current == Some(env.checksum(lkg.value)) && env.decode(lkg.value) == Some(served)
      ensures current.None? ==> served == old(served)
    {
      if lkg.None? || !io.load || !env.verified(lkg.value) { return None; }
      var config := env.decode(lkg.value);
      if config.None? || !io.envOk || !io.build { return None; }
      served := config.value;
      current := Some(env.checksum(lkg.value));
    }
  }

  /* ---- the event loop ---- */

  /** The loop's state: pending events and effects, the outstanding fetch and timer, the files, what is
      served and under which ETag. `lost` counts fetches that were requested and then ignored or
      dropped; `swaps` counts applied updates; `polls` lists the tags the fetches carried. */
  datatype State = State(
    fsm: Machine, queue: seq<Event>, effects: seq<Effect>, fetch: bool, timer: bool,
    files: Files, served: Config, current: Option<Tag>, swaps: nat, lost: nat,
    polls: seq<Option<Tag>>)

  datatype Label =
    | Pop
    | Exec(io: Io, now: int)
    | Fetched(response: Response, now: int)
    | Fired(now: int)
    | Halt

  /** What a start finds: the two files, the startup configuration, and how bootstrap fares. */
  datatype Origin = Origin(tmp: Option<Bytes>, lkg: Option<Bytes>, startup: Config, io: Io, now: int)

  function Begin(env: Env, start: Origin): State {
    var b := Bootstrap(env, start.lkg, start.startup, start.io);
    State(Machine(Idle, NewContext.(lastApplied := b.current)), [Start(start.now)], [], false, false,
          Files(start.tmp, start.lkg), b.served, b.current, 0, 0, [])
  }

  function ExecEffect(env: Env, a: State, e: Effect, io: Io, now: int): State {
    match e
    case Fetch(tag) => if a.fetch then a.(lost := a.lost + 1) else a.(fetch := true, polls := a.polls + [tag])
    case Verify(tag, version, bytes) =>
      var v := VerifyUpdate(env, a.files.tmp, a.served, bytes, tag, io);
      a.(files := a.files.(tmp := v.tmp),
         queue := a.queue + [if v.ok then VerifyOk(Update(tag, version), now) else VerifyFail(tag, now)])
    case Apply(u) =>
      var r := ApplyUpdate(env, a.files, a.served, io);
      a.(files := r.files, served := r.served,
         current := if r.swapped then Some(u.tag) else a.current,
         swaps := if r.swapped then a.swaps + 1 else a.swaps,
         queue := a.queue + [if r.ok then ApplyOk(u.tag, u.version, now) else ApplyFail(u.tag, now)])
    case Schedule(_) => a.(timer := true)
    case DiscardTemp => a.(files := a.files.(tmp := if io.remove then None else a.files.tmp))
  }

  function Step(env: Env, a: State, l: Label): State {
    if a.fsm.phase.Stopped? then a
    else if a.effects != [] then
      if l.Exec? then ExecEffect(env, a.(effects := a.effects[1..]), a.effects[0], l.io, l.now) else a
    else if a.queue != [] then
      if l.Pop? then
        var (m, effects) := Tick(a.fsm, a.queue[0]);
        a.(fsm := m, queue := a.queue[1..], effects := effects)
      else a
    else
      match l
      case Fetched(r, now) => if a.fetch then a.(fetch := false, queue := [Reply(r, now)]) else a
      case Fired(now) =>
        // A fetch in flight when the timer branch of the select wins is dropped with its handle.
        if !a.timer then a
        else a.(timer := false, queue := [TimerFired(now)], fetch := false, lost := a.lost + if a.fetch then 1 else 0)
      case Halt => a.(fsm := Tick(a.fsm, Shutdown).0, fetch := false, timer := false)
      case _ => a
  }

  function Run(env: Env, a: State, labels: seq<Label>): State {
    if labels == [] then a else Step(env, Run(env, a, labels[..|labels| - 1]), labels[|labels| - 1])
  }

  /* ---- invariant: one thing outstanding ---- */

  /** In each phase exactly one thing is outstanding: an effect to run, an event to handle, a fetch or
      a timer. */
  ghost predicate OneOutstanding(a: State) {
    match a.fsm.phase
    case Idle => !a.fetch && !a.timer && a.effects == [] && |a.queue| == 1 && a.queue[0].Start?
    case Fetching =>
      && !a.timer
      && (|| (!a.fetch && a.queue == [] && |a.effects| == 1 && a.effects[0].Fetch?)
          || (!a.fetch && a.queue == [] && |a.effects| == 2 && a.effects[0].DiscardTemp? && a.effects[1].Fetch?)
          || (a.fetch && a.queue == [] && a.effects == [])
          || (!a.fetch && a.effects == [] && |a.queue| == 1 && a.queue[0].Reply?))
    case Verifying =>
      && !a.timer && !a.fetch
      && (|| (a.queue == [] && |a.effects| == 1 && a.effects[0].Verify?)
          || (a.effects == [] && |a.queue| == 1 && (a.queue[0].VerifyOk? || a.queue[0].VerifyFail?)))
    case Applying =>
      && !a.timer && !a.fetch
      && (|| (a.queue == [] && |a.effects| == 1 && a.effects[0].Apply?)
          || (a.effects == [] && |a.queue| == 1 && (a.queue[0].ApplyOk? || a.queue[0].ApplyFail?)))
    case Sleeping =>
      && !a.fetch
      && (|| (!a.timer && a.queue == [] && |a.effects| == 1 && a.effects[0].Schedule?)
          || (a.timer && a.queue == [] && a.effects == [])
          || (!a.timer && a.effects == [] && |a.queue| == 1 && a.queue[0].TimerFired?))
    case Stopped => true
  }

  /** The staged artifact is the one that was verified, against the configuration still served. */
  ghost predicate Staged(env: Env, a: State, tag: Tag) {
    && a.files.tmp.Some?
    && env.checksum(a.files.tmp.value) == tag && env.verified(a.files.tmp.value)
    && env.decode(a.files.tmp.value).Some? && Boot(env.decode(a.files.tmp.value).value) == Boot(a.served)
  }

  ghost predicate Usable(env: Env, b: Bytes) { env.verified(b) && env.decode(b).Some? }

  ghost predicate FilesInv(env: Env, lkg0: Option<Bytes>, boot: BootPart, a: State) {
    && Boot(a.served) == boot
    && (a.current.Some? ==>
          && a.files.lkg.Some? && Usable(env, a.files.lkg.value)
          && env.decode(a.files.lkg.value) == Some(a.served)
          && a.current == Some(env.checksum(a.files.lkg.value)))
    && (a.swaps > 0 ==> a.current.Some?)
    && (a.swaps == 0 ==> a.files.lkg == lkg0)
    && (a.fsm.phase.Verifying? && a.queue != [] && a.queue[0].VerifyOk? ==> Staged(env, a, a.queue[0].update.tag))
    && (a.fsm.phase.Applying? && a.effects != [] && a.effects[0].Apply? ==> Staged(env, a, a.effects[0].update.tag))
  }

  /** Artifact bytes on their way through the agent came from the relay. */
  ghost predicate Sourced(lkg0: Option<Bytes>, delivered: set<Bytes>, a: State) {
    && (a.queue != [] && a.queue[0].Reply? && a.queue[0].response.NewArtifact? ==>
          a.queue[0].response.bytes in delivered)
    && (a.effects != [] && a.effects[0].Verify? ==> a.effects[0].bytes in delivered)
    && (a.queue != [] && a.queue[0].VerifyOk? && a.files.tmp.Some? ==> a.files.tmp.value in delivered)
    && (a.effects != [] && a.effects[0].Apply? && a.files.tmp.Some? ==> a.files.tmp.value in delivered)
    && (a.files.lkg == lkg0 || (a.files.lkg.Some? && a.files.lkg.value in delivered))
  }

  ghost predicate Inv(env: Env, lkg0: Option<Bytes>, boot: BootPart, delivered: set<Bytes>, a: State) {
    OneOutstanding(a) && a.lost == 0 && FilesInv(env, lkg0, boot, a) && Sourced(lkg0, delivered, a)
  }

  /** The artifacts the relay has answered with. */
  ghost function Delivered(labels: seq<Label>): set<Bytes> {
    if labels == [] then {}
    else Delivered(labels[..|labels| - 1]) + Carried(labels[|labels| - 1])
  }

  ghost function Carried(l: Label): set<Bytes> {
    if l.Fetched? && l.response.NewArtifact? then {l.response.bytes} else {}
  }

  lemma PopKeepsInv(env: Env, lkg0: Option<Bytes>, boot: BootPart, delivered: set<Bytes>, a: State)
    requires Inv(env, lkg0, boot, delivered, a)
    ensures Inv(env, lkg0, boot, delivered, Step(env, a, Pop))
  {
  }

  lemma VerifyKeepsInv(env: Env, lkg0: Option<Bytes>, boot: BootPart, delivered: set<Bytes>, a: State, io: Io, now: int)
    requires Inv(env, lkg0, boot, delivered, a) && a.effects != [] && a.effects[0].Verify?
    ensures Inv(env, lkg0, boot, delivered, Step(env, a, Exec(io, now)))
  {
  }

  lemma ApplyKeepsInv(env: Env, lkg0: Option<Bytes>, boot: BootPart, delivered: set<Bytes>, a: State, io: Io, now: int)
    requires Inv(env, lkg0, boot, delivered, a) && a.effects != [] && a.effects[0].Apply?
    ensures Inv(env, lkg0, boot, delivered, Step(env, a, Exec(io, now)))
  {
  }

  lemma ExecKeepsInv(env: Env, lkg0: Option<Bytes>, boot: BootPart, delivered: set<Bytes>, a: State, io: Io, now: int)
    requires Inv(env, lkg0, boot, delivered, a)
    ensures Inv(env, lkg0, boot, delivered, Step(env, a, Exec(io, now)))
  {
    if a.effects != [] && a.effects[0].Verify? {
      VerifyKeepsInv(env, lkg0, boot, delivered, a, io, now);
    } else if a.effects != [] && a.effects[0].Apply? {
      ApplyKeepsInv(env, lkg0, boot, delivered, a, io, now);
    }
  }

  lemma SelectKeepsInv(env: Env, lkg0: Option<Bytes>, boot: BootPart, delivered: set<Bytes>, a: State, l: Label)
    requires Inv(env, lkg0, boot, delivered, a) && (l.Fetched? || l.Fired? || l.Halt?)
    ensures Inv(env, lkg0, boot, delivered + Carried(l), Step(env, a, l))
  {
  }

  lemma StepKeepsInv(env: Env, lkg0: Option<Bytes>, boot: BootPart, delivered: set<Bytes>, a: State, l: Label)
    requires Inv(env, lkg0, boot, delivered, a)
    ensures Inv(env, lkg0, boot, delivered + Carried(l), Step(env, a, l))
  {
    match l
    case Pop =>
      PopKeepsInv(env, lkg0, boot, delivered, a);
      assert delivered + Carried(l) == delivered;
    case Exec(io, now) =>
      ExecKeepsInv(env, lkg0, boot, delivered, a, io, now);
      assert delivered + Carried(l) == delivered;
    case _ => SelectKeepsInv(env, lkg0, boot, delivered, a, l);
  }

  /** What every run of the agent keeps, over any interleaving of replies, timers, failures and clock
      readings. One thing is outstanding at a time and no fetch is lost; the boot-time part of the
      served configuration is the one bootstrap left; the last-known-good file is the initial one or
      an artifact the relay delivered, and whenever a tag is current it names exactly that file,
      which verifies and decodes to what is served. */
  lemma {:induction false} RunKeepsInv(env: Env, start: Origin, labels: seq<Label>)
    ensures Inv(env, start.lkg, Boot(Begin(env, start).served), Delivered(labels), Run(env, Begin(env, start), labels))
  {
    if labels != [] {
      var n := |labels| - 1;
      RunKeepsInv(env, start, labels[..n]);
      StepKeepsInv(env, start.lkg, Boot(Begin(env, start).served), Delivered(labels[..n]),
                   Run(env, Begin(env, start), labels[..n]), labels[n]);
    }
  }

  /** The loop waits exactly when nothing is queued: on a fetch or on a timer, never on both, never on neither. */
  ghost predicate Waiting(a: State) {
    a.effects == [] && a.queue == [] && (a.fetch <==> !a.timer)
  }

  /** Internal steps left before the loop waits again. */
  ghost function Work(a: State): nat {
    if a.effects != [] then
      (match a.effects[0]
       case Verify(_, _, _) => 5
       case Apply(_) => 3
       case DiscardTemp => 2
       case _ => 1)
    else if a.queue != [] then
      (match a.queue[0]
       case Reply(_, _) => 6
       case VerifyOk(_, _) => 4
       case VerifyFail(_, _) => 4
       case _ => 2)
    else 0
  }

  lemma WorkIsDone(env: Env, a: State, io: Io, now: int)
    requires OneOutstanding(a) && !a.fsm.phase.Stopped? && Work(a) > 0
    ensures Work(Step(env, a, if a.effects != [] then Exec(io, now) else Pop)) < Work(a)
  {
  }

  /** The loop never sticks and never spins: from every reachable state it waits again after at most
      six internal steps, whatever their outcomes. */
  lemma LoopReturnsToWaiting(env: Env, start: Origin, labels: seq<Label>, io: Io, now: int)
    ensures var a := Run(env, Begin(env, start), labels);
            !a.fsm.phase.Stopped? ==>
              && Work(a) <= 6 && (Work(a) == 0 <==> Waiting(a))
              && (Work(a) > 0 ==> Work(Step(env, a, if a.effects != [] then Exec(io, now) else Pop)) < Work(a))
  {
    RunKeepsInv(env, start, labels);
    var a := Run(env, Begin(env, start), labels);
    if !a.fsm.phase.Stopped? && Work(a) > 0 { WorkIsDone(env, a, io, now); }
  }

  /* ---- bootstrap and the reload boundary ---- */

  /** Bootstrap finds an LKG it can serve. */
  predicate Bootstraps(env: Env, start: Origin) {
    && start.lkg.Some? && env.verified(start.lkg.value) && env.decode(start.lkg.value).Some?
    && start.io.load && start.io.envOk && start.io.build
  }

  lemma OnlyApplyChangesServed(env: Env, a: State, e: Effect, io: Io, now: int)
    ensures var b := ExecEffect(env, a, e, io, now);
            b.swaps >= a.swaps && (b.swaps == a.swaps ==> b.served == a.served && b.current == a.current)
  {
  }

  lemma {:induction false} ServedUntilFirstSwap(env: Env, start: Origin, labels: seq<Label>)
    ensures var a := Run(env, Begin(env, start), labels);
            a.swaps == 0 ==> a.served == Begin(env, start).served && a.current == Begin(env, start).current
  {
    if labels != [] {
      var n := |labels| - 1;
      ServedUntilFirstSwap(env, start, labels[..n]);
      var a, l := Run(env, Begin(env, start), labels[..n]), labels[n];
      if a.effects != [] && l.Exec? {
        OnlyApplyChangesServed(env, a.(effects := a.effects[1..]), a.effects[0], l.io, l.now);
      }
    }
  }

  /** Over every run until the first update: an LKG that bootstrap can serve is served, under its own tag; otherwise
      the startup configuration is served and no tag is current. The first fetch carries that tag. */
  lemma BootstrapServesExactlyWhen(env: Env, start: Origin, labels: seq<Label>)
    ensures var a := Run(env, Begin(env, start), labels);
            a.swaps == 0 ==>
              && (Bootstraps(env, start) ==>
                    && Some(a.served) == env.decode(start.lkg.value)
                    && a.current == Some(env.checksum(start.lkg.value)))
              && (!Bootstraps(env, start) ==> a.served == start.startup && a.current.None?)
    ensures Begin(env, start).fsm == Machine(Idle, NewContext.(lastApplied := Begin(env, start).current))
    ensures Begin(env, start).files == Files(start.tmp, start.lkg)
  {
    ServedUntilFirstSwap(env, start, labels);
  }

  /** Bootstrap makes no reload check: it keeps the boot-time settings of the startup configuration exactly
      when it serves no LKG or one that agrees with them. */
  lemma BootstrapKeepsBootPartExactlyWhen(env: Env, start: Origin)
    ensures Boot(Begin(env, start).served) == Boot(start.startup) <==>
            !Bootstraps(env, start) || Boot(env.decode(start.lkg.value).value) == Boot(start.startup)
  {
  }

  /** Otherwise, over every run, every artifact with the settings the process was started with is refused,
      and none is ever served. */
  lemma StartupSettingsAreLockedOut(env: Env, start: Origin, labels: seq<Label>, bytes: Bytes, tag: Tag, io: Io)
    requires Boot(Begin(env, start).served) != Boot(start.startup)
    requires env.decode(bytes).Some? && Boot(env.decode(bytes).value) == Boot(start.startup)
    ensures var a := Run(env, Begin(env, start), labels);
            && !VerifyUpdate(env, a.files.tmp, a.served, bytes, tag, io).ok
            && Boot(a.served) != Boot(start.startup)
            && (a.swaps > 0 ==> a.files.lkg != Some(bytes))
  {
    RunKeepsInv(env, start, labels);
  }
}
