/** The relay's durable storage as a state machine (pavis-relay: runtime.rs, storage/lkg.rs,
    storage/history.rs, state.rs, app.rs).

    A state is the disk plus the one process using it. Each storage step of `publish_bytes`, of
    `repair_lkg` and of `init_state` is one transition, which either succeeds (`Advance`) or fails
    (`Fail`); a `Crash` can come between any two of them. Publishes are serialized by the publish
    lock, so at most one is under way. A run is any sequence of labels from an empty storage root. */
module RelayStorage {
  import opened Common

  datatype Metadata = Metadata(version: nat, publishedAt: int, checksum: string, size: nat)

  /** What the relay takes from elsewhere: the framing check of `pavis_pvs::inspect`, the archive
      check that `pavis_pvs::verify` adds, the checksum label, and `max_pvs_bytes` (0: no limit). */
  datatype Env = Env(framed: Bytes -> bool, archived: Bytes -> bool, checksum: Bytes -> string, maxBytes: nat)

  predicate Fits(env: Env, bytes: Bytes) { env.maxBytes == 0 || |bytes| <= env.maxBytes }

  predicate Verified(env: Env, bytes: Bytes) { env.framed(bytes) && env.archived(bytes) }

  predicate Accepts(env: Env, bytes: Bytes) { Fits(env, bytes) && Verified(env, bytes) }

  function MetadataFor(env: Env, version: nat, bytes: Bytes, now: int): Metadata {
    Metadata(version, now, env.checksum(bytes), |bytes|)
  }

  /** `history/<version>.pvs`, `history/<version>.meta.json`, `lkg/config.pvs`, `lkg/meta.json`
      and `state.json`. */
  datatype Disk = Disk(
    artifacts: map<nat, Bytes>,
    metadata: map<nat, Metadata>,
    lkgArtifact: Option<Bytes>,
    lkgMetadata: Option<Metadata>,
    state: Option<nat>)

  const EmptyDisk := Disk(map[], map[], None, None, None)

  /** The snapshot held in memory; version 0 with no bytes means nothing to serve. */
  datatype Snapshot = Snapshot(version: nat, bytes: Bytes)

  function DurableVersion(d: Disk): nat {
    if d.lkgMetadata.Some? then d.lkgMetadata.value.version else 0
  }

  /** History versions with both files, as `list_history_versions` reports them. */
  function Listed(d: Disk): set<nat> { d.artifacts.Keys * d.metadata.Keys }

  function Orphans(d: Disk): set<nat> { set v | v in Listed(d) && v > DurableVersion(d) }

  function Halves(d: Disk): set<nat> { (d.artifacts.Keys - d.metadata.Keys) + (d.metadata.Keys - d.artifacts.Keys) }

  ghost predicate IsMax(s: set<nat>, v: nat) { v in s && forall u | u in s :: u <= v }

  lemma {:induction false} MaxExists(s: set<nat>)
    requires s != {}
    ensures exists v :: IsMax(s, v)
    decreases |s|
  {
    var x :| x in s;
    if s - {x} == {} {
      assert s == {x};
      assert IsMax(s, x);
    } else {
      MaxExists(s - {x});
      var v: nat :| IsMax(s - {x}, v);
      var m: nat := if x < v then v else x;
      assert IsMax(s, m) by {
        forall u | u in s ensures u <= m { if u != x { assert u in s - {x}; } }
      }
    }
  }

  ghost function MaxVersion(s: set<nat>): (v: nat)
    requires s != {}
    ensures IsMax(s, v)
  {
    MaxExists(s);
    var v :| IsMax(s, v);
    v
  }

  /* ---- the machine ---- */

  datatype PublishStage =
    | WriteArtifact | WriteMetadata | SyncHistory
    | PromoteArtifact | PromoteMetadata | SyncLkg
    | SaveState | Commit
    | UndoArtifact | UndoMetadata

  /** Why `repair_lkg` rebuilds the LKG: which of its two files it found. */
  datatype Found = OnlyArtifact | OnlyMetadata

  datatype StartStage =
    | ReadLkg
    | ListHistory
    | ReadEntry(found: Found, version: nat)
    | RecoverArtifact(found: Found, bytes: Bytes, meta: Metadata)
    | RecoverMetadata(found: Found, bytes: Bytes, meta: Metadata)
    | SyncRecovered(found: Found)
    | FindArtifact
    | DropArtifact
    | LoadLkg
    | WriteState(loaded: Snapshot)
    | Inspect(loaded: Snapshot)

  datatype Proc =
    | Down(gaveUp: bool)
    | Serving(mem: Snapshot)
    | Publishing(mem: Snapshot, bytes: Bytes, meta: Metadata, at: PublishStage)
    | Starting(clean: bool, stage: StartStage)

  datatype State = State(disk: Disk, proc: Proc)

  datatype Label = Submit(bytes: Bytes, now: int) | Advance | Fail | Crash | Start

  const Initial := State(EmptyDisk, Down(false))

  ghost function Step(env: Env, s: State, l: Label): State {
    match s.proc
    case Down(_) => if l.Start? then s.(proc := Starting(true, ReadLkg)) else s
    case Serving(mem) =>
      if l.Crash? then s.(proc := Down(false))
      else if l.Submit? && Accepts(env, l.bytes) then
        s.(proc := Publishing(mem, l.bytes, MetadataFor(env, mem.version + 1, l.bytes, l.now), WriteArtifact))
      else s
    case Publishing(_, _, _, _) =>
      if l.Crash? then s.(proc := Down(false))
      else if l.Advance? || l.Fail? then PublishStep(s, l.Advance?) else s
    case Starting(_, _) =>
      if l.Crash? then s.(proc := Down(false))
      else if l.Advance? || l.Fail? then StartStep(env, s, l.Advance?) else s
  }

  /** One storage step of `publish_bytes`; `ok` says whether the I/O succeeds. A failed history
      write aborts; a failed promotion first tries to remove the history entry; a failed
      `state.json` is only logged. */
  function PublishStep(s: State, ok: bool): State
    requires s.proc.Publishing?
  {
    var d, p, v := s.disk, s.proc, s.proc.meta.version;
    match p.at
    case WriteArtifact => if ok then Goto(d.(artifacts := d.artifacts[v := p.bytes]), p, WriteMetadata) else Abort(s)
    case WriteMetadata => if ok then Goto(d.(metadata := d.metadata[v := p.meta]), p, SyncHistory) else Abort(s)
    case SyncHistory => if ok then Goto(d, p, PromoteArtifact) else Abort(s)
    case PromoteArtifact =>
      if ok then Goto(d.(lkgArtifact := Some(p.bytes)), p, PromoteMetadata) else Goto(d, p, UndoArtifact)
    case PromoteMetadata =>
      if ok then Goto(d.(lkgMetadata := Some(p.meta)), p, SyncLkg) else Goto(d, p, UndoArtifact)
    case SyncLkg => Goto(d, p, if ok then SaveState else UndoArtifact)
    case SaveState => Goto(if ok then d.(state := Some(v)) else d, p, Commit)
    case Commit => s.(proc := Serving(if v <= p.mem.version then p.mem else Snapshot(v, p.bytes)))
    case UndoArtifact => Goto(if ok then d.(artifacts := d.artifacts - {v}) else d, p, UndoMetadata)
    case UndoMetadata => Abort(s.(disk := if ok then d.(metadata := d.metadata - {v}) else d))
  }

  function Goto(d: Disk, p: Proc, at: PublishStage): State
    requires p.Publishing?
  {
    State(d, p.(at := at))
  }

  function Abort(s: State): State
    requires s.proc.Publishing?
  {
    s.(proc := Serving(s.proc.mem))
  }

  /** One storage step of `repair_lkg` or `init_state`. `ReadEntry` reads the two files of a history entry;
      `FindArtifact` resolves the path `DropArtifact` removes, whose failure is ignored; `LoadLkg` also
      reads `state.json`; `Inspect` comes with the two scans of the history directory. */
  ghost function StartStep(env: Env, s: State, ok: bool): State
    requires s.proc.Starting?
  {
    var d, clean := s.disk, s.proc.clean && ok;
    match s.proc.stage
    case ReadLkg =>
      if !ok then GiveUp(s)
      else if d.lkgArtifact.None? && d.lkgMetadata.Some? then
        At(d, clean, ReadEntry(OnlyMetadata, d.lkgMetadata.value.version))
      else if d.lkgArtifact.Some? && d.lkgMetadata.None? then At(d, clean, ListHistory)
      else At(d, clean, LoadLkg)
    case ListHistory =>
      if !ok then GiveUp(s)
      else if Listed(d) == {} then At(d, clean, FindArtifact)
      else At(d, clean, ReadEntry(OnlyArtifact, MaxVersion(Listed(d))))
    case ReadEntry(f, v) =>
      if ok && v in Listed(d) then At(d, clean, RecoverArtifact(f, d.artifacts[v], d.metadata[v]))
      else RecoveryFailed(s, f)
    case RecoverArtifact(f, b, m) =>
      if ok then At(d.(lkgArtifact := Some(b)), clean, RecoverMetadata(f, b, m)) else RecoveryFailed(s, f)
    case RecoverMetadata(f, b, m) =>
      if ok then At(d.(lkgMetadata := Some(m)), clean, SyncRecovered(f)) else RecoveryFailed(s, f)
    case SyncRecovered(f) => if ok then At(d, clean, LoadLkg) else RecoveryFailed(s, f)
    case FindArtifact => if ok then At(d, clean, DropArtifact) else GiveUp(s)
    case DropArtifact => At(if ok then d.(lkgArtifact := None) else d, clean, LoadLkg)
    case LoadLkg =>
      (match (d.lkgArtifact, d.lkgMetadata)
       case (None, None) => Loaded(s, ok, Snapshot(0, []))
       case (Some(b), Some(m)) => if Fits(env, b) then Loaded(s, ok, Snapshot(m.version, b)) else GiveUp(s)
       case (_, _) => GiveUp(s))
    case WriteState(mem) => if ok then At(d.(state := Some(mem.version)), clean, Inspect(mem)) else GiveUp(s)
    case Inspect(mem) =>
      if ok && (mem.bytes == [] || env.framed(mem.bytes)) then s.(proc := Serving(mem)) else GiveUp(s)
  }

  function At(d: Disk, clean: bool, stage: StartStage): State { State(d, Starting(clean, stage)) }

  function GiveUp(s: State): State { s.(proc := Down(true)) }

  /** `repair_lkg` on an artifact without metadata falls back to removing it; otherwise it fails. */
  function RecoveryFailed(s: State, found: Found): State {
    if found.OnlyArtifact? then At(s.disk, false, FindArtifact) else GiveUp(s)
  }

  /** After the LKG is loaded: `state.json` is rewritten only when it disagrees. */
  function Loaded(s: State, ok: bool, mem: Snapshot): State
    requires s.proc.Starting?
  {
    if !ok then GiveUp(s)
    else At(s.disk, s.proc.clean, if s.disk.state == Some(mem.version) then Inspect(mem) else WriteState(mem))
  }

  ghost function RunFrom(env: Env, s: State, labels: seq<Label>): State {
    if labels == [] then s else Step(env, RunFrom(env, s, labels[..|labels| - 1]), labels[|labels| - 1])
  }

  ghost function Run(env: Env, labels: seq<Label>): State { RunFrom(env, Initial, labels) }

  /** The artifacts a run was given and could accept. */
  ghost function Submitted(env: Env, labels: seq<Label>): set<Bytes> {
    set l | l in labels && l.Submit? && Accepts(env, l.bytes) :: l.bytes
  }

  /* ---- the invariant ---- */

  ghost predicate GoodDisk(good: set<Bytes>, d: Disk) {
    && (forall v | v in d.artifacts :: 1 <= v <= DurableVersion(d) + 1 && d.artifacts[v] in good)
    && (forall v | v in d.metadata :: 1 <= v <= DurableVersion(d) + 1 && d.metadata[v].version == v)
    && (d.lkgArtifact.Some? ==> d.lkgArtifact.value in good)
    && (d.lkgMetadata.Some? ==> d.lkgMetadata.value.version >= 1)
    && (d.lkgMetadata.Some? && d.lkgArtifact.None? ==> d.lkgMetadata.value.version in Listed(d))
  }

  /** While serving, the disk is at most one promotion ahead of memory. */
  ghost predicate Ahead(good: set<Bytes>, d: Disk, mem: Snapshot) {
    && (mem.version > 0 ==> mem.bytes in good)
    && (d.lkgMetadata.Some? ==> d.lkgArtifact.Some?)
    && mem.version <= DurableVersion(d) <= mem.version + 1
    && forall v | v in d.artifacts || v in d.metadata :: v <= mem.version + 1
  }

  ghost predicate Loadable(d: Disk, mem: Snapshot) {
    && mem.version == DurableVersion(d)
    && d.lkgMetadata.Some? == d.lkgArtifact.Some?
    && mem.bytes == if d.lkgArtifact.Some? then d.lkgArtifact.value else []
  }

  ghost predicate GoodPublish(good: set<Bytes>, d: Disk, p: Proc)
    requires p.Publishing?
  {
    && Ahead(good, d, p.mem) && p.bytes in good && p.meta.version == p.mem.version + 1
    && (p.at.PromoteMetadata? ==> d.lkgArtifact == Some(p.bytes))
    && (p.at.SyncLkg? || p.at.SaveState? || p.at.Commit? ==>
          d.lkgArtifact == Some(p.bytes) && d.lkgMetadata == Some(p.meta))
  }

  ghost predicate GoodStart(good: set<Bytes>, d: Disk, p: Proc)
    requires p.Starting?
  {
    match p.stage
    case ReadLkg => true
    case ListHistory => d.lkgArtifact.Some? && d.lkgMetadata.None?
    case ReadEntry(f, v) =>
      && v in Listed(d)
      && (f.OnlyArtifact? ==> d.lkgArtifact.Some? && d.lkgMetadata.None?)
      && (f.OnlyMetadata? ==> d.lkgMetadata.Some? && d.lkgMetadata.value.version == v)
    case RecoverArtifact(f, b, m) => GoodRecovery(good, d, f, b, m)
    case RecoverMetadata(f, b, m) => GoodRecovery(good, d, f, b, m) && d.lkgArtifact == Some(b)
    case SyncRecovered(_) =>
      d.lkgArtifact.Some? && d.lkgMetadata.Some? && d.lkgMetadata.value.version in Listed(d)
    case FindArtifact =>
      && (d.lkgMetadata.Some? ==> d.lkgMetadata.value.version in Listed(d))
      && (p.clean ==> d.lkgMetadata.None?)
    case DropArtifact =>
      && (d.lkgMetadata.Some? ==> d.lkgMetadata.value.version in Listed(d))
      && (p.clean ==> d.lkgMetadata.None?)
    case LoadLkg => p.clean ==> d.lkgMetadata.Some? == d.lkgArtifact.Some?
    case WriteState(mem) => Loadable(d, mem)
    case Inspect(mem) => Loadable(d, mem)
  }

  ghost predicate GoodRecovery(good: set<Bytes>, d: Disk, f: Found, b: Bytes, m: Metadata) {
    && b in good && m.version in Listed(d)
    && (f.OnlyArtifact? ==> d.lkgArtifact.Some? && d.lkgMetadata.None?)
    && (f.OnlyMetadata? ==> d.lkgMetadata.Some? && d.lkgMetadata.value.version == m.version)
  }

  ghost predicate Inv(good: set<Bytes>, s: State) {
    && GoodDisk(good, s.disk)
    && match s.proc
       case Down(_) => true
       case Serving(mem) => Ahead(good, s.disk, mem)
       case Publishing(_, _, _, _) => GoodPublish(good, s.disk, s.proc)
       case Starting(_, _) => GoodStart(good, s.disk, s.proc)
  }

  ghost predicate AllAccepted(env: Env, good: set<Bytes>) { forall b | b in good :: Accepts(env, b) }

  ghost predicate PublishStepFine(good: set<Bytes>, s: State, ok: bool)
    requires s.proc.Publishing?
  {
    Inv(good, PublishStep(s, ok)) && DurableVersion(s.disk) <= DurableVersion(PublishStep(s, ok).disk)
  }

  lemma HistoryStepFine(good: set<Bytes>, s: State, ok: bool)
    requires Inv(good, s) && s.proc.Publishing?
    requires s.proc.at.WriteArtifact? || s.proc.at.WriteMetadata? || s.proc.at.SyncHistory?
    ensures PublishStepFine(good, s, ok)
  {
  }

  lemma PromoteStepFine(good: set<Bytes>, s: State, ok: bool)
    requires Inv(good, s) && s.proc.Publishing?
    requires s.proc.at.PromoteArtifact? || s.proc.at.PromoteMetadata? || s.proc.at.SyncLkg?
    ensures PublishStepFine(good, s, ok)
  {
  }

  lemma LastStepFine(good: set<Bytes>, s: State, ok: bool)
    requires Inv(good, s) && s.proc.Publishing?
    requires s.proc.at.SaveState? || s.proc.at.Commit? || s.proc.at.UndoArtifact? || s.proc.at.UndoMetadata?
    ensures PublishStepFine(good, s, ok)
  {
  }

  lemma PublishStepKeepsInv(good: set<Bytes>, s: State, ok: bool)
    requires Inv(good, s) && s.proc.Publishing?
    ensures PublishStepFine(good, s, ok)
  {
    var at := s.proc.at;
    if at.WriteArtifact? || at.WriteMetadata? || at.SyncHistory? { HistoryStepFine(good, s, ok); }
    else if at.PromoteArtifact? || at.PromoteMetadata? || at.SyncLkg? { PromoteStepFine(good, s, ok); }
    else { LastStepFine(good, s, ok); }
  }

  ghost predicate StartStepFine(env: Env, good: set<Bytes>, s: State, ok: bool)
    requires s.proc.Starting?
  {
    var s' := StartStep(env, s, ok);
    && Inv(good, s')
    && DurableVersion(s.disk) <= DurableVersion(s'.disk)
    && (s'.proc == Down(true) ==> !ok || !s.proc.clean)
  }

  lemma ReadStepFine(env: Env, good: set<Bytes>, s: State, ok: bool)
    requires Inv(good, s) && s.proc.Starting?
    requires s.proc.stage.ReadLkg? || s.proc.stage.ListHistory? || s.proc.stage.ReadEntry?
    ensures StartStepFine(env, good, s, ok)
  {
    var d := s.disk;
    if s.proc.stage.ReadEntry? {
      var v := s.proc.stage.version;
      assert d.artifacts[v] in good && d.metadata[v].version == v;
    }
  }

  lemma RecoverStepFine(env: Env, good: set<Bytes>, s: State, ok: bool)
    requires Inv(good, s) && s.proc.Starting?
    requires s.proc.stage.RecoverArtifact? || s.proc.stage.RecoverMetadata? || s.proc.stage.SyncRecovered?
    ensures StartStepFine(env, good, s, ok)
  {
    if s.proc.stage.RecoverMetadata? && s.proc.stage.found.OnlyArtifact? {
      assert DurableVersion(s.disk) == 0;
    }
  }

  lemma LoadStepFine(env: Env, good: set<Bytes>, s: State, ok: bool)
    requires Inv(good, s) && s.proc.Starting? && AllAccepted(env, good)
    requires s.proc.stage.FindArtifact? || s.proc.stage.DropArtifact? || s.proc.stage.LoadLkg?
             || s.proc.stage.WriteState? || s.proc.stage.Inspect?
    ensures StartStepFine(env, good, s, ok)
  {
    if s.disk.lkgArtifact.Some? {
      assert Accepts(env, s.disk.lkgArtifact.value);
    }
  }

  lemma StartStepKeepsInv(env: Env, good: set<Bytes>, s: State, ok: bool)
    requires Inv(good, s) && s.proc.Starting? && AllAccepted(env, good)
    ensures StartStepFine(env, good, s, ok)
  {
    match s.proc.stage
    case ReadLkg => ReadStepFine(env, good, s, ok);
    case ListHistory => ReadStepFine(env, good, s, ok);
    case ReadEntry(_, _) => ReadStepFine(env, good, s, ok);
    case RecoverArtifact(_, _, _) => RecoverStepFine(env, good, s, ok);
    case RecoverMetadata(_, _, _) => RecoverStepFine(env, good, s, ok);
    case SyncRecovered(_) => RecoverStepFine(env, good, s, ok);
    case _ => LoadStepFine(env, good, s, ok);
  }

  /* ---- every run ---- */

  lemma StepKeepsInv(env: Env, good: set<Bytes>, s: State, l: Label)
    requires Inv(good, s) && AllAccepted(env, good)
    requires l.Submit? && Accepts(env, l.bytes) ==> l.bytes in good
    ensures Inv(good, Step(env, s, l))
    ensures DurableVersion(s.disk) <= DurableVersion(Step(env, s, l).disk)
    ensures Step(env, s, l).proc == Down(true) && l.Advance? ==>
              s.proc == Down(true) || (s.proc.Starting? && !s.proc.clean)
  {
    if (l.Advance? || l.Fail?) && s.proc.Publishing? { PublishStepKeepsInv(good, s, l.Advance?); }
    if (l.Advance? || l.Fail?) && s.proc.Starting? { StartStepKeepsInv(env, good, s, l.Advance?); }
  }

  lemma InvGrows(good: set<Bytes>, more: set<Bytes>, s: State)
    requires Inv(good, s) && good <= more
    ensures Inv(more, s)
  {
  }

  /** The invariant holds after every run, for the artifacts that were actually submitted. */
  lemma {:induction false} RunKeepsInv(env: Env, labels: seq<Label>)
    ensures Inv(Submitted(env, labels), Run(env, labels)) && AllAccepted(env, Submitted(env, labels))
  {
    if labels != [] {
      var front, last := labels[..|labels| - 1], labels[|labels| - 1];
      RunKeepsInv(env, front);
      InvGrows(Submitted(env, front), Submitted(env, labels), Run(env, front));
      StepKeepsInv(env, Submitted(env, labels), Run(env, front), last);
    }
  }

  lemma {:induction false} RunAppend(env: Env, s: State, first: seq<Label>, then': seq<Label>)
    ensures RunFrom(env, s, first + then') == RunFrom(env, RunFrom(env, s, first), then')
  {
    if then' == [] {
      assert first + then' == first;
    } else {
      var n := |then'| - 1;
      RunAppend(env, s, first, then'[..n]);
      assert (first + then')[..|first + then'| - 1] == first + then'[..n];
    }
  }

  /** The durable version never decreases, whatever fails or crashes in between. */
  lemma {:induction false} DurableVersionNeverDecreases(env: Env, labels: seq<Label>, more: seq<Label>)
    ensures DurableVersion(Run(env, labels).disk) <= DurableVersion(Run(env, labels + more).disk)
  {
    if more == [] {
      assert labels + more == labels;
    } else {
      var n := |more| - 1;
      DurableVersionNeverDecreases(env, labels, more[..n]);
      var all := labels + more;
      assert all[..|all| - 1] == labels + more[..n];
      RunKeepsInv(env, labels + more[..n]);
      InvGrows(Submitted(env, labels + more[..n]), Submitted(env, all), Run(env, labels + more[..n]));
      RunKeepsInv(env, all);
      StepKeepsInv(env, Submitted(env, all), Run(env, labels + more[..n]), more[n]);
    }
  }

  /** The version a process serves, or the one a start would load. */
  function ServedVersion(s: State): nat {
    match s.proc
    case Serving(mem) => mem.version
    case Publishing(mem, _, _, _) => mem.version
    case _ => DurableVersion(s.disk)
  }

  lemma StepKeepsServedVersion(env: Env, good: set<Bytes>, s: State, l: Label)
    requires Inv(good, s) && AllAccepted(env, good)
    requires l.Submit? && Accepts(env, l.bytes) ==> l.bytes in good
    ensures ServedVersion(s) <= ServedVersion(Step(env, s, l))
  {
    StepKeepsInv(env, good, s, l);
  }

  /** The version served at any point of a run is never above one served later, restarts included. */
  lemma {:induction false} ServedVersionNeverDecreases(env: Env, labels: seq<Label>, more: seq<Label>)
    ensures ServedVersion(Run(env, labels)) <= ServedVersion(Run(env, labels + more))
  {
    if more == [] {
      assert labels + more == labels;
    } else {
      var n := |more| - 1;
      ServedVersionNeverDecreases(env, labels, more[..n]);
      var all, front := labels + more, labels + more[..n];
      assert all[..|all| - 1] == front;
      RunKeepsInv(env, front);
      InvGrows(Submitted(env, front), Submitted(env, all), Run(env, front));
      RunKeepsInv(env, all);
      StepKeepsServedVersion(env, Submitted(env, all), Run(env, front), more[n]);
    }
  }

  /** A storage step of the startup now under way has failed. */
  ghost predicate FailedInThisStart(env: Env, labels: seq<Label>) {
    exists i :: 0 <= i < |labels| && labels[i].Fail? && StartingFrom(env, labels, i)
  }

  /** The process has been starting ever since before step `i`. */
  ghost predicate StartingFrom(env: Env, labels: seq<Label>, i: nat) {
    forall j :: i <= j <= |labels| ==> Run(env, labels[..j]).proc.Starting?
  }

  lemma StartingFromSnoc(env: Env, labels: seq<Label>, i: nat)
    requires labels != [] && i < |labels| && Run(env, labels).proc.Starting?
    ensures i < |labels| - 1 && StartingFrom(env, labels[..|labels| - 1], i) ==> StartingFrom(env, labels, i)
  {
    var n := |labels| - 1;
    assert labels[..|labels|] == labels;
    forall j | i <= j <= n ensures labels[..n][..j] == labels[..j] { }
  }

  lemma CleanUntilFailure(env: Env, good: set<Bytes>, s: State, l: Label)
    requires Inv(good, s) && s.proc.Starting? && s.proc.clean
    requires Step(env, s, l).proc.Starting? && !Step(env, s, l).proc.clean
    ensures l.Fail?
  {
  }

  /** A startup that is no longer clean has had a step fail. */
  lemma {:induction false} UncleanHasFailed(env: Env, labels: seq<Label>)
    requires Run(env, labels).proc.Starting? && !Run(env, labels).proc.clean
    ensures FailedInThisStart(env, labels)
  {
    if labels != [] {
      var n := |labels| - 1;
      var s, l := Run(env, labels[..n]), labels[n];
      assert s.proc.Starting?;
      assert labels[..|labels|] == labels;
      if !s.proc.clean {
        UncleanHasFailed(env, labels[..n]);
        var i :| 0 <= i < n && labels[..n][i].Fail? && StartingFrom(env, labels[..n], i);
        StartingFromSnoc(env, labels, i);
        assert labels[i].Fail?;
      } else {
        RunKeepsInv(env, labels[..n]);
        CleanUntilFailure(env, Submitted(env, labels[..n]), s, l);
        assert StartingFrom(env, labels, n);
      }
    }
  }

  /** A startup gives up only after an I/O error of its own: what earlier publishes, failures and
      crashes left on disk is never the reason. */
  lemma StartupGivesUpOnlyOnIoError(env: Env, labels: seq<Label>, l: Label)
    requires Run(env, labels).proc.Starting? && Run(env, labels + [l]).proc == Down(true)
    ensures l.Fail? || FailedInThisStart(env, labels)
  {
    var all := labels + [l];
    assert all[..|labels|] == labels && all[|labels|] == l;
    RunKeepsInv(env, labels);
    RunKeepsInv(env, all);
    InvGrows(Submitted(env, labels), Submitted(env, all), Run(env, labels));
    StepKeepsInv(env, Submitted(env, all), Run(env, labels), l);
    if !l.Fail? { UncleanHasFailed(env, labels); }
  }

  /** What is served, and what the LKG file holds, is always an artifact somebody published that
      passed verification and the size limit. */
  lemma ServedArtifactsWerePublished(env: Env, labels: seq<Label>)
    ensures var s := Run(env, labels);
      && (s.proc.Serving? && s.proc.mem.version > 0 ==>
            Accepts(env, s.proc.mem.bytes) && exists now :: Submit(s.proc.mem.bytes, now) in labels)
      && (s.disk.lkgArtifact.Some? ==>
            Accepts(env, s.disk.lkgArtifact.value) && exists now :: Submit(s.disk.lkgArtifact.value, now) in labels)
  {
    RunKeepsInv(env, labels);
    forall b | b in Submitted(env, labels) ensures exists now :: Submit(b, now) in labels {
      var l :| l in labels && l.Submit? && Accepts(env, l.bytes) && l.bytes == b;
      assert Submit(b, l.now) in labels;
    }
  }

  /* ---- what a failed step of a startup does ---- */

  /** A failing storage step ends a startup, except while a lone artifact is being replaced, where the
      replacement is given up, and except the removal of such an artifact, which is ignored. */
  lemma GivesUpExactlyWhen(env: Env, s: State)
    requires s.proc.Starting?
    ensures var stage := s.proc.stage;
      var replacing := || (stage.ReadEntry? && stage.found.OnlyArtifact?)
                       || (stage.RecoverArtifact? && stage.found.OnlyArtifact?)
                       || (stage.RecoverMetadata? && stage.found.OnlyArtifact?)
                       || (stage.SyncRecovered? && stage.found.OnlyArtifact?);
      && (Step(env, s, Fail).proc == Down(true) <==> !replacing && !stage.DropArtifact?)
      && (replacing ==> Step(env, s, Fail) == State(s.disk, Starting(false, FindArtifact)))
      && (stage.DropArtifact? ==> Step(env, s, Fail) == State(s.disk, Starting(false, LoadLkg)))
      && Step(env, s, Fail).disk == s.disk
  {
  }

  /* ---- metadata and the artifact it was written for ---- */

  /** The artifact each metadata file was written for. */
  datatype Origins = Origins(history: map<nat, Bytes>, lkg: Option<Bytes>)

  function Trace(s: State, l: Label, o: Origins): Origins {
    if !l.Advance? then o
    else
      match s.proc
      case Publishing(_, bytes, meta, at) =>
        (match at
         case WriteMetadata => o.(history := o.history[meta.version := bytes])
         case PromoteMetadata => o.(lkg := Some(bytes))
         case UndoMetadata => o.(history := o.history - {meta.version})
         case _ => o)
      case Starting(_, stage) =>
        if stage.RecoverMetadata? && stage.meta.version in o.history
        then o.(lkg := Some(o.history[stage.meta.version])) else o
      case _ => o
  }

  ghost function OriginsOf(env: Env, labels: seq<Label>): Origins {
    if labels == [] then Origins(map[], None)
    else
      var n := |labels| - 1;
      Trace(Run(env, labels[..n]), labels[n], OriginsOf(env, labels[..n]))
  }

  /** Metadata states the checksum and the size of an artifact. */
  predicate Describes(env: Env, m: Metadata, b: Bytes) { m.checksum == env.checksum(b) && m.size == |b| }

  ghost predicate OriginsInv(env: Env, good: set<Bytes>, s: State, o: Origins) {
    && o.history.Keys == s.disk.metadata.Keys
    && (forall v | v in o.history :: o.history[v] in good && Describes(env, s.disk.metadata[v], o.history[v]))
    && o.lkg.Some? == s.disk.lkgMetadata.Some?
    && (o.lkg.Some? ==> o.lkg.value in good && Describes(env, s.disk.lkgMetadata.value, o.lkg.value))
    && (s.proc.Publishing? ==> s.proc.bytes in good && Describes(env, s.proc.meta, s.proc.bytes))
    && (s.proc.Starting? && s.proc.stage.RecoverArtifact? ==> FromHistory(s.disk, s.proc.stage.meta))
    && (s.proc.Starting? && s.proc.stage.RecoverMetadata? ==> FromHistory(s.disk, s.proc.stage.meta))
  }

  ghost predicate FromHistory(d: Disk, m: Metadata) { m.version in d.metadata && d.metadata[m.version] == m }

  lemma HistoryKeepsOrigins(env: Env, good: set<Bytes>, s: State, l: Label, o: Origins)
    requires OriginsInv(env, good, s, o) && s.proc.Publishing?
    requires s.proc.at.WriteMetadata? || s.proc.at.UndoMetadata?
    ensures OriginsInv(env, good, Step(env, s, l), Trace(s, l, o))
  {
  }

  lemma PromotionKeepsOrigins(env: Env, good: set<Bytes>, s: State, l: Label, o: Origins)
    requires OriginsInv(env, good, s, o) && s.proc.Publishing? && !s.proc.at.WriteMetadata? && !s.proc.at.UndoMetadata?
    ensures OriginsInv(env, good, Step(env, s, l), Trace(s, l, o))
  {
  }

  lemma ReadingKeepsOrigins(env: Env, good: set<Bytes>, s: State, l: Label, o: Origins)
    requires Inv(good, s) && OriginsInv(env, good, s, o) && s.proc.Starting?
    requires s.proc.stage.ReadLkg? || s.proc.stage.ListHistory? || s.proc.stage.ReadEntry?
    ensures OriginsInv(env, good, Step(env, s, l), Trace(s, l, o))
  {
  }

  lemma RecoveryKeepsOrigins(env: Env, good: set<Bytes>, s: State, l: Label, o: Origins)
    requires OriginsInv(env, good, s, o) && s.proc.Starting?
    requires s.proc.stage.RecoverArtifact? || s.proc.stage.RecoverMetadata? || s.proc.stage.SyncRecovered?
    ensures OriginsInv(env, good, Step(env, s, l), Trace(s, l, o))
  {
  }

  lemma LoadingKeepsOrigins(env: Env, good: set<Bytes>, s: State, l: Label, o: Origins)
    requires OriginsInv(env, good, s, o) && s.proc.Starting?
    requires s.proc.stage.FindArtifact? || s.proc.stage.DropArtifact? || s.proc.stage.LoadLkg?
             || s.proc.stage.WriteState? || s.proc.stage.Inspect?
    ensures OriginsInv(env, good, Step(env, s, l), Trace(s, l, o))
  {
  }

  lemma StartKeepsOrigins(env: Env, good: set<Bytes>, s: State, l: Label, o: Origins)
    requires Inv(good, s) && OriginsInv(env, good, s, o) && s.proc.Starting?
    ensures OriginsInv(env, good, Step(env, s, l), Trace(s, l, o))
  {
    var stage := s.proc.stage;
    if stage.ReadLkg? || stage.ListHistory? || stage.ReadEntry? { ReadingKeepsOrigins(env, good, s, l, o); }
    else if stage.RecoverArtifact? || stage.RecoverMetadata? || stage.SyncRecovered? {
      RecoveryKeepsOrigins(env, good, s, l, o);
    } else { LoadingKeepsOrigins(env, good, s, l, o); }
  }

  lemma StepKeepsOrigins(env: Env, good: set<Bytes>, s: State, l: Label, o: Origins)
    requires Inv(good, s) && OriginsInv(env, good, s, o)
    requires l.Submit? && Accepts(env, l.bytes) ==> l.bytes in good
    ensures OriginsInv(env, good, Step(env, s, l), Trace(s, l, o))
  {
    match s.proc
    case Publishing(_, _, _, at) =>
      if at.WriteMetadata? || at.UndoMetadata? { HistoryKeepsOrigins(env, good, s, l, o); }
      else { PromotionKeepsOrigins(env, good, s, l, o); }
    case Starting(_, _) => StartKeepsOrigins(env, good, s, l, o);
    case _ =>
  }

  lemma OriginsGrow(env: Env, good: set<Bytes>, more: set<Bytes>, s: State, o: Origins)
    requires OriginsInv(env, good, s, o) && good <= more
    ensures OriginsInv(env, more, s, o)
  {
  }

  lemma {:induction false} RunKeepsOrigins(env: Env, labels: seq<Label>)
    ensures OriginsInv(env, Submitted(env, labels), Run(env, labels), OriginsOf(env, labels))
  {
    if labels != [] {
      var front, last := labels[..|labels| - 1], labels[|labels| - 1];
      RunKeepsOrigins(env, front);
      RunKeepsInv(env, front);
      OriginsGrow(env, Submitted(env, front), Submitted(env, labels), Run(env, front), OriginsOf(env, front));
      InvGrows(Submitted(env, front), Submitted(env, labels), Run(env, front));
      StepKeepsOrigins(env, Submitted(env, labels), Run(env, front), last, OriginsOf(env, front));
    }
  }

  /** Two artifacts that metadata cannot tell apart. */
  predicate SameLabel(env: Env, a: Bytes, b: Bytes) { env.checksum(a) == env.checksum(b) && |a| == |b| }

  /** Over every run, every metadata file on disk states the checksum and size of a submitted artifact: the
      one it was written for. So it describes the artifact file beside it if and only if that file holds
      the artifact it was written for, up to equal checksum and size. */
  lemma MetadataDescribesExactlyWhen(env: Env, labels: seq<Label>)
    ensures var d, o := Run(env, labels).disk, OriginsOf(env, labels);
      && (forall v | v in d.metadata :: v in o.history && o.history[v] in Submitted(env, labels)
            && d.metadata[v].checksum == env.checksum(o.history[v]) && d.metadata[v].size == |o.history[v]|)
      && (forall v | v in Listed(d) :: v in o.history
            && (Describes(env, d.metadata[v], d.artifacts[v]) <==> SameLabel(env, d.artifacts[v], o.history[v])))
      && (d.lkgMetadata.Some? ==>
            && o.lkg.Some? && o.lkg.value in Submitted(env, labels)
            && d.lkgMetadata.value.checksum == env.checksum(o.lkg.value)
            && d.lkgMetadata.value.size == |o.lkg.value|)
      && (d.lkgMetadata.Some? && d.lkgArtifact.Some? ==>
            && o.lkg.Some?
            && (Describes(env, d.lkgMetadata.value, d.lkgArtifact.value) <==>
                SameLabel(env, d.lkgArtifact.value, o.lkg.value)))
  {
    RunKeepsOrigins(env, labels);
  }
}
