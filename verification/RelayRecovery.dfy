/** Whole operations of the storage machine: a startup or a publish run to its end, and what a crash
    in the middle of a publish turns into at the next startup. */
module RelayRecovery {
  import opened Common
  import opened RelayStorage

  predicate Busy(p: Proc) { p.Publishing? || p.Starting? }

  function Remaining(p: Proc): nat {
    match p
    case Publishing(_, _, _, at) =>
      (match at
       case WriteArtifact => 9 case WriteMetadata => 8 case SyncHistory => 7
       case PromoteArtifact => 6 case PromoteMetadata => 5 case SyncLkg => 4
       case SaveState => 3 case Commit => 2 case UndoArtifact => 2 case UndoMetadata => 1)
    case Starting(_, stage) =>
      (match stage
       case ReadLkg => 11 case ListHistory => 10 case ReadEntry(_, _) => 9
       case RecoverArtifact(_, _, _) => 8 case RecoverMetadata(_, _, _) => 7 case SyncRecovered(_) => 6
       case FindArtifact => 5 case DropArtifact => 4
       case LoadLkg => 3 case WriteState(_) => 2 case Inspect(_) => 1)
    case _ => 0
  }

  /** Which storage steps succeed. Each stage is met at most once per operation. */
  type Io = Proc -> bool

  ghost function Next(env: Env, s: State, io: Io): State { Step(env, s, if io(s.proc) then Advance else Fail) }

  /** Run the operation under way to its end. */
  ghost function Settle(env: Env, s: State, io: Io): (r: State)
    ensures !Busy(r.proc)
    decreases Remaining(s.proc)
  {
    if Busy(s.proc) then Settle(env, Next(env, s, io), io) else s
  }

  const AllFine: Io := _ => true

  lemma NextDecreases(env: Env, s: State, io: Io)
    requires Busy(s.proc)
    ensures Remaining(Next(env, s, io).proc) < Remaining(s.proc)
  {
  }

  lemma OneLabel(env: Env, s: State, l: Label)
    ensures RunFrom(env, s, [l]) == Step(env, s, l)
  {
    assert [l][..0] == [];
    assert RunFrom(env, s, []) == s;
  }

  /** A settled operation is a run of the machine, so everything proved of runs holds of it. */
  lemma {:induction false} SettleIsARun(env: Env, s: State, io: Io) returns (labels: seq<Label>)
    ensures RunFrom(env, s, labels) == Settle(env, s, io)
    ensures forall l | l in labels :: l.Advance? || l.Fail?
    decreases Remaining(s.proc)
  {
    labels := [];
    if Busy(s.proc) {
      var l := if io(s.proc) then Advance else Fail;
      NextDecreases(env, s, io);
      var rest := SettleIsARun(env, Next(env, s, io), io);
      Unfold(env, s, io);
      RunAppend(env, s, [l], rest);
      OneLabel(env, s, l);
      labels := [l] + rest;
    }
  }

  /* ---- startup ---- */

  ghost function Restart(env: Env, d: Disk): State {
    Settle(env, State(d, Starting(true, ReadLkg)), AllFine)
  }

  ghost predicate Restored(s: State) {
    s.proc.Serving? && Loadable(s.disk, s.proc.mem) && s.disk.state == Some(s.proc.mem.version)
  }

  ghost predicate CleanStart(good: set<Bytes>, s: State) {
    || (Inv(good, s) && Restored(s))
    || (Inv(good, s) && s.proc.Starting? && s.proc.clean
        && (s.proc.stage.Inspect? ==> s.disk.state == Some(s.proc.stage.loaded.version)))
  }

  lemma CleanStartStep(env: Env, good: set<Bytes>, s: State)
    requires CleanStart(good, s) && s.proc.Starting? && AllAccepted(env, good)
    ensures CleanStart(good, Next(env, s, AllFine))
  {
    StepKeepsInv(env, good, s, Advance);
  }

  lemma {:induction false} CleanStartServes(env: Env, good: set<Bytes>, s: State)
    requires CleanStart(good, s) && AllAccepted(env, good)
    ensures Inv(good, Settle(env, s, AllFine)) && Restored(Settle(env, s, AllFine))
    decreases Remaining(s.proc)
  {
    if Busy(s.proc) {
      CleanStartStep(env, good, s);
      CleanStartServes(env, good, Next(env, s, AllFine));
    }
  }

  /** From whatever a run left behind, a startup without I/O errors ends up serving: the LKG files
      are both present or both absent, memory holds exactly them, and `state.json` agrees. */
  lemma RestartServes(env: Env, labels: seq<Label>)
    ensures Restored(Restart(env, Run(env, labels).disk))
  {
    RunKeepsInv(env, labels);
    CleanStartServes(env, Submitted(env, labels), State(Run(env, labels).disk, Starting(true, ReadLkg)));
  }

  /* What startup makes of each combination of LKG files. */

  lemma RestartOfPair(env: Env, d: Disk)
    requires d.lkgArtifact.Some? && d.lkgMetadata.Some? && Accepts(env, d.lkgArtifact.value)
    ensures var mem := Snapshot(d.lkgMetadata.value.version, d.lkgArtifact.value);
      Restart(env, d) == State(d.(state := Some(mem.version)), Serving(mem))
  {
    var s0 := State(d, Starting(true, ReadLkg));
    var s1 := Next(env, s0, AllFine);
    var s2 := Next(env, s1, AllFine);
    var s3 := Next(env, s2, AllFine);
    assert s1.proc == Starting(true, LoadLkg);
    assert Settle(env, s0, AllFine) == Settle(env, s1, AllFine) == Settle(env, s2, AllFine) == Settle(env, s3, AllFine);
    if d.state != Some(d.lkgMetadata.value.version) {
      assert Settle(env, s3, AllFine) == Next(env, s3, AllFine);
    }
  }

  lemma RestartOfEmptyLkg(env: Env, d: Disk)
    requires d.lkgArtifact.None? && d.lkgMetadata.None?
    ensures Restart(env, d) == State(d.(state := Some(0)), Serving(Snapshot(0, [])))
  {
    var s0 := State(d, Starting(true, ReadLkg));
    var s1 := Next(env, s0, AllFine);
    var s2 := Next(env, s1, AllFine);
    var s3 := Next(env, s2, AllFine);
    assert s1.proc == Starting(true, LoadLkg);
    assert Settle(env, s0, AllFine) == Settle(env, s1, AllFine) == Settle(env, s2, AllFine) == Settle(env, s3, AllFine);
    if d.state != Some(0) {
      assert Settle(env, s3, AllFine) == Next(env, s3, AllFine);
    }
  }

  lemma RestartOfLoneArtifact(env: Env, d: Disk, v: nat)
    requires d.lkgArtifact.Some? && d.lkgMetadata.None? && IsMax(Listed(d), v) && Accepts(env, d.artifacts[v])
    ensures var d' := d.(lkgArtifact := Some(d.artifacts[v]), lkgMetadata := Some(d.metadata[v]));
      Restart(env, d) == Restart(env, d')
  {
    var b, m := d.artifacts[v], d.metadata[v];
    var d1 := d.(lkgArtifact := Some(b));
    var d2 := d1.(lkgMetadata := Some(m));
    assert MaxVersion(Listed(d)) == v;
    StartSteps(env, At(d, true, ReadLkg), At(d, true, ListHistory));
    StartSteps(env, At(d, true, ListHistory), At(d, true, ReadEntry(OnlyArtifact, v)));
    StartSteps(env, At(d, true, ReadEntry(OnlyArtifact, v)), At(d, true, RecoverArtifact(OnlyArtifact, b, m)));
    var recoverArtifact, recoverMetadata := RecoverArtifact(OnlyArtifact, b, m), RecoverMetadata(OnlyArtifact, b, m);
    StartSteps(env, At(d, true, recoverArtifact), At(d1, true, recoverMetadata));
    StartSteps(env, At(d1, true, RecoverMetadata(OnlyArtifact, b, m)), At(d2, true, SyncRecovered(OnlyArtifact)));
    StartSteps(env, At(d2, true, SyncRecovered(OnlyArtifact)), At(d2, true, LoadLkg));
    StartSteps(env, At(d2, true, ReadLkg), At(d2, true, LoadLkg));
  }

  /** LKG metadata without its artifact: both files are taken from the history entry it names. */
  lemma RestartOfLoneMetadata(env: Env, d: Disk, v: nat)
    requires d.lkgArtifact.None? && d.lkgMetadata.Some? && d.lkgMetadata.value.version == v
    requires v in Listed(d) && Accepts(env, d.artifacts[v])
    ensures var d' := d.(lkgArtifact := Some(d.artifacts[v]), lkgMetadata := Some(d.metadata[v]));
      Restart(env, d) == Restart(env, d')
  {
    var b, m := d.artifacts[v], d.metadata[v];
    var d1 := d.(lkgArtifact := Some(b));
    var d2 := d1.(lkgMetadata := Some(m));
    StartSteps(env, At(d, true, ReadLkg), At(d, true, ReadEntry(OnlyMetadata, v)));
    StartSteps(env, At(d, true, ReadEntry(OnlyMetadata, v)), At(d, true, RecoverArtifact(OnlyMetadata, b, m)));
    var recoverArtifact, recoverMetadata := RecoverArtifact(OnlyMetadata, b, m), RecoverMetadata(OnlyMetadata, b, m);
    StartSteps(env, At(d, true, recoverArtifact), At(d1, true, recoverMetadata));
    StartSteps(env, At(d1, true, recoverMetadata), At(d2, true, SyncRecovered(OnlyMetadata)));
    StartSteps(env, At(d2, true, SyncRecovered(OnlyMetadata)), At(d2, true, LoadLkg));
    StartSteps(env, At(d2, true, ReadLkg), At(d2, true, LoadLkg));
  }

  /** ... and without that entry the startup gives up. */
  lemma RestartOfLostMetadata(env: Env, d: Disk)
    requires d.lkgArtifact.None? && d.lkgMetadata.Some? && d.lkgMetadata.value.version !in Listed(d)
    ensures Restart(env, d) == State(d, Down(true))
  {
    var v := d.lkgMetadata.value.version;
    StartSteps(env, At(d, true, ReadLkg), At(d, true, ReadEntry(OnlyMetadata, v)));
    StartSteps(env, At(d, true, ReadEntry(OnlyMetadata, v)), State(d, Down(true)));
  }

  /** Without a complete history entry a lone artifact is removed. */
  lemma RestartOfStrayArtifact(env: Env, d: Disk)
    requires d.lkgArtifact.Some? && d.lkgMetadata.None? && Listed(d) == {}
    ensures Restart(env, d) == Restart(env, d.(lkgArtifact := None))
  {
    var d1 := d.(lkgArtifact := None);
    StartSteps(env, At(d, true, ReadLkg), At(d, true, ListHistory));
    StartSteps(env, At(d, true, ListHistory), At(d, true, FindArtifact));
    StartSteps(env, At(d, true, FindArtifact), At(d, true, DropArtifact));
    StartSteps(env, At(d, true, DropArtifact), At(d1, true, LoadLkg));
    StartSteps(env, At(d1, true, ReadLkg), At(d1, true, LoadLkg));
  }

  lemma StartSteps(env: Env, s: State, t: State)
    requires s.proc.Starting? && StartStep(env, s, true) == t
    ensures Settle(env, s, AllFine) == Settle(env, t, AllFine)
  {
    assert Next(env, s, AllFine) == t;
  }

  /* ---- one publish, cut short by a crash ---- */

  const PUBLISH_STEPS := 8

  function StageAfter(k: nat): PublishStage
    requires k < PUBLISH_STEPS
  {
    [WriteArtifact, WriteMetadata, SyncHistory, PromoteArtifact, PromoteMetadata, SyncLkg, SaveState, Commit][k]
  }

  /** The disk after the first `k` steps of publishing `bytes`. */
  function PartialPublish(d: Disk, bytes: Bytes, meta: Metadata, k: nat): Disk {
    Disk(
      if k >= 1 then d.artifacts[meta.version := bytes] else d.artifacts,
      if k >= 2 then d.metadata[meta.version := meta] else d.metadata,
      if k >= 4 then Some(bytes) else d.lkgArtifact,
      if k >= 5 then Some(meta) else d.lkgMetadata,
      if k >= 7 then Some(meta.version) else d.state)
  }

  ghost function Advanced(env: Env, s: State, k: nat): State {
    if k == 0 then s else Step(env, Advanced(env, s, k - 1), Advance)
  }

  lemma {:induction false} PublishPrefix(env: Env, d: Disk, mem: Snapshot, bytes: Bytes, now: int, k: nat)
    requires Accepts(env, bytes) && k < PUBLISH_STEPS
    ensures var meta := MetadataFor(env, mem.version + 1, bytes, now);
      Advanced(env, Step(env, State(d, Serving(mem)), Submit(bytes, now)), k)
      == State(PartialPublish(d, bytes, meta, k), Publishing(mem, bytes, meta, StageAfter(k)))
  {
    if k > 0 {
      PublishPrefix(env, d, mem, bytes, now, k - 1);
    }
  }

  /** Memory, LKG and history agree: the state after a publish in which nothing failed. A history
      entry one version ahead, left by an abandoned publish, is allowed. */
  ghost predicate Coherent(env: Env, d: Disk, mem: Snapshot) {
    && (forall v | v in d.artifacts || v in d.metadata :: 1 <= v <= mem.version + 1)
    && (mem.version == 0 ==> mem.bytes == [] && d.lkgArtifact.None? && d.lkgMetadata.None?)
    && (mem.version > 0 ==>
          && Accepts(env, mem.bytes)
          && mem.version in Listed(d)
          && d.artifacts[mem.version] == mem.bytes
          && d.lkgArtifact == Some(mem.bytes)
          && d.lkgMetadata == Some(d.metadata[mem.version])
          && d.metadata[mem.version] == MetadataFor(env, mem.version, mem.bytes, d.metadata[mem.version].publishedAt))
  }

  ghost function CrashThenRestart(env: Env, d: Disk, mem: Snapshot, bytes: Bytes, now: int, k: nat): State {
    Restart(env, Advanced(env, Step(env, State(d, Serving(mem)), Submit(bytes, now)), k).disk)
  }

  lemma OneOrphan(d: Disk, v: nat)
    requires v == DurableVersion(d) + 1 && v in Listed(d) && forall u | u in Listed(d) :: u <= v
    ensures Orphans(d) == {v}
  {
    assert v in Orphans(d);
    forall u | u in Orphans(d) ensures u == v { }
  }

  /** Before the first LKG rename the old LKG is loaded, with the new history entry an orphan once it is
      complete. */
  lemma CrashBeforeRenames(env: Env, d: Disk, mem: Snapshot, bytes: Bytes, now: int, k: nat)
    requires Coherent(env, d, mem) && Accepts(env, bytes) && k <= 3
    ensures var s := CrashThenRestart(env, d, mem, bytes, now, k);
      && s.proc == Serving(mem)
      && s.disk.lkgArtifact == d.lkgArtifact && s.disk.lkgMetadata == d.lkgMetadata
      && (k >= 2 ==> Orphans(s.disk) == {mem.version + 1})
  {
    var meta := MetadataFor(env, mem.version + 1, bytes, now);
    var d' := PartialPublish(d, bytes, meta, k);
    PublishPrefix(env, d, mem, bytes, now, k);
    if mem.version == 0 { RestartOfEmptyLkg(env, d'); } else { RestartOfPair(env, d'); }
    if k >= 2 { OneOrphan(CrashThenRestart(env, d, mem, bytes, now, k).disk, mem.version + 1); }
  }

  /** Between the two LKG renames, over an existing LKG. */
  lemma CrashBetweenRenames(env: Env, d: Disk, mem: Snapshot, bytes: Bytes, now: int)
    requires Coherent(env, d, mem) && Accepts(env, bytes) && mem.version > 0
    ensures var s := CrashThenRestart(env, d, mem, bytes, now, 4);
      && s.proc == Serving(Snapshot(mem.version, bytes))
      && s.disk.lkgMetadata == d.lkgMetadata
      && Orphans(s.disk) == {mem.version + 1}
  {
    var meta := MetadataFor(env, mem.version + 1, bytes, now);
    var d' := PartialPublish(d, bytes, meta, 4);
    PublishPrefix(env, d, mem, bytes, now, 4);
    RestartOfPair(env, d');
    OneOrphan(d'.(state := Some(mem.version)), mem.version + 1);
  }

  /** The disk of a publish whose files are all in place. */
  lemma CompletePublish(env: Env, d: Disk, mem: Snapshot, bytes: Bytes, now: int, d': Disk)
    requires Coherent(env, d, mem) && Accepts(env, bytes)
    requires var meta := MetadataFor(env, mem.version + 1, bytes, now);
      && d'.artifacts == d.artifacts[meta.version := bytes] && d'.metadata == d.metadata[meta.version := meta]
      && d'.lkgArtifact == Some(bytes) && d'.lkgMetadata == Some(meta)
    ensures Coherent(env, d', Snapshot(mem.version + 1, bytes)) && Orphans(d') == {}
  {
    assert mem.version + 1 in Listed(d');
  }

  /** From the second LKG rename on, or from the first over an empty LKG, the new state is loaded. */
  lemma CrashAfterRenames(env: Env, d: Disk, mem: Snapshot, bytes: Bytes, now: int, k: nat)
    requires Coherent(env, d, mem) && Accepts(env, bytes) && k < PUBLISH_STEPS
    requires k >= 5 || (k == 4 && mem.version == 0)
    ensures var s := CrashThenRestart(env, d, mem, bytes, now, k);
      && s.proc == Serving(Snapshot(mem.version + 1, bytes))
      && Coherent(env, s.disk, s.proc.mem) && Orphans(s.disk) == {}
  {
    var v := mem.version + 1;
    var meta := MetadataFor(env, v, bytes, now);
    var d' := PartialPublish(d, bytes, meta, k);
    var full := d'.(lkgArtifact := Some(bytes), lkgMetadata := Some(meta));
    PublishPrefix(env, d, mem, bytes, now, k);
    if k == 4 {
      assert v in Listed(d') && IsMax(Listed(d'), v);
      RestartOfLoneArtifact(env, d', v);
    } else {
      assert full == d';
    }
    RestartOfPair(env, full);
    CompletePublish(env, d, mem, bytes, now, full.(state := Some(v)));
  }

  /** What a crash after `k` steps of a publish restarts as, for every `k`. */
  lemma CrashOutcome(env: Env, d: Disk, mem: Snapshot, bytes: Bytes, now: int, k: nat)
    requires Coherent(env, d, mem) && Accepts(env, bytes) && k < PUBLISH_STEPS
    ensures var s := CrashThenRestart(env, d, mem, bytes, now, k);
      && s.proc.Serving?
      && (k <= 3 ==>
            && s.proc.mem == mem
            && s.disk.lkgArtifact == d.lkgArtifact && s.disk.lkgMetadata == d.lkgMetadata)
      && (2 <= k <= 3 ==> Orphans(s.disk) == {mem.version + 1})
      && (k == 4 && mem.version > 0 ==>
            && s.proc.mem == Snapshot(mem.version, bytes)
            && s.disk.lkgMetadata == d.lkgMetadata
            && Orphans(s.disk) == {mem.version + 1})
      && (k >= 5 || (k == 4 && mem.version == 0) ==>
            && s.proc.mem == Snapshot(mem.version + 1, bytes)
            && Coherent(env, s.disk, s.proc.mem)
            && Orphans(s.disk) == {})
  {
    if k <= 3 { CrashBeforeRenames(env, d, mem, bytes, now, k); }
    else if k == 4 && mem.version > 0 { CrashBetweenRenames(env, d, mem, bytes, now); }
    else { CrashAfterRenames(env, d, mem, bytes, now, k); }
  }

  /** The relay protocol promises that a crash leaves the old or the new LKG. The code keeps that
      promise exactly when the crash does not fall between the two LKG renames over an existing,
      different LKG; there it serves the new bytes under the old version. */
  lemma OldOrNewExactlyOutsideTheLkgWindow(env: Env, d: Disk, mem: Snapshot, bytes: Bytes, now: int, k: nat)
    requires Coherent(env, d, mem) && Accepts(env, bytes) && k < PUBLISH_STEPS
    ensures CrashThenRestart(env, d, mem, bytes, now, k).proc.Serving?
    ensures var now' := CrashThenRestart(env, d, mem, bytes, now, k).proc.mem;
      (now' == mem || now' == Snapshot(mem.version + 1, bytes))
      <==> !(k == 4 && mem.version > 0 && bytes != mem.bytes)
  {
    CrashOutcome(env, d, mem, bytes, now, k);
  }

  /* ---- a publish that runs to its end ---- */

  ghost function Publish(env: Env, d: Disk, mem: Snapshot, bytes: Bytes, now: int, io: Io): State {
    Settle(env, Step(env, State(d, Serving(mem)), Submit(bytes, now)), io)
  }

  lemma {:induction false} AdvancedSettles(env: Env, s: State, k: nat)
    requires forall i | 0 <= i < k :: Busy(Advanced(env, s, i).proc)
    ensures Settle(env, s, AllFine) == Settle(env, Advanced(env, s, k), AllFine)
  {
    if k > 0 {
      AdvancedSettles(env, s, k - 1);
    }
  }

  /** A publish without failures takes any reachable state, mislabelled LKG included, to a coherent
      one at the next version. */
  lemma PublishHeals(env: Env, good: set<Bytes>, d: Disk, mem: Snapshot, bytes: Bytes, now: int)
    requires Inv(good, State(d, Serving(mem))) && Accepts(env, bytes)
    ensures var s := Publish(env, d, mem, bytes, now, AllFine);
      s.proc == Serving(Snapshot(mem.version + 1, bytes)) && Coherent(env, s.disk, s.proc.mem)
  {
    var meta := MetadataFor(env, mem.version + 1, bytes, now);
    var s := Step(env, State(d, Serving(mem)), Submit(bytes, now));
    forall k | 0 <= k < PUBLISH_STEPS ensures Busy(Advanced(env, s, k).proc) {
      PublishPrefix(env, d, mem, bytes, now, k);
    }
    PublishPrefix(env, d, mem, bytes, now, 7);
    AdvancedSettles(env, s, 7);
    var last := Advanced(env, s, 7);
    assert Settle(env, last, AllFine) == Next(env, last, AllFine);
  }

  /** `Settle` of a busy state, one step further. */
  lemma Unfold(env: Env, s: State, io: Io)
    requires Busy(s.proc)
    ensures Settle(env, s, io) == Settle(env, Next(env, s, io), io)
  {
  }

  /** Whether the storage step of this publish at stage `at` succeeds. */
  predicate Done(env: Env, mem: Snapshot, bytes: Bytes, now: int, io: Io, at: PublishStage) {
    io(Publishing(mem, bytes, MetadataFor(env, mem.version + 1, bytes, now), at))
  }

  predicate HistoryWritten(env: Env, mem: Snapshot, bytes: Bytes, now: int, io: Io) {
    && Done(env, mem, bytes, now, io, WriteArtifact)
    && Done(env, mem, bytes, now, io, WriteMetadata)
    && Done(env, mem, bytes, now, io, SyncHistory)
  }

  predicate Promoted(env: Env, mem: Snapshot, bytes: Bytes, now: int, io: Io) {
    && HistoryWritten(env, mem, bytes, now, io)
    && Done(env, mem, bytes, now, io, PromoteArtifact)
    && Done(env, mem, bytes, now, io, PromoteMetadata)
    && Done(env, mem, bytes, now, io, SyncLkg)
  }

  /** The history part of a publish: on to promotion, or aborted with the LKG untouched. */
  lemma PublishHistory(env: Env, d: Disk, mem: Snapshot, bytes: Bytes, now: int, io: Io) returns (s: State)
    requires Accepts(env, bytes)
    ensures Publish(env, d, mem, bytes, now, io) == Settle(env, s, io)
    ensures HistoryWritten(env, mem, bytes, now, io) ==>
      var meta := MetadataFor(env, mem.version + 1, bytes, now);
      s == State(PartialPublish(d, bytes, meta, 3), Publishing(mem, bytes, meta, PromoteArtifact))
    ensures !HistoryWritten(env, mem, bytes, now, io) ==>
      var meta := MetadataFor(env, mem.version + 1, bytes, now);
      var wrote := Done(env, mem, bytes, now, io, WriteArtifact);
      && s.proc == Serving(mem)
      && s.disk == d.(artifacts := if wrote then d.artifacts[meta.version := bytes] else d.artifacts,
                      metadata := if wrote && Done(env, mem, bytes, now, io, WriteMetadata)
                                  then d.metadata[meta.version := meta] else d.metadata)
  {
    s := Step(env, State(d, Serving(mem)), Submit(bytes, now));
    if Busy(s.proc) { Unfold(env, s, io); s := Next(env, s, io); }
    if Busy(s.proc) { Unfold(env, s, io); s := Next(env, s, io); }
    if Busy(s.proc) { Unfold(env, s, io); s := Next(env, s, io); }
  }

  /** The promotion part: the publish commits exactly when every storage step up to the LKG sync
      succeeded, and otherwise memory is untouched, while the LKG files keep what was renamed. */
  lemma PublishPromotion(env: Env, d: Disk, mem: Snapshot, bytes: Bytes, now: int, io: Io)
    requires Accepts(env, bytes)
    requires HistoryWritten(env, mem, bytes, now, io)
    ensures var meta := MetadataFor(env, mem.version + 1, bytes, now);
      var d' := PartialPublish(d, bytes, meta, 3);
      var s := Settle(env, State(d', Publishing(mem, bytes, meta, PromoteArtifact)), io);
      && s.proc == Serving(if Promoted(env, mem, bytes, now, io) then Snapshot(mem.version + 1, bytes) else mem)
      && PromotedFiles(env, d, mem, bytes, now, io, s.disk)
      && HistoryFiles(env, d, mem, bytes, now, io, s.disk)
  {
    var meta := MetadataFor(env, mem.version + 1, bytes, now);
    var start := State(PartialPublish(d, bytes, meta, 3), Publishing(mem, bytes, meta, PromoteArtifact));
    var s := start;
    while Busy(s.proc)
      invariant Settle(env, start, io) == Settle(env, s, io)
      invariant Promoting(env, d, mem, bytes, now, io, s) && Recording(env, d, mem, bytes, now, io, s)
      decreases Remaining(s.proc)
    {
      Unfold(env, s, io);
      PromotingStep(env, d, mem, bytes, now, io, s);
      RecordingStep(env, d, mem, bytes, now, io, s);
      s := Next(env, s, io);
    }
  }

  /** Where a publish past its history writes stands, and what it has made of the LKG. */
  ghost predicate Promoting(env: Env, d: Disk, mem: Snapshot, bytes: Bytes, now: int, io: Io, s: State) {
    match s.proc
    case Publishing(m, b, meta, _) =>
      && m == mem && b == bytes && meta == MetadataFor(env, mem.version + 1, bytes, now)
      && PromotionPoint(env, d, mem, bytes, now, io, s)
    case Serving(m) =>
      && m == (if Promoted(env, mem, bytes, now, io) then Snapshot(mem.version + 1, bytes) else mem)
      && PromotedFiles(env, d, mem, bytes, now, io, s.disk)
    case _ => false
  }

  /** ... and of its history entry. */
  ghost predicate Recording(env: Env, d: Disk, mem: Snapshot, bytes: Bytes, now: int, io: Io, s: State) {
    if s.proc.Publishing? then HistoryPoint(env, d, mem, bytes, now, io, s)
    else HistoryFiles(env, d, mem, bytes, now, io, s.disk)
  }

  lemma PromotingStep(env: Env, d: Disk, mem: Snapshot, bytes: Bytes, now: int, io: Io, s: State)
    requires HistoryWritten(env, mem, bytes, now, io)
    requires s.proc.Publishing? && Promoting(env, d, mem, bytes, now, io, s)
    ensures Promoting(env, d, mem, bytes, now, io, Next(env, s, io))
  {
  }

  lemma RecordingStep(env: Env, d: Disk, mem: Snapshot, bytes: Bytes, now: int, io: Io, s: State)
    requires HistoryWritten(env, mem, bytes, now, io)
    requires s.proc.Publishing?
    requires Promoting(env, d, mem, bytes, now, io, s) && Recording(env, d, mem, bytes, now, io, s)
    ensures Recording(env, d, mem, bytes, now, io, Next(env, s, io))
  {
  }

  ghost predicate PromotedFiles(env: Env, d: Disk, mem: Snapshot, bytes: Bytes, now: int, io: Io, d': Disk) {
    var meta := MetadataFor(env, mem.version + 1, bytes, now);
    && d'.lkgArtifact == (if Done(env, mem, bytes, now, io, PromoteArtifact) then Some(bytes) else d.lkgArtifact)
    && d'.lkgMetadata == (if Done(env, mem, bytes, now, io, PromoteArtifact)
                             && Done(env, mem, bytes, now, io, PromoteMetadata)
                          then Some(meta) else d.lkgMetadata)
    && d'.state == (if Promoted(env, mem, bytes, now, io) && Done(env, mem, bytes, now, io, SaveState)
                    then Some(mem.version + 1) else d.state)
  }

  /** The history entry stays, unless the publish was rejected and its removal succeeded, file by file. */
  ghost predicate HistoryFiles(env: Env, d: Disk, mem: Snapshot, bytes: Bytes, now: int, io: Io, d': Disk) {
    var meta := MetadataFor(env, mem.version + 1, bytes, now);
    var ok := Promoted(env, mem, bytes, now, io);
    var entry := PartialPublish(d, bytes, meta, 3);
    && d'.artifacts == (if ok || !Done(env, mem, bytes, now, io, UndoArtifact) then entry.artifacts
                        else entry.artifacts - {meta.version})
    && d'.metadata == (if ok || !Done(env, mem, bytes, now, io, UndoMetadata) then entry.metadata
                       else entry.metadata - {meta.version})
  }

  ghost predicate HistoryPoint(env: Env, d: Disk, mem: Snapshot, bytes: Bytes, now: int, io: Io, s: State)
    requires s.proc.Publishing?
  {
    var entry := PartialPublish(d, bytes, MetadataFor(env, mem.version + 1, bytes, now), 3);
    && s.disk.metadata == entry.metadata
    && s.disk.artifacts == (if s.proc.at.UndoMetadata? && Done(env, mem, bytes, now, io, UndoArtifact)
                            then entry.artifacts - {mem.version + 1} else entry.artifacts)
  }

  ghost predicate RenamedFiles(env: Env, mem: Snapshot, bytes: Bytes, now: int, d: Disk) {
    d.lkgArtifact == Some(bytes) && d.lkgMetadata == Some(MetadataFor(env, mem.version + 1, bytes, now))
  }

  ghost predicate PromotionPoint(env: Env, d: Disk, mem: Snapshot, bytes: Bytes, now: int, io: Io, s: State)
    requires s.proc.Publishing?
  {
    match s.proc.at
    case PromoteArtifact =>
      s.disk.lkgArtifact == d.lkgArtifact && s.disk.lkgMetadata == d.lkgMetadata && s.disk.state == d.state
    case PromoteMetadata =>
      && Done(env, mem, bytes, now, io, PromoteArtifact)
      && s.disk.lkgArtifact == Some(bytes) && s.disk.lkgMetadata == d.lkgMetadata && s.disk.state == d.state
    case SyncLkg =>
      && Done(env, mem, bytes, now, io, PromoteArtifact) && Done(env, mem, bytes, now, io, PromoteMetadata)
      && RenamedFiles(env, mem, bytes, now, s.disk) && s.disk.state == d.state
    case SaveState =>
      && Promoted(env, mem, bytes, now, io)
      && RenamedFiles(env, mem, bytes, now, s.disk) && s.disk.state == d.state
    case Commit => Promoted(env, mem, bytes, now, io) && PromotedFiles(env, d, mem, bytes, now, io, s.disk)
    case UndoArtifact => !Promoted(env, mem, bytes, now, io) && PromotedFiles(env, d, mem, bytes, now, io, s.disk)
    case UndoMetadata => !Promoted(env, mem, bytes, now, io) && PromotedFiles(env, d, mem, bytes, now, io, s.disk)
    case _ => false
  }

  /** A publish is acknowledged exactly when its history entry and its LKG were written and synced;
      a rejected one leaves the served snapshot as it was. */
  lemma AcknowledgedExactlyWhenPromoted(env: Env, d: Disk, mem: Snapshot, bytes: Bytes, now: int, io: Io)
    requires Accepts(env, bytes)
    ensures Publish(env, d, mem, bytes, now, io).proc
         == Serving(if Promoted(env, mem, bytes, now, io) then Snapshot(mem.version + 1, bytes) else mem)
  {
    var s := PublishHistory(env, d, mem, bytes, now, io);
    if HistoryWritten(env, mem, bytes, now, io) { PublishPromotion(env, d, mem, bytes, now, io); }
  }

  /** What an acknowledged publish leaves in the LKG and in the history, from any state: the artifact, and
      metadata with its version, its time, its checksum and its size. */
  lemma AcknowledgedPublishIsDescribed(env: Env, d: Disk, mem: Snapshot, bytes: Bytes, now: int, io: Io)
    requires Accepts(env, bytes) && Promoted(env, mem, bytes, now, io)
    ensures var d', v := Publish(env, d, mem, bytes, now, io).disk, mem.version + 1;
      && d'.lkgArtifact == Some(bytes)
      && d'.lkgMetadata == Some(Metadata(v, now, env.checksum(bytes), |bytes|))
      && v in d'.artifacts && d'.artifacts[v] == bytes
      && v in d'.metadata && d'.metadata[v] == Metadata(v, now, env.checksum(bytes), |bytes|)
      && d'.state == (if Done(env, mem, bytes, now, io, SaveState) then Some(v) else d.state)
  {
    var s := PublishHistory(env, d, mem, bytes, now, io);
    PublishPromotion(env, d, mem, bytes, now, io);
  }

  /** The first place where metadata need not describe the artifact beside it: a crash between the two LKG
      renames over an existing LKG. */
  lemma WindowMislabels(env: Env, d: Disk, mem: Snapshot, bytes: Bytes, now: int)
    requires Coherent(env, d, mem) && Accepts(env, bytes) && mem.version > 0
    ensures var d' := CrashThenRestart(env, d, mem, bytes, now, 4).disk;
      && d'.lkgArtifact == Some(bytes) && d'.lkgMetadata.Some?
      && (Describes(env, d'.lkgMetadata.value, bytes) <==> SameLabel(env, bytes, mem.bytes))
  {
    CrashBetweenRenames(env, d, mem, bytes, now);
    PublishPrefix(env, d, mem, bytes, now, 4);
    RestartOfPair(env, PartialPublish(d, bytes, MetadataFor(env, mem.version + 1, bytes, now), 4));
  }

  /** The second: an abandoned history entry whose artifact the next attempt overwrites and whose metadata it
      fails to. */
  lemma OverwrittenOrphanIsMislabelled(
    env: Env, d: Disk, mem: Snapshot, first: Bytes, second: Bytes, now: int, later: int, io: Io, io': Io)
    requires Accepts(env, first) && Accepts(env, second)
    requires Done(env, mem, first, now, io, WriteArtifact) && Done(env, mem, first, now, io, WriteMetadata)
             && !Done(env, mem, first, now, io, SyncHistory)
    requires Done(env, mem, second, later, io', WriteArtifact) && !Done(env, mem, second, later, io', WriteMetadata)
    ensures var one := Publish(env, d, mem, first, now, io);
      var two := Publish(env, one.disk, mem, second, later, io').disk;
      var v := mem.version + 1;
      && one.proc == Serving(mem)
      && v in Listed(two) && two.artifacts[v] == second
      && (Describes(env, two.metadata[v], second) <==> SameLabel(env, second, first))
  {
    var s := PublishHistory(env, d, mem, first, now, io);
    assert Publish(env, d, mem, first, now, io) == s;
    var t := PublishHistory(env, s.disk, mem, second, later, io');
    assert Publish(env, s.disk, mem, second, later, io') == t;
  }

  /** A rejected publish can still surface. The next startup serves its bytes exactly when the artifact
      rename had happened and, over an empty LKG, the metadata rename had happened or neither history
      file could be removed: under the new version then, and over an existing LKG under the old one if
      the metadata rename had not happened. */
  lemma RejectedPublishSurfaces(env: Env, d: Disk, mem: Snapshot, bytes: Bytes, now: int, io: Io)
    requires Coherent(env, d, mem) && Accepts(env, bytes) && !Promoted(env, mem, bytes, now, io)
    ensures var after := Restart(env, Publish(env, d, mem, bytes, now, io).disk);
      var renamed := HistoryWritten(env, mem, bytes, now, io) && Done(env, mem, bytes, now, io, PromoteArtifact);
      var kept := !Done(env, mem, bytes, now, io, UndoArtifact) && !Done(env, mem, bytes, now, io, UndoMetadata);
      after.proc == Serving(
        if !renamed then mem
        else if Done(env, mem, bytes, now, io, PromoteMetadata) then Snapshot(mem.version + 1, bytes)
        else if mem.version > 0 then Snapshot(mem.version, bytes)
        else if kept then Snapshot(1, bytes)
        else mem)
  {
    var s := PublishHistory(env, d, mem, bytes, now, io);
    var d' := Publish(env, d, mem, bytes, now, io).disk;
    if HistoryWritten(env, mem, bytes, now, io) { PublishPromotion(env, d, mem, bytes, now, io); }
    if d'.lkgArtifact.None? {
      RestartOfEmptyLkg(env, d');
    } else if d'.lkgMetadata.Some? {
      RestartOfPair(env, d');
    } else {
      RejectedFirstPublish(env, d, mem, bytes, now, io, d');
    }
  }

  /** A lone LKG artifact is all that a rejected first publish can leave in the LKG. */
  lemma RejectedFirstPublish(env: Env, d: Disk, mem: Snapshot, bytes: Bytes, now: int, io: Io, d': Disk)
    requires Coherent(env, d, mem) && mem.version == 0 && Accepts(env, bytes) && !Promoted(env, mem, bytes, now, io)
    requires d'.lkgArtifact == Some(bytes) && d'.lkgMetadata.None? && HistoryFiles(env, d, mem, bytes, now, io, d')
    ensures Restart(env, d').proc == Serving(
      if !Done(env, mem, bytes, now, io, UndoArtifact) && !Done(env, mem, bytes, now, io, UndoMetadata)
      then Snapshot(1, bytes) else mem)
  {
    var meta := MetadataFor(env, 1, bytes, now);
    if !Done(env, mem, bytes, now, io, UndoArtifact) && !Done(env, mem, bytes, now, io, UndoMetadata) {
      assert d'.artifacts[1] == bytes && d'.metadata[1] == meta && IsMax(Listed(d'), 1);
      RestartOfLoneArtifact(env, d', 1);
      RestartOfPair(env, d'.(lkgArtifact := Some(bytes), lkgMetadata := Some(meta)));
    } else {
      assert 1 !in Listed(d');
      assert Listed(d') == {};
      RestartOfStrayArtifact(env, d');
      RestartOfEmptyLkg(env, d'.(lkgArtifact := None));
    }
  }
}
