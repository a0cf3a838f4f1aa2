/** The relay process as code: the fields it updates and the methods that update them, each proved to
    perform a run of the storage machine. `fs` answers for the file system: whether the storage step
    at a stage succeeds. */
module RelayProcess {
  import opened Common
  import opened RelayStorage
  import opened RelayRecovery

  datatype PublishError = Policy | Config | Storage | VersionMonotonicity

  function OnPublish(fs: PublishStage -> bool): Io { (p: Proc) => !p.Publishing? || fs(p.at) }

  function OnStart(fs: StartStage -> bool): Io { (p: Proc) => !p.Starting? || fs(p.stage) }

  /** `max_history_version`. */
  method MaxHistoryVersion(listed: set<nat>) returns (max: Option<nat>)
    ensures max.None? <==> listed == {}
    ensures max.Some? ==> IsMax(listed, max.value)
  {
    var left := listed;
    ghost var seen: set<nat> := {};
    max := None;
    while left != {}
      invariant seen + left == listed
      invariant if max.Some? then IsMax(seen, max.value) else seen == {}
      decreases |left|
    {
      var v :| v in left;
      left := left - {v};
      seen := seen + {v};
      if max.None? || max.value < v { max := Some(v); }
    }
  }

  class Relay {
    var disk: Disk
    var version: nat
    var bytes: Bytes

    constructor (d: Disk)
      ensures disk == d && version == 0 && bytes == []
    {
      disk, version, bytes := d, 0, [];
    }

    function Mem(): Snapshot reads this { Snapshot(version, bytes) }

    ghost function Machine(): State reads this { State(disk, Serving(Mem())) }

    /** The machine's rest of a publish, from stage `at` of the current disk. */
    ghost function PublishFrom(
      env: Env, artifact: Bytes, meta: Metadata, at: PublishStage, fs: PublishStage -> bool): State
      reads this
    {
      Settle(env, State(disk, Publishing(Mem(), artifact, meta, at)), OnPublish(fs))
    }

    method AppendToHistory(env: Env, artifact: Bytes, meta: Metadata, fs: PublishStage -> bool) returns (ok: bool)
      modifies this`disk
      ensures ok ==>
        old(PublishFrom(env, artifact, meta, WriteArtifact, fs))
        == PublishFrom(env, artifact, meta, PromoteArtifact, fs)
      ensures !ok ==> old(PublishFrom(env, artifact, meta, WriteArtifact, fs)) == Machine()
    {
      Unfold(env, State(disk, Publishing(Mem(), artifact, meta, WriteArtifact)), OnPublish(fs));
      if !fs(WriteArtifact) { return false; }
      disk := disk.(artifacts := disk.artifacts[meta.version := artifact]);
      Unfold(env, State(disk, Publishing(Mem(), artifact, meta, WriteMetadata)), OnPublish(fs));
      if !fs(WriteMetadata) { return false; }
      disk := disk.(metadata := disk.metadata[meta.version := meta]);
      Unfold(env, State(disk, Publishing(Mem(), artifact, meta, SyncHistory)), OnPublish(fs));
      ok := fs(SyncHistory);
    }

    method PromoteToLkg(env: Env, artifact: Bytes, meta: Metadata, fs: PublishStage -> bool) returns (ok: bool)
      modifies this`disk
      ensures old(PublishFrom(env, artifact, meta, PromoteArtifact, fs))
           == PublishFrom(env, artifact, meta, if ok then SaveState else UndoArtifact, fs)
    {
      Unfold(env, State(disk, Publishing(Mem(), artifact, meta, PromoteArtifact)), OnPublish(fs));
      if !fs(PromoteArtifact) { return false; }
      disk := disk.(lkgArtifact := Some(artifact));
      Unfold(env, State(disk, Publishing(Mem(), artifact, meta, PromoteMetadata)), OnPublish(fs));
      if !fs(PromoteMetadata) { return false; }
      disk := disk.(lkgMetadata := Some(meta));
      Unfold(env, State(disk, Publishing(Mem(), artifact, meta, SyncLkg)), OnPublish(fs));
      ok := fs(SyncLkg);
    }

    method RemoveFromHistory(env: Env, artifact: Bytes, meta: Metadata, fs: PublishStage -> bool)
      modifies this`disk
      ensures old(PublishFrom(env, artifact, meta, UndoArtifact, fs)) == Machine()
    {
      Unfold(env, State(disk, Publishing(Mem(), artifact, meta, UndoArtifact)), OnPublish(fs));
      if fs(UndoArtifact) { disk := disk.(artifacts := disk.artifacts - {meta.version}); }
      Unfold(env, State(disk, Publishing(Mem(), artifact, meta, UndoMetadata)), OnPublish(fs));
      if fs(UndoMetadata) { disk := disk.(metadata := disk.metadata - {meta.version}); }
    }

    /** `publish_bytes` past its checks: history, promotion, `state.json`, memory. */
    method StoreAndCommit(env: Env, artifact: Bytes, meta: Metadata, now: int, fs: PublishStage -> bool)
      returns (failure: Option<PublishError>)
      requires Accepts(env, artifact) && meta == MetadataFor(env, version + 1, artifact, now)
      modifies this
      ensures Machine() == old(Publish(env, disk, Mem(), artifact, now, OnPublish(fs)))
      ensures failure == if old(Promoted(env, Mem(), artifact, now, OnPublish(fs))) then None else Some(Storage)
    {
      AcknowledgedExactlyWhenPromoted(env, disk, Mem(), artifact, now, OnPublish(fs));
      var ok := AppendToHistory(env, artifact, meta, fs);
      if !ok { return Some(Storage); }
      ok := PromoteToLkg(env, artifact, meta, fs);
      if !ok {
        RemoveFromHistory(env, artifact, meta, fs);
        return Some(Storage);
      }
      Unfold(env, State(disk, Publishing(Mem(), artifact, meta, SaveState)), OnPublish(fs));
      if fs(SaveState) { disk := disk.(state := Some(meta.version)); }
      Unfold(env, State(disk, Publishing(Mem(), artifact, meta, Commit)), OnPublish(fs));
      if meta.version <= version { return Some(VersionMonotonicity); }
      version, bytes := meta.version, artifact;
      failure := None;
    }

    /** `publish_bytes`, under the publish lock. */
    method PublishBytes(env: Env, artifact: Bytes, now: int, fs: PublishStage -> bool)
      returns (r: Result<Metadata, PublishError>)
      modifies this
      ensures Machine() == old(Publish(env, disk, Mem(), artifact, now, OnPublish(fs)))
      ensures env.maxBytes != 0 && |artifact| > env.maxBytes <==> r == Err(Policy)
      ensures r == Err(Config) <==>
        (env.maxBytes == 0 || |artifact| <= env.maxBytes) && !(env.framed(artifact) && env.archived(artifact))
      ensures r == Err(Policy) || r == Err(Config) ==> Machine() == old(Machine())
      ensures Accepts(env, artifact) ==> (r.Ok? <==> old(Promoted(env, Mem(), artifact, now, OnPublish(fs))))
      ensures r.Ok? ==>
        && r.value == Metadata(old(version) + 1, now, env.checksum(artifact), |artifact|)
        && disk.lkgArtifact == Some(artifact) && disk.lkgMetadata == Some(r.value)
        && version == old(version) + 1 && bytes == artifact
      ensures r.Err? ==> Mem() == old(Mem()) && r != Err(VersionMonotonicity)
    {
      if !Fits(env, artifact) { return Err(Policy); }
      if !Verified(env, artifact) { return Err(Config); }
      AcknowledgedExactlyWhenPromoted(env, disk, Mem(), artifact, now, OnPublish(fs));
      if Promoted(env, Mem(), artifact, now, OnPublish(fs)) {
        AcknowledgedPublishIsDescribed(env, disk, Mem(), artifact, now, OnPublish(fs));
      }
      var meta := MetadataFor(env, version + 1, artifact, now);
      var failure := StoreAndCommit(env, artifact, meta, now, fs);
      r := if failure.None? then Ok(meta) else Err(failure.value);
    }

    ghost function StartFrom(env: Env, clean: bool, stage: StartStage, fs: StartStage -> bool): State
      reads this
    {
      Settle(env, State(disk, Starting(clean, stage)), OnStart(fs))
    }

    /** `recover_lkg_from_history`: read a history entry and promote it. */
    method Recover(env: Env, found: Found, v: nat, fs: StartStage -> bool) returns (ok: bool)
      modifies this`disk
      ensures ok ==> old(StartFrom(env, true, ReadEntry(found, v), fs)) == StartFrom(env, true, LoadLkg, fs)
      ensures !ok && found.OnlyArtifact? ==>
        old(StartFrom(env, true, ReadEntry(found, v), fs)) == StartFrom(env, false, FindArtifact, fs)
      ensures !ok && found.OnlyMetadata? ==>
        old(StartFrom(env, true, ReadEntry(found, v), fs)) == State(disk, Down(true))
    {
      Unfold(env, State(disk, Starting(true, ReadEntry(found, v))), OnStart(fs));
      if !fs(ReadEntry(found, v)) || v !in disk.artifacts || v !in disk.metadata { return false; }
      var artifact, meta := disk.artifacts[v], disk.metadata[v];
      Unfold(env, State(disk, Starting(true, RecoverArtifact(found, artifact, meta))), OnStart(fs));
      if !fs(RecoverArtifact(found, artifact, meta)) { return false; }
      disk := disk.(lkgArtifact := Some(artifact));
      Unfold(env, State(disk, Starting(true, RecoverMetadata(found, artifact, meta))), OnStart(fs));
      if !fs(RecoverMetadata(found, artifact, meta)) { return false; }
      disk := disk.(lkgMetadata := Some(meta));
      Unfold(env, State(disk, Starting(true, SyncRecovered(found))), OnStart(fs));
      ok := fs(SyncRecovered(found));
    }

    /** `repair_lkg`. */
    method RepairLkg(env: Env, fs: StartStage -> bool) returns (ok: bool, ghost clean: bool)
      modifies this`disk
      ensures ok ==> old(StartFrom(env, true, ReadLkg, fs)) == StartFrom(env, clean, LoadLkg, fs)
      ensures !ok ==> old(StartFrom(env, true, ReadLkg, fs)) == State(disk, Down(true))
    {
      clean := true;
      Unfold(env, State(disk, Starting(true, ReadLkg)), OnStart(fs));
      if !fs(ReadLkg) { return false, true; }
      match (disk.lkgArtifact, disk.lkgMetadata)
      case (None, Some(m)) =>
        ok := Recover(env, OnlyMetadata, m.version, fs);
      case (Some(_), None) =>
        Unfold(env, State(disk, Starting(true, ListHistory)), OnStart(fs));
        if !fs(ListHistory) { return false, true; }
        var max := MaxHistoryVersion(Listed(disk));
        if max.Some? {
          assert max.value == MaxVersion(Listed(disk));
          var recovered := Recover(env, OnlyArtifact, max.value, fs);
          if recovered { return true, true; }
          clean := false;
        }
        ok, clean := RemoveArtifact(env, clean, fs);
      case (_, _) =>
        ok := true;
    }

    /** The last resort of the repair: only the lookup of the path can make it fail. */
    method RemoveArtifact(env: Env, ghost clean: bool, fs: StartStage -> bool) returns (ok: bool, ghost clean': bool)
      modifies this`disk
      ensures ok ==> old(StartFrom(env, clean, FindArtifact, fs)) == StartFrom(env, clean', LoadLkg, fs)
      ensures !ok ==> old(StartFrom(env, clean, FindArtifact, fs)) == State(disk, Down(true))
    {
      Unfold(env, State(disk, Starting(clean, FindArtifact)), OnStart(fs));
      if !fs(FindArtifact) { return false, clean; }
      Unfold(env, State(disk, Starting(clean, DropArtifact)), OnStart(fs));
      if fs(DropArtifact) { disk := disk.(lkgArtifact := None); }
      ok, clean' := true, clean && fs(DropArtifact);
    }

    /** The LKG as loaded: both files, within the limit, or neither. */
    method LoadLkgFiles(env: Env) returns (found: Option<Snapshot>)
      ensures found.Some? <==>
        && disk.lkgArtifact.Some? == disk.lkgMetadata.Some?
        && (disk.lkgArtifact.Some? ==> Fits(env, disk.lkgArtifact.value))
      ensures found.Some? ==>
        found.value == if disk.lkgArtifact.None? then Snapshot(0, [])
                       else Snapshot(disk.lkgMetadata.value.version, disk.lkgArtifact.value)
    {
      match (disk.lkgArtifact, disk.lkgMetadata) {
        case (None, None) => found := Some(Snapshot(0, []));
        case (Some(b), Some(m)) => found := if Fits(env, b) then Some(Snapshot(m.version, b)) else None;
        case (_, _) => found := None;
      }
    }

    /** The end of startup: `state.json`, the scans, the runtime state. */
    method Install(env: Env, loaded: Snapshot, ghost clean: bool, fs: StartStage -> bool) returns (ok: bool)
      modifies this
      ensures var next := if old(disk.state) == Some(loaded.version) then Inspect(loaded) else WriteState(loaded);
        old(StartFrom(env, clean, next, fs)) == if ok then Machine() else State(disk, Down(true))
      ensures disk == old(disk).(state := disk.state)
      ensures ok ==> version == loaded.version && bytes == loaded.bytes && disk.state == Some(version)
                     && (bytes == [] || env.framed(bytes))
    {
      ghost var nowClean := clean;
      if disk.state != Some(loaded.version) {
        Unfold(env, State(disk, Starting(clean, WriteState(loaded))), OnStart(fs));
        if !fs(WriteState(loaded)) { return false; }
        disk := disk.(state := Some(loaded.version));
        nowClean := clean && fs(WriteState(loaded));
      }
      Unfold(env, State(disk, Starting(nowClean, Inspect(loaded))), OnStart(fs));
      if !fs(Inspect(loaded)) { return false; }
      if loaded.bytes != [] && !env.framed(loaded.bytes) { return false; }
      version, bytes, ok := loaded.version, loaded.bytes, true;
    }

    /** `init_state`: repair, load, check, persist `state.json`, build the runtime state. */
    method InitState(env: Env, fs: StartStage -> bool) returns (ok: bool)
      modifies this
      ensures old(StartFrom(env, true, ReadLkg, fs)) == if ok then Machine() else State(disk, Down(true))
      ensures ok ==>
        && version == (if disk.lkgMetadata.Some? then disk.lkgMetadata.value.version else 0)
        && bytes == (if disk.lkgArtifact.Some? then disk.lkgArtifact.value else [])
        && disk.state == Some(version) && disk.lkgArtifact.Some? == disk.lkgMetadata.Some?
        && (env.maxBytes == 0 || |bytes| <= env.maxBytes) && (bytes == [] || env.framed(bytes))
    {
      ghost var clean;
      ok, clean := RepairLkg(env, fs);
      if !ok { return; }
      Unfold(env, State(disk, Starting(clean, LoadLkg)), OnStart(fs));
      var found := LoadLkgFiles(env);
      if found.None? || !fs(LoadLkg) { return false; }
      ok := Install(env, found.value, clean, fs);
    }
  }
}
