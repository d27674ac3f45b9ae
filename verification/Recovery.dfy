/** The restore command from archive to running instance (cmdRestore in cmd/kagectl/backup.go). */
module Recovery {
  import opened Strings
  import opened Paths
  import opened Trees
  import opened Archive
  import opened Verifier
  import opened FileSystem
  import opened Unpacking
  import opened UnpackingLaws
  import opened Anchors
  import opened BackupRoundTrip
  import opened Restore

  datatype Images = Images(main: string, appBase: string, mysql: string, minio: string)

  function ImagesOf(m: Manifest): Images {
    Images(m.mainImage, m.appBaseImage, m.mysqlImage, m.minioImage)
  }

  datatype Result = Refused | DryRun | Unprepared | Executed(verdict: Verdict)

  function Subtree(nodes: Nodes, path: Path): Tree {
    var below := set p | p in nodes && path <= p :: p[|path|..];
    map rel | rel in below && path + rel in nodes :: nodes[path + rel]
  }

  function StagedPath(staging: Path, name: string): Path {
    staging + ["data", name]
  }

  /** The staged data, by name. */
  function StagedShelf(nodes: Nodes, staging: Path): Shelf {
    map n | n in DataNames() && StagedPath(staging, n) in nodes :: Subtree(nodes, StagedPath(staging, n))
  }

  function StagedConfig(nodes: Nodes, staging: Path): Option<seq<byte>> {
    ReadFile(nodes, staging + ["config", "kage.yaml"])
  }

  /** os.ReadFile, which follows links. */
  function ReadFile(nodes: Nodes, path: Path): Option<seq<byte>> {
    match Look(nodes, path, true)
    case Found(place) => if place in nodes && nodes[place].FileNode? then Some(nodes[place].data) else None
    case _ => None
  }

  /** Reading at a path where a file or a directory itself stands. */
  lemma ReadsItself(nodes: Nodes, path: Path)
    requires Standing(nodes) && AllProper(path) && path in nodes && !nodes[path].LinkNode?
    ensures Look(nodes, path, true) == Found(path)
  {
    assert path[..|path|] == path;
    forall k | 0 <= k <= |path| && path[..k] in nodes
      ensures !nodes[path[..k]].LinkNode?
    {
    }
    LookUnlinked(nodes, path, true);
  }

  /** The tree holds the item and nothing else. */
  ghost predicate IsTreeOf(tree: Tree, item: Item) {
    forall rel ::
      match At(item, rel)
      case None => rel !in tree
      case Some(x) => rel in tree && !x.Special? && tree[rel] == Shallow(x)
  }

  lemma SubtreeOf(nodes: Nodes, path: Path, item: Item)
    requires TreeAt(nodes, path, item)
    ensures IsTreeOf(Subtree(nodes, path), item)
  {
    var tree := Subtree(nodes, path);
    forall rel
      ensures match At(item, rel)
              case None => rel !in tree
              case Some(x) => rel in tree && !x.Special? && tree[rel] == Shallow(x)
    {
      assert PlaceAt(nodes, path, item, rel);
      if path + rel in nodes { assert (path + rel)[|path|..] == rel; }
    }
  }

  lemma DataRoot(i: nat)
    requires i < |DataNames()|
    ensures SourceRoots()[i + 1] == ["data", DataNames()[i]]
  {
  }

  /** The archive is accepted for the manifest of a backup of these sources. */
  ghost predicate BackupOf(c: Codec, tar: Tarball, sources: seq<Source>, m: Manifest) {
    && ProductionSources(sources)
    && Complete(sources)
    && m.records == []
    && NoCollision(c, tar.entries, AllVisits(sources))
    && Accepts(c, tar, WithRecords(m, c, AllVisits(sources)))
  }

  /** What the writer publishes is such an archive, if no name ends in white space and the
      manifest is not too long. */
  lemma WrittenIsABackup(c: Codec, sources: seq<Source>, m: Manifest)
    requires c.Lawful() && ProductionSources(sources) && Complete(sources) && m.records == [] && Current(m)
    requires Untrimmed(AllVisits(sources))
    requires |c.encode(WithRecords(m, c, AllVisits(sources)))| <= READ_LIMIT
    ensures BackupOf(c, Written(c, AllVisits(sources), m), sources, m)
  {
    WrittenIsAccepted(c, sources, m, WithRecords(m, c, AllVisits(sources)));
    ProductionVisitsAreGood(sources);
    ProductionIsSeparate(sources);
    AllVisitsAreDistinct(sources);
    WrittenHasNoCollision(c, AllVisits(sources), m);
  }

  /** Under every data name stands the tree that was backed up under it. */
  ghost predicate HoldsBackup(shelf: Shelf, sources: seq<Source>)
    requires |sources| == |DataNames()| + 1 && Present(sources)
  {
    forall i :: 0 <= i < |DataNames()| ==> HoldsTree(shelf, DataNames()[i], sources[i + 1].item.value)
  }

  ghost predicate HoldsTree(shelf: Shelf, name: string, item: Item) {
    name in shelf && IsTreeOf(shelf[name], item)
  }

  lemma DataTreeStaged(before: Nodes, after: Nodes, staging: Path, entries: seq<TarEntry>, sources: seq<Source>, i: nat)
    requires ProductionSources(sources) && Complete(sources) && i < |DataNames()|
    requires Fresh(before, staging) && Unpacked(before, after, staging, entries)
    requires Represents(entries, AllVisits(sources))
    ensures HoldsTree(StagedShelf(after, staging), DataNames()[i], sources[i + 1].item.value)
  {
    var name, item := DataNames()[i], sources[i + 1].item.value;
    var path := StagedPath(staging, name);
    DataRoot(i);
    ProductionIsSeparate(sources);
    SourceRebuilt(before, after, staging, entries, sources, i + 1);
    assert TreeAt(after, path, item);
    SubtreeOf(after, path, item);
    assert PlaceAt(after, path, item, []);
    assert path + [] == path;
    assert name in DataNames();
  }

  lemma BackupStaged(before: Nodes, after: Nodes, staging: Path, entries: seq<TarEntry>, sources: seq<Source>)
    requires ProductionSources(sources) && Complete(sources)
    requires Fresh(before, staging) && Unpacked(before, after, staging, entries)
    requires Represents(entries, AllVisits(sources))
    ensures HoldsBackup(StagedShelf(after, staging), sources)
  {
    forall i | 0 <= i < |DataNames()|
      ensures HoldsTree(StagedShelf(after, staging), DataNames()[i], sources[i + 1].item.value)
    {
      DataTreeStaged(before, after, staging, entries, sources, i);
    }
  }

  lemma ConfigStaged(before: Nodes, after: Nodes, staging: Path, entries: seq<TarEntry>, sources: seq<Source>)
    requires ProductionSources(sources) && Complete(sources)
    requires Fresh(before, staging) && Unpacked(before, after, staging, entries)
    requires Represents(entries, AllVisits(sources)) && AllProper(staging)
    ensures ConfigFits(StagedConfig(after, staging), sources[0].item.value)
  {
    var path := staging + ["config", "kage.yaml"];
    ProductionIsSeparate(sources);
    SourceRebuilt(before, after, staging, entries, sources, 0);
    assert sources[0].root == ["config", "kage.yaml"];
    assert PlaceAt(after, path, sources[0].item.value, []);
    ProperConfig(staging);
    ConfigRead(after, path, sources[0].item.value);
  }

  lemma ProperConfig(staging: Path)
    requires AllProper(staging)
    ensures AllProper(staging + ["config", "kage.yaml"])
  {
    assert Proper("config") && Proper("kage.yaml");
  }

  lemma ConfigRead(nodes: Nodes, path: Path, item: Item)
    requires Standing(nodes) && AllProper(path) && PlaceAt(nodes, path, item, [])
    ensures ConfigFits(ReadFile(nodes, path), item)
  {
    assert path + [] == path;
    if !item.Link? { ReadsItself(nodes, path); }
  }

  /** A configuration file is read as it was; a directory is not read; a link is followed. */
  predicate ConfigFits(config: Option<seq<byte>>, item: Item) {
    && (item.File? ==> config == Some(item.data))
    && (item.Folder? ==> config == None)
  }

  /** What the live data is once the restored instance runs: the backed-up trees, but for what
      its services have made of them. */
  ghost predicate RunsOnBackup(live: Shelf, sources: seq<Source>, changed: map<string, Option<Tree>>)
    requires |sources| == |DataNames()| + 1 && Present(sources)
  {
    exists shelf :: HoldsBackup(shelf, sources) &&
      forall n :: n in DataNames() ==> n in shelf && Get(live, n) == Disturbed(changed, Some(shelf[n]), n)
  }

  /** What can be checked before a restore: the environment, and the step that fails. */
  datatype Setting = Setting(
    bundled: bool,
    images: Images,
    dryRun: bool,
    composed: bool,
    readsOldConfig: bool,
    makesRollback: bool)

  /** Unpacks the archive and looks at what is there. */
  method StageBackup(disk: Disk, staging: Path, tar: Tarball, ghost c: Codec, ghost sources: seq<Source>,
                     ghost m: Manifest)
    returns (ok: bool, staged: Shelf, config: Option<seq<byte>>)
    requires Fresh(disk.nodes, staging) && AllProper(staging)
    modifies disk
    ensures Made(disk.nodes, ok) == Extraction(old(disk.nodes), disk.faults, staging, tar)
    ensures staged == StagedShelf(disk.nodes, staging) && config == StagedConfig(disk.nodes, staging)
    ensures ok && BackupOf(c, tar, sources, m) ==>
              HoldsBackup(staged, sources) && ConfigFits(config, sources[0].item.value)
    ensures BackupOf(c, tar, sources, m) && Unopposed(disk.faults, staging) ==>
              (ok <==> SafeVisits(staging, AllVisits(sources)))
  {
    ok := disk.ExtractBackupArchive(staging, tar);
    staged, config := StagedShelf(disk.nodes, staging), StagedConfig(disk.nodes, staging);
    if BackupOf(c, tar, sources, m) {
      BackupUnpacks(c, tar, sources, m, old(disk.nodes), disk.faults, staging);
    }
  }

  /** Unpacking the archive of a backup: when it goes through, and what is there then. */
  lemma BackupUnpacks(c: Codec, tar: Tarball, sources: seq<Source>, m: Manifest, before: Nodes, f: Faults, staging: Path)
    requires Fresh(before, staging) && AllProper(staging) && BackupOf(c, tar, sources, m)
    ensures var made := Extraction(before, f, staging, tar);
            && Contained(before, made.nodes, staging)
            && (made.ok ==> HoldsBackup(StagedShelf(made.nodes, staging), sources))
            && (made.ok ==> ConfigFits(StagedConfig(made.nodes, staging), sources[0].item.value))
            && (Unopposed(f, staging) ==> (made.ok <==> SafeVisits(staging, AllVisits(sources))))
  {
    var made := Extraction(before, f, staging, tar);
    AcceptedUnpacks(c, tar, sources, m, staging);
    NestedIsUncrossed(tar.entries);
    ExtractionStays(before, f, staging, tar);
    if made.ok {
      ExtractionChecks(before, f, staging, tar);
      BackupStaged(before, made.nodes, staging, tar.entries, sources);
      ConfigStaged(before, made.nodes, staging, tar.entries, sources);
    } else if Unopposed(f, staging) && SafeVisits(staging, AllVisits(sources)) {
      ExtractionGoesThrough(before, f, staging, tar);
    }
  }

  predicate RunsImages(setting: Setting, manifest: Manifest) {
    setting.images == ImagesOf(manifest)
  }

  predicate SettingFits(setting: Setting, manifest: Manifest) {
    && setting.bundled && RunsImages(setting, manifest) && !setting.dryRun
    && setting.composed && setting.readsOldConfig && setting.makesRollback
  }

  function Adapted(adapt: seq<byte> -> Option<seq<byte>>, config: Option<seq<byte>>): Option<seq<byte>> {
    match config case None => None case Some(data) => adapt(data)
  }

  /** Whether the swap and the start go through, given that all five trees are staged. */
  predicate NoStepFails(names: seq<string>, script: Script, live: Shelf, rollback: Shelf) {
    && script.stops && script.writesConfig && script.renders && script.ups && !script.install.mkdir
    && (forall n :: n in names ==> CanMove(script.move, live, rollback, n))
    && (forall n :: n in names ==> n !in script.install.lstat && n !in script.install.rename)
  }

  lemma StagedSuffices(names: seq<string>, script: Script, live: Shelf, rollback: Shelf, staged: Shelf,
                       sources: seq<Source>)
    requires names == DataNames() && |sources| == |names| + 1 && Present(sources) && HoldsBackup(staged, sources)
    ensures Succeeds(names, script, live, rollback, staged) <==> NoStepFails(names, script, live, rollback)
  {
    forall n | n in names
      ensures n in staged
    {
      var i :| 0 <= i < |names| && names[i] == n;
      assert HoldsTree(staged, names[i], sources[i + 1].item.value);
    }
    assert forall n :: n in names ==>
        (Stageable(script.install, staged, n) <==> n !in script.install.lstat && n !in script.install.rename);
  }

  /** The checks before anything is written. */
  method Vet(c: Codec, tar: Tarball, setting: Setting, ghost sources: seq<Source>, ghost m: Manifest)
    returns (ok: bool)
    ensures ok <==> setting.bundled && exists read :: Accepts(c, tar, read) && RunsImages(setting, read)
    ensures BackupOf(c, tar, sources, m) ==> (ok <==> setting.bundled && RunsImages(setting, m))
  {
    var manifest := VerifyBackupArchive(c, tar);
    if BackupOf(c, tar, sources, m) {
      assert manifest == Some(WithRecords(m, c, AllVisits(sources)));
    }
    ok := manifest.Some? && setting.bundled && setting.images == ImagesOf(manifest.value);
  }

  /** What an instance that runs the images of a backup has in common with it. */
  lemma SameImages(setting: Setting, m: Manifest)
    ensures RunsImages(setting, m) <==>
              && setting.images.main == m.mainImage && setting.images.appBase == m.appBaseImage
              && setting.images.mysql == m.mysqlImage && setting.images.minio == m.minioImage
  {
  }

  /** Under every data name there is an entry in the archive. */
  ghost predicate HoldsAllData(entries: seq<TarEntry>) {
    forall n :: n in DataNames() ==> exists e :: e in entries && !IsManifest(e) && NameOf(e) == "data/" + n
  }

  lemma AcceptedHoldsAllData(c: Codec, tar: Tarball, m: Manifest)
    requires Accepts(c, tar, m)
    ensures HoldsAllData(tar.entries)
  {
    forall n | n in DataNames()
      ensures HasName(tar.entries, "data/" + n)
    {
      DataEntryName(n);
      AcceptedHolds(c, tar, m, "data/" + n);
    }
  }

  lemma DataEntryName(n: string)
    requires n in DataNames()
    ensures || "data/" + n == "data/mysql" || "data/" + n == "data/minio" || "data/" + n == "data/namespace"
            || "data/" + n == "data/data" || "data/" + n == "data/tls"
  {
  }

  /** The five names are those of the storage root that a backup covers. */
  lemma DataNamesExact(n: string)
    ensures n in DataNames() <==> n == "mysql" || n == "minio" || n == "namespace" || n == "data" || n == "tls"
  {
    var names := DataNames();
    assert names[0] in names && names[1] in names && names[2] in names && names[3] in names && names[4] in names;
  }

  /** What a restore has left of the storage: no original tree was lost while it was at work, and
      names that neither it nor a service has to do with are as they were. */
  ghost predicate Careful(storage: Storage, script: Script)
    reads storage
  {
    storage.NothingLost()
    && OthersSameBut(storage.names, script.disturbed.Keys + script.restarted.Keys, storage.orig, storage.live)
  }

  /** The configuration in use is the one found, re-pointed. */
  ghost predicate RunsConfig(storage: Storage, adapt: seq<byte> -> Option<seq<byte>>, found: Option<seq<byte>>)
    reads storage
  {
    found.Some? && adapt(found.value) == Some(storage.config)
  }

  ghost predicate RunsAsBackedUp(storage: Storage, sources: seq<Source>, script: Script,
                                 adapt: seq<byte> -> Option<seq<byte>>, config: Option<seq<byte>>)
    requires |sources| == |DataNames()| + 1 && Present(sources)
    reads storage
  {
    && RunsOnBackup(storage.live, sources, script.disturbed)
    && Some(storage.config) == Adapted(adapt, config)
    && ConfigFits(config, sources[0].item.value)
  }

  predicate Restored(r: Result) {
    r.Executed? && r.verdict.Restored?
  }

  ghost predicate IsBackup(staged: Shelf, sources: seq<Source>) {
    |sources| == |DataNames()| + 1 && Present(sources) && HoldsBackup(staged, sources)
  }

  /** Once the instance has been accepted, the rollback directory holds the originals if it is to be
      kept; else it is gone, or the verdict says that it is not. */
  ghost predicate Tidied(storage: Storage, script: Script, rollback: Shelf, v: Verdict)
    requires v.Restored?
    reads storage
  {
    if script.keepRollback then
      v.cleaned && forall n :: n in storage.names ==> Get(storage.rollback, n) == Aside(storage.orig, rollback, n)
    else
      && (v.cleaned <==> script.uncleared.None?)
      && storage.rollback == if v.cleaned then map[] else script.uncleared.value
  }

  /** What a swap that did not bring the backup in has left, by its verdict: all as it was; a failed
      move; all undone; or an undo that stopped on the way. `rollback` and `config` are what there
      was at the start. */
  ghost predicate Accounted(storage: Storage, script: Script, staged: Shelf, rollback: Shelf, config: seq<byte>, v: Verdict)
    reads storage
  {
    match v
    case NotStarted => storage.live == storage.orig && storage.rollback == rollback && storage.config == config
    case NotMoved =>
      && storage.config == config
      && exists b :: FailedMove(storage.names, script, storage.orig, rollback, storage.Settlement(), storage.live,
                                storage.rollback, b)
    case Undone(restarted) =>
      && restarted == script.restarts
      && (script.writesOldConfig ==> storage.config == config)
      && LeftBy(script.restarted, storage.Settlement(), storage.live)
      && exists was :: BroughtIn(storage.names, script, staged, was)
                       && AfterUndo(storage.names, script.undo, storage.orig, rollback, was, storage.Settlement())
    case UndoFailed =>
      exists was, b :: BroughtIn(storage.names, script, staged, was)
                       && StoppedUndo(storage.names, script.undo, storage.orig, rollback, was, storage.live,
                                      storage.rollback, b)
    case Restored(_) => Tidied(storage, script, rollback, v)
  }

  /** The swap with these staged trees. */
  method SwapStaged(storage: Storage, staged: Shelf, backedConfig: Option<seq<byte>>, script: Script,
                    ghost sources: seq<Source>)
    returns (r: Result)
    requires storage.Sound() && storage.Untouched() && storage.names == DataNames()
    modifies storage
    ensures r.Unprepared? || r.Executed?
    ensures Careful(storage, script)
    ensures r.Unprepared? ==> storage.live == storage.orig && storage.rollback == old(storage.rollback)
                              && storage.config == old(storage.config)
    ensures Restored(r) && IsBackup(staged, sources) ==> RunsOnBackup(storage.live, sources, script.disturbed)
    ensures Restored(r) ==> Some(storage.config) == backedConfig
    ensures r.Executed? ==> Accounted(storage, script, staged, old(storage.rollback), old(storage.config), r.verdict)
    ensures r.Unprepared? <==> backedConfig.None?
    ensures IsBackup(staged, sources) ==>
              (Restored(r) <==>
                 backedConfig.Some? && NoStepFails(storage.names, script, storage.orig, old(storage.rollback)))
  {
    if backedConfig.None? { return Unprepared; }
    storage.staged := staged;
    ghost var rollback := storage.rollback;
    ghost var b, was;
    var verdict;
    verdict, b, was := storage.ExecuteProductionRestore(backedConfig, script);
    r := Executed(verdict);
    if IsBackup(staged, sources) {
      StagedSuffices(storage.names, script, storage.orig, rollback, staged, sources);
      assert verdict.Restored? ==> AllStarted(storage.names, script, staged, storage.live);
    }
  }

  /** Unpacks the archive and swaps it in, once it is vetted. */
  method RestoreVetted(c: Codec, tar: Tarball, setting: Setting, disk: Disk, staging: Path, storage: Storage,
                       adapt: seq<byte> -> Option<seq<byte>>, script: Script, ghost sources: seq<Source>,
                       ghost m: Manifest)
    returns (r: Result)
    requires Fresh(disk.nodes, staging) && AllProper(staging)
    requires storage.Sound() && storage.Untouched() && storage.names == DataNames()
    modifies disk, storage
    ensures disk.nodes == Extraction(old(disk.nodes), disk.faults, staging, tar).nodes
    ensures r.Unprepared? || r.Executed?
    ensures r.Executed? <==>
              && Extraction(old(disk.nodes), disk.faults, staging, tar).ok && setting.readsOldConfig
              && setting.makesRollback && Adapted(adapt, StagedConfig(disk.nodes, staging)).Some?
    ensures r.Executed? ==>
              Accounted(storage, script, StagedShelf(disk.nodes, staging), old(storage.rollback), old(storage.config),
                        r.verdict)
    ensures Restored(r) ==> RunsConfig(storage, adapt, StagedConfig(disk.nodes, staging))
    ensures LinksStay(old(disk.nodes), disk.faults, staging, tar) ==> Careful(storage, script)
    ensures LinksStay(old(disk.nodes), disk.faults, staging, tar) && r.Unprepared? ==>
              storage.live == storage.orig && storage.rollback == old(storage.rollback)
              && storage.config == old(storage.config)
    ensures Restored(r) && BackupOf(c, tar, sources, m) ==>
              RunsAsBackedUp(storage, sources, script, adapt, StagedConfig(disk.nodes, staging))
    ensures BackupOf(c, tar, sources, m) && Unopposed(disk.faults, staging) ==>
              (Restored(r) <==>
                 && setting.readsOldConfig && setting.makesRollback
                 && SafeVisits(staging, AllVisits(sources))
                 && Adapted(adapt, StagedConfig(disk.nodes, staging)).Some?
                 && NoStepFails(storage.names, script, storage.orig, old(storage.rollback)))
  {
    var ok, staged, config := StageBackup(disk, staging, tar, c, sources, m);
    if !ok || !setting.readsOldConfig || !setting.makesRollback { return Unprepared; }
    r := SwapStaged(storage, staged, Adapted(adapt, config), script, sources);
  }

  /** Only a verified archive of the running images is restored, and unpacking it changes nothing
      that exists. Unpacking stays inside the staging directory exactly when every link that it
      gets to does, as it is if no link entry stands below an earlier one; then no original tree is
      lost. An instance restored from a backup runs on what was backed up. `staging` is the fresh
      temporary directory, `adapt` re-points the backed-up configuration at this storage root, and
      `sources` and `m` stand for the backup that the archive may be. */
  method CmdRestore(c: Codec, tar: Tarball, setting: Setting, disk: Disk, staging: Path, storage: Storage,
                    adapt: seq<byte> -> Option<seq<byte>>, script: Script, ghost sources: seq<Source>,
                    ghost m: Manifest)
    returns (r: Result)
    requires Fresh(disk.nodes, staging) && AllProper(staging)
    requires storage.Sound() && storage.Untouched() && storage.names == DataNames()
    modifies disk, storage
    ensures Kept(old(disk.nodes), disk.nodes)
    ensures r.Refused? || r.DryRun? ==> disk.nodes == old(disk.nodes)
    ensures r.Refused? <==> !(setting.bundled && exists read :: Accepts(c, tar, read) && RunsImages(setting, read))
    ensures r.DryRun? <==> !r.Refused? && setting.dryRun
    ensures r.Executed? <==>
              && !r.Refused? && !r.DryRun? && setting.composed && setting.readsOldConfig && setting.makesRollback
              && Extraction(old(disk.nodes), disk.faults, staging, tar).ok
              && Adapted(adapt, StagedConfig(disk.nodes, staging)).Some?
    ensures r.Executed? ==> HoldsAllData(tar.entries)
    ensures r.Executed? && LinksStay(old(disk.nodes), disk.faults, staging, tar) ==>
              Accounted(storage, script, StagedShelf(disk.nodes, staging), old(storage.rollback), old(storage.config),
                        r.verdict)
    ensures Restored(r) ==> Tidied(storage, script, old(storage.rollback), r.verdict)
    ensures Restored(r) ==> RunsConfig(storage, adapt, StagedConfig(disk.nodes, staging))
    ensures !r.Refused? && !r.DryRun? && setting.composed ==>
              (OnlyInside(old(disk.nodes), disk.nodes, staging) <==>
                 LinksStay(old(disk.nodes), disk.faults, staging, tar))
    ensures Uncrossed(tar.entries) ==> LinksStay(old(disk.nodes), disk.faults, staging, tar)
    ensures Uncrossed(tar.entries) ==> Contained(old(disk.nodes), disk.nodes, staging)
    ensures LinksStay(old(disk.nodes), disk.faults, staging, tar) ==>
              OnlyInside(old(disk.nodes), disk.nodes, staging) && Careful(storage, script)
    ensures LinksStay(old(disk.nodes), disk.faults, staging, tar) && !r.Executed? ==>
              storage.live == storage.orig && storage.rollback == old(storage.rollback)
              && storage.config == old(storage.config)
    ensures BackupOf(c, tar, sources, m) ==> Uncrossed(tar.entries)
    ensures Restored(r) && BackupOf(c, tar, sources, m) ==>
              RunsAsBackedUp(storage, sources, script, adapt, StagedConfig(disk.nodes, staging))
    ensures BackupOf(c, tar, sources, m) && Unopposed(disk.faults, staging) ==>
              (Restored(r) <==>
                 && SettingFits(setting, m)
                 && SafeVisits(staging, AllVisits(sources))
                 && Adapted(adapt, StagedConfig(disk.nodes, staging)).Some?
                 && NoStepFails(storage.names, script, storage.orig, old(storage.rollback)))
  {
    UnpackingStays(disk.nodes, disk.faults, staging, tar);
    AcceptedIsFit(c, tar, sources, m, staging);
    var vetted := Vet(c, tar, setting, sources, m);
    if !vetted { return Refused; }
    if setting.dryRun { return DryRun; }
    if !setting.composed { return Unprepared; }
    r := RestoreVetted(c, tar, setting, disk, staging, storage, adapt, script, sources, m);
  }

  lemma UnpackingStays(nodes: Nodes, f: Faults, staging: Path, tar: Tarball)
    requires Fresh(nodes, staging) && AllProper(staging)
    ensures var after := Extraction(nodes, f, staging, tar).nodes;
            && Kept(nodes, after)
            && (OnlyInside(nodes, after, staging) <==> LinksStay(nodes, f, staging, tar))
            && (Uncrossed(tar.entries) ==> LinksStay(nodes, f, staging, tar) && Contained(nodes, after, staging))
  {
    ExtractionStaysExactlyWhen(nodes, f, staging, tar);
    if Uncrossed(tar.entries) {
      ExtractionStays(nodes, f, staging, tar);
      UncrossedLinksStay(nodes, f, staging, tar);
    }
    ExtractionKeeps(nodes, f, staging, tar);
  }

  lemma AcceptedIsFit(c: Codec, tar: Tarball, sources: seq<Source>, m: Manifest, staging: Path)
    ensures (exists read :: Accepts(c, tar, read)) ==> HoldsAllData(tar.entries)
    ensures BackupOf(c, tar, sources, m) ==> Uncrossed(tar.entries)
  {
    if read :| Accepts(c, tar, read) { AcceptedHoldsAllData(c, tar, read); }
    if BackupOf(c, tar, sources, m) {
      AcceptedUnpacks(c, tar, sources, m, staging);
      NestedIsUncrossed(tar.entries);
    }
  }
}
