/** Backup archives: how they are written and when they are accepted (cmd/kagectl/backup.go).
    JSON and SHA-256 are parameters; tar and gzip carry their entries unchanged. */
module Archive {
  import opened Strings
  import opened Seqs
  import opened Paths
  import opened Trees

  datatype Kind = DirEntry | FileEntry | LinkEntry | OtherEntry

  /** One tar entry: its header, and the bytes a reader gets for it. */
  datatype TarEntry = TarEntry(name: string, kind: Kind, meta: Meta, size: int, link: string, body: seq<byte>)

  /** An archive file. Reading a damaged one fails after its last whole entry. */
  datatype Tarball = Tarball(entries: seq<TarEntry>, damaged: bool)

  datatype Facts = Facts(kind: string, size: int, mode: nat, uid: int, gid: int, digest: string, link: string)

  datatype Record = Record(path: string, facts: Facts)

  datatype Manifest = Manifest(
    schema: string,
    createdAt: int,
    mainImage: string,
    appBaseImage: string,
    mysqlImage: string,
    minioImage: string,
    storageRoot: string,
    consistent: bool,
    stoppedStack: bool,
    records: seq<Record>)

  datatype Codec = Codec(
    encode: Manifest -> seq<byte>,
    decode: seq<byte> -> Option<Manifest>,
    digest: seq<byte> -> string)
  {
    /** What JSON objects promise: they read back, and a cut one does not read at all. */
    ghost predicate Lawful() {
      forall m, n: nat :: n <= |encode(m)| ==>
        decode(encode(m)[..n]) == if n == |encode(m)| then Some(m) else None
    }
  }

  const SCHEMA := "kageos.backup.v1"
  const MANIFEST := "manifest.json"
  const READ_LIMIT := 16 * 1024 * 1024
  const PERMISSIONS := 512

  // ------------------------------------------------------------------- writing

  datatype Source = Source(root: Path, item: Option<Item>)

  function SourceRoots(): seq<Path> {
    [["config", "kage.yaml"], ["data", "mysql"], ["data", "minio"], ["data", "namespace"], ["data", "data"],
     ["data", "tls"]]
  }

  function NameOn(path: Path): string {
    Join(path, '/')
  }

  function HeaderOf(name: string, item: Item): TarEntry
    requires !item.Special?
  {
    match item
    case File(meta, data) => TarEntry(name, FileEntry, meta, |data|, "", data)
    case Link(meta, target) => TarEntry(name, LinkEntry, meta, 0, target, [])
    case Folder(meta, _) => TarEntry(name, DirEntry, meta, 0, "", [])
  }

  function RecordOf(c: Codec, name: string, item: Item): Record
    requires !item.Special?
  {
    var mode := item.meta.mode % PERMISSIONS;
    Record(name,
           match item
           case File(meta, data) => Facts("file", |data|, mode, meta.uid, meta.gid, c.digest(data), "")
           case Link(meta, target) => Facts("symlink", 0, mode, meta.uid, meta.gid, "", target)
           case Folder(meta, _) => Facts("dir", 0, mode, meta.uid, meta.gid, "", ""))
  }

  predicate Holdable(visits: seq<Visit>) {
    forall i :: 0 <= i < |visits| ==> !visits[i].item.Special?
  }

  function Headers(visits: seq<Visit>): (r: seq<TarEntry>)
    requires Holdable(visits)
  {
    seq(|visits|, i requires 0 <= i < |visits| => HeaderOf(NameOn(visits[i].path), visits[i].item))
  }

  function Records(c: Codec, visits: seq<Visit>): (r: seq<Record>)
    requires Holdable(visits)
  {
    seq(|visits|, i requires 0 <= i < |visits| => RecordOf(c, NameOn(visits[i].path), visits[i].item))
  }

  /** How far a walk comes: up to the first thing that a backup cannot hold. */
  function Reach(visits: seq<Visit>): (r: seq<Visit>)
    ensures Holdable(r) && r <= visits
    ensures r == visits <==> Holdable(visits)
  {
    if visits == [] || visits[0].item.Special? then []
    else
      var rest := Reach(visits[1..]);
      assert visits == [visits[0]] + visits[1..];
      [visits[0]] + rest
  }

  lemma {:induction false} ReachConcat(left: seq<Visit>, right: seq<Visit>)
    ensures Reach(left + right) == if Holdable(left) then left + Reach(right) else Reach(left)
  {
    if left == [] {
      assert left + right == right;
    } else {
      assert (left + right)[1..] == left[1..] + right;
      assert left == [left[0]] + left[1..];
      ReachConcat(left[1..], right);
    }
  }

  function AllVisits(sources: seq<Source>): seq<Visit>
    requires forall i :: 0 <= i < |sources| ==> sources[i].item.Some?
  {
    if sources == [] then []
    else
      var n := |sources| - 1;
      AllVisits(sources[..n]) + Walk(sources[n].root, sources[n].item.value)
  }

  predicate Present(sources: seq<Source>) {
    forall i :: 0 <= i < |sources| ==> sources[i].item.Some?
  }

  predicate Complete(sources: seq<Source>) {
    Present(sources) && Holdable(AllVisits(sources))
  }

  predicate ProperSources(sources: seq<Source>) {
    forall i :: 0 <= i < |sources| ==>
      && AllProper(sources[i].root) && sources[i].root != []
      && (sources[i].item.Some? ==> WellFormed(sources[i].item.value))
  }

  function WithRecords(m: Manifest, c: Codec, visits: seq<Visit>): Manifest
    requires Holdable(visits)
  {
    m.(records := m.records + Records(c, visits))
  }

  function ManifestEntry(c: Codec, m: Manifest): TarEntry {
    TarEntry(MANIFEST, FileEntry, Meta(384, 0, 0), |c.encode(m)|, "", c.encode(m))
  }

  /** The archive of these visits, with the manifest in last place. */
  function Written(c: Codec, visits: seq<Visit>, m: Manifest): Tarball
    requires Holdable(visits)
  {
    Tarball(Headers(visits) + [ManifestEntry(c, WithRecords(m, c, visits))], false)
  }

  /** The manifest is the last entry: a file for its owner only, which reads back as what was meant
      with one record for every visit. */
  lemma WrittenManifest(c: Codec, visits: seq<Visit>, m: Manifest)
    requires Holdable(visits) && c.Lawful()
    ensures var entries := Written(c, visits, m).entries;
            && |entries| == |visits| + 1
            && var e := entries[|visits|];
               && e.name == "manifest.json" && e.kind == FileEntry && e.link == ""
               && e.meta == Meta(6 * 64, 0, 0) && e.size == |e.body|
               && c.decode(e.body) == Some(m.(records := m.records + Records(c, visits)))
  {
    var body := c.encode(WithRecords(m, c, visits));
    assert body[..|body|] == body;
  }

  /** Archive and manifest have grown together by these visits. */
  ghost predicate Grew(c: Codec, entries: seq<TarEntry>, m: Manifest, entries': seq<TarEntry>, m': Manifest,
                       visits: seq<Visit>)
  {
    Holdable(visits) && entries' == entries + Headers(visits) && m' == WithRecords(m, c, visits)
  }

  lemma GrewTwice(c: Codec, e0: seq<TarEntry>, m0: Manifest, e1: seq<TarEntry>, m1: Manifest, e2: seq<TarEntry>,
                  m2: Manifest, left: seq<Visit>, right: seq<Visit>)
    requires Grew(c, e0, m0, e1, m1, left) && Grew(c, e1, m1, e2, m2, right)
    ensures Grew(c, e0, m0, e2, m2, left + right)
  {
    assert Headers(left + right) == Headers(left) + Headers(right);
    assert Records(c, left + right) == Records(c, left) + Records(c, right);
    assert e2 == e0 + (Headers(left) + Headers(right));
    assert m2.records == m0.records + (Records(c, left) + Records(c, right));
  }

  /** One part of the walk after another: the second is only taken if the first got through. */
  lemma GrewOn(c: Codec, e0: seq<TarEntry>, m0: Manifest, e1: seq<TarEntry>, m1: Manifest, e2: seq<TarEntry>,
               m2: Manifest, left: seq<Visit>, right: seq<Visit>)
    requires Grew(c, e0, m0, e1, m1, Reach(left))
    requires if Holdable(left) then Grew(c, e1, m1, e2, m2, Reach(right)) else e1 == e2 && m1 == m2
    ensures Grew(c, e0, m0, e2, m2, Reach(left + right))
    ensures Holdable(left + right) <==> Holdable(left) && Holdable(right)
  {
    ReachConcat(left, right);
    if Holdable(left) { GrewTwice(c, e0, m0, e1, m1, e2, m2, left, Reach(right)); }
    HoldableConcat(left, right);
  }

  lemma HoldableConcat(left: seq<Visit>, right: seq<Visit>)
    ensures Holdable(left + right) <==> Holdable(left) && Holdable(right)
  {
    var all := left + right;
    if Holdable(all) {
      forall i | 0 <= i < |left| ensures !left[i].item.Special? { assert all[i] == left[i]; }
      forall i | 0 <= i < |right| ensures !right[i].item.Special? { assert all[|left| + i] == right[i]; }
    }
  }

  lemma GrewByOne(c: Codec, entries: seq<TarEntry>, m: Manifest, v: Visit)
    requires !v.item.Special?
    ensures Reach([v]) == [v]
    ensures Grew(c, entries, m, entries + [HeaderOf(NameOn(v.path), v.item)],
                 m.(records := m.records + [RecordOf(c, NameOn(v.path), v.item)]), [v])
  {
    assert Reach([v]) == [v];
    assert Headers([v]) == [HeaderOf(NameOn(v.path), v.item)];
    assert Records(c, [v]) == [RecordOf(c, NameOn(v.path), v.item)];
  }

  lemma GrewByNone(c: Codec, entries: seq<TarEntry>, m: Manifest)
    ensures Grew(c, entries, m, entries, m, [])
  {
    assert Headers([]) == [] && Records(c, []) == [];
  }

  class BackupWriter {
    const codec: Codec
    var manifest: Manifest
    var entries: seq<TarEntry>
    var published: Option<Tarball>

    constructor (codec: Codec, manifest: Manifest, published: Option<Tarball>)
      ensures this.codec == codec && this.manifest == manifest && this.published == published && entries == []
    {
      this.codec := codec;
      this.manifest := manifest;
      this.published := published;
      entries := [];
    }

    method WriteEntry(path: Path, item: Item) returns (ok: bool)
      requires AllProper(path) && path != []
      modifies this`entries, this`manifest
      ensures ok == !item.Special?
      ensures Grew(codec, old(entries), old(manifest), entries, manifest, Reach([Visit(path, item)]))
    {
      GrewByNone(codec, entries, manifest);
      if item.Special? { return false; }
      GrewByOne(codec, entries, manifest, Visit(path, item));
      SplitJoin(path, '/');
      CleanOfProper(Join(path, '/'));
      var name := Clean(Join(path, '/'));
      entries := entries + [HeaderOf(name, item)];
      manifest := manifest.(records := manifest.records + [RecordOf(codec, name, item)]);
      ok := true;
    }

    method AddTree(path: Path, item: Item) returns (ok: bool)
      requires AllProper(path) && path != [] && WellFormed(item)
      modifies this`entries, this`manifest
      ensures ok == Holdable(Walk(path, item))
      ensures Grew(codec, old(entries), old(manifest), entries, manifest, Reach(Walk(path, item)))
      decreases item, 0
    {
      ok := WriteEntry(path, item);
      ghost var e, m := entries, manifest;
      var first := [Visit(path, item)];
      assert ok == Holdable(first);
      if item.Folder? {
        if ok { ok := AddChildren(path, item.children); }
        GrewOn(codec, old(entries), old(manifest), e, m, entries, manifest, first, WalkAll(path, item.children));
      } else {
        assert Walk(path, item) == first;
      }
    }

    method AddChildren(path: Path, children: seq<Child>) returns (ok: bool)
      requires AllProper(path) && AllWellFormed(children)
      modifies this`entries, this`manifest
      ensures ok == Holdable(WalkAll(path, children))
      ensures Grew(codec, old(entries), old(manifest), entries, manifest, Reach(WalkAll(path, children)))
      decreases children
    {
      ok := true;
      var k := 0;
      GrewByNone(codec, entries, manifest);
      while k < |children| && ok
        invariant k <= |children|
        invariant ok == Holdable(WalkAll(path, children[..k]))
        invariant Grew(codec, old(entries), old(manifest), entries, manifest, Reach(WalkAll(path, children[..k])))
      {
        ghost var e, m := entries, manifest;
        ChildIsGood(children, k);
        ok := AddTree(path + [children[k].name], children[k].item);
        TakeNext(children, k);
        GrewOn(codec, old(entries), old(manifest), e, m, entries, manifest, WalkAll(path, children[..k]),
               Walk(path + [children[k].name], children[k].item));
        k := k + 1;
      }
      StoppedEarly(path, children, k);
    }

    /** os.Lstat on the source comes first; then the walk. */
    method AddSource(source: Source) returns (ok: bool)
      requires AllProper(source.root) && source.root != []
      requires source.item.Some? ==> WellFormed(source.item.value)
      modifies this`entries, this`manifest
      ensures ok == (source.item.Some? && Holdable(Walk(source.root, source.item.value)))
      ensures ok ==> Grew(codec, old(entries), old(manifest), entries, manifest,
                          Walk(source.root, source.item.value))
    {
      if source.item.None? { return false; }
      ok := AddTree(source.root, source.item.value);
    }

    /** The archive appears under its name whole or not at all. `finishes` says whether
        closing the temporary file and renaming it succeed. */
    method WriteBackupArchive(sources: seq<Source>, finishes: bool) returns (ok: bool)
      requires ProperSources(sources)
      modifies this
      ensures ok == (Complete(sources) && finishes)
      ensures published == if ok then Some(Written(codec, AllVisits(sources), old(manifest))) else old(published)
    {
      entries := [];
      GrewByNone(codec, entries, manifest);
      for k := 0 to |sources|
        invariant published == old(published)
        invariant Complete(sources[..k])
        invariant Grew(codec, [], old(manifest), entries, manifest, AllVisits(sources[..k]))
      {
        ghost var e, m := entries, manifest;
        var added := AddSource(sources[k]);
        CompleteStep(sources, k);
        if !added { return false; }
        GrewTwice(codec, [], old(manifest), e, m, entries, manifest, AllVisits(sources[..k]),
                  Walk(sources[k].root, sources[k].item.value));
      }
      TakeAll(sources);
      if !finishes { return false; }
      assert entries == Headers(AllVisits(sources));
      entries := entries + [ManifestEntry(codec, manifest)];
      published := Some(Tarball(entries, false));
      ok := true;
    }
  }

  lemma {:induction false} StoppedEarly(path: Path, children: seq<Child>, k: nat)
    requires k <= |children|
    ensures Holdable(WalkAll(path, children)) ==> Holdable(WalkAll(path, children[..k]))
    ensures !Holdable(WalkAll(path, children[..k])) ==>
              Reach(WalkAll(path, children)) == Reach(WalkAll(path, children[..k]))
    ensures k == |children| ==> WalkAll(path, children) == WalkAll(path, children[..k])
  {
    if k < |children| {
      var n := |children| - 1;
      StoppedEarly(path, children[..n], k);
      assert children[..n][..k] == children[..k];
      var last := Walk(path + [children[n].name], children[n].item);
      ReachConcat(WalkAll(path, children[..n]), last);
      HoldableConcat(WalkAll(path, children[..n]), last);
    } else {
      assert children[..k] == children;
    }
  }

  lemma CompleteStep(sources: seq<Source>, k: nat)
    requires k < |sources| && Complete(sources[..k])
    ensures Complete(sources[..k + 1]) <==>
              sources[k].item.Some? && Holdable(Walk(sources[k].root, sources[k].item.value))
    ensures Complete(sources) ==> Complete(sources[..k + 1])
    ensures sources[k].item.Some? ==>
              AllVisits(sources[..k + 1]) ==
                AllVisits(sources[..k]) + Walk(sources[k].root, sources[k].item.value)
  {
    var upTo := sources[..k + 1];
    assert upTo[..k] == sources[..k] && upTo[k] == sources[k];
    if sources[k].item.Some? {
      assert Present(upTo) by { assert forall i :: 0 <= i < k ==> upTo[i] == sources[..k][i]; }
      HoldableConcat(AllVisits(sources[..k]), Walk(sources[k].root, sources[k].item.value));
    }
    if Complete(sources) { PartsComplete(sources, k + 1); }
  }

  lemma {:induction false} PartsComplete(sources: seq<Source>, k: nat)
    requires k <= |sources| && Complete(sources)
    ensures Complete(sources[..k])
  {
    if k < |sources| {
      var n := |sources| - 1;
      HoldableConcat(AllVisits(sources[..n]), Walk(sources[n].root, sources[n].item.value));
      PartsComplete(sources[..n], k);
      assert sources[..n][..k] == sources[..k];
    } else {
      assert sources[..k] == sources;
    }
  }
}
