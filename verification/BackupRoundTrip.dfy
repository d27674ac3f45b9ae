/** A backup that was written is accepted, and unpacks to the trees it was written from. */
module BackupRoundTrip {
  import opened Strings
  import opened Seqs
  import opened Paths
  import opened Trees
  import opened Archive
  import opened Verifier
  import opened FileSystem
  import opened Unpacking
  import opened UnpackingLaws

  // ------------------------------------------------------- what the writer visits

  /** No source lies inside another. */
  predicate Separate(sources: seq<Source>) {
    forall i, j :: 0 <= i < |sources| && 0 <= j < |sources| && i != j ==> !(sources[i].root <= sources[j].root)
  }

  ghost predicate InSources(v: Visit, sources: seq<Source>)
    requires Present(sources)
  {
    exists i :: 0 <= i < |sources| && Belongs(v, sources[i].root, sources[i].item.value)
  }

  lemma {:induction false} AllVisitsMeetTheSources(v: Visit, sources: seq<Source>)
    requires ProperSources(sources) && Present(sources)
    ensures v in AllVisits(sources) <==> InSources(v, sources)
  {
    if sources != [] {
      var n := |sources| - 1;
      var before := sources[..n];
      AllVisitsMeetTheSources(v, before);
      WalkMeetsTheTree(v, sources[n].root, sources[n].item.value);
      InOneMore(v, sources);
    }
  }

  lemma InOneMore(v: Visit, sources: seq<Source>)
    requires sources != [] && Present(sources)
    ensures var n := |sources| - 1;
            InSources(v, sources) <==> InSources(v, sources[..n]) || Belongs(v, sources[n].root, sources[n].item.value)
  {
    var n := |sources| - 1;
    var before := sources[..n];
    if InSources(v, before) {
      var i :| 0 <= i < n && Belongs(v, before[i].root, before[i].item.value);
      assert Belongs(v, sources[i].root, sources[i].item.value);
    }
    if InSources(v, sources) {
      var i :| 0 <= i < |sources| && Belongs(v, sources[i].root, sources[i].item.value);
      if i < n { assert before[i] == sources[i]; }
    }
  }

  lemma SameSource(sources: seq<Source>, i: nat, j: nat, path: Path)
    requires Separate(sources) && i < |sources| && j < |sources|
    requires sources[i].root <= path && sources[j].root <= path
    ensures i == j
  {
    PrefixesNest(sources[i].root, sources[j].root, path);
  }

  lemma VisitsApart(sources: seq<Source>, v: Visit, w: Visit)
    requires sources != [] && Present(sources) && Separate(sources)
    requires InSources(v, sources[..|sources| - 1])
    requires Belongs(w, sources[|sources| - 1].root, sources[|sources| - 1].item.value)
    ensures v.path != w.path
  {
    var before := sources[..|sources| - 1];
    var i :| 0 <= i < |before| && Belongs(v, before[i].root, before[i].item.value);
    assert before[i] == sources[i];
    SourcesApart(sources, i, |before|, v.path, w.path);
  }

  lemma SourcesApart(sources: seq<Source>, i: nat, j: nat, p: Path, q: Path)
    requires Separate(sources) && i < j < |sources|
    requires sources[i].root <= p && sources[j].root <= q
    ensures p != q
  {
    if p == q { PrefixesNest(sources[i].root, sources[j].root, p); }
  }

  lemma {:induction false} AllVisitsAreDistinct(sources: seq<Source>)
    requires ProperSources(sources) && Present(sources) && Separate(sources)
    ensures DistinctPaths(AllVisits(sources))
  {
    if sources != [] {
      var n := |sources| - 1;
      var before, last := AllVisits(sources[..n]), Walk(sources[n].root, sources[n].item.value);
      AllVisitsAreDistinct(sources[..n]);
      WalkIsDistinct(sources[n].root, sources[n].item.value);
      forall v, w | v in before && w in last
        ensures v.path != w.path
      {
        AllVisitsMeetTheSources(v, sources[..n]);
        WalkMeetsTheTree(w, sources[n].root, sources[n].item.value);
        VisitsApart(sources, v, w);
      }
      DistinctConcat(before, last);
    }
  }

  /** What any archive of trees looks like: each path once and proper, and below a path
      something else only if that path is a folder. */
  ghost predicate TreeLike(visits: seq<Visit>) {
    && DistinctPaths(visits)
    && (forall v :: v in visits ==> v.path != [] && AllProper(v.path) && WellFormed(v.item))
    && (forall v, w :: v in visits && w in visits && v.path < w.path ==> v.item.Folder?)
  }

  lemma ProperConcat(left: Path, right: Path)
    requires AllProper(left) && AllProper(right)
    ensures AllProper(left + right)
  {
  }

  lemma VisitIsProper(v: Visit, root: Path, item: Item)
    requires AllProper(root) && root != [] && WellFormed(item) && Belongs(v, root, item)
    ensures v.path != [] && AllProper(v.path) && WellFormed(v.item)
  {
    PathsAreProper(item, v.path[|root|..]);
    ProperConcat(root, v.path[|root|..]);
    assert v.path == root + v.path[|root|..];
  }

  lemma ParentIsFolder(v: Visit, w: Visit, root: Path, item: Item)
    requires Belongs(v, root, item) && Belongs(w, root, item) && v.path < w.path
    ensures v.item.Folder?
  {
    var k := |v.path| - |root|;
    OnTheWay(item, w.path[|root|..], k);
    assert w.path[|root|..][..k] == v.path[|root|..];
  }

  lemma VisitsAreTreeLike(sources: seq<Source>)
    requires ProperSources(sources) && Present(sources) && Separate(sources)
    ensures TreeLike(AllVisits(sources))
  {
    var visits := AllVisits(sources);
    AllVisitsAreDistinct(sources);
    forall v | v in visits
      ensures v.path != [] && AllProper(v.path) && WellFormed(v.item)
    {
      AllVisitsMeetTheSources(v, sources);
      var i :| 0 <= i < |sources| && Belongs(v, sources[i].root, sources[i].item.value);
      VisitIsProper(v, sources[i].root, sources[i].item.value);
    }
    forall v, w | v in visits && w in visits && v.path < w.path
      ensures v.item.Folder?
    {
      AllVisitsMeetTheSources(v, sources);
      AllVisitsMeetTheSources(w, sources);
      var i :| 0 <= i < |sources| && Belongs(v, sources[i].root, sources[i].item.value);
      var j :| 0 <= j < |sources| && Belongs(w, sources[j].root, sources[j].item.value);
      SameSource(sources, i, j, w.path);
      ParentIsFolder(v, w, sources[i].root, sources[i].item.value);
    }
  }

  // ------------------------------------------------------------ names and records

  lemma NamesAreInjective(p: Path, q: Path)
    requires p != [] && q != [] && AllProper(p) && AllProper(q)
    ensures NameOn(p) == NameOn(q) <==> p == q
  {
    SplitJoin(p, '/');
    SplitJoin(q, '/');
  }

  /** The last character of a name is that of its last component. */
  lemma {:induction false} NameEnds(path: Path)
    requires path != [] && AllProper(path)
    ensures var name, first, last := NameOn(path), path[0], path[|path| - 1];
            name != "" && name[0] == first[0] && name[|name| - 1] == last[|last| - 1]
  {
    if |path| > 1 { NameEnds(path[1..]); }
  }

  predicate EndsInSpace(path: Path) {
    path != [] &&
      var last := path[|path| - 1];
      last != "" && IsSpace(last[|last| - 1])
  }

  predicate StartsWell(path: Path) {
    path != [] && path[0] != "" && !IsSpace(path[0][0])
  }

  lemma TrimmedName(path: Path)
    requires AllProper(path) && StartsWell(path)
    ensures TrimSpace(NameOn(path)) == NameOn(path) <==> !EndsInSpace(path)
    ensures EndsInSpace(path) ==> forall s: string :: TrimSpace(s) != NameOn(path)
  {
    NameEnds(path);
  }

  // ------------------------------------------------- a written backup is accepted

  predicate GoodVisits(visits: seq<Visit>) {
    && Holdable(visits)
    && (forall i :: 0 <= i < |visits| ==>
          |visits[i].path| >= 2 && AllProper(visits[i].path) && StartsWell(visits[i].path))
  }

  predicate Untrimmed(visits: seq<Visit>) {
    forall i :: 0 <= i < |visits| ==> !EndsInSpace(visits[i].path)
  }

  lemma NotTheManifest(path: Path)
    requires |path| >= 2 && AllProper(path)
    ensures NameOn(path) != MANIFEST
  {
    SplitJoin(path, '/');
    SplitWord(MANIFEST, '/');
  }

  function EntryOf(v: Visit): TarEntry
    requires !v.item.Special?
  {
    HeaderOf(NameOn(v.path), v.item)
  }

  /** The verifier sees in an entry just what the writer recorded for it. */
  lemma SeenAsRecorded(c: Codec, v: Visit)
    requires !v.item.Special?
    ensures Seen(c, EntryOf(v)) == RecordOf(c, NameOn(v.path), v.item).facts
  {
  }

  lemma EntryName(v: Visit)
    requires |v.path| >= 2 && AllProper(v.path) && StartsWell(v.path) && !EndsInSpace(v.path) && !v.item.Special?
    ensures NameOf(EntryOf(v)) == NameOn(v.path) && !IsManifest(EntryOf(v))
    ensures ValidateArchivePath(EntryOf(v).name).Some?
  {
    TrimmedName(v.path);
    NotTheManifest(v.path);
    SplitJoin(v.path, '/');
    ValidNames(NameOn(v.path));
  }

  lemma ManifestName(c: Codec, m: Manifest)
    ensures IsManifest(ManifestEntry(c, m)) && ValidateArchivePath(ManifestEntry(c, m).name).Some?
  {
    PlainName(ManifestEntry(c, m));
  }

  lemma PlainName(e: TarEntry)
    requires Proper(e.name) && !IsSpace(e.name[0]) && !IsSpace(e.name[|e.name| - 1])
    ensures NameOf(e) == e.name && ValidateArchivePath(e.name).Some?
  {
    ValidNames(e.name);
    SplitWord(e.name, '/');
  }

  /** The entries of a written archive, one by one. */
  lemma WrittenEntries(c: Codec, visits: seq<Visit>, m: Manifest)
    requires Holdable(visits)
    ensures var tar := Written(c, visits, m);
            && |tar.entries| == |visits| + 1
            && (forall i :: 0 <= i < |visits| ==> tar.entries[i] == EntryOf(visits[i]))
            && tar.entries[|visits|] == ManifestEntry(c, WithRecords(m, c, visits))
  {
  }

  lemma WrittenIsSafe(c: Codec, visits: seq<Visit>, m: Manifest)
    requires GoodVisits(visits) && Untrimmed(visits)
    ensures SafeNames(Written(c, visits, m).entries)
  {
    var entries := Written(c, visits, m).entries;
    forall i | 0 <= i < |entries|
      ensures ValidateArchivePath(entries[i].name).Some?
    {
      if i < |visits| { EntryName(visits[i]); } else { ManifestName(c, WithRecords(m, c, visits)); }
    }
  }

  lemma WrittenIsKnown(c: Codec, visits: seq<Visit>, m: Manifest)
    requires Holdable(visits)
    ensures KnownKinds(Written(c, visits, m).entries)
  {
    var entries := Written(c, visits, m).entries;
    ManifestName(c, WithRecords(m, c, visits));
    WrittenEntries(c, visits, m);
    forall i | 0 <= i < |entries|
      ensures IsManifest(entries[i]) || !entries[i].kind.OtherEntry?
    {
      if i == |visits| {
        assert IsManifest(entries[i]);
      } else {
        assert !EntryOf(visits[i]).kind.OtherEntry?;
      }
    }
  }

  lemma WrittenIsDistinct(c: Codec, visits: seq<Visit>, m: Manifest)
    requires GoodVisits(visits) && Untrimmed(visits) && DistinctPaths(visits)
    ensures DistinctNames(Written(c, visits, m).entries)
  {
    var entries := Written(c, visits, m).entries;
    ManifestName(c, WithRecords(m, c, visits));
    forall i, j | 0 <= i < j < |entries|
      ensures NameOf(entries[i]) != NameOf(entries[j])
    {
      EntryName(visits[i]);
      if j < |visits| {
        EntryName(visits[j]);
        NamesAreInjective(visits[i].path, visits[j].path);
      }
    }
  }

  lemma RecordsAreDistinct(c: Codec, visits: seq<Visit>)
    requires GoodVisits(visits) && DistinctPaths(visits)
    ensures DistinctRecords(Records(c, visits))
  {
    forall i, j | 0 <= i < j < |visits|
      ensures NameOn(visits[i].path) != NameOn(visits[j].path)
    {
      NamesAreInjective(visits[i].path, visits[j].path);
    }
  }

  lemma WrittenMatches(c: Codec, visits: seq<Visit>, m: Manifest)
    requires GoodVisits(visits) && Untrimmed(visits) && DistinctPaths(visits)
    ensures Matching(c, Written(c, visits, m).entries, Records(c, visits))
  {
    var entries, records := Written(c, visits, m).entries, Records(c, visits);
    WrittenIsDistinct(c, visits, m);
    RecordsAreDistinct(c, visits);
    forall r
      ensures r in records <==> Describes(c, entries, r)
    {
      if r in records {
        var i :| 0 <= i < |records| && records[i] == r;
        EntryName(visits[i]);
        SeenAsRecorded(c, visits[i]);
        assert entries[i] in entries;
      }
      if Describes(c, entries, r) {
        var e :| e in entries && !IsManifest(e) && r == Record(NameOf(e), Seen(c, e));
        var i :| 0 <= i < |entries| && entries[i] == e;
        ManifestName(c, WithRecords(m, c, visits));
        EntryName(visits[i]);
        SeenAsRecorded(c, visits[i]);
        assert records[i] == r;
      }
    }
  }

  /** A name that ends in white space is recorded but never seen. */
  lemma TrimmedNamesDoNotMatch(c: Codec, visits: seq<Visit>, m: Manifest)
    requires GoodVisits(visits) && !Untrimmed(visits)
    ensures !Matching(c, Written(c, visits, m).entries, Records(c, visits))
  {
    var i :| 0 <= i < |visits| && EndsInSpace(visits[i].path);
    var r := Records(c, visits)[i];
    TrimmedName(visits[i].path);
    assert r in Records(c, visits);
    assert !Describes(c, Written(c, visits, m).entries, r);
  }

  /** The manifest comes back unless it is too long to be read whole. */
  lemma ManifestReadsBack(c: Codec, m: Manifest)
    requires c.Lawful()
    ensures ReadManifest(c, ManifestEntry(c, m)) == if |c.encode(m)| <= READ_LIMIT then Some(m) else None
  {
    var bytes := c.encode(m);
    assert bytes[..|bytes|] == bytes;
  }

  lemma LastEntryIsTheManifest(c: Codec, visits: seq<Visit>, m: Manifest, read: Manifest)
    requires GoodVisits(visits) && c.Lawful()
    ensures var full := WithRecords(m, c, visits);
            var entries := Written(c, visits, m).entries;
            && (DistinctNames(entries) && HoldsManifest(c, entries, read) ==>
                  read == full && |c.encode(full)| <= READ_LIMIT)
            && (|c.encode(full)| <= READ_LIMIT ==> HoldsManifest(c, entries, full))
  {
    var full := WithRecords(m, c, visits);
    var entries := Written(c, visits, m).entries;
    var e := ManifestEntry(c, full);
    ManifestName(c, full);
    ManifestReadsBack(c, full);
    assert entries[|visits|] == e;
    assert e in entries;
    if DistinctNames(entries) { OneManifest(c, entries, e, read); }
  }

  /** Every visited name is in the archive under that name. */
  lemma VisitedNames(c: Codec, visits: seq<Visit>, m: Manifest, v: Visit)
    requires GoodVisits(visits) && Untrimmed(visits) && v in visits
    ensures HasName(Written(c, visits, m).entries, NameOn(v.path))
  {
    var i :| 0 <= i < |visits| && visits[i] == v;
    EntryName(v);
    assert Written(c, visits, m).entries[i] == EntryOf(v);
    assert EntryOf(v) in Written(c, visits, m).entries;
  }

  predicate ProductionSources(sources: seq<Source>) {
    && ProperSources(sources)
    && |sources| == |SourceRoots()|
    && (forall i :: 0 <= i < |sources| ==> sources[i].root == SourceRoots()[i])
  }

  lemma ProductionIsSeparate(sources: seq<Source>)
    requires ProductionSources(sources)
    ensures Separate(sources)
  {
    var roots := SourceRoots();
    assert forall i, j :: 0 <= i < 6 && 0 <= j < 6 && i != j ==> roots[i][1] != roots[j][1];
  }

  lemma ProductionVisitsAreGood(sources: seq<Source>)
    requires ProductionSources(sources) && Complete(sources)
    ensures GoodVisits(AllVisits(sources))
  {
    var visits := AllVisits(sources);
    ProductionIsSeparate(sources);
    VisitsAreTreeLike(sources);
    forall k | 0 <= k < |visits|
      ensures |visits[k].path| >= 2 && StartsWell(visits[k].path)
    {
      AllVisitsMeetTheSources(visits[k], sources);
      ProductionVisit(visits[k], sources);
    }
  }

  lemma ProductionRoot(i: nat)
    requires i < |SourceRoots()|
    ensures |SourceRoots()[i]| == 2 && StartsWell(SourceRoots()[i])
  {
  }

  lemma ProductionVisit(v: Visit, sources: seq<Source>)
    requires ProductionSources(sources) && Present(sources) && InSources(v, sources)
    ensures |v.path| >= 2 && StartsWell(v.path)
  {
    var i :| 0 <= i < |sources| && Belongs(v, sources[i].root, sources[i].item.value);
    var root := sources[i].root;
    ProductionRoot(i);
    assert v.path[0] == root[0];
  }

  lemma RootIsWritten(c: Codec, sources: seq<Source>, m: Manifest, i: nat)
    requires ProperSources(sources) && Complete(sources) && i < |sources|
    requires GoodVisits(AllVisits(sources)) && Untrimmed(AllVisits(sources))
    ensures HasName(Written(c, AllVisits(sources), m).entries, NameOn(sources[i].root))
  {
    var v := Visit(sources[i].root, sources[i].item.value);
    assert Belongs(v, sources[i].root, sources[i].item.value);
    AllVisitsMeetTheSources(v, sources);
    VisitedNames(c, AllVisits(sources), m, v);
  }

  lemma RequiredRoot(i: nat)
    requires i < |Required()|
    ensures Required()[i] == NameOn(SourceRoots()[i])
  {
    var root := SourceRoots()[i];
    assert Join(root[1..], '/') == root[1];
  }

  lemma RequiredAreWritten(c: Codec, sources: seq<Source>, m: Manifest)
    requires ProductionSources(sources) && Complete(sources)
    requires GoodVisits(AllVisits(sources)) && Untrimmed(AllVisits(sources))
    ensures HasRequired(Written(c, AllVisits(sources), m).entries)
  {
    forall i | 0 <= i < |Required()|
      ensures HasName(Written(c, AllVisits(sources), m).entries, Required()[i])
    {
      RootIsWritten(c, sources, m, i);
      RequiredRoot(i);
    }
  }

  predicate CoversRequired(visits: seq<Visit>) {
    forall i :: 0 <= i < |SourceRoots()| ==> exists v :: v in visits && v.path == SourceRoots()[i]
  }

  /** Any list of visits that covers the required paths makes an acceptable archive. */
  lemma WrittenVisitsAreAccepted(c: Codec, visits: seq<Visit>, m: Manifest)
    requires c.Lawful() && GoodVisits(visits) && Untrimmed(visits) && DistinctPaths(visits) && CoversRequired(visits)
    requires m.records == [] && Current(m) && |c.encode(WithRecords(m, c, visits))| <= READ_LIMIT
    ensures Accepts(c, Written(c, visits, m), WithRecords(m, c, visits))
  {
    var full := WithRecords(m, c, visits);
    assert full.records == Records(c, visits);
    LastEntryIsTheManifest(c, visits, m, full);
    WrittenIsSafe(c, visits, m);
    WrittenIsKnown(c, visits, m);
    WrittenMatches(c, visits, m);
    forall i | 0 <= i < |Required()|
      ensures HasName(Written(c, visits, m).entries, Required()[i])
    {
      RequiredRoot(i);
      var v :| v in visits && v.path == SourceRoots()[i];
      VisitedNames(c, visits, m, v);
    }
  }

  /** A backup is accepted, with the manifest that was written, exactly when no archived
      name ends in white space and its manifest fits the reader's limit. */
  lemma WrittenIsAccepted(c: Codec, sources: seq<Source>, m: Manifest, read: Manifest)
    requires c.Lawful()
    requires ProductionSources(sources) && Complete(sources)
    requires m.records == [] && Current(m)
    ensures var full := WithRecords(m, c, AllVisits(sources));
            Accepts(c, Written(c, AllVisits(sources), m), read) <==>
              read == full && Untrimmed(AllVisits(sources)) && |c.encode(full)| <= READ_LIMIT
  {
    var visits := AllVisits(sources);
    var full := WithRecords(m, c, visits);
    var tar := Written(c, visits, m);
    assert full.records == Records(c, visits);
    ProductionVisitsAreGood(sources);
    LastEntryIsTheManifest(c, visits, m, read);
    if Accepts(c, tar, read) && !Untrimmed(visits) {
      TrimmedNamesDoNotMatch(c, visits, m);
    }
    if read == full && Untrimmed(visits) && |c.encode(full)| <= READ_LIMIT {
      ProductionIsSeparate(sources);
      AllVisitsAreDistinct(sources);
      WrittenIsSafe(c, visits, m);
      WrittenIsKnown(c, visits, m);
      WrittenMatches(c, visits, m);
      RequiredAreWritten(c, sources, m);
    }
  }

  // --------------------------------------------- an accepted backup can be unpacked

  /** What is left of an item on disk: its kind, its bytes, its target. */
  function Shallow(item: Item): Node
    requires !item.Special?
  {
    match item
    case File(_, data) => FileNode(data)
    case Link(_, target) => LinkNode(target)
    case Folder(_, _) => DirNode
  }

  ghost predicate HasEntry(entries: seq<TarEntry>, path: Path, node: Node) {
    exists e :: e in entries && !IsManifest(e) && PathOf(e) == path && NodeOf(e) == node
  }

  ghost predicate HasVisit(visits: seq<Visit>, path: Path, node: Node)
    requires Holdable(visits)
  {
    exists i :: 0 <= i < |visits| && visits[i].path == path && Shallow(visits[i].item) == node
  }

  /** The entries put at every path just what the visits found there. */
  ghost predicate Represents(entries: seq<TarEntry>, visits: seq<Visit>)
    requires Holdable(visits)
  {
    forall p, node :: HasEntry(entries, p, node) <==> HasVisit(visits, p, node)
  }

  /** No two different files of the same name share their digest. */
  ghost predicate NoCollision(c: Codec, entries: seq<TarEntry>, visits: seq<Visit>) {
    forall e, v :: e in entries && v in visits && v.item.File? && NameOf(e) == NameOn(v.path) ==>
      (c.digest(e.body) == c.digest(v.item.data) ==> e.body == v.item.data)
  }

  lemma SameFacts(c: Codec, e: TarEntry, v: Visit)
    requires v.path != [] && AllProper(v.path) && !v.item.Special?
    requires Record(NameOf(e), Seen(c, e)) == RecordOf(c, NameOn(v.path), v.item)
    requires v.item.File? && c.digest(e.body) == c.digest(v.item.data) ==> e.body == v.item.data
    ensures PathOf(e) == v.path && NodeOf(e) == Shallow(v.item)
  {
    SplitJoin(v.path, '/');
  }

  /** The manifest pins down what an accepted archive holds. */
  lemma AcceptedRepresents(c: Codec, tar: Tarball, visits: seq<Visit>, m: Manifest)
    requires GoodVisits(visits) && m.records == [] && NoCollision(c, tar.entries, visits)
    requires Accepts(c, tar, WithRecords(m, c, visits))
    ensures Represents(tar.entries, visits)
  {
    var entries, records := tar.entries, Records(c, visits);
    assert WithRecords(m, c, visits).records == records;
    forall p, node
      ensures HasEntry(entries, p, node) <==> HasVisit(visits, p, node)
    {
      if HasEntry(entries, p, node) {
        var e :| e in entries && !IsManifest(e) && PathOf(e) == p && NodeOf(e) == node;
        EntryIsVisit(c, entries, visits, e);
      }
      if HasVisit(visits, p, node) {
        var i :| 0 <= i < |visits| && visits[i].path == p && Shallow(visits[i].item) == node;
        VisitIsEntry(c, entries, visits, i);
      }
    }
  }

  lemma EntryIsVisit(c: Codec, entries: seq<TarEntry>, visits: seq<Visit>, e: TarEntry)
    requires GoodVisits(visits) && NoCollision(c, entries, visits) && Matching(c, entries, Records(c, visits))
    requires e in entries && !IsManifest(e)
    ensures HasVisit(visits, PathOf(e), NodeOf(e))
  {
    var r := Record(NameOf(e), Seen(c, e));
    assert Describes(c, entries, r);
    var i :| 0 <= i < |visits| && Records(c, visits)[i] == r;
    assert visits[i] in visits;
    SameFacts(c, e, visits[i]);
  }

  lemma VisitIsEntry(c: Codec, entries: seq<TarEntry>, visits: seq<Visit>, i: nat)
    requires GoodVisits(visits) && NoCollision(c, entries, visits) && Matching(c, entries, Records(c, visits))
    requires i < |visits|
    ensures HasEntry(entries, visits[i].path, Shallow(visits[i].item))
  {
    var r := Records(c, visits)[i];
    assert r in Records(c, visits);
    assert Describes(c, entries, r);
    var e :| e in entries && !IsManifest(e) && r == Record(NameOf(e), Seen(c, e));
    assert visits[i] in visits;
    SameFacts(c, e, visits[i]);
  }

  /** In the archive as written, a name leads back to the file it was written from. */
  lemma WrittenHasNoCollision(c: Codec, visits: seq<Visit>, m: Manifest)
    requires GoodVisits(visits) && Untrimmed(visits) && DistinctPaths(visits)
    ensures NoCollision(c, Written(c, visits, m).entries, visits)
  {
    var entries := Written(c, visits, m).entries;
    forall e, v | e in entries && v in visits && v.item.File? && NameOf(e) == NameOn(v.path)
      ensures e.body == v.item.data
    {
      NotTheManifest(v.path);
      ManifestName(c, WithRecords(m, c, visits));
      var i :| 0 <= i < |entries| && entries[i] == e;
      var j :| 0 <= j < |visits| && visits[j] == v;
      EntryName(visits[i]);
      NamesAreInjective(visits[i].path, v.path);
      assert i == j;
    }
  }

  lemma RepresentsIsNested(entries: seq<TarEntry>, visits: seq<Visit>)
    requires Holdable(visits) && TreeLike(visits) && Represents(entries, visits) && KnownKinds(entries)
    ensures Nested(entries)
  {
    forall d, e | d in entries && e in entries && !IsManifest(d) && !IsManifest(e) && PathOf(d) < PathOf(e)
      ensures d.kind.DirEntry?
    {
      assert HasEntry(entries, PathOf(d), NodeOf(d)) && HasEntry(entries, PathOf(e), NodeOf(e));
      assert HasVisit(visits, PathOf(d), NodeOf(d)) && HasVisit(visits, PathOf(e), NodeOf(e));
      var i :| 0 <= i < |visits| && visits[i].path == PathOf(d) && Shallow(visits[i].item) == NodeOf(d);
      var j :| 0 <= j < |visits| && visits[j].path == PathOf(e) && Shallow(visits[j].item) == NodeOf(e);
      assert visits[i] in visits && visits[j] in visits;
      KnownKind(entries, d);
    }
  }

  predicate SafeVisits(root: Path, visits: seq<Visit>) {
    forall i :: 0 <= i < |visits| && visits[i].item.Link? ==>
      SafeLink(root, root + visits[i].path, visits[i].item.target)
  }

  lemma RepresentedLinks(root: Path, entries: seq<TarEntry>, visits: seq<Visit>)
    requires Holdable(visits) && TreeLike(visits) && Represents(entries, visits)
    ensures SafeLinks(root, entries) <==> SafeVisits(root, visits)
  {
    if SafeVisits(root, visits) {
      forall e | e in entries
        ensures SafeEntry(root, e)
      {
        if IsLink(e) { RepresentedEntry(root, entries, visits, e); }
      }
    }
    if SafeLinks(root, entries) {
      forall i | 0 <= i < |visits| && visits[i].item.Link?
        ensures SafeLink(root, root + visits[i].path, visits[i].item.target)
      {
        assert HasVisit(visits, visits[i].path, Shallow(visits[i].item));
        assert HasEntry(entries, visits[i].path, Shallow(visits[i].item));
        var e :| e in entries && !IsManifest(e) && PathOf(e) == visits[i].path && NodeOf(e) == Shallow(visits[i].item);
        assert SafeEntry(root, e);
      }
    }
  }

  lemma RepresentedEntry(root: Path, entries: seq<TarEntry>, visits: seq<Visit>, e: TarEntry)
    requires Holdable(visits) && TreeLike(visits) && Represents(entries, visits) && SafeVisits(root, visits)
    requires e in entries && IsLink(e)
    ensures SafeEntry(root, e)
  {
    assert HasEntry(entries, PathOf(e), NodeOf(e));
    assert HasVisit(visits, PathOf(e), NodeOf(e));
    var i :| 0 <= i < |visits| && visits[i].path == PathOf(e) && Shallow(visits[i].item) == NodeOf(e);
    assert visits[i] in visits;
  }

  /** Every archive accepted for the manifest of a backup, this one or a rearranged one,
      has all that unpacking asks for, as long as the links in the backed-up trees are safe. */
  lemma AcceptedUnpacks(c: Codec, tar: Tarball, sources: seq<Source>, m: Manifest, root: Path)
    requires ProductionSources(sources) && Complete(sources) && m.records == []
    requires NoCollision(c, tar.entries, AllVisits(sources))
    requires Accepts(c, tar, WithRecords(m, c, AllVisits(sources)))
    ensures Represents(tar.entries, AllVisits(sources))
    ensures !tar.damaged && SafeNames(tar.entries) && KnownKinds(tar.entries) && DistinctNames(tar.entries)
    ensures Nested(tar.entries)
    ensures SafeLinks(root, tar.entries) <==> SafeVisits(root, AllVisits(sources))
  {
    var visits := AllVisits(sources);
    ProductionVisitsAreGood(sources);
    ProductionIsSeparate(sources);
    VisitsAreTreeLike(sources);
    AcceptedRepresents(c, tar, visits, m);
    RepresentsIsNested(tar.entries, visits);
    RepresentedLinks(root, tar.entries, visits);
  }

  // ------------------------------------------------------- and yields the same trees

  /** At this place below `path` stands what the tree has there, or nothing if it has nothing. */
  ghost predicate PlaceAt(nodes: Nodes, path: Path, item: Item, rel: Path) {
    match At(item, rel)
    case None => path + rel !in nodes
    case Some(x) => path + rel in nodes && !x.Special? && nodes[path + rel] == Shallow(x)
  }

  ghost predicate TreeAt(nodes: Nodes, path: Path, item: Item) {
    forall rel :: PlaceAt(nodes, path, item, rel)
  }

  lemma VisitFor(sources: seq<Source>, i: nat, rel: Path)
    requires ProperSources(sources) && Complete(sources) && i < |sources|
    requires At(sources[i].item.value, rel).Some?
    ensures var x := At(sources[i].item.value, rel).value;
            !x.Special? && HasVisit(AllVisits(sources), sources[i].root + rel, Shallow(x))
  {
    var v := Visit(sources[i].root + rel, At(sources[i].item.value, rel).value);
    assert v.path[|sources[i].root|..] == rel;
    assert Belongs(v, sources[i].root, sources[i].item.value);
    AllVisitsMeetTheSources(v, sources);
    var k :| 0 <= k < |AllVisits(sources)| && AllVisits(sources)[k] == v;
  }

  lemma OnlyFromSource(sources: seq<Source>, i: nat, rel: Path, k: nat)
    requires ProperSources(sources) && Complete(sources) && Separate(sources) && i < |sources|
    requires k < |AllVisits(sources)|
    ensures sources[i].root + rel <= AllVisits(sources)[k].path ==> At(sources[i].item.value, rel).Some?
  {
    var v, root := AllVisits(sources)[k], sources[i].root;
    AllVisitsMeetTheSources(v, sources);
    var j :| 0 <= j < |sources| && Belongs(v, sources[j].root, sources[j].item.value);
    if root + rel <= v.path {
      assert root <= v.path by { assert (root + rel)[..|root|] == v.path[..|root|]; }
      SameSource(sources, i, j, v.path);
      OnTheWay(sources[i].item.value, v.path[|root|..], |rel|);
      assert v.path[|root|..][..|rel|] == rel by { assert v.path[..|root| + |rel|] == root + rel; }
    }
  }

  /** Each source stands under the destination as it stood on the host, and nothing else
      stands beside it there. */
  lemma SourceRebuilt(before: Nodes, after: Nodes, root: Path, entries: seq<TarEntry>, sources: seq<Source>, i: nat)
    requires ProperSources(sources) && Complete(sources) && Separate(sources) && i < |sources|
    requires Fresh(before, root) && Unpacked(before, after, root, entries)
    requires Represents(entries, AllVisits(sources))
    ensures TreeAt(after, root + sources[i].root, sources[i].item.value)
  {
    var visits, base, item := AllVisits(sources), sources[i].root, sources[i].item.value;
    forall rel
      ensures PlaceAt(after, root + base, item, rel)
    {
      if At(item, rel).Some? {
        VisitFor(sources, i, rel);
        PlaceFilled(before, after, root, entries, visits, base, item, rel);
      } else {
        NothingFrom(sources, i, rel);
        PlaceEmpty(before, after, root, entries, visits, base, item, rel);
      }
    }
  }

  lemma NothingFrom(sources: seq<Source>, i: nat, rel: Path)
    requires ProperSources(sources) && Complete(sources) && Separate(sources) && i < |sources|
    requires At(sources[i].item.value, rel).None?
    ensures forall k :: 0 <= k < |AllVisits(sources)| ==> !(sources[i].root + rel <= AllVisits(sources)[k].path)
  {
    forall k | 0 <= k < |AllVisits(sources)|
      ensures !(sources[i].root + rel <= AllVisits(sources)[k].path)
    {
      OnlyFromSource(sources, i, rel, k);
    }
  }

  lemma PlaceFilled(before: Nodes, after: Nodes, root: Path, entries: seq<TarEntry>, visits: seq<Visit>, base: Path,
                    item: Item, rel: Path)
    requires Holdable(visits) && Represents(entries, visits) && Unpacked(before, after, root, entries)
    requires At(item, rel).Some? && !At(item, rel).value.Special?
    requires HasVisit(visits, base + rel, Shallow(At(item, rel).value))
    ensures PlaceAt(after, root + base, item, rel)
  {
    VisitInPlace(before, after, root, entries, visits, base + rel, Shallow(At(item, rel).value));
    ConcatThree(root, base, rel);
  }

  lemma PlaceEmpty(before: Nodes, after: Nodes, root: Path, entries: seq<TarEntry>, visits: seq<Visit>, base: Path,
                   item: Item, rel: Path)
    requires Holdable(visits) && Represents(entries, visits)
    requires Fresh(before, root) && Unpacked(before, after, root, entries)
    requires base != [] && At(item, rel).None?
    requires forall k :: 0 <= k < |visits| ==> !(base + rel <= visits[k].path)
    ensures PlaceAt(after, root + base, item, rel)
  {
    ConcatThree(root, base, rel);
    if root + (base + rel) in after {
      var k := VisitBehind(before, after, root, entries, visits, base + rel);
      assert false;
    }
  }

  lemma VisitBehind(before: Nodes, after: Nodes, root: Path, entries: seq<TarEntry>, visits: seq<Visit>, path: Path)
    returns (k: nat)
    requires Holdable(visits) && Represents(entries, visits)
    requires Fresh(before, root) && Unpacked(before, after, root, entries)
    requires path != [] && root + path in after
    ensures k < |visits| && path <= visits[k].path
  {
    var e := EntryBehind(before, after, root, entries, path);
    assert HasEntry(entries, PathOf(e), NodeOf(e));
    assert HasVisit(visits, PathOf(e), NodeOf(e));
    k :| 0 <= k < |visits| && visits[k].path == PathOf(e);
  }

  lemma VisitInPlace(before: Nodes, after: Nodes, root: Path, entries: seq<TarEntry>, visits: seq<Visit>,
                     path: Path, node: Node)
    requires Holdable(visits) && Represents(entries, visits)
    requires Unpacked(before, after, root, entries) && HasVisit(visits, path, node)
    ensures root + path in after && after[root + path] == node
  {
    assert HasEntry(entries, path, node);
  }

  lemma EntryBehind(before: Nodes, after: Nodes, root: Path, entries: seq<TarEntry>, path: Path)
    returns (e: TarEntry)
    requires Fresh(before, root) && Unpacked(before, after, root, entries)
    requires path != [] && root + path in after
    ensures e in entries && !IsManifest(e) && path <= PathOf(e)
  {
    assert root <= root + path && root != root + path;
    e :| e in entries && !IsManifest(e) && root + path <= root + PathOf(e);
    PrefixAfter(root, path, PathOf(e));
  }

  /** Mode, owner and size of everything backed up are those of its entry in any archive that is
      accepted for the backup. */
  lemma AcceptedKeepsMeta(c: Codec, tar: Tarball, visits: seq<Visit>, m: Manifest, i: nat) returns (e: TarEntry)
    requires Holdable(visits) && m.records == [] && Accepts(c, tar, WithRecords(m, c, visits)) && i < |visits|
    ensures e in tar.entries && TrimSpace(e.name) == Join(visits[i].path, '/')
    ensures e.meta.mode % 512 == visits[i].item.meta.mode % 512
    ensures e.meta.uid == visits[i].item.meta.uid && e.meta.gid == visits[i].item.meta.gid
    ensures e.size == if visits[i].item.File? then |visits[i].item.data| else 0
  {
    var r := Records(c, visits)[i];
    assert r in WithRecords(m, c, visits).records;
    assert Describes(c, tar.entries, r);
    e :| e in tar.entries && !IsManifest(e) && r == Record(NameOf(e), Seen(c, e));
  }
}
