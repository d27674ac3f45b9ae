/** A tree with a link whose target passes through another link: by name it stays inside, but
    followed it leads out, and an entry below it is created outside (extractBackupArchive in
    cmd/kagectl/backup.go checks links by name only). */
module Detour {
  import opened Strings
  import opened Paths
  import opened Trees
  import opened Archive
  import opened Verifier
  import opened FileSystem
  import opened Unpacking
  import opened UnpackingLaws
  import opened Containment
  import opened BackupRoundTrip

  const NO_META := Meta(0, 0, 0)

  /** The directory `a`, the link `a/l` to where `a` stands, and the link `p`, which by name
      leads back to where `mysql` stands. */
  function DetourTree(): Item {
    Folder(NO_META, [Child("a", Folder(NO_META, [Child("l", Link(NO_META, ".."))])),
                     Child("p", Link(NO_META, "a/l/../../.."))])
  }

  function DetourSources(): seq<Source> {
    [Source(["config", "kage.yaml"], Some(File(NO_META, []))), Source(["data", "mysql"], Some(DetourTree())),
     Source(["data", "minio"], Some(Folder(NO_META, []))), Source(["data", "namespace"], Some(Folder(NO_META, []))),
     Source(["data", "data"], Some(Folder(NO_META, []))), Source(["data", "tls"], Some(Folder(NO_META, [])))]
  }

  function Through(): Path {
    ["a", "l", "..", "..", ".."]
  }

  lemma TargetParts()
    ensures Split("a/l/../../..", '/') == Through() && Split("..", '/') == [".."]
  {
    SplitJoin(Through(), '/');
    assert Join(Through()[4..], '/') == "..";
    assert Join(Through()[3..], '/') == "../..";
    assert Join(Through()[2..], '/') == "../../..";
    assert Join(Through()[1..], '/') == "l/../../..";
    SplitWord("..", '/');
  }

  lemma OneChild(c: Child)
    requires Proper(c.name) && WellFormed(c.item)
    ensures AllWellFormed([c]) && Named([c], c.name) == Some(c.item)
    ensures forall n :: n != c.name ==> Named([c], n).None?
  {
    assert [c][..0] == [];
  }

  lemma TwoChildren(c: Child, d: Child)
    requires Proper(c.name) && WellFormed(c.item) && Proper(d.name) && WellFormed(d.item) && c.name != d.name
    ensures AllWellFormed([c, d]) && Named([c, d], c.name) == Some(c.item) && Named([c, d], d.name) == Some(d.item)
    ensures forall n :: n != c.name && n != d.name ==> Named([c, d], n).None?
  {
    OneChild(c);
    assert [c, d][..1] == [c];
  }

  function Inner(): Child {
    Child("l", Link(NO_META, ".."))
  }

  lemma DetourIsWellFormed()
    ensures WellFormed(DetourTree())
  {
    OneChild(Inner());
    TwoChildren(Child("a", Folder(NO_META, [Inner()])), Child("p", Link(NO_META, "a/l/../../..")));
  }

  lemma DetourIsProduction()
    ensures ProductionSources(DetourSources())
  {
    DetourIsWellFormed();
    forall i | 0 <= i < |DetourSources()|
      ensures DetourSources()[i].root == SourceRoots()[i] && AllProper(SourceRoots()[i])
      ensures DetourSources()[i].item.Some? && WellFormed(DetourSources()[i].item.value)
    {
      ProperRoot(i);
    }
  }

  lemma ProperRoot(i: nat)
    requires i < |SourceRoots()|
    ensures AllProper(SourceRoots()[i]) && |SourceRoots()[i]| == 2
  {
  }

  /** What stands where in the tree. */
  lemma DetourPlaces()
    ensures At(DetourTree(), ["a"]) == Some(Folder(NO_META, [Inner()]))
    ensures At(DetourTree(), ["a", "l"]) == Some(Link(NO_META, ".."))
    ensures At(DetourTree(), ["p"]) == Some(Link(NO_META, "a/l/../../.."))
    ensures At(DetourTree(), ["p", "stray"]) == None
  {
    OneChild(Inner());
    TwoChildren(Child("a", Folder(NO_META, [Inner()])), Child("p", Link(NO_META, "a/l/../../..")));
    assert ["a", "l"][1..] == ["l"] && ["p", "stray"][1..] == ["stray"] && ["l"][1..] == [];
    assert ["p"][1..] == [] && ["a"][1..] == [];
  }

  lemma UpOnce(nodes: Nodes, dir: Path, rest: Path, budget: nat, follow: bool)
    requires IsDir(nodes, dir) && dir != []
    ensures Resolve(nodes, dir, [".."] + rest, budget, follow) == Resolve(nodes, Parent(dir), rest, budget, follow)
  {
    assert ([".."] + rest)[1..] == rest;
  }

  lemma IntoDir(nodes: Nodes, dir: Path, name: string, rest: Path, budget: nat, follow: bool)
    requires IsDir(nodes, dir) && Proper(name) && IsDir(nodes, dir + [name])
    ensures Resolve(nodes, dir, [name] + rest, budget, follow) == Resolve(nodes, dir + [name], rest, budget, follow)
  {
    assert ([name] + rest)[1..] == rest;
  }

  lemma IntoLink(nodes: Nodes, dir: Path, name: string, target: string, rest: Path, budget: nat, follow: bool)
    requires IsDir(nodes, dir) && Proper(name) && dir + [name] in nodes && nodes[dir + [name]] == LinkNode(target)
    requires !IsAbs(target) && budget > 0 && (rest != [] || follow)
    ensures Resolve(nodes, dir, [name] + rest, budget, follow) ==
              Resolve(nodes, dir, Split(target, '/') + rest, budget - 1, follow)
  {
    assert ([name] + rest)[1..] == rest;
  }

  /** Four steps up from two names below `mysql`'s place. */
  lemma UpFour(nodes: Nodes, root: Path, x: string, y: string, z: string, rest: Path, budget: nat, follow: bool)
    requires Standing(nodes) && root != [] && IsDir(nodes, root + [x] + [y] + [z])
    ensures Resolve(nodes, root + [x] + [y] + [z], [".."] + ([".."] + ([".."] + ([".."] + rest))), budget, follow) ==
              Resolve(nodes, Parent(root), rest, budget, follow)
  {
    var d3, d2, d1 := root + [x] + [y] + [z], root + [x] + [y], root + [x];
    DirsBelow(nodes, d3);
    assert Parent(d3) == d2 == d3[..|root| + 2] && Parent(d2) == d1 == d3[..|root| + 1] && Parent(d1) == root == d3[..|root|];
    UpOnce(nodes, d3, [".."] + ([".."] + ([".."] + rest)), budget, follow);
    UpOnce(nodes, d2, [".."] + ([".."] + rest), budget, follow);
    UpOnce(nodes, d1, [".."] + rest, budget, follow);
    UpOnce(nodes, root, rest, budget, follow);
  }

  /** The directory and the two links as they stand below `root`. */
  ghost predicate DetourStands(nodes: Nodes, root: Path, target: string, up: string) {
    var mysql := root + ["data"] + ["mysql"];
    && Standing(nodes) && root != [] && IsDir(nodes, mysql) && IsDir(nodes, mysql + ["a"])
    && mysql + ["a"] + ["l"] in nodes && nodes[mysql + ["a"] + ["l"]] == LinkNode(up)
    && mysql + ["p"] in nodes && nodes[mysql + ["p"]] == LinkNode(target)
    && Split(target, '/') == Through() && !IsAbs(target) && Split(up, '/') == [".."] && !IsAbs(up)
  }

  /** Followed, `p` leads to the directory above the destination. */
  lemma FollowDetour(nodes: Nodes, root: Path, target: string, up: string, rest: Path, budget: nat, follow: bool)
    requires DetourStands(nodes, root, target, up) && budget >= 2 && (rest != [] || follow)
    ensures Resolve(nodes, root + ["data"] + ["mysql"], ["p"] + rest, budget, follow) ==
              Resolve(nodes, Parent(root), rest, budget - 2, follow)
  {
    ThroughShape(rest);
    FollowTwo(nodes, root + ["data"] + ["mysql"], "p", target, "a", "l", up,
              [".."] + ([".."] + ([".."] + rest)), rest, budget, follow);
    UpFour(nodes, root, "data", "mysql", "a", rest, budget - 2, follow);
  }

  lemma ThroughShape(rest: Path)
    ensures Through() + rest == ["a"] + (["l"] + ([".."] + ([".."] + ([".."] + rest))))
  {
  }

  /** A link `p` that leads on through the directory `a` and the link `l` in it. */
  lemma FollowTwo(nodes: Nodes, dir: Path, p: string, target: string, a: string, l: string, second: string, after: Path,
                  rest: Path, budget: nat, follow: bool)
    requires IsDir(nodes, dir) && Proper(p) && dir + [p] in nodes && nodes[dir + [p]] == LinkNode(target)
    requires Proper(a) && IsDir(nodes, dir + [a])
    requires Proper(l) && dir + [a] + [l] in nodes && nodes[dir + [a] + [l]] == LinkNode(second)
    requires !IsAbs(target) && !IsAbs(second) && budget >= 2 && (rest != [] || follow) && after != []
    requires Split(target, '/') + rest == [a] + ([l] + after)
    ensures Resolve(nodes, dir, [p] + rest, budget, follow) ==
              Resolve(nodes, dir + [a], Split(second, '/') + after, budget - 2, follow)
  {
    IntoLink(nodes, dir, p, target, rest, budget, follow);
    IntoDir(nodes, dir, a, [l] + after, budget - 1, follow);
    IntoLink(nodes, dir + [a], l, second, after, budget - 1, follow);
  }

  // -------------------------------------------------------- the tree as a backup

  lemma DetourAt(rel: Path)
    requires At(DetourTree(), rel).Some?
    ensures rel == [] || rel == ["a"] || rel == ["a", "l"] || rel == ["p"]
  {
    OneChild(Inner());
    TwoChildren(Child("a", Folder(NO_META, [Inner()])), Child("p", Link(NO_META, "a/l/../../..")));
    if rel != [] {
      assert rel == [rel[0]] + rel[1..];
      if rel[0] == "a" { InnerAt(rel[1..]); }
    }
  }

  lemma InnerAt(rel: Path)
    requires At(Folder(NO_META, [Inner()]), rel).Some?
    ensures rel == [] || rel == ["l"]
  {
    OneChild(Inner());
    if rel != [] { assert rel == [rel[0]] + rel[1..]; }
  }

  /** What a visit can be. */
  lemma DetourVisit(v: Visit)
    requires v in AllVisits(DetourSources())
    ensures !v.item.Special? && !EndsInSpace(v.path)
    ensures v.item.Link? ==>
              || (v.path == ["data", "mysql", "a", "l"] && v.item.target == "..")
              || (v.path == ["data", "mysql", "p"] && v.item.target == "a/l/../../..")
    ensures v.path != ["data", "mysql", "p", "stray"]
  {
    DetourIsProduction();
    AllVisitsMeetTheSources(v, DetourSources());
    var i :| 0 <= i < |DetourSources()| && Belongs(v, DetourSources()[i].root, DetourSources()[i].item.value);
    ProperRoot(i);
    assert DetourSources()[i].root == SourceRoots()[i];
    VisitAt(v, i, v.path[2..]);
  }

  lemma VisitAt(v: Visit, i: nat, rel: Path)
    requires i < |DetourSources()| && v.path == DetourSources()[i].root + rel
    requires At(DetourSources()[i].item.value, rel) == Some(v.item)
    ensures !v.item.Special? && !EndsInSpace(v.path)
    ensures v.item.Link? ==>
              || (v.path == ["data", "mysql", "a", "l"] && v.item.target == "..")
              || (v.path == ["data", "mysql", "p"] && v.item.target == "a/l/../../..")
    ensures v.path != ["data", "mysql", "p", "stray"]
  {
    DetourPlaces();
    if i == 1 {
      DetourAt(rel);
      assert ["data", "mysql"] + ["a", "l"] == ["data", "mysql", "a", "l"];
      assert ["data", "mysql"] + ["p"] == ["data", "mysql", "p"];
    } else {
      assert rel == [];
    }
  }

  lemma DetourIsComplete()
    ensures Complete(DetourSources()) && Untrimmed(AllVisits(DetourSources()))
  {
    DetourIsProduction();
    var visits := AllVisits(DetourSources());
    forall i | 0 <= i < |visits|
      ensures !visits[i].item.Special? && !EndsInSpace(visits[i].path)
    {
      DetourVisit(visits[i]);
    }
  }

  /** What the backup visits. */
  function DetourVisits(): (visits: seq<Visit>)
    ensures Holdable(visits)
  {
    DetourIsComplete();
    AllVisits(DetourSources())
  }

  /** By name, both links stay inside. */
  lemma DetourIsSafe(root: Path, target: string, up: string)
    requires AllProper(root) && Split(target, '/') == Through() && Split(up, '/') == [".."]
    requires !IsAbs(target) && !IsAbs(up)
    ensures SafeLink(root, root + ["data", "mysql", "a", "l"], up)
    ensures SafeLink(root, root + ["data", "mysql", "p"], target)
  {
    var mysql := root + ["data"] + ["mysql"];
    assert Parent(root + ["data", "mysql", "a", "l"]) == mysql + ["a"];
    assert Parent(root + ["data", "mysql", "p"]) == mysql;
    ClimbBack(root, "data", "mysql", "a", "l");
  }

  lemma ClimbBack(root: Path, x: string, y: string, a: string, l: string)
    requires AllProper(root) && Proper(x) && Proper(y) && Proper(a) && Proper(l)
    ensures Reduce(true, root + [x] + [y] + [a] + [".."]) == root + [x] + [y]
    ensures Reduce(true, root + [x] + [y] + [a, l, "..", "..", ".."]) == root + [x]
  {
    var dir := root + [x] + [y];
    ReduceProper(true, dir);
    ReduceProper(true, dir + [a]);
    ReduceIsFold(dir, [a, l, "..", "..", ".."]);
    ReduceIsFold(dir + [a], [".."]);
    FoldOne(dir + [a], "..", []);
    assert [".."] + [] == [".."];
    assert Enter(true, dir + [a], "..") == dir;
    FoldDetour(root + [x], y, a, l);
  }

  lemma FoldOne(stack: Path, part: string, rest: Path)
    ensures ReduceFrom(stack, [part] + rest) == ReduceFrom(Enter(true, stack, part), rest)
  {
    assert ([part] + rest)[1..] == rest;
  }

  lemma FoldDetour(x: Path, y: string, a: string, l: string)
    requires Proper(y) && Proper(a) && Proper(l)
    ensures ReduceFrom(x + [y], [a, l, "..", "..", ".."]) == x
  {
    var dir := x + [y];
    assert Enter(true, dir, a) == dir + [a] && Enter(true, dir + [a], l) == dir + [a] + [l];
    assert Enter(true, dir + [a] + [l], "..") == dir + [a] && Enter(true, dir + [a], "..") == dir;
    assert Enter(true, dir, "..") == x;
    FoldOne(dir, a, [l] + ([".."] + ([".."] + ([".."] + []))));
    FoldOne(dir + [a], l, [".."] + ([".."] + ([".."] + [])));
    FoldOne(dir + [a] + [l], "..", [".."] + ([".."] + []));
    FoldOne(dir + [a], "..", [".."] + []);
    FoldOne(dir, "..", []);
    assert [a, l, "..", "..", ".."] == [a] + ([l] + ([".."] + ([".."] + ([".."] + []))));
  }

  lemma DetourVisitsAreSafe(root: Path)
    requires AllProper(root)
    ensures SafeVisits(root, AllVisits(DetourSources()))
  {
    var visits := AllVisits(DetourSources());
    TargetParts();
    DetourIsSafe(root, "a/l/../../..", "..");
    forall i | 0 <= i < |visits| && visits[i].item.Link?
      ensures SafeLink(root, root + visits[i].path, visits[i].item.target)
    {
      DetourVisit(visits[i]);
    }
  }

  // ------------------------------------------------------------- what comes of it

  function Backup(c: Codec, m: Manifest): Tarball {
    Written(c, DetourVisits(), m)
  }

  lemma BackupUnpacks(c: Codec, nodes: Nodes, f: Faults, root: Path, m: Manifest)
    requires c.Lawful() && m.records == [] && Current(m) && Receptive(nodes, f, root) && AllProper(root) && root != []
    requires |c.encode(WithRecords(m, c, DetourVisits()))| <= READ_LIMIT
    ensures Accepts(c, Backup(c, m), WithRecords(m, c, DetourVisits()))
    ensures Nested(Backup(c, m).entries) && Extraction(nodes, f, root, Backup(c, m)).ok
    ensures var after := Extraction(nodes, f, root, Backup(c, m)).nodes;
            Contained(nodes, after, root) && DetourThere(after, root)
  {
    var sources := DetourSources();
    var visits, tar := DetourVisits(), Backup(c, m);
    DetourIsProduction();
    DetourIsComplete();
    DetourVisitsAreSafe(root);
    ProductionVisitsAreGood(sources);
    ProductionIsSeparate(sources);
    AllVisitsAreDistinct(sources);
    WrittenIsAccepted(c, sources, m, WithRecords(m, c, visits));
    WrittenHasNoCollision(c, visits, m);
    AcceptedUnpacks(c, tar, sources, m, root);
    ExtractionGoesThrough(nodes, f, root, tar);
    NestedIsUncrossed(tar.entries);
    ExtractionStays(nodes, f, root, tar);
    DetourInPlace(nodes, Extraction(nodes, f, root, tar).nodes, root, tar.entries);
  }

  ghost predicate DetourThere(nodes: Nodes, root: Path) {
    exists target, up :: DetourStands(nodes, root, target, up)
  }

  lemma DetourInPlace(before: Nodes, after: Nodes, root: Path, entries: seq<TarEntry>)
    requires ProductionSources(DetourSources()) && Complete(DetourSources()) && root != []
    requires Fresh(before, root) && Unpacked(before, after, root, entries)
    requires Represents(entries, AllVisits(DetourSources()))
    ensures DetourThere(after, root)
  {
    TargetParts();
    DetourPlaces();
    ProductionIsSeparate(DetourSources());
    SourceRebuilt(before, after, root, entries, DetourSources(), 1);
    TreeStands(after, root, DetourTree(), "a/l/../../..", "..");
  }

  lemma TreeStands(after: Nodes, root: Path, item: Item, target: string, up: string)
    requires Standing(after) && root != [] && TreeAt(after, root + ["data", "mysql"], item)
    requires item.Folder? && At(item, ["a"]).Some? && At(item, ["a"]).value.Folder?
    requires At(item, ["a", "l"]) == Some(Link(NO_META, up)) && At(item, ["p"]) == Some(Link(NO_META, target))
    requires Split(target, '/') == Through() && !IsAbs(target) && Split(up, '/') == [".."] && !IsAbs(up)
    ensures DetourStands(after, root, target, up)
  {
    var mysql := root + ["data", "mysql"];
    assert PlaceAt(after, mysql, item, []) && PlaceAt(after, mysql, item, ["a"]);
    assert PlaceAt(after, mysql, item, ["a", "l"]) && PlaceAt(after, mysql, item, ["p"]);
    assert mysql == root + ["data"] + ["mysql"] && mysql + [] == mysql;
    assert mysql + ["a", "l"] == mysql + ["a"] + ["l"];
  }

  /** This host tree is backed up, accepted and unpacked, and all that is created stays inside;
      yet its link `p`, followed, leads to the directory above the destination. */
  lemma LinkLeadsOut(c: Codec, nodes: Nodes, f: Faults, root: Path, m: Manifest)
    requires c.Lawful() && m.records == [] && Current(m) && Receptive(nodes, f, root) && AllProper(root) && root != []
    requires |c.encode(WithRecords(m, c, DetourVisits()))| <= READ_LIMIT
    ensures Accepts(c, Backup(c, m), WithRecords(m, c, DetourVisits()))
    ensures var made := Extraction(nodes, f, root, Backup(c, m));
            && made.ok && Contained(nodes, made.nodes, root)
            && Look(made.nodes, root + ["data", "mysql", "p"], true) == Found(Parent(root))
            && !(root <= Parent(root))
  {
    BackupUnpacks(c, nodes, f, root, m);
    LooksUp(Extraction(nodes, f, root, Backup(c, m)).nodes, root);
  }

  lemma LooksUp(nodes: Nodes, root: Path)
    requires DetourThere(nodes, root) && AllProper(root)
    ensures Look(nodes, root + ["data", "mysql", "p"], true) == Found(Parent(root))
  {
    var target, up :| DetourStands(nodes, root, target, up);
    LookThrough(nodes, root, target, up, [], true);
    assert ["p"] + [] == ["p"];
    assert root + ["data"] + ["mysql"] + ["p"] == root + ["data", "mysql", "p"];
  }

  lemma LookThrough(nodes: Nodes, root: Path, target: string, up: string, rest: Path, follow: bool)
    requires DetourStands(nodes, root, target, up) && AllProper(root) && (rest != [] || follow)
    ensures Look(nodes, root + ["data"] + ["mysql"] + (["p"] + rest), follow) ==
              Resolve(nodes, Parent(root), rest, MAX_LINKS - 2, follow)
  {
    var mysql := root + ["data"] + ["mysql"];
    FromDir(nodes, mysql, ["p"] + rest, MAX_LINKS, follow);
    FollowDetour(nodes, root, target, up, rest, MAX_LINKS, follow);
  }

  // --------------------------------------------------------- and below such a link

  function Stray(): Visit {
    Visit(["data", "mysql", "p", "stray"], Link(NO_META, "x"))
  }

  /** The visits of the backup, and one link entry below the link `p`. */
  function CrossedVisits(): (visits: seq<Visit>)
    ensures Holdable(visits)
  {
    DetourVisits() + [Stray()]
  }

  lemma StrayIsProper()
    ensures AllProper(Stray().path) && StartsWell(Stray().path) && !EndsInSpace(Stray().path)
  {
    assert Proper("mysql") && Proper("stray") && Proper("data") && Proper("p");
  }

  lemma CrossedIsGood()
    ensures GoodVisits(CrossedVisits()) && Untrimmed(CrossedVisits())
  {
    DetourIsProduction();
    DetourIsComplete();
    ProductionVisitsAreGood(DetourSources());
    StrayIsProper();
  }

  lemma CrossedIsDistinct()
    ensures DistinctPaths(CrossedVisits())
  {
    DetourIsComplete();
    DetourIsProduction();
    ProductionIsSeparate(DetourSources());
    AllVisitsAreDistinct(DetourSources());
    forall v, w | v in DetourVisits() && w in [Stray()]
      ensures v.path != w.path
    {
      DetourVisit(v);
    }
    DistinctConcat(DetourVisits(), [Stray()]);
  }

  lemma CrossedCovers()
    ensures CoversRequired(CrossedVisits())
  {
    DetourIsComplete();
    DetourIsProduction();
    forall i | 0 <= i < |SourceRoots()|
      ensures exists v :: v in CrossedVisits() && v.path == SourceRoots()[i]
    {
      RootVisited(DetourSources(), i);
      var v :| v in DetourVisits() && v.path == DetourSources()[i].root;
      assert v in CrossedVisits();
    }
  }

  lemma RootVisited(sources: seq<Source>, i: nat)
    requires ProperSources(sources) && Complete(sources) && i < |sources|
    ensures exists v :: v in AllVisits(sources) && v.path == sources[i].root
  {
    var v := Visit(sources[i].root, sources[i].item.value);
    assert Belongs(v, sources[i].root, sources[i].item.value);
    AllVisitsMeetTheSources(v, sources);
  }

  function CrossedArchive(c: Codec, m: Manifest): Tarball {
    Written(c, CrossedVisits(), m)
  }

  lemma CrossedEntries(c: Codec, m: Manifest)
    ensures var visits := DetourVisits();
            && Backup(c, m) == Tarball(Headers(visits) + [ManifestEntry(c, WithRecords(m, c, visits))], false)
            && CrossedArchive(c, m) == Tarball(Headers(visits) + [EntryOf(Stray())]
                                               + [ManifestEntry(c, WithRecords(m, c, CrossedVisits()))], false)
  {
    assert Headers(CrossedVisits()) == Headers(DetourVisits()) + [EntryOf(Stray())];
  }

  lemma StrayEntry()
    ensures PathOf(EntryOf(Stray())) == Stray().path && AllProper(Stray().path) && IsLink(EntryOf(Stray()))
    ensures EntryOf(Stray()).link == "x"
  {
    StrayIsProper();
    EntryName(Stray());
    SplitJoin(Stray().path, '/');
  }

  lemma ManifestPath(c: Codec, m: Manifest)
    ensures IsManifest(ManifestEntry(c, m)) && AllProper(PathOf(ManifestEntry(c, m)))
  {
    ManifestName(c, m);
    ProperPath(ManifestEntry(c, m));
  }

  /** The link entry below `p` is made where `p` leads: beside the destination. */
  lemma StrayLands(nodes: Nodes, f: Faults, root: Path)
    requires DetourThere(nodes, root) && AllProper(root)
    requires Parent(root) + ["stray"] !in nodes && Parent(root) + ["stray"] !in f.create
    ensures LinkMade(nodes, f, root, PendingLink(root + Stray().path, "x")) ==
              Made(nodes[Parent(root) + ["stray"] := LinkNode("x")], true)
  {
    var path := root + Stray().path;
    assert Parent(path) == root + ["data", "mysql", "p"];
    LooksUp(nodes, root);
    DirsAbove(nodes, root);
    StrayIsProper();
    StrayIsSafe(root);
    MadeWhereTheNameLeads(nodes, f, root, PendingLink(path, "x"), Parent(root));
  }

  lemma DirsAbove(nodes: Nodes, root: Path)
    requires DetourThere(nodes, root)
    ensures IsDir(nodes, root) && IsDir(nodes, Parent(root))
  {
    var target, up :| DetourStands(nodes, root, target, up);
    var mysql := root + ["data"] + ["mysql"];
    DirsBelow(nodes, mysql);
    assert mysql[..|root|] == root && mysql[..|root| - 1] == Parent(root);
  }

  lemma StrayIsSafe(root: Path)
    requires AllProper(root)
    ensures AllProper(root + Stray().path) && SafeLink(root, root + Stray().path, "x")
  {
    StrayIsProper();
    assert Proper("x");
    SplitWord("x", '/');
    var up := Parent(root + Stray().path);
    assert up == root + ["data", "mysql", "p"];
    ReduceProper(true, up + ["x"]);
  }

  /** An accepted archive with a link entry below a link entry: it unpacks without an error, every
      check by name is passed, and one node is created outside the destination. */
  lemma StrayIsOutside(c: Codec, nodes: Nodes, f: Faults, root: Path, m: Manifest)
    requires c.Lawful() && m.records == [] && Current(m) && Receptive(nodes, f, root) && AllProper(root) && root != []
    requires |c.encode(WithRecords(m, c, DetourVisits()))| <= READ_LIMIT
    requires |c.encode(WithRecords(m, c, CrossedVisits()))| <= READ_LIMIT
    requires Parent(root) + ["stray"] !in nodes && Parent(root) + ["stray"] !in f.create
    ensures Accepts(c, CrossedArchive(c, m), WithRecords(m, c, CrossedVisits()))
    ensures var made := Extraction(nodes, f, root, CrossedArchive(c, m));
            && made.ok && Parent(root) + ["stray"] in made.nodes
            && !(root <= Parent(root) + ["stray"]) && !Contained(nodes, made.nodes, root)
  {
    var visits := DetourVisits();
    var full, full' := WithRecords(m, c, visits), WithRecords(m, c, CrossedVisits());
    CrossedIsGood();
    CrossedIsDistinct();
    CrossedCovers();
    WrittenVisitsAreAccepted(c, CrossedVisits(), m);
    BackupUnpacks(c, nodes, f, root, m);
    CrossedEntries(c, m);
    StrayEntry();
    ManifestPath(c, full);
    ManifestPath(c, full');
    OneLinkMore(nodes, f, root, Headers(visits), EntryOf(Stray()), ManifestEntry(c, full), ManifestEntry(c, full'));
    var after := Extraction(nodes, f, root, Backup(c, m)).nodes;
    NotBeside(nodes, after, root);
    StrayLands(after, f, root);
  }

  lemma NotBeside(before: Nodes, after: Nodes, root: Path)
    requires Contained(before, after, root) && root != [] && Parent(root) + ["stray"] !in before
    requires Fresh(before, root)
    ensures Parent(root) + ["stray"] !in after && !(root <= Parent(root) + ["stray"])
  {
    SameLength(root, Parent(root) + ["stray"]);
  }

  lemma SameLength<T>(s: seq<T>, t: seq<T>)
    requires |s| == |t|
    ensures s <= t <==> s == t
  {
  }
}
