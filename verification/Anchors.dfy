/** Where unpacking creates when names lead through links, and exactly when that stays inside
    (extractBackupArchive in cmd/kagectl/backup.go). */
module Anchors {
  import opened Strings
  import opened Seqs
  import opened Paths
  import opened Trees
  import opened Archive
  import opened Verifier
  import opened FileSystem
  import opened Unpacking
  import opened UnpackingLaws
  import opened Containment

  /** Where the longest part of a path that leads to something leads, and how long it is. */
  datatype Anchor = Anchor(dir: Path, depth: nat)

  function AnchorOf(nodes: Nodes, path: Path): (a: Anchor)
    ensures a.depth <= |path|
    decreases |path|
  {
    var w := Look(nodes, path, true);
    if w.Found? then Anchor(w.path, |path|) else AnchorOf(nodes, Parent(path))
  }

  /** Nothing stands below the place. */
  ghost predicate Bare(nodes: Nodes, place: Path) {
    forall p :: p in nodes && place <= p ==> p == place
  }

  ghost predicate NewBelow(before: Nodes, after: Nodes, dir: Path) {
    forall p :: p in after && p !in before ==> dir <= p && p != dir
  }

  /** The name after the anchor is free to be made there. */
  predicate Opens(nodes: Nodes, f: Faults, a: Anchor, path: Path) {
    a.depth < |path| && IsDir(nodes, a.dir)
    && a.dir + [path[a.depth]] !in nodes && a.dir + [path[a.depth]] !in f.create
  }

  /** Filling a free place makes its name lead there. */
  lemma {:induction false} Filled(nodes: Nodes, place: Path, cur: Path, todo: Path, budget: nat)
    requires place !in nodes && Resolve(nodes, cur, todo, budget, false) == Free(place)
    ensures Resolve(nodes[place := DirNode], cur, todo, budget, true) == Found(place)
    decreases budget, |todo|
  {
    var part, rest := todo[0], todo[1..];
    if part == "" || part == "." {
      Filled(nodes, place, cur, rest, budget);
    } else if part == ".." {
      Filled(nodes, place, if cur == [] then [] else Parent(cur), rest, budget);
    } else if cur + [part] in nodes {
      match nodes[cur + [part]]
      case DirNode => Filled(nodes, place, cur + [part], rest, budget);
      case FileNode(_) =>
      case LinkNode(target) =>
        Filled(nodes, place, if IsAbs(target) then [] else cur, Split(target, '/') + rest, budget - 1);
    }
  }

  /** A directory that a name leads to is also what it leads to when a last link is followed. */
  lemma {:induction false} FoundDir(nodes: Nodes, cur: Path, todo: Path, budget: nat)
    requires var w := Resolve(nodes, cur, todo, budget, false); w.Found? && IsDir(nodes, w.path)
    ensures Resolve(nodes, cur, todo, budget, true) == Resolve(nodes, cur, todo, budget, false)
    decreases budget, |todo|
  {
    if todo != [] {
      var part, rest := todo[0], todo[1..];
      if part == "" || part == "." {
        FoundDir(nodes, cur, rest, budget);
      } else if part == ".." {
        FoundDir(nodes, if cur == [] then [] else Parent(cur), rest, budget);
      } else {
        match nodes[cur + [part]]
        case DirNode => FoundDir(nodes, cur + [part], rest, budget);
        case FileNode(_) =>
        case LinkNode(target) =>
          FoundDir(nodes, if IsAbs(target) then [] else cur, Split(target, '/') + rest, budget - 1);
      }
    }
  }

  lemma BareWhenNew(nodes: Nodes, place: Path)
    requires Standing(nodes) && place !in nodes
    ensures Bare(nodes[place := DirNode], place)
  {
    forall p | p in nodes
      ensures !(place <= p)
    {
      assert |place| < |p| ==> p[..|place|] in nodes;
      assert place <= p ==> place == p[..|place|];
      TakeAll(p);
    }
  }

  /** What is known once the directories towards a path have been made. */
  ghost predicate Led(before: Nodes, m: Made, a: Anchor, path: Path) {
    var w := Look(m.nodes, path, true);
    w.Found? && IsDir(m.nodes, w.path) && a.dir <= w.path
    && if a.depth == |path| then m.nodes == before && w.path == a.dir
       else m.nodes != before && Bare(m.nodes, w.path)
  }

  ghost predicate Anchored(nodes: Nodes, m: Made, f: Faults, a: Anchor, path: Path) {
    && NewBelow(nodes, m.nodes, a.dir)
    && (m.nodes != nodes <==> Opens(nodes, f, a, path))
    && (Opens(nodes, f, a, path) ==> a.dir + [path[a.depth]] in m.nodes)
    && (m.ok ==> Led(nodes, m, a, path))
  }

  /** Where the next directory goes, when the ones before it have been made. */
  lemma NextPlace(nodes: Nodes, path: Path)
    requires path != [] && Proper(path[|path| - 1]) && Look(nodes, Parent(path), true).Found?
    ensures Look(nodes, path, false) == OneMore(nodes, Look(nodes, Parent(path), true).path, path[|path| - 1])
  {
    TakeLast(path);
    ThenOneMore(nodes, [], Parent(path), MAX_LINKS, path[|path| - 1]);
  }

  /** os.MkdirAll creates at and below one place, the one that the anchor names, and it creates
      nothing exactly when that place is taken, refused or not in a directory. */
  lemma {:induction false} MakeDirsAnchored(nodes: Nodes, f: Faults, path: Path)
    requires Standing(nodes) && AllProper(path)
    ensures Anchored(nodes, MakeDirs(nodes, f, path), f, AnchorOf(nodes, path), path)
    decreases |path|
  {
    if !Look(nodes, path, true).Found? && path != [] {
      var parent, a := Parent(path), AnchorOf(nodes, path);
      MakeDirsAnchored(nodes, f, parent);
      MakeDirsKeeps(nodes, f, parent);
      var up := MakeDirs(nodes, f, parent);
      if up.ok {
        NextPlace(up.nodes, path);
        OneDirMore(nodes, up, f, a, path);
      }
    }
  }

  lemma OneDirMore(nodes: Nodes, up: Made, f: Faults, a: Anchor, path: Path)
    requires path != [] && AllProper(path) && Standing(up.nodes) && Kept(nodes, up.nodes)
    requires !Look(nodes, path, true).Found?
    requires a.depth < |path| && up.ok && Anchored(nodes, up, f, a, Parent(path))
    requires Look(up.nodes, path, false) == OneMore(up.nodes, Look(up.nodes, Parent(path), true).path, path[|path| - 1])
    ensures var m := match Look(up.nodes, path, false)
                     case Free(p) => if p in f.create then Made(up.nodes, false) else Made(up.nodes[p := DirNode], true)
                     case Found(p) => Made(up.nodes, IsDir(up.nodes, p))
                     case Nowhere => Made(up.nodes, false);
            Anchored(nodes, m, f, a, path)
  {
    var dir, place := Look(up.nodes, Parent(path), true).path, Look(up.nodes, path, false).path;
    if Look(up.nodes, path, false).Found? {
      if IsDir(up.nodes, place) { FoundDir(up.nodes, [], path, MAX_LINKS); }
    } else if place !in f.create {
      Filled(up.nodes, place, [], path, MAX_LINKS);
      BareWhenNew(up.nodes, place);
    }
  }

  // ---------------------------------------------------------------- one link

  predicate SafeByName(root: Path, l: PendingLink)
    requires l.path != []
  {
    !IsAbs(l.target) && SamePathOrInside(ResolveLink(l.path, l.target), root)
  }

  /** Restoring the link makes something: it is safe by name, and the next name on its path is
      free to be made where the anchor leads. */
  predicate LinkOpens(nodes: Nodes, f: Faults, root: Path, l: PendingLink)
    requires l.path != []
  {
    var a := AnchorOf(nodes, Parent(l.path));
    && SafeByName(root, l) && Opens(nodes, f, a, l.path)
    && (a.depth == |l.path| - 1 ==> l.target != "")
  }

  /** A link is restored at or below one place, the one that the anchor names. */
  lemma LinkMadeAnchored(nodes: Nodes, f: Faults, root: Path, l: PendingLink)
    requires Standing(nodes) && AllProper(l.path) && l.path != []
    ensures var a, m := AnchorOf(nodes, Parent(l.path)), LinkMade(nodes, f, root, l);
            && Standing(m.nodes) && Kept(nodes, m.nodes) && NewBelow(nodes, m.nodes, a.dir)
            && (m.nodes != nodes <==> LinkOpens(nodes, f, root, l))
            && (LinkOpens(nodes, f, root, l) ==> a.dir + [l.path[a.depth]] in m.nodes)
  {
    var a, parent := AnchorOf(nodes, Parent(l.path)), Parent(l.path);
    MakeDirsAnchored(nodes, f, parent);
    MakeDirsKeeps(nodes, f, parent);
    var up := MakeDirs(nodes, f, parent);
    NewLinkKeeps(up.nodes, f, l.target, l.path);
    if up.ok { NextPlace(up.nodes, l.path); }
  }

  /** Restoring the link keeps to `root`: the anchor is inside, or nothing is made. */
  predicate LinkStays(nodes: Nodes, f: Faults, root: Path, l: PendingLink)
    requires l.path != []
  {
    root <= AnchorOf(nodes, Parent(l.path)).dir || !LinkOpens(nodes, f, root, l)
  }

  lemma LinkStaysExactlyWhen(nodes: Nodes, f: Faults, root: Path, l: PendingLink)
    requires Standing(nodes) && root in nodes && AllProper(l.path) && l.path != []
    ensures OnlyInside(nodes, LinkMade(nodes, f, root, l).nodes, root) <==> LinkStays(nodes, f, root, l)
  {
    LinkMadeAnchored(nodes, f, root, l);
    var a, m := AnchorOf(nodes, Parent(l.path)), LinkMade(nodes, f, root, l);
    if root <= a.dir {
      forall p | p in m.nodes && p !in nodes
        ensures root <= p
      {
        PrefixTwice(root, a.dir, p);
      }
    } else if LinkOpens(nodes, f, root, l) {
      NewIsOutside(nodes, root, a.dir, l.path[a.depth]);
    }
  }

  lemma PrefixTwice(a: Path, b: Path, c: Path)
    requires a <= b && b <= c
    ensures a <= c
  {
    assert a == b[..|a|] == c[..|a|];
  }

  lemma PrefixOfOneMore(a: Path, dir: Path, name: string)
    ensures a <= dir + [name] ==> a <= dir || a == dir + [name]
  {
    var place := dir + [name];
    if a <= place && |a| <= |dir| { assert a == place[..|a|] == dir[..|a|]; }
  }

  lemma PrefixStands(nodes: Nodes, path: Path, above: Path)
    requires Standing(nodes) && path in nodes && above <= path
    ensures above in nodes
  {
    assert above == path[..|above|];
    TakeAll(path);
  }

  lemma NewIsOutside(nodes: Nodes, root: Path, dir: Path, name: string)
    requires Standing(nodes) && root in nodes && dir + [name] !in nodes && !(root <= dir)
    ensures !(root <= dir + [name]) && !(dir + [name] <= root)
  {
    PrefixOfOneMore(root, dir, name);
    if dir + [name] <= root { PrefixStands(nodes, root, dir + [name]); }
  }

  // ------------------------------------------------------------ runs and archives

  lemma InsideTwice(n0: Nodes, n1: Nodes, n2: Nodes, root: Path)
    requires Kept(n0, n1) && Kept(n1, n2)
    ensures OnlyInside(n0, n2, root) <==> OnlyInside(n0, n1, root) && OnlyInside(n1, n2, root)
  {
  }

  /** Every link that the run gets to keeps to `root`. */
  predicate StepsStay(nodes: Nodes, f: Faults, root: Path, links: seq<PendingLink>)
    requires AllNamed(links)
  {
    links == [] ||
    var n := |links| - 1;
    var before := LinkRun(nodes, f, root, links[..n]);
    StepsStay(nodes, f, root, links[..n]) && (before.ok ==> LinkStays(before.nodes, f, root, links[n]))
  }

  predicate AllLinksProper(links: seq<PendingLink>) {
    forall i :: 0 <= i < |links| ==> AllProper(links[i].path) && links[i].path != []
  }

  lemma OneMoreStays(n0: Nodes, n1: Nodes, f: Faults, root: Path, l: PendingLink)
    requires root in n0 && Standing(n1) && Kept(n0, n1) && AllProper(l.path) && l.path != []
    ensures OnlyInside(n0, LinkMade(n1, f, root, l).nodes, root) <==> OnlyInside(n0, n1, root) && LinkStays(n1, f, root, l)
  {
    LinkMadeAnchored(n1, f, root, l);
    LinkStaysExactlyWhen(n1, f, root, l);
    InsideTwice(n0, n1, LinkMade(n1, f, root, l).nodes, root);
  }

  /** Restoring links one after the other keeps to `root` exactly when every link that is reached
      does, whatever the links are and lead to. */
  lemma {:induction false} LinkRunStaysExactlyWhen(nodes: Nodes, f: Faults, root: Path, links: seq<PendingLink>)
    requires Standing(nodes) && root in nodes && AllNamed(links) && AllLinksProper(links)
    ensures OnlyInside(nodes, LinkRun(nodes, f, root, links).nodes, root) <==> StepsStay(nodes, f, root, links)
  {
    if links != [] {
      var n := |links| - 1;
      LinkRunStaysExactlyWhen(nodes, f, root, links[..n]);
      LinkRunKeeps(nodes, f, root, links[..n]);
      var before := LinkRun(nodes, f, root, links[..n]);
      if before.ok { OneMoreStays(nodes, before.nodes, f, root, links[n]); }
    }
  }

  /** Every link of the archive that unpacking gets to keeps to `root`. */
  ghost predicate LinksStay(nodes: Nodes, f: Faults, root: Path, tar: Tarball) {
    LinksAreNamed(root, tar.entries);
    var plain, links := PlainRun(nodes, f, root, tar.entries), LinksIn(root, tar.entries);
    plain.ok && !tar.damaged ==> StepsStay(plain.nodes, f, root, links)
  }

  /** Unpacking into a fresh directory creates nothing outside it exactly when every link that it
      gets to is made inside, or not made at all: for any archive, and over every failure. */
  lemma ExtractionStaysExactlyWhen(nodes: Nodes, f: Faults, root: Path, tar: Tarball)
    requires Fresh(nodes, root) && AllProper(root)
    ensures OnlyInside(nodes, Extraction(nodes, f, root, tar).nodes, root) <==> LinksStay(nodes, f, root, tar)
  {
    PlainRunStays(nodes, f, root, tar.entries);
    var plain, links := PlainRun(nodes, f, root, tar.entries), LinksIn(root, tar.entries);
    if plain.ok && !tar.damaged {
      LinksAreNamed(root, tar.entries);
      LinksAreBelow(root, tar.entries);
      LinkRunStaysExactlyWhen(plain.nodes, f, root, links);
      LinkRunKeeps(plain.nodes, f, root, links);
      InsideTwice(nodes, plain.nodes, LinkRun(plain.nodes, f, root, links).nodes, root);
    }
  }

  /** One more link entry in an archive that unpacks inside keeps everything inside exactly when
      that link does. */
  lemma OneLinkBelow(nodes: Nodes, f: Faults, root: Path, entries: seq<TarEntry>, e: TarEntry, m: TarEntry, m': TarEntry)
    requires Fresh(nodes, root) && AllProper(root) && AllProper(PathOf(e)) && IsLink(e)
    requires IsManifest(m) && AllProper(PathOf(m)) && IsManifest(m') && AllProper(PathOf(m'))
    requires var made := Extraction(nodes, f, root, Tarball(entries + [m], false));
             made.ok && OnlyInside(nodes, made.nodes, root)
    ensures var after := Extraction(nodes, f, root, Tarball(entries + [m], false)).nodes;
            OnlyInside(nodes, Extraction(nodes, f, root, Tarball(entries + [e] + [m'], false)).nodes, root) <==>
              LinkStays(after, f, root, PendingLink(root + PathOf(e), e.link))
  {
    var after := Extraction(nodes, f, root, Tarball(entries + [m], false)).nodes;
    OneLinkMore(nodes, f, root, entries, e, m, m');
    ExtractionKeeps(nodes, f, root, Tarball(entries + [m], false));
    ProperTarget(root, PathOf(e));
    OneMoreStays(nodes, after, f, root, PendingLink(root + PathOf(e), e.link));
  }

  // -------------------------------------------------------- without crossed links

  lemma InsideParent(root: Path, path: Path)
    requires root <= path && root != path
    ensures root <= Parent(path)
  {
    assert |root| < |path|;
    assert root == path[..|root|] == Parent(path)[..|root|];
  }

  /** Where no link stands on a path below `root`, its anchor is inside. */
  lemma {:induction false} UnlinkedAnchor(nodes: Nodes, root: Path, path: Path)
    requires Standing(nodes) && IsDir(nodes, root) && root <= path && AllProper(path) && Unlinked(nodes, path)
    ensures root <= AnchorOf(nodes, path).dir
    decreases |path|
  {
    LookUnlinked(nodes, path, true);
    if path !in nodes {
      UnlinkedAbove(nodes, path);
      InsideParent(root, path);
      UnlinkedAnchor(nodes, root, Parent(path));
    }
  }

  lemma AnchorBelow(n0: Nodes, n1: Nodes, root: Path, links: seq<PendingLink>, path: Path)
    requires Fresh(n0, root) && Standing(n1) && Kept(n0, n1) && LinksFrom(n0, n1, links) && Below(root, path)
    requires NoLinkAbove(links, path)
    ensures root <= AnchorOf(n1, Parent(path)).dir
  {
    UnlinkedParent(n0, n1, root, links, path);
    InsideParent(root, path);
    UnlinkedAnchor(n1, root, Parent(path));
  }

  lemma {:induction false} UncrossedStepsStay(n0: Nodes, n1: Nodes, f: Faults, root: Path, entries: seq<TarEntry>,
                                              links: seq<PendingLink>)
    requires Fresh(n0, root) && LinkPhase(n0, n1, root, entries, [])
    requires AllNamed(links) && AllBelow(root, links) && NoneCrossed(links)
    ensures StepsStay(n1, f, root, links)
  {
    if links != [] {
      var n := |links| - 1;
      UncrossedStepsStay(n0, n1, f, root, entries, links[..n]);
      LinkRunStays(n0, n1, f, root, entries, links[..n]);
      AnchorBelow(n0, LinkRun(n1, f, root, links[..n]).nodes, root, links[..n], links[n].path);
    }
  }

  /** Without a link entry below an earlier one every anchor is inside, so that every link stays. */
  lemma UncrossedLinksStay(nodes: Nodes, f: Faults, root: Path, tar: Tarball)
    requires Fresh(nodes, root) && AllProper(root) && Uncrossed(tar.entries)
    ensures LinksStay(nodes, f, root, tar) && OnlyInside(nodes, Extraction(nodes, f, root, tar).nodes, root)
  {
    var plain := PlainRun(nodes, f, root, tar.entries);
    PlainRunStays(nodes, f, root, tar.entries);
    if plain.ok && !tar.damaged {
      PlainIsLinkPhase(nodes, plain.nodes, root, tar.entries);
      LinksAreNamed(root, tar.entries);
      LinksAreBelow(root, tar.entries);
      UncrossedLinks(root, tar.entries);
      UncrossedStepsStay(nodes, plain.nodes, f, root, tar.entries, LinksIn(root, tar.entries));
    }
    ExtractionStaysExactlyWhen(nodes, f, root, tar);
  }
}
