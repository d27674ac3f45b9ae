/** What unpacking an archive achieves, where it stays, and when it goes through. */
module UnpackingLaws {
  import opened Strings
  import opened Seqs
  import opened Paths
  import opened Trees
  import opened Archive
  import opened Verifier
  import opened FileSystem
  import opened Unpacking

  function NodeOf(e: TarEntry): Node {
    match e.kind
    case FileEntry => FileNode(e.body)
    case LinkEntry => LinkNode(e.link)
    case _ => DirNode
  }

  /** What is new lies below `root`, or is a directory on the way there. */
  ghost predicate OnlyInside(before: Nodes, after: Nodes, root: Path) {
    forall p :: p in after && p !in before ==> root <= p || (p <= root && after[p] == DirNode)
  }

  /** The links that may be restored: relative, and inside the root by name. */
  predicate SafeLink(root: Path, path: Path, target: string) {
    path != [] && !IsAbs(target) && root <= ResolveLink(path, target)
  }

  ghost predicate LinksSafe(before: Nodes, after: Nodes, root: Path) {
    forall p :: p in after && p !in before && after[p].LinkNode? ==> SafeLink(root, p, after[p].target)
  }

  lemma ResolvedIsProper(path: Path, target: string)
    requires path != [] && AllProper(path)
    ensures AllProper(ResolveLink(path, target))
  {
    SplitFree(target, '/');
    var up := ReduceShape(true, Parent(path) + Split(target, '/'));
  }

  // -------------------------------------------------------- what unpacking achieves

  /** Entries that are created as they are read; links come later. */
  predicate Plain(e: TarEntry) {
    !IsManifest(e) && !e.kind.LinkEntry?
  }

  ghost predicate Wanted(root: Path, entries: seq<TarEntry>, links: seq<PendingLink>, path: Path) {
    || (exists e :: e in entries && Plain(e) && path <= root + PathOf(e))
    || (exists l :: l in links && path <= l.path)
  }

  /** `after` is `before` with these entries and links, and the directories they need. */
  ghost predicate Built(before: Nodes, after: Nodes, root: Path, entries: seq<TarEntry>, links: seq<PendingLink>) {
    && Kept(before, after)
    && (forall e :: e in entries && Plain(e) ==> root + PathOf(e) in after && after[root + PathOf(e)] == NodeOf(e))
    && (forall l :: l in links ==> l.path in after && after[l.path] == LinkNode(l.target))
    && (forall p :: p in after && p !in before ==> Wanted(root, entries, links, p))
  }

  /** One more node at `target`, and the directories towards it. */
  ghost predicate Extended(before: Nodes, after: Nodes, target: Path) {
    && Kept(before, after)
    && forall p :: p in after && p !in before ==> p <= target && (p == target || after[p] == DirNode)
  }

  lemma BuiltEntry(n0: Nodes, n1: Nodes, n2: Nodes, root: Path, entries: seq<TarEntry>, links: seq<PendingLink>,
                   e: TarEntry)
    requires Built(n0, n1, root, entries, links)
    requires if Plain(e) then
               Extended(n1, n2, root + PathOf(e)) && root + PathOf(e) in n2 && n2[root + PathOf(e)] == NodeOf(e)
             else n1 == n2
    ensures Built(n0, n2, root, entries + [e], links)
  {
    forall p | p in n2 && p !in n0
      ensures Wanted(root, entries + [e], links, p)
    {
      if p in n1 {
        WantedMore(root, entries, links, p, [e], []);
      } else {
        assert e in entries + [e];
      }
    }
  }

  lemma WantedMore(root: Path, entries: seq<TarEntry>, links: seq<PendingLink>, path: Path, more: seq<TarEntry>,
                   moreLinks: seq<PendingLink>)
    requires Wanted(root, entries, links, path)
    ensures Wanted(root, entries + more, links + moreLinks, path)
  {
    if e :| e in entries && Plain(e) && path <= root + PathOf(e) {
      assert e in entries + more;
    } else {
      var l :| l in links && path <= l.path;
      assert l in links + moreLinks;
    }
    assert links + [] == links;
  }

  lemma BuiltLink(n0: Nodes, n1: Nodes, n2: Nodes, root: Path, entries: seq<TarEntry>, links: seq<PendingLink>,
                  l: PendingLink)
    requires Built(n0, n1, root, entries, links)
    requires Extended(n1, n2, l.path) && l.path in n2 && n2[l.path] == LinkNode(l.target)
    ensures Built(n0, n2, root, entries, links + [l])
  {
    forall p | p in n2 && p !in n0
      ensures Wanted(root, entries, links + [l], p)
    {
      if p in n1 {
        WantedMore(root, entries, links, p, [], [l]);
        assert entries + [] == entries;
      } else {
        assert l in links + [l];
      }
    }
  }

  /** `root` is there, and empty. */
  ghost predicate Fresh(nodes: Nodes, root: Path) {
    Standing(nodes) && IsDir(nodes, root) && forall p :: p in nodes && root <= p ==> p == root
  }

  ghost predicate NoLinksIn(before: Nodes, after: Nodes) {
    forall p :: p in after && p !in before ==> !after[p].LinkNode?
  }

  /** In a fresh root without new links no path below it meets a link. */
  lemma FreshUnlinked(n0: Nodes, n1: Nodes, root: Path, path: Path)
    requires Fresh(n0, root) && Kept(n0, n1) && NoLinksIn(n0, n1) && root <= path
    ensures Unlinked(n1, path)
  {
    forall k | 0 <= k <= |path| && path[..k] in n1
      ensures !n1[path[..k]].LinkNode?
    {
      if k <= |root| {
        assert path[..k] == root[..k];
        if k == |root| { assert path[..k] == root; }
      } else {
        assert root <= path[..k] && path[..k] != root;
      }
    }
  }

  /** Why an entry may be refused. */
  ghost predicate Obstacle(nodes: Nodes, f: Faults, root: Path, e: TarEntry) {
    || ValidateArchivePath(e.name).None?
    || (!IsManifest(e) && e.kind.OtherEntry?)
    || (Plain(e) && exists k :: 0 <= k <= |root + PathOf(e)| &&
                                InTheWay(nodes, f, (root + PathOf(e))[..k], e.kind.FileEntry? && k == |root + PathOf(e)|))
  }

  ghost predicate InTheWay(nodes: Nodes, f: Faults, path: Path, exclusive: bool) {
    path in f.create || path in f.copy || path in f.own || (path in nodes && (exclusive || nodes[path] != DirNode))
  }

  lemma ProperPath(e: TarEntry)
    ensures ValidateArchivePath(e.name) == if AllProper(PathOf(e)) then Some(NameOf(e)) else None
  {
    ValidNames(e.name);
  }

  lemma ProperTarget(root: Path, path: Path)
    requires AllProper(root) && AllProper(path)
    ensures AllProper(root + path) && SamePathOrInside(root + path, root)
  {
    InsideIsPrefix(root + path, root);
  }

  lemma FileLaw(nodes: Nodes, f: Faults, target: Path, body: seq<byte>)
    requires Standing(nodes) && AllProper(target) && target != [] && Unlinked(nodes, target)
    ensures var m := FileMade(nodes, f, target, body);
            && Standing(m.nodes) && Extended(nodes, m.nodes, target) && NoLinksIn(nodes, m.nodes)
            && (m.ok ==> target in m.nodes && m.nodes[target] == FileNode(body))
            && (!m.ok ==> exists k :: 0 <= k <= |target| && InTheWay(nodes, f, target[..k], k == |target|))
  {
    UnlinkedAbove(nodes, target);
    MakeDirsUnlinked(nodes, f, Parent(target));
    MakeDirsKeeps(nodes, f, Parent(target));
    var up := MakeDirs(nodes, f, Parent(target));
    if !up.ok {
      var k :| 0 <= k <= |Parent(target)| && Blocks(nodes, f, Parent(target)[..k]);
      assert Parent(target)[..k] == target[..k];
      assert InTheWay(nodes, f, target[..k], k == |target|);
    } else {
      StaysUnlinked(nodes, up.nodes, Parent(target), target);
      NewFileUnlinked(up.nodes, f, target, body);
      NewFileKeeps(up.nodes, f, target, body);
      TakeAll(target);
      if !NewFile(up.nodes, f, target, body).ok { assert InTheWay(nodes, f, target[..|target|], true); }
    }
  }

  lemma DirLaw(nodes: Nodes, f: Faults, target: Path)
    requires Standing(nodes) && AllProper(target) && Unlinked(nodes, target)
    ensures var m := MakeDirs(nodes, f, target);
            && Standing(m.nodes) && Extended(nodes, m.nodes, target) && NoLinksIn(nodes, m.nodes)
            && (m.ok ==> IsDir(m.nodes, target))
            && (!m.ok ==> exists k :: 0 <= k <= |target| && InTheWay(nodes, f, target[..k], false))
  {
    MakeDirsUnlinked(nodes, f, target);
    MakeDirsKeeps(nodes, f, target);
    if !MakeDirs(nodes, f, target).ok {
      var k :| 0 <= k <= |target| && Blocks(nodes, f, target[..k]);
      assert InTheWay(nodes, f, target[..k], false);
    }
  }

  /** The four ways an entry can go. */
  lemma EntryCases(n1: Nodes, f: Faults, root: Path, e: TarEntry)
    requires AllProper(root)
    ensures EntryMade(n1, f, root, e) ==
              if !AllProper(PathOf(e)) || (!IsManifest(e) && e.kind.OtherEntry?) then Made(n1, false)
              else if !Plain(e) then Made(n1, true)
              else if e.kind.DirEntry? then Owned(MakeDirs(n1, f, root + PathOf(e)), f, root + PathOf(e))
              else Owned(FileMade(n1, f, root + PathOf(e), e.body), f, root + PathOf(e))
  {
    ProperPath(e);
    if AllProper(PathOf(e)) { ProperTarget(root, PathOf(e)); }
  }

  /** One plain entry at its target: what it adds, and why it may fail. */
  lemma TargetLaw(nodes: Nodes, f: Faults, target: Path, isDir: bool, body: seq<byte>)
    requires Standing(nodes) && AllProper(target) && target != [] && Unlinked(nodes, target)
    ensures var m := Owned(if isDir then MakeDirs(nodes, f, target) else FileMade(nodes, f, target, body), f, target);
            && Standing(m.nodes) && NoLinksIn(nodes, m.nodes) && Extended(nodes, m.nodes, target)
            && (m.ok ==> target in m.nodes && m.nodes[target] == if isDir then DirNode else FileNode(body))
            && (!m.ok ==> exists k :: 0 <= k <= |target| && InTheWay(nodes, f, target[..k], !isDir && k == |target|))
  {
    TakeAll(target);
    if isDir { DirLaw(nodes, f, target); } else { FileLaw(nodes, f, target, body); }
    if target in f.own { assert InTheWay(nodes, f, target[..|target|], !isDir); }
  }

  /** What an entry leaves behind. */
  ghost predicate EntryEffect(n1: Nodes, m: Made, root: Path, e: TarEntry) {
    && Standing(m.nodes) && NoLinksIn(n1, m.nodes)
    && (if Plain(e) then Extended(n1, m.nodes, root + PathOf(e)) else m.nodes == n1)
    && (m.ok && Plain(e) ==> root + PathOf(e) in m.nodes && m.nodes[root + PathOf(e)] == NodeOf(e))
    && (m.ok ==> ValidateArchivePath(e.name).Some? && (IsManifest(e) || !e.kind.OtherEntry?))
  }

  lemma EntryLaw(n0: Nodes, n1: Nodes, f: Faults, root: Path, e: TarEntry)
    requires Fresh(n0, root) && AllProper(root) && Standing(n1) && Kept(n0, n1) && NoLinksIn(n0, n1)
    ensures EntryEffect(n1, EntryMade(n1, f, root, e), root, e)
    ensures !EntryMade(n1, f, root, e).ok ==> Obstacle(n1, f, root, e)
  {
    EntryCases(n1, f, root, e);
    ProperPath(e);
    if AllProper(PathOf(e)) && Plain(e) && !e.kind.OtherEntry? {
      ProperTarget(root, PathOf(e));
      FreshUnlinked(n0, n1, root, root + PathOf(e));
      TargetLaw(n1, f, root + PathOf(e), e.kind.DirEntry?, e.body);
    }
  }

  // --------------------------------------------------- where unpacking stays: entries

  lemma InsideStep(n0: Nodes, n1: Nodes, n2: Nodes, root: Path, target: Path)
    requires OnlyInside(n0, n1, root) && Kept(n0, n1) && Extended(n1, n2, target) && root <= target && root != target
    ensures OnlyInside(n0, n2, root) && Kept(n0, n2)
  {
    forall p | p in n2 && p !in n0
      ensures root <= p || (p <= root && n2[p] == DirNode)
    {
      if p !in n1 { PrefixesNest(root, p, target); }
    }
  }

  /** Nothing old has changed, and what is new keeps to `root`. */
  ghost predicate Contained(n0: Nodes, n1: Nodes, root: Path) {
    Standing(n1) && Kept(n0, n1) && OnlyInside(n0, n1, root) && LinksSafe(n0, n1, root)
  }

  /** What holds between two entries. */
  ghost predicate PlainPhase(n0: Nodes, n1: Nodes, root: Path, entries: seq<TarEntry>) {
    && Contained(n0, n1, root)
    && NoLinksIn(n0, n1)
    && Built(n0, n1, root, entries, [])
    && SafeNames(entries) && KnownKinds(entries)
  }

  lemma EntryContained(n0: Nodes, n1: Nodes, n2: Nodes, root: Path, e: TarEntry)
    requires Contained(n0, n1, root) && NoLinksIn(n0, n1) && Standing(n2) && NoLinksIn(n1, n2)
    requires if Plain(e) then Extended(n1, n2, root + PathOf(e)) else n1 == n2
    ensures Contained(n0, n2, root) && NoLinksIn(n0, n2)
  {
    if Plain(e) { InsideStep(n0, n1, n2, root, root + PathOf(e)); }
  }

  /** While reading, unpacking into a fresh root stays inside, whatever the archive holds. */
  lemma {:induction false} PlainRunStays(n0: Nodes, f: Faults, root: Path, entries: seq<TarEntry>)
    requires Fresh(n0, root) && AllProper(root)
    ensures var m := PlainRun(n0, f, root, entries);
            && Contained(n0, m.nodes, root) && NoLinksIn(n0, m.nodes)
            && (m.ok ==> PlainPhase(n0, m.nodes, root, entries))
  {
    if entries != [] {
      var n := |entries| - 1;
      PlainRunStays(n0, f, root, entries[..n]);
      var before := PlainRun(n0, f, root, entries[..n]);
      if before.ok {
        EntryLaw(n0, before.nodes, f, root, entries[n]);
        EntryPhase(n0, before.nodes, EntryMade(before.nodes, f, root, entries[n]), root, entries[..n], entries[n]);
        TakeLast(entries);
      }
    }
  }

  lemma EntryPhase(n0: Nodes, n1: Nodes, m: Made, root: Path, entries: seq<TarEntry>, e: TarEntry)
    requires PlainPhase(n0, n1, root, entries) && EntryEffect(n1, m, root, e)
    ensures Contained(n0, m.nodes, root) && NoLinksIn(n0, m.nodes)
    ensures m.ok ==> PlainPhase(n0, m.nodes, root, entries + [e])
  {
    EntryContained(n0, n1, m.nodes, root, e);
    if m.ok {
      BuiltEntry(n0, n1, m.nodes, root, entries, [], e);
      SafeStep(entries, e);
      KindStep(entries, e);
    }
  }

  // ----------------------------------------------------- where unpacking stays: links

  lemma LinkPathsAreInside(root: Path, entries: seq<TarEntry>, l: PendingLink)
    requires AllProper(root) && SafeNames(entries) && l in LinksIn(root, entries)
    ensures l.path != [] && AllProper(l.path) && root <= l.path && root != l.path
  {
    LinksMembers(root, entries, l);
    var e :| e in entries && IsLink(e) && l == PendingLink(root + PathOf(e), e.link);
    ProperPath(e);
    ProperTarget(root, PathOf(e));
  }

  ghost predicate AllSafe(root: Path, links: seq<PendingLink>) {
    forall l :: l in links ==> l.target != "" && SafeLink(root, l.path, l.target)
  }

  ghost predicate OnlyThisLink(n1: Nodes, n2: Nodes, root: Path, l: PendingLink) {
    forall p :: p in n2 && p !in n1 && n2[p].LinkNode? ==>
      p == l.path && n2[p].target == l.target && SafeLink(root, p, l.target)
  }

  /** The links that are new are those that have been restored. */
  ghost predicate LinksFrom(before: Nodes, after: Nodes, links: seq<PendingLink>) {
    forall p :: p in after && p !in before && after[p].LinkNode? ==>
      exists l :: l in links && l.path == p && after[p] == LinkNode(l.target)
  }

  /** What holds between two links. */
  ghost predicate LinkPhase(n0: Nodes, n1: Nodes, root: Path, entries: seq<TarEntry>, links: seq<PendingLink>) {
    && Contained(n0, n1, root)
    && LinksFrom(n0, n1, links)
    && Built(n0, n1, root, entries, links)
    && AllSafe(root, links)
  }

  predicate Below(root: Path, path: Path) {
    AllProper(path) && path != [] && root <= path && root != path
  }

  /** No earlier link stands above this one. */
  ghost predicate NoLinkAbove(links: seq<PendingLink>, path: Path) {
    forall l :: l in links ==> !(l.path < path)
  }

  lemma UnlinkedParent(n0: Nodes, n1: Nodes, root: Path, links: seq<PendingLink>, path: Path)
    requires Fresh(n0, root) && Kept(n0, n1) && LinksFrom(n0, n1, links) && Below(root, path)
    requires NoLinkAbove(links, path)
    ensures Unlinked(n1, Parent(path))
  {
    forall k | 0 <= k <= |Parent(path)| && Parent(path)[..k] in n1
      ensures !n1[Parent(path)[..k]].LinkNode?
    {
      var q := Parent(path)[..k];
      assert q == path[..k] && q < path;
      if k <= |root| {
        assert q == root[..k];
        if k == |root| { assert q == root; }
      } else {
        assert root <= q && q != root;
      }
    }
  }

  /** Why a pending link may be refused. */
  ghost predicate LinkObstacle(nodes: Nodes, f: Faults, root: Path, l: PendingLink) {
    || l.target == ""
    || !SafeLink(root, l.path, l.target)
    || exists k :: 0 <= k <= |l.path| && InTheWay(nodes, f, l.path[..k], k == |l.path|)
  }

  ghost predicate LinkEffect(n1: Nodes, m: Made, root: Path, l: PendingLink) {
    && Standing(m.nodes) && Extended(n1, m.nodes, l.path) && OnlyThisLink(n1, m.nodes, root, l)
    && (m.ok ==> l.path in m.nodes && m.nodes[l.path] == LinkNode(l.target))
    && (m.ok ==> l.target != "" && SafeLink(root, l.path, l.target))
  }

  /** A link whose parent path meets no link: what it adds, and why it may fail. */
  lemma LinkLaw(n1: Nodes, f: Faults, root: Path, l: PendingLink)
    requires Standing(n1) && AllProper(l.path) && l.path != [] && Unlinked(n1, Parent(l.path))
    ensures LinkEffect(n1, LinkMade(n1, f, root, l), root, l)
    ensures !LinkMade(n1, f, root, l).ok ==> LinkObstacle(n1, f, root, l)
  {
    ResolvedIsProper(l.path, l.target);
    InsideIsPrefix(ResolveLink(l.path, l.target), root);
    if SafeLink(root, l.path, l.target) { SafeLinkLaw(n1, f, root, l); }
  }

  lemma SafeLinkLaw(n1: Nodes, f: Faults, root: Path, l: PendingLink)
    requires Standing(n1) && AllProper(l.path) && l.path != [] && Unlinked(n1, Parent(l.path))
    requires SafeLink(root, l.path, l.target) && SamePathOrInside(ResolveLink(l.path, l.target), root)
    ensures LinkEffect(n1, LinkMade(n1, f, root, l), root, l)
    ensures !LinkMade(n1, f, root, l).ok ==> LinkObstacle(n1, f, root, l)
  {
    MakeDirsUnlinked(n1, f, Parent(l.path));
    MakeDirsKeeps(n1, f, Parent(l.path));
    var up := MakeDirs(n1, f, Parent(l.path));
    if !up.ok {
      TowardsParent(n1, up.nodes, root, l);
      var k :| 0 <= k <= |Parent(l.path)| && Blocks(n1, f, Parent(l.path)[..k]);
      assert Parent(l.path)[..k] == l.path[..k];
      assert InTheWay(n1, f, l.path[..k], k == |l.path|);
    } else {
      PlaceLink(n1, up.nodes, f, root, l);
    }
  }

  lemma TowardsParent(n1: Nodes, n2: Nodes, root: Path, l: PendingLink)
    requires Standing(n2) && l.path != [] && DirsTowards(n1, n2, Parent(l.path))
    ensures LinkEffect(n1, Made(n2, false), root, l)
  {
    forall p | p in n2 && p !in n1
      ensures p <= l.path && n2[p] == DirNode
    {
      assert p <= Parent(l.path);
    }
  }

  lemma PlaceLink(n1: Nodes, n2: Nodes, f: Faults, root: Path, l: PendingLink)
    requires Standing(n2) && AllProper(l.path) && l.path != [] && DirsTowards(n1, n2, Parent(l.path))
    requires IsDir(n2, Parent(l.path)) && SafeLink(root, l.path, l.target)
    ensures LinkEffect(n1, NewLink(n2, f, l.target, l.path), root, l)
    ensures !NewLink(n2, f, l.target, l.path).ok ==> LinkObstacle(n1, f, root, l)
  {
    TowardsParent(n1, n2, root, l);
    NewLinkUnlinked(n2, f, l.target, l.path);
    NewLinkKeeps(n2, f, l.target, l.path);
    TakeAll(l.path);
    if !NewLink(n2, f, l.target, l.path).ok && l.target != "" {
      assert l.path in n2 ==> l.path in n1;
      assert InTheWay(n1, f, l.path[..|l.path|], true);
    }
  }

  lemma LinkContained(n0: Nodes, n1: Nodes, m: Made, root: Path, links: seq<PendingLink>, l: PendingLink)
    requires Contained(n0, n1, root) && LinksFrom(n0, n1, links) && LinkEffect(n1, m, root, l) && Below(root, l.path)
    ensures Contained(n0, m.nodes, root) && LinksFrom(n0, m.nodes, links + [l])
  {
    InsideStep(n0, n1, m.nodes, root, l.path);
    LinksFromStep(n0, n1, m.nodes, root, links, l);
  }

  lemma LinksFromStep(n0: Nodes, n1: Nodes, n2: Nodes, root: Path, links: seq<PendingLink>, l: PendingLink)
    requires Kept(n0, n1) && Kept(n1, n2) && LinksFrom(n0, n1, links) && OnlyThisLink(n1, n2, root, l)
    ensures LinksFrom(n0, n2, links + [l])
  {
    forall p | p in n2 && p !in n0 && n2[p].LinkNode?
      ensures exists d :: d in links + [l] && d.path == p && n2[p] == LinkNode(d.target)
    {
      if p in n1 {
        var d :| d in links && d.path == p && n1[p] == LinkNode(d.target);
        assert d in links + [l];
      } else {
        assert l in links + [l];
      }
    }
  }

  ghost predicate AllBelow(root: Path, links: seq<PendingLink>) {
    forall i :: 0 <= i < |links| ==> Below(root, links[i].path)
  }

  /** No link stands below an earlier one. */
  ghost predicate NoneCrossed(links: seq<PendingLink>) {
    forall i, j :: 0 <= i < j < |links| ==> !(links[i].path < links[j].path)
  }

  /** Restoring links of which none stands below an earlier one stays inside. */
  lemma {:induction false} LinkRunStays(n0: Nodes, n1: Nodes, f: Faults, root: Path, entries: seq<TarEntry>,
                                        links: seq<PendingLink>)
    requires Fresh(n0, root) && LinkPhase(n0, n1, root, entries, [])
    requires AllNamed(links) && AllBelow(root, links) && NoneCrossed(links)
    ensures var m := LinkRun(n1, f, root, links);
            && Contained(n0, m.nodes, root) && LinksFrom(n0, m.nodes, links)
            && (m.ok ==> LinkPhase(n0, m.nodes, root, entries, links))
  {
    if links != [] {
      var n := |links| - 1;
      LinkRunStays(n0, n1, f, root, entries, links[..n]);
      var before := LinkRun(n1, f, root, links[..n]);
      assert links[..n] + [links[n]] == links;
      if before.ok {
        LinkNext(n0, before.nodes, f, root, entries, links[..n], links[n]);
      } else {
        FewerLinks(n0, before.nodes, links[..n], links[n]);
      }
    }
  }

  lemma FewerLinks(n0: Nodes, n1: Nodes, links: seq<PendingLink>, l: PendingLink)
    requires LinksFrom(n0, n1, links)
    ensures LinksFrom(n0, n1, links + [l])
  {
    forall p | p in n1 && p !in n0 && n1[p].LinkNode?
      ensures exists d :: d in links + [l] && d.path == p && n1[p] == LinkNode(d.target)
    {
      var d :| d in links && d.path == p && n1[p] == LinkNode(d.target);
      assert d in links + [l];
    }
  }

  lemma LinkNext(n0: Nodes, n1: Nodes, f: Faults, root: Path, entries: seq<TarEntry>, links: seq<PendingLink>,
                 l: PendingLink)
    requires Fresh(n0, root) && LinkPhase(n0, n1, root, entries, links) && Below(root, l.path)
    requires NoLinkAbove(links, l.path)
    ensures var m := LinkMade(n1, f, root, l);
            && Contained(n0, m.nodes, root) && LinksFrom(n0, m.nodes, links + [l])
            && (m.ok ==> LinkPhase(n0, m.nodes, root, entries, links + [l]))
            && (!m.ok ==> LinkObstacle(n1, f, root, l))
  {
    var m := LinkMade(n1, f, root, l);
    UnlinkedParent(n0, n1, root, links, l.path);
    LinkLaw(n1, f, root, l);
    LinkContained(n0, n1, m, root, links, l);
    if m.ok { BuiltLink(n0, n1, m.nodes, root, entries, links, l); }
  }

  // ----------------------------------------------------- when nothing is in the way

  predicate Unopposed(f: Faults, root: Path) {
    forall p :: p in f.create + f.copy.Keys + f.own ==> !(root <= p) && !(p <= root)
  }

  /** Whatever stands above another entry is a directory. */
  ghost predicate Nested(entries: seq<TarEntry>) {
    forall d, e :: d in entries && e in entries && !IsManifest(d) && !IsManifest(e) && PathOf(d) < PathOf(e) ==>
      d.kind.DirEntry?
  }

  /** Names are safe and distinct, kinds known, and everything stands in a folder. */
  ghost predicate Orderly(entries: seq<TarEntry>) {
    SafeNames(entries) && KnownKinds(entries) && DistinctNames(entries) && Nested(entries)
  }

  /** An empty directory in which no call fails. */
  ghost predicate Receptive(nodes: Nodes, f: Faults, root: Path) {
    Fresh(nodes, root) && Unopposed(f, root)
  }

  predicate SafeEntry(root: Path, e: TarEntry) {
    IsLink(e) ==> e.link != "" && SafeLink(root, root + PathOf(e), e.link)
  }

  ghost predicate SafeLinks(root: Path, entries: seq<TarEntry>) {
    forall e :: e in entries ==> SafeEntry(root, e)
  }

  /** The entries that stand in `after` already, none of them on the path of `e`. */
  ghost predicate StandsFor(n0: Nodes, n1: Nodes, root: Path, stored: iset<TarEntry>, e: TarEntry) {
    && (forall d :: d in stored ==>
          !IsManifest(d) && PathOf(d) != PathOf(e) && root + PathOf(d) in n1 && n1[root + PathOf(d)] == NodeOf(d))
    && (forall p :: p in n1 && p !in n0 ==> exists d :: d in stored && p <= root + PathOf(d))
  }

  /** Where two different paths below `root` meet. */
  lemma TwoBelow(root: Path, p: Path, path: Path, k: nat)
    requires p != path && |root| < k <= |root + path| && (root + path)[..k] <= root + p
    ensures var q := (root + path)[..k];
            if q == root + p then p < path else q == (root + p)[..k] && (k == |root + path| ==> path < p)
  {
    var q := (root + path)[..k];
    assert q == (root + p)[..k];
    assert path[..k - |root|] == q[|root|..] == p[..k - |root|];
    if q == root + p { assert p == p[..k - |root|]; }
    if k == |root + path| { assert path == path[..k - |root|]; }
  }

  lemma SameBelow(root: Path, p: Path, q: Path)
    ensures root + p == root + q <==> p == q
  {
    assert p == (root + p)[|root|..];
    assert q == (root + q)[|root|..];
  }

  lemma NothingInTheWay(n0: Nodes, n1: Nodes, f: Faults, root: Path, entries: seq<TarEntry>,
                        stored: iset<TarEntry>, e: TarEntry, k: nat)
    requires Fresh(n0, root) && Standing(n1) && Kept(n0, n1) && Unopposed(f, root) && Nested(entries)
    requires e in entries && !IsManifest(e) && k <= |root + PathOf(e)|
    requires forall d :: d in stored ==> d in entries
    requires StandsFor(n0, n1, root, stored, e)
    ensures !InTheWay(n1, f, (root + PathOf(e))[..k], !e.kind.DirEntry? && k == |root + PathOf(e)|)
  {
    var path := PathOf(e);
    var q := (root + path)[..k];
    if k <= |root| {
      OnTheRoot(n0, root, path, k);
    } else if q in n1 {
      assert root <= q && q != root;
      var d :| d in stored && q <= root + PathOf(d);
      assert PathOf(d) < path ==> d.kind.DirEntry?;
      assert path < PathOf(d) ==> e.kind.DirEntry?;
      OpenPlace(n1, root, PathOf(d), NodeOf(d), path, e.kind.DirEntry?, k);
    }
    ClearPlace(n1, f, root, path, e.kind.DirEntry?, k);
  }

  lemma ClearPlace(nodes: Nodes, f: Faults, root: Path, path: Path, isDir: bool, k: nat)
    requires Unopposed(f, root) && k <= |root + path|
    requires (root + path)[..k] in nodes ==> IsDir(nodes, (root + path)[..k]) && (k == |root + path| ==> isDir)
    ensures !InTheWay(nodes, f, (root + path)[..k], !isDir && k == |root + path|)
  {
    var q := (root + path)[..k];
    if k <= |root| { assert q == root[..k] && q <= root; } else { assert root <= q; }
    assert q !in f.create + f.copy.Keys + f.own;
  }

  lemma OpenPlace(n1: Nodes, root: Path, p: Path, node: Node, path: Path, isDir: bool, k: nat)
    requires Standing(n1) && root + p in n1 && n1[root + p] == node && p != path
    requires |root| < k <= |root + path| && (root + path)[..k] <= root + p
    requires (p < path ==> node == DirNode) && (path < p ==> isDir)
    ensures IsDir(n1, (root + path)[..k]) && (k == |root + path| ==> isDir)
  {
    OneInTheWay(n1, root, p, node, path, k);
  }

  lemma OnTheRoot(n0: Nodes, root: Path, path: Path, k: nat)
    requires Standing(n0) && IsDir(n0, root) && k <= |root|
    ensures (root + path)[..k] <= root && IsDir(n0, (root + path)[..k])
  {
    assert (root + path)[..k] == root[..k];
    if k == |root| { assert root[..k] == root; }
  }

  /** A stored node at or below a place on the path to `path`. */
  lemma OneInTheWay(n1: Nodes, root: Path, p: Path, node: Node, path: Path, k: nat)
    requires Standing(n1) && root + p in n1 && n1[root + p] == node && p != path
    requires |root| < k <= |root + path| && (root + path)[..k] <= root + p
    ensures var q := (root + path)[..k];
            || (p < path && q in n1 && n1[q] == node && k < |root + path|)
            || (IsDir(n1, q) && (k == |root + path| ==> path < p))
  {
    TwoBelow(root, p, path, k);
  }

  lemma SamePathSameName(d: TarEntry, e: TarEntry)
    requires PathOf(d) == PathOf(e)
    ensures NameOf(d) == NameOf(e)
  {
    JoinSplit(NameOf(d), '/');
    JoinSplit(NameOf(e), '/');
  }

  lemma DistinctPathsOf(entries: seq<TarEntry>, i: nat, j: nat)
    requires DistinctNames(entries) && i < |entries| && j < |entries| && i != j
    ensures PathOf(entries[i]) != PathOf(entries[j])
  {
    if PathOf(entries[i]) == PathOf(entries[j]) { SamePathSameName(entries[i], entries[j]); }
  }

  /** An entry of an orderly archive meets no obstacle while reading. */
  lemma NoObstacle(n0: Nodes, n1: Nodes, f: Faults, root: Path, entries: seq<TarEntry>, k: nat)
    requires Fresh(n0, root) && Standing(n1) && Unopposed(f, root)
    requires SafeNames(entries) && KnownKinds(entries) && DistinctNames(entries) && Nested(entries)
    requires k < |entries| && Built(n0, n1, root, entries[..k], [])
    ensures !Obstacle(n1, f, root, entries[k])
  {
    var e := entries[k];
    if Plain(e) {
      var stored := iset d | d in entries[..k] && Plain(d);
      forall d | d in stored
        ensures PathOf(d) != PathOf(e) && d in entries
      {
        var i :| 0 <= i < k && entries[i] == d;
        DistinctPathsOf(entries, i, k);
      }
      forall p | p in n1 && p !in n0
        ensures exists d :: d in stored && p <= root + PathOf(d)
      {
        assert Wanted(root, entries[..k], [], p);
        var d :| d in entries[..k] && Plain(d) && p <= root + PathOf(d);
        assert d in stored;
      }
      forall j | 0 <= j <= |root + PathOf(e)|
        ensures !InTheWay(n1, f, (root + PathOf(e))[..j], e.kind.FileEntry? && j == |root + PathOf(e)|)
      {
        NothingInTheWay(n0, n1, f, root, entries, stored, e, j);
      }
    }
  }

  lemma {:induction false} LinksMembers(root: Path, entries: seq<TarEntry>, l: PendingLink)
    ensures l in LinksIn(root, entries) <==>
              exists e :: e in entries && IsLink(e) && l == PendingLink(root + PathOf(e), e.link)
  {
    if entries != [] {
      var n := |entries| - 1;
      LinksMembers(root, entries[..n], l);
      TakeLast(entries);
    }
  }

  ghost predicate DistinctLinks(links: seq<PendingLink>) {
    forall i, j :: 0 <= i < j < |links| ==> links[i].path != links[j].path
  }

  lemma {:induction false} LinksAreDistinct(root: Path, entries: seq<TarEntry>)
    requires DistinctNames(entries)
    ensures DistinctLinks(LinksIn(root, entries))
  {
    if entries != [] {
      var n := |entries| - 1;
      var before := LinksIn(root, entries[..n]);
      LinksAreDistinct(root, entries[..n]);
      forall l | l in before
        ensures l.path != root + PathOf(entries[n])
      {
        EarlierEntry(root, entries, n, l);
      }
    }
  }

  lemma EarlierEntry(root: Path, entries: seq<TarEntry>, n: nat, l: PendingLink)
    requires DistinctNames(entries) && n < |entries| && l in LinksIn(root, entries[..n])
    ensures l.path != root + PathOf(entries[n])
  {
    LinksMembers(root, entries[..n], l);
    var e :| e in entries[..n] && IsLink(e) && l == PendingLink(root + PathOf(e), e.link);
    var j :| 0 <= j < n && entries[j] == e;
    DistinctPathsOf(entries, j, n);
    SameBelow(root, PathOf(e), PathOf(entries[n]));
  }

  lemma NoLinkObstacle(n0: Nodes, n1: Nodes, f: Faults, root: Path, entries: seq<TarEntry>, j: nat)
    requires Fresh(n0, root) && Standing(n1) && Unopposed(f, root)
    requires DistinctNames(entries) && Nested(entries) && SafeLinks(root, entries)
    requires j < |LinksIn(root, entries)| && Built(n0, n1, root, entries, LinksIn(root, entries)[..j])
    ensures !LinkObstacle(n1, f, root, LinksIn(root, entries)[j])
  {
    var links := LinksIn(root, entries);
    var l := links[j];
    LinksMembers(root, entries, l);
    var e :| e in entries && IsLink(e) && l == PendingLink(root + PathOf(e), e.link);
    assert SafeEntry(root, e);
    var stored := iset d | d in entries &&
      (Plain(d) || (IsLink(d) && PendingLink(root + PathOf(d), d.link) in links[..j]));
    StoredForLink(n0, n1, root, entries, j, e, stored);
    forall k | 0 <= k <= |l.path|
      ensures !InTheWay(n1, f, l.path[..k], k == |l.path|)
    {
      NothingInTheWay(n0, n1, f, root, entries, stored, e, k);
    }
  }

  lemma StoredForLink(n0: Nodes, n1: Nodes, root: Path, entries: seq<TarEntry>, j: nat, e: TarEntry,
                      stored: iset<TarEntry>)
    requires DistinctNames(entries)
    requires j < |LinksIn(root, entries)| && Built(n0, n1, root, entries, LinksIn(root, entries)[..j])
    requires e in entries && IsLink(e) && LinksIn(root, entries)[j] == PendingLink(root + PathOf(e), e.link)
    requires stored == iset d | d in entries &&
               (Plain(d) || (IsLink(d) && PendingLink(root + PathOf(d), d.link) in LinksIn(root, entries)[..j]))
    ensures StandsFor(n0, n1, root, stored, e)
  {
    forall d | d in stored
      ensures !IsManifest(d) && PathOf(d) != PathOf(e)
      ensures root + PathOf(d) in n1 && n1[root + PathOf(d)] == NodeOf(d)
    {
      StoredElsewhere(n0, n1, root, entries, j, e, d);
    }
    forall p | p in n1 && p !in n0
      ensures exists d :: d in stored && p <= root + PathOf(d)
    {
      var d := StoredReason(n0, n1, root, entries, j, p);
    }
  }

  lemma StoredElsewhere(n0: Nodes, n1: Nodes, root: Path, entries: seq<TarEntry>, j: nat, e: TarEntry, d: TarEntry)
    requires DistinctNames(entries)
    requires j < |LinksIn(root, entries)| && Built(n0, n1, root, entries, LinksIn(root, entries)[..j])
    requires e in entries && IsLink(e) && LinksIn(root, entries)[j] == PendingLink(root + PathOf(e), e.link)
    requires d in entries
    requires Plain(d) || (IsLink(d) && PendingLink(root + PathOf(d), d.link) in LinksIn(root, entries)[..j])
    ensures !IsManifest(d) && PathOf(d) != PathOf(e)
    ensures root + PathOf(d) in n1 && n1[root + PathOf(d)] == NodeOf(d)
  {
    if Plain(d) {
      DifferentPaths(entries, d, e);
    } else {
      LinksAreDistinct(root, entries);
      EarlierLink(LinksIn(root, entries), j, PendingLink(root + PathOf(d), d.link));
    }
  }

  lemma DifferentPaths(entries: seq<TarEntry>, d: TarEntry, e: TarEntry)
    requires DistinctNames(entries) && d in entries && e in entries && d != e
    ensures PathOf(d) != PathOf(e)
  {
    var i :| 0 <= i < |entries| && entries[i] == d;
    var j :| 0 <= j < |entries| && entries[j] == e;
    DistinctPathsOf(entries, i, j);
  }

  lemma EarlierLink(links: seq<PendingLink>, j: nat, l: PendingLink)
    requires DistinctLinks(links) && j < |links| && l in links[..j]
    ensures l.path != links[j].path
  {
    var i :| 0 <= i < j && links[..j][i] == l;
    assert links[i].path != links[j].path;
  }

  lemma StoredReason(n0: Nodes, n1: Nodes, root: Path, entries: seq<TarEntry>, j: nat, p: Path)
    returns (d: TarEntry)
    requires j < |LinksIn(root, entries)| && Built(n0, n1, root, entries, LinksIn(root, entries)[..j])
    requires p in n1 && p !in n0
    ensures d in entries && p <= root + PathOf(d)
    ensures Plain(d) || (IsLink(d) && PendingLink(root + PathOf(d), d.link) in LinksIn(root, entries)[..j])
  {
    var links := LinksIn(root, entries);
    assert Wanted(root, entries, links[..j], p);
    if c :| c in entries && Plain(c) && p <= root + PathOf(c) {
      d := c;
    } else {
      var l :| l in links[..j] && p <= l.path;
      assert l in links;
      LinksMembers(root, entries, l);
      d :| d in entries && IsLink(d) && l == PendingLink(root + PathOf(d), d.link);
    }
  }

  // ------------------------------------------------------------- when it goes through

  lemma {:induction false} PlainRunGoesOn(n0: Nodes, f: Faults, root: Path, entries: seq<TarEntry>, k: nat)
    requires Receptive(n0, f, root) && AllProper(root) && Orderly(entries) && k <= |entries|
    ensures PlainRun(n0, f, root, entries[..k]).ok
  {
    if k > 0 {
      PlainRunGoesOn(n0, f, root, entries, k - 1);
      PlainRunStays(n0, f, root, entries[..k - 1]);
      NextEntryGoesOn(n0, PlainRun(n0, f, root, entries[..k - 1]).nodes, f, root, entries, k - 1);
      PlainRunNext(n0, f, root, entries, k - 1);
    }
  }

  lemma PlainRunNext(n0: Nodes, f: Faults, root: Path, entries: seq<TarEntry>, k: nat)
    requires k < |entries| && PlainRun(n0, f, root, entries[..k]).ok
    ensures PlainRun(n0, f, root, entries[..k + 1]) ==
              EntryMade(PlainRun(n0, f, root, entries[..k]).nodes, f, root, entries[k])
  {
    TakeNext(entries, k);
  }

  lemma NextEntryGoesOn(n0: Nodes, n1: Nodes, f: Faults, root: Path, entries: seq<TarEntry>, k: nat)
    requires Receptive(n0, f, root) && AllProper(root) && Orderly(entries)
    requires k < |entries| && PlainPhase(n0, n1, root, entries[..k])
    ensures EntryMade(n1, f, root, entries[k]).ok
  {
    NoObstacle(n0, n1, f, root, entries, k);
    EntryLaw(n0, n1, f, root, entries[k]);
  }

  lemma {:induction false} LinkRunGoesOn(n0: Nodes, n1: Nodes, f: Faults, root: Path, entries: seq<TarEntry>,
                                         links: seq<PendingLink>, k: nat)
    requires Receptive(n0, f, root) && Orderly(entries) && SafeLinks(root, entries)
    requires links == LinksIn(root, entries) && k <= |links|
    requires LinkPhase(n0, n1, root, entries, []) && AllNamed(links) && AllBelow(root, links) && NoneCrossed(links)
    ensures LinkRun(n1, f, root, links[..k]).ok
  {
    if k > 0 {
      LinkRunGoesOn(n0, n1, f, root, entries, links, k - 1);
      LinkStepGoesOn(n0, n1, f, root, entries, links, k - 1);
    }
  }

  lemma LinkStepGoesOn(n0: Nodes, n1: Nodes, f: Faults, root: Path, entries: seq<TarEntry>, links: seq<PendingLink>,
                       k: nat)
    requires Receptive(n0, f, root) && Orderly(entries) && SafeLinks(root, entries)
    requires links == LinksIn(root, entries) && k < |links|
    requires LinkPhase(n0, n1, root, entries, []) && AllNamed(links) && AllBelow(root, links) && NoneCrossed(links)
    requires LinkRun(n1, f, root, links[..k]).ok
    ensures LinkRun(n1, f, root, links[..k + 1]).ok
  {
    LinkRunReaches(n0, n1, f, root, entries, links, k);
    NextLinkGoesOn(n0, LinkRun(n1, f, root, links[..k]).nodes, f, root, entries, links, k);
    LinkRunNext(n1, f, root, links, k);
  }

  lemma LinkRunReaches(n0: Nodes, n1: Nodes, f: Faults, root: Path, entries: seq<TarEntry>, links: seq<PendingLink>,
                       k: nat)
    requires Fresh(n0, root) && LinkPhase(n0, n1, root, entries, []) && k <= |links|
    requires AllNamed(links) && AllBelow(root, links) && NoneCrossed(links) && LinkRun(n1, f, root, links[..k]).ok
    ensures LinkPhase(n0, LinkRun(n1, f, root, links[..k]).nodes, root, entries, links[..k])
  {
    LinkRunStays(n0, n1, f, root, entries, links[..k]);
  }

  lemma LinkRunNext(n1: Nodes, f: Faults, root: Path, links: seq<PendingLink>, k: nat)
    requires AllNamed(links) && k < |links| && LinkRun(n1, f, root, links[..k]).ok
    ensures LinkRun(n1, f, root, links[..k + 1]) == LinkMade(LinkRun(n1, f, root, links[..k]).nodes, f, root, links[k])
  {
    TakeNext(links, k);
  }

  lemma NextLinkGoesOn(n0: Nodes, n1: Nodes, f: Faults, root: Path, entries: seq<TarEntry>, links: seq<PendingLink>,
                       k: nat)
    requires Receptive(n0, f, root) && Orderly(entries) && SafeLinks(root, entries)
    requires links == LinksIn(root, entries) && AllBelow(root, links) && NoneCrossed(links)
    requires k < |links| && LinkPhase(n0, n1, root, entries, links[..k])
    ensures LinkMade(n1, f, root, links[k]).ok
  {
    NoLinkObstacle(n0, n1, f, root, entries, k);
    LinkNext(n0, n1, f, root, entries, links[..k], links[k]);
  }

  /** The whole archive is in place, and nothing else is new. */
  ghost predicate Unpacked(before: Nodes, after: Nodes, root: Path, entries: seq<TarEntry>) {
    && Standing(after)
    && Kept(before, after)
    && (forall e :: e in entries && !IsManifest(e) ==>
          root + PathOf(e) in after && after[root + PathOf(e)] == NodeOf(e))
    && (forall p :: p in after && p !in before ==> exists e :: e in entries && !IsManifest(e) && p <= root + PathOf(e))
  }

  lemma BuiltIsUnpacked(before: Nodes, after: Nodes, root: Path, entries: seq<TarEntry>)
    requires Standing(after) && Built(before, after, root, entries, LinksIn(root, entries))
    ensures Unpacked(before, after, root, entries)
  {
    forall e | e in entries && !IsManifest(e)
      ensures root + PathOf(e) in after && after[root + PathOf(e)] == NodeOf(e)
    {
      EntryIsBuilt(before, after, root, entries, e);
    }
    forall p | p in after && p !in before
      ensures exists e :: e in entries && !IsManifest(e) && p <= root + PathOf(e)
    {
      var e := WantedEntry(root, entries, p);
    }
  }

  lemma EntryIsBuilt(before: Nodes, after: Nodes, root: Path, entries: seq<TarEntry>, e: TarEntry)
    requires Built(before, after, root, entries, LinksIn(root, entries)) && e in entries && !IsManifest(e)
    ensures root + PathOf(e) in after && after[root + PathOf(e)] == NodeOf(e)
  {
    if IsLink(e) { LinkIsListed(root, entries, e); }
  }

  lemma LinkIsListed(root: Path, entries: seq<TarEntry>, e: TarEntry)
    requires e in entries && IsLink(e)
    ensures PendingLink(root + PathOf(e), e.link) in LinksIn(root, entries)
  {
    LinksMembers(root, entries, PendingLink(root + PathOf(e), e.link));
  }

  lemma WantedEntry(root: Path, entries: seq<TarEntry>, p: Path) returns (e: TarEntry)
    requires Wanted(root, entries, LinksIn(root, entries), p)
    ensures e in entries && !IsManifest(e) && p <= root + PathOf(e)
  {
    if c :| c in entries && Plain(c) && p <= root + PathOf(c) {
      e := c;
    } else {
      var l :| l in LinksIn(root, entries) && p <= l.path;
      LinksMembers(root, entries, l);
      e :| e in entries && IsLink(e) && l == PendingLink(root + PathOf(e), e.link);
    }
  }

  /** What stands in place stands in directories, so the archive was nested. */
  lemma UnpackedIsNested(before: Nodes, after: Nodes, root: Path, entries: seq<TarEntry>)
    requires Unpacked(before, after, root, entries) && KnownKinds(entries)
    ensures Nested(entries)
  {
    forall d, e | d in entries && e in entries && !IsManifest(d) && !IsManifest(e) && PathOf(d) < PathOf(e)
      ensures d.kind.DirEntry?
    {
      AboveIsDirectory(after, root, PathOf(d), PathOf(e));
      KnownKind(entries, d);
    }
  }

  lemma AboveIsDirectory(nodes: Nodes, root: Path, above: Path, path: Path)
    requires Standing(nodes) && root + path in nodes && above < path
    ensures root + above in nodes && nodes[root + above] == DirNode
  {
    assert (root + path)[..|root| + |above|] == root + above;
  }

  lemma KnownKind(entries: seq<TarEntry>, d: TarEntry)
    requires KnownKinds(entries) && d in entries && !IsManifest(d) && NodeOf(d) == DirNode
    ensures d.kind.DirEntry?
  {
    var i :| 0 <= i < |entries| && entries[i] == d;
  }

  lemma RestoredLinksAreSafe(root: Path, entries: seq<TarEntry>)
    requires AllSafe(root, LinksIn(root, entries))
    ensures SafeLinks(root, entries)
  {
    forall e | e in entries && IsLink(e)
      ensures SafeEntry(root, e)
    {
      LinksMembers(root, entries, PendingLink(root + PathOf(e), e.link));
    }
  }

  lemma LinksAreBelow(root: Path, entries: seq<TarEntry>)
    requires AllProper(root) && SafeNames(entries)
    ensures AllBelow(root, LinksIn(root, entries))
  {
    forall i | 0 <= i < |LinksIn(root, entries)|
      ensures Below(root, LinksIn(root, entries)[i].path)
    {
      LinkPathsAreInside(root, entries, LinksIn(root, entries)[i]);
    }
  }

  /** No link entry stands below an earlier link entry. */
  ghost predicate Uncrossed(entries: seq<TarEntry>) {
    forall i, j :: 0 <= i < j < |entries| && IsLink(entries[i]) && IsLink(entries[j]) ==>
      !(PathOf(entries[i]) < PathOf(entries[j]))
  }

  lemma NestedIsUncrossed(entries: seq<TarEntry>)
    requires Nested(entries)
    ensures Uncrossed(entries)
  {
    forall i, j | 0 <= i < j < |entries| && IsLink(entries[i]) && IsLink(entries[j])
      ensures !(PathOf(entries[i]) < PathOf(entries[j]))
    {
      assert entries[i] in entries && entries[j] in entries;
    }
  }

  lemma BelowStrictly(root: Path, p: Path, q: Path)
    ensures root + p < root + q <==> p < q
  {
    if root + p < root + q {
      PrefixAfter(root, p, q);
    }
    if p < q {
      assert (root + q)[..|root + p|] == root + q[..|p|];
    }
  }

  lemma {:induction false} UncrossedLinks(root: Path, entries: seq<TarEntry>)
    requires Uncrossed(entries)
    ensures NoneCrossed(LinksIn(root, entries))
  {
    if entries != [] {
      var n := |entries| - 1;
      UncrossedLinks(root, entries[..n]);
      if IsLink(entries[n]) {
        var before := LinksIn(root, entries[..n]);
        forall i | 0 <= i < |before|
          ensures !(before[i].path < root + PathOf(entries[n]))
        {
          assert before[i] in before;
          LinksMembers(root, entries[..n], before[i]);
          var e :| e in entries[..n] && IsLink(e) && before[i] == PendingLink(root + PathOf(e), e.link);
          var j :| 0 <= j < n && entries[j] == e;
          BelowStrictly(root, PathOf(e), PathOf(entries[n]));
        }
      }
    }
  }

  /** What a link run has passed, it has checked, whatever the links lead to. */
  lemma {:induction false} LinkRunChecks(n1: Nodes, f: Faults, root: Path, links: seq<PendingLink>)
    requires AllNamed(links) && AllBelow(root, links) && LinkRun(n1, f, root, links).ok
    ensures AllSafe(root, links)
  {
    if links != [] {
      var n := |links| - 1;
      LinkRunChecks(n1, f, root, links[..n]);
      LinkIsChecked(LinkRun(n1, f, root, links[..n]).nodes, f, root, links[n]);
      TakeLast(links);
    }
  }

  lemma LinkIsChecked(n1: Nodes, f: Faults, root: Path, l: PendingLink)
    requires AllProper(l.path) && l.path != [] && LinkMade(n1, f, root, l).ok
    ensures l.target != "" && SafeLink(root, l.path, l.target)
  {
    ResolvedIsProper(l.path, l.target);
    InsideIsPrefix(ResolveLink(l.path, l.target), root);
  }

  lemma PlainIsLinkPhase(n0: Nodes, n1: Nodes, root: Path, entries: seq<TarEntry>)
    requires PlainPhase(n0, n1, root, entries)
    ensures LinkPhase(n0, n1, root, entries, [])
  {
  }

  // --------------------------------------------------------------- the main results

  /** Whatever the archive and the disk hold, unpacking changes nothing that exists. */
  lemma ExtractionKeeps(nodes: Nodes, f: Faults, root: Path, tar: Tarball)
    requires Standing(nodes)
    ensures Standing(Extraction(nodes, f, root, tar).nodes) && Kept(nodes, Extraction(nodes, f, root, tar).nodes)
  {
    PlainRunKeeps(nodes, f, root, tar.entries);
    LinksAreNamed(root, tar.entries);
    LinkRunKeeps(PlainRun(nodes, f, root, tar.entries).nodes, f, root, LinksIn(root, tar.entries));
  }

  lemma {:induction false} PlainRunKeeps(nodes: Nodes, f: Faults, root: Path, entries: seq<TarEntry>)
    requires Standing(nodes)
    ensures Standing(PlainRun(nodes, f, root, entries).nodes) && Kept(nodes, PlainRun(nodes, f, root, entries).nodes)
  {
    if entries != [] {
      var n := |entries| - 1;
      PlainRunKeeps(nodes, f, root, entries[..n]);
      EntryKeeps(PlainRun(nodes, f, root, entries[..n]).nodes, f, root, entries[n]);
    }
  }

  lemma EntryKeeps(nodes: Nodes, f: Faults, root: Path, e: TarEntry)
    requires Standing(nodes)
    ensures Standing(EntryMade(nodes, f, root, e).nodes) && Kept(nodes, EntryMade(nodes, f, root, e).nodes)
  {
    var valid := ValidateArchivePath(e.name);
    if valid.Some? { EntryAtKeeps(nodes, f, root, root + Split(valid.value, '/'), e); }
  }

  lemma EntryAtKeeps(nodes: Nodes, f: Faults, root: Path, target: Path, e: TarEntry)
    requires Standing(nodes) && target != []
    ensures var after := EntryMadeAt(nodes, f, root, target, e).nodes;
            Standing(after) && Kept(nodes, after)
  {
    TargetKeeps(nodes, f, target, e.body);
  }

  lemma TargetKeeps(nodes: Nodes, f: Faults, target: Path, body: seq<byte>)
    requires Standing(nodes) && target != []
    ensures Standing(MakeDirs(nodes, f, target).nodes) && Kept(nodes, MakeDirs(nodes, f, target).nodes)
    ensures Standing(FileMade(nodes, f, target, body).nodes) && Kept(nodes, FileMade(nodes, f, target, body).nodes)
  {
    MakeDirsKeeps(nodes, f, target);
    MakeDirsKeeps(nodes, f, Parent(target));
    NewFileKeeps(MakeDirs(nodes, f, Parent(target)).nodes, f, target, body);
  }

  lemma {:induction false} LinkRunKeeps(nodes: Nodes, f: Faults, root: Path, links: seq<PendingLink>)
    requires Standing(nodes) && AllNamed(links)
    ensures Standing(LinkRun(nodes, f, root, links).nodes) && Kept(nodes, LinkRun(nodes, f, root, links).nodes)
  {
    if links != [] {
      var n := |links| - 1;
      LinkRunKeeps(nodes, f, root, links[..n]);
      var before := LinkRun(nodes, f, root, links[..n]).nodes;
      MakeDirsKeeps(before, f, Parent(links[n].path));
      NewLinkKeeps(MakeDirs(before, f, Parent(links[n].path)).nodes, f, links[n].target, links[n].path);
    }
  }

  /** Unpacking into a fresh root stays inside it, for every archive in which no link entry
      stands below an earlier one. */
  lemma ExtractionStays(nodes: Nodes, f: Faults, root: Path, tar: Tarball)
    requires Fresh(nodes, root) && AllProper(root) && Uncrossed(tar.entries)
    ensures var m := Extraction(nodes, f, root, tar);
            && Contained(nodes, m.nodes, root) && LinksFrom(nodes, m.nodes, LinksIn(root, tar.entries))
            && (m.ok ==> Unpacked(nodes, m.nodes, root, tar.entries))
  {
    var links := LinksIn(root, tar.entries);
    PlainRunStays(nodes, f, root, tar.entries);
    var plain := PlainRun(nodes, f, root, tar.entries);
    if plain.ok && !tar.damaged {
      PlainIsLinkPhase(nodes, plain.nodes, root, tar.entries);
      LinksAreNamed(root, tar.entries);
      LinksAreBelow(root, tar.entries);
      UncrossedLinks(root, tar.entries);
      LinkRunStays(nodes, plain.nodes, f, root, tar.entries, links);
      var m := LinkRun(plain.nodes, f, root, links);
      if m.ok { BuiltIsUnpacked(nodes, m.nodes, root, tar.entries); }
    }
  }

  lemma ExtractionChecks(nodes: Nodes, f: Faults, root: Path, tar: Tarball)
    requires Fresh(nodes, root) && AllProper(root) && Extraction(nodes, f, root, tar).ok
    ensures !tar.damaged && SafeNames(tar.entries) && KnownKinds(tar.entries) && SafeLinks(root, tar.entries)
  {
    PlainRunStays(nodes, f, root, tar.entries);
    LinksAreNamed(root, tar.entries);
    LinksAreBelow(root, tar.entries);
    LinkRunChecks(PlainRun(nodes, f, root, tar.entries).nodes, f, root, LinksIn(root, tar.entries));
    RestoredLinksAreSafe(root, tar.entries);
  }

  /** If it ends well, every owner could be set, and every link target is relative. */
  lemma ExtractionNeeds(nodes: Nodes, f: Faults, root: Path, tar: Tarball)
    requires Fresh(nodes, root) && AllProper(root) && Extraction(nodes, f, root, tar).ok
    ensures forall e :: e in tar.entries && Plain(e) ==> root + PathOf(e) !in f.own
    ensures forall e :: e in tar.entries && IsLink(e) ==> e.link != "" && e.link[0] != '/'
  {
    PlainRunOwned(nodes, f, root, tar.entries);
    ExtractionChecks(nodes, f, root, tar);
    forall e | e in tar.entries && IsLink(e)
      ensures e.link != "" && e.link[0] != '/'
    {
      assert SafeEntry(root, e);
    }
  }

  lemma {:induction false} PlainRunOwned(nodes: Nodes, f: Faults, root: Path, entries: seq<TarEntry>)
    requires AllProper(root) && PlainRun(nodes, f, root, entries).ok
    ensures forall e :: e in entries && Plain(e) ==> root + PathOf(e) !in f.own
  {
    if entries != [] {
      var n := |entries| - 1;
      PlainRunOwned(nodes, f, root, entries[..n]);
      EntryCases(PlainRun(nodes, f, root, entries[..n]).nodes, f, root, entries[n]);
      TakeLast(entries);
    }
  }

  lemma ExtractionGoesThrough(nodes: Nodes, f: Faults, root: Path, tar: Tarball)
    requires Receptive(nodes, f, root) && AllProper(root)
    requires !tar.damaged && Orderly(tar.entries) && SafeLinks(root, tar.entries)
    ensures Extraction(nodes, f, root, tar).ok
  {
    var links := LinksIn(root, tar.entries);
    PlainRunGoesOn(nodes, f, root, tar.entries, |tar.entries|);
    TakeAll(tar.entries);
    PlainRunStays(nodes, f, root, tar.entries);
    var n1 := PlainRun(nodes, f, root, tar.entries).nodes;
    PlainIsLinkPhase(nodes, n1, root, tar.entries);
    LinksAreNamed(root, tar.entries);
    LinksAreBelow(root, tar.entries);
    NestedIsUncrossed(tar.entries);
    UncrossedLinks(root, tar.entries);
    LinkRunGoesOn(nodes, n1, f, root, tar.entries, links, |links|);
    TakeAll(links);
  }

  /** An archive of safe, distinct names and known kinds unpacks to just what it says, in a
      fresh root without failing calls, exactly when it is whole, its links are safe, and
      whatever stands above another entry is a folder. */
  lemma UnpacksExactlyWhenNested(nodes: Nodes, f: Faults, root: Path, tar: Tarball)
    requires Receptive(nodes, f, root) && AllProper(root)
    requires SafeNames(tar.entries) && KnownKinds(tar.entries) && DistinctNames(tar.entries)
    ensures var m := Extraction(nodes, f, root, tar);
            m.ok && Unpacked(nodes, m.nodes, root, tar.entries) <==>
              !tar.damaged && Nested(tar.entries) && SafeLinks(root, tar.entries)
  {
    var m := Extraction(nodes, f, root, tar);
    if m.ok && Unpacked(nodes, m.nodes, root, tar.entries) {
      ExtractionChecks(nodes, f, root, tar);
      UnpackedIsNested(nodes, m.nodes, root, tar.entries);
    }
    if !tar.damaged && Nested(tar.entries) && SafeLinks(root, tar.entries) {
      ExtractionGoesThrough(nodes, f, root, tar);
      NestedIsUncrossed(tar.entries);
      ExtractionStays(nodes, f, root, tar);
    }
  }
}
