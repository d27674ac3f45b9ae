/** What the links in an unpacked archive lead to when they are followed. */
module Containment {
  import opened Strings
  import opened Seqs
  import opened Paths
  import opened Archive
  import opened Verifier
  import opened FileSystem
  import opened Unpacking
  import opened UnpackingLaws

  /** Taking in components one by one, from a place already reached. */
  function ReduceFrom(stack: Path, parts: Path): Path
    decreases |parts|
  {
    if parts == [] then stack else ReduceFrom(Enter(true, stack, parts[0]), parts[1..])
  }

  lemma {:induction false} ReduceIsFold(a: Path, b: Path)
    ensures ReduceFrom(Reduce(true, a), b) == Reduce(true, a + b)
    decreases |b|
  {
    if b == [] {
      assert a + b == a;
    } else {
      var next := a + [b[0]];
      assert next[..|a|] == a;
      ReduceIsFold(next, b[1..]);
      assert next + b[1..] == a + b;
    }
  }

  lemma {:induction false} ReduceFromConcat(stack: Path, a: Path, b: Path)
    ensures ReduceFrom(stack, a + b) == ReduceFrom(ReduceFrom(stack, a), b)
    decreases |a|
  {
    if a == [] {
      assert a + b == b;
    } else {
      assert (a + b)[1..] == a[1..] + b;
      ReduceFromConcat(Enter(true, stack, a[0]), a[1..], b);
    }
  }

  predicate Descends(parts: Path) {
    forall i :: 0 <= i < |parts| ==> parts[i] != ".."
  }

  lemma {:induction false} DescendingExtends(stack: Path, parts: Path)
    requires Descends(parts)
    ensures stack <= ReduceFrom(stack, parts)
    decreases |parts|
  {
    if parts != [] { DescendingExtends(Enter(true, stack, parts[0]), parts[1..]); }
  }

  /** No step up comes after a name. */
  predicate ClimbsFirst(parts: Path) {
    forall i, j :: 0 <= i < j < |parts| && parts[i] != "" && parts[i] != "." && parts[i] != ".." ==> parts[j] != ".."
  }

  /** A relative target that climbs, if at all, at its start, and is inside by name. */
  predicate Tame(root: Path, path: Path, target: string) {
    path != [] && !IsAbs(target) && ClimbsFirst(Split(target, '/')) && root <= ReduceFrom(Parent(path), Split(target, '/'))
  }

  ghost predicate TameBelow(nodes: Nodes, root: Path) {
    forall p :: p in nodes && root <= p && p != root && nodes[p].LinkNode? ==> Tame(root, p, nodes[p].target)
  }

  ghost predicate Inside(root: Path, w: Where) {
    w.Found? || w.Free? ==> root <= w.path
  }

  /** With tame links below `root`, a name that is inside by its spelling, and climbs only at its
      start, leads inside when it is followed, however many links it meets. */
  lemma {:induction false} FollowingStaysInside(nodes: Nodes, root: Path, cur: Path, todo: Path, budget: nat, follow: bool)
    requires Standing(nodes) && IsDir(nodes, root) && TameBelow(nodes, root)
    requires AllProper(cur) && FreeOf(todo, '/') && ClimbsFirst(todo) && root <= ReduceFrom(cur, todo)
    ensures Inside(root, Resolve(nodes, cur, todo, budget, follow))
    decreases budget, |todo|
  {
    if todo != [] && IsDir(nodes, cur) {
      var part, rest := todo[0], todo[1..];
      if part == "" || part == "." {
        FollowingStaysInside(nodes, root, cur, rest, budget, follow);
      } else if part == ".." {
        var up := if cur == [] then [] else Parent(cur);
        FollowingStaysInside(nodes, root, up, rest, budget, follow);
      } else {
        var next := cur + [part];
        assert Descends(rest) by { assert todo[0] == part; assert forall j :: 0 <= j < |rest| ==> rest[j] == todo[j + 1]; }
        DescendingExtends(next, rest);
        if next in nodes {
          match nodes[next]
          case DirNode => FollowingStaysInside(nodes, root, next, rest, budget, follow);
          case FileNode(_) =>
          case LinkNode(target) =>
            LinkIsBelow(nodes, root, next, ReduceFrom(next, rest));
            if budget > 0 && !(rest == [] && !follow) {
              TameStep(root, cur, target, rest);
              assert Parent(next) == cur;
              FollowingStaysInside(nodes, root, cur, Split(target, '/') + rest, budget - 1, follow);
            }
        }
      }
    }
  }

  lemma PrefixesAreDirs(nodes: Nodes, path: Path)
    requires Standing(nodes) && IsDir(nodes, path)
    ensures forall p {:trigger IsDir(nodes, p)} :: p <= path ==> IsDir(nodes, p)
  {
    DirsBelow(nodes, path);
    forall p {:trigger IsDir(nodes, p)} | p <= path
      ensures IsDir(nodes, p)
    {
      assert p == path[..|p|];
    }
  }

  lemma LinkIsBelow(nodes: Nodes, root: Path, next: Path, whole: Path)
    requires Standing(nodes) && IsDir(nodes, root) && next in nodes && nodes[next].LinkNode?
    requires next <= whole && root <= whole
    ensures root <= next && root != next
  {
    PrefixesNest(root, next, whole);
    PrefixesAreDirs(nodes, root);
    assert !IsDir(nodes, next);
  }

  lemma TameStep(root: Path, cur: Path, target: string, rest: Path)
    requires ClimbsFirst(Split(target, '/')) && root <= ReduceFrom(cur, Split(target, '/'))
    requires Descends(rest) && FreeOf(rest, '/')
    ensures var todo := Split(target, '/') + rest;
            FreeOf(todo, '/') && ClimbsFirst(todo) && root <= ReduceFrom(cur, todo)
  {
    SplitFree(target, '/');
    ReduceFromConcat(cur, Split(target, '/'), rest);
    DescendingExtends(ReduceFrom(cur, Split(target, '/')), rest);
  }

  // ------------------------------------------------------------ for whole archives

  /** Every link target climbs only at its start. */
  predicate ClimbFirst(entries: seq<TarEntry>) {
    forall i :: 0 <= i < |entries| && IsLink(entries[i]) ==> ClimbsFirst(Split(entries[i].link, '/'))
  }

  lemma SafeIsTame(root: Path, path: Path, target: string)
    requires AllProper(path) && SafeLink(root, path, target) && ClimbsFirst(Split(target, '/'))
    ensures Tame(root, path, target)
  {
    ReduceProper(true, Parent(path));
    ReduceIsFold(Parent(path), Split(target, '/'));
  }

  lemma NewLinkIsTame(before: Nodes, after: Nodes, root: Path, entries: seq<TarEntry>, p: Path)
    requires AllProper(root) && SafeNames(entries) && ClimbFirst(entries)
    requires LinksSafe(before, after, root) && LinksFrom(before, after, LinksIn(root, entries))
    requires p in after && p !in before && after[p].LinkNode?
    ensures Tame(root, p, after[p].target)
  {
    var l :| l in LinksIn(root, entries) && l.path == p && after[p] == LinkNode(l.target);
    LinkPathsAreInside(root, entries, l);
    LinksMembers(root, entries, l);
    var e :| e in entries && IsLink(e) && l == PendingLink(root + PathOf(e), e.link);
    var i :| 0 <= i < |entries| && entries[i] == e;
    SafeIsTame(root, p, after[p].target);
  }

  /** An archive that unpacked, without a link below an earlier link and with targets that climb
      only at their start, leads nowhere outside: whatever path below the destination is looked
      up, and however many links that takes, what it leads to stands below the destination. */
  lemma NothingLeadsOut(nodes: Nodes, f: Faults, root: Path, tar: Tarball, path: Path, budget: nat, follow: bool)
    requires Fresh(nodes, root) && AllProper(root) && Extraction(nodes, f, root, tar).ok
    requires Uncrossed(tar.entries) && ClimbFirst(tar.entries)
    requires AllProper(path) && root <= path
    ensures Inside(root, Resolve(Extraction(nodes, f, root, tar).nodes, [], path, budget, follow))
  {
    var after := Extraction(nodes, f, root, tar).nodes;
    ExtractionStays(nodes, f, root, tar);
    ExtractionChecks(nodes, f, root, tar);
    forall p | p in after && root <= p && p != root && after[p].LinkNode?
      ensures Tame(root, p, after[p].target)
    {
      NewLinkIsTame(nodes, after, root, tar.entries, p);
    }
    ReduceProper(true, path);
    ReduceIsFold([], path);
    assert [] + path == path;
    FollowingStaysInside(after, root, [], path, budget, follow);
  }

  // ------------------------------------------------------- one link below another

  /** A link whose parent's name leads to `dir` is made in `dir`, wherever that is. */
  lemma MadeWhereTheNameLeads(nodes: Nodes, f: Faults, root: Path, l: PendingLink, dir: Path)
    requires AllProper(l.path) && l.path != [] && l.target != "" && SafeLink(root, l.path, l.target)
    requires Look(nodes, Parent(l.path), true) == Found(dir)
    ensures LinkMade(nodes, f, root, l) == PlacedIn(nodes, f, dir, l.path[|l.path| - 1], l.target)
  {
    var name := l.path[|l.path| - 1];
    TakeLast(l.path);
    ResolvedIsProper(l.path, l.target);
    InsideIsPrefix(ResolveLink(l.path, l.target), root);
    NamedBelow(nodes, f, Parent(l.path), name, l.target, dir);
  }

  function PlacedIn(nodes: Nodes, f: Faults, dir: Path, name: string, target: string): Made {
    if IsDir(nodes, dir) && dir + [name] !in nodes && dir + [name] !in f.create
    then Made(nodes[dir + [name] := LinkNode(target)], true) else Made(nodes, false)
  }

  lemma NamedBelow(nodes: Nodes, f: Faults, parent: Path, name: string, target: string, dir: Path)
    requires Proper(name) && target != "" && Look(nodes, parent, true) == Found(dir)
    ensures MakeDirs(nodes, f, parent) == Made(nodes, IsDir(nodes, dir))
    ensures NewLink(nodes, f, target, parent + [name]) == PlacedIn(nodes, f, dir, name, target)
  {
    ThenOneMore(nodes, [], parent, MAX_LINKS, name);
  }

  lemma NoteOnly(nodes: Nodes, f: Faults, root: Path, e: TarEntry)
    requires AllProper(root) && AllProper(PathOf(e)) && (IsManifest(e) || e.kind.LinkEntry?)
    ensures EntryMade(nodes, f, root, e) == Made(nodes, true)
  {
    EntryCases(nodes, f, root, e);
  }

  lemma RunOneMore(nodes: Nodes, f: Faults, root: Path, entries: seq<TarEntry>, e: TarEntry)
    requires AllProper(root) && AllProper(PathOf(e)) && (IsManifest(e) || e.kind.LinkEntry?)
    ensures PlainRun(nodes, f, root, entries + [e]) == PlainRun(nodes, f, root, entries)
    ensures LinksIn(root, entries + [e]) ==
              if IsLink(e) then LinksIn(root, entries) + [PendingLink(root + PathOf(e), e.link)] else LinksIn(root, entries)
  {
    assert (entries + [e])[..|entries|] == entries;
    NoteOnly(PlainRun(nodes, f, root, entries).nodes, f, root, e);
  }

  /** One more link at the end of an archive is one more step at the end of its unpacking. */
  lemma OneLinkMore(nodes: Nodes, f: Faults, root: Path, entries: seq<TarEntry>, e: TarEntry, m: TarEntry, m': TarEntry)
    requires AllProper(root) && AllProper(PathOf(e)) && IsLink(e)
    requires IsManifest(m) && AllProper(PathOf(m)) && IsManifest(m') && AllProper(PathOf(m'))
    requires Extraction(nodes, f, root, Tarball(entries + [m], false)).ok
    ensures Extraction(nodes, f, root, Tarball(entries + [e] + [m'], false)) ==
              LinkMade(Extraction(nodes, f, root, Tarball(entries + [m], false)).nodes, f, root,
                       PendingLink(root + PathOf(e), e.link))
  {
    RunOneMore(nodes, f, root, entries, m);
    RunOneMore(nodes, f, root, entries, e);
    RunOneMore(nodes, f, root, entries + [e], m');
    LinksAreNamed(root, entries);
    var links := LinksIn(root, entries);
    var l := PendingLink(root + PathOf(e), e.link);
    assert (links + [l])[..|links|] == links;
  }
}
