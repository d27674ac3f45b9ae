/** A small file system with symbolic links: what a name leads to, and the calls that create
    directories, files and links (os.MkdirAll, os.OpenFile and os.Symlink as used in
    cmd/kagectl/backup.go). */
module FileSystem {
  import opened Strings
  import opened Seqs
  import opened Paths
  import opened Trees

  datatype Node = FileNode(data: seq<byte>) | LinkNode(target: string) | DirNode

  /** What exists, by the path at which it really stands. */
  type Nodes = map<Path, Node>

  /** Whatever exists stands in directories, up to the root. */
  ghost predicate Standing(nodes: Nodes) {
    && [] in nodes && nodes[[]] == DirNode
    && forall p, k :: p in nodes && 0 <= k < |p| ==> p[..k] in nodes && nodes[p[..k]] == DirNode
  }

  ghost predicate Kept(before: Nodes, after: Nodes) {
    forall p :: p in before ==> p in after && after[p] == before[p]
  }

  predicate IsDir(nodes: Nodes, path: Path) {
    path in nodes && nodes[path] == DirNode
  }

  function Parent(path: Path): Path
    requires path != []
  {
    path[..|path| - 1]
  }

  predicate IsAbs(target: string) {
    target != "" && target[0] == '/'
  }

  // ------------------------------------------------------------ what a name leads to

  /** How many links Linux follows before it gives up on a name. */
  const MAX_LINKS: nat := 40

  /** Something that exists; a free place in a directory that exists; nothing usable. */
  datatype Where = Found(path: Path) | Free(path: Path) | Nowhere

  /** Walks from the directory `cur` along `todo`, entering links on the way; a link in last
      place is entered only with `follow`. */
  function Resolve(nodes: Nodes, cur: Path, todo: Path, budget: nat, follow: bool): Where
    decreases budget, |todo|
  {
    if todo == [] then Found(cur)
    else if !IsDir(nodes, cur) then Nowhere
    else
      var part, rest := todo[0], todo[1..];
      if part == "" || part == "." then Resolve(nodes, cur, rest, budget, follow)
      else if part == ".." then Resolve(nodes, if cur == [] then [] else Parent(cur), rest, budget, follow)
      else if cur + [part] !in nodes then if rest == [] then Free(cur + [part]) else Nowhere
      else
        match nodes[cur + [part]]
        case DirNode => Resolve(nodes, cur + [part], rest, budget, follow)
        case FileNode(_) => if rest == [] then Found(cur + [part]) else Nowhere
        case LinkNode(target) =>
          if rest == [] && !follow then Found(cur + [part])
          else if budget == 0 then Nowhere
          else Resolve(nodes, if IsAbs(target) then [] else cur, Split(target, '/') + rest, budget - 1, follow)
  }

  function Look(nodes: Nodes, path: Path, follow: bool): Where {
    Resolve(nodes, [], path, MAX_LINKS, follow)
  }

  /** A chain of links is followed to its end if it is not too long. */
  lemma {:induction false} ChainResolves(nodes: Nodes, names: seq<string>, i: nat, budget: nat)
    requires IsDir(nodes, []) && AllProper(names) && i < |names| && IsChain(nodes, names)
    ensures Resolve(nodes, [], [names[i]], budget, true) ==
              if |names| - 1 - i <= budget then Found([names[|names| - 1]]) else Nowhere
    decreases budget
  {
    var todo := [names[i]];
    assert Proper(todo[0]);
    assert [] + [todo[0]] == todo && todo[1..] == [];
    if i < |names| - 1 {
      var next := names[i + 1];
      assert Proper(next) && nodes[todo] == LinkNode(next);
      SplitWord(next, '/');
      assert !IsAbs(next) && Split(next, '/') + todo[1..] == [next];
      if budget > 0 { ChainResolves(nodes, names, i + 1, budget - 1); }
    }
  }

  predicate IsChain(nodes: Nodes, names: seq<string>) {
    && names != []
    && (forall i :: 0 <= i < |names| ==> [names[i]] in nodes)
    && (forall i :: 0 <= i < |names| - 1 ==> nodes[[names[i]]] == LinkNode(names[i + 1]))
    && nodes[[names[|names| - 1]]].FileNode?
  }

  /** Forty links in a row are followed, and no more. */
  lemma FortyLinksAreFollowed(nodes: Nodes, names: seq<string>)
    requires IsDir(nodes, []) && AllProper(names) && IsChain(nodes, names)
    ensures Look(nodes, [names[0]], true) == if |names| <= 41 then Found([names[|names| - 1]]) else Nowhere
  {
    ChainResolves(nodes, names, 0, MAX_LINKS);
  }

  /** A free place is free, and in a directory. */
  lemma {:induction false} FreeIsFree(nodes: Nodes, cur: Path, todo: Path, budget: nat, follow: bool)
    ensures var w := Resolve(nodes, cur, todo, budget, follow);
            w.Free? ==> w.path != [] && w.path !in nodes && IsDir(nodes, Parent(w.path))
    decreases budget, |todo|
  {
    if todo != [] && IsDir(nodes, cur) {
      var part, rest := todo[0], todo[1..];
      if part == "" || part == "." {
        FreeIsFree(nodes, cur, rest, budget, follow);
      } else if part == ".." {
        FreeIsFree(nodes, if cur == [] then [] else Parent(cur), rest, budget, follow);
      } else if cur + [part] in nodes {
        match nodes[cur + [part]]
        case DirNode => FreeIsFree(nodes, cur + [part], rest, budget, follow);
        case FileNode(_) =>
        case LinkNode(target) =>
          if budget > 0 {
            FreeIsFree(nodes, if IsAbs(target) then [] else cur, Split(target, '/') + rest, budget - 1, follow);
          }
      }
    }
  }

  /** Directories are walked straight through. */
  lemma {:induction false} ThroughDirs(nodes: Nodes, cur: Path, dirs: Path, rest: Path, budget: nat, follow: bool)
    requires AllProper(dirs) && forall k :: 0 <= k <= |dirs| ==> IsDir(nodes, cur + dirs[..k])
    ensures Resolve(nodes, cur, dirs + rest, budget, follow) == Resolve(nodes, cur + dirs, rest, budget, follow)
    decreases |dirs|
  {
    if dirs == [] {
      assert dirs + rest == rest && cur + dirs == cur;
    } else {
      assert cur + dirs[..0] == cur && cur + dirs[..1] == cur + [dirs[0]];
      assert (dirs + rest)[1..] == dirs[1..] + rest;
      forall k | 0 <= k <= |dirs[1..]|
        ensures IsDir(nodes, cur + [dirs[0]] + dirs[1..][..k])
      {
        assert cur + [dirs[0]] + dirs[1..][..k] == cur + dirs[..k + 1];
      }
      ThroughDirs(nodes, cur + [dirs[0]], dirs[1..], rest, budget, follow);
      assert cur + [dirs[0]] + dirs[1..] == cur + dirs;
    }
  }

  lemma DirsBelow(nodes: Nodes, path: Path)
    requires Standing(nodes) && IsDir(nodes, path)
    ensures forall k :: 0 <= k <= |path| ==> IsDir(nodes, path[..k])
  {
    TakeAll(path);
  }

  /** From an existing directory on. */
  lemma FromDir(nodes: Nodes, dir: Path, rest: Path, budget: nat, follow: bool)
    requires Standing(nodes) && IsDir(nodes, dir) && AllProper(dir)
    ensures Resolve(nodes, [], dir + rest, budget, follow) == Resolve(nodes, dir, rest, budget, follow)
  {
    DirsBelow(nodes, dir);
    forall k | 0 <= k <= |dir|
      ensures IsDir(nodes, [] + dir[..k])
    {
      EmptyConcat(dir[..k]);
    }
    ThroughDirs(nodes, [], dir, rest, budget, follow);
    EmptyConcat(dir);
  }

  /** No link stands on the path. */
  ghost predicate Unlinked(nodes: Nodes, path: Path) {
    forall k :: 0 <= k <= |path| && path[..k] in nodes ==> !nodes[path[..k]].LinkNode?
  }

  /** A path without links leads to the place it names. */
  lemma {:induction false} LookUnlinked(nodes: Nodes, path: Path, follow: bool)
    requires Standing(nodes) && AllProper(path) && Unlinked(nodes, path)
    ensures Look(nodes, path, follow) ==
              if path in nodes then Found(path)
              else if IsDir(nodes, Parent(path)) then Free(path) else Nowhere
  {
    var dir := LastDir(nodes, path);
    var rest := path[|dir|..];
    assert path == dir + rest;
    FromDir(nodes, dir, rest, MAX_LINKS, follow);
    if rest != [] {
      var next := path[..|dir| + 1];
      assert next == dir + [rest[0]];
      assert Proper(rest[0]);
      if |rest| == 1 {
        assert next == path && Parent(path) == dir;
      } else {
        assert path !in nodes;
        assert Parent(path)[..|dir| + 1] == next;
      }
    }
  }

  /** The last directory on a path. */
  lemma {:induction false} LastDir(nodes: Nodes, path: Path) returns (dir: Path)
    requires Standing(nodes)
    ensures dir <= path && IsDir(nodes, dir)
    ensures |dir| < |path| ==> !IsDir(nodes, path[..|dir| + 1])
    ensures dir == path || !IsDir(nodes, path)
    decreases |path|
  {
    if IsDir(nodes, path) {
      dir := path;
    } else {
      dir := LastDir(nodes, Parent(path));
      if dir == Parent(path) {
        assert path[..|dir| + 1] == path;
      } else {
        assert Parent(path)[..|dir| + 1] == path[..|dir| + 1];
      }
    }
  }

  // ------------------------------------------------------------------- creating

  /** Where the file system refuses to create, where a copy into a new file fails and what it
      leaves there, and for which names a change of owner fails. */
  datatype Faults = Faults(create: set<Path>, copy: map<Path, seq<byte>>, own: set<Path>)

  datatype Made = Made(nodes: Nodes, ok: bool)

  /** os.MkdirAll. */
  function MakeDirs(nodes: Nodes, f: Faults, path: Path): Made
    decreases |path|
  {
    match Look(nodes, path, true)
    case Found(p) => Made(nodes, IsDir(nodes, p))
    case _ =>
      if path == [] then Made(nodes, false)
      else
        var up := MakeDirs(nodes, f, Parent(path));
        if !up.ok then up
        else
          match Look(up.nodes, path, false)
          case Free(p) => if p in f.create then Made(up.nodes, false) else Made(up.nodes[p := DirNode], true)
          case Found(p) => Made(up.nodes, IsDir(up.nodes, p))
          case Nowhere => Made(up.nodes, false)
  }

  /** os.OpenFile with O_CREATE and O_EXCL, then io.Copy and Close. */
  function NewFile(nodes: Nodes, f: Faults, path: Path, data: seq<byte>): Made {
    match Look(nodes, path, false)
    case Free(p) =>
      if p in f.create then Made(nodes, false)
      else if p in f.copy then Made(nodes[p := FileNode(f.copy[p])], false)
      else Made(nodes[p := FileNode(data)], true)
    case _ => Made(nodes, false)
  }

  /** os.Symlink. */
  function NewLink(nodes: Nodes, f: Faults, target: string, path: Path): Made {
    if target == "" then Made(nodes, false)
    else
      match Look(nodes, path, false)
      case Free(p) => if p in f.create then Made(nodes, false) else Made(nodes[p := LinkNode(target)], true)
      case _ => Made(nodes, false)
  }

  lemma NewNodeStands(nodes: Nodes, path: Path, node: Node)
    requires Standing(nodes) && path != [] && path !in nodes && IsDir(nodes, Parent(path))
    ensures Standing(nodes[path := node]) && Kept(nodes, nodes[path := node])
  {
    var after := nodes[path := node];
    forall p, k | p in after && 0 <= k < |p|
      ensures p[..k] in after && after[p[..k]] == DirNode
    {
      if p == path {
        if k < |path| - 1 { assert path[..k] == Parent(path)[..k]; } else { assert path[..k] == Parent(path); }
      }
    }
  }

  /** Whatever links there are, creating keeps what exists, and what is new stands in a
      directory. */
  lemma {:induction false} MakeDirsKeeps(nodes: Nodes, f: Faults, path: Path)
    requires Standing(nodes)
    ensures Standing(MakeDirs(nodes, f, path).nodes) && Kept(nodes, MakeDirs(nodes, f, path).nodes)
    decreases |path|
  {
    if !Look(nodes, path, true).Found? && path != [] {
      MakeDirsKeeps(nodes, f, Parent(path));
      var up := MakeDirs(nodes, f, Parent(path));
      FreeIsFree(up.nodes, [], path, MAX_LINKS, false);
      var w := Look(up.nodes, path, false);
      if w.Free? { NewNodeStands(up.nodes, w.path, DirNode); }
    }
  }

  lemma NewFileKeeps(nodes: Nodes, f: Faults, path: Path, data: seq<byte>)
    requires Standing(nodes)
    ensures Standing(NewFile(nodes, f, path, data).nodes) && Kept(nodes, NewFile(nodes, f, path, data).nodes)
  {
    FreeIsFree(nodes, [], path, MAX_LINKS, false);
    var w := Look(nodes, path, false);
    if w.Free? {
      NewNodeStands(nodes, w.path, FileNode(data));
      if w.path in f.copy { NewNodeStands(nodes, w.path, FileNode(f.copy[w.path])); }
    }
  }

  lemma NewLinkKeeps(nodes: Nodes, f: Faults, target: string, path: Path)
    requires Standing(nodes)
    ensures Standing(NewLink(nodes, f, target, path).nodes) && Kept(nodes, NewLink(nodes, f, target, path).nodes)
  {
    FreeIsFree(nodes, [], path, MAX_LINKS, false);
    var w := Look(nodes, path, false);
    if w.Free? { NewNodeStands(nodes, w.path, LinkNode(target)); }
  }

  // --------------------------------------------------------- on paths without links

  ghost predicate Blocks(nodes: Nodes, f: Faults, path: Path) {
    if path in nodes then nodes[path] != DirNode else path in f.create
  }

  /** The new nodes are directories on the path. */
  ghost predicate DirsTowards(before: Nodes, after: Nodes, path: Path) {
    Kept(before, after) && forall p :: p in after && p !in before ==> p <= path && after[p] == DirNode
  }

  lemma StaysUnlinked(before: Nodes, after: Nodes, target: Path, path: Path)
    requires DirsTowards(before, after, target) && Unlinked(before, path)
    ensures Unlinked(after, path)
  {
    forall k | 0 <= k <= |path| && path[..k] in after
      ensures !after[path[..k]].LinkNode?
    {
    }
  }

  lemma UnlinkedAbove(nodes: Nodes, path: Path)
    requires Unlinked(nodes, path) && path != []
    ensures Unlinked(nodes, Parent(path))
  {
    forall k | 0 <= k <= |Parent(path)| && Parent(path)[..k] in nodes
      ensures !nodes[Parent(path)[..k]].LinkNode?
    {
      assert Parent(path)[..k] == path[..k];
    }
  }

  /** os.MkdirAll where no link is on the way: it makes what is missing, unless something
      that is not a directory, or a refusal, is in the way. */
  lemma {:induction false} MakeDirsUnlinked(nodes: Nodes, f: Faults, path: Path)
    requires Standing(nodes) && AllProper(path) && Unlinked(nodes, path)
    ensures var m := MakeDirs(nodes, f, path);
            && DirsTowards(nodes, m.nodes, path)
            && (m.ok ==> IsDir(m.nodes, path))
            && (!m.ok ==> exists k :: 0 <= k <= |path| && Blocks(nodes, f, path[..k]))
    decreases |path|
  {
    LookUnlinked(nodes, path, true);
    TakeAll(path);
    if path !in nodes {
      UnlinkedAbove(nodes, path);
      MakeDirsUnlinked(nodes, f, Parent(path));
      MakeDirsKeeps(nodes, f, Parent(path));
      var up := MakeDirs(nodes, f, Parent(path));
      StaysUnlinked(nodes, up.nodes, Parent(path), path);
      LookUnlinked(up.nodes, path, false);
      if !up.ok {
        var k :| 0 <= k <= |Parent(path)| && Blocks(nodes, f, Parent(path)[..k]);
        assert Parent(path)[..k] == path[..k];
      }
    }
  }

  lemma NewFileUnlinked(nodes: Nodes, f: Faults, path: Path, data: seq<byte>)
    requires Standing(nodes) && AllProper(path) && path != [] && Unlinked(nodes, path) && IsDir(nodes, Parent(path))
    ensures var m := NewFile(nodes, f, path, data);
            && (m.ok <==> path !in nodes && path !in f.create && path !in f.copy)
            && (m.ok ==> m.nodes == nodes[path := FileNode(data)])
            && (!m.ok && path !in nodes ==>
                  m.nodes == if path in f.create then nodes else nodes[path := FileNode(f.copy[path])])
            && (path in nodes ==> m.nodes == nodes)
  {
    LookUnlinked(nodes, path, false);
  }

  /** os.Symlink looks at the last name itself, so only what is above must be free of links. */
  lemma NewLinkUnlinked(nodes: Nodes, f: Faults, target: string, path: Path)
    requires Standing(nodes) && AllProper(path) && path != [] && IsDir(nodes, Parent(path))
    ensures var m := NewLink(nodes, f, target, path);
            && (m.ok <==> target != "" && path !in nodes && path !in f.create)
            && m.nodes == if m.ok then nodes[path := LinkNode(target)] else nodes
  {
    var last := path[|path| - 1];
    assert path == Parent(path) + [last];
    FromDir(nodes, Parent(path), [last], MAX_LINKS, false);
    assert Proper(last);
  }

  // --------------------------------------------------------------- below a name

  /** What one more name finds in the place already reached. */
  function OneMore(nodes: Nodes, dir: Path, name: string): Where {
    if !IsDir(nodes, dir) then Nowhere
    else if dir + [name] in nodes then Found(dir + [name]) else Free(dir + [name])
  }

  /** One more name is looked up where the names before it lead, links followed. */
  lemma {:induction false} ThenOneMore(nodes: Nodes, cur: Path, todo: Path, budget: nat, name: string)
    requires Proper(name) && Resolve(nodes, cur, todo, budget, true).Found?
    ensures Resolve(nodes, cur, todo + [name], budget, false) ==
              OneMore(nodes, Resolve(nodes, cur, todo, budget, true).path, name)
    decreases budget, |todo|
  {
    if todo == [] {
      assert todo + [name] == [name];
    } else {
      var part, rest := todo[0], todo[1..];
      assert (todo + [name])[1..] == rest + [name];
      if part == "" || part == "." {
        ThenOneMore(nodes, cur, rest, budget, name);
      } else if part == ".." {
        ThenOneMore(nodes, if cur == [] then [] else Parent(cur), rest, budget, name);
      } else {
        match nodes[cur + [part]]
        case DirNode => ThenOneMore(nodes, cur + [part], rest, budget, name);
        case FileNode(_) =>
        case LinkNode(target) =>
          assert Split(target, '/') + rest + [name] == Split(target, '/') + (rest + [name]);
          ThenOneMore(nodes, if IsAbs(target) then [] else cur, Split(target, '/') + rest, budget - 1, name);
      }
    }
  }
}
