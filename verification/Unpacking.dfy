/** Unpacking a backup archive into a directory (extractBackupArchive in cmd/kagectl/backup.go). */
module Unpacking {
  import opened Strings
  import opened Seqs
  import opened Paths
  import opened Trees
  import opened Archive
  import opened Verifier
  import opened FileSystem

  function PathOf(e: TarEntry): Path {
    Split(NameOf(e), '/')
  }

  function ResolveLink(path: Path, target: string): Path
    requires path != []
  {
    Reduce(true, Parent(path) + Split(target, '/'))
  }

  datatype PendingLink = PendingLink(path: Path, target: string)

  predicate IsLink(e: TarEntry) {
    !IsManifest(e) && e.kind.LinkEntry?
  }

  function LinksIn(root: Path, entries: seq<TarEntry>): seq<PendingLink> {
    if entries == [] then []
    else
      var n := |entries| - 1;
      var before := LinksIn(root, entries[..n]);
      if IsLink(entries[n]) then before + [PendingLink(root + PathOf(entries[n]), entries[n].link)] else before
  }

  // -------------------------------------------------- what each step makes of a disk

  function FileMade(nodes: Nodes, f: Faults, target: Path, body: seq<byte>): Made
    requires target != []
  {
    var up := MakeDirs(nodes, f, Parent(target));
    if !up.ok then up else NewFile(up.nodes, f, target, body)
  }

  /** One entry while reading; links only take a note. */
  function EntryMade(nodes: Nodes, f: Faults, root: Path, e: TarEntry): Made {
    match ValidateArchivePath(e.name)
    case None => Made(nodes, false)
    case Some(name) =>
      if name == MANIFEST then Made(nodes, true) else EntryMadeAt(nodes, f, root, root + Split(name, '/'), e)
  }

  function EntryMadeAt(nodes: Nodes, f: Faults, root: Path, target: Path, e: TarEntry): Made
    requires target != []
  {
    if !SamePathOrInside(target, root) then Made(nodes, false)
    else
      match e.kind
      case DirEntry => Owned(MakeDirs(nodes, f, target), f, target)
      case FileEntry => Owned(FileMade(nodes, f, target, e.body), f, target)
      case LinkEntry => Made(nodes, true)
      case OtherEntry => Made(nodes, false)
  }

  function Owned(m: Made, f: Faults, target: Path): Made {
    Made(m.nodes, m.ok && target !in f.own)
  }

  /** The entries in order, up to the first that fails. */
  function PlainRun(nodes: Nodes, f: Faults, root: Path, entries: seq<TarEntry>): Made {
    if entries == [] then Made(nodes, true)
    else
      var n := |entries| - 1;
      var before := PlainRun(nodes, f, root, entries[..n]);
      if !before.ok then before else EntryMade(before.nodes, f, root, entries[n])
  }

  /** One pending link: checked by name, then created where its name leads. */
  function LinkMade(nodes: Nodes, f: Faults, root: Path, l: PendingLink): Made
    requires l.path != []
  {
    if IsAbs(l.target) || !SamePathOrInside(ResolveLink(l.path, l.target), root) then Made(nodes, false)
    else
      var up := MakeDirs(nodes, f, Parent(l.path));
      if !up.ok then up else NewLink(up.nodes, f, l.target, l.path)
  }

  predicate AllNamed(links: seq<PendingLink>) {
    forall i :: 0 <= i < |links| ==> links[i].path != []
  }

  function LinkRun(nodes: Nodes, f: Faults, root: Path, links: seq<PendingLink>): Made
    requires AllNamed(links)
  {
    if links == [] then Made(nodes, true)
    else
      var n := |links| - 1;
      var before := LinkRun(nodes, f, root, links[..n]);
      if !before.ok then before else LinkMade(before.nodes, f, root, links[n])
  }

  lemma {:induction false} LinksAreNamed(root: Path, entries: seq<TarEntry>)
    ensures AllNamed(LinksIn(root, entries))
  {
    if entries != [] { LinksAreNamed(root, entries[..|entries| - 1]); }
  }

  /** The whole unpacking: everything but the links, then the links. */
  function Extraction(nodes: Nodes, f: Faults, root: Path, tar: Tarball): Made {
    var plain := PlainRun(nodes, f, root, tar.entries);
    LinksAreNamed(root, tar.entries);
    if !plain.ok || tar.damaged then Made(plain.nodes, false)
    else LinkRun(plain.nodes, f, root, LinksIn(root, tar.entries))
  }

  lemma {:induction false} PlainRunStops(nodes: Nodes, f: Faults, root: Path, entries: seq<TarEntry>, k: nat)
    requires k <= |entries| && !PlainRun(nodes, f, root, entries[..k]).ok
    ensures PlainRun(nodes, f, root, entries) == PlainRun(nodes, f, root, entries[..k])
  {
    if k < |entries| {
      var n := |entries| - 1;
      assert entries[..n][..k] == entries[..k];
      PlainRunStops(nodes, f, root, entries[..n], k);
    } else {
      TakeAll(entries);
    }
  }

  lemma {:induction false} LinkRunStops(nodes: Nodes, f: Faults, root: Path, links: seq<PendingLink>, k: nat)
    requires AllNamed(links) && k <= |links| && !LinkRun(nodes, f, root, links[..k]).ok
    ensures LinkRun(nodes, f, root, links) == LinkRun(nodes, f, root, links[..k])
  {
    if k < |links| {
      var n := |links| - 1;
      assert links[..n][..k] == links[..k];
      LinkRunStops(nodes, f, root, links[..n], k);
    } else {
      TakeAll(links);
    }
  }

  // ---------------------------------------------------------------- the disk itself

  class Disk {
    var nodes: Nodes
    const faults: Faults

    constructor (nodes: Nodes, faults: Faults)
      ensures this.nodes == nodes && this.faults == faults
    {
      this.nodes := nodes;
      this.faults := faults;
    }

    method MkdirAll(path: Path) returns (ok: bool)
      modifies this`nodes
      ensures Made(nodes, ok) == MakeDirs(old(nodes), faults, path)
      decreases |path|
    {
      var found := Look(nodes, path, true);
      if found.Found? { return IsDir(nodes, found.path); }
      if path == [] { return false; }
      ok := MkdirAll(Parent(path));
      if !ok { return; }
      var place := Look(nodes, path, false);
      match place {
        case Free(p) =>
          if p in faults.create { return false; }
          nodes := nodes[p := DirNode];
        case Found(p) => ok := IsDir(nodes, p);
        case Nowhere => ok := false;
      }
    }

    method CreateFile(path: Path, data: seq<byte>) returns (ok: bool)
      modifies this`nodes
      ensures Made(nodes, ok) == NewFile(old(nodes), faults, path, data)
    {
      var place := Look(nodes, path, false);
      if !place.Free? || place.path in faults.create { return false; }
      ok := place.path !in faults.copy;
      nodes := nodes[place.path := FileNode(if ok then data else faults.copy[place.path])];
    }

    method Symlink(target: string, path: Path) returns (ok: bool)
      modifies this`nodes
      ensures Made(nodes, ok) == NewLink(old(nodes), faults, target, path)
    {
      var place := Look(nodes, path, false);
      if target == "" || !place.Free? || place.path in faults.create { return false; }
      nodes := nodes[place.path := LinkNode(target)];
      ok := true;
    }

    method ExtractEntry(root: Path, e: TarEntry, links: seq<PendingLink>) returns (ok: bool, links': seq<PendingLink>)
      modifies this`nodes
      ensures Made(nodes, ok) == EntryMade(old(nodes), faults, root, e)
      ensures ok ==> links' == if IsLink(e) then links + [PendingLink(root + PathOf(e), e.link)] else links
    {
      links' := links;
      var valid := ValidateArchivePath(e.name);
      if valid.None? { return false, links; }
      ValidName(e.name);
      var name := valid.value;
      if name == MANIFEST { return true, links; }
      var target := root + Split(name, '/');
      if !SamePathOrInside(target, root) { return false, links; }
      match e.kind {
        case DirEntry =>
          ok := MkdirAll(target);
          ok := ok && target !in faults.own;
        case FileEntry =>
          ok := MkdirAll(Parent(target));
          if ok { ok := CreateFile(target, e.body); }
          ok := ok && target !in faults.own;
        case LinkEntry =>
          links' := links + [PendingLink(target, e.link)];
          ok := true;
        case OtherEntry =>
          ok := false;
      }
    }

    method ExtractPlain(root: Path, entries: seq<TarEntry>) returns (ok: bool, links: seq<PendingLink>)
      modifies this`nodes
      ensures Made(nodes, ok) == PlainRun(old(nodes), faults, root, entries)
      ensures ok ==> links == LinksIn(root, entries)
    {
      links, ok := [], true;
      for k := 0 to |entries|
        invariant ok && Made(nodes, ok) == PlainRun(old(nodes), faults, root, entries[..k])
        invariant links == LinksIn(root, entries[..k])
      {
        TakeNext(entries, k);
        ok, links := ExtractEntry(root, entries[k], links);
        if !ok {
          PlainRunStops(old(nodes), faults, root, entries, k + 1);
          return;
        }
      }
      TakeAll(entries);
    }

    method RestoreLink(root: Path, l: PendingLink) returns (ok: bool)
      requires l.path != []
      modifies this`nodes
      ensures Made(nodes, ok) == LinkMade(old(nodes), faults, root, l)
    {
      if IsAbs(l.target) { return false; }
      var resolved := ResolveLink(l.path, l.target);
      if !SamePathOrInside(resolved, root) { return false; }
      ok := MkdirAll(Parent(l.path));
      if ok { ok := Symlink(l.target, l.path); }
    }

    method RestoreLinks(root: Path, links: seq<PendingLink>) returns (ok: bool)
      requires AllNamed(links)
      modifies this`nodes
      ensures Made(nodes, ok) == LinkRun(old(nodes), faults, root, links)
    {
      ok := true;
      for k := 0 to |links|
        invariant ok && Made(nodes, ok) == LinkRun(old(nodes), faults, root, links[..k])
      {
        TakeNext(links, k);
        ok := RestoreLink(root, links[k]);
        if !ok {
          LinkRunStops(old(nodes), faults, root, links, k + 1);
          return;
        }
      }
      TakeAll(links);
    }

    method ExtractBackupArchive(root: Path, tar: Tarball) returns (ok: bool)
      modifies this`nodes
      ensures Made(nodes, ok) == Extraction(old(nodes), faults, root, tar)
    {
      var links;
      ok, links := ExtractPlain(root, tar.entries);
      if !ok || tar.damaged { return false; }
      LinksAreNamed(root, tar.entries);
      ok := RestoreLinks(root, links);
    }
  }
}
