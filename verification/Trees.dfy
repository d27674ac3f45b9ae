/** Directory trees on the host, and the pre-order walk that a backup takes through
    them (filepath.Walk in cmd/kagectl/backup.go). */
module Trees {
  import opened Strings
  import opened Paths

  newtype byte = x: int | 0 <= x < 256

  datatype Meta = Meta(mode: nat, uid: int, gid: int)

  /** What stands at a path. `Special` is anything a backup cannot hold or cannot read. */
  datatype Item =
    | File(meta: Meta, data: seq<byte>)
    | Link(meta: Meta, target: string)
    | Folder(meta: Meta, children: seq<Child>)
    | Special

  datatype Child = Child(name: string, item: Item)

  /** A directory lists each name once; the walk takes the children in list order. */
  predicate WellFormed(item: Item) {
    match item
    case Folder(_, children) => AllWellFormed(children)
    case Link(_, target) => target != ""
    case _ => true
  }

  predicate AllWellFormed(children: seq<Child>) {
    children != [] ==>
      var n := |children| - 1;
      && AllWellFormed(children[..n])
      && Proper(children[n].name)
      && Named(children[..n], children[n].name).None?
      && WellFormed(children[n].item)
  }

  lemma {:induction false} ChildIsGood(children: seq<Child>, k: nat)
    requires AllWellFormed(children) && k < |children|
    ensures Proper(children[k].name) && WellFormed(children[k].item)
  {
    var n := |children| - 1;
    if k < n {
      ChildIsGood(children[..n], k);
    }
  }

  function Named(children: seq<Child>, name: string): Option<Item> {
    if children == [] then None
    else
      var last := children[|children| - 1];
      if last.name == name then Some(last.item) else Named(children[..|children| - 1], name)
  }

  /** The item at a path inside the tree. */
  function At(item: Item, rel: Path): Option<Item>
    decreases |rel|
  {
    if rel == [] then Some(item)
    else if !item.Folder? then None
    else
      match Named(item.children, rel[0])
      case None => None
      case Some(child) => At(child, rel[1..])
  }

  datatype Visit = Visit(path: Path, item: Item)

  /** The visits of filepath.Walk: an item before what it contains. */
  function Walk(path: Path, item: Item): seq<Visit>
    decreases item
  {
    [Visit(path, item)] + (if item.Folder? then WalkAll(path, item.children) else [])
  }

  function WalkAll(path: Path, children: seq<Child>): seq<Visit>
    decreases children
  {
    if children == [] then []
    else
      var n := |children| - 1;
      WalkAll(path, children[..n]) + Walk(path + [children[n].name], children[n].item)
  }

  /** Whether `v` is the item at its path in the tree that stands at `root`. */
  predicate Belongs(v: Visit, root: Path, item: Item) {
    root <= v.path && At(item, v.path[|root|..]) == Some(v.item)
  }

  predicate BelongsBelow(v: Visit, root: Path, children: seq<Child>) {
    && root < v.path
    && match Named(children, v.path[|root|])
       case None => false
       case Some(child) => At(child, v.path[|root| + 1..]) == Some(v.item)
  }

  lemma BelongsToChild(v: Visit, root: Path, name: string, item: Item)
    ensures Belongs(v, root + [name], item) <==>
              root < v.path && v.path[|root|] == name && At(item, v.path[|root| + 1..]) == Some(v.item)
  {
    if root < v.path && v.path[|root|] == name {
      assert v.path == root + [name] + v.path[|root| + 1..];
    }
  }

  /** The walk meets exactly the items of the tree, each under its own path. */
  lemma {:induction false} WalkMeetsTheTree(v: Visit, root: Path, item: Item)
    requires WellFormed(item)
    ensures v in Walk(root, item) <==> Belongs(v, root, item)
    decreases item
  {
    if item.Folder? {
      WalkMeetsBelow(v, root, item.children);
    }
    if root <= v.path && v.path != root {
      var rel := v.path[|root|..];
      assert rel[0] == v.path[|root|] && rel[1..] == v.path[|root| + 1..];
    }
  }

  lemma {:induction false} WalkMeetsBelow(v: Visit, root: Path, children: seq<Child>)
    requires AllWellFormed(children)
    ensures v in WalkAll(root, children) <==> BelongsBelow(v, root, children)
    decreases children
  {
    if children != [] {
      var n := |children| - 1;
      WalkMeetsBelow(v, root, children[..n]);
      WalkMeetsTheTree(v, root + [children[n].name], children[n].item);
      BelongsToChild(v, root, children[n].name, children[n].item);
    }
  }

  /** No path is met twice. */
  ghost predicate DistinctPaths(visits: seq<Visit>) {
    forall i, j :: 0 <= i < j < |visits| ==> visits[i].path != visits[j].path
  }

  lemma DistinctConcat(left: seq<Visit>, right: seq<Visit>)
    requires DistinctPaths(left) && DistinctPaths(right)
    requires forall v, w :: v in left && w in right ==> v.path != w.path
    ensures DistinctPaths(left + right)
  {
    var all := left + right;
    forall i, j | 0 <= i < j < |all|
      ensures all[i].path != all[j].path
    {
      if i < |left| <= j { assert left[i] in left && right[j - |left|] in right; }
    }
  }

  lemma {:induction false} WalkIsDistinct(root: Path, item: Item)
    requires WellFormed(item)
    ensures DistinctPaths(Walk(root, item))
    decreases item
  {
    if item.Folder? {
      WalkBelowIsDistinct(root, item.children);
      var below := WalkAll(root, item.children);
      forall v, w | v in [Visit(root, item)] && w in below
        ensures v.path != w.path
      {
        WalkMeetsBelow(w, root, item.children);
      }
      DistinctConcat([Visit(root, item)], below);
    }
  }

  lemma {:induction false} WalkBelowIsDistinct(root: Path, children: seq<Child>)
    requires AllWellFormed(children)
    ensures DistinctPaths(WalkAll(root, children))
    decreases children
  {
    if children != [] {
      var n := |children| - 1;
      var name := children[n].name;
      var before, last := WalkAll(root, children[..n]), Walk(root + [name], children[n].item);
      WalkBelowIsDistinct(root, children[..n]);
      WalkIsDistinct(root + [name], children[n].item);
      forall v, w | v in before && w in last
        ensures v.path != w.path
      {
        WalkMeetsBelow(v, root, children[..n]);
        WalkMeetsTheTree(w, root + [name], children[n].item);
        BelongsToChild(w, root, name, children[n].item);
      }
      DistinctConcat(before, last);
    }
  }

  lemma {:induction false} NamedIsGood(children: seq<Child>, name: string)
    requires AllWellFormed(children) && Named(children, name).Some?
    ensures Proper(name) && WellFormed(Named(children, name).value)
  {
    if children[|children| - 1].name != name { NamedIsGood(children[..|children| - 1], name); }
  }

  /** Every path in a tree has proper components, and every item there is well formed. */
  lemma {:induction false} PathsAreProper(item: Item, rel: Path)
    requires WellFormed(item) && At(item, rel).Some?
    ensures AllProper(rel) && WellFormed(At(item, rel).value)
    decreases |rel|
  {
    if rel != [] {
      NamedIsGood(item.children, rel[0]);
      PathsAreProper(Named(item.children, rel[0]).value, rel[1..]);
    }
  }

  /** Whatever lies on the way to an item is a folder of the tree. */
  lemma {:induction false} OnTheWay(item: Item, rel: Path, k: nat)
    requires At(item, rel).Some? && k <= |rel|
    ensures At(item, rel[..k]).Some? && (k < |rel| ==> At(item, rel[..k]).value.Folder?)
    decreases |rel|
  {
    if k > 0 {
      assert rel[..k][1..] == rel[1..][..k - 1];
      OnTheWay(Named(item.children, rel[0]).value, rel[1..], k - 1);
    }
  }
}
