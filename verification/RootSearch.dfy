/** Finding the project root: upwards, then by a bounded breadth-first search
    downwards (pkg/config/root.go). A path is a sequence of names. */
module RootSearch {
  import opened Strings
  import opened Seqs
  import opened Paths
  import opened Sorting

  /** A directory: whether it holds the marker file, whether it has one of the weak
      features, whether it can be listed, and its real subdirectories by name. */
  datatype Dir = Dir(marker: bool, weak: bool, readable: bool, subdirs: map<string, Dir>)

  /** What every question about a path that does not exist answers. */
  const MISSING := Dir(false, false, false, map[])

  const MAX_MARKER_SEARCH_DEPTH := 8
  const MAX_MARKER_SEARCH_DIRS := 4096

  datatype Node = Node(path: Path, dir: Dir)

  // ------------------------------------------------------------ listing names

  predicate NameLe(a: string, b: string) {
    a == b || Less(a, b)
  }

  lemma NameOrder()
    ensures TotalPreorder(NameLe)
    ensures forall s: seq<string> :: NoTies(NameLe, s)
  {
    forall a, b
      ensures NameLe(a, b) || NameLe(b, a)
      ensures NameLe(a, b) && NameLe(b, a) ==> a == b
    {
      LessTotal(a, b);
      LessAsym(a, b);
    }
    forall a, b, c | NameLe(a, b) && NameLe(b, c)
      ensures NameLe(a, c)
    {
      if a != b && b != c { LessTrans(a, b, c); }
    }
  }

  ghost function AnyOrder(names: set<string>): (s: seq<string>)
    ensures multiset(s) == multiset(names)
  {
    if names == {} then []
    else
      var x :| x in names;
      assert names == (names - {x}) + {x};
      [x] + AnyOrder(names - {x})
  }

  /** A listing: every name once, in order. */
  ghost predicate IsListing(s: seq<string>, names: set<string>) {
    Ordered(NameLe, s) && multiset(s) == multiset(names)
  }

  lemma ListingExists(names: set<string>)
    ensures IsListing(Sort(AnyOrder(names), NameLe), names)
  {
    NameOrder();
    SortPermutes(AnyOrder(names), NameLe);
    SortOrders(AnyOrder(names), NameLe);
  }

  lemma ListingUnique(s: seq<string>, t: seq<string>, names: set<string>)
    requires IsListing(s, names) && IsListing(t, names)
    ensures s == t
  {
    NameOrder();
    OrderedUnique(s, t, NameLe);
  }

  ghost function SortedNames(names: set<string>): (s: seq<string>)
    ensures IsListing(s, names)
  {
    ListingExists(names);
    var s :| IsListing(s, names);
    s
  }

  lemma SortedNamesExact(names: set<string>)
    ensures Ordered(NameLe, SortedNames(names))
    ensures forall n :: n in SortedNames(names) <==> n in names
    ensures Distinct(SortedNames(names))
  {
    var s := SortedNames(names);
    forall n
      ensures n in s <==> n in names
    {
      assert n in s <==> n in multiset(s);
    }
    OnceDistinct(s);
  }

  /** The subdirectories of a directory, sorted by name whatever order the
      operating system reports them in. */
  method ReadDir(dir: Dir) returns (names: seq<string>)
    ensures names == SortedNames(dir.subdirs.Keys)
  {
    var listed: seq<string> := [];
    var rest := dir.subdirs.Keys;
    while rest != {}
      invariant multiset(listed) + multiset(rest) == multiset(dir.subdirs.Keys)
    {
      var name :| name in rest;
      assert rest == (rest - {name}) + {name};
      listed, rest := listed + [name], rest - {name};
    }
    names := Sort(listed, NameLe);
    NameOrder();
    SortPermutes(listed, NameLe);
    SortOrders(listed, NameLe);
    ListingUnique(names, SortedNames(dir.subdirs.Keys), dir.subdirs.Keys);
  }

  // ------------------------------------------------------- breadth-first order

  ghost function Child(node: Node, name: string): Node
    requires name in node.dir.subdirs
  {
    Node(node.path + [name], node.dir.subdirs[name])
  }

  /** The children of a directory, by name; none if it cannot be listed. */
  ghost function Children(node: Node): seq<Node> {
    if node.dir.readable then Named(node, SortedNames(node.dir.subdirs.Keys)) else []
  }

  ghost function Named(node: Node, names: seq<string>): seq<Node> {
    seq(|names|, i requires 0 <= i < |names| =>
      if names[i] in node.dir.subdirs then Child(node, names[i]) else node)
  }

  lemma ChildrenShape(node: Node)
    requires node.dir.readable
    ensures var names := SortedNames(node.dir.subdirs.Keys);
            && |Children(node)| == |names|
            && forall i :: 0 <= i < |names| ==>
                 names[i] in node.dir.subdirs && Children(node)[i] == Child(node, names[i])
  {
    SortedNamesExact(node.dir.subdirs.Keys);
    var names := SortedNames(node.dir.subdirs.Keys);
    assert forall i :: 0 <= i < |names| ==> names[i] in names;
  }

  ghost function Expand(nodes: seq<Node>): seq<Node> {
    if nodes == [] then [] else Expand(nodes[..|nodes| - 1]) + Children(nodes[|nodes| - 1])
  }

  /** The directories reached in exactly `depth` steps. */
  ghost function Level(root: Dir, depth: nat): seq<Node> {
    if depth == 0 then [Node([], root)] else Expand(Level(root, depth - 1))
  }

  /** The directories reached in at most `depth` steps, nearer ones first. */
  ghost function BreadthFirst(root: Dir, depth: nat): seq<Node> {
    if depth == 0 then Level(root, 0) else BreadthFirst(root, depth - 1) + Level(root, depth)
  }

  ghost function FirstMarked(nodes: seq<Node>): Option<Path> {
    if nodes == [] then None
    else if nodes[0].dir.marker then Some(nodes[0].path)
    else FirstMarked(nodes[1..])
  }

  ghost function Take(nodes: seq<Node>, n: int): seq<Node> {
    if n <= 0 then [] else if n < |nodes| then nodes[..n] else nodes
  }

  lemma {:induction false} FirstMarkedAt(nodes: seq<Node>, k: nat)
    requires k < |nodes| && nodes[k].dir.marker && forall j :: 0 <= j < k ==> !nodes[j].dir.marker
    ensures FirstMarked(nodes) == Some(nodes[k].path)
  {
    if k > 0 { FirstMarkedAt(nodes[1..], k - 1); }
  }

  lemma {:induction false} FirstMarkedNone(nodes: seq<Node>)
    ensures FirstMarked(nodes).None? <==> forall j :: 0 <= j < |nodes| ==> !nodes[j].dir.marker
  {
    if nodes != [] {
      FirstMarkedNone(nodes[1..]);
      assert forall j :: 0 < j < |nodes| ==> nodes[j] == nodes[1..][j - 1];
    }
  }

  /** The order in which the search visits what is within its depth limit; a
      negative limit still looks at the start. */
  ghost function VisitOrder(root: Dir, maxDepth: int): seq<Node> {
    BreadthFirst(root, if maxDepth < 0 then 0 else maxDepth)
  }

  /** What the search finds: the first marked directory among the first `maxDirs`
      in breadth-first order. */
  ghost function SearchResult(root: Dir, maxDepth: int, maxDirs: int): Option<Path> {
    FirstMarked(Take(VisitOrder(root, maxDepth), maxDirs))
  }

  lemma {:induction false} LevelInside(root: Dir, d: nat, depth: nat)
    requires d <= depth
    ensures BreadthFirst(root, d) <= BreadthFirst(root, depth)
  {
    if d < depth { LevelInside(root, d, depth - 1); }
  }

  lemma {:induction false} NothingDeeper(root: Dir, d: nat, depth: nat)
    requires d <= depth && Expand(Level(root, d)) == []
    ensures BreadthFirst(root, depth) == BreadthFirst(root, d)
    ensures d < depth ==> Level(root, depth) == []
    decreases depth - d
  {
    if d < depth {
      NothingNext(root, d);
      NothingDeeper(root, d + 1, depth);
    }
  }

  lemma NothingNext(root: Dir, d: nat)
    requires Expand(Level(root, d)) == []
    ensures Level(root, d + 1) == [] && Expand(Level(root, d + 1)) == []
    ensures BreadthFirst(root, d + 1) == BreadthFirst(root, d)
  {
  }

  /** Position of the first directory of a level in breadth-first order. */
  ghost function LevelStart(root: Dir, d: nat): nat {
    if d == 0 then 0 else |BreadthFirst(root, d - 1)|
  }

  lemma PrefixAt(p: seq<Node>, s: seq<Node>, k: nat)
    requires p <= s && k < |p|
    ensures k < |s| && s[k] == p[k]
  {
  }

  lemma LevelPosition(root: Dir, d: nat, i: nat, depth: nat)
    requires d <= depth && i < |Level(root, d)|
    ensures LevelStart(root, d) + i < |BreadthFirst(root, depth)|
    ensures BreadthFirst(root, depth)[LevelStart(root, d) + i] == Level(root, d)[i]
  {
    LevelInside(root, d, depth);
    LevelClosesPrefix(root, d, i);
    PrefixAt(BreadthFirst(root, d), BreadthFirst(root, depth), LevelStart(root, d) + i);
  }

  lemma LevelClosesPrefix(root: Dir, d: nat, i: nat)
    requires i < |Level(root, d)|
    ensures LevelStart(root, d) + i < |BreadthFirst(root, d)|
    ensures BreadthFirst(root, d)[LevelStart(root, d) + i] == Level(root, d)[i]
  {
  }

  lemma {:induction false} LevelDepth(root: Dir, d: nat)
    ensures forall n :: n in Level(root, d) ==> |n.path| == d
  {
    if d > 0 {
      LevelDepth(root, d - 1);
      ExpandDepth(Level(root, d - 1), d - 1);
    }
  }

  lemma {:induction false} ExpandDepth(nodes: seq<Node>, d: nat)
    requires forall n :: n in nodes ==> |n.path| == d
    ensures forall n :: n in Expand(nodes) ==> |n.path| == d + 1
  {
    if nodes != [] {
      var k := |nodes| - 1;
      assert nodes == nodes[..k] + [nodes[k]];
      ExpandDepth(nodes[..k], d);
      assert nodes[k] in nodes;
      forall c | c in Children(nodes[k])
        ensures |c.path| == d + 1
      {
        ChildPath(nodes[k], c);
      }
    }
  }

  /** Visiting the head of the queue moves one step along its level. */
  lemma QueueStep(level: seq<Node>, i: nat, more: seq<Node>)
    requires i < |level|
    ensures level[i..] + more != [] && (level[i..] + more)[0] == level[i]
    ensures (level[i..] + more)[1..] == level[i + 1..] + more
    ensures level[i..] != [] && level[i..][0] == level[i] && level[i..][1..] == level[i + 1..]
  {
  }

  lemma ExpandNext(level: seq<Node>, i: nat)
    requires i < |level|
    ensures Expand(level[..i + 1]) == Expand(level[..i]) + Children(level[i])
  {
    assert level[..i + 1][..i] == level[..i];
  }

  /** The queue while the search is at position i of level d: the rest of the level,
      then the children of what it has visited there. */
  ghost predicate QueueAt(start: Dir, depth: nat, d: nat, i: nat, queue: seq<Node>) {
    && d <= depth && i <= |Level(start, d)|
    && (d < depth ==> queue == Level(start, d)[i..] + Expand(Level(start, d)[..i]))
    && (d == depth ==> queue == Level(start, d)[i..])
  }

  lemma NextLevel(start: Dir, depth: nat, d: nat, queue: seq<Node>)
    requires QueueAt(start, depth, d, |Level(start, d)|, queue) && queue != []
    ensures d < depth && QueueAt(start, depth, d + 1, 0, queue)
    ensures LevelStart(start, d + 1) == LevelStart(start, d) + |Level(start, d)|
  {
    var level := Level(start, d);
    assert level[..|level|] == level && level[|level|..] == [];
    assert Level(start, d + 1)[..0] == [];
  }

  lemma QueueExhausted(start: Dir, depth: nat, d: nat, i: nat)
    requires QueueAt(start, depth, d, i, [])
    ensures LevelStart(start, d) + i == |BreadthFirst(start, depth)|
  {
    var level := Level(start, d);
    assert |level[i..]| == 0;
    assert level[..i] == level;
    if d < depth { NothingDeeper(start, d, depth); }
  }

  /** At a position inside a level, the head of the queue is the directory there,
      and with its children enqueued the queue is right for the next position. */
  lemma VisitAt(start: Dir, depth: nat, d: nat, i: nat, queue: seq<Node>)
    requires QueueAt(start, depth, d, i, queue) && i < |Level(start, d)|
    ensures queue != [] && queue[0] == Level(start, d)[i]
    ensures d < depth ==> QueueAt(start, depth, d, i + 1, queue[1..] + Children(queue[0]))
    ensures d == depth ==> QueueAt(start, depth, d, i + 1, queue[1..])
  {
    VisitLevel(Level(start, d), i, queue, d < depth);
  }

  lemma VisitLevel(level: seq<Node>, i: nat, queue: seq<Node>, deeper: bool)
    requires i < |level|
    requires deeper ==> queue == level[i..] + Expand(level[..i])
    requires !deeper ==> queue == level[i..]
    ensures queue != [] && queue[0] == level[i]
    ensures deeper ==> queue[1..] + Children(queue[0]) == level[i + 1..] + Expand(level[..i + 1])
    ensures !deeper ==> queue[1..] == level[i + 1..]
  {
    QueueStep(level, i, Expand(level[..i]));
    ExpandNext(level, i);
  }

  /** The head of the queue is the next directory in breadth-first order, and with
      its children enqueued (unless it is as deep as the search goes) the queue is
      right for the position after it. */
  lemma VisitNext(start: Dir, depth: nat, d: nat, i: nat, queue: seq<Node>) returns (e: nat, j: nat)
    requires QueueAt(start, depth, d, i, queue) && queue != []
    ensures LevelStart(start, e) + j == LevelStart(start, d) + i + 1 <= |BreadthFirst(start, depth)|
    ensures queue[0] == BreadthFirst(start, depth)[LevelStart(start, d) + i] && |queue[0].path| == e <= depth
    ensures e < depth ==> QueueAt(start, depth, e, j, queue[1..] + Children(queue[0]))
    ensures e == depth ==> QueueAt(start, depth, e, j, queue[1..])
  {
    e, j := InsideLevel(start, depth, d, i, queue);
    VisitInside(start, depth, e, j, queue, LevelStart(start, d) + i);
    j := j + 1;
  }

  /** The end of one level is the start of the next. */
  lemma InsideLevel(start: Dir, depth: nat, d: nat, i: nat, queue: seq<Node>) returns (e: nat, j: nat)
    requires QueueAt(start, depth, d, i, queue) && queue != []
    ensures QueueAt(start, depth, e, j, queue) && j < |Level(start, e)|
    ensures LevelStart(start, e) + j == LevelStart(start, d) + i
  {
    if i == |Level(start, d)| {
      NextLevel(start, depth, d, queue);
      LevelNotEmpty(start, depth, d + 1, queue);
      e, j := d + 1, 0;
    } else {
      e, j := d, i;
    }
  }

  lemma VisitInside(start: Dir, depth: nat, d: nat, i: nat, queue: seq<Node>, place: nat)
    requires QueueAt(start, depth, d, i, queue) && i < |Level(start, d)| && place == LevelStart(start, d) + i
    ensures queue != [] && |queue[0].path| == d
    ensures place < |BreadthFirst(start, depth)| && queue[0] == BreadthFirst(start, depth)[place]
    ensures d < depth ==> QueueAt(start, depth, d, i + 1, queue[1..] + Children(queue[0]))
    ensures d == depth ==> QueueAt(start, depth, d, i + 1, queue[1..])
  {
    VisitAt(start, depth, d, i, queue);
    PlaceOf(start, d, i, depth, place);
  }

  lemma PlaceOf(start: Dir, e: nat, j: nat, depth: nat, place: nat)
    requires e <= depth && j < |Level(start, e)| && place == LevelStart(start, e) + j
    ensures place < |BreadthFirst(start, depth)| && BreadthFirst(start, depth)[place] == Level(start, e)[j]
    ensures |Level(start, e)[j].path| == e
  {
    LevelPosition(start, e, j, depth);
    LevelDepth(start, e);
    assert Level(start, e)[j] in Level(start, e);
  }

  lemma LevelNotEmpty(start: Dir, depth: nat, d: nat, queue: seq<Node>)
    requires QueueAt(start, depth, d, 0, queue) && queue != []
    ensures Level(start, d) != []
  {
    assert Level(start, d)[..0] == [];
  }

  /** None of the first n carries the marker. */
  ghost predicate Unmarked(order: seq<Node>, n: nat) {
    n <= |order| && forall j :: 0 <= j < n ==> !order[j].dir.marker
  }

  lemma MarkedInTake(order: seq<Node>, maxDirs: int, k: nat)
    requires k < |order| && k < maxDirs && order[k].dir.marker && Unmarked(order, k)
    ensures FirstMarked(Take(order, maxDirs)) == Some(order[k].path)
  {
    FirstMarkedAt(Take(order, maxDirs), k);
  }

  lemma NoneMarkedInTake(order: seq<Node>, maxDirs: int, k: nat)
    requires k <= |order| && (k == |order| || k >= maxDirs) && Unmarked(order, k)
    ensures FirstMarked(Take(order, maxDirs)) == None
  {
    FirstMarkedNone(Take(order, maxDirs));
  }

  /** The queue after n visits. */
  ghost function QueueAfter(start: Dir, depth: nat, n: nat): seq<Node> {
    if n == 0 then [Node([], start)]
    else
      var queue := QueueAfter(start, depth, n - 1);
      if queue == [] then []
      else if |queue[0].path| < depth then queue[1..] + Children(queue[0])
      else queue[1..]
  }

  lemma {:induction false} QueueAfterAt(start: Dir, depth: nat, n: nat) returns (d: nat, i: nat)
    requires n > 0 ==> QueueAfter(start, depth, n - 1) != []
    ensures QueueAt(start, depth, d, i, QueueAfter(start, depth, n)) && LevelStart(start, d) + i == n
    ensures n <= |BreadthFirst(start, depth)|
  {
    if n == 0 {
      StartOfSearch(start, depth);
      d, i := 0, 0;
      LevelInside(start, 0, depth);
    } else {
      d, i := QueueAfterAt(start, depth, n - 1);
      d, i := VisitNext(start, depth, d, i, QueueAfter(start, depth, n - 1));
    }
  }

  /** The queue visits directories in breadth-first order, and runs empty when all
      of them have been visited. */
  lemma QueueFollowsOrder(start: Dir, depth: nat, n: nat, queue: seq<Node>)
    requires queue == QueueAfter(start, depth, n)
    requires n > 0 ==> QueueAfter(start, depth, n - 1) != []
    ensures n <= |BreadthFirst(start, depth)|
    ensures queue == [] ==> n == |BreadthFirst(start, depth)|
    ensures queue != [] ==> n < |BreadthFirst(start, depth)| && queue[0] == BreadthFirst(start, depth)[n]
  {
    var d, i := QueueAfterAt(start, depth, n);
    HeadOrEnd(start, depth, d, i, queue);
  }

  lemma HeadOrEnd(start: Dir, depth: nat, d: nat, i: nat, queue: seq<Node>)
    requires QueueAt(start, depth, d, i, queue)
    ensures var n := LevelStart(start, d) + i;
            && (queue == [] ==> n == |BreadthFirst(start, depth)|)
            && (queue != [] ==> n < |BreadthFirst(start, depth)| && queue[0] == BreadthFirst(start, depth)[n])
  {
    if queue == [] {
      QueueExhausted(start, depth, d, i);
    } else {
      HeadInOrder(start, depth, d, i, queue);
    }
  }

  lemma HeadInOrder(start: Dir, depth: nat, d: nat, i: nat, queue: seq<Node>)
    requires QueueAt(start, depth, d, i, queue) && queue != []
    ensures var n := LevelStart(start, d) + i;
            n < |BreadthFirst(start, depth)| && queue[0] == BreadthFirst(start, depth)[n]
  {
    var e, j := VisitNext(start, depth, d, i, queue);
  }

  /** One visit, as the body of the loop carries it out. */
  lemma QueueAfterVisit(start: Dir, depth: nat, n: nat, queue: seq<Node>)
    requires queue == QueueAfter(start, depth, n) && queue != []
    ensures QueueAfter(start, depth, n + 1) ==
              if |queue[0].path| < depth then queue[1..] + Children(queue[0]) else queue[1..]
  {
  }

  method DiscoverMarkerRootDownward(start: Dir, maxDepth: int, maxDirs: int) returns (found: Option<Path>)
    ensures found == SearchResult(start, maxDepth, maxDirs)
  {
    var queue := [Node([], start)];
    var visited := 0;
    ghost var depth: nat := if maxDepth < 0 then 0 else maxDepth;
    ghost var order := BreadthFirst(start, depth);
    while |queue| > 0 && visited < maxDirs
      invariant 0 <= visited
      invariant queue == QueueAfter(start, depth, visited)
      invariant visited > 0 ==> QueueAfter(start, depth, visited - 1) != []
      invariant Unmarked(order, visited)
      decreases maxDirs - visited
    {
      QueueFollowsOrder(start, depth, visited, queue);
      QueueAfterVisit(start, depth, visited, queue);
      var current := queue[0];
      queue := queue[1..];
      visited := visited + 1;
      if current.dir.marker {
        MarkedInTake(order, maxDirs, visited - 1);
        return Some(current.path);
      }
      if |current.path| >= maxDepth {
        continue;
      }
      queue := EnqueueSubdirs(queue, current);
    }
    QueueFollowsOrder(start, depth, visited, queue);
    NoneMarkedInTake(order, maxDirs, visited);
    found := None;
  }

  lemma StartOfSearch(start: Dir, depth: nat)
    ensures QueueAt(start, depth, 0, 0, [Node([], start)])
  {
    var level := Level(start, 0);
    assert level[0..] == level && level[..0] == [];
    assert level + [] == level;
  }

  /** Lists a directory and appends its subdirectories to the queue; one that
      cannot be listed adds nothing. */
  method EnqueueSubdirs(before: seq<Node>, current: Node) returns (queue: seq<Node>)
    ensures queue == before + Children(current)
  {
    ghost var children := Children(current);
    queue := before;
    if !current.dir.readable {
      return;
    }
    ChildrenShape(current);
    var names := ReadDir(current.dir);
    for j := 0 to |names|
      invariant |queue| == |before| + j
      invariant forall k :: 0 <= k < |before| ==> queue[k] == before[k]
      invariant forall k :: |before| <= k < |queue| ==> queue[k] == children[k - |before|]
    {
      assert children[j] == Child(current, names[j]);
      queue := queue + [Node(current.path + [names[j]], current.dir.subdirs[names[j]])];
    }
  }

  // --------------------------------------------- the order, and what it covers

  /** The directory a path leads to through directories that can all be listed. */
  function Reach(root: Dir, path: Path): Option<Dir> {
    if path == [] then Some(root)
    else
      var n := |path| - 1;
      match Reach(root, path[..n])
      case None => None
      case Some(dir) =>
        if dir.readable && path[n] in dir.subdirs then Some(dir.subdirs[path[n]]) else None
  }

  /** Order of two paths of one length, by the first name in which they differ. */
  predicate NamesBefore(p: Path, q: Path) {
    p != [] && q != []
    && (Less(p[0], q[0]) || (p[0] == q[0] && NamesBefore(p[1..], q[1..])))
  }

  /** Shallower first; by name within one depth. */
  predicate Nearer(p: Path, q: Path) {
    |p| < |q| || (|p| == |q| && NamesBefore(p, q))
  }

  lemma {:induction false} NamesBeforeAppend(p: Path, q: Path, x: string, y: string)
    requires |p| == |q|
    ensures NamesBefore(p, q) ==> NamesBefore(p + [x], q + [y])
    ensures p == q && Less(x, y) ==> NamesBefore(p + [x], q + [y])
  {
    if p != [] {
      assert (p + [x])[1..] == p[1..] + [x] && (q + [y])[1..] == q[1..] + [y];
      NamesBeforeAppend(p[1..], q[1..], x, y);
    }
  }

  ghost predicate InOrder(nodes: seq<Node>) {
    forall i, j :: 0 <= i < j < |nodes| ==> Nearer(nodes[i].path, nodes[j].path)
  }

  lemma ChildrenInOrder(node: Node)
    ensures InOrder(Children(node))
  {
    var names := SortedNames(node.dir.subdirs.Keys);
    SortedNamesExact(node.dir.subdirs.Keys);
    var c := Children(node);
    if node.dir.readable { ChildrenShape(node); }
    forall i, j | 0 <= i < j < |c|
      ensures Nearer(c[i].path, c[j].path)
    {
      assert NameLe(names[i], names[j]) && names[i] != names[j];
      NamesBeforeAppend(node.path, node.path, names[i], names[j]);
    }
  }

  ghost predicate ChildOfSome(nodes: seq<Node>, c: Node) {
    exists n :: n in nodes && c in Children(n)
  }

  lemma ChildOfOneMore(nodes: seq<Node>, last: Node, c: Node)
    ensures ChildOfSome(nodes + [last], c) <==> ChildOfSome(nodes, c) || c in Children(last)
  {
    if ChildOfSome(nodes, c) {
      var n :| n in nodes && c in Children(n);
      assert n in nodes + [last];
    }
    assert last in nodes + [last];
  }

  /** Every child hangs below a node of the sequence. */
  lemma {:induction false} ExpandMembers(nodes: seq<Node>, c: Node)
    ensures c in Expand(nodes) <==> ChildOfSome(nodes, c)
  {
    if nodes != [] {
      var k := |nodes| - 1;
      ExpandMembers(nodes[..k], c);
      ChildOfOneMore(nodes[..k], nodes[k], c);
      assert nodes[..k] + [nodes[k]] == nodes;
    }
  }

  lemma ChildPath(node: Node, c: Node)
    requires c in Children(node)
    ensures c.path != [] && c.path[..|c.path| - 1] == node.path
  {
    ChildrenShape(node);
    var i :| 0 <= i < |Children(node)| && Children(node)[i] == c;
    var names := SortedNames(node.dir.subdirs.Keys);
    assert c == Child(node, names[i]);
    assert (node.path + [names[i]])[..|node.path|] == node.path;
  }

  lemma {:induction false} ExpandInOrder(nodes: seq<Node>, d: nat)
    requires InOrder(nodes) && forall n :: n in nodes ==> |n.path| == d
    ensures InOrder(Expand(nodes))
  {
    if nodes != [] {
      var k := |nodes| - 1;
      var last := nodes[k];
      ExpandInOrder(nodes[..k], d);
      ChildrenInOrder(last);
      var e, c := Expand(nodes[..k]), Children(last);
      forall i, j | 0 <= i < |e| && 0 <= j < |c|
        ensures Nearer(e[i].path, c[j].path)
      {
        ExpandMembers(nodes[..k], e[i]);
        var m :| 0 <= m < k && e[i] in Children(nodes[m]);
        assert nodes[m] in nodes && last in nodes && c[j] in c;
        CousinsInOrder(nodes[m], last, e[i], c[j]);
      }
    }
  }

  lemma CousinsInOrder(m: Node, n: Node, a: Node, b: Node)
    requires |m.path| == |n.path| && Nearer(m.path, n.path)
    requires a in Children(m) && b in Children(n)
    ensures Nearer(a.path, b.path)
  {
    ChildPath(m, a);
    ChildPath(n, b);
    var d := |m.path|;
    NamesBeforeAppend(m.path, n.path, a.path[d], b.path[d]);
    assert a.path == m.path + [a.path[d]] && b.path == n.path + [b.path[d]];
  }

  lemma NextLevelInOrder(root: Dir, d: nat)
    requires InOrder(Level(root, d))
    ensures InOrder(Level(root, d + 1))
  {
    LevelDepth(root, d);
    ExpandInOrder(Level(root, d), d);
  }

  lemma FirstLevelInOrder(root: Dir)
    ensures InOrder(Level(root, 0))
  {
    assert |Level(root, 0)| == 1;
  }

  lemma {:induction false} LevelInOrder(root: Dir, d: nat)
    ensures InOrder(Level(root, d))
  {
    if d == 0 {
      FirstLevelInOrder(root);
    } else {
      LevelInOrder(root, d - 1);
      NextLevelInOrder(root, d - 1);
    }
  }

  lemma {:induction false} BreadthFirstInOrder(root: Dir, depth: nat)
    ensures InOrder(BreadthFirst(root, depth))
    ensures forall n :: n in BreadthFirst(root, depth) ==> |n.path| <= depth
  {
    LevelInOrder(root, depth);
    LevelDepth(root, depth);
    if depth > 0 {
      BreadthFirstInOrder(root, depth - 1);
      var b, l := BreadthFirst(root, depth - 1), Level(root, depth);
      forall i, j | 0 <= i < |b| && 0 <= j < |l|
        ensures Nearer(b[i].path, l[j].path)
      {
        assert b[i] in b && l[j] in l;
      }
    }
  }

  lemma ChildIsReached(root: Dir, node: Node, c: Node)
    requires Reach(root, node.path) == Some(node.dir) && c in Children(node)
    ensures c.path != [] && c.path[..|c.path| - 1] == node.path && Reach(root, c.path) == Some(c.dir)
  {
    ChildPath(node, c);
    ChildrenShape(node);
    var i :| 0 <= i < |Children(node)| && Children(node)[i] == c;
  }

  lemma ReachedIsChild(root: Dir, node: Node, c: Node)
    requires Reach(root, node.path) == Some(node.dir)
    requires c.path != [] && c.path[..|c.path| - 1] == node.path && Reach(root, c.path) == Some(c.dir)
    ensures c in Children(node)
  {
    SortedNamesExact(node.dir.subdirs.Keys);
    var names := SortedNames(node.dir.subdirs.Keys);
    var n := c.path[|c.path| - 1];
    var i :| 0 <= i < |names| && names[i] == n;
    assert c.path == node.path + [n];
    ChildrenShape(node);
    assert Children(node)[i] == c;
  }

  ghost predicate Reached(root: Dir, n: Node, d: nat) {
    |n.path| == d && Reach(root, n.path) == Some(n.dir)
  }

  lemma ChildOfReached(root: Dir, d: nat, n: Node, p: Node)
    requires Reached(root, p, d) && n in Children(p)
    ensures Reached(root, n, d + 1)
  {
    ChildIsReached(root, p, n);
  }

  lemma ReachedHasParent(root: Dir, d: nat, n: Node) returns (p: Node)
    requires Reached(root, n, d + 1)
    ensures Reached(root, p, d) && n in Children(p)
  {
    p := Node(n.path[..d], Reach(root, n.path[..d]).value);
    ReachedIsChild(root, p, n);
  }

  /** One level down: if `above` is what is reached in d steps, expanding it gives what is
      reached in one more. */
  lemma ExpandReached(root: Dir, d: nat, above: seq<Node>, n: Node)
    requires forall p :: p in above <==> Reached(root, p, d)
    ensures n in Expand(above) <==> Reached(root, n, d + 1)
  {
    ExpandMembers(above, n);
    if n in Expand(above) {
      var p :| p in above && n in Children(p);
      ChildOfReached(root, d, n, p);
    }
    if Reached(root, n, d + 1) {
      var p := ReachedHasParent(root, d, n);
    }
  }

  /** A level is exactly the directories reachable in that many steps. */
  lemma {:induction false} LevelExact(root: Dir, d: nat, n: Node)
    ensures n in Level(root, d) <==> |n.path| == d && Reach(root, n.path) == Some(n.dir)
    decreases d
  {
    if d > 0 {
      forall p {:trigger Reached(root, p, d - 1)}
        ensures p in Level(root, d - 1) <==> Reached(root, p, d - 1)
      {
        LevelExact(root, d - 1, p);
      }
      ExpandReached(root, d - 1, Level(root, d - 1), n);
    }
  }

  lemma {:induction false} BreadthFirstExact(root: Dir, depth: nat, n: Node)
    ensures n in BreadthFirst(root, depth) <==> |n.path| <= depth && Reach(root, n.path) == Some(n.dir)
  {
    LevelExact(root, depth, n);
    if depth > 0 {
      BreadthFirstExact(root, depth - 1, n);
      assert n in BreadthFirst(root, depth) <==> n in BreadthFirst(root, depth - 1) || n in Level(root, depth);
    }
  }

  ghost predicate MarkedAt(root: Dir, path: Path) {
    Reach(root, path).Some? && Reach(root, path).value.marker
  }

  /** What is found is marked, within the depth limit, and nearer than every other
      marked directory within it. */
  lemma SearchFindsNearest(root: Dir, maxDepth: nat, maxDirs: int, path: Path)
    requires SearchResult(root, maxDepth, maxDirs) == Some(path)
    ensures |path| <= maxDepth && MarkedAt(root, path)
    ensures forall q :: |q| <= maxDepth && MarkedAt(root, q) && q != path ==> Nearer(path, q)
  {
    FoundIsNearest(root, maxDepth, maxDirs, BreadthFirst(root, maxDepth), path);
  }

  lemma FoundIsNearest(root: Dir, maxDepth: nat, maxDirs: int, order: seq<Node>, path: Path)
    requires order == BreadthFirst(root, maxDepth) && FirstMarked(Take(order, maxDirs)) == Some(path)
    ensures |path| <= maxDepth && MarkedAt(root, path)
    ensures forall q :: |q| <= maxDepth && MarkedAt(root, q) && q != path ==> Nearer(path, q)
  {
    var k := WhereFirstMarked(Take(order, maxDirs));
    assert order[k] == Take(order, maxDirs)[k];
    VisitedIsReached(root, maxDepth, order, k);
    forall q | |q| <= maxDepth && MarkedAt(root, q) && q != path
      ensures Nearer(path, q)
    {
      MarkedComesLater(root, maxDepth, maxDirs, order, k, q);
    }
  }

  lemma VisitedIsReached(root: Dir, maxDepth: nat, order: seq<Node>, k: nat)
    requires order == BreadthFirst(root, maxDepth) && k < |order|
    ensures |order[k].path| <= maxDepth && Reach(root, order[k].path) == Some(order[k].dir)
  {
    BreadthFirstExact(root, maxDepth, order[k]);
  }

  lemma MarkedComesLater(root: Dir, maxDepth: nat, maxDirs: int, order: seq<Node>, k: nat, q: Path)
    requires order == BreadthFirst(root, maxDepth) && k < |Take(order, maxDirs)| && Unmarked(Take(order, maxDirs), k)
    requires |q| <= maxDepth && MarkedAt(root, q) && q != order[k].path
    ensures Nearer(order[k].path, q)
  {
    var n := Node(q, Reach(root, q).value);
    BreadthFirstInOrder(root, maxDepth);
    BreadthFirstExact(root, maxDepth, n);
    MarkedAfter(order, maxDirs, k, n);
  }

  lemma MarkedAfter(order: seq<Node>, maxDirs: int, k: nat, n: Node)
    requires InOrder(order) && k < |Take(order, maxDirs)| && Unmarked(Take(order, maxDirs), k)
    requires n in order && n.dir.marker && n.path != order[k].path
    ensures Nearer(order[k].path, n.path)
  {
    assert forall i :: 0 <= i < k ==> Take(order, maxDirs)[i] == order[i];
    var j :| 0 <= j < |order| && order[j] == n;
    assert j >= k;
  }

  lemma {:induction false} WhereFirstMarked(nodes: seq<Node>) returns (k: nat)
    requires FirstMarked(nodes).Some?
    ensures k < |nodes| && nodes[k].dir.marker && FirstMarked(nodes) == Some(nodes[k].path)
    ensures Unmarked(nodes, k)
  {
    if nodes[0].dir.marker {
      k := 0;
    } else {
      k := WhereFirstMarked(nodes[1..]);
      k := k + 1;
    }
  }

  /** The search gives up exactly when every marked directory within the depth limit
      is preceded by at least `maxDirs` reachable directories. */
  lemma SearchGivesUp(root: Dir, maxDepth: int, maxDirs: int)
    ensures SearchResult(root, maxDepth, maxDirs).None? <==>
            forall k :: 0 <= k < |VisitOrder(root, maxDepth)| && VisitOrder(root, maxDepth)[k].dir.marker ==> k >= maxDirs
  {
    NoneMarkedEarly(VisitOrder(root, maxDepth), maxDirs);
  }

  lemma NoneMarkedEarly(order: seq<Node>, maxDirs: int)
    ensures FirstMarked(Take(order, maxDirs)).None? <==>
            forall k :: 0 <= k < |order| && order[k].dir.marker ==> k >= maxDirs
  {
    var seen := Take(order, maxDirs);
    FirstMarkedNone(seen);
    assert forall k :: 0 <= k < |seen| ==> seen[k] == order[k];
    if FirstMarked(seen).None? {
      forall k | 0 <= k < |order| && order[k].dir.marker
        ensures k >= maxDirs
      {
        assert seen == order[..|seen|];
      }
    }
  }

  /** With no more than `maxDirs` directories in reach, giving up means that none of
      them is marked. */
  lemma SearchIsComplete(root: Dir, maxDepth: nat, maxDirs: int)
    requires |VisitOrder(root, maxDepth)| <= maxDirs
    ensures SearchResult(root, maxDepth, maxDirs).None? <==> forall q :: |q| <= maxDepth ==> !MarkedAt(root, q)
  {
    var order := BreadthFirst(root, maxDepth);
    if SearchResult(root, maxDepth, maxDirs).None? {
      SearchGivesUp(root, maxDepth, maxDirs);
      forall q | |q| <= maxDepth
        ensures !MarkedAt(root, q)
      {
        if Reach(root, q).Some? {
          var n := Node(q, Reach(root, q).value);
          BreadthFirstExact(root, maxDepth, n);
          var j :| 0 <= j < |order| && order[j] == n;
        }
      }
    } else {
      SearchFindsNearest(root, maxDepth, maxDirs, SearchResult(root, maxDepth, maxDirs).value);
    }
  }

  // ------------------------------------------------------- the whole discovery

  /** The directory at a path, or one with nothing in it when there is none. */
  function Lookup(fs: Dir, path: Path): Dir {
    if path == [] then fs
    else if path[0] in fs.subdirs then Lookup(fs.subdirs[path[0]], path[1..])
    else MISSING
  }

  /** Looking up one more name: the subdirectory of that name, if there is one. */
  lemma {:induction false} LookupNext(fs: Dir, path: Path, name: string)
    ensures var dir := Lookup(fs, path);
            Lookup(fs, path + [name]) == if name in dir.subdirs then dir.subdirs[name] else Dir(false, false, false, map[])
    decreases |path|
  {
    if path == [] {
      assert (path + [name])[1..] == [];
    } else {
      assert (path + [name])[1..] == path[1..] + [name];
      if path[0] in fs.subdirs { LookupNext(fs.subdirs[path[0]], path[1..], name); }
    }
  }

  /** What listing directory after directory reaches is what a look at the path finds. */
  lemma {:induction false} LookupReaches(fs: Dir, path: Path)
    requires Reach(fs, path).Some?
    ensures Lookup(fs, path) == Reach(fs, path).value
  {
    if path != [] {
      var n := |path| - 1;
      LookupReaches(fs, path[..n]);
      LookupNext(fs, path[..n], path[n]);
      assert path[..n] + [path[n]] == path;
    }
  }

  /** The start, its parent, and so on up to the file-system root. */
  method AncestorDirs(start: Path) returns (dirs: seq<Path>)
    ensures |dirs| == |start| + 1
    ensures forall k :: 0 <= k <= |start| ==> dirs[k] == start[..|start| - k]
  {
    dirs := [];
    var dir := start;
    while true
      invariant |dir| + |dirs| == |start| && dir == start[..|dir|]
      invariant forall k :: 0 <= k < |dirs| ==> dirs[k] == start[..|start| - k]
      decreases |dir|
    {
      dirs := dirs + [dir];
      if dir == [] {
        break;
      }
      dir := dir[..|dir| - 1];
    }
  }

  /** `a` is the longest prefix of the start that is `good`. */
  ghost predicate LongestPrefix(start: Path, a: Path, good: Path -> bool) {
    && |a| <= |start| && a == start[..|a|] && good(a)
    && forall k :: |a| < k <= |start| ==> !good(start[..k])
  }

  ghost predicate NoPrefix(start: Path, good: Path -> bool) {
    forall k :: 0 <= k <= |start| ==> !good(start[..k])
  }

  ghost function MarkedIn(fs: Dir): Path -> bool {
    path => Lookup(fs, path).marker
  }

  ghost function WeakIn(fs: Dir): Path -> bool {
    path => Lookup(fs, path).weak
  }

  ghost function SearchBelow(fs: Dir, path: Path): Option<Path> {
    SearchResult(Lookup(fs, path), MAX_MARKER_SEARCH_DEPTH, MAX_MARKER_SEARCH_DIRS)
  }

  /** Below an ancestor something is found exactly when one of the first 4096 directories in
      breadth-first order, down to eight levels, is marked; and it is then within that depth. */
  lemma FoundBelowExactlyWhen(fs: Dir, path: Path)
    ensures SearchBelow(fs, path).Some? <==> MarkedEarly(BreadthFirst(Lookup(fs, path), 8), 4096)
    ensures SearchBelow(fs, path).Some? ==> |SearchBelow(fs, path).value| <= 8
  {
    var root := Lookup(fs, path);
    SearchGivesUp(root, MAX_MARKER_SEARCH_DEPTH, MAX_MARKER_SEARCH_DIRS);
    if SearchBelow(fs, path).Some? {
      SearchFindsNearest(root, MAX_MARKER_SEARCH_DEPTH, MAX_MARKER_SEARCH_DIRS, SearchBelow(fs, path).value);
    }
  }

  ghost predicate MarkedEarly(order: seq<Node>, limit: int) {
    exists k :: 0 <= k < |order| && k < limit && order[k].dir.marker
  }

  ghost function FoundBelow(fs: Dir): Path -> bool {
    path => SearchBelow(fs, path).Some?
  }

  method DiscoverMarkerRootUpward(fs: Dir, start: Path) returns (found: Option<Path>)
    ensures found.None? <==> NoPrefix(start, MarkedIn(fs))
    ensures found.Some? ==> LongestPrefix(start, found.value, MarkedIn(fs)) && Lookup(fs, found.value).marker
    ensures found.None? ==> forall k :: 0 <= k <= |start| ==> !Lookup(fs, start[..k]).marker
  {
    var dirs := AncestorDirs(start);
    for i := 0 to |dirs|
      invariant forall k :: |start| - i < k <= |start| ==> !MarkedIn(fs)(start[..k])
    {
      if Lookup(fs, dirs[i]).marker {
        assert MarkedIn(fs)(dirs[i]);
        return Some(dirs[i]);
      }
    }
    return None;
  }

  /** The nearest marked ancestor; failing that, what the bounded search finds below
      the nearest ancestor it finds anything below; failing that, the nearest
      ancestor with a weak feature. */
  method DiscoverKageosRootFrom(fs: Dir, start: Path) returns (found: Option<Path>)
    ensures !NoPrefix(start, MarkedIn(fs)) ==>
              found.Some? && LongestPrefix(start, found.value, MarkedIn(fs))
    ensures NoPrefix(start, MarkedIn(fs)) && !NoPrefix(start, FoundBelow(fs)) ==>
              exists a :: LongestPrefix(start, a, FoundBelow(fs)) && found == Some(a + SearchBelow(fs, a).value)
    ensures NoPrefix(start, MarkedIn(fs)) && NoPrefix(start, FoundBelow(fs)) && !NoPrefix(start, WeakIn(fs)) ==>
              found.Some? && LongestPrefix(start, found.value, WeakIn(fs))
    ensures found.None? <==>
              NoPrefix(start, MarkedIn(fs)) && NoPrefix(start, FoundBelow(fs)) && NoPrefix(start, WeakIn(fs))
  {
    var root := DiscoverMarkerRootUpward(fs, start);
    if root.Some? {
      return root;
    }
    root := DiscoverBelowAncestors(fs, start);
    if root.Some? {
      return root;
    }
    found := DiscoverWeakRoot(fs, start);
  }

  lemma FoundAt(fs: Dir, start: Path, a: Path)
    requires |a| <= |start| && a == start[..|a|] && SearchBelow(fs, a).Some?
    requires forall k :: |a| < k <= |start| ==> SearchBelow(fs, start[..k]).None?
    ensures LongestPrefix(start, a, FoundBelow(fs)) && !NoPrefix(start, FoundBelow(fs))
  {
    assert FoundBelow(fs)(start[..|a|]);
  }

  method DiscoverBelowAncestors(fs: Dir, start: Path) returns (found: Option<Path>)
    ensures found.None? <==> NoPrefix(start, FoundBelow(fs))
    ensures found.Some? ==>
              exists a :: LongestPrefix(start, a, FoundBelow(fs)) && found == Some(a + SearchBelow(fs, a).value)
  {
    var dirs := AncestorDirs(start);
    for i := 0 to |dirs|
      invariant forall k :: |start| - i < k <= |start| ==> SearchBelow(fs, start[..k]).None?
    {
      var ancestor := dirs[i];
      var below := DiscoverMarkerRootDownward(Lookup(fs, ancestor), MAX_MARKER_SEARCH_DEPTH, MAX_MARKER_SEARCH_DIRS);
      assert below == SearchBelow(fs, ancestor);
      if below.Some? {
        FoundAt(fs, start, ancestor);
        return Some(ancestor + below.value);
      }
    }
    return None;
  }

  method DiscoverWeakRoot(fs: Dir, start: Path) returns (found: Option<Path>)
    ensures found.None? <==> NoPrefix(start, WeakIn(fs))
    ensures found.Some? ==> LongestPrefix(start, found.value, WeakIn(fs)) && Lookup(fs, found.value).weak
    ensures found.None? ==> forall k :: 0 <= k <= |start| ==> !Lookup(fs, start[..k]).weak
  {
    var dirs := AncestorDirs(start);
    for i := 0 to |dirs|
      invariant forall k :: |start| - i < k <= |start| ==> !WeakIn(fs)(start[..k])
    {
      if Lookup(fs, dirs[i]).weak {
        assert WeakIn(fs)(dirs[i]);
        return Some(dirs[i]);
      }
    }
    return None;
  }
}
