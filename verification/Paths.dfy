/** Slash-separated paths: Go's filepath.Clean and filepath.Rel, and the two guards that
    the backup builds on them (cmd/kagectl/backup.go). */
module Paths {
  import opened Strings

  /** An absolute path, or one inside a tree, by its components. */
  type Path = seq<string>

  predicate Proper(part: string) {
    part != "" && part != "." && part != ".." && '/' !in part
  }

  predicate AllProper(parts: Path) {
    forall i :: 0 <= i < |parts| ==> Proper(parts[i])
  }

  /** Takes in one component: nothing for "" and ".", one up for "..", which stays
      when a relative path has nothing to go up from, and vanishes at the root. */
  function Enter(rooted: bool, stack: Path, part: string): Path {
    if part == "" || part == "." then stack
    else if part == ".." then
      if stack != [] && stack[|stack| - 1] != ".." then stack[..|stack| - 1]
      else if rooted then stack
      else stack + [".."]
    else stack + [part]
  }

  function Reduce(rooted: bool, parts: Path): Path {
    if parts == [] then [] else Enter(rooted, Reduce(rooted, parts[..|parts| - 1]), parts[|parts| - 1])
  }

  /** Go's filepath.Clean. */
  function Clean(s: string): string {
    if s == "" then "."
    else
      var rooted := s[0] == '/';
      var parts := Reduce(rooted, Split(s, '/'));
      if rooted then "/" + Join(parts, '/')
      else if parts == [] then "."
      else Join(parts, '/')
  }

  lemma {:induction false} ReduceProper(rooted: bool, parts: Path)
    requires AllProper(parts)
    ensures Reduce(rooted, parts) == parts
  {
    if parts != [] {
      ReduceProper(rooted, parts[..|parts| - 1]);
      assert parts == parts[..|parts| - 1] + [parts[|parts| - 1]];
    }
  }

  /** Some steps up, then proper components. */
  predicate UpThenDown(parts: Path, up: nat) {
    up <= |parts|
    && (forall i :: 0 <= i < up ==> parts[i] == "..")
    && (forall i :: up <= i < |parts| ==> Proper(parts[i]))
  }

  lemma {:induction false} ReduceShape(rooted: bool, parts: Path) returns (up: nat)
    requires FreeOf(parts, '/')
    ensures UpThenDown(Reduce(rooted, parts), up) && (rooted ==> up == 0)
  {
    if parts == [] {
      up := 0;
    } else {
      var n := |parts| - 1;
      up := ReduceShape(rooted, parts[..n]);
      var stack := Reduce(rooted, parts[..n]);
      if parts[n] == ".." && !(stack != [] && stack[|stack| - 1] != "..") && !rooted {
        assert up == |stack|;
        up := up + 1;
      }
    }
  }

  lemma PrefixesNest(p: Path, q: Path, path: Path)
    requires p <= path && q <= path
    ensures p <= q || q <= p
  {
    assert p == path[..|p|] && q == path[..|q|];
  }

  // ----------------------------------------------------- names inside an archive

  /** Go's validateArchivePath: the trimmed name, if it is clean and stays inside. */
  function ValidateArchivePath(name: string): Option<string> {
    var trimmed := TrimSpace(name);
    var clean := Clean(trimmed);
    if trimmed == "" || clean == "." || clean == ".." || HasPrefix(clean, "../") || HasPrefix(clean, "/")
       || clean != trimmed
    then None else Some(clean)
  }

  lemma FirstPart(s: string)
    ensures s != "" && s[0] == '/' ==> Split(s, '/')[0] == ""
    ensures HasPrefix(s, "../") ==> Split(s, '/')[0] == ".."
  {
    if HasPrefix(s, "../") {
      assert s == ".." + ['/'] + s[3..];
      SplitConcat("..", s[3..], '/');
      SplitWord("..", '/');
    }
  }

  lemma CleanOfProper(s: string)
    requires AllProper(Split(s, '/'))
    ensures s != "" && s[0] != '/' && s != "." && s != ".." && !HasPrefix(s, "../") && Clean(s) == s
  {
    var parts := Split(s, '/');
    FirstPart(s);
    assert Proper(parts[0]);
    if s == "." || s == ".." { SplitWord(s, '/'); }
    ReduceProper(false, parts);
    JoinSplit(s, '/');
  }

  lemma {:induction false} JoinStartsUp(parts: Path)
    requires parts != [] && parts[0] == ".."
    ensures Join(parts, '/') == ".." || HasPrefix(Join(parts, '/'), "../")
  {
    if |parts| > 1 { assert Join(parts, '/') == "../" + Join(parts[1..], '/'); }
  }

  lemma CleanIsProper(s: string)
    requires s != "" && s[0] != '/' && Clean(s) == s && s != "." && s != ".." && !HasPrefix(s, "../")
    ensures AllProper(Split(s, '/'))
  {
    var parts := Reduce(false, Split(s, '/'));
    SplitFree(s, '/');
    var up := ReduceShape(false, Split(s, '/'));
    if up > 0 { JoinStartsUp(parts); }
    SplitJoin(parts, '/');
  }

  /** A name is accepted exactly when, trimmed, all its components are proper; and it
      is then taken as trimmed. */
  lemma ValidNames(name: string)
    ensures ValidateArchivePath(name) ==
              if AllProper(Split(TrimSpace(name), '/')) then Some(TrimSpace(name)) else None
  {
    var t := TrimSpace(name);
    if AllProper(Split(t, '/')) {
      CleanOfProper(t);
    } else if t != "" && ValidateArchivePath(name).Some? {
      RootedCleanIsRooted(t);
      CleanIsProper(t);
    }
  }

  lemma RootedCleanIsRooted(s: string)
    requires s != "" && !HasPrefix(Clean(s), "/")
    ensures s[0] != '/'
  {
    if s[0] == '/' { RootedClean(s); }
  }

  lemma RootedClean(s: string)
    requires s != "" && s[0] == '/'
    ensures HasPrefix(Clean(s), "/")
  {
    assert Clean(s) == "/" + Join(Reduce(true, Split(s, '/')), '/');
  }

  // ---------------------------------------------------------- being inside a root

  function CommonLength(p: Path, q: Path): (n: nat)
    ensures n <= |p| && n <= |q| && p[..n] == q[..n]
    ensures n == |p| <==> p <= q
  {
    if p != [] && q != [] && p[0] == q[0] then
      assert p == [p[0]] + p[1..] && q == [q[0]] + q[1..];
      1 + CommonLength(p[1..], q[1..])
    else 0
  }

  function Ups(n: nat): Path {
    seq(n, _ => "..")
  }

  /** Go's filepath.Rel for absolute paths: up to the common directory, then down. */
  function RelParts(root: Path, path: Path): Path {
    var n := CommonLength(root, path);
    Ups(|root| - n) + path[n..]
  }

  function Rel(root: Path, path: Path): string {
    if RelParts(root, path) == [] then "." else Join(RelParts(root, path), '/')
  }

  predicate SamePathOrInside(path: Path, root: Path) {
    var rel := Rel(root, path);
    rel != ".." && !HasPrefix(rel, "../")
  }

  lemma StaysDown(parts: Path)
    requires parts != [] && AllProper(parts)
    ensures Join(parts, '/') != ".." && !HasPrefix(Join(parts, '/'), "../")
  {
    SplitJoin(parts, '/');
    CleanOfProper(Join(parts, '/'));
  }

  /** The guard on a relative path decides containment. */
  lemma InsideIsPrefix(path: Path, root: Path)
    requires AllProper(path)
    ensures SamePathOrInside(path, root) <==> root <= path
  {
    var n := CommonLength(root, path);
    var parts := RelParts(root, path);
    if n == |root| {
      assert parts == path[n..];
      if parts != [] { StaysDown(parts); }
    } else {
      assert parts[0] == "..";
      JoinStartsUp(parts);
    }
  }
}
