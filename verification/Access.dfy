/** Role assignments on a tree of resource paths and the permissions they resolve
    to (pkg/access/access.go). */
module Access {
  import opened Strings
  import opened Seqs
  import opened Times

  // -------------------------------------------------------------------- data

  datatype Principal = Principal(kind: string, key: string)

  datatype Assignment = Assignment(
    tenantUser: string,
    app: string,
    principal: Principal,
    resourcePath: string,
    roleCode: string,
    expiresAt: Option<int>,
    createdBy: string)

  datatype Result = Result(
    resourcePath: string,
    roleCodes: seq<string>,
    permissions: map<string, bool>,
    inheritedFrom: string,
    expiresAt: Option<int>,
    assignments: seq<Assignment>)

  predicate IsAction(a: string) {
    a == "read" || a == "write" || a == "update" || a == "delete" || a == "admin" || a == "owner"
  }

  predicate IsRole(role: string) {
    role == "owner" || role == "admin" || role == "member" || role == "viewer"
  }

  predicate IsValidRoleCode(role: string) {
    IsRole(Fold(role))
  }

  /** viewer < member < admin < owner; 0 for anything else. */
  function Rank(role: string): nat {
    if role == "owner" then 4
    else if role == "admin" then 3
    else if role == "member" then 2
    else if role == "viewer" then 1
    else 0
  }

  /** Looking up a Go map: a missing key reads as false. */
  predicate Granted(perms: map<string, bool>, action: string) {
    action in perms && perms[action]
  }

  function EmptyPermissionSet(): map<string, bool> {
    map["read" := false, "write" := false, "update" := false,
        "delete" := false, "admin" := false, "owner" := false]
  }

  function RolePermissions(role: string): map<string, bool> {
    var code := Fold(role);
    if code == "owner" then
      map["read" := true, "write" := true, "update" := true,
          "delete" := true, "admin" := true, "owner" := true]
    else if code == "admin" then
      map["read" := true, "write" := true, "update" := true, "delete" := true, "admin" := true]
    else if code == "member" then
      map["read" := true, "write" := true, "update" := true]
    else if code == "viewer" then
      map["read" := true]
    else EmptyPermissionSet()
  }

  predicate HasPermission(perms: map<string, bool>, action: string) {
    var a := Fold(action);
    a != ""
    && (Granted(perms, "owner")
        || (a != "owner" && Granted(perms, "admin"))
        || Granted(perms, a))
  }

  predicate CoversRole(perms: map<string, bool>, role: string) {
    var code := Fold(role);
    IsValidRoleCode(code)
    && forall action <- RolePermissions(code).Keys ::
         Granted(RolePermissions(code), action) ==> HasPermission(perms, action)
  }

  // ------------------------------------------------------------------- paths

  predicate IsSlash(c: char) {
    c == '/'
  }

  function NormalizeResourcePath(path: string): (r: string)
    ensures r != "" ==> |r| >= 2 && r[0] == '/' && r[1] != '/' && r[|r| - 1] != '/'
  {
    var trimmed := Trim(TrimSpace(path), IsSlash);
    if trimmed == "" then "" else "/" + trimmed
  }

  predicate PathApplies(assignedPath: string, resourcePath: string) {
    var a := NormalizeResourcePath(assignedPath);
    var r := NormalizeResourcePath(resourcePath);
    a != "" && r != "" && (r == a || HasPrefix(r, a + "/"))
  }

  /** The components of a normalized path. */
  function Parts(path: string): (parts: seq<string>)
    ensures |parts| >= 1
  {
    Split(Trim(path, IsSlash), '/')
  }

  function Ancestor(parts: seq<string>, i: nat): string
    requires i <= |parts|
  {
    "/" + Join(parts[..i], '/')
  }

  /** The full path, then each shorter path down to the first component. */
  function Ancestors(parts: seq<string>): seq<string> {
    seq(|parts|, k requires 0 <= k < |parts| => Ancestor(parts, |parts| - k))
  }

  function ParentPathList(resourcePath: string): seq<string> {
    var path := NormalizeResourcePath(resourcePath);
    if path == "" then [] else Ancestors(Parts(path))
  }

  method ParentPaths(resourcePath: string) returns (paths: seq<string>)
    ensures paths == ParentPathList(resourcePath)
  {
    var path := NormalizeResourcePath(resourcePath);
    if path == "" {
      return [];
    }
    var parts := Parts(path);
    paths := [];
    var i := |parts|;
    while i >= 1
      invariant 0 <= i <= |parts|
      invariant |paths| == |parts| - i
      invariant forall k :: 0 <= k < |paths| ==> paths[k] == Ancestor(parts, |parts| - k)
    {
      paths := paths + [Ancestor(parts, i)];
      i := i - 1;
    }
    assert paths == Ancestors(parts);
  }

  /** `outer` is `inner` or a directory above it. */
  predicate Encloses(outer: string, inner: string) {
    inner == outer || HasPrefix(inner, outer + "/")
  }

  lemma TrimOuterSlash(t: string)
    requires t != "" && t[0] != '/' && t[|t| - 1] != '/'
    ensures Trim("/" + t, IsSlash) == t
  {
    var s := "/" + t;
    assert s[1..] == t;
    assert TrimLeft(s, IsSlash) == TrimLeft(t, IsSlash) == t;
  }

  /** The components of a normalized path are those of the path less its slash. */
  lemma PartsOfNormalized(path: string)
    requires NormalizeResourcePath(path) != ""
    ensures var r := NormalizeResourcePath(path);
            r == "/" + r[1..] && Parts(r) == Split(r[1..], '/')
  {
    var r := NormalizeResourcePath(path);
    assert r[1..][|r| - 2] == r[|r| - 1];
    TrimOuterSlash(r[1..]);
  }

  lemma AncestorEncloses(t: string, i: nat)
    requires 1 <= i <= |Split(t, '/')|
    ensures Encloses(Ancestor(Split(t, '/'), i), "/" + t)
    ensures i < |Split(t, '/')| ==> HasPrefix("/" + t, Ancestor(Split(t, '/'), i) + "/")
  {
    var parts := Split(t, '/');
    JoinSplit(t, '/');
    if i < |parts| { AncestorIsAbove(parts, i, t); } else { TakeAll(parts); }
  }

  lemma AncestorIsAbove(parts: seq<string>, i: nat, t: string)
    requires 0 < i < |parts| && t == Join(parts, '/')
    ensures HasPrefix("/" + t, Ancestor(parts, i) + "/")
  {
    JoinAt(parts, i);
    StartsWith(Join(parts[..i], '/'), Join(parts[i..], '/'), t);
  }

  lemma JoinAt(parts: seq<string>, i: nat)
    requires 0 < i < |parts|
    ensures Join(parts, '/') == Join(parts[..i], '/') + ['/'] + Join(parts[i..], '/')
  {
    assert parts[..i] + parts[i..] == parts;
    JoinConcat(parts[..i], parts[i..], '/');
  }

  lemma StartsWith(a: string, rest: string, whole: string)
    requires whole == a + ['/'] + rest
    ensures HasPrefix("/" + whole, "/" + a + "/")
  {
    assert "/" + whole == ("/" + a + "/") + rest;
  }

  lemma EnclosingIsAncestor(q: string, t: string) returns (i: nat)
    requires Encloses("/" + q, "/" + t)
    ensures 1 <= i <= |Split(t, '/')| && Ancestor(Split(t, '/'), i) == "/" + q
  {
    var parts := Split(t, '/');
    JoinSplit(t, '/');
    JoinSplit(q, '/');
    assert ("/" + q)[1..] == q && ("/" + t)[1..] == t;
    if "/" + q == "/" + t {
      i := |parts|;
      assert parts[..i] == parts;
    } else {
      var outer := "/" + q + "/";
      assert HasPrefix("/" + t, outer);
      var rest := t[|q| + 1..];
      assert t[..|q| + 1] == q + "/";
      assert t == q + ['/'] + rest;
      SplitConcat(q, rest, '/');
      i := |Split(q, '/')|;
      assert parts[..i] == Split(q, '/');
    }
  }

  lemma AncestorsAreEnclosing(a: string, t: string)
    requires a == "" || (|a| >= 1 && a[0] == '/')
    ensures a in Ancestors(Split(t, '/')) <==> a != "" && Encloses(a, "/" + t)
  {
    var parts := Split(t, '/');
    var list := Ancestors(parts);
    if a in list {
      var k :| 0 <= k < |list| && list[k] == a;
      AncestorEncloses(t, |parts| - k);
    }
    if a != "" && Encloses(a, "/" + t) {
      assert a == "/" + a[1..];
      var i := EnclosingIsAncestor(a[1..], t);
      assert list[|parts| - i] == a;
    }
  }

  /** A path is assigned at or above a resource exactly when its normal form is
      one of the resource's parent paths. */
  lemma AppliesIffAncestor(p: string, r: string)
    ensures PathApplies(p, r) <==> NormalizeResourcePath(p) in ParentPathList(r)
  {
    var a, path := NormalizeResourcePath(p), NormalizeResourcePath(r);
    if path != "" {
      PartsOfNormalized(r);
      AncestorsAreEnclosing(a, path[1..]);
    }
  }

  lemma AncestorsNest(t: string, i: nat, j: nat)
    requires 1 <= j < i <= |Split(t, '/')|
    ensures HasPrefix(Ancestor(Split(t, '/'), i), Ancestor(Split(t, '/'), j) + "/")
  {
    var parts := Split(t, '/');
    assert parts[..i] == parts[..j] + parts[j..i];
    JoinConcat(parts[..j], parts[j..i], '/');
    var a := Join(parts[..j], '/');
    assert Ancestor(parts, i) == ("/" + a + "/") + Join(parts[j..i], '/');
  }

  /** Ancestors run from the path outwards, each one enclosing the last. */
  lemma AncestorsRunOutwards(t: string)
    ensures var list := Ancestors(Split(t, '/'));
            && list[0] == "/" + t
            && forall i, j :: 0 <= i < j < |list| ==> HasPrefix(list[i], list[j] + "/")
  {
    var list := Ancestors(Split(t, '/'));
    var n := |Split(t, '/')|;
    JoinSplit(t, '/');
    assert Split(t, '/')[..n] == Split(t, '/');
    assert list[0] == Ancestor(Split(t, '/'), n);
    forall i, j | 0 <= i < j < |list|
      ensures HasPrefix(list[i], list[j] + "/")
    {
      AncestorsNest(t, n - i, n - j);
    }
  }

  /** Parent paths run from the resource outwards, each one enclosing the last. */
  lemma ParentPathsNest(r: string)
    requires NormalizeResourcePath(r) != ""
    ensures var list := ParentPathList(r);
            && |list| > 0 && list[0] == NormalizeResourcePath(r)
            && forall i, j :: 0 <= i < j < |list| ==> HasPrefix(list[i], list[j] + "/")
  {
    PartsOfNormalized(r);
    AncestorsRunOutwards(NormalizeResourcePath(r)[1..]);
  }

  lemma PathAppliesTransitive(a: string, b: string, c: string)
    requires PathApplies(a, b) && PathApplies(b, c)
    ensures PathApplies(a, c)
  {
    var x, y, z := NormalizeResourcePath(a), NormalizeResourcePath(b), NormalizeResourcePath(c);
    if x != y && y != z {
      assert z[..|x| + 1] == y[..|x| + 1] == x + "/";
    }
  }

  // ------------------------------------------------------- merging and roles

  lemma PlainFolds(s: string)
    requires forall i :: 0 <= i < |s| ==> 'a' <= s[i] <= 'z'
    ensures Fold(s) == s
  {
    assert s == "" || (!IsSpace(s[0]) && !IsSpace(s[|s| - 1]));
    assert ToLower(s) == s;
  }

  lemma ActionFolds(a: string)
    requires IsAction(a) || IsRole(a)
    ensures Fold(a) == a
  {
    PlainFolds(a);
  }

  /** The set grants, among the keys in `keys`, one whose folded name is `action`. */
  ghost predicate GrantsAmong(perms: map<string, bool>, keys: set<string>, action: string) {
    exists k :: k in keys && Granted(perms, k) && Fold(k) == action
  }

  ghost predicate GrantsAs(perms: map<string, bool>, action: string) {
    GrantsAmong(perms, perms.Keys, action)
  }

  /** Some set grants an action whose folded name is `action`. */
  ghost predicate SomeGrants(sets: seq<map<string, bool>>, action: string) {
    exists p :: p in sets && GrantsAs(p, action)
  }

  method MergePermissionSets(sets: seq<map<string, bool>>) returns (merged: map<string, bool>)
    ensures forall a :: a in merged <==> IsAction(a) || SomeGrants(sets, a)
    ensures forall a :: Granted(merged, a) <==> SomeGrants(sets, a)
  {
    merged := EmptyPermissionSet();
    for i := 0 to |sets|
      invariant forall a :: a in merged <==> IsAction(a) || SomeGrants(sets[..i], a)
      invariant forall a :: Granted(merged, a) <==> SomeGrants(sets[..i], a)
    {
      merged := MergeInto(merged, sets[i]);
      SomeGrantsNext(sets, i);
    }
    assert sets[..|sets|] == sets;
  }

  /** The inner loop of the merge; a map is visited in no particular order. */
  method MergeInto(before: map<string, bool>, perms: map<string, bool>) returns (merged: map<string, bool>)
    ensures forall a :: a in merged <==> a in before || GrantsAs(perms, a)
    ensures forall a :: Granted(merged, a) <==> Granted(before, a) || GrantsAs(perms, a)
  {
    merged := before;
    var rest := perms.Keys;
    while rest != {}
      invariant rest <= perms.Keys
      invariant forall a :: a in merged <==> a in before || GrantsAmong(perms, perms.Keys - rest, a)
      invariant forall a :: Granted(merged, a) <==> Granted(before, a) || GrantsAmong(perms, perms.Keys - rest, a)
    {
      var action :| action in rest;
      GrantsAmongNext(perms, perms.Keys - rest, action);
      assert perms.Keys - (rest - {action}) == (perms.Keys - rest) + {action};
      if perms[action] {
        merged := merged[Fold(action) := true];
      }
      rest := rest - {action};
    }
    assert perms.Keys - rest == perms.Keys;
  }

  lemma GrantsAmongNext(perms: map<string, bool>, keys: set<string>, k: string)
    requires k in perms
    ensures forall a :: GrantsAmong(perms, keys + {k}, a) <==> GrantsAmong(perms, keys, a) || (perms[k] && a == Fold(k))
  {
    forall a
      ensures GrantsAmong(perms, keys + {k}, a) <==> GrantsAmong(perms, keys, a) || (perms[k] && a == Fold(k))
    {
      if GrantsAmong(perms, keys, a) {
        var k' :| k' in keys && Granted(perms, k') && Fold(k') == a;
        assert k' in keys + {k};
      }
      if perms[k] && a == Fold(k) {
        assert k in keys + {k} && Granted(perms, k);
      }
    }
  }

  lemma SomeGrantsNext(sets: seq<map<string, bool>>, i: nat)
    requires i < |sets|
    ensures forall a :: SomeGrants(sets[..i + 1], a) <==> SomeGrants(sets[..i], a) || GrantsAs(sets[i], a)
  {
    assert sets[..i + 1] == sets[..i] + [sets[i]];
    assert forall p :: p in sets[..i + 1] <==> p in sets[..i] || p == sets[i];
  }

  ghost predicate SomeHas(sets: seq<map<string, bool>>, action: string) {
    exists p :: p in sets && HasPermission(p, action)
  }

  /** No set grants an action under a spelling that only merging would recognise:
      whatever a granted key folds to, some set already permits. */
  ghost predicate NoHiddenGrants(sets: seq<map<string, bool>>) {
    forall p, k :: p in sets && Granted(p, k) && Fold(k) != "" ==> SomeHas(sets, k)
  }

  /** Whatever one set permits, the merged set permits. */
  lemma MergeKeepsPermissions(sets: seq<map<string, bool>>, merged: map<string, bool>, action: string)
    requires forall a :: Granted(merged, a) <==> SomeGrants(sets, a)
    requires SomeHas(sets, action)
    ensures HasPermission(merged, action)
  {
    var p :| p in sets && HasPermission(p, action);
    var a := Fold(action);
    ActionFolds("owner");
    ActionFolds("admin");
    FoldIdempotent(action);
    var k := if Granted(p, "owner") then "owner"
             else if a != "owner" && Granted(p, "admin") then "admin" else a;
    assert k in p.Keys && Granted(p, k) && Fold(k) == k;
    assert GrantsAs(p, k);
  }

  /** Asking the merged set is asking each set in turn, for every action, exactly
      when no set hides a grant under an unfolded spelling. */
  lemma HasPermissionDistributes(sets: seq<map<string, bool>>, merged: map<string, bool>)
    requires forall a :: Granted(merged, a) <==> SomeGrants(sets, a)
    ensures (forall action :: HasPermission(merged, action) <==> SomeHas(sets, action)) <==> NoHiddenGrants(sets)
  {
    if NoHiddenGrants(sets) {
      forall action
        ensures HasPermission(merged, action) <==> SomeHas(sets, action)
      {
        if HasPermission(merged, action) {
          var a := Fold(action);
          var g := if Granted(merged, "owner") then "owner"
                   else if a != "owner" && Granted(merged, "admin") then "admin" else a;
          var p :| p in sets && GrantsAs(p, g);
          var k :| k in p.Keys && Granted(p, k) && Fold(k) == g;
          assert SomeHas(sets, k);
          var q :| q in sets && HasPermission(q, k);
          assert HasPermission(q, action);
        }
        if SomeHas(sets, action) { MergeKeepsPermissions(sets, merged, action); }
      }
    }
    if forall action :: HasPermission(merged, action) <==> SomeHas(sets, action) {
      forall p, k | p in sets && Granted(p, k) && Fold(k) != ""
        ensures SomeHas(sets, k)
      {
        assert k in p.Keys;
        assert GrantsAs(p, Fold(k));
        assert HasPermission(merged, k);
      }
    }
  }

  /** A grant spelled READ is hidden: the set itself does not permit to read, its merge does. */
  lemma SpelledGrantIsHidden(p: map<string, bool>, merged: map<string, bool>)
    requires p == map["READ" := true] && forall a :: Granted(merged, a) <==> SomeGrants([p], a)
    ensures HasPermission(merged, "read") && !SomeHas([p], "read")
  {
    PlainFolds("read");
    CapitalsFold("READ");
    assert "READ" in p.Keys && [p][0] == p;
    assert GrantsAs(p, "read");
    NothingPlain(p);
  }

  lemma NothingPlain(p: map<string, bool>)
    requires p == map["READ" := true]
    ensures !HasPermission(p, "read")
  {
    PlainFolds("read");
  }

  lemma CapitalsFold(action: string)
    requires action == "READ"
    ensures Fold(action) == "read"
  {
    assert TrimSpace(action) == action;
  }

  /** A role covers another exactly when it ranks at least as high. */
  lemma RoleGrantsByRank(role: string, action: string)
    requires IsRole(role) && IsAction(action)
    ensures Granted(RolePermissions(role), action) <==>
            Rank(role) >= (if action == "owner" then 4 else if action == "admin" || action == "delete" then 3
                           else if action == "write" || action == "update" then 2 else 1)
    ensures forall a :: Granted(RolePermissions(role), a) ==> IsAction(a)
  {
    ActionFolds(role);
  }

  /** What each role permits, whatever way its code is spelled; any other code permits nothing. */
  lemma RoleGrantsExactly(role: string, action: string)
    ensures var code := Fold(role);
            Granted(RolePermissions(role), action) <==>
              || (action == "read" && (code == "viewer" || code == "member" || code == "admin" || code == "owner"))
              || ((action == "write" || action == "update") && (code == "member" || code == "admin" || code == "owner"))
              || ((action == "delete" || action == "admin") && (code == "admin" || code == "owner"))
              || (action == "owner" && code == "owner")
  {
  }

  /** Normalizing takes off white space and then slashes around a path, and puts one slash in front. */
  lemma NormalIgnoresPadding(left: string, slashes: string, core: string, more: string, right: string)
    requires forall c :: c in left || c in right ==> IsSpace(c)
    requires forall c :: c in slashes || c in more ==> c == '/'
    requires core != "" && core[0] != '/' && core[|core| - 1] != '/' && !IsSpace(core[0]) && !IsSpace(core[|core| - 1])
    ensures NormalizeResourcePath(left + (slashes + core + more) + right) == "/" + core
  {
    var inner := slashes + core + more;
    assert inner[0] == (if slashes == "" then core[0] else slashes[0]);
    assert inner[|inner| - 1] == (if more == "" then core[|core| - 1] else more[|more| - 1]);
    assert slashes != "" ==> slashes[0] in slashes;
    assert more != "" ==> more[|more| - 1] in more;
    TrimOf(left, inner, right, IsSpace);
    TrimOf(slashes, core, more, IsSlash);
  }

  // --------------------------------------------------------------- resolving

  /** The assignment takes part: valid role, not expired at `now`, on a path that
      applies to `resource`. */
  predicate Counts(a: Assignment, resource: string, now: int) {
    && IsValidRoleCode(Fold(a.roleCode))
    && (a.expiresAt.Some? ==> a.expiresAt.value > now)
    && PathApplies(NormalizeResourcePath(a.resourcePath), resource)
  }

  function Normal(a: Assignment): Assignment {
    a.(resourcePath := NormalizeResourcePath(a.resourcePath), roleCode := Fold(a.roleCode))
  }

  function Taking(resource: string, now: int): Assignment -> bool {
    a => Counts(a, resource, now)
  }

  /** The assignments that take part, normalized, in their given order. */
  function Live(assignments: seq<Assignment>, resource: string, now: int): seq<Assignment> {
    FilterMap(assignments, Taking(resource, now), Normal)
  }

  function DistinctRoles(live: seq<Assignment>): seq<string> {
    if live == [] then []
    else
      var n := |live| - 1;
      var before := DistinctRoles(live[..n]);
      if live[n].roleCode in before then before else before + [live[n].roleCode]
  }

  /** The path of the first assignment of greatest length. */
  function LongestPath(live: seq<Assignment>): string {
    if live == [] then ""
    else
      var n := |live| - 1;
      var before := LongestPath(live[..n]);
      if before == "" || ByteLen(live[n].resourcePath) > ByteLen(before) then live[n].resourcePath else before
  }

  function LatestExpiry(live: seq<Assignment>): Option<int> {
    if live == [] then None
    else
      var n := |live| - 1;
      var before := LatestExpiry(live[..n]);
      if live[n].expiresAt.Some? && (before.None? || live[n].expiresAt.value > before.value)
      then live[n].expiresAt else before
  }

  function InheritedFrom(live: seq<Assignment>, resource: string): string {
    var longest := LongestPath(live);
    if longest == resource then "" else longest
  }

  ghost predicate LiveGrants(live: seq<Assignment>, action: string) {
    exists i :: 0 <= i < |live| && Granted(RolePermissions(live[i].roleCode), action)
  }

  ghost function Permits(live: seq<Assignment>): map<string, bool> {
    map a <- EmptyPermissionSet().Keys :: LiveGrants(live, a)
  }

  function Source(assignments: seq<Assignment>, path: string, now: int): string {
    InheritedFrom(Live(assignments, NormalizeResourcePath(path), now), NormalizeResourcePath(path))
  }

  ghost function Resolution(assignments: seq<Assignment>, resourcePath: string, now: int): Result {
    var resource := NormalizeResourcePath(resourcePath);
    var live := Live(assignments, resource, now);
    Result(resource, DistinctRoles(live), Permits(live), Source(assignments, resourcePath, now), LatestExpiry(live), live)
  }

  lemma LiveNext(assignments: seq<Assignment>, i: nat, resource: string, now: int)
    requires i < |assignments|
    ensures Live(assignments[..i + 1], resource, now) == Live(assignments[..i], resource, now)
              + (if Counts(assignments[i], resource, now) then [Normal(assignments[i])] else [])
  {
    assert assignments[..i + 1][..i] == assignments[..i];
  }

  lemma SummaryNext(live: seq<Assignment>, a: Assignment)
    ensures DistinctRoles(live + [a]) == var before := DistinctRoles(live);
                                         if a.roleCode in before then before else before + [a.roleCode]
    ensures LongestPath(live + [a]) ==
              var before := LongestPath(live);
              if before == "" || ByteLen(a.resourcePath) > ByteLen(before) then a.resourcePath else before
    ensures LatestExpiry(live + [a]) ==
              var before := LatestExpiry(live);
              if a.expiresAt.Some? && (before.None? || a.expiresAt.value > before.value) then a.expiresAt else before
  {
    assert (live + [a])[..|live|] == live;
  }

  lemma PermitsNone()
    ensures EmptyPermissionSet() == Permits([])
  {
    assert forall a :: !LiveGrants([], a);
  }

  method AddRole(permissions: map<string, bool>, assignment: Assignment, ghost live: seq<Assignment>)
    returns (merged: map<string, bool>)
    requires permissions == Permits(live)
    ensures merged == Permits(live + [assignment])
  {
    merged := MergePermissionSets([permissions, RolePermissions(assignment.roleCode)]);
    PermitsNext(live, assignment, merged);
  }

  /** Go's Resolve. `clock` is the time read when the caller passes the zero time. */
  method Resolve(assignments: seq<Assignment>, resourcePath: string, now: int, clock: int) returns (result: Result)
    ensures result == Resolution(assignments, resourcePath, if now == ZERO_TIME then clock else now)
  {
    var resource := NormalizeResourcePath(resourcePath);
    var at := if now == ZERO_TIME then clock else now;
    var permissions := EmptyPermissionSet();
    var roleCodes: seq<string> := [];
    var inheritedFrom := "";
    var expiresAt: Option<int> := None;
    var taken: seq<Assignment> := [];
    PermitsNone();
    for i := 0 to |assignments|
      invariant taken == Live(assignments[..i], resource, at)
      invariant roleCodes == DistinctRoles(taken)
      invariant permissions == Permits(taken)
      invariant inheritedFrom == LongestPath(taken)
      invariant expiresAt == LatestExpiry(taken)
    {
      LiveNext(assignments, i, resource, at);
      var assignment := assignments[i];
      assignment := assignment.(resourcePath := NormalizeResourcePath(assignment.resourcePath));
      assignment := assignment.(roleCode := Fold(assignment.roleCode));
      if !IsValidRoleCode(assignment.roleCode) {
        continue;
      }
      if assignment.expiresAt.Some? && assignment.expiresAt.value <= at {
        continue;
      }
      if !PathApplies(assignment.resourcePath, resource) {
        continue;
      }
      SummaryNext(taken, assignment);
      permissions := AddRole(permissions, assignment, taken);
      taken := taken + [assignment];
      if assignment.roleCode !in roleCodes {
        roleCodes := roleCodes + [assignment.roleCode];
      }
      if inheritedFrom == "" || ByteLen(assignment.resourcePath) > ByteLen(inheritedFrom) {
        inheritedFrom := assignment.resourcePath;
      }
      if assignment.expiresAt.Some? && (expiresAt.None? || assignment.expiresAt.value > expiresAt.value) {
        expiresAt := assignment.expiresAt;
      }
    }
    assert assignments[..|assignments|] == assignments;
    if inheritedFrom == resource {
      inheritedFrom := "";
    }
    result := Result(resource, roleCodes, permissions, inheritedFrom, expiresAt, taken);
  }

  /** Merging two sets whose granted keys are plain action names joins them. */
  lemma MergeJoins(p: map<string, bool>, q: map<string, bool>, merged: map<string, bool>)
    requires forall k :: Granted(p, k) || Granted(q, k) ==> IsAction(k)
    requires forall a :: a in merged <==> IsAction(a) || SomeGrants([p, q], a)
    requires forall a :: Granted(merged, a) <==> SomeGrants([p, q], a)
    ensures forall a :: a in merged <==> IsAction(a)
    ensures forall a :: Granted(merged, a) <==> Granted(p, a) || Granted(q, a)
  {
    var sets := [p, q];
    PlainGrants(p);
    PlainGrants(q);
    forall a
      ensures SomeGrants(sets, a) <==> GrantsAs(p, a) || GrantsAs(q, a)
    {
      assert sets[0] == p && sets[1] == q;
    }
  }

  lemma PlainGrants(p: map<string, bool>)
    requires forall k :: Granted(p, k) ==> IsAction(k)
    ensures forall a :: GrantsAs(p, a) <==> Granted(p, a)
  {
    forall a
      ensures GrantsAs(p, a) <==> Granted(p, a)
    {
      if GrantsAs(p, a) {
        var k :| k in p.Keys && Granted(p, k) && Fold(k) == a;
        ActionFolds(k);
      }
      if Granted(p, a) {
        ActionFolds(a);
        assert a in p.Keys;
      }
    }
  }

  lemma RoleGrantsActions(role: string)
    ensures forall k :: Granted(RolePermissions(role), k) ==> IsAction(k)
  {
  }

  lemma PermitsMeaning(live: seq<Assignment>)
    ensures forall a :: a in Permits(live) <==> IsAction(a)
    ensures forall a :: Granted(Permits(live), a) <==> LiveGrants(live, a)
  {
    forall a | LiveGrants(live, a)
      ensures IsAction(a)
    {
      var i :| 0 <= i < |live| && Granted(RolePermissions(live[i].roleCode), a);
      RoleGrantsActions(live[i].roleCode);
    }
  }

  lemma LiveGrantsNext(live: seq<Assignment>, a: Assignment, action: string)
    ensures LiveGrants(live + [a], action) <==> LiveGrants(live, action) || Granted(RolePermissions(a.roleCode), action)
  {
    var next := live + [a];
    if LiveGrants(live, action) {
      var i :| 0 <= i < |live| && Granted(RolePermissions(live[i].roleCode), action);
      assert next[i] == live[i];
    }
    assert next[|live|] == a;
  }

  lemma PermitsNext(live: seq<Assignment>, a: Assignment, merged: map<string, bool>)
    requires forall x :: x in merged <==> IsAction(x) || SomeGrants([Permits(live), RolePermissions(a.roleCode)], x)
    requires forall x :: Granted(merged, x) <==> SomeGrants([Permits(live), RolePermissions(a.roleCode)], x)
    ensures merged == Permits(live + [a])
  {
    PermitsMeaning(live);
    PermitsMeaning(live + [a]);
    RoleGrantsActions(a.roleCode);
    MergeJoins(Permits(live), RolePermissions(a.roleCode), merged);
    forall x | x in merged
      ensures merged[x] == Permits(live + [a])[x]
    {
      LiveGrantsNext(live, a, x);
      assert merged[x] <==> Granted(merged, x);
      assert Permits(live + [a])[x] <==> Granted(Permits(live + [a]), x);
    }
    assert merged.Keys == Permits(live + [a]).Keys;
  }

  // ---------------------------------------------- what a resolution means

  lemma LiveMembers(assignments: seq<Assignment>, resource: string, now: int)
    ensures forall a :: a in assignments && Counts(a, resource, now) ==> Normal(a) in Live(assignments, resource, now)
    ensures forall x :: x in Live(assignments, resource, now) ==>
              exists a :: a in assignments && Counts(a, resource, now) && Normal(a) == x
  {
    FilterMapMembers(assignments, Taking(resource, now), Normal);
  }

  /** The assignments of a resolution are, in normal form, those with one of the four roles that
      have not expired and stand at or above the resource. */
  lemma TakesPartExactlyWhen(assignments: seq<Assignment>, path: string, now: int, x: Assignment)
    ensures x in Resolution(assignments, path, now).assignments <==>
              exists a :: a in assignments && TakesPart(a, path, now, x)
  {
    var resource := NormalizeResourcePath(path);
    LiveMembers(assignments, resource, now);
    forall a | a in assignments
      ensures TakesPart(a, path, now, x) <==> Counts(a, resource, now) && Normal(a) == x
    {
      FoldIdempotent(a.roleCode);
    }
  }

  ghost predicate TakesPart(a: Assignment, path: string, now: int, x: Assignment) {
    var role := Fold(a.roleCode);
    && (role == "owner" || role == "admin" || role == "member" || role == "viewer")
    && (a.expiresAt.None? || a.expiresAt.value > now)
    && PathApplies(NormalizeResourcePath(a.resourcePath), NormalizeResourcePath(path))
    && x == a.(resourcePath := NormalizeResourcePath(a.resourcePath), roleCode := role)
  }

  /** An assignment that has expired may be taken out without changing the resolution. */
  lemma ExpiredMayGo(before: seq<Assignment>, a: Assignment, after: seq<Assignment>, path: string, now: int)
    requires a.expiresAt.Some? && a.expiresAt.value <= now
    ensures Resolution(before + [a] + after, path, now) == Resolution(before + after, path, now)
  {
    var taking := Taking(NormalizeResourcePath(path), now);
    FilterMapConcat(before + [a], after, taking, Normal);
    FilterMapConcat(before, [a], taking, Normal);
    FilterMapConcat(before, after, taking, Normal);
    NotTaken(a, taking);
  }

  lemma NotTaken(a: Assignment, taking: Assignment -> bool)
    requires !taking(a)
    ensures FilterMap([a], taking, Normal) == []
  {
    assert [a][..0] == [];
  }

  lemma {:induction false} DistinctRolesExact(live: seq<Assignment>)
    ensures forall role :: role in DistinctRoles(live) <==> exists x :: x in live && x.roleCode == role
    ensures Distinct(DistinctRoles(live))
  {
    if live != [] {
      var n := |live| - 1;
      DistinctRolesExact(live[..n]);
      assert live == live[..n] + [live[n]];
    }
  }

  lemma {:induction false} LatestExpiryExact(live: seq<Assignment>)
    ensures LatestExpiry(live).None? <==> forall x :: x in live ==> x.expiresAt.None?
    ensures LatestExpiry(live).Some? ==>
              && (exists x :: x in live && x.expiresAt == LatestExpiry(live))
              && forall x :: x in live && x.expiresAt.Some? ==> x.expiresAt.value <= LatestExpiry(live).value
  {
    if live != [] {
      var n := |live| - 1;
      LatestExpiryExact(live[..n]);
      assert live == live[..n] + [live[n]];
      assert live[n] in live;
    }
  }

  lemma {:induction false} LongestPathExact(live: seq<Assignment>)
    requires forall x :: x in live ==> x.resourcePath != ""
    ensures live == [] <==> LongestPath(live) == ""
    ensures live != [] ==> exists x :: x in live && x.resourcePath == LongestPath(live)
    ensures forall x :: x in live ==> ByteLen(x.resourcePath) <= ByteLen(LongestPath(live))
  {
    if live != [] {
      var n := |live| - 1;
      LongestPathExact(live[..n]);
      assert live == live[..n] + [live[n]];
      assert live[n] in live;
    }
  }

  // What each field of a resolution says about the assignments it was given.

  /** Some assignment that takes part has a role with that action. */
  ghost predicate TakingGrants(assignments: seq<Assignment>, resource: string, now: int, action: string) {
    exists a :: a in assignments && Counts(a, resource, now) && Granted(RolePermissions(Fold(a.roleCode)), action)
  }

  lemma LiveGrantsMeaning(assignments: seq<Assignment>, resource: string, now: int, action: string)
    ensures LiveGrants(Live(assignments, resource, now), action) <==> TakingGrants(assignments, resource, now, action)
  {
    var live := Live(assignments, resource, now);
    LiveMembers(assignments, resource, now);
    if LiveGrants(live, action) {
      var i :| 0 <= i < |live| && Granted(RolePermissions(live[i].roleCode), action);
      assert live[i] in live;
    }
    if a :| a in assignments && Counts(a, resource, now) && Granted(RolePermissions(Fold(a.roleCode)), action) {
      var x := Normal(a);
      assert x in live;
    }
  }

  lemma PermitsTaking(assignments: seq<Assignment>, resource: string, now: int, permissions: map<string, bool>)
    requires permissions == Permits(Live(assignments, resource, now))
    ensures forall a :: a in permissions <==> IsAction(a)
    ensures forall action :: Granted(permissions, action) <==> TakingGrants(assignments, resource, now, action)
  {
    PermitsMeaning(Live(assignments, resource, now));
    forall action
      ensures Granted(permissions, action) <==> TakingGrants(assignments, resource, now, action)
    {
      LiveGrantsMeaning(assignments, resource, now, action);
    }
  }

  /** An action is permitted exactly when some assignment that takes part has a role
      with that action. */
  lemma PermissionsMeaning(assignments: seq<Assignment>, path: string, now: int)
    ensures var r := Resolution(assignments, path, now);
            && (forall a :: a in r.permissions <==> IsAction(a))
            && (forall action :: Granted(r.permissions, action) <==> TakingGrants(assignments, r.resourcePath, now, action))
  {
    var r := Resolution(assignments, path, now);
    PermitsTaking(assignments, r.resourcePath, now, r.permissions);
  }

  /** The roles are those of the assignments that take part, each listed once. */
  lemma RolesMeaning(assignments: seq<Assignment>, path: string, now: int)
    ensures var r := Resolution(assignments, path, now);
            && (forall role :: role in r.roleCodes <==>
                  exists a :: a in assignments && Counts(a, r.resourcePath, now) && Fold(a.roleCode) == role)
            && Distinct(r.roleCodes)
  {
    var resource := NormalizeResourcePath(path);
    var live := Live(assignments, resource, now);
    DistinctRolesExact(live);
    LiveMembers(assignments, resource, now);
    forall a | a in assignments && Counts(a, resource, now)
      ensures Fold(a.roleCode) in DistinctRoles(live)
    {
      assert Normal(a) in live;
    }
  }

  /** The expiry is the latest of those that take part. */
  lemma ExpiryMeaning(assignments: seq<Assignment>, path: string, now: int)
    ensures var r := Resolution(assignments, path, now);
            && (r.expiresAt.None? <==>
                  forall a :: a in assignments && Counts(a, r.resourcePath, now) ==> a.expiresAt.None?)
            && (r.expiresAt.Some? ==>
                  && (exists a :: a in assignments && Counts(a, r.resourcePath, now) && a.expiresAt == r.expiresAt)
                  && forall a :: a in assignments && Counts(a, r.resourcePath, now) && a.expiresAt.Some? ==>
                       a.expiresAt.value <= r.expiresAt.value)
  {
    var resource := NormalizeResourcePath(path);
    var live := Live(assignments, resource, now);
    LatestExpiryExact(live);
    LiveMembers(assignments, resource, now);
    forall a | a in assignments && Counts(a, resource, now)
      ensures Normal(a) in live
    {
    }
  }

  /** An assignment that takes part stands on the path, and none that does stands on
      a longer one. */
  ghost predicate LongestTaking(assignments: seq<Assignment>, resource: string, now: int, path: string) {
    && (exists a :: a in assignments && Counts(a, resource, now) && NormalizeResourcePath(a.resourcePath) == path)
    && (forall a :: a in assignments && Counts(a, resource, now) ==>
          ByteLen(NormalizeResourcePath(a.resourcePath)) <= ByteLen(path))
  }

  /** The source is a longest path of those that take part; it is left out when that
      is the resource itself, or when nothing takes part. */
  lemma SourceMeaning(assignments: seq<Assignment>, path: string, now: int)
    ensures var r := Resolution(assignments, path, now);
            if r.inheritedFrom != ""
            then r.inheritedFrom != r.resourcePath && LongestTaking(assignments, r.resourcePath, now, r.inheritedFrom)
            else || LongestTaking(assignments, r.resourcePath, now, r.resourcePath)
                 || forall a :: a in assignments ==> !Counts(a, r.resourcePath, now)
  {
    var r := Resolution(assignments, path, now);
    var longest := LongestPath(r.assignments);
    LongestOfTaking(assignments, r.resourcePath, now, longest);
  }

  lemma LongestOfTaking(assignments: seq<Assignment>, resource: string, now: int, longest: string)
    requires longest == LongestPath(Live(assignments, resource, now))
    ensures if longest != "" then LongestTaking(assignments, resource, now, longest)
            else forall a :: a in assignments ==> !Counts(a, resource, now)
  {
    var live := Live(assignments, resource, now);
    LivePathsNotEmpty(assignments, resource, now);
    LongestPathExact(live);
    if longest != "" {
      LongestOfLive(assignments, resource, now, longest);
    } else {
      LiveMembers(assignments, resource, now);
      forall a | a in assignments
        ensures !Counts(a, resource, now)
      {
        assert Counts(a, resource, now) ==> Normal(a) in live;
      }
    }
  }

  lemma LongestOfLive(assignments: seq<Assignment>, resource: string, now: int, path: string)
    requires exists x :: x in Live(assignments, resource, now) && x.resourcePath == path
    requires forall x :: x in Live(assignments, resource, now) ==> ByteLen(x.resourcePath) <= ByteLen(path)
    ensures LongestTaking(assignments, resource, now, path)
  {
    var live := Live(assignments, resource, now);
    LiveMembers(assignments, resource, now);
    var x :| x in live && x.resourcePath == path;
    var a :| a in assignments && Counts(a, resource, now) && Normal(a) == x;
    forall b | b in assignments && Counts(b, resource, now)
      ensures ByteLen(NormalizeResourcePath(b.resourcePath)) <= ByteLen(path)
    {
      assert Normal(b) in live;
    }
  }

  /** Permissions, roles and expiry depend on which assignments there are, not on
      their order or on how often one is listed. */
  lemma ResolutionIgnoresOrder(these: seq<Assignment>, those: seq<Assignment>, path: string, now: int)
    requires SameMembers(these, those)
    ensures var r, q := Resolution(these, path, now), Resolution(those, path, now);
            && r.permissions == q.permissions
            && r.expiresAt == q.expiresAt
            && SameMembers(r.roleCodes, q.roleCodes)
            && |r.roleCodes| == |q.roleCodes|
  {
    var resource := NormalizeResourcePath(path);
    LiveSameMembers(these, those, resource, now);
    SummaryIgnoresOrder(Live(these, resource, now), Live(those, resource, now));
  }

  lemma SummaryIgnoresOrder(l: seq<Assignment>, m: seq<Assignment>)
    requires SameMembers(l, m)
    ensures Permits(l) == Permits(m)
    ensures LatestExpiry(l) == LatestExpiry(m)
    ensures SameMembers(DistinctRoles(l), DistinctRoles(m))
    ensures |DistinctRoles(l)| == |DistinctRoles(m)|
  {
    LatestExpiryExact(l);
    LatestExpiryExact(m);
    DistinctRolesExact(l);
    DistinctRolesExact(m);
    SameSizeWhenDistinct(DistinctRoles(l), DistinctRoles(m));
    PermitsIgnoresOrder(l, m);
  }

  lemma PermitsIgnoresOrder(l: seq<Assignment>, m: seq<Assignment>)
    requires SameMembers(l, m)
    ensures Permits(l) == Permits(m)
  {
    forall a
      ensures LiveGrants(l, a) <==> LiveGrants(m, a)
    {
      if LiveGrants(l, a) { LiveGrantsMember(l, m, a); }
      if LiveGrants(m, a) { LiveGrantsMember(m, l, a); }
    }
  }

  lemma LiveGrantsMember(l: seq<Assignment>, m: seq<Assignment>, action: string)
    requires SameMembers(l, m) && LiveGrants(l, action)
    ensures LiveGrants(m, action)
  {
    var i :| 0 <= i < |l| && Granted(RolePermissions(l[i].roleCode), action);
    assert l[i] in m;
  }

  // --------------------------------------------------- where rights come from

  /** Of the assignments that take part, the longest all name the same path. */
  ghost predicate LongestAgree(live: seq<Assignment>) {
    forall x, y :: x in live && y in live && IsLongest(x, live) && IsLongest(y, live) ==> x.resourcePath == y.resourcePath
  }

  ghost predicate IsLongest(x: Assignment, live: seq<Assignment>) {
    forall y :: y in live ==> ByteLen(y.resourcePath) <= ByteLen(x.resourcePath)
  }

  lemma LivePathsNotEmpty(assignments: seq<Assignment>, resource: string, now: int)
    ensures forall x :: x in Live(assignments, resource, now) ==> x.resourcePath != ""
  {
    LiveMembers(assignments, resource, now);
    forall x | x in Live(assignments, resource, now)
      ensures x.resourcePath != ""
    {
      var a :| a in assignments && Counts(a, resource, now) && Normal(a) == x;
      assert NormalizeResourcePath("") == "";
    }
  }

  lemma {:induction false} LongestFirstWins(live: seq<Assignment>)
    requires live != [] && IsLongest(live[0], live) && live[0].resourcePath != ""
    ensures LongestPath(live) == live[0].resourcePath
  {
    var n := |live| - 1;
    if n == 0 {
      assert live[..0] == [];
    } else {
      forall y | y in live[..n]
        ensures y in live
      {
      }
      LongestFirstWins(live[..n]);
      assert live[n] in live;
    }
  }

  lemma LiveToFront(assignments: seq<Assignment>, i: nat, resource: string, now: int)
    requires i < |assignments| && Counts(assignments[i], resource, now)
    ensures var live := Live(ToFront(assignments, i), resource, now);
            live != [] && live[0] == Normal(assignments[i])
  {
    FilterMapToFront(assignments, i, Taking(resource, now), Normal);
  }

  /** Everything in a resolution but the order of its lists depends on the set of
      assignments alone. */
  lemma LiveSameMembers(these: seq<Assignment>, those: seq<Assignment>, resource: string, now: int)
    requires SameMembers(these, those)
    ensures SameMembers(Live(these, resource, now), Live(those, resource, now))
  {
    LiveMembers(these, resource, now);
    LiveMembers(those, resource, now);
  }

  /** Moving an assignment of greatest length to the front makes it the source. */
  lemma FrontRunner(assignments: seq<Assignment>, i: nat, resource: string, now: int)
    requires i < |assignments| && Counts(assignments[i], resource, now)
    requires IsLongest(Normal(assignments[i]), Live(assignments, resource, now))
    ensures LongestPath(Live(ToFront(assignments, i), resource, now)) == Normal(assignments[i]).resourcePath
  {
    var order := ToFront(assignments, i);
    ToFrontPermutes(assignments, i);
    LiveToFront(assignments, i, resource, now);
    LiveSameMembers(order, assignments, resource, now);
    LivePathsNotEmpty(order, resource, now);
    var live := Live(order, resource, now);
    assert live[0] in live;
    LongestFirstWins(live);
  }

  /** The reported source of inherited rights is the same for every order of the
      assignments exactly when the longest paths taking part agree. */
  lemma InheritedFromIgnoresOrder(assignments: seq<Assignment>, path: string, now: int)
    ensures LongestAgree(Live(assignments, NormalizeResourcePath(path), now)) <==>
            forall order :: multiset(order) == multiset(assignments) ==> Source(order, path, now) == Source(assignments, path, now)
  {
    var live := Live(assignments, NormalizeResourcePath(path), now);
    if LongestAgree(live) {
      forall order | multiset(order) == multiset(assignments)
        ensures Source(order, path, now) == Source(assignments, path, now)
      {
        AgreeingSources(order, assignments, path, now);
      }
    } else {
      var these, those := DisagreeingOrders(assignments, path, now);
    }
  }

  lemma AgreeingSources(order: seq<Assignment>, assignments: seq<Assignment>, path: string, now: int)
    requires multiset(order) == multiset(assignments)
    requires LongestAgree(Live(assignments, NormalizeResourcePath(path), now))
    ensures Source(order, path, now) == Source(assignments, path, now)
  {
    var resource := NormalizeResourcePath(path);
    PermutedMembers(order, assignments);
    LiveSameMembers(order, assignments, resource, now);
    LivePathsNotEmpty(assignments, resource, now);
    SameLongest(Live(order, resource, now), Live(assignments, resource, now));
  }

  lemma DisagreeingOrders(assignments: seq<Assignment>, path: string, now: int)
    returns (these: seq<Assignment>, those: seq<Assignment>)
    requires !LongestAgree(Live(assignments, NormalizeResourcePath(path), now))
    ensures multiset(these) == multiset(those) == multiset(assignments)
    ensures Source(these, path, now) != Source(those, path, now)
  {
    var resource := NormalizeResourcePath(path);
    var i, j := Disagreement(assignments, resource, now);
    these, those := ToFront(assignments, i), ToFront(assignments, j);
    ToFrontPermutes(assignments, i);
    ToFrontPermutes(assignments, j);
    FrontRunner(assignments, i, resource, now);
    FrontRunner(assignments, j, resource, now);
    DifferentSources(Live(these, resource, now), Live(those, resource, now), resource);
  }

  lemma DifferentSources(l: seq<Assignment>, m: seq<Assignment>, resource: string)
    requires LongestPath(l) != "" && LongestPath(m) != "" && LongestPath(l) != LongestPath(m)
    ensures InheritedFrom(l, resource) != InheritedFrom(m, resource)
  {
  }

  lemma Disagreement(assignments: seq<Assignment>, resource: string, now: int) returns (i: nat, j: nat)
    requires !LongestAgree(Live(assignments, resource, now))
    ensures i < |assignments| && Counts(assignments[i], resource, now)
    ensures j < |assignments| && Counts(assignments[j], resource, now)
    ensures IsLongest(Normal(assignments[i]), Live(assignments, resource, now))
    ensures IsLongest(Normal(assignments[j]), Live(assignments, resource, now))
    ensures Normal(assignments[i]).resourcePath != Normal(assignments[j]).resourcePath
    ensures Normal(assignments[i]).resourcePath != "" && Normal(assignments[j]).resourcePath != ""
  {
    var live := Live(assignments, resource, now);
    LiveMembers(assignments, resource, now);
    LivePathsNotEmpty(assignments, resource, now);
    var x, y :| x in live && y in live && IsLongest(x, live) && IsLongest(y, live) && x.resourcePath != y.resourcePath;
    var a :| a in assignments && Counts(a, resource, now) && Normal(a) == x;
    var b :| b in assignments && Counts(b, resource, now) && Normal(b) == y;
    i :| 0 <= i < |assignments| && assignments[i] == a;
    j :| 0 <= j < |assignments| && assignments[j] == b;
  }

  lemma SameLongest(l: seq<Assignment>, m: seq<Assignment>)
    requires SameMembers(l, m) && LongestAgree(m)
    requires forall x :: x in m ==> x.resourcePath != ""
    ensures LongestPath(l) == LongestPath(m)
  {
    LongestPathExact(l);
    LongestPathExact(m);
    if m == [] {
      assert forall x :: x !in l;
    } else {
      assert m[0] in l;
      var x :| x in l && x.resourcePath == LongestPath(l);
      var y :| y in m && y.resourcePath == LongestPath(m);
      assert IsLongest(x, m) && IsLongest(y, m);
    }
  }

  /** A path that normalizing leaves alone once it has been normalized. */
  predicate Settled(path: string) {
    NormalizeResourcePath(NormalizeResourcePath(path)) == NormalizeResourcePath(path)
  }

  lemma PrefixesOfOneLength(a: string, b: string, whole: string)
    requires a <= whole && b <= whole && ByteLen(a) == ByteLen(b)
    ensures a == b
  {
    var m := if |a| < |b| then |a| else |b|;
    ByteLenConcat(a[..m], a[m..]);
    ByteLenConcat(b[..m], b[m..]);
    assert a == a[..m] + a[m..] && b == b[..m] + b[m..] && a[..m] == b[..m];
  }

  /** Assignments on settled paths always agree on the longest one. */
  lemma SettledPathsAgree(assignments: seq<Assignment>, resource: string, now: int)
    requires forall a :: a in assignments ==> Settled(a.resourcePath)
    ensures LongestAgree(Live(assignments, resource, now))
  {
    forall x | x in Live(assignments, resource, now)
      ensures x.resourcePath <= NormalizeResourcePath(resource)
    {
      SettledPathIsPrefix(assignments, resource, now, x);
    }
    SamePathIfLongest(Live(assignments, resource, now), NormalizeResourcePath(resource));
  }

  lemma SettledPathIsPrefix(assignments: seq<Assignment>, resource: string, now: int, x: Assignment)
    requires forall a :: a in assignments ==> Settled(a.resourcePath)
    requires x in Live(assignments, resource, now)
    ensures x.resourcePath <= NormalizeResourcePath(resource)
  {
    LiveMembers(assignments, resource, now);
    var a :| a in assignments && Counts(a, resource, now) && Normal(a) == x;
    AppliesFromAbove(x.resourcePath, resource);
  }

  lemma AppliesFromAbove(p: string, r: string)
    requires PathApplies(p, r) && NormalizeResourcePath(p) == p
    ensures p <= NormalizeResourcePath(r)
  {
  }

  lemma SamePathIfLongest(live: seq<Assignment>, whole: string)
    requires forall x :: x in live ==> x.resourcePath <= whole
    ensures LongestAgree(live)
  {
    forall x, y | x in live && y in live && IsLongest(x, live) && IsLongest(y, live)
      ensures x.resourcePath == y.resourcePath
    {
      PrefixesOfOneLength(x.resourcePath, y.resourcePath, whole);
    }
  }

  lemma NormalizeOf(path: string, left: string, core: string, right: string)
    requires path == left + core + right
    requires forall c :: c in left || c in right ==> IsSlash(c)
    requires core != "" && !IsSlash(core[0]) && !IsSlash(core[|core| - 1])
    requires TrimSpace(path) == path
    ensures NormalizeResourcePath(path) == "/" + core
  {
    TrimOf(left, core, right, IsSlash);
  }

  /** "a", one character `pad` of white space and a slash: the slash shields the
      white space from the first trimming, but not from the second. */
  lemma PaddedOnce(pad: char)
    requires IsSpace(pad)
    ensures NormalizeResourcePath("a" + [pad] + "/") == "/a" + [pad]
  {
    var core := "a" + [pad];
    var path := core + "/";
    assert path[0] == 'a' && path[|path| - 1] == '/';
    assert TrimSpace(path) == path;
    assert path == "" + core + "/";
    NormalizeOf(path, "", core, "/");
    assert "/" + core == "/a" + [pad];
  }

  lemma PaddedTwice(pad: char)
    requires IsSpace(pad)
    ensures NormalizeResourcePath("/a" + [pad]) == "/a"
  {
    TrimOf("", "/a", [pad], IsSpace);
    assert "" + "/a" + [pad] == "/a" + [pad];
    TrimOuterSlash("a");
    assert "/" + "a" == "/a";
  }

  lemma PaddedCounts(a: Assignment, pad: char, now: int)
    requires IsSpace(pad) && a.resourcePath == "a" + [pad] + "/"
    requires Fold(a.roleCode) == "viewer" && Fold("viewer") == "viewer" && a.expiresAt.None?
    requires NormalizeResourcePath("/a/b") == "/a/b"
    ensures Counts(a, "/a/b", now) && Normal(a).resourcePath == "/a" + [pad]
  {
    PaddedOnce(pad);
    PaddedApplies(NormalizeResourcePath(a.resourcePath), pad);
  }

  lemma PaddedApplies(path: string, pad: char)
    requires IsSpace(pad) && path == "/a" + [pad] && NormalizeResourcePath("/a/b") == "/a/b"
    ensures PathApplies(path, "/a/b")
  {
    PaddedTwice(pad);
    assert HasPrefix("/a/b", "/a" + "/");
  }

  /** Two grants on paths that are not settled, "a /" and the same with a tab: the
      source reported for a resource below them depends on which comes first. */
  lemma UnsettledPathsDisagree(space: Assignment, tab: Assignment, now: int)
    requires space.resourcePath == "a" + [' '] + "/" && tab.resourcePath == "a" + ['\t'] + "/"
    requires space.roleCode == tab.roleCode == "viewer" && space.expiresAt == tab.expiresAt == None
    ensures Source([space, tab], "/a/b", now) == "/a" + [' ']
    ensures Source([tab, space], "/a/b", now) == "/a" + ['\t']
  {
    PlainFolds("viewer");
    PlainPath();
    PaddedCounts(space, ' ', now);
    PaddedCounts(tab, '\t', now);
    PaddedBytes(' ');
    PaddedBytes('\t');
    TwoOfOneLength(space, tab, "/a/b", now);
    TwoOfOneLength(tab, space, "/a/b", now);
  }

  lemma PlainPath()
    ensures NormalizeResourcePath("/a/b") == "/a/b"
  {
    TrimOuterSlash("a/b");
    assert "/" + "a/b" == "/a/b";
  }

  lemma TwoOfOneLength(a: Assignment, b: Assignment, resource: string, now: int)
    requires NormalizeResourcePath(resource) == resource
    requires Counts(a, resource, now) && Counts(b, resource, now)
    requires ByteLen(Normal(a).resourcePath) == ByteLen(Normal(b).resourcePath)
    requires Normal(a).resourcePath != "" && Normal(a).resourcePath != resource
    ensures Source([a, b], resource, now) == Normal(a).resourcePath
  {
    FilterMapPair(a, b, x => Counts(x, resource, now), Normal);
    FirstOfTwo(Normal(a), Normal(b));
  }

  lemma FirstOfTwo(x: Assignment, y: Assignment)
    requires ByteLen(x.resourcePath) == ByteLen(y.resourcePath) && x.resourcePath != ""
    ensures LongestPath([x, y]) == x.resourcePath
  {
    LongestFirstWins([x, y]);
  }

  lemma PaddedBytes(pad: char)
    requires pad < '\U{80}'
    ensures ByteLen("/a" + [pad]) == ByteLen("/a") + 1
  {
    ByteLenConcat("/a", [pad]);
  }

  // ------------------------------------------------------------ monotonicity

  /** Rights resolved at an ancestor, and at a later moment, hold at a descendant
      at an earlier one: descending only adds assignments, time only removes them. */
  lemma RightsFlowDown(assignments: seq<Assignment>, above: string, below: string, later: int, earlier: int, action: string)
    requires PathApplies(NormalizeResourcePath(above), NormalizeResourcePath(below))
    requires earlier <= later
    requires Granted(Resolution(assignments, above, later).permissions, action)
    ensures Granted(Resolution(assignments, below, earlier).permissions, action)
  {
    PermissionsMeaning(assignments, above, later);
    PermissionsMeaning(assignments, below, earlier);
    var a :| a in assignments && Counts(a, NormalizeResourcePath(above), later)
             && Granted(RolePermissions(Fold(a.roleCode)), action);
    PathAppliesTransitive(NormalizeResourcePath(a.resourcePath), NormalizeResourcePath(above), NormalizeResourcePath(below));
    assert Counts(a, NormalizeResourcePath(below), earlier);
  }

  // ------------------------------------------------------------ role coverage

  lemma CoveringNeedsRank(perms: map<string, bool>, role: string)
    requires IsRole(role)
    ensures CoversRole(perms, role) <==>
            forall action :: IsAction(action) && Granted(RolePermissions(role), action) ==> HasPermission(perms, action)
  {
    ActionFolds(role);
    RoleGrantsActions(role);
  }

  lemma HasPlainPermission(perms: map<string, bool>, action: string)
    requires IsAction(action)
    ensures HasPermission(perms, action) <==>
            Granted(perms, "owner") || (action != "owner" && Granted(perms, "admin")) || Granted(perms, action)
  {
    ActionFolds(action);
  }

  /** The action only roles of at least a given rank carry. */
  function KeyAction(role: string): string {
    if role == "owner" then "owner"
    else if role == "admin" then "admin"
    else if role == "member" then "write"
    else "read"
  }

  lemma KeyActionRank(holder: string, role: string)
    requires IsRole(holder) && IsRole(role)
    ensures Granted(RolePermissions(holder), KeyAction(role)) <==> Rank(holder) >= Rank(role)
  {
    RoleGrantsByRank(holder, KeyAction(role));
  }

  lemma HigherRoleHasAll(perms: map<string, bool>, holder: string, role: string)
    requires IsRole(holder) && IsRole(role) && Rank(holder) >= Rank(role)
    requires forall action :: Granted(RolePermissions(holder), action) ==> Granted(perms, action)
    ensures CoversRole(perms, role)
  {
    CoveringNeedsRank(perms, role);
    forall action | IsAction(action) && Granted(RolePermissions(role), action)
      ensures HasPermission(perms, action)
    {
      RoleGrantsByRank(role, action);
      RoleGrantsByRank(holder, action);
      HasPlainPermission(perms, action);
    }
  }

  lemma CoveringHasKeyAction(perms: map<string, bool>, role: string)
    requires IsRole(role) && CoversRole(perms, role)
    ensures Granted(perms, "owner") || (role != "owner" && Granted(perms, "admin")) || Granted(perms, KeyAction(role))
  {
    CoveringNeedsRank(perms, role);
    RoleGrantsByRank(role, KeyAction(role));
    HasPlainPermission(perms, KeyAction(role));
  }

  /** A resolution covers a role, however it is spelled, exactly when it is one of the four and
      one assignment that takes part has that role or a higher one: roles cannot be pieced
      together. */
  lemma CoversRoleMeaning(assignments: seq<Assignment>, path: string, now: int, role: string)
    ensures var r := Resolution(assignments, path, now);
            CoversRole(r.permissions, role) <==>
              IsValidRoleCode(role)
              && exists a :: a in assignments && Counts(a, r.resourcePath, now) && Rank(Fold(a.roleCode)) >= Rank(Fold(role))
  {
    FoldIdempotent(role);
    if IsValidRoleCode(role) { CoversPlainRole(assignments, path, now, Fold(role)); }
  }

  lemma CoversPlainRole(assignments: seq<Assignment>, path: string, now: int, role: string)
    requires IsRole(role)
    ensures var r := Resolution(assignments, path, now);
            CoversRole(r.permissions, role) <==>
              exists a :: a in assignments && Counts(a, r.resourcePath, now) && Rank(Fold(a.roleCode)) >= Rank(role)
  {
    var r := Resolution(assignments, path, now);
    PermissionsMeaning(assignments, path, now);
    if CoversRole(r.permissions, role) {
      var a := CoveringHolder(assignments, r.resourcePath, now, r.permissions, role);
    }
    if a :| a in assignments && Counts(a, r.resourcePath, now) && Rank(Fold(a.roleCode)) >= Rank(role) {
      FoldIdempotent(a.roleCode);
      HigherRoleHasAll(r.permissions, Fold(a.roleCode), role);
    }
  }

  lemma CoveringHolder(assignments: seq<Assignment>, resource: string, now: int, perms: map<string, bool>, role: string)
    returns (a: Assignment)
    requires forall action :: Granted(perms, action) <==> TakingGrants(assignments, resource, now, action)
    requires IsRole(role) && CoversRole(perms, role)
    ensures a in assignments && Counts(a, resource, now) && Rank(Fold(a.roleCode)) >= Rank(role)
  {
    CoveringHasKeyAction(perms, role);
    var action := if Granted(perms, "owner") then "owner"
                  else if role != "owner" && Granted(perms, "admin") then "admin" else KeyAction(role);
    assert TakingGrants(assignments, resource, now, action);
    a :| a in assignments && Counts(a, resource, now) && Granted(RolePermissions(Fold(a.roleCode)), action);
    FoldIdempotent(a.roleCode);
    RoleGrantsByRank(Fold(a.roleCode), action);
    KeyActionRank(Fold(a.roleCode), role);
  }

  // ------------------------------------------------------------- principals

  function NormalizePrincipal(p: Principal): Principal {
    var kind := Fold(p.kind);
    if kind == "user" then Principal(kind, Fold(p.key))
    else if kind == "department" then Principal(kind, NormalizeResourcePath(p.key))
    else Principal(kind, TrimSpace(p.key))
  }

  predicate InOrganization(path: string) {
    path == "/org" || HasPrefix(path, "/org/")
  }

  predicate IsValidPrincipal(p: Principal) {
    var q := NormalizePrincipal(p);
    q.key != "" && (q.kind == "user" || (q.kind == "department" && InOrganization(q.key)))
  }

  lemma UserPrincipal(username: string)
    ensures var p := NormalizePrincipal(Principal("user", username));
            p == Principal("user", Fold(username)) && (IsValidPrincipal(p) <==> p.key != "")
  {
    PlainFolds("user");
    FoldIdempotent(username);
  }

  /** The user, then the department and every organization above it. */
  method PrincipalsForUser(username: string, departmentPath: string) returns (principals: seq<Principal>)
    ensures principals == PrincipalList(username, departmentPath)
  {
    UserPrincipal(username);
    principals := [];
    var userPrincipal := NormalizePrincipal(Principal("user", username));
    if IsValidPrincipal(userPrincipal) {
      principals := [userPrincipal];
    }
    var department := NormalizeResourcePath(departmentPath);
    if !InOrganization(department) {
      return;
    }
    var paths := ParentPaths(department);
    principals := AppendDepartments(principals, paths);
  }

  method AppendDepartments(own: seq<Principal>, paths: seq<string>) returns (principals: seq<Principal>)
    ensures principals == own + Departments(paths)
  {
    principals := own;
    for i := 0 to |paths|
      invariant |principals| == |own| + i
      invariant forall k :: 0 <= k < |own| ==> principals[k] == own[k]
      invariant forall k :: |own| <= k < |principals| ==> principals[k] == Principal("department", paths[k - |own|])
    {
      principals := principals + [Principal("department", paths[i])];
    }
  }

  function Departments(paths: seq<string>): seq<Principal> {
    seq(|paths|, i requires 0 <= i < |paths| => Principal("department", paths[i]))
  }

  function PrincipalList(username: string, departmentPath: string): seq<Principal> {
    var own := if Fold(username) == "" then [] else [Principal("user", Fold(username))];
    var department := NormalizeResourcePath(departmentPath);
    own + if InOrganization(department) then Departments(ParentPathList(department)) else []
  }

  /** A grant to a user reaches exactly that user. */
  lemma UserGrantsReachTheUser(username: string, departmentPath: string, key: string)
    ensures Principal("user", key) in PrincipalList(username, departmentPath) <==> key != "" && key == Fold(username)
  {
    var own := if Fold(username) == "" then [] else [Principal("user", Fold(username))];
    var department := NormalizeResourcePath(departmentPath);
    var rest := if InOrganization(department) then Departments(ParentPathList(department)) else [];
    assert PrincipalList(username, departmentPath) == own + rest;
    assert Principal("user", key) !in rest;
    if key != "" && key == Fold(username) { assert own[0] == Principal("user", key); }
  }

  lemma DepartmentMembers(paths: seq<string>, key: string)
    ensures Principal("department", key) in Departments(paths) <==> key in paths
  {
    if key in paths {
      var i :| 0 <= i < |paths| && paths[i] == key;
      assert Departments(paths)[i] == Principal("department", key);
    }
  }

  /** A grant to a department in normal form reaches exactly the users whose own
      department it encloses, inside the organization. */
  lemma DepartmentGrantsReachDown(username: string, departmentPath: string, key: string)
    requires NormalizeResourcePath(key) == key
    ensures Principal("department", key) in PrincipalList(username, departmentPath) <==>
              var department := NormalizeResourcePath(departmentPath);
              (department == "/org" || HasPrefix(department, "/org/")) && PathApplies(key, department)
  {
    var department := NormalizeResourcePath(departmentPath);
    AppliesIffAncestor(key, department);
    DepartmentMembers(ParentPathList(department), key);
  }
}
