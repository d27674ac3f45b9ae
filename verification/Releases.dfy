/** Which release files a clean-up may delete (cmd/kagectl/clean.go), and which version
    number the next build takes (pkg/builder/builder.go). */
module Releases {
  import opened Strings
  import opened Numbers
  import opened Seqs
  import opened Sorting

  // -------------------------------------------------------- recorded versions

  /** The part of version.json that the clean-up reads. */
  datatype VersionData = VersionData(currentVersion: string, latestVersion: string, versions: seq<string>)

  const DEFAULT_KEEP_VERSIONS := 3

  /** Trimmed, without blanks, each string at its first place only. */
  function Unique(values: seq<string>): seq<string> {
    if values == [] then []
    else
      var n := |values| - 1;
      var before := Unique(values[..n]);
      var value := TrimSpace(values[n]);
      if value == "" || value in before then before else before + [value]
  }

  method UniqueNonEmptyStrings(values: seq<string>) returns (out: seq<string>)
    ensures out == Unique(values)
  {
    out := [];
    var seen: set<string> := {};
    for i := 0 to |values|
      invariant out == Unique(values[..i])
      invariant forall v :: v in seen <==> v in out
    {
      UniqueNext(values, i);
      var value := TrimSpace(values[i]);
      if value == "" {
        continue;
      }
      if value in seen {
        continue;
      }
      seen := seen + {value};
      out := out + [value];
    }
    assert values[..|values|] == values;
  }

  lemma UniqueNext(values: seq<string>, i: nat)
    requires i < |values|
    ensures Unique(values[..i + 1]) ==
              var before := Unique(values[..i]);
              var value := TrimSpace(values[i]);
              if value == "" || value in before then before else before + [value]
  {
    assert values[..i + 1][..i] == values[..i];
  }

  lemma {:induction false} UniqueExact(values: seq<string>)
    ensures Distinct(Unique(values))
    ensures forall v :: v in Unique(values) <==> v != "" && exists x :: x in values && TrimSpace(x) == v
  {
    if values != [] {
      var n := |values| - 1;
      UniqueExact(values[..n]);
      assert values == values[..n] + [values[n]];
    }
  }

  function AllVersions(data: VersionData): seq<string> {
    Unique([data.currentVersion, data.latestVersion] + data.versions)
  }

  /** The number in a version such as "v12"; 0 when there is none. */
  function VersionNumber(version: string): int {
    var trimmed := TrimSpace(version);
    var digits := if HasPrefix(trimmed, "v") then trimmed[1..] else trimmed;
    match Atoi(digits)
    case Some(n) => n
    case None => 0
  }

  /** Newest first: by number, then by text. */
  predicate NewerOrSame(x: string, y: string) {
    VersionNumber(x) > VersionNumber(y)
    || (VersionNumber(x) == VersionNumber(y) && (x == y || Less(y, x)))
  }

  lemma NewerIsOrder()
    ensures TotalPreorder(NewerOrSame)
    ensures forall s: seq<string> :: NoTies(NewerOrSame, s)
  {
    forall x, y
      ensures NewerOrSame(x, y) || NewerOrSame(y, x)
      ensures NewerOrSame(x, y) && NewerOrSame(y, x) ==> x == y
    {
      LessTotal(x, y);
      LessAsym(x, y);
    }
    forall x, y, z | NewerOrSame(x, y) && NewerOrSame(y, z)
      ensures NewerOrSame(x, z)
    {
      if VersionNumber(x) == VersionNumber(z) && x != y && y != z { LessTrans(z, y, x); }
    }
  }

  function KeepCount(keepLatest: int): nat {
    if keepLatest <= 0 then DEFAULT_KEEP_VERSIONS else keepLatest
  }

  /** The listed versions, newest first. */
  function Newest(data: VersionData): seq<string> {
    Sort(Unique(data.versions), NewerOrSame)
  }

  function Upto<T>(s: seq<T>, n: nat): seq<T> {
    if n < |s| then s[..n] else s
  }

  ghost predicate Kept(data: VersionData, keepLatest: int, version: string) {
    version != ""
    && (version == TrimSpace(data.currentVersion)
        || version == TrimSpace(data.latestVersion)
        || version in Upto(Newest(data), KeepCount(keepLatest)))
  }

  predicate Trimmed(versions: seq<string>) {
    forall i :: 0 <= i < |versions| ==> TrimSpace(versions[i]) == versions[i] != ""
  }

  method CleanVersionsToKeep(data: VersionData, keepLatest: int) returns (keep: set<string>)
    ensures forall v :: v in keep <==> Kept(data, keepLatest, v)
  {
    keep := {};
    var count := KeepCount(keepLatest);
    var current := TrimSpace(data.currentVersion);
    if current != "" {
      keep := keep + {current};
    }
    var latest := TrimSpace(data.latestVersion);
    if latest != "" {
      keep := keep + {latest};
    }
    var versions := UniqueNonEmptyStrings(data.versions);
    versions := Sort(versions, NewerOrSame);
    NewestExact(data);
    keep := KeepFirst(keep, versions, count);
  }

  /** The loop over the sorted versions; adding a version trims it again. */
  method KeepFirst(before: set<string>, versions: seq<string>, count: nat) returns (keep: set<string>)
    requires Trimmed(versions)
    ensures forall v :: v in keep <==> v in before || v in Upto(versions, count)
  {
    keep := before;
    for i := 0 to |versions|
      invariant i <= count
      invariant forall v :: v in keep <==> v in before || v in Upto(versions, i)
    {
      if i >= count {
        break;
      }
      var version := TrimSpace(versions[i]);
      if version != "" {
        keep := keep + {version};
      }
      UptoNext(versions, i);
    }
  }

  lemma UptoHolds(versions: seq<string>, n: nat)
    ensures forall j :: 0 <= j < n && j < |versions| ==> versions[j] in Upto(versions, n)
  {
    forall j | 0 <= j < n && j < |versions|
      ensures versions[j] in Upto(versions, n)
    {
      assert Upto(versions, n)[j] == versions[j];
    }
  }

  lemma UptoNext(versions: seq<string>, i: nat)
    requires i < |versions|
    ensures forall v :: v in Upto(versions, i + 1) <==> v in Upto(versions, i) || v == versions[i]
  {
    assert Upto(versions, i + 1) == versions[..i] + [versions[i]];
  }

  /** The listed versions, trimmed, once each, in strictly falling order. */
  lemma NewestExact(data: VersionData)
    ensures forall v :: v in Newest(data) <==> v != "" && exists x :: x in data.versions && TrimSpace(x) == v
    ensures Trimmed(Newest(data))
    ensures forall i, j :: 0 <= i < j < |Newest(data)| ==>
              Newest(data)[i] != Newest(data)[j] && NewerOrSame(Newest(data)[i], Newest(data)[j])
  {
    var u := Unique(data.versions);
    UniqueExact(data.versions);
    NewerIsOrder();
    SortPermutes(u, NewerOrSame);
    SortOrders(u, NewerOrSame);
    DistinctPermuted(u, Newest(data));
    forall i | 0 <= i < |Newest(data)|
      ensures TrimSpace(Newest(data)[i]) == Newest(data)[i] != ""
    {
      assert Newest(data)[i] in u;
    }
  }

  /** A recorded version that is not kept has at least as many listed versions above
      it as were to be kept, each a different one. */
  lemma RemovedHasNewerOnes(data: VersionData, keepLatest: int, version: string)
    requires version in AllVersions(data) && !Kept(data, keepLatest, version)
    ensures var above := Upto(Newest(data), KeepCount(keepLatest));
            && |above| == (if keepLatest > 0 then keepLatest else 3)
            && Distinct(above)
            && (forall x :: x in above ==> x != version && NewerOrSame(x, version) && Kept(data, keepLatest, x))
  {
    NewestExact(data);
    UniqueExact([data.currentVersion, data.latestVersion] + data.versions);
    var newest := Newest(data);
    assert version in newest;
    var j :| 0 <= j < |newest| && newest[j] == version;
    var count := KeepCount(keepLatest);
    var above := Upto(newest, count);
    UptoHolds(newest, count);
    assert above == newest[..count];
    forall x | x in above
      ensures x != version && NewerOrSame(x, version) && Kept(data, keepLatest, x)
    {
      AboveIsNewer(newest, count, j, x);
    }
  }

  lemma AboveIsNewer(newest: seq<string>, count: nat, j: nat, x: string)
    requires Ordered(NewerOrSame, newest) && Distinct(newest) && count <= j < |newest| && x in newest[..count]
    ensures x != newest[j] && NewerOrSame(x, newest[j])
  {
    var i :| 0 <= i < count && newest[..count][i] == x;
    assert newest[i] == x;
  }

  /** The current and the latest version are kept, and of the listed ones as many of the newest as
      asked for, or three. */
  lemma KeptExactlyWhen(data: VersionData, keepLatest: int, version: string)
    ensures Kept(data, keepLatest, version) <==>
              && version != ""
              && (|| version == TrimSpace(data.currentVersion)
                  || version == TrimSpace(data.latestVersion)
                  || exists j :: 0 <= j < |Newest(data)| && j < (if keepLatest > 0 then keepLatest else 3)
                                 && Newest(data)[j] == version)
  {
    var newest, count := Newest(data), KeepCount(keepLatest);
    UptoHolds(newest, count);
    if version in Upto(newest, count) {
      var j :| 0 <= j < |Upto(newest, count)| && Upto(newest, count)[j] == version;
      assert newest[j] == version;
    }
  }

  /** Newest means the greater number, with or without a v before it, then the later text. */
  lemma NewestByNumberThenText(data: VersionData, i: nat, j: nat)
    requires i < j < |Newest(data)|
    ensures var x, y := Newest(data)[i], Newest(data)[j];
            VersionNumber(x) > VersionNumber(y) || (VersionNumber(x) == VersionNumber(y) && Less(y, x))
  {
    NewestExact(data);
  }

  // ------------------------------------------------------------ release files

  function BinaryName(user: string, app: string, version: string): string {
    user + "_" + app + "_" + version
  }

  function LogName(user: string, app: string, version: string): string {
    BinaryName(user, app, version) + ".log"
  }

  /** What the name of a rotated log of a version starts with. */
  function LogMarker(user: string, app: string, version: string): string {
    BinaryName(user, app, version) + "-"
  }

  predicate IsLogFile(name: string) {
    HasSuffix(name, ".log") || HasSuffix(name, ".log.gz")
  }

  lemma BinaryNameInjective(user: string, app: string, v: string, w: string)
    requires BinaryName(user, app, v) == BinaryName(user, app, w)
    ensures v == w
  {
    var p := user + "_" + app + "_";
    assert v == BinaryName(user, app, v)[|p|..];
    assert w == BinaryName(user, app, w)[|p|..];
  }

  function BinaryMap(user: string, app: string, versions: seq<string>): map<string, string> {
    if versions == [] then map[]
    else
      var n := |versions| - 1;
      BinaryMap(user, app, versions[..n])[BinaryName(user, app, versions[n]) := versions[n]]
  }

  function LogMap(user: string, app: string, versions: seq<string>): map<string, string> {
    if versions == [] then map[]
    else
      var n := |versions| - 1;
      LogMap(user, app, versions[..n])[LogName(user, app, versions[n]) := versions[n]]
                                      [LogMarker(user, app, versions[n]) := versions[n]]
  }

  method KnownBinaryVersions(user: string, app: string, data: VersionData) returns (known: map<string, string>)
    ensures known == BinaryMap(user, app, AllVersions(data))
  {
    known := map[];
    var versions := AllVersions(data);
    for i := 0 to |versions|
      invariant known == BinaryMap(user, app, versions[..i])
    {
      assert versions[..i + 1][..i] == versions[..i];
      known := known[BinaryName(user, app, versions[i]) := versions[i]];
    }
    assert versions[..|versions|] == versions;
  }

  method KnownLogVersions(user: string, app: string, data: VersionData) returns (known: map<string, string>)
    ensures known == LogMap(user, app, AllVersions(data))
  {
    known := map[];
    var versions := AllVersions(data);
    for i := 0 to |versions|
      invariant known == LogMap(user, app, versions[..i])
    {
      assert versions[..i + 1][..i] == versions[..i];
      var base := LogName(user, app, versions[i]);
      known := known[base := versions[i]];
      var rotatedPrefix := base[..|base| - |".log"|] + "-";
      assert rotatedPrefix == LogMarker(user, app, versions[i]);
      known := known[rotatedPrefix := versions[i]];
    }
    assert versions[..|versions|] == versions;
  }

  lemma {:induction false} BinaryMapHas(user: string, app: string, versions: seq<string>, v: string)
    requires v in versions
    ensures BinaryName(user, app, v) in BinaryMap(user, app, versions)
  {
    var n := |versions| - 1;
    if v != versions[n] { BinaryMapHas(user, app, versions[..n], v); }
  }

  lemma {:induction false} BinaryMapValue(user: string, app: string, versions: seq<string>, name: string)
    requires name in BinaryMap(user, app, versions)
    ensures var v := BinaryMap(user, app, versions)[name];
            v in versions && name == BinaryName(user, app, v)
  {
    var n := |versions| - 1;
    if name != BinaryName(user, app, versions[n]) { BinaryMapValue(user, app, versions[..n], name); }
  }

  lemma {:induction false} LogMapHas(user: string, app: string, versions: seq<string>, v: string)
    requires v in versions
    ensures LogName(user, app, v) in LogMap(user, app, versions)
    ensures LogMarker(user, app, v) in LogMap(user, app, versions)
  {
    var n := |versions| - 1;
    if v != versions[n] { LogMapHas(user, app, versions[..n], v); }
  }

  lemma {:induction false} LogMapValue(user: string, app: string, versions: seq<string>, name: string)
    requires name in LogMap(user, app, versions)
    ensures var v := LogMap(user, app, versions)[name];
            v in versions && (name == LogName(user, app, v) || name == LogMarker(user, app, v))
  {
    var n := |versions| - 1;
    if name != LogName(user, app, versions[n]) && name != LogMarker(user, app, versions[n]) {
      LogMapValue(user, app, versions[..n], name);
    }
  }

  /** The name of a rotated log of the version, as a prefix match decides it. */
  predicate Rotated(user: string, app: string, name: string, version: string) {
    IsLogFile(name) && HasPrefix(name, LogMarker(user, app, version))
  }

  /** Rotated logs are the files, compressed or not, whose name goes on with a dash after user, app
      and version; the log itself goes on with its ending. */
  lemma LogNames(user: string, app: string, version: string, rest: string)
    ensures var stem := user + "_" + app + "_" + version;
            && Rotated(user, app, stem + "-" + rest + ".log", version)
            && Rotated(user, app, stem + "-" + rest + ".log.gz", version)
            && OwnName(true, user, app, stem + ".log", version)
  {
    var stem := user + "_" + app + "_" + version;
    EndsWith(stem + "-" + rest, ".log");
    EndsWith(stem + "-" + rest, ".log.gz");
    assert stem + "-" + rest + ".log" == (stem + "-") + (rest + ".log");
    assert stem + "-" + rest + ".log.gz" == (stem + "-") + (rest + ".log.gz");
  }

  lemma EndsWith(s: string, ending: string)
    ensures HasSuffix(s + ending, ending)
  {
  }

  lemma RotatedIsALog(user: string, app: string, name: string, version: string)
    requires Rotated(user, app, name, version)
    ensures HasPrefix(name, user + "_" + app + "_" + version + "-")
    ensures HasSuffix(name, ".log") || HasSuffix(name, ".log.gz")
  {
  }

  /** A map is searched in no particular order. */
  method MatchRotatedLog(name: string, known: map<string, string>) returns (found: Option<string>)
    ensures found.Some? ==> IsLogFile(name) && exists m <- known ::
              HasSuffix(m, "-") && HasPrefix(name, m) && known[m] == found.value
    ensures found.None? && IsLogFile(name) ==> forall m <- known :: !(HasSuffix(m, "-") && HasPrefix(name, m))
  {
    if !IsLogFile(name) {
      return None;
    }
    var rest := known.Keys;
    while rest != {}
      invariant forall m <- known.Keys - rest :: !(HasSuffix(m, "-") && HasPrefix(name, m))
    {
      var marker :| marker in rest;
      if HasSuffix(marker, "-") && HasPrefix(name, marker) {
        return Some(known[marker]);
      }
      rest := rest - {marker};
    }
    return None;
  }

  /** The file name a version of this kind has in its own right. */
  predicate OwnName(logs: bool, user: string, app: string, name: string, version: string) {
    if logs then name == LogName(user, app, version) || name == LogMarker(user, app, version)
    else name == BinaryName(user, app, version)
  }

  /** The planner may put the file down to the version. */
  ghost predicate Assigned(logs: bool, user: string, app: string, versions: seq<string>, name: string, version: string) {
    version in versions
    && (OwnName(logs, user, app, name, version)
        || (logs && Rotated(user, app, name, version)
            && forall w :: w in versions ==> !OwnName(logs, user, app, name, w)))
  }

  lemma LogMarkersEndInDash(user: string, app: string, v: string)
    ensures HasSuffix(LogMarker(user, app, v), "-") && !HasSuffix(LogName(user, app, v), "-")
  {
    var l := LogName(user, app, v);
    assert l[|l| - 1] == 'g';
    var m := LogMarker(user, app, v);
    assert m[|m| - 1..] == "-";
  }

  function KnownMap(logs: bool, user: string, app: string, versions: seq<string>): map<string, string> {
    if logs then LogMap(user, app, versions) else BinaryMap(user, app, versions)
  }

  /** Looking a file up among the known names, then among the rotated logs. */
  method Classify(logs: bool, user: string, app: string, ghost versions: seq<string>,
                  known: map<string, string>, name: string) returns (found: Option<string>)
    requires known == KnownMap(logs, user, app, versions)
    ensures found.Some? ==> Assigned(logs, user, app, versions, name, found.value)
    ensures found.None? ==> forall v :: !Assigned(logs, user, app, versions, name, v)
  {
    KnownNames(logs, user, app, versions, name);
    if name in known {
      return Some(known[name]);
    }
    if !logs {
      return None;
    }
    found := MatchRotatedLog(name, known);
    if found.Some? {
      MarkerFound(user, app, versions, name, found.value);
    } else if IsLogFile(name) {
      NoMarkerFound(user, app, versions, name);
    }
  }

  lemma MarkerFound(user: string, app: string, versions: seq<string>, name: string, version: string)
    requires IsLogFile(name)
    requires exists m <- LogMap(user, app, versions) ::
               HasSuffix(m, "-") && HasPrefix(name, m) && LogMap(user, app, versions)[m] == version
    ensures version in versions && Rotated(user, app, name, version)
  {
    var known := LogMap(user, app, versions);
    var m :| m in known && HasSuffix(m, "-") && HasPrefix(name, m) && known[m] == version;
    LogMapValue(user, app, versions, m);
    LogMarkersEndInDash(user, app, version);
  }

  lemma NoMarkerFound(user: string, app: string, versions: seq<string>, name: string)
    requires forall m <- LogMap(user, app, versions) :: !(HasSuffix(m, "-") && HasPrefix(name, m))
    ensures forall v :: v in versions ==> !Rotated(user, app, name, v)
  {
    forall v | v in versions
      ensures !Rotated(user, app, name, v)
    {
      LogMarkersEndInDash(user, app, v);
      LogMapHas(user, app, versions, v);
    }
  }

  lemma KnownNames(logs: bool, user: string, app: string, versions: seq<string>, name: string)
    ensures var known := KnownMap(logs, user, app, versions);
            && (name in known ==> known[name] in versions && OwnName(logs, user, app, name, known[name]))
            && (name !in known ==> forall v :: v in versions ==> !OwnName(logs, user, app, name, v))
  {
    if logs { KnownLogNames(user, app, versions, name); } else { KnownBinaryNames(user, app, versions, name); }
  }

  lemma KnownLogNames(user: string, app: string, versions: seq<string>, name: string)
    ensures var known := LogMap(user, app, versions);
            && (name in known ==> known[name] in versions && OwnName(true, user, app, name, known[name]))
            && (name !in known ==> forall v :: v in versions ==> !OwnName(true, user, app, name, v))
  {
    if name in LogMap(user, app, versions) {
      LogMapValue(user, app, versions, name);
    } else {
      forall v | v in versions
        ensures !OwnName(true, user, app, name, v)
      {
        LogMapHas(user, app, versions, v);
      }
    }
  }

  lemma KnownBinaryNames(user: string, app: string, versions: seq<string>, name: string)
    ensures var known := BinaryMap(user, app, versions);
            && (name in known ==> known[name] in versions && OwnName(false, user, app, name, known[name]))
            && (name !in known ==> forall v :: v in versions ==> !OwnName(false, user, app, name, v))
  {
    if name in BinaryMap(user, app, versions) {
      BinaryMapValue(user, app, versions, name);
    } else {
      forall v | v in versions
        ensures !OwnName(false, user, app, name, v)
      {
        BinaryMapHas(user, app, versions, v);
      }
    }
  }

  // ---------------------------------------------------------------- the plan

  datatype Entry = Entry(name: string, isDir: bool, isSymlink: bool, size: Option<int>)

  /** What reading a directory yields. */
  datatype Listing = Missing | Unreadable | Listed(entries: seq<Entry>)

  datatype Target = Target(app: string, version: string, name: string, size: int)

  predicate Regular(e: Entry) {
    !e.isDir && !e.isSymlink
  }

  ghost predicate Targeted(targets: seq<Target>, name: string) {
    exists t :: t in targets && t.name == name
  }

  /** The plan deletes only files put down to a version that is not kept. */
  ghost predicate PlanAllowed(targets: seq<Target>, entries: seq<Entry>, logs: bool, user: string, app: string,
                              versions: seq<string>, keep: set<string>) {
    forall t :: t in targets ==>
      && Assigned(logs, user, app, versions, t.name, t.version) && t.version !in keep
      && exists e :: e in entries && Regular(e) && e.name == t.name && e.size == Some(t.size)
  }

  /** A file left alone could be put down to no version, or to a kept one. */
  ghost predicate PlanThorough(targets: seq<Target>, entries: seq<Entry>, logs: bool, user: string, app: string,
                               versions: seq<string>, keep: set<string>) {
    forall e :: e in entries && Regular(e) ==>
      || Targeted(targets, e.name)
      || (forall v :: !Assigned(logs, user, app, versions, e.name, v))
      || (exists v :: v in keep && Assigned(logs, user, app, versions, e.name, v))
  }

  /** A directory has at most one entry of a name. */
  predicate DistinctEntries(entries: seq<Entry>) {
    forall i, j :: 0 <= i < j < |entries| ==> entries[i].name != entries[j].name
  }

  /** The plan for the first entries. */
  ghost predicate PlannedUpTo(targets: seq<Target>, entries: seq<Entry>, n: nat, logs: bool, user: string, app: string,
                              versions: seq<string>, keep: set<string>) {
    && n <= |entries|
    && PlanAllowed(targets, entries, logs, user, app, versions, keep)
    && PlanThorough(targets, entries[..n], logs, user, app, versions, keep)
    && (forall t :: t in targets ==> t.app == user + "/" + app && NamedBefore(entries, n, t.name))
    && (DistinctEntries(entries) ==> forall i, j :: 0 <= i < j < |targets| ==> targets[i].name != targets[j].name)
  }

  predicate NamedBefore(entries: seq<Entry>, n: nat, name: string)
    requires n <= |entries|
  {
    exists k :: 0 <= k < n && entries[k].name == name
  }

  lemma EntryLeft(targets: seq<Target>, entries: seq<Entry>, n: nat, logs: bool, user: string, app: string,
                  versions: seq<string>, keep: set<string>)
    requires n < |entries| && PlannedUpTo(targets, entries, n, logs, user, app, versions, keep)
    requires || !Regular(entries[n])
             || (forall v :: !Assigned(logs, user, app, versions, entries[n].name, v))
             || (exists v :: v in keep && Assigned(logs, user, app, versions, entries[n].name, v))
    ensures PlannedUpTo(targets, entries, n + 1, logs, user, app, versions, keep)
  {
    TakeNext(entries, n);
    forall t | t in targets
      ensures NamedBefore(entries, n + 1, t.name)
    {
      assert NamedBefore(entries, n, t.name);
    }
  }

  lemma EntryTaken(targets: seq<Target>, entries: seq<Entry>, n: nat, logs: bool, user: string, app: string,
                   versions: seq<string>, keep: set<string>, version: string)
    requires n < |entries| && PlannedUpTo(targets, entries, n, logs, user, app, versions, keep)
    requires Regular(entries[n]) && Assigned(logs, user, app, versions, entries[n].name, version) && version !in keep
    requires entries[n].size.Some?
    ensures PlannedUpTo(targets + [Target(user + "/" + app, version, entries[n].name, entries[n].size.value)], entries,
                        n + 1, logs, user, app, versions, keep)
  {
    var t := Target(user + "/" + app, version, entries[n].name, entries[n].size.value);
    TakeNext(entries, n);
    forall u | u in targets + [t]
      ensures u.app == user + "/" + app && NamedBefore(entries, n + 1, u.name)
    {
      if u in targets { assert NamedBefore(entries, n, u.name); } else { assert entries[n].name == u.name; }
    }
    ThoroughOn(targets, t, entries[..n], entries[n], logs, user, app, versions, keep);
    forall i | 0 <= i < |targets| && DistinctEntries(entries)
      ensures targets[i].name != t.name
    {
      assert targets[i] in targets && NamedBefore(entries, n, targets[i].name);
    }
  }

  lemma ThoroughOn(targets: seq<Target>, t: Target, entries: seq<Entry>, e: Entry, logs: bool, user: string, app: string,
                   versions: seq<string>, keep: set<string>)
    requires PlanThorough(targets, entries, logs, user, app, versions, keep) && t.name == e.name
    ensures PlanThorough(targets + [t], entries + [e], logs, user, app, versions, keep)
  {
    assert t in targets + [t];
    forall d | d in entries && Targeted(targets, d.name)
      ensures Targeted(targets + [t], d.name)
    {
      var u :| u in targets && u.name == d.name;
      assert u in targets + [t];
    }
  }

  /** None when the directory, or a file to be deleted, cannot be read. */
  method PlanKnownReleaseFiles(dir: Listing, known: map<string, string>, keep: set<string>, logs: bool,
                               user: string, app: string, ghost versions: seq<string>)
    returns (plan: Option<seq<Target>>)
    requires known == KnownMap(logs, user, app, versions)
    ensures dir.Missing? ==> plan == Some([])
    ensures dir.Unreadable? ==> plan == None
    ensures dir.Listed? && plan.Some? ==>
              PlanAllowed(plan.value, dir.entries, logs, user, app, versions, keep)
              && PlanThorough(plan.value, dir.entries, logs, user, app, versions, keep)
    ensures dir.Listed? && plan.Some? ==>
              forall t :: t in plan.value ==>
                t.app == user + "/" + app
                && exists e :: e in dir.entries && !e.isDir && !e.isSymlink && e.name == t.name && e.size == Some(t.size)
    ensures dir.Listed? && plan.None? ==>
              exists e, v :: e in dir.entries && Regular(e) && e.size.None?
                             && Assigned(logs, user, app, versions, e.name, v) && v !in keep
    ensures dir.Listed? && plan.Some? && DistinctEntries(dir.entries) ==>
              forall i, j :: 0 <= i < j < |plan.value| ==> plan.value[i].name != plan.value[j].name
  {
    if dir.Missing? {
      return Some([]);
    }
    if dir.Unreadable? {
      return None;
    }
    var targets: seq<Target> := [];
    for i := 0 to |dir.entries|
      invariant PlannedUpTo(targets, dir.entries, i, logs, user, app, versions, keep)
    {
      var entry := dir.entries[i];
      if entry.isDir || entry.isSymlink {
        EntryLeft(targets, dir.entries, i, logs, user, app, versions, keep);
        continue;
      }
      var version := Classify(logs, user, app, versions, known, entry.name);
      if version.None? {
        EntryLeft(targets, dir.entries, i, logs, user, app, versions, keep);
        continue;
      }
      if version.value in keep {
        EntryLeft(targets, dir.entries, i, logs, user, app, versions, keep);
        continue;
      }
      if entry.size.None? {
        assert entry in dir.entries;
        return None;
      }
      EntryTaken(targets, dir.entries, i, logs, user, app, versions, keep, version.value);
      targets := targets + [Target(user + "/" + app, version.value, entry.name, entry.size.value)];
    }
    TakeAll(dir.entries);
    plan := Some(targets);
  }

  function NamesOf(targets: seq<Target>, n: nat): set<string>
    requires n <= |targets|
  {
    set i | 0 <= i < n :: targets[i].name
  }

  /** Go's applyCleanTargets on one directory: without `execute` a preview only, with
      it the first `done` files, in order, up to one that is gone or cannot be removed. */
  method ApplyCleanTargets(files: set<string>, targets: seq<Target>, execute: bool, stubborn: set<string>)
    returns (left: set<string>, ok: bool, ghost done: nat)
    ensures !execute ==> ok && left == files
    ensures execute ==> done <= |targets| && left == files - NamesOf(targets, done)
    ensures execute ==> forall k :: 0 <= k < done ==> targets[k].name in files && targets[k].name !in stubborn
    ensures execute ==> (ok <==> done == |targets|)
    ensures execute && !ok ==> targets[done].name !in left || targets[done].name in stubborn
    ensures left <= files && forall name :: name in files - left ==> Targeted(targets, name)
  {
    left := files;
    ok := true;
    done := 0;
    for i := 0 to |targets|
      invariant !execute ==> left == files
      invariant execute ==> done == i && left == files - NamesOf(targets, i)
      invariant execute ==> forall k :: 0 <= k < i ==> targets[k].name in files && targets[k].name !in stubborn
    {
      if execute {
        if targets[i].name !in left || targets[i].name in stubborn {
          ok := false;
          OnlyTargets(files, targets, i);
          return;
        }
        assert NamesOf(targets, i + 1) == NamesOf(targets, i) + {targets[i].name};
        left := left - {targets[i].name};
        done := i + 1;
      }
    }
    if execute { OnlyTargets(files, targets, |targets|); }
  }

  lemma OnlyTargets(files: set<string>, targets: seq<Target>, n: nat)
    requires n <= |targets|
    ensures forall name :: name in files - (files - NamesOf(targets, n)) ==> Targeted(targets, name)
  {
    forall name | name in NamesOf(targets, n)
      ensures Targeted(targets, name)
    {
      var i :| 0 <= i < n && targets[i].name == name;
      assert targets[i] in targets;
    }
  }

  // ------------------------------------------------ when the plan is certain

  /** No version is another one followed by a dash and more. */
  ghost predicate NoDashExtension(versions: seq<string>) {
    forall v, w :: v in versions && w in versions ==> !HasPrefix(w, v + "-")
  }

  lemma TwoMarkers(user: string, app: string, name: string, v: string, w: string)
    requires HasPrefix(name, LogMarker(user, app, v)) && HasPrefix(name, LogMarker(user, app, w))
    requires |v| <= |w|
    ensures v == w || HasPrefix(w, v + "-")
  {
    var p := user + "_" + app + "_";
    var rest := name[|p|..];
    assert LogMarker(user, app, v) == p + (v + "-") && LogMarker(user, app, w) == p + (w + "-");
    assert rest[..|v| + 1] == v + "-" && rest[..|w| + 1] == w + "-";
    assert v == rest[..|v|] && w == rest[..|w|];
    if |v| < |w| {
      assert w[..|v| + 1] == rest[..|v| + 1];
    }
  }

  lemma ExtensionMatchesTwice(user: string, app: string, v: string, w: string) returns (name: string)
    requires HasPrefix(w, v + "-")
    ensures v != w && Rotated(user, app, name, v) && Rotated(user, app, name, w)
  {
    var p := user + "_" + app + "_";
    name := LogMarker(user, app, w) + ".log";
    assert name[|name| - 4..] == ".log";
    assert LogMarker(user, app, v) == p + (v + "-");
    assert name == p + (w + "-.log");
    assert w == (v + "-") + w[|v| + 1..];
    assert name == LogMarker(user, app, v) + (w[|v| + 1..] + "-.log");
  }

  /** Every rotated log belongs to at most one of the versions, so that the order in
      which a map is searched does not matter, exactly when none extends another. */
  lemma RotatedLogsAreCertain(user: string, app: string, versions: seq<string>)
    ensures NoDashExtension(versions) <==>
            forall name, v, w :: v in versions && w in versions && Rotated(user, app, name, v) && Rotated(user, app, name, w)
              ==> v == w
  {
    if NoDashExtension(versions) {
      forall name, v, w | v in versions && w in versions && Rotated(user, app, name, v) && Rotated(user, app, name, w)
        ensures v == w
      {
        if |v| <= |w| { TwoMarkers(user, app, name, v, w); } else { TwoMarkers(user, app, name, w, v); }
      }
    } else {
      var v, w :| v in versions && w in versions && HasPrefix(w, v + "-");
      var name := ExtensionMatchesTwice(user, app, v, w);
    }
  }

  /** Versions without a dash never extend one another. */
  lemma PlainVersionsAreCertain(versions: seq<string>)
    requires forall v :: v in versions ==> '-' !in v
    ensures NoDashExtension(versions)
  {
    forall v, w | v in versions && w in versions
      ensures !HasPrefix(w, v + "-")
    {
      if HasPrefix(w, v + "-") { DashInside(v, w); }
    }
  }

  lemma DashInside(v: string, w: string)
    requires HasPrefix(w, v + "-")
    ensures '-' in w
  {
    assert w[|v|] == (v + "-")[|v|] == '-';
  }

  /** The file is named after the version, or is one of its rotated logs. */
  predicate NamedAfter(logs: bool, user: string, app: string, name: string, version: string) {
    OwnName(logs, user, app, name, version) || (logs && Rotated(user, app, name, version))
  }

  lemma OwnNameIsNotRotated(user: string, app: string, name: string, v: string, w: string)
    requires OwnName(true, user, app, name, v) && Rotated(user, app, name, w)
    ensures HasPrefix(v, w + "-")
  {
    LogFileEnds(name);
    LogMarkersEndInDash(user, app, v);
    var p := user + "_" + app + "_";
    assert name == p + (v + ".log");
    assert LogMarker(user, app, w) == p + (w + "-");
    PrefixAfter(p, w + "-", v + ".log");
    DashBefore(v, w + "-");
  }

  lemma DashBefore(v: string, start: string)
    requires HasPrefix(v + ".log", start) && start != "" && start[|start| - 1] == '-'
    ensures HasPrefix(v, start)
  {
    var n := |start|;
    assert (v + ".log")[n - 1] == '-';
    assert v[..n] == (v + ".log")[..n];
  }

  lemma LogFileEnds(name: string)
    requires IsLogFile(name)
    ensures !HasSuffix(name, "-")
  {
    var n := |name|;
    if HasSuffix(name, ".log") {
      assert name[n - 1] == name[n - 4..][3] == 'g';
    } else {
      assert name[n - 1] == name[n - 7..][6] == 'z';
    }
    assert name[n - 1..] == [name[n - 1]];
  }

  /** A file named after two versions: one of them is the other, a dash and more. */
  lemma NamedAfterTwo(logs: bool, user: string, app: string, name: string, v: string, w: string)
    requires NamedAfter(logs, user, app, name, v) && NamedAfter(logs, user, app, name, w)
    ensures v == w || (logs && (HasPrefix(v, w + "-") || HasPrefix(w, v + "-")))
  {
    if OwnName(logs, user, app, name, v) && OwnName(logs, user, app, name, w) {
      OwnNameInjective(logs, user, app, name, v, w);
    } else if OwnName(logs, user, app, name, v) {
      OwnNameIsNotRotated(user, app, name, v, w);
    } else if OwnName(logs, user, app, name, w) {
      OwnNameIsNotRotated(user, app, name, w, v);
    } else if |v| <= |w| {
      TwoMarkers(user, app, name, v, w);
    } else {
      TwoMarkers(user, app, name, w, v);
    }
  }

  lemma OwnNameInjective(logs: bool, user: string, app: string, name: string, v: string, w: string)
    requires OwnName(logs, user, app, name, v) && OwnName(logs, user, app, name, w)
    ensures v == w
  {
    LogMarkersEndInDash(user, app, v);
    LogMarkersEndInDash(user, app, w);
    if logs {
      var b, c := BinaryName(user, app, v), BinaryName(user, app, w);
      if name == LogName(user, app, v) {
        assert b == name[..|name| - 4] && c == name[..|name| - 4];
      } else {
        assert b == name[..|name| - 1] && c == name[..|name| - 1];
      }
    }
    BinaryNameInjective(user, app, v, w);
  }

  /** A version that stays and one that goes, of which one is the other, a dash and
      more. */
  ghost predicate Clash(data: VersionData, keepLatest: int, kept: string, removed: string) {
    && Kept(data, keepLatest, kept)
    && removed in AllVersions(data) && !Kept(data, keepLatest, removed)
    && (HasPrefix(kept, removed + "-") || HasPrefix(removed, kept + "-"))
  }

  /** No file of the plan is named after a current, latest or newest version. */
  ghost predicate SparesKept(data: VersionData, keepLatest: int, logs: bool, user: string, app: string,
                             targets: seq<Target>) {
    forall t, kept :: t in targets && Kept(data, keepLatest, kept) ==> !NamedAfter(logs, user, app, t.name, kept)
  }

  lemma TargetSpares(data: VersionData, keepLatest: int, logs: bool, user: string, app: string,
                     name: string, version: string, kept: string)
    requires Assigned(logs, user, app, AllVersions(data), name, version) && !Kept(data, keepLatest, version)
    requires Kept(data, keepLatest, kept) && NamedAfter(logs, user, app, name, kept)
    ensures logs && Clash(data, keepLatest, kept, version)
  {
    NamedAfterTwo(logs, user, app, name, version, kept);
  }

  lemma LongerThanAll(versions: seq<string>) returns (pad: string)
    ensures forall v :: v in versions ==> |v| <= |pad|
  {
    if versions == [] {
      pad := "";
    } else {
      var n := |versions| - 1;
      pad := LongerThanAll(versions[..n]);
      if |pad| < |versions[n]| { pad := versions[n]; }
    }
  }

  /** A log of the version that stays which the planner may put down to the other. */
  lemma ClashHasALog(data: VersionData, keepLatest: int, user: string, app: string, kept: string, removed: string)
    returns (name: string)
    requires Clash(data, keepLatest, kept, removed)
    ensures Assigned(true, user, app, AllVersions(data), name, removed) && NamedAfter(true, user, app, name, kept)
  {
    if HasPrefix(removed, kept + "-") {
      name := LogName(user, app, removed);
      LogNameIsLog(user, app, removed);
      MarkerOfExtended(user, app, kept, removed, ".log");
    } else {
      name := LongLog(user, app, kept, AllVersions(data));
      var ending := name[|BinaryName(user, app, kept)|..];
      assert name == BinaryName(user, app, kept) + ending;
      MarkerOfExtended(user, app, removed, kept, ending);
    }
  }

  lemma LogNameIsLog(user: string, app: string, v: string)
    ensures IsLogFile(LogName(user, app, v))
  {
    var name := LogName(user, app, v);
    assert name[|name| - 4..] == ".log";
  }

  /** A rotated log of the version that is too long to be any version's own file. */
  lemma LongLog(user: string, app: string, v: string, versions: seq<string>) returns (name: string)
    ensures Rotated(user, app, name, v)
    ensures HasPrefix(name, BinaryName(user, app, v))
    ensures forall w :: w in versions ==> !OwnName(true, user, app, name, w)
  {
    var pad := LongerThanAll(versions);
    var marker := LogMarker(user, app, v);
    var rest := pad + ".log";
    name := marker + rest;
    assert name[|name| - 4..] == ".log";
    assert name == BinaryName(user, app, v) + ("-" + rest);
    forall w | w in versions
      ensures !OwnName(true, user, app, name, w)
    {
      assert |w| <= |pad|;
    }
  }

  lemma MarkerOfExtended(user: string, app: string, v: string, w: string, ending: string)
    requires HasPrefix(w, v + "-")
    ensures HasPrefix(BinaryName(user, app, w) + ending, LogMarker(user, app, v))
  {
    var p := user + "_" + app + "_";
    assert w == (v + "-") + w[|v| + 1..];
    assert LogMarker(user, app, v) == p + (v + "-");
    assert BinaryName(user, app, w) + ending == LogMarker(user, app, v) + (w[|v| + 1..] + ending);
  }

  /** A directory with one file, and a plan for it, that takes a log of a version
      that stays. */
  lemma ClashCostsALog(data: VersionData, keepLatest: int, user: string, app: string, keep: set<string>,
                       kept: string, removed: string)
    returns (targets: seq<Target>, entries: seq<Entry>)
    requires forall v :: v in keep <==> Kept(data, keepLatest, v)
    requires Clash(data, keepLatest, kept, removed)
    ensures PlanAllowed(targets, entries, true, user, app, AllVersions(data), keep)
    ensures PlanThorough(targets, entries, true, user, app, AllVersions(data), keep)
    ensures !SparesKept(data, keepLatest, true, user, app, targets)
  {
    var name := ClashHasALog(data, keepLatest, user, app, kept, removed);
    var t := Target(user + "/" + app, removed, name, 0);
    var e := Entry(name, false, false, Some(0));
    targets, entries := [t], [e];
    OneFilePlan(t, e, user, app, AllVersions(data), keep);
    assert t in targets;
  }

  lemma OneFilePlan(t: Target, e: Entry, user: string, app: string, versions: seq<string>, keep: set<string>)
    requires Assigned(true, user, app, versions, t.name, t.version) && t.version !in keep
    requires Regular(e) && e.name == t.name && e.size == Some(t.size)
    ensures PlanAllowed([t], [e], true, user, app, versions, keep)
    ensures PlanThorough([t], [e], true, user, app, versions, keep)
  {
    assert e in [e] && t in [t];
  }

  /** No file of any plan is named after a version that stays, whatever files there
      are, exactly when no such version and one that goes extend one another. */
  lemma PlanSparesKeptVersions(data: VersionData, keepLatest: int, logs: bool, user: string, app: string, keep: set<string>)
    requires forall v :: v in keep <==> Kept(data, keepLatest, v)
    ensures (forall targets, entries ::
               PlanAllowed(targets, entries, logs, user, app, AllVersions(data), keep)
               && PlanThorough(targets, entries, logs, user, app, AllVersions(data), keep)
               ==> SparesKept(data, keepLatest, logs, user, app, targets))
            <==> (logs ==> forall kept, removed :: !Clash(data, keepLatest, kept, removed))
  {
    if logs && exists kept, removed :: Clash(data, keepLatest, kept, removed) {
      var kept, removed :| Clash(data, keepLatest, kept, removed);
      var targets, entries := ClashCostsALog(data, keepLatest, user, app, keep, kept, removed);
    } else {
      forall targets, entries | PlanAllowed(targets, entries, logs, user, app, AllVersions(data), keep)
        ensures SparesKept(data, keepLatest, logs, user, app, targets)
      {
        AllowedSpares(data, keepLatest, logs, user, app, keep, targets, entries);
      }
    }
  }

  lemma AllowedSpares(data: VersionData, keepLatest: int, logs: bool, user: string, app: string, keep: set<string>,
                      targets: seq<Target>, entries: seq<Entry>)
    requires forall v :: v in keep <==> Kept(data, keepLatest, v)
    requires logs ==> forall kept, removed :: !Clash(data, keepLatest, kept, removed)
    requires PlanAllowed(targets, entries, logs, user, app, AllVersions(data), keep)
    ensures SparesKept(data, keepLatest, logs, user, app, targets)
  {
    forall t, kept | t in targets && Kept(data, keepLatest, kept)
      ensures !NamedAfter(logs, user, app, t.name, kept)
    {
      if NamedAfter(logs, user, app, t.name, kept) {
        TargetSpares(data, keepLatest, logs, user, app, t.name, t.version, kept);
      }
    }
  }

  // ---------------------------------------------------- when map order matters

  /** A recorded version that is to be kept and one that is not, of which one is the other, a
      dash and more. */
  predicate Rivals(versions: seq<string>, keep: set<string>, v: string, w: string) {
    v in versions && w in versions && v in keep && w !in keep && (HasPrefix(v, w + "-") || HasPrefix(w, v + "-"))
  }

  ghost predicate PossiblePlan(targets: seq<Target>, entries: seq<Entry>, logs: bool, user: string, app: string,
                               versions: seq<string>, keep: set<string>) {
    && PlanAllowed(targets, entries, logs, user, app, versions, keep)
    && PlanThorough(targets, entries, logs, user, app, versions, keep)
  }

  ghost predicate SameFiles(a: seq<Target>, b: seq<Target>) {
    forall name :: Targeted(a, name) <==> Targeted(b, name)
  }

  lemma TargetedInBoth(a: seq<Target>, b: seq<Target>, entries: seq<Entry>, logs: bool, user: string, app: string,
                       versions: seq<string>, keep: set<string>, name: string)
    requires PossiblePlan(a, entries, logs, user, app, versions, keep)
    requires PossiblePlan(b, entries, logs, user, app, versions, keep)
    requires logs ==> forall v, w :: !Rivals(versions, keep, v, w)
    requires Targeted(a, name)
    ensures Targeted(b, name)
  {
    var t :| t in a && t.name == name;
    var e :| e in entries && Regular(e) && e.name == t.name && e.size == Some(t.size);
    if v :| v in keep && Assigned(logs, user, app, versions, e.name, v) {
      SharedByRivals(logs, user, app, versions, keep, name, v, t.version);
    }
  }

  lemma SharedByRivals(logs: bool, user: string, app: string, versions: seq<string>, keep: set<string>, name: string,
                       v: string, w: string)
    requires Assigned(logs, user, app, versions, name, v) && Assigned(logs, user, app, versions, name, w)
    requires v in keep && w !in keep
    ensures logs && Rivals(versions, keep, v, w)
  {
    NamedAfterTwo(logs, user, app, name, v, w);
  }

  /** A log that the planner may put down to either of two rivals: one plan takes it, another does
      not. */
  lemma RivalsShareALog(user: string, app: string, versions: seq<string>, keep: set<string>, v: string, w: string)
    returns (entries: seq<Entry>, a: seq<Target>, b: seq<Target>)
    requires Rivals(versions, keep, v, w)
    ensures PossiblePlan(a, entries, true, user, app, versions, keep)
    ensures PossiblePlan(b, entries, true, user, app, versions, keep)
    ensures !SameFiles(a, b)
  {
    var name := SharedLog(user, app, versions, v, w);
    var e, t := Entry(name, false, false, Some(0)), Target(user + "/" + app, w, name, 0);
    entries, a, b := [e], [t], [];
    assert e in entries && t in a;
    assert Targeted(a, name) && !Targeted(b, name);
  }

  lemma SharedLog(user: string, app: string, versions: seq<string>, v: string, w: string) returns (name: string)
    requires v in versions && w in versions && (HasPrefix(v, w + "-") || HasPrefix(w, v + "-"))
    ensures Assigned(true, user, app, versions, name, v) && Assigned(true, user, app, versions, name, w)
  {
    var long, short := if HasPrefix(v, w + "-") then v else w, if HasPrefix(v, w + "-") then w else v;
    name := LongLog(user, app, long, versions);
    var ending := name[|BinaryName(user, app, long)|..];
    assert name == BinaryName(user, app, long) + ending;
    MarkerOfExtended(user, app, short, long, ending);
  }

  /** The order in which the map of known names is searched cannot matter to which files a plan
      takes, whatever files there are, exactly when no version that is kept and none that is not
      are rivals. */
  lemma PlanIgnoresMapOrder(logs: bool, user: string, app: string, versions: seq<string>, keep: set<string>)
    ensures (forall entries, a, b ::
               PossiblePlan(a, entries, logs, user, app, versions, keep) ==>
               PossiblePlan(b, entries, logs, user, app, versions, keep) ==> SameFiles(a, b))
            <==> (logs ==> forall v, w :: !Rivals(versions, keep, v, w))
  {
    if logs && exists v, w :: Rivals(versions, keep, v, w) {
      var v, w :| Rivals(versions, keep, v, w);
      var entries, a, b := RivalsShareALog(user, app, versions, keep, v, w);
    } else {
      forall entries, a, b | PossiblePlan(a, entries, logs, user, app, versions, keep)
                             && PossiblePlan(b, entries, logs, user, app, versions, keep)
        ensures SameFiles(a, b)
      {
        forall name
          ensures Targeted(a, name) <==> Targeted(b, name)
        {
          if Targeted(a, name) { TargetedInBoth(a, b, entries, logs, user, app, versions, keep, name); }
          if Targeted(b, name) { TargetedInBoth(b, a, entries, logs, user, app, versions, keep, name); }
        }
      }
    }
  }

  /** With v1-rc kept and v1 not, two plans for one directory differ. */
  lemma ReleaseCandidateIsARival(user: string, app: string) returns (entries: seq<Entry>, a: seq<Target>, b: seq<Target>)
    ensures PossiblePlan(a, entries, true, user, app, ["v1", "v1-rc"], {"v1-rc"})
    ensures PossiblePlan(b, entries, true, user, app, ["v1", "v1-rc"], {"v1-rc"})
    ensures !SameFiles(a, b)
  {
    assert ["v1", "v1-rc"][0] == "v1" && ["v1", "v1-rc"][1] == "v1-rc";
    entries, a, b := RivalsShareALog(user, app, ["v1", "v1-rc"], {"v1-rc"}, "v1-rc", "v1");
  }

  lemma KeptIsRecorded(data: VersionData, keepLatest: int, version: string)
    requires Kept(data, keepLatest, version)
    ensures version in AllVersions(data)
  {
    if version in Upto(Newest(data), KeepCount(keepLatest)) {
      NewestExact(data);
      assert version in Newest(data);
      var x :| x in data.versions && TrimSpace(x) == version;
      RecordedFrom(data, x);
    } else if version == TrimSpace(data.currentVersion) {
      RecordedFrom(data, data.currentVersion);
    } else {
      RecordedFrom(data, data.latestVersion);
    }
  }

  lemma RecordedFrom(data: VersionData, x: string)
    requires x == data.currentVersion || x == data.latestVersion || x in data.versions
    requires TrimSpace(x) != ""
    ensures TrimSpace(x) in AllVersions(data)
  {
    var named := [data.currentVersion, data.latestVersion];
    assert named[0] in named && named[1] in named;
    assert x in named + data.versions;
    UniqueExact(named + data.versions);
  }

  // -------------------------------------------------------- the next version

  /** The version number in the name of a binary; 0 when it has none above 0. */
  function BuiltNumber(user: string, app: string, name: string): nat {
    var prefix := user + "_" + app + "_v";
    if HasPrefix(name, prefix) then
      match Atoi(name[|prefix|..])
      case Some(n) => if n > 0 then n else 0
      case None => 0
    else 0
  }

  ghost predicate IsHighest(user: string, app: string, files: set<string>, m: nat) {
    && (forall name :: name in files ==> BuiltNumber(user, app, name) <= m)
    && (m == 0 || exists name :: name in files && BuiltNumber(user, app, name) == m)
  }

  /** The highest number among the names of a listing. */
  function HighestOf(user: string, app: string, names: seq<string>): nat {
    if names == [] then 0
    else
      var n := |names| - 1;
      var rest := HighestOf(user, app, names[..n]);
      var b := BuiltNumber(user, app, names[n]);
      if b > rest then b else rest
  }

  lemma {:induction false} HighestOfListing(user: string, app: string, names: seq<string>)
    ensures IsHighest(user, app, SetOf(names), HighestOf(user, app, names))
  {
    if names != [] {
      var n := |names| - 1;
      HighestOfListing(user, app, names[..n]);
      assert names == names[..n] + [names[n]];
      assert SetOf(names) == SetOf(names[..n]) + {names[n]};
    }
  }

  lemma {:induction false} ListingOf(files: set<string>) returns (names: seq<string>)
    ensures SetOf(names) == files
  {
    if files == {} {
      names := [];
    } else {
      var x :| x in files;
      var rest := ListingOf(files - {x});
      names := rest + [x];
      assert SetOf(names) == SetOf(rest) + {x};
    }
  }

  lemma NamesInExist(files: set<string>)
    ensures exists names :: SetOf(names) == files
  {
    var names := ListingOf(files);
  }

  ghost function NamesIn(files: set<string>): (names: seq<string>)
    ensures SetOf(names) == files
  {
    NamesInExist(files);
    var names :| SetOf(names) == files;
    names
  }

  ghost function HighestBuilt(user: string, app: string, files: set<string>): nat {
    HighestOf(user, app, NamesIn(files))
  }

  lemma HighestBuiltIs(user: string, app: string, files: set<string>)
    ensures IsHighest(user, app, files, HighestBuilt(user, app, files))
  {
    HighestOfListing(user, app, NamesIn(files));
  }

  function SetOf(names: seq<string>): set<string> {
    set name | name in names
  }

  function VersionOf(n: int): string {
    "v" + IntText(n)
  }

  method HighestEntry(user: string, app: string, names: seq<string>) returns (maxVersion: nat)
    ensures IsHighest(user, app, SetOf(names), maxVersion)
  {
    maxVersion := 0;
    var prefix := user + "_" + app + "_v";
    for i := 0 to |names|
      invariant maxVersion == HighestOf(user, app, names[..i])
    {
      assert names[..i + 1][..i] == names[..i];
      maxVersion := RaiseTo(user, app, prefix, names[i], maxVersion);
    }
    assert names[..|names|] == names;
    HighestOfListing(user, app, names);
  }

  /** The version text counts one up and wraps around above the greatest int. */
  ghost predicate NextAfter(version: string, m: nat) {
    && |version| > 1 && version[0] == 'v'
    && (m < 0x7FFF_FFFF_FFFF_FFFF ==> Atoi(version[1..]) == Some(m as int + 1))
    && (m == 0x7FFF_FFFF_FFFF_FFFF ==> Atoi(version[1..]) == Some(-0x8000_0000_0000_0000))
  }

  lemma VersionTextCountsUp(m: nat)
    ensures NextAfter(VersionOf(Successor(m)), m)
  {
    assert VersionOf(Successor(m))[1..] == IntText(Successor(m));
    if m <= INT_MAX {
      AtoiIntText(Successor(m));
    }
  }

  /** `entries` is None when the directory cannot be read, which counts as empty. */
  method GenerateVersion(user: string, app: string, entries: Option<seq<string>>) returns (version: string)
    ensures entries.None? ==> version == VersionOf(1)
    ensures entries.Some? ==> version == NextVersion(user, app, SetOf(entries.value))
    ensures entries.Some? ==> NextAfter(version, HighestBuilt(user, app, SetOf(entries.value)))
  {
    var maxVersion: nat := 0;
    if entries.Some? {
      maxVersion := HighestEntry(user, app, entries.value);
      HighestUnique(user, app, SetOf(entries.value), maxVersion);
    }
    version := VersionOf(Successor(maxVersion));
    VersionTextCountsUp(maxVersion);
  }

  /** One entry of the directory. */
  method RaiseTo(user: string, app: string, prefix: string, name: string, maxVersion: nat) returns (m: nat)
    requires prefix == user + "_" + app + "_v"
    ensures m == var b := BuiltNumber(user, app, name); if b > maxVersion then b else maxVersion
  {
    m := maxVersion;
    if HasPrefix(name, prefix) {
      var number := Atoi(name[|prefix|..]);
      if number.Some? && number.value > m {
        m := number.value;
      }
    }
  }

  lemma HighestUnique(user: string, app: string, files: set<string>, m: nat)
    requires IsHighest(user, app, files, m)
    ensures m == HighestBuilt(user, app, files)
  {
    HighestBuiltIs(user, app, files);
    SameHighest(user, app, files, m, HighestBuilt(user, app, files));
  }

  lemma SameHighest(user: string, app: string, files: set<string>, m: nat, n: nat)
    requires IsHighest(user, app, files, m) && IsHighest(user, app, files, n)
    ensures m == n
  {
  }

  lemma BuiltNumberFits(user: string, app: string, name: string)
    ensures BuiltNumber(user, app, name) <= INT_MAX
  {
  }

  /** A version of the form vN, for a positive N that fits. */
  ghost predicate Canonical(version: string) {
    exists n: nat :: 0 < n <= INT_MAX && version == VersionOf(n)
  }

  lemma CanonicalNumber(n: nat)
    requires 0 < n <= INT_MAX
    ensures VersionNumber(VersionOf(n)) == n && TrimSpace(VersionOf(n)) == VersionOf(n)
  {
    var v := VersionOf(n);
    AtoiDecimal(n);
    assert v[1..] == Decimal(n);
    assert v[|v| - 1] == Decimal(n)[|v| - 2];
  }

  /** A version may also be a bare number. */
  lemma BareNumber(n: nat)
    requires 0 < n <= INT_MAX
    ensures VersionNumber(Decimal(n)) == n
  {
    var d := Decimal(n);
    AtoiDecimal(n);
    assert IsDigit(d[0]) && IsDigit(d[|d| - 1]);
    assert TrimSpace(d) == d && !HasPrefix(d, "v");
  }

  lemma BuiltNumberOfBinary(user: string, app: string, n: nat)
    requires 0 < n <= INT_MAX
    ensures BuiltNumber(user, app, BinaryName(user, app, VersionOf(n))) == n
  {
    var prefix := user + "_" + app + "_v";
    var name := BinaryName(user, app, VersionOf(n));
    assert name == prefix + Decimal(n);
    assert name[|prefix|..] == Decimal(n);
    AtoiDecimal(n);
  }

  /** The next version is above everything built, and its binary is not there yet,
      exactly when the highest number is not the greatest there is. */
  lemma NextVersionIsFree(user: string, app: string, files: set<string>)
    ensures var m := HighestBuilt(user, app, files);
            && (Successor(m) > m <==> m < INT_MAX)
            && (m < INT_MAX ==> BinaryName(user, app, VersionOf(Successor(m))) !in files)
  {
    var m := HighestBuilt(user, app, files);
    HighestBuiltIs(user, app, files);
    if m < INT_MAX {
      BuiltNumberOfBinary(user, app, m + 1);
    } else {
      HighestFits(user, app, files);
    }
  }

  lemma HighestFits(user: string, app: string, files: set<string>)
    ensures HighestBuilt(user, app, files) <= INT_MAX
  {
    var m := HighestBuilt(user, app, files);
    HighestBuiltIs(user, app, files);
    if m > 0 {
      var name :| name in files && BuiltNumber(user, app, name) == m;
      BuiltNumberFits(user, app, name);
    }
  }

  // ------------------------------------------------- clean-ups and builds, over time

  /** The releases directory of one app and what its version.json records. */
  datatype Site = Site(files: set<string>, data: VersionData)

  /** An executed clean-up that got as far as deleting `removed`; a build, recorded
      or not; the activation of a recorded version. */
  datatype Event = Clean(keepLatest: int, removed: set<string>) | Build(recorded: bool) | Activate(version: string)

  ghost predicate Deletable(user: string, app: string, data: VersionData, keepLatest: int, name: string) {
    exists v :: v in AllVersions(data) && !Kept(data, keepLatest, v) && name == BinaryName(user, app, v)
  }

  ghost function NextVersion(user: string, app: string, files: set<string>): string {
    VersionOf(Successor(HighestBuilt(user, app, files)))
  }

  ghost predicate Step(user: string, app: string, s: Site, e: Event, t: Site) {
    match e
    case Clean(keepLatest, removed) =>
      && t.data == s.data && t.files == s.files - removed
      && forall name :: name in removed ==> Deletable(user, app, s.data, keepLatest, name)
    case Build(recorded) =>
      var v := NextVersion(user, app, s.files);
      && t.files == s.files + {BinaryName(user, app, v)}
      && t.data == if recorded then VersionData(v, v, s.data.versions + [v]) else s.data
    case Activate(version) =>
      version in s.data.versions && t == s.(data := s.data.(currentVersion := version))
  }

  /** Whatever part of a plan has been carried out is a clean-up in this sense. */
  lemma PlanIsClean(user: string, app: string, s: Site, keepLatest: int, keep: set<string>, targets: seq<Target>,
                    entries: seq<Entry>, removed: set<string>)
    requires forall v :: v in keep <==> Kept(s.data, keepLatest, v)
    requires PlanAllowed(targets, entries, false, user, app, AllVersions(s.data), keep)
    requires forall name :: name in removed ==> Targeted(targets, name)
    ensures Step(user, app, s, Clean(keepLatest, removed), s.(files := s.files - removed))
  {
    forall name | name in removed
      ensures Deletable(user, app, s.data, keepLatest, name)
    {
      var t :| t in targets && t.name == name;
      assert t.version in AllVersions(s.data) && !Kept(s.data, keepLatest, t.version);
    }
  }

  /** Recorded versions have the form vN, and none is above every binary present. */
  ghost predicate Sound(user: string, app: string, s: Site) {
    && (s.data.currentVersion == "" || Canonical(s.data.currentVersion))
    && (s.data.latestVersion == "" || Canonical(s.data.latestVersion))
    && (forall v :: v in s.data.versions ==> Canonical(v))
    && (forall v :: v in AllVersions(s.data) ==> VersionNumber(v) <= HighestBuilt(user, app, s.files))
  }

  lemma RecordedIsCanonical(user: string, app: string, s: Site, v: string)
    requires Sound(user, app, s) && v in AllVersions(s.data)
    ensures Canonical(v)
  {
    var x := WhereRecorded(s.data, v);
    if x != "" {
      var n: nat :| 0 < n <= INT_MAX && x == VersionOf(n);
      CanonicalNumber(n);
    }
  }

  lemma WhereRecorded(data: VersionData, v: string) returns (x: string)
    requires v in AllVersions(data)
    ensures TrimSpace(x) == v != "" && (x == data.currentVersion || x == data.latestVersion || x in data.versions)
  {
    var named := [data.currentVersion, data.latestVersion];
    UniqueExact(named + data.versions);
    x :| x in named + data.versions && TrimSpace(x) == v;
    assert x == named[0] || x == named[1] || x in data.versions;
  }

  /** A recorded version with the highest recorded number is always kept. */
  lemma HighestIsKept(user: string, app: string, s: Site, keepLatest: int, v: string)
    requires Sound(user, app, s) && v in AllVersions(s.data)
    requires forall w :: w in AllVersions(s.data) ==> VersionNumber(w) <= VersionNumber(v)
    ensures Kept(s.data, keepLatest, v)
  {
    if !Kept(s.data, keepLatest, v) {
      RemovedHasNewerOnes(s.data, keepLatest, v);
      var above := Upto(Newest(s.data), KeepCount(keepLatest));
      var w := above[0];
      KeptIsRecorded(s.data, keepLatest, w);
      RecordedIsCanonical(user, app, s, v);
      RecordedIsCanonical(user, app, s, w);
      SameNumberSameVersion(v, w);
    }
  }

  lemma SameNumberSameVersion(v: string, w: string)
    requires Canonical(v) && Canonical(w) && VersionNumber(v) == VersionNumber(w)
    ensures v == w
  {
    var m: nat :| 0 < m <= INT_MAX && v == VersionOf(m);
    var n: nat :| 0 < n <= INT_MAX && w == VersionOf(n);
    CanonicalNumber(m);
    CanonicalNumber(n);
  }

  /** A clean-up, with whatever setting and however far it got, leaves the next
      version number as it was. */
  lemma CleanKeepsNextVersion(user: string, app: string, s: Site, t: Site, keepLatest: int, removed: set<string>)
    requires Sound(user, app, s) && Step(user, app, s, Clean(keepLatest, removed), t)
    ensures HighestBuilt(user, app, t.files) == HighestBuilt(user, app, s.files)
  {
    var m := HighestBuilt(user, app, s.files);
    HighestBuiltIs(user, app, s.files);
    if m > 0 {
      var name :| name in s.files && BuiltNumber(user, app, name) == m;
      if name in removed {
        var v :| v in AllVersions(s.data) && !Kept(s.data, keepLatest, v) && name == BinaryName(user, app, v);
        RecordedIsCanonical(user, app, s, v);
        var n: nat :| 0 < n <= INT_MAX && v == VersionOf(n);
        CanonicalNumber(n);
        BuiltNumberOfBinary(user, app, n);
        HighestIsKept(user, app, s, keepLatest, v);
      }
      assert name in t.files;
    }
    HighestUnique(user, app, t.files, m);
  }

  lemma BuildRaisesHighest(user: string, app: string, files: set<string>)
    requires HighestBuilt(user, app, files) < INT_MAX
    ensures var more := files + {BinaryName(user, app, NextVersion(user, app, files))};
            HighestBuilt(user, app, more) == HighestBuilt(user, app, files) + 1
  {
    var m := HighestBuilt(user, app, files);
    var name := BinaryName(user, app, NextVersion(user, app, files));
    HighestBuiltIs(user, app, files);
    BuiltNumberOfBinary(user, app, m + 1);
    assert name in files + {name};
    HighestUnique(user, app, files + {name}, m + 1);
  }

  lemma StepKeepsSound(user: string, app: string, s: Site, e: Event, t: Site)
    requires Sound(user, app, s) && Step(user, app, s, e, t) && HighestBuilt(user, app, s.files) < INT_MAX
    ensures Sound(user, app, t)
    ensures HighestBuilt(user, app, t.files) == HighestBuilt(user, app, s.files) + if e.Build? then 1 else 0
  {
    match e
    case Clean(keepLatest, removed) =>
      CleanKeepsNextVersion(user, app, s, t, keepLatest, removed);
    case Build(recorded) =>
      BuildRaisesHighest(user, app, s.files);
      if recorded { RecordedStaysSound(user, app, s, t, HighestBuilt(user, app, s.files) + 1); }
    case Activate(version) =>
      ActivatedStaysRecorded(s.data, version);
  }

  lemma ActivatedStaysRecorded(data: VersionData, version: string)
    requires version in data.versions
    ensures forall v :: v in AllVersions(data.(currentVersion := version)) ==> v in AllVersions(data)
  {
    var named, more := [data.currentVersion, data.latestVersion], [version, data.latestVersion];
    UniqueExact(named + data.versions);
    UniqueExact(more + data.versions);
    forall x | x in more + data.versions
      ensures x in named + data.versions
    {
      assert x == more[0] || x == more[1] || x in data.versions;
      assert named[1] in named;
    }
  }

  lemma RecordedStaysSound(user: string, app: string, s: Site, t: Site, n: nat)
    requires Sound(user, app, s) && 0 < n <= INT_MAX
    requires t.data == VersionData(VersionOf(n), VersionOf(n), s.data.versions + [VersionOf(n)])
    requires HighestBuilt(user, app, t.files) >= n >= HighestBuilt(user, app, s.files)
    ensures Sound(user, app, t)
  {
    CanonicalNumber(n);
    forall w | w in AllVersions(t.data)
      ensures VersionNumber(w) <= HighestBuilt(user, app, t.files)
    {
      RecordedBefore(s.data, t.data, VersionOf(n), w);
    }
  }

  /** Recording a version adds that version and nothing else. */
  lemma RecordedBefore(before: VersionData, after: VersionData, v: string, w: string)
    requires after == VersionData(v, v, before.versions + [v]) && TrimSpace(v) == v
    requires w in AllVersions(after)
    ensures w == v || w in AllVersions(before)
  {
    UniqueExact([v, v] + after.versions);
    var x :| x in [v, v] + after.versions && TrimSpace(x) == w;
    if x != v {
      assert x in before.versions;
      RecordedFrom(before, x);
    }
  }

  ghost predicate Run(user: string, app: string, sites: seq<Site>, events: seq<Event>) {
    && |sites| == |events| + 1
    && (forall i {:trigger events[i]} :: 0 <= i < |events| ==> Step(user, app, sites[i], events[i], sites[i + 1]))
    && (forall i :: 0 <= i < |sites| ==> HighestBuilt(user, app, sites[i].files) < INT_MAX)
  }

  lemma {:induction false} RunStaysSound(user: string, app: string, sites: seq<Site>, events: seq<Event>, j: nat)
    requires Run(user, app, sites, events) && Sound(user, app, sites[0]) && j < |sites|
    ensures Sound(user, app, sites[j])
  {
    if j > 0 {
      RunStaysSound(user, app, sites, events, j - 1);
      RunStep(user, app, sites, events, j - 1);
    }
  }

  lemma RunStep(user: string, app: string, sites: seq<Site>, events: seq<Event>, j: nat)
    requires Run(user, app, sites, events) && j < |events| && Sound(user, app, sites[j])
    ensures Sound(user, app, sites[j + 1])
    ensures HighestBuilt(user, app, sites[j].files) <= HighestBuilt(user, app, sites[j + 1].files)
  {
    StepKeepsSound(user, app, sites[j], events[j], sites[j + 1]);
  }

  lemma RunGrowsOnce(user: string, app: string, sites: seq<Site>, events: seq<Event>, j: nat)
    requires Run(user, app, sites, events) && Sound(user, app, sites[0]) && j < |events|
    ensures HighestBuilt(user, app, sites[j].files) <= HighestBuilt(user, app, sites[j + 1].files)
  {
    RunStaysSound(user, app, sites, events, j);
    RunStep(user, app, sites, events, j);
  }

  lemma HeightsOf(user: string, app: string, sites: seq<Site>) returns (heights: seq<nat>)
    ensures |heights| == |sites|
    ensures forall k {:trigger heights[k]} :: 0 <= k < |sites| ==> heights[k] == HighestBuilt(user, app, sites[k].files)
  {
    heights := seq(|sites|, k requires 0 <= k < |sites| => HighestBuilt(user, app, sites[k].files));
  }

  lemma {:induction false} StepwiseRise(heights: seq<nat>, i: nat, j: nat)
    requires i <= j < |heights|
    requires forall k {:trigger heights[k]} :: 0 < k < |heights| ==> heights[k - 1] <= heights[k]
    ensures heights[i] <= heights[j]
  {
    if i < j { StepwiseRise(heights, i, j - 1); }
  }

  lemma HeightsRise(user: string, app: string, sites: seq<Site>, events: seq<Event>, heights: seq<nat>, k: nat)
    requires Run(user, app, sites, events) && Sound(user, app, sites[0]) && 0 < k < |sites| == |heights|
    requires heights[k - 1] == HighestBuilt(user, app, sites[k - 1].files)
    requires heights[k] == HighestBuilt(user, app, sites[k].files)
    ensures heights[k - 1] <= heights[k]
  {
    RunGrowsOnce(user, app, sites, events, k - 1);
  }

  lemma RunNeverSinks(user: string, app: string, sites: seq<Site>, events: seq<Event>, i: nat, j: nat)
    requires Run(user, app, sites, events) && Sound(user, app, sites[0]) && i <= j < |sites|
    ensures HighestBuilt(user, app, sites[i].files) <= HighestBuilt(user, app, sites[j].files)
  {
    var heights := HeightsOf(user, app, sites);
    forall k {:trigger heights[k]} | 0 < k < |heights|
      ensures heights[k - 1] <= heights[k]
    {
      HeightsRise(user, app, sites, events, heights, k);
    }
    StepwiseRise(heights, i, j);
  }

  /** However clean-ups, builds and activations are mixed, the version the next build
      takes is above every version recorded at any earlier time, and no binary of
      that name was there at any earlier time. */
  lemma VersionsAreNeverReused(user: string, app: string, sites: seq<Site>, events: seq<Event>, i: nat, j: nat)
    requires Run(user, app, sites, events) && Sound(user, app, sites[0]) && i <= j < |sites|
    ensures var next := NextVersion(user, app, sites[j].files);
            && (forall v :: v in AllVersions(sites[i].data) ==> VersionNumber(v) < VersionNumber(next))
            && BinaryName(user, app, next) !in sites[i].files
  {
    RunNeverSinks(user, app, sites, events, i, j);
    RunStaysSound(user, app, sites, events, i);
    NextIsAbove(user, app, sites[i], sites[j].files);
  }

  lemma NextIsAbove(user: string, app: string, earlier: Site, files: set<string>)
    requires Sound(user, app, earlier)
    requires HighestBuilt(user, app, earlier.files) <= HighestBuilt(user, app, files) < INT_MAX
    ensures var next := NextVersion(user, app, files);
            && (forall v :: v in AllVersions(earlier.data) ==> VersionNumber(v) < VersionNumber(next))
            && BinaryName(user, app, next) !in earlier.files
  {
    var n := HighestBuilt(user, app, files) + 1;
    CanonicalNumber(n);
    BuiltNumberOfBinary(user, app, n);
    HighestBuiltIs(user, app, earlier.files);
  }
}
