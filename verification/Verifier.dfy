/** Accepting a backup archive (verifyBackupArchive and compareBackupManifest in
    cmd/kagectl/backup.go). */
module Verifier {
  import opened Strings
  import opened Seqs
  import opened Paths
  import opened Archive

  function NameOf(e: TarEntry): string {
    TrimSpace(e.name)
  }

  predicate IsManifest(e: TarEntry) {
    NameOf(e) == MANIFEST
  }

  function KindName(kind: Kind): string {
    match kind
    case DirEntry => "dir"
    case FileEntry => "file"
    case LinkEntry => "symlink"
    case OtherEntry => ""
  }

  /** What a reader of the archive sees of an entry. */
  function Seen(c: Codec, e: TarEntry): Facts {
    Facts(KindName(e.kind), e.size, e.meta.mode % PERMISSIONS, e.meta.uid, e.meta.gid,
          if e.kind.FileEntry? then c.digest(e.body) else "",
          if e.kind.LinkEntry? then e.link else "")
  }

  /** The manifest as read, from no more than the first 16 MiB. */
  function ReadManifest(c: Codec, e: TarEntry): Option<Manifest> {
    c.decode(if |e.body| <= READ_LIMIT then e.body else e.body[..READ_LIMIT])
  }

  function Required(): seq<string> {
    ["config/kage.yaml", "data/mysql", "data/minio", "data/namespace", "data/data", "data/tls"]
  }

  predicate Current(m: Manifest) {
    m.schema == SCHEMA && m.consistent && m.stoppedStack
  }

  // ------------------------------------------------------------ what is accepted

  predicate SafeNames(entries: seq<TarEntry>) {
    forall i :: 0 <= i < |entries| ==> ValidateArchivePath(entries[i].name).Some?
  }

  predicate KnownKinds(entries: seq<TarEntry>) {
    forall i :: 0 <= i < |entries| ==> IsManifest(entries[i]) || !entries[i].kind.OtherEntry?
  }

  predicate DistinctNames(entries: seq<TarEntry>) {
    forall i, j :: 0 <= i < j < |entries| ==> NameOf(entries[i]) != NameOf(entries[j])
  }

  predicate DistinctRecords(records: seq<Record>) {
    forall i, j :: 0 <= i < j < |records| ==> records[i].path != records[j].path
  }

  ghost predicate Describes(c: Codec, entries: seq<TarEntry>, r: Record) {
    exists e :: e in entries && !IsManifest(e) && r == Record(NameOf(e), Seen(c, e))
  }

  ghost predicate HoldsManifest(c: Codec, entries: seq<TarEntry>, m: Manifest) {
    exists e :: e in entries && IsManifest(e) && ReadManifest(c, e) == Some(m)
  }

  /** Records and entries match one to one: no path occurs twice on either side, and the
      records are exactly the descriptions of the entries other than the manifest. */
  ghost predicate Matching(c: Codec, entries: seq<TarEntry>, records: seq<Record>) {
    && DistinctRecords(records)
    && DistinctNames(entries)
    && forall r :: r in records <==> Describes(c, entries, r)
  }

  ghost predicate HasName(entries: seq<TarEntry>, name: string) {
    exists e :: e in entries && !IsManifest(e) && NameOf(e) == name
  }

  ghost predicate HasRequired(entries: seq<TarEntry>) {
    forall i :: 0 <= i < |Required()| ==> HasName(entries, Required()[i])
  }

  ghost predicate Accepts(c: Codec, tar: Tarball, m: Manifest) {
    && !tar.damaged
    && SafeNames(tar.entries)
    && KnownKinds(tar.entries)
    && HoldsManifest(c, tar.entries, m)
    && Current(m)
    && Matching(c, tar.entries, m.records)
    && HasRequired(tar.entries)
  }

  /** What an accepted archive holds by name. */
  lemma AcceptedHolds(c: Codec, tar: Tarball, m: Manifest, name: string)
    requires Accepts(c, tar, m)
    requires || name == "config/kage.yaml" || name == "data/mysql" || name == "data/minio"
             || name == "data/namespace" || name == "data/data" || name == "data/tls"
    ensures HasName(tar.entries, name)
  {
    var i := RequiredIndex(name);
  }

  lemma RequiredIndex(name: string) returns (i: nat)
    requires || name == "config/kage.yaml" || name == "data/mysql" || name == "data/minio"
             || name == "data/namespace" || name == "data/data" || name == "data/tls"
    ensures i < |Required()| && Required()[i] == name
  {
    i := if name == "config/kage.yaml" then 0
         else if name == "data/mysql" then 1
         else if name == "data/minio" then 2
         else if name == "data/namespace" then 3
         else if name == "data/data" then 4 else 5;
  }

  /** Every entry of an accepted archive has its record, field by field. */
  lemma AcceptedMatches(c: Codec, tar: Tarball, m: Manifest, e: TarEntry) returns (r: Record)
    requires Accepts(c, tar, m) && e in tar.entries && !IsManifest(e)
    ensures r in m.records && r.path == TrimSpace(e.name)
    ensures match e.kind
            case DirEntry => r.facts.kind == "dir" && r.facts.digest == "" && r.facts.link == ""
            case FileEntry => r.facts.kind == "file" && r.facts.digest == c.digest(e.body) && r.facts.link == ""
            case LinkEntry => r.facts.kind == "symlink" && r.facts.digest == "" && r.facts.link == e.link
            case OtherEntry => false
    ensures r.facts.size == e.size && r.facts.mode == e.meta.mode % 512
    ensures r.facts.uid == e.meta.uid && r.facts.gid == e.meta.gid
  {
    r := Record(NameOf(e), Seen(c, e));
    assert Describes(c, tar.entries, r);
    var i :| 0 <= i < |tar.entries| && tar.entries[i] == e;
    assert !tar.entries[i].kind.OtherEntry?;
  }

  /** What the manifest of an accepted archive declares, and how its entry could be read. */
  lemma AcceptedDeclares(c: Codec, tar: Tarball, m: Manifest)
    requires Accepts(c, tar, m)
    ensures m.schema == "kageos.backup.v1" && m.consistent && m.stoppedStack
    ensures exists e :: e in tar.entries && TrimSpace(e.name) == "manifest.json"
                        && c.decode(if |e.body| <= 16_777_216 then e.body else e.body[..16_777_216]) == Some(m)
  {
    var e :| e in tar.entries && IsManifest(e) && ReadManifest(c, e) == Some(m);
  }

  /** A damaged archive is refused, and so is one with an entry that is neither directory, file nor
      link, with a name that is not safe, or with two entries of one name, manifests included. */
  lemma Refused(c: Codec, tar: Tarball, m: Manifest, i: nat, j: nat)
    requires i < |tar.entries| && j < |tar.entries|
    requires || tar.damaged
             || (tar.entries[i].kind.OtherEntry? && TrimSpace(tar.entries[i].name) != "manifest.json")
             || ValidateArchivePath(tar.entries[i].name).None?
             || (i != j && TrimSpace(tar.entries[i].name) == TrimSpace(tar.entries[j].name))
    ensures !Accepts(c, tar, m)
  {
    assert NameOf(tar.entries[i]) == NameOf(tar.entries[j]) <==> TrimSpace(tar.entries[i].name) == TrimSpace(tar.entries[j].name);
  }

  /** An archive of the configuration and a manifest, whatever that says, is refused. */
  lemma OnlyConfigIsRefused(c: Codec, config: TarEntry, manifest: TarEntry, m: Manifest)
    requires NameOf(config) == "config/kage.yaml" && IsManifest(manifest)
    ensures !Accepts(c, Tarball([config, manifest], false), m)
  {
    var tar := Tarball([config, manifest], false);
    if Accepts(c, tar, m) { AcceptedHolds(c, tar, m, "data/mysql"); }
  }

  // ----------------------------------------------------------------- comparison

  ghost predicate Agrees(records: seq<Record>, observed: map<string, Facts>) {
    && DistinctRecords(records)
    && (forall i :: 0 <= i < |records| ==>
          records[i].path in observed && observed[records[i].path] == records[i].facts)
    && (forall p :: p in observed ==> exists i :: 0 <= i < |records| && records[i].path == p)
  }

  function PathsOf(records: seq<Record>): set<string> {
    set i | 0 <= i < |records| :: records[i].path
  }

  lemma {:induction false} DistinctRecordsSize(records: seq<Record>)
    ensures |PathsOf(records)| <= |records|
    ensures DistinctRecords(records) ==> |PathsOf(records)| == |records|
  {
    if records != [] {
      var n := |records| - 1;
      DistinctRecordsSize(records[..n]);
      var before := PathsOf(records[..n]);
      assert PathsOf(records) == before + {records[n].path} by {
        forall p | p in PathsOf(records)
          ensures p in before + {records[n].path}
        {
          var i :| 0 <= i < |records| && records[i].path == p;
          if i < n { assert records[..n][i].path == p; }
        }
        forall p | p in before
          ensures p in PathsOf(records)
        {
          var i :| 0 <= i < n && records[..n][i].path == p;
          assert records[i].path == p;
        }
      }
      if DistinctRecords(records) {
        assert forall i :: 0 <= i < n ==> records[..n][i].path != records[n].path;
      }
    }
  }

  lemma EqualWhenFull<T>(small: set<T>, large: set<T>)
    requires small <= large && |small| == |large|
    ensures small == large
  {
    assert large == small + (large - small);
  }

  method CompareBackupManifest(records: seq<Record>, observed: map<string, Facts>) returns (ok: bool)
    ensures ok <==> Agrees(records, observed)
  {
    if |records| != |observed| {
      CountsAgree(records, observed);
      return false;
    }
    var seen: set<string> := {};
    for k := 0 to |records|
      invariant Compared(records, observed, k, seen)
    {
      if records[k].path in seen {
        SeenBefore(records, observed, k, seen);
        return false;
      }
      if records[k].path !in observed { return false; }
      if observed[records[k].path] != records[k].facts { return false; }
      ComparedNext(records, observed, k, seen);
      seen := seen + {records[k].path};
    }
    AllCompared(records, observed, seen);
    ok := true;
  }

  /** The first records have distinct paths, which are `seen`, and were observed as recorded. */
  ghost predicate Compared(records: seq<Record>, observed: map<string, Facts>, k: nat, seen: set<string>) {
    && k <= |records|
    && seen == PathsOf(records[..k])
    && DistinctRecords(records[..k])
    && forall i :: 0 <= i < k ==> records[i].path in observed && observed[records[i].path] == records[i].facts
  }

  lemma SeenBefore(records: seq<Record>, observed: map<string, Facts>, k: nat, seen: set<string>)
    requires k < |records| && Compared(records, observed, k, seen) && records[k].path in seen
    ensures !Agrees(records, observed)
  {
    var i :| 0 <= i < k && records[..k][i].path == records[k].path;
    assert records[i].path == records[k].path;
  }

  lemma ComparedNext(records: seq<Record>, observed: map<string, Facts>, k: nat, seen: set<string>)
    requires k < |records| && Compared(records, observed, k, seen) && records[k].path !in seen
    requires records[k].path in observed && observed[records[k].path] == records[k].facts
    ensures Compared(records, observed, k + 1, seen + {records[k].path})
  {
    PathsOfStep(records, k);
    TakeNext(records, k);
    forall i | 0 <= i < k
      ensures records[..k][i].path != records[k].path
    {
      assert records[..k][i].path in seen;
    }
  }

  lemma AllCompared(records: seq<Record>, observed: map<string, Facts>, seen: set<string>)
    requires |records| == |observed| && Compared(records, observed, |records|, seen)
    ensures Agrees(records, observed)
  {
    TakeAll(records);
    AllObserved(records, observed);
  }

  lemma PathsOfStep(records: seq<Record>, k: nat)
    requires k < |records|
    ensures PathsOf(records[..k + 1]) == PathsOf(records[..k]) + {records[k].path}
  {
    forall p
      ensures p in PathsOf(records[..k + 1]) <==> p in PathsOf(records[..k]) + {records[k].path}
    {
      if p in PathsOf(records[..k + 1]) {
        var i :| 0 <= i < k + 1 && records[..k + 1][i].path == p;
        if i < k { assert records[..k][i].path == p; }
      }
      if p in PathsOf(records[..k]) {
        var i :| 0 <= i < k && records[..k][i].path == p;
        assert records[..k + 1][i].path == p;
      }
      if p == records[k].path { assert records[..k + 1][k].path == p; }
    }
  }

  lemma CountsAgree(records: seq<Record>, observed: map<string, Facts>)
    ensures Agrees(records, observed) ==> |records| == |observed|
  {
    DistinctRecordsSize(records);
    if Agrees(records, observed) { assert PathsOf(records) == observed.Keys; }
  }

  /** The pigeonhole step: as many distinct recorded paths as observed ones, all observed. */
  lemma AllObserved(records: seq<Record>, observed: map<string, Facts>)
    requires |records| == |observed| && DistinctRecords(records)
    requires forall i :: 0 <= i < |records| ==> records[i].path in observed
    ensures forall p :: p in observed ==> exists i :: 0 <= i < |records| && records[i].path == p
  {
    DistinctRecordsSize(records);
    EqualWhenFull(PathsOf(records), observed.Keys);
    forall p | p in observed
      ensures exists i :: 0 <= i < |records| && records[i].path == p
    {
      assert p in PathsOf(records);
    }
  }

  // ------------------------------------------------------------------- reading

  ghost predicate NamesSeen(entries: seq<TarEntry>, observed: map<string, Facts>) {
    forall p :: p in observed <==> HasName(entries, p)
  }

  ghost predicate FactsSeen(c: Codec, entries: seq<TarEntry>, observed: map<string, Facts>) {
    forall e :: e in entries && !IsManifest(e) ==> NameOf(e) in observed && observed[NameOf(e)] == Seen(c, e)
  }

  ghost predicate ManifestSeen(c: Codec, entries: seq<TarEntry>, found: Option<Manifest>) {
    match found
    case Some(m) => HoldsManifest(c, entries, m)
    case None => forall e :: e in entries ==> !IsManifest(e)
  }

  /** What is known after reading these entries without an objection. */
  ghost predicate Scanned(c: Codec, entries: seq<TarEntry>, observed: map<string, Facts>, found: Option<Manifest>) {
    && SafeNames(entries)
    && KnownKinds(entries)
    && DistinctNames(entries)
    && NamesSeen(entries, observed)
    && FactsSeen(c, entries, observed)
    && ManifestSeen(c, entries, found)
  }

  lemma HasNameStep(entries: seq<TarEntry>, e: TarEntry, name: string)
    ensures HasName(entries + [e], name) <==> HasName(entries, name) || (!IsManifest(e) && NameOf(e) == name)
  {
    if HasName(entries, name) {
      var d :| d in entries && !IsManifest(d) && NameOf(d) == name;
      assert d in entries + [e];
    }
    assert e in entries + [e];
  }

  lemma NewName(c: Codec, entries: seq<TarEntry>, observed: map<string, Facts>, found: Option<Manifest>, e: TarEntry)
    requires Scanned(c, entries, observed, found)
    requires if IsManifest(e) then found.None? else NameOf(e) !in observed
    ensures DistinctNames(entries + [e])
  {
    forall i | 0 <= i < |entries|
      ensures NameOf(entries[i]) != NameOf(e)
    {
      assert entries[i] in entries;
    }
  }

  lemma SafeStep(entries: seq<TarEntry>, e: TarEntry)
    requires SafeNames(entries) && ValidateArchivePath(e.name).Some?
    ensures SafeNames(entries + [e])
  {
  }

  lemma KindStep(entries: seq<TarEntry>, e: TarEntry)
    requires KnownKinds(entries) && (IsManifest(e) || !e.kind.OtherEntry?)
    ensures KnownKinds(entries + [e])
  {
  }

  lemma FactsStep(c: Codec, entries: seq<TarEntry>, observed: map<string, Facts>, name: string, facts: Facts,
                  e: TarEntry)
    requires FactsSeen(c, entries, observed) && name == NameOf(e) && facts == Seen(c, e)
    requires name !in observed
    ensures FactsSeen(c, entries + [e], observed[name := facts])
  {
  }

  lemma ManifestStep(c: Codec, entries: seq<TarEntry>, found: Option<Manifest>, e: TarEntry)
    requires ManifestSeen(c, entries, found) && !IsManifest(e)
    ensures ManifestSeen(c, entries + [e], found)
  {
    if found.Some? {
      var d :| d in entries && IsManifest(d) && ReadManifest(c, d) == found;
      assert d in entries + [e];
    }
  }

  lemma ScanEntry(c: Codec, entries: seq<TarEntry>, observed: map<string, Facts>, found: Option<Manifest>, e: TarEntry)
    requires Scanned(c, entries, observed, found)
    requires ValidateArchivePath(e.name).Some?
    requires !IsManifest(e) && !e.kind.OtherEntry? && NameOf(e) !in observed
    ensures Scanned(c, entries + [e], observed[NameOf(e) := Seen(c, e)], found)
  {
    NewName(c, entries, observed, found, e);
    SafeStep(entries, e);
    KindStep(entries, e);
    FactsStep(c, entries, observed, NameOf(e), Seen(c, e), e);
    ManifestStep(c, entries, found, e);
    forall p { HasNameStep(entries, e, p); }
  }

  lemma ScanManifest(c: Codec, entries: seq<TarEntry>, observed: map<string, Facts>, e: TarEntry, m: Manifest)
    requires Scanned(c, entries, observed, None)
    requires ValidateArchivePath(e.name).Some? && IsManifest(e) && ReadManifest(c, e) == Some(m)
    ensures Scanned(c, entries + [e], observed, Some(m))
  {
    NewName(c, entries, observed, None, e);
    SafeStep(entries, e);
    KindStep(entries, e);
    forall p { HasNameStep(entries, e, p); }
    assert e in entries + [e];
  }

  /** Only one manifest can be read from entries with distinct names. */
  lemma OneManifest(c: Codec, entries: seq<TarEntry>, e: TarEntry, m: Manifest)
    requires DistinctNames(entries) && e in entries && IsManifest(e)
    ensures HoldsManifest(c, entries, m) ==> ReadManifest(c, e) == Some(m)
  {
    if HoldsManifest(c, entries, m) {
      var d :| d in entries && IsManifest(d) && ReadManifest(c, d) == Some(m);
      var i :| 0 <= i < |entries| && entries[i] == d;
      var j :| 0 <= j < |entries| && entries[j] == e;
      assert i == j;
    }
  }

  lemma RepeatedName(entries: seq<TarEntry>, k: nat, e: TarEntry)
    requires k < |entries| && e in entries[..k] && NameOf(e) == NameOf(entries[k])
    ensures !DistinctNames(entries)
  {
    var i :| 0 <= i < k && entries[..k][i] == e;
    assert NameOf(entries[i]) == NameOf(entries[k]);
  }

  lemma AgreeingMatches(c: Codec, entries: seq<TarEntry>, observed: map<string, Facts>, found: Option<Manifest>,
                        records: seq<Record>)
    requires Scanned(c, entries, observed, found) && Agrees(records, observed)
    ensures Matching(c, entries, records)
  {
    forall r
      ensures r in records <==> Describes(c, entries, r)
    {
      if r in records {
        assert r.path in observed;
        var e :| e in entries && !IsManifest(e) && NameOf(e) == r.path;
      }
      if Describes(c, entries, r) {
        var i :| 0 <= i < |records| && records[i].path == r.path;
      }
    }
  }

  lemma MatchingAgrees(c: Codec, entries: seq<TarEntry>, observed: map<string, Facts>, found: Option<Manifest>,
                       records: seq<Record>)
    requires Scanned(c, entries, observed, found) && Matching(c, entries, records)
    ensures Agrees(records, observed)
  {
    forall i | 0 <= i < |records|
      ensures records[i].path in observed && observed[records[i].path] == records[i].facts
    {
      assert records[i] in records;
      assert Describes(c, entries, records[i]);
    }
    forall p | p in observed
      ensures exists i :: 0 <= i < |records| && records[i].path == p
    {
      ObservedIsRecorded(c, entries, observed, records, p);
    }
  }

  lemma ObservedIsRecorded(c: Codec, entries: seq<TarEntry>, observed: map<string, Facts>, records: seq<Record>, p: string)
    requires NamesSeen(entries, observed) && Matching(c, entries, records) && p in observed
    ensures exists i :: 0 <= i < |records| && records[i].path == p
  {
    var e :| e in entries && !IsManifest(e) && NameOf(e) == p;
    assert Describes(c, entries, Record(p, Seen(c, e)));
  }

  /** The records agree with what was observed exactly when they match the entries. */
  lemma AgreesIffMatching(c: Codec, entries: seq<TarEntry>, observed: map<string, Facts>, found: Option<Manifest>,
                          records: seq<Record>)
    requires Scanned(c, entries, observed, found)
    ensures Agrees(records, observed) <==> Matching(c, entries, records)
  {
    if Agrees(records, observed) { AgreeingMatches(c, entries, observed, found, records); }
    if Matching(c, entries, records) { MatchingAgrees(c, entries, observed, found, records); }
  }

  /** No manifest makes such entries acceptable. */
  ghost predicate Hopeless(c: Codec, entries: seq<TarEntry>) {
    SafeNames(entries) && KnownKinds(entries) && DistinctNames(entries) ==>
      forall m :: !HoldsManifest(c, entries, m)
  }

  lemma UnsafeName(c: Codec, entries: seq<TarEntry>, k: nat)
    requires k < |entries| && ValidateArchivePath(entries[k].name).None?
    ensures Hopeless(c, entries)
  {
  }

  lemma UnknownKind(c: Codec, entries: seq<TarEntry>, k: nat)
    requires k < |entries| && !IsManifest(entries[k]) && entries[k].kind.OtherEntry?
    ensures Hopeless(c, entries)
  {
  }

  lemma SecondManifest(c: Codec, entries: seq<TarEntry>, k: nat, m: Manifest)
    requires k < |entries| && IsManifest(entries[k]) && HoldsManifest(c, entries[..k], m)
    ensures Hopeless(c, entries)
  {
    var d :| d in entries[..k] && IsManifest(d) && ReadManifest(c, d) == Some(m);
    RepeatedName(entries, k, d);
  }

  lemma SecondEntry(c: Codec, entries: seq<TarEntry>, k: nat)
    requires k < |entries| && HasName(entries[..k], NameOf(entries[k]))
    ensures Hopeless(c, entries)
  {
    var d :| d in entries[..k] && !IsManifest(d) && NameOf(d) == NameOf(entries[k]);
    RepeatedName(entries, k, d);
  }

  lemma UnreadManifest(c: Codec, entries: seq<TarEntry>, k: nat)
    requires k < |entries| && IsManifest(entries[k]) && ReadManifest(c, entries[k]).None?
    ensures Hopeless(c, entries)
  {
    if DistinctNames(entries) {
      forall m { OneManifest(c, entries, entries[k], m); }
    }
  }

  lemma ValidName(name: string)
    ensures ValidateArchivePath(name).Some? ==> ValidateArchivePath(name).value == TrimSpace(name)
  {
    ValidNames(name);
  }

  /** The scanning loop: what it has seen, or nothing if no manifest can save the archive. */
  method ScanEntries(c: Codec, entries: seq<TarEntry>)
    returns (ok: bool, observed: map<string, Facts>, found: Option<Manifest>)
    ensures if ok then Scanned(c, entries, observed, found) else Hopeless(c, entries)
  {
    observed, found := map[], None;
    for k := 0 to |entries|
      invariant Scanned(c, entries[..k], observed, found)
    {
      var e := entries[k];
      TakeNext(entries, k);
      var valid := ValidateArchivePath(e.name);
      if valid.None? {
        UnsafeName(c, entries, k);
        return false, observed, found;
      }
      ValidName(e.name);
      var name := valid.value;
      if name == MANIFEST {
        if found.Some? {
          SecondManifest(c, entries, k, found.value);
          return false, observed, found;
        }
        var manifest := ReadManifest(c, e);
        if manifest.None? {
          UnreadManifest(c, entries, k);
          return false, observed, found;
        }
        ScanManifest(c, entries[..k], observed, e, manifest.value);
        found := manifest;
      } else {
        if name in observed {
          SecondEntry(c, entries, k);
          return false, observed, found;
        }
        if e.kind.OtherEntry? {
          UnknownKind(c, entries, k);
          return false, observed, found;
        }
        ScanEntry(c, entries[..k], observed, found, e);
        observed := observed[name := Seen(c, e)];
      }
    }
    TakeAll(entries);
    ok := true;
  }

  method AllObservedNames(required: seq<string>, observed: map<string, Facts>) returns (ok: bool)
    ensures ok <==> forall i :: 0 <= i < |required| ==> required[i] in observed
  {
    for k := 0 to |required|
      invariant forall i :: 0 <= i < k ==> required[i] in observed
    {
      if required[k] !in observed { return false; }
    }
    ok := true;
  }

  /** A manifest comes out exactly for the archives that `Accepts` describes. */
  method VerifyBackupArchive(c: Codec, tar: Tarball) returns (r: Option<Manifest>)
    ensures forall m :: r == Some(m) <==> Accepts(c, tar, m)
  {
    var ok, observed, found := ScanEntries(c, tar.entries);
    if !ok || tar.damaged || found.None? {
      NothingToAccept(c, tar, observed, found, ok);
      return None;
    }
    Verdict(c, tar, observed, found.value);
    if found.value.schema != SCHEMA || !found.value.consistent || !found.value.stoppedStack { return None; }
    var agrees := CompareBackupManifest(found.value.records, observed);
    if !agrees { return None; }
    var complete := AllObservedNames(Required(), observed);
    if !complete { return None; }
    r := found;
  }

  lemma NothingToAccept(c: Codec, tar: Tarball, observed: map<string, Facts>, found: Option<Manifest>, ok: bool)
    requires if ok then Scanned(c, tar.entries, observed, found) else Hopeless(c, tar.entries)
    requires !ok || tar.damaged || found.None?
    ensures forall m :: !Accepts(c, tar, m)
  {
  }

  lemma Verdict(c: Codec, tar: Tarball, observed: map<string, Facts>, manifest: Manifest)
    requires Scanned(c, tar.entries, observed, Some(manifest)) && !tar.damaged
    ensures forall m :: Accepts(c, tar, m) <==>
              && m == manifest
              && Current(manifest)
              && Agrees(manifest.records, observed)
              && (forall i :: 0 <= i < |Required()| ==> Required()[i] in observed)
  {
    AgreesIffMatching(c, tar.entries, observed, Some(manifest), manifest.records);
    OnlyManifest(c, tar, observed, manifest);
    RequiredSeen(tar.entries, observed);
  }

  lemma RequiredSeen(entries: seq<TarEntry>, observed: map<string, Facts>)
    requires NamesSeen(entries, observed)
    ensures HasRequired(entries) <==> forall i :: 0 <= i < |Required()| ==> Required()[i] in observed
  {
  }

  lemma OnlyManifest(c: Codec, tar: Tarball, observed: map<string, Facts>, manifest: Manifest)
    requires Scanned(c, tar.entries, observed, Some(manifest))
    ensures forall m :: Accepts(c, tar, m) ==> m == manifest
  {
    var e :| e in tar.entries && IsManifest(e) && ReadManifest(c, e) == Some(manifest);
    forall m | Accepts(c, tar, m)
      ensures m == manifest
    {
      OneManifest(c, tar.entries, e, m);
    }
  }
}
