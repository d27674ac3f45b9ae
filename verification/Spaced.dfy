/** A stack that holds a file whose name ends in a space: its backup is written, but not accepted
    (writeBackupArchive and verifyBackupArchive in cmd/kagectl/backup.go). */
module Spaced {
  import opened Strings
  import opened Paths
  import opened Trees
  import opened Archive
  import opened Verifier
  import opened BackupRoundTrip

  const NO_META := Meta(0, 0, 0)

  /** A folder with one file of that name. */
  function FolderOf(name: string): Item {
    Folder(NO_META, [Child(name, File(NO_META, []))])
  }

  function SpacedSources(name: string): seq<Source> {
    [Source(["config", "kage.yaml"], Some(File(NO_META, []))), Source(["data", "mysql"], Some(FolderOf(name))),
     Source(["data", "minio"], Some(Folder(NO_META, []))), Source(["data", "namespace"], Some(Folder(NO_META, []))),
     Source(["data", "data"], Some(Folder(NO_META, []))), Source(["data", "tls"], Some(Folder(NO_META, [])))]
  }

  lemma OneFile(name: string)
    requires Proper(name)
    ensures WellFormed(FolderOf(name)) && At(FolderOf(name), [name]) == Some(File(NO_META, []))
    ensures forall rel :: At(FolderOf(name), rel).Some? ==> !At(FolderOf(name), rel).value.Special?
  {
    var c := Child(name, File(NO_META, []));
    assert [c][..0] == [] && [name][1..] == [];
    forall rel | At(FolderOf(name), rel).Some?
      ensures !At(FolderOf(name), rel).value.Special?
    {
      if rel != [] { assert Named([c], rel[0]) == if rel[0] == name then Some(c.item) else None; }
    }
  }

  lemma SpacedIsProduction(name: string)
    requires Proper(name)
    ensures ProductionSources(SpacedSources(name))
  {
    OneFile(name);
    forall i | 0 <= i < |SpacedSources(name)|
      ensures SpacedSources(name)[i].root == SourceRoots()[i] && AllProper(SourceRoots()[i]) && SourceRoots()[i] != []
      ensures SpacedSources(name)[i].item.Some? && WellFormed(SpacedSources(name)[i].item.value)
    {
    }
  }

  lemma SpacedIsComplete(name: string)
    requires Proper(name)
    ensures Complete(SpacedSources(name))
  {
    SpacedIsProduction(name);
    var sources := SpacedSources(name);
    forall k | 0 <= k < |AllVisits(sources)|
      ensures !AllVisits(sources)[k].item.Special?
    {
      var v := AllVisits(sources)[k];
      AllVisitsMeetTheSources(v, sources);
      var i :| 0 <= i < |sources| && Belongs(v, sources[i].root, sources[i].item.value);
      OneFile(name);
    }
  }

  /** Whatever the rest of the manifest says, the archive of such a stack is refused. */
  lemma SpacedNameIsRefused(c: Codec, name: string, m: Manifest, read: Manifest)
    requires c.Lawful() && m.records == [] && Current(m)
    requires Proper(name) && IsSpace(name[|name| - 1])
    ensures ProductionSources(SpacedSources(name)) && Complete(SpacedSources(name))
    ensures !Accepts(c, Written(c, AllVisits(SpacedSources(name)), m), read)
  {
    var sources := SpacedSources(name);
    SpacedIsProduction(name);
    SpacedIsComplete(name);
    OneFile(name);
    var v := Visit(["data", "mysql", name], File(NO_META, []));
    assert v.path[|sources[1].root|..] == [name];
    assert Belongs(v, sources[1].root, sources[1].item.value);
    AllVisitsMeetTheSources(v, sources);
    assert EndsInSpace(v.path);
    WrittenIsAccepted(c, sources, m, read);
  }
}
