/** Putting a backup in the place of the live data, and undoing it (executeProductionRestore and
    its helpers in cmd/kagectl/backup.go). Any step may fail. */
module Restore {
  import opened Strings
  import opened Seqs
  import opened Paths
  import opened Trees
  import opened FileSystem

  /** What stands under one name: a directory with its contents, or something else. */
  type Tree = map<Path, Node>

  /** The trees in one place, by name. */
  type Shelf = map<string, Tree>

  predicate IsDirTree(tree: Tree) {
    [] in tree && tree[[]] == DirNode
  }

  function Get(trees: Shelf, name: string): Option<Tree> {
    if name in trees then Some(trees[name]) else None
  }

  function DataNames(): seq<string> {
    ["mysql", "minio", "namespace", "data", "tls"]
  }

  lemma DataNamesDiffer()
    ensures Distinct(DataNames())
  {
    var names := DataNames();
    assert names[0][1] == 'y' && names[1][1] == 'i';
    assert forall i :: 0 <= i < 5 ==> names[i][0] == ['m', 'm', 'n', 'd', 't'][i];
  }

  /** os.Rename: it needs a source, and takes no directory's place and no directory's
      place with one that is not. */
  predicate CanRename(source: Option<Tree>, target: Option<Tree>, faulty: bool) {
    source.Some? && !faulty && (target.None? || (!IsDirTree(target.value) && !IsDirTree(source.value)))
  }

  /** The names at which a system call fails for reasons of its own. */
  datatype MoveFaults = MoveFaults(lstat: set<string>, rename: set<string>, revert: set<string>)

  datatype InstallFaults = InstallFaults(mkdir: bool, lstat: set<string>, rename: set<string>)

  /** `leftover` holds what RemoveAll fails to remove. */
  datatype UndoFaults = UndoFaults(leftover: Shelf, lstat: set<string>, rename: set<string>)

  datatype Moment = Moment(live: Shelf, rollback: Shelf)

  /** Every original tree is whole in at least one of its two places. */
  ghost predicate Intact(names: seq<string>, orig: Shelf, live: Shelf, rollback: Shelf) {
    forall n :: n in names && n in orig ==>
      (n in live && live[n] == orig[n]) || (n in rollback && rollback[n] == orig[n])
  }

  ghost predicate SameBut(before: Shelf, after: Shelf, name: string) {
    forall n :: n != name ==> Get(after, n) == Get(before, n)
  }

  /** Other names are none of the restore's business. */
  ghost predicate OthersSame(names: seq<string>, before: Shelf, after: Shelf) {
    forall n :: n !in names ==> Get(after, n) == Get(before, n)
  }

  /** Other names are as before, but for what services have made of some of them. */
  ghost predicate OthersSameBut(names: seq<string>, spared: set<string>, before: Shelf, after: Shelf) {
    forall n :: n !in names && n !in spared ==> Get(after, n) == Get(before, n)
  }

  /** What starting an instance makes of a shelf: missing directories are made, and services run. */
  ghost predicate LeftBy(changed: map<string, Option<Tree>>, before: Shelf, after: Shelf) {
    forall n ::
      if n !in changed then Get(after, n) == Get(before, n)
      else if changed[n].None? then n !in after
      else n in after && after[n] == changed[n].value
  }

  ghost predicate Unchanged(live: Shelf, rollback: Shelf, live': Shelf, rollback': Shelf, n: string) {
    Get(live', n) == Get(live, n) && Get(rollback', n) == Get(rollback, n)
  }

  /** The name has gone from the storage root to the rollback directory, if it was there. */
  ghost predicate MovedOut(live: Shelf, rollback: Shelf, live': Shelf, rollback': Shelf, n: string) {
    n !in live' && Get(rollback', n) == if n in live then Some(live[n]) else Get(rollback, n)
  }

  /** It went and came back; nothing of that name is left in the rollback directory. */
  ghost predicate MovedBack(live: Shelf, rollback: Shelf, live': Shelf, rollback': Shelf, n: string) {
    n in live && Get(live', n) == Some(live[n]) && n !in rollback'
  }

  /** The storage root, the rollback directory and the staged data during one restore. */
  class Storage {
    /** The names that a restore replaces. */
    const names: seq<string>
    var live: Shelf
    var rollback: Shelf
    var staged: Shelf
    var config: seq<byte>
    /** The live trees at the start, and every state until the restored instance is accepted. */
    ghost const orig: Shelf
    ghost var trace: seq<Moment>

    constructor (live: Shelf, rollback: Shelf, staged: Shelf, config: seq<byte>)
      ensures this.live == live && this.rollback == rollback && this.staged == staged && this.config == config
      ensures orig == live
      ensures names == DataNames() && Sound()
    {
      names := DataNames();
      this.live := live;
      this.rollback := rollback;
      this.staged := staged;
      this.config := config;
      orig := live;
      trace := [Moment(live, rollback)];
      DataNamesDiffer();
    }

    /** No original tree has been lost at any time. */
    ghost predicate NothingLost()
      reads this
    {
      forall i :: 0 <= i < |trace| ==> Intact(names, orig, trace[i].live, trace[i].rollback)
    }

    /** At some time the storage root held these trees. */
    ghost predicate WentThrough(was: Shelf)
      reads this
    {
      exists i :: 0 <= i < |trace| && trace[i].live == was
    }

    ghost predicate Sound()
      reads this
    {
      Distinct(names) && trace != [] && trace[|trace| - 1] == Moment(live, rollback) && NothingLost()
    }

    /** No name has been in both places at once. */
    ghost predicate Apart()
      reads this
    {
      forall i, n :: 0 <= i < |trace| && n in names ==> !(n in trace[i].live && n in trace[i].rollback)
    }

    ghost predicate KeptAside(n: string)
      reads this
    {
      n in names && n in orig ==> n in rollback && rollback[n] == orig[n]
    }

    ghost predicate AllKeptAside()
      reads this
    {
      forall n :: n in names ==> KeptAside(n)
    }

    /** Puts the present state on record. */
    ghost method Advance()
      requires Distinct(names) && NothingLost() && Intact(names, orig, live, rollback)
      modifies this`trace
      ensures Sound() && trace == old(trace) + [Moment(live, rollback)]
      ensures old(Apart()) && (forall n :: n in names ==> !(n in live && n in rollback)) ==> Apart()
    {
      trace := trace + [Moment(live, rollback)];
    }

    method MoveOut(name: string, faulty: bool) returns (ok: bool)
      requires Sound() && Get(live, name) == Get(orig, name)
      modifies this`live, this`rollback, this`trace
      ensures Sound() && old(trace) <= trace
      ensures ok <==> CanRename(Get(old(live), name), Get(old(rollback), name), faulty)
      ensures !ok ==> live == old(live) && rollback == old(rollback)
      ensures ok ==> name in old(live) && live == old(live) - {name}
                     && rollback == old(rollback)[name := old(live)[name]]
      ensures old(Apart()) ==> Apart()
    {
      if !CanRename(Get(live, name), Get(rollback, name), faulty) { return false; }
      rollback := rollback[name := live[name]];
      live := live - {name};
      Advance();
      ok := true;
    }

    method MoveBack(name: string, faulty: bool) returns (ok: bool)
      requires Sound() && KeptAside(name)
      modifies this`live, this`rollback, this`trace
      ensures Sound() && old(trace) <= trace
      ensures ok <==> CanRename(Get(old(rollback), name), Get(old(live), name), faulty)
      ensures !ok ==> live == old(live) && rollback == old(rollback)
      ensures ok ==> name in old(rollback) && live == old(live)[name := old(rollback)[name]]
                     && rollback == old(rollback) - {name}
      ensures old(Apart()) ==> Apart()
    {
      if !CanRename(Get(rollback, name), Get(live, name), faulty) { return false; }
      live := live[name := rollback[name]];
      rollback := rollback - {name};
      Advance();
      ok := true;
    }

    method Install(name: string, faulty: bool) returns (ok: bool)
      requires Sound() && KeptAside(name)
      modifies this`live, this`staged, this`trace
      ensures Sound() && old(trace) <= trace
      ensures ok <==> CanRename(Get(old(staged), name), Get(old(live), name), faulty)
      ensures !ok ==> live == old(live) && staged == old(staged)
      ensures ok ==> name in old(staged) && live == old(live)[name := old(staged)[name]]
                     && staged == old(staged) - {name}
    {
      if !CanRename(Get(staged, name), Get(live, name), faulty) { return false; }
      live := live[name := staged[name]];
      staged := staged - {name};
      trace := trace + [Moment(live, rollback)];
      ok := true;
    }

    /** os.RemoveAll, which may leave something behind. */
    method Remove(name: string, leftover: Option<Tree>)
      requires Sound() && KeptAside(name)
      modifies this`live, this`trace
      ensures Sound() && old(trace) <= trace
      ensures SameBut(old(live), live, name)
      ensures Get(live, name) == if name in old(live) then leftover else None
    {
      if name in live {
        live := match leftover case None => live - {name} case Some(tree) => live[name := tree];
        trace := trace + [Moment(live, rollback)];
      }
    }

    /** What starting the restored instance makes of the storage root, while the originals are
        kept aside. */
    method Disturb(changed: map<string, Option<Tree>>)
      requires Sound() && AllKeptAside()
      modifies this`live, this`trace
      ensures Sound() && old(trace) <= trace && LeftBy(changed, old(live), live)
    {
      live := Changed(live, changed);
      trace := trace + [Moment(live, rollback)];
    }

    /** What starting the old instance again makes of it; from here on its services own the data. */
    method Restart(changed: map<string, Option<Tree>>)
      modifies this`live
      ensures LeftBy(changed, old(live), live)
      ensures old(Sound()) ==> NothingLost() && Settlement() == old(live)
      ensures old(Apart()) ==> Apart()
    {
      live := Changed(live, changed);
    }

    ghost predicate Untouched()
      reads this
    {
      live == orig
    }

    /** Moves back what was moved out, last first, until something fails; `left` of the moves remain. */
    method RevertMoves(moved: seq<string>, f: MoveFaults, ghost rollback0: Shelf) returns (left: nat)
      requires Sound() && Distinct(moved) && forall j :: 0 <= j < |moved| ==> moved[j] in names && moved[j] in orig
      requires OthersSame(names, orig, live) && OthersSame(names, rollback0, rollback)
      requires Halfway(names, orig, rollback0, live, rollback, moved, |moved|)
      modifies this`live, this`rollback, this`trace
      ensures Sound() && old(trace) <= trace && (old(Apart()) ==> Apart())
      ensures OthersSame(names, orig, live) && OthersSame(names, rollback0, rollback)
      ensures left <= |moved| && Halfway(names, orig, rollback0, live, rollback, moved, left)
      ensures left == RevertsTo(moved, |moved|, f)
    {
      left := |moved|;
      while left > 0
        invariant left <= |moved|
        invariant RevertsTo(moved, left, f) == RevertsTo(moved, |moved|, f)
        invariant Sound() && old(trace) <= trace && (old(Apart()) ==> Apart())
        invariant OthersSame(names, orig, live) && OthersSame(names, rollback0, rollback)
        invariant Halfway(names, orig, rollback0, live, rollback, moved, left)
      {
        var ok;
        ok, left := RevertOne(moved, left, f, rollback0);
        if !ok { return; }
      }
    }

    method RevertOne(moved: seq<string>, last: nat, f: MoveFaults, ghost rollback0: Shelf) returns (ok: bool, left: nat)
      requires Sound() && Distinct(moved) && 0 < last <= |moved| && moved[last - 1] in names && moved[last - 1] in orig
      requires OthersSame(names, orig, live) && OthersSame(names, rollback0, rollback)
      requires Halfway(names, orig, rollback0, live, rollback, moved, last)
      modifies this`live, this`rollback, this`trace
      ensures Sound() && old(trace) <= trace && (old(Apart()) ==> Apart())
      ensures OthersSame(names, orig, live) && OthersSame(names, rollback0, rollback)
      ensures ok <==> moved[last - 1] !in f.revert
      ensures left == if ok then last - 1 else last
      ensures Halfway(names, orig, rollback0, live, rollback, moved, left)
    {
      var i := last - 1;
      left := last;
      assert MovedOut(orig, rollback0, live, rollback, moved[i]);
      ghost var l, r := live, rollback;
      ok := MoveBack(moved[i], moved[i] in f.revert);
      if ok {
        left := i;
        StepBack(names, orig, rollback0, l, r, live, rollback, moved, i);
      }
    }

    /** Moves the names out one by one, up to the first that cannot be moved. */
    method MoveUntilBlocked(f: MoveFaults) returns (b: nat, moved: seq<string>)
      requires Sound() && Untouched()
      modifies this`live, this`rollback, this`trace
      ensures Sound() && old(trace) <= trace && (old(Apart()) ==> Apart())
      ensures OthersSame(names, orig, live) && OthersSame(names, old(rollback), rollback)
      ensures GoneSoFar(names, orig, old(rollback), live, rollback, b) && MovedNames(names, orig, b, moved)
      ensures CanMoveAll(f, orig, old(rollback), names[..b])
      ensures b < |names| ==> !CanMove(f, orig, old(rollback), names[b])
    {
      ghost var rollback0 := rollback;
      b, moved := 0, [];
      while b < |names|
        invariant old(trace) <= trace && (old(Apart()) ==> Apart())
        invariant b <= |names| && MovedUpTo(rollback0, b, moved) && CanMoveAll(f, orig, rollback0, names[..b])
      {
        TakeNext(names, b);
        var ok;
        ok, moved := MoveOne(f, b, moved, rollback0);
        if !ok { return; }
        b := b + 1;
      }
    }

    /** The first names have been moved out, those in `moved` because they were there. */
    ghost predicate MovedUpTo(rollback0: Shelf, b: nat, moved: seq<string>)
      reads this
    {
      && Sound()
      && OthersSame(names, orig, live) && OthersSame(names, rollback0, rollback)
      && GoneSoFar(names, orig, rollback0, live, rollback, b) && MovedNames(names, orig, b, moved)
    }

    method MoveOne(f: MoveFaults, b: nat, moved: seq<string>, ghost rollback0: Shelf) returns (ok: bool, more: seq<string>)
      requires b < |names| && MovedUpTo(rollback0, b, moved)
      modifies this`live, this`rollback, this`trace
      ensures old(trace) <= trace && (old(Apart()) ==> Apart())
      ensures ok <==> CanMove(f, orig, rollback0, names[b])
      ensures MovedUpTo(rollback0, if ok then b + 1 else b, more)
    {
      var name := names[b];
      more := moved;
      NextName(names, orig, rollback0, live, rollback, b);
      NextMoved(names, orig, b, moved);
      if name in f.lstat { return false, more; }
      ok := true;
      if name in live {
        ok := MoveOut(name, name in f.rename);
        if ok { more := moved + [name]; }
      }
    }

    /** What exists is moved out; if a name cannot be, what was moved is put back, unless looking at
        the name failed. All is as before then exactly when the failure was a clean one. */
    method MoveLiveDataToRollback(f: MoveFaults) returns (ok: bool, ghost b: nat)
      requires Sound() && Untouched()
      modifies this`live, this`rollback, this`trace
      ensures Sound() && old(trace) <= trace && (old(Apart()) ==> Apart())
      ensures OthersSame(names, orig, live) && OthersSame(names, old(rollback), rollback)
      ensures ok <==> forall n :: n in names ==> CanMove(f, orig, old(rollback), n)
      ensures ok ==> AllMovedOut(names, orig, old(rollback), live, rollback)
      ensures !ok ==> FirstBlocked(names, f, orig, old(rollback), b)
      ensures !ok ==> ThereOrBack(names, orig, old(rollback), live, rollback)
      ensures !ok ==> (AllSettled(names, orig, old(rollback), live, rollback) <==> FailsCleanly(names, f, orig, b))
      ensures !ok && names[b] in f.lstat ==> GoneSoFar(names, orig, old(rollback), live, rollback, b)
    {
      ghost var rollback0 := rollback;
      var at, moved := MoveUntilBlocked(f);
      b := at;
      FirstNames(names, at);
      GoneIsHalfway(names, orig, rollback0, live, rollback, at, moved);
      if at == |names| {
        AllGone(names, orig, rollback0, live, rollback);
        return true, b;
      }
      ok := false;
      var left := |moved|;
      assert forall j :: 0 <= j < |moved| ==> moved[j] in moved;
      if names[at] !in f.lstat { left := RevertMoves(moved, f, rollback0); }
      MoveVerdict(names, f, orig, rollback0, live, rollback, at, moved, left);
    }

    /** Every staged tree takes its place; the first that cannot ends it. */
    method MoveRestoredDataIntoPlace(f: InstallFaults) returns (ok: bool, ghost done: nat)
      requires Sound() && AllKeptAside()
      modifies this`live, this`staged, this`trace
      ensures Sound() && AllKeptAside() && old(trace) <= trace
      ensures OthersSame(names, old(live), live) && OthersSame(names, old(staged), staged)
      ensures ok <==> !f.mkdir && forall n :: n in names ==> CanInstall(f, old(live), old(staged), n)
      ensures InstalledSoFar(names, old(live), old(staged), live, staged, done)
      ensures StoppedAt(names, f, old(live), old(staged), ok, done)
    {
      ghost var live0, staged0 := live, staged;
      done := 0;
      if f.mkdir { return false, done; }
      for i := 0 to |names|
        invariant Sound() && AllKeptAside() && old(trace) <= trace && done == i
        invariant OthersSame(names, live0, live) && OthersSame(names, staged0, staged)
        invariant InstalledSoFar(names, live0, staged0, live, staged, i)
        invariant forall j :: 0 <= j < i ==> CanInstall(f, live0, staged0, names[j])
      {
        var name := names[i];
        NextInstall(names, live0, staged0, live, staged, i);
        assert name in names;
        if name in f.lstat || name !in staged {
          assert !CanInstall(f, live0, staged0, name);
          return false, done;
        }
        ok := Install(name, name in f.rename);
        if !ok { return; }
        done := i + 1;
      }
      ok := true;
    }

    method UndoName(name: string, f: UndoFaults) returns (ok: bool)
      requires Sound() && KeptAside(name)
      modifies this`live, this`rollback, this`trace
      ensures Sound() && old(trace) <= trace
      ensures SameBut(old(live), live, name) && SameBut(old(rollback), rollback, name)
      ensures ok <==> CanPutBack(f, old(live), old(rollback), name)
      ensures if ok then PutBack(f, old(live), old(rollback), live, rollback, name)
              else Cleared(f, old(live), old(rollback), live, rollback, name)
    {
      Remove(name, Get(f.leftover, name));
      if name in f.lstat { return false; }
      ok := true;
      if name in rollback { ok := MoveBack(name, name in f.rename); }
    }

    /** Each name is cleared and gets its original back; the first that cannot ends it. */
    method RestoreRollbackData(f: UndoFaults) returns (ok: bool, ghost done: nat)
      requires Sound() && AllKeptAside()
      modifies this`live, this`rollback, this`trace
      ensures Sound() && old(trace) <= trace
      ensures OthersSame(names, old(live), live) && OthersSame(names, old(rollback), rollback)
      ensures ok <==> forall n :: n in names ==> CanPutBack(f, old(live), old(rollback), n)
      ensures UndoneSoFar(names, f, old(live), old(rollback), live, rollback, done, !ok)
      ensures if ok then done == |names| else !CanPutBack(f, old(live), old(rollback), names[done])
    {
      ghost var live0, rollback0 := live, rollback;
      done := 0;
      for i := 0 to |names|
        invariant Sound() && old(trace) <= trace && done == i
        invariant OthersSame(names, live0, live) && OthersSame(names, rollback0, rollback)
        invariant UndoneSoFar(names, f, live0, rollback0, live, rollback, i, false)
        invariant forall j :: i <= j < |names| ==> KeptAside(names[j])
        invariant forall n :: n in names[..i] ==> CanPutBack(f, live0, rollback0, n)
      {
        var name := names[i];
        TakeNext(names, i);
        ghost var l, r := live, rollback;
        ok := UndoName(name, f);
        NextUndo(names, f, live0, rollback0, l, r, live, rollback, i, ok);
        if !ok { return; }
        done := i + 1;
      }
      TakeAll(names);
      ok := true;
    }

    /** Installs the staged data and its configuration, and starts the instance on it. */
    method InstallAndStart(backedConfig: seq<byte>, script: Script) returns (up: bool)
      requires Sound() && AllKeptAside() && forall n :: n in names ==> n !in live
      modifies this`live, this`staged, this`config, this`trace
      ensures Sound() && AllKeptAside() && old(trace) <= trace
      ensures OthersSameBut(names, script.disturbed.Keys, old(live), live)
      ensures up <==> Starts(names, script, old(staged))
      ensures up ==> AllStarted(names, script, old(staged), live)
      ensures BroughtIn(names, script, old(staged), live)
      ensures config == if WritesConfig(names, script, old(staged)) then backedConfig else old(config)
    {
      ghost var staged0 := staged;
      ghost var live0 := live;
      var installed, done := MoveRestoredDataIntoPlace(script.install);
      FreeToInstall(names, script.install, live0, staged0);
      forall j: nat | j < |names|
        ensures Get(live, names[j]) ==
                  if InstalledUpTo(names, script.install, staged0, j) then Get(staged0, names[j]) else None
      {
        InstalledFromStaged(names, script.install, live0, staged0, live, staged, installed, done, j);
      }
      if !installed || !script.writesConfig { return false; }
      config := backedConfig;
      if !script.renders { return false; }
      ghost var live1, staged1 := live, staged;
      Disturb(script.disturbed);
      StartedFromStaged(names, script, live0, staged0, live1, staged1, live);
      up := script.ups;
    }

    /** The state in which the restore itself has left the trees, before anything is started on it. */
    ghost function Settlement(): Shelf
      reads this
    {
      if trace == [] then map[] else trace[|trace| - 1].live
    }

    /** The way back once the live data has been replaced. */
    method RollBack(oldConfig: seq<byte>, script: Script, ghost rollback0: Shelf) returns (v: Verdict, ghost b: nat)
      requires Sound() && AllKeptAside()
      requires forall n :: n in names ==> Get(rollback, n) == if n in orig then Some(orig[n]) else Get(rollback0, n)
      modifies this
      ensures NothingLost() && (v.UndoFailed? || v.Undone?)
      ensures v.Undone? <==> Undoable(names, script.undo, orig, rollback0, old(live))
      ensures OthersSameBut(names, script.restarted.Keys, old(live), live)
      ensures v.UndoFailed? ==> Sound()
      ensures v.UndoFailed? ==> StoppedUndo(names, script.undo, orig, rollback0, old(live), live, rollback, b)
      ensures config == if v.Undone? && script.writesOldConfig then oldConfig else old(config)
      ensures v.Undone? ==> WentBack(names, script, orig, rollback0, old(live), Settlement(), live, oldConfig, config, v)
      ensures v.Undone? ==> WentThrough(old(live)) && v.restarted == script.restarts
    {
      ghost var live2, rollback1 := live, rollback;
      UndoableExactlyWhen(names, script.undo, orig, rollback0, live2, rollback1);
      var undone;
      undone, b := RestoreRollbackData(script.undo);
      if !undone {
        UndoHasStopped(names, script.undo, orig, rollback0, rollback1, live2, live, rollback, b);
        return UndoFailed, b;
      }
      UndoneIsAfterUndo(names, script.undo, orig, rollback0, rollback1, live2, live, rollback);
      if script.writesOldConfig { config := oldConfig; }
      assert WentThrough(live2);
      Restart(script.restarted);
      v := Undone(script.restarts);
    }

    /** From the moved originals on: the restored data goes in and is started, or all goes back. */
    method SwapIn(backedConfig: seq<byte>, oldConfig: seq<byte>, script: Script, ghost rollback0: Shelf)
      returns (v: Verdict, ghost b: nat, ghost was: Shelf)
      requires Sound() && AllKeptAside() && forall n :: n in names ==> n !in live
      requires forall n :: n in names ==> Get(rollback, n) == if n in orig then Some(orig[n]) else Get(rollback0, n)
      modifies this
      ensures NothingLost() && (v.UndoFailed? || v.Undone? || v.Restored?)
      ensures !v.Restored? ==> (v.Undone? <==> Undoable(names, script.undo, orig, rollback0, was))
      ensures OthersSameBut(names, script.disturbed.Keys + script.restarted.Keys, old(live), live)
      ensures v.UndoFailed? ==> Sound()
      ensures v.UndoFailed? ==> StoppedUndo(names, script.undo, orig, rollback0, was, live, rollback, b)
      ensures BroughtIn(names, script, old(staged), was)
      ensures v.Restored? <==> Starts(names, script, old(staged))
      ensures v.Undone? ==> WentBack(names, script, orig, rollback0, was, Settlement(), live, oldConfig, config, v)
      ensures v.Undone? ==> WentThrough(was) && v.restarted == script.restarts
      ensures v.Restored? ==> Settlement() == live && WentIn(names, script, old(staged), live, backedConfig, config, v)
      ensures v.Restored? ==> rollback == if script.keepRollback then old(rollback)
                                          else if script.uncleared.None? then map[]
                                          else script.uncleared.value
      ensures !v.Restored? ==>
                config == if v.Undone? && script.writesOldConfig then oldConfig
                          else if WritesConfig(names, script, old(staged)) then backedConfig
                          else old(config)
    {
      var up := InstallAndStart(backedConfig, script);
      b, was := 0, live;
      if up {
        v := Restored(script.keepRollback || script.uncleared.None?);
        if !script.keepRollback { rollback := match script.uncleared case None => map[] case Some(left) => left; }
        return;
      }
      v, b := RollBack(oldConfig, script, rollback0);
    }

    /** Moves the live data aside; if that fails, the old instance is started on what is there. */
    method MakeRoom(script: Script) returns (ok: bool, ghost b: nat)
      requires Sound() && Untouched()
      modifies this`live, this`rollback, this`trace
      ensures NothingLost() && OthersSameBut(names, script.restarted.Keys, orig, live)
      ensures ok <==> forall n :: n in names ==> CanMove(script.move, orig, old(rollback), n)
      ensures !ok ==> FailedMove(names, script, orig, old(rollback), Settlement(), live, rollback, b)
      ensures !ok ==> old(Apart()) ==> Apart()
      ensures ok ==> Sound() && AllKeptAside() && OthersSame(names, orig, live)
      ensures ok ==> forall n :: n in names ==>
                n !in live && Get(rollback, n) == if n in orig then Some(orig[n]) else Get(old(rollback), n)
    {
      ghost var rollback0 := rollback;
      ok, b := MoveLiveDataToRollback(script.move);
      if ok {
        MovedIsKeptAside(names, orig, rollback0, live, rollback);
      } else {
        Restart(script.restarted);
        MoveHasFailed(names, script, orig, rollback0, Settlement(), live, rollback, b);
      }
    }

    /** The swap, the start of the restored instance, and the way back. At no time before an
        instance is accepted or the old one is started again is an original tree lost. */
    method ExecuteProductionRestore(backedConfig: Option<seq<byte>>, script: Script)
      returns (v: Verdict, ghost b: nat, ghost was: Shelf)
      requires Sound() && Untouched()
      modifies this
      ensures NothingLost()
      ensures OthersSameBut(names, script.disturbed.Keys + script.restarted.Keys, orig, live)
      ensures v.NotStarted? || v.UndoFailed? ==> Sound()
      ensures v.NotStarted? <==> backedConfig.None? || !script.stops
      ensures v.NotMoved? <==> !v.NotStarted? && exists n :: n in names && !CanMove(script.move, orig, old(rollback), n)
      ensures v.Undone? ==> Undoable(names, script.undo, orig, old(rollback), was)
      ensures v.UndoFailed? ==> !Undoable(names, script.undo, orig, old(rollback), was)
      ensures v.UndoFailed? ==> StoppedUndo(names, script.undo, orig, old(rollback), was, live, rollback, b)
      ensures v.Undone? || v.UndoFailed? ==> BroughtIn(names, script, old(staged), was)
      ensures v.Restored? <==> backedConfig.Some? && Succeeds(names, script, orig, old(rollback), old(staged))
      ensures v.NotStarted? ==> live == orig && rollback == old(rollback) && config == old(config)
      ensures v.NotMoved? ==> FailedMove(names, script, orig, old(rollback), Settlement(), live, rollback, b)
      ensures v.NotMoved? ==> config == old(config) && (old(Apart()) ==> Apart())
      ensures v.Undone? ==> WentBack(names, script, orig, old(rollback), was, Settlement(), live, old(config), config, v)
      ensures v.Undone? ==> WentThrough(was) && v.restarted == script.restarts
      ensures v.Restored? ==> Settlement() == live
                              && WentIn(names, script, old(staged), live, backedConfig.value, config, v)
      ensures v.Restored? && !script.keepRollback ==>
                rollback == if script.uncleared.None? then map[] else script.uncleared.value
      ensures v.Restored? && script.keepRollback ==> forall n :: n in names ==>
                Get(rollback, n) == if n in orig then Some(orig[n]) else Get(old(rollback), n)
      ensures v.Undone? || v.UndoFailed? ==>
                config == if v.Undone? && script.writesOldConfig then old(config)
                          else if WritesConfig(names, script, old(staged)) then backedConfig.value
                          else old(config)
    {
      b, was := 0, live;
      if backedConfig.None? || !script.stops { return NotStarted, b, was; }
      var oldConfig := config;
      ghost var rollback0 := rollback;
      var moved;
      moved, b := MakeRoom(script);
      if !moved { return NotMoved, b, was; }
      v, b, was := SwapIn(backedConfig.value, oldConfig, script, rollback0);
    }
  }

  function Changed(live: Shelf, changed: map<string, Option<Tree>>): Shelf {
    map n | n in live.Keys + changed.Keys && (n in changed ==> changed[n].Some?) ::
      if n in changed then changed[n].value else live[n]
  }

  /** What the steps around the swap will do. */
  datatype Script = Script(
    stops: bool,
    move: MoveFaults,
    install: InstallFaults,
    writesConfig: bool,
    renders: bool,
    ups: bool,
    disturbed: map<string, Option<Tree>>,
    undo: UndoFaults,
    writesOldConfig: bool,
    restarted: map<string, Option<Tree>>,
    restarts: bool,
    keepRollback: bool,
    uncleared: Option<Shelf>)

  datatype Verdict = NotStarted | NotMoved | Undone(restarted: bool) | UndoFailed | Restored(cleaned: bool)

  /** A restore goes through exactly when no step of it fails. */
  predicate Succeeds(names: seq<string>, script: Script, live: Shelf, rollback: Shelf, staged: Shelf) {
    && script.stops
    && (forall n :: n in names ==> CanMove(script.move, live, rollback, n))
    && Starts(names, script, staged)
  }

  predicate Starts(names: seq<string>, script: Script, staged: Shelf) {
    WritesConfig(names, script, staged) && script.renders && script.ups
  }

  /** The restore gets as far as writing the backed-up configuration. */
  predicate WritesConfig(names: seq<string>, script: Script, staged: Shelf) {
    && !script.install.mkdir
    && (forall n :: n in names ==> Stageable(script.install, staged, n))
    && script.writesConfig
  }

  /** What that takes, step by step and tree by tree: the stack stops; whatever stands under a name
      can be looked at and moved aside, where no stale directory waits and no stale file meets a
      directory; every tree is staged and can be put in its place; the configuration is written and
      rendered; and the instance comes up. */
  lemma SucceedsExactlyWhen(names: seq<string>, script: Script, live: Shelf, rollback: Shelf, staged: Shelf)
    ensures Succeeds(names, script, live, rollback, staged) <==>
              && script.stops && script.writesConfig && script.renders && script.ups && !script.install.mkdir
              && forall n :: n in names ==>
                   && n !in script.move.lstat
                   && (n in live ==>
                         && n !in script.move.rename
                         && (n in rollback ==> !IsDirTree(live[n]) && !IsDirTree(rollback[n])))
                   && n in staged && n !in script.install.lstat && n !in script.install.rename
  {
  }

  predicate Stageable(f: InstallFaults, staged: Shelf, n: string) {
    n in staged && n !in f.lstat && n !in f.rename
  }

  /** The instance runs on the staged trees, as far as its services left them alone. */
  ghost predicate AllStarted(names: seq<string>, script: Script, staged: Shelf, live: Shelf) {
    forall n :: n in names ==> n in staged && Get(live, n) == Disturbed(script.disturbed, Some(staged[n]), n)
  }

  /** Under each name stands the staged tree, or what a service has made of it. */
  lemma StartedExactlyWhen(names: seq<string>, script: Script, staged: Shelf, live: Shelf)
    ensures AllStarted(names, script, staged, live) <==>
              forall n :: n in names ==>
                && n in staged
                && if n !in script.disturbed then n in live && live[n] == staged[n]
                   else if script.disturbed[n].None? then n !in live
                   else n in live && live[n] == script.disturbed[n].value
  {
    forall n | n in names && n in staged
      ensures Get(live, n) == Disturbed(script.disturbed, Some(staged[n]), n) <==>
                if n !in script.disturbed then n in live && live[n] == staged[n]
                else if script.disturbed[n].None? then n !in live
                else n in live && live[n] == script.disturbed[n].value
    {
    }
  }

  lemma FreeToInstall(names: seq<string>, f: InstallFaults, live: Shelf, staged: Shelf)
    requires forall n :: n in names ==> n !in live
    ensures (forall n :: n in names ==> CanInstall(f, live, staged, n)) <==>
              forall n :: n in names ==> Stageable(f, staged, n)
  {
    forall n | n in names
      ensures CanInstall(f, live, staged, n) <==> Stageable(f, staged, n)
    {
    }
  }

  lemma StartedFromStaged(names: seq<string>, script: Script, live0: Shelf, staged0: Shelf, live1: Shelf,
                          staged1: Shelf, live: Shelf)
    requires InstalledSoFar(names, live0, staged0, live1, staged1, |names|)
    requires LeftBy(script.disturbed, live1, live)
    ensures AllStarted(names, script, staged0, live)
  {
    forall n | n in names
      ensures n in staged0 && Get(live, n) == Disturbed(script.disturbed, Some(staged0[n]), n)
    {
      var j :| 0 <= j < |names| && names[j] == n;
      assert Installed(live0, staged0, live1, staged1, n);
    }
  }

  /** The first name that cannot be moved. */
  ghost predicate FirstBlocked(names: seq<string>, f: MoveFaults, orig: Shelf, rollback0: Shelf, b: nat) {
    b < |names| && !CanMove(f, orig, rollback0, names[b])
    && forall j :: 0 <= j < b ==> CanMove(f, orig, rollback0, names[j])
  }

  /** Nothing was moved before it; or it failed by its rename, and every rename back succeeds. */
  predicate FailsCleanly(names: seq<string>, f: MoveFaults, orig: Shelf, b: nat)
    requires b < |names|
  {
    || (forall j :: 0 <= j < b ==> names[j] !in orig)
    || (names[b] !in f.lstat && forall j :: 0 <= j < b && names[j] in orig ==> names[j] !in f.revert)
  }

  /** Every tree is back as it was. Under a name that was absent stands the stale tree that stood
      in the rollback directory, or else what was left of the tree that stood there when the undo
      began. */
  ghost predicate AfterUndo(names: seq<string>, f: UndoFaults, orig: Shelf, rollback0: Shelf, was: Shelf, live: Shelf) {
    forall n :: n in names ==>
      Get(live, n) == if n in orig then Some(orig[n])
                      else if n in rollback0 then Some(rollback0[n])
                      else Left(f, was, n)
  }

  /** The same, place by place. */
  lemma UndoneExactlyWhen(names: seq<string>, f: UndoFaults, orig: Shelf, rollback0: Shelf, was: Shelf, live: Shelf)
    ensures AfterUndo(names, f, orig, rollback0, was, live) <==>
              forall n :: n in names ==>
                && (n in orig ==> n in live && live[n] == orig[n])
                && (n !in orig && n in rollback0 ==> n in live && live[n] == rollback0[n])
                && (n !in orig && n !in rollback0 ==>
                      if n in was && n in f.leftover then n in live && live[n] == f.leftover[n] else n !in live)
  {
    forall n | n in names
      ensures n !in orig && n !in rollback0 ==>
                (Get(live, n) == Left(f, was, n) <==>
                   if n in was && n in f.leftover then n in live && live[n] == f.leftover[n] else n !in live)
    {
    }
  }

  /** Every original, and every stale tree, can be put back over what RemoveAll leaves. */
  predicate Undoable(names: seq<string>, f: UndoFaults, orig: Shelf, rollback0: Shelf, was: Shelf) {
    forall n :: n in names ==>
      n !in f.lstat
      && (n in orig || n in rollback0 ==>
            CanRename(Some(if n in orig then orig[n] else rollback0[n]), Left(f, was, n), n in f.rename))
  }

  /** What that takes: the name can be looked at in the rollback directory, and what stands there can
      be moved, where a leftover must not meet a directory. */
  lemma UndoableMeans(names: seq<string>, f: UndoFaults, orig: Shelf, rollback0: Shelf, was: Shelf)
    ensures Undoable(names, f, orig, rollback0, was) <==>
              forall n :: n in names ==>
                && n !in f.lstat
                && (n in orig || n in rollback0 ==>
                      && n !in f.rename
                      && (n in was && n in f.leftover ==>
                            && !IsDirTree(f.leftover[n])
                            && !IsDirTree(if n in orig then orig[n] else rollback0[n])))
  {
  }

  lemma UndoableExactlyWhen(names: seq<string>, f: UndoFaults, orig: Shelf, rollback0: Shelf, was: Shelf, rollback: Shelf)
    requires forall n :: n in names ==> Get(rollback, n) == if n in orig then Some(orig[n]) else Get(rollback0, n)
    ensures (forall n :: n in names ==> CanPutBack(f, was, rollback, n)) <==> Undoable(names, f, orig, rollback0, was)
  {
    forall n | n in names
      ensures n in rollback <==> n in orig || n in rollback0
      ensures n in rollback ==> rollback[n] == if n in orig then orig[n] else rollback0[n]
    {
      assert Get(rollback, n) == if n in orig then Some(orig[n]) else Get(rollback0, n);
    }
  }

  /** What the rollback directory holds of a name once all has been moved. */
  function Aside(orig: Shelf, rollback0: Shelf, n: string): Option<Tree> {
    if n in orig then Some(orig[n]) else Get(rollback0, n)
  }

  ghost predicate IsBack(f: UndoFaults, orig: Shelf, rollback0: Shelf, was: Shelf, live: Shelf, rollback: Shelf, n: string) {
    && Get(live, n) == (if Aside(orig, rollback0, n).Some? then Aside(orig, rollback0, n) else Left(f, was, n))
    && n !in rollback
  }

  ghost predicate StaysAside(orig: Shelf, rollback0: Shelf, was: Shelf, live: Shelf, rollback: Shelf, n: string) {
    Get(live, n) == Get(was, n) && Get(rollback, n) == Aside(orig, rollback0, n)
  }

  /** An undo that has stopped at the name `b`: the names before it are back, its own place is
      cleared, and it and the names after it are still in the rollback directory. */
  ghost predicate StoppedUndo(names: seq<string>, f: UndoFaults, orig: Shelf, rollback0: Shelf, was: Shelf, live: Shelf,
                              rollback: Shelf, b: nat)
  {
    && b < |names|
    && (forall j :: 0 <= j < b ==> IsBack(f, orig, rollback0, was, live, rollback, names[j]))
    && Get(live, names[b]) == Left(f, was, names[b])
    && Get(rollback, names[b]) == Aside(orig, rollback0, names[b])
    && (forall j :: b < j < |names| ==> StaysAside(orig, rollback0, was, live, rollback, names[j]))
    && (|| names[b] in f.lstat
        || (Aside(orig, rollback0, names[b]).Some?
            && !CanRename(Aside(orig, rollback0, names[b]), Left(f, was, names[b]), names[b] in f.rename)))
  }

  lemma UndoHasStopped(names: seq<string>, f: UndoFaults, orig: Shelf, rollback0: Shelf, rollback1: Shelf, was: Shelf,
                       live: Shelf, rollback: Shelf, b: nat)
    requires forall n :: n in names ==> Get(rollback1, n) == if n in orig then Some(orig[n]) else Get(rollback0, n)
    requires UndoneSoFar(names, f, was, rollback1, live, rollback, b, true)
    requires !CanPutBack(f, was, rollback1, names[b])
    ensures StoppedUndo(names, f, orig, rollback0, was, live, rollback, b)
  {
    forall j | 0 <= j < |names|
      ensures Get(rollback1, names[j]) == Aside(orig, rollback0, names[j])
    {
      assert names[j] in names;
    }
    forall j | 0 <= j < b
      ensures IsBack(f, orig, rollback0, was, live, rollback, names[j])
    {
      assert PutBack(f, was, rollback1, live, rollback, names[j]);
    }
    forall j | b < j < |names|
      ensures StaysAside(orig, rollback0, was, live, rollback, names[j])
    {
      assert Unchanged(was, rollback1, live, rollback, names[j]);
    }
  }

  /** All is undone: the trees as they were, then what starting the old instance made of them, and
      the old configuration if it could be written. */
  ghost predicate WentBack(names: seq<string>, script: Script, orig: Shelf, rollback0: Shelf, was: Shelf, left: Shelf,
                           live: Shelf, oldConfig: seq<byte>, config: seq<byte>, v: Verdict)
    requires v.Undone?
  {
    && v.restarted == script.restarts
    && AfterUndo(names, script.undo, orig, rollback0, was, left)
    && LeftBy(script.restarted, left, live)
    && (script.writesOldConfig ==> config == oldConfig)
  }

  /** The restored instance runs on the staged trees and the backed-up configuration. */
  ghost predicate WentIn(names: seq<string>, script: Script, staged: Shelf, live: Shelf, backedConfig: seq<byte>,
                         config: seq<byte>, v: Verdict)
    requires v.Restored?
  {
    && config == backedConfig
    && v.cleaned == (script.keepRollback || script.uncleared.None?)
    && AllStarted(names, script, staged, live)
  }

  /** After a move that failed at the name `b`, before and after the old instance was started again. */
  ghost predicate FailedMove(names: seq<string>, script: Script, orig: Shelf, rollback0: Shelf, left: Shelf, live: Shelf,
                             rollback: Shelf, b: nat)
  {
    && FirstBlocked(names, script.move, orig, rollback0, b)
    && ThereOrBack(names, orig, rollback0, left, rollback)
    && (left == orig <==> FailsCleanly(names, script.move, orig, b))
    && (left == orig && (forall n :: n in names ==> n !in rollback0) ==> rollback == rollback0)
    && LeftBy(script.restarted, left, live)
  }

  lemma MoveHasFailed(names: seq<string>, script: Script, orig: Shelf, rollback0: Shelf, left: Shelf, live: Shelf,
                      rollback: Shelf, b: nat)
    requires FirstBlocked(names, script.move, orig, rollback0, b)
    requires OthersSame(names, orig, left) && OthersSame(names, rollback0, rollback)
    requires ThereOrBack(names, orig, rollback0, left, rollback)
    requires AllSettled(names, orig, rollback0, left, rollback) <==> FailsCleanly(names, script.move, orig, b)
    requires LeftBy(script.restarted, left, live)
    ensures FailedMove(names, script, orig, rollback0, left, live, rollback, b)
  {
    SettledIsSame(names, orig, rollback0, left, rollback);
  }

  lemma SameShelf(a: Shelf, b: Shelf)
    requires forall n :: Get(a, n) == Get(b, n)
    ensures a == b
  {
    forall n
      ensures n in a <==> n in b
      ensures n in a && n in b ==> a[n] == b[n]
    {
      assert Get(a, n) == Get(b, n);
    }
  }

  /** Per name settled is the same as all live data as it was. */
  lemma SettledIsSame(names: seq<string>, orig: Shelf, rollback0: Shelf, live: Shelf, rollback: Shelf)
    requires OthersSame(names, orig, live) && OthersSame(names, rollback0, rollback)
    requires ThereOrBack(names, orig, rollback0, live, rollback)
    ensures AllSettled(names, orig, rollback0, live, rollback) <==> live == orig
    ensures AllSettled(names, orig, rollback0, live, rollback) && (forall n :: n in names ==> n !in rollback0) ==>
              rollback == rollback0
  {
    if AllSettled(names, orig, rollback0, live, rollback) {
      SameShelf(live, orig);
      if forall n :: n in names ==> n !in rollback0 { SameShelf(rollback, rollback0); }
    }
    if live == orig {
      forall n | n in names
        ensures Settled(orig, rollback0, live, rollback, n)
      {
        assert MovedOut(orig, rollback0, live, rollback, n) ==> n !in orig;
      }
    }
  }

  /** How many moves remain when they are taken back from the `last` on. */
  function RevertsTo(moved: seq<string>, last: nat, f: MoveFaults): (left: nat)
    requires last <= |moved|
    ensures left <= last
  {
    if last == 0 then 0 else if moved[last - 1] in f.revert then last else RevertsTo(moved, last - 1, f)
  }

  lemma {:induction false} RevertsToNone(moved: seq<string>, last: nat, f: MoveFaults)
    requires last <= |moved|
    ensures RevertsTo(moved, last, f) == 0 <==> forall j :: 0 <= j < last ==> moved[j] !in f.revert
  {
    if last > 0 { RevertsToNone(moved, last - 1, f); }
  }

  /** The names moved before the one at `b`. */
  ghost predicate MovedNames(names: seq<string>, orig: Shelf, b: nat, moved: seq<string>) {
    b <= |names| && Distinct(moved) && forall n :: n in moved <==> n in names[..b] && n in orig
  }

  lemma NextMoved(names: seq<string>, orig: Shelf, b: nat, moved: seq<string>)
    requires Distinct(names) && b < |names| && MovedNames(names, orig, b, moved)
    ensures MovedNames(names, orig, b + 1, if names[b] in orig then moved + [names[b]] else moved)
  {
    TakeNext(names, b);
    assert names[b] !in names[..b];
  }

  lemma AllGone(names: seq<string>, orig: Shelf, rollback0: Shelf, live: Shelf, rollback: Shelf)
    requires GoneSoFar(names, orig, rollback0, live, rollback, |names|)
    ensures AllMovedOut(names, orig, rollback0, live, rollback)
  {
  }

  /** The verdict on a failed move. */
  lemma MoveVerdict(names: seq<string>, f: MoveFaults, orig: Shelf, rollback0: Shelf, live: Shelf, rollback: Shelf,
                    b: nat, moved: seq<string>, left: nat)
    requires b < |names| && MovedNames(names, orig, b, moved) && left <= |moved|
    requires Halfway(names, orig, rollback0, live, rollback, moved, left)
    requires names[b] in f.lstat ==> left == |moved|
    requires names[b] !in f.lstat ==> left == RevertsTo(moved, |moved|, f)
    ensures ThereOrBack(names, orig, rollback0, live, rollback)
    ensures AllSettled(names, orig, rollback0, live, rollback) <==> FailsCleanly(names, f, orig, b)
  {
    HalfwayThere(names, orig, rollback0, live, rollback, moved, left);
    CleanMoves(names, f, orig, b, moved);
    RevertsToNone(moved, |moved|, f);
    assert (forall n :: n in moved ==> n !in f.revert) <==> forall j :: 0 <= j < |moved| ==> moved[j] !in f.revert;
    if left > 0 {
      assert moved[0] in moved && moved[0] in names[..b];
      MovedIsNotSettled(names, orig, rollback0, live, rollback, moved[0]);
    }
  }

  lemma CleanMoves(names: seq<string>, f: MoveFaults, orig: Shelf, b: nat, moved: seq<string>)
    requires b < |names| && MovedNames(names, orig, b, moved)
    ensures FailsCleanly(names, f, orig, b) <==>
              moved == [] || (names[b] !in f.lstat && forall n :: n in moved ==> n !in f.revert)
  {
    forall j | 0 <= j < b && names[j] in orig
      ensures names[j] in moved
    {
      assert names[j] in names[..b];
    }
    if moved != [] { assert moved[0] in moved; }
  }

  lemma MovedIsNotSettled(names: seq<string>, orig: Shelf, rollback0: Shelf, live: Shelf, rollback: Shelf, n: string)
    requires n in names && n in orig && MovedOut(orig, rollback0, live, rollback, n)
    ensures !AllSettled(names, orig, rollback0, live, rollback)
  {
  }

  ghost predicate AllMovedOut(names: seq<string>, live0: Shelf, rollback0: Shelf, live: Shelf, rollback: Shelf) {
    forall n :: n in names ==> MovedOut(live0, rollback0, live, rollback, n)
  }

  /** After the move every original is in the rollback directory, and its place is free. */
  lemma MovedIsKeptAside(names: seq<string>, orig: Shelf, rollback0: Shelf, live: Shelf, rollback: Shelf)
    requires AllMovedOut(names, orig, rollback0, live, rollback)
    ensures forall n :: n in names && n in orig ==> n in rollback && rollback[n] == orig[n]
    ensures forall n :: n in names ==> Get(rollback, n) == if n in orig then Some(orig[n]) else Get(rollback0, n)
    ensures forall n :: n in names ==> n !in live
  {
    forall n | n in names
      ensures n !in live && (n in orig ==> n in rollback && rollback[n] == orig[n])
    {
      assert MovedOut(orig, rollback0, live, rollback, n);
    }
  }

  lemma UndoneIsAfterUndo(names: seq<string>, f: UndoFaults, orig: Shelf, rollback0: Shelf, rollback1: Shelf,
                          live2: Shelf, live: Shelf, rollback: Shelf)
    requires forall n :: n in names ==> Get(rollback1, n) == if n in orig then Some(orig[n]) else Get(rollback0, n)
    requires UndoneSoFar(names, f, live2, rollback1, live, rollback, |names|, false)
    ensures AfterUndo(names, f, orig, rollback0, live2, live)
  {
    forall n | n in names
      ensures Get(live, n) == if n in orig then Some(orig[n])
                              else if n in rollback0 then Some(rollback0[n])
                              else Left(f, live2, n)
    {
      var j :| 0 <= j < |names| && names[j] == n;
      assert PutBack(f, live2, rollback1, live, rollback, n);
    }
  }

  function Disturbed(changed: map<string, Option<Tree>>, tree: Option<Tree>, n: string): Option<Tree> {
    if n in changed then changed[n] else tree
  }

  predicate CanInstall(f: InstallFaults, live: Shelf, staged: Shelf, n: string) {
    n !in f.lstat && CanRename(Get(staged, n), Get(live, n), n in f.rename)
  }

  ghost predicate Installed(live0: Shelf, staged0: Shelf, live: Shelf, staged: Shelf, n: string) {
    n in staged0 && Get(live, n) == Some(staged0[n]) && n !in staged
  }

  ghost predicate InstalledSoFar(names: seq<string>, live0: Shelf, staged0: Shelf, live: Shelf, staged: Shelf, i: nat) {
    && i <= |names|
    && (forall j :: 0 <= j < i ==> Installed(live0, staged0, live, staged, names[j]))
    && (forall j :: i <= j < |names| ==> Unchanged(live0, staged0, live, staged, names[j]))
  }

  /** All names are installed, or those before the first that cannot be. */
  ghost predicate StoppedAt(names: seq<string>, f: InstallFaults, live0: Shelf, staged0: Shelf, ok: bool, done: nat) {
    && done <= |names|
    && (ok ==> done == |names|)
    && (f.mkdir ==> done == 0)
    && (!ok && !f.mkdir ==> done < |names| && !CanInstall(f, live0, staged0, names[done]))
    && forall j :: 0 <= j < done ==> CanInstall(f, live0, staged0, names[j])
  }

  /** The name and all before it can be put in their places. */
  predicate InstalledUpTo(names: seq<string>, f: InstallFaults, staged: Shelf, j: nat)
    requires j < |names|
  {
    !f.mkdir && forall i :: 0 <= i <= j ==> Stageable(f, staged, names[i])
  }

  /** What stands in the places of the originals when the restored instance has started, or the
      restore has failed on the way to that. */
  ghost predicate BroughtIn(names: seq<string>, script: Script, staged: Shelf, live: Shelf) {
    if WritesConfig(names, script, staged) && script.renders then AllStarted(names, script, staged, live)
    else forall j :: 0 <= j < |names| ==>
           Get(live, names[j]) == if InstalledUpTo(names, script.install, staged, j) then Get(staged, names[j]) else None
  }

  lemma InstalledFromStaged(names: seq<string>, f: InstallFaults, live0: Shelf, staged0: Shelf, live: Shelf,
                            staged: Shelf, ok: bool, done: nat, j: nat)
    requires forall n :: n in names ==> n !in live0
    requires InstalledSoFar(names, live0, staged0, live, staged, done) && StoppedAt(names, f, live0, staged0, ok, done)
    requires j < |names| && (ok ==> !f.mkdir)
    ensures Get(live, names[j]) == if InstalledUpTo(names, f, staged0, j) then Get(staged0, names[j]) else None
  {
    assert forall i :: 0 <= i < |names| ==> names[i] in names;
    if j < done {
      assert Installed(live0, staged0, live, staged, names[j]);
      forall i | 0 <= i <= j
        ensures Stageable(f, staged0, names[i])
      {
        assert CanInstall(f, live0, staged0, names[i]);
      }
    } else {
      assert Unchanged(live0, staged0, live, staged, names[j]);
      assert f.mkdir || !Stageable(f, staged0, names[done]);
    }
  }

  lemma OtherIndex(names: seq<string>, i: nat)
    requires Distinct(names) && i < |names|
    ensures forall j :: 0 <= j < |names| && j != i ==> names[j] != names[i]
  {
    forall j | 0 <= j < |names| && j != i
      ensures names[j] != names[i]
    {
      if j < i { assert names[j] != names[i]; } else { assert names[i] != names[j]; }
    }
  }

  lemma NextInstall(names: seq<string>, live0: Shelf, staged0: Shelf, live: Shelf, staged: Shelf, i: nat)
    requires Distinct(names) && i < |names| && InstalledSoFar(names, live0, staged0, live, staged, i)
    ensures Unchanged(live0, staged0, live, staged, names[i])
    ensures names[i] in staged ==>
              InstalledSoFar(names, live0, staged0, live[names[i] := staged[names[i]]], staged - {names[i]}, i + 1)
  {
    OtherIndex(names, i);
  }

  /** What stays under a name after RemoveAll. */
  function Left(f: UndoFaults, live: Shelf, n: string): Option<Tree> {
    if n in live then Get(f.leftover, n) else None
  }

  predicate CanPutBack(f: UndoFaults, live: Shelf, rollback: Shelf, n: string) {
    n !in f.lstat && (n in rollback ==> CanRename(Get(rollback, n), Left(f, live, n), n in f.rename))
  }

  /** The original is back, or, where there was none, only what could not be removed. */
  ghost predicate PutBack(f: UndoFaults, live0: Shelf, rollback0: Shelf, live: Shelf, rollback: Shelf, n: string) {
    Get(live, n) == (if n in rollback0 then Some(rollback0[n]) else Left(f, live0, n)) && n !in rollback
  }

  ghost predicate Cleared(f: UndoFaults, live0: Shelf, rollback0: Shelf, live: Shelf, rollback: Shelf, n: string) {
    Get(live, n) == Left(f, live0, n) && Get(rollback, n) == Get(rollback0, n)
  }

  /** The first names are put back; if the next one failed, it has been cleared; the rest is
      untouched. */
  ghost predicate UndoneSoFar(names: seq<string>, f: UndoFaults, live0: Shelf, rollback0: Shelf, live: Shelf,
                              rollback: Shelf, i: nat, failed: bool)
  {
    && (if failed then i < |names| else i <= |names|)
    && (forall j :: 0 <= j < i ==> PutBack(f, live0, rollback0, live, rollback, names[j]))
    && (failed ==> Cleared(f, live0, rollback0, live, rollback, names[i]))
    && (forall j :: i + (if failed then 1 else 0) <= j < |names| ==> Unchanged(live0, rollback0, live, rollback, names[j]))
  }

  lemma NextUndo(names: seq<string>, f: UndoFaults, live0: Shelf, rollback0: Shelf, l: Shelf, r: Shelf, live: Shelf,
                 rollback: Shelf, i: nat, ok: bool)
    requires Distinct(names) && i < |names|
    requires UndoneSoFar(names, f, live0, rollback0, l, r, i, false)
    requires SameBut(l, live, names[i]) && SameBut(r, rollback, names[i])
    requires ok <==> CanPutBack(f, l, r, names[i])
    requires if ok then PutBack(f, l, r, live, rollback, names[i]) else Cleared(f, l, r, live, rollback, names[i])
    ensures ok <==> CanPutBack(f, live0, rollback0, names[i])
    ensures UndoneSoFar(names, f, live0, rollback0, live, rollback, if ok then i + 1 else i, !ok)
    ensures forall j :: i < j < |names| ==> Get(rollback, names[j]) == Get(r, names[j])
  {
    OtherIndex(names, i);
    assert Unchanged(live0, rollback0, l, r, names[i]);
    assert Left(f, l, names[i]) == Left(f, live0, names[i]);
    forall j | 0 <= j < i
      ensures PutBack(f, live0, rollback0, live, rollback, names[j])
    {
      assert PutBack(f, live0, rollback0, l, r, names[j]);
      assert Get(live, names[j]) == Get(l, names[j]) && Get(rollback, names[j]) == Get(r, names[j]);
    }
  }

  ghost predicate AllSettled(names: seq<string>, live0: Shelf, rollback0: Shelf, live: Shelf, rollback: Shelf) {
    forall n :: n in names ==> Settled(live0, rollback0, live, rollback, n)
  }

  ghost predicate ThereOrBack(names: seq<string>, live0: Shelf, rollback0: Shelf, live: Shelf, rollback: Shelf) {
    forall n :: n in names ==>
      MovedOut(live0, rollback0, live, rollback, n) || Settled(live0, rollback0, live, rollback, n)
  }

  lemma HalfwayThere(names: seq<string>, live0: Shelf, rollback0: Shelf, live: Shelf, rollback: Shelf,
                     moved: seq<string>, left: nat)
    requires Halfway(names, live0, rollback0, live, rollback, moved, left)
    ensures ThereOrBack(names, live0, rollback0, live, rollback)
    ensures left == 0 ==> AllSettled(names, live0, rollback0, live, rollback)
  {
    forall n | n in names
      ensures MovedOut(live0, rollback0, live, rollback, n) || Settled(live0, rollback0, live, rollback, n)
      ensures left == 0 ==> Settled(live0, rollback0, live, rollback, n)
    {
      if n in moved { var j :| 0 <= j < |moved| && moved[j] == n; }
    }
  }

  /** As it was, or moved out and back again. */
  ghost predicate Settled(live: Shelf, rollback: Shelf, live': Shelf, rollback': Shelf, n: string) {
    Unchanged(live, rollback, live', rollback', n) || MovedBack(live, rollback, live', rollback', n)
  }

  /** Of the moved names the first `left` are still out, the others are as they were. */
  ghost predicate Halfway(names: seq<string>, live0: Shelf, rollback0: Shelf, live: Shelf, rollback: Shelf,
                          moved: seq<string>, left: nat)
  {
    && left <= |moved|
    && (forall j :: 0 <= j < left ==> MovedOut(live0, rollback0, live, rollback, moved[j]))
    && (forall j :: left <= j < |moved| ==> Settled(live0, rollback0, live, rollback, moved[j]))
    && (forall n :: n in names && n !in moved ==> Settled(live0, rollback0, live, rollback, n))
  }

  /** The first names have been moved out, the rest is untouched. */
  ghost predicate GoneSoFar(names: seq<string>, live0: Shelf, rollback0: Shelf, live: Shelf, rollback: Shelf, i: nat) {
    && i <= |names|
    && (forall j :: 0 <= j < i ==> MovedOut(live0, rollback0, live, rollback, names[j]))
    && (forall j :: i <= j < |names| ==> Unchanged(live0, rollback0, live, rollback, names[j]))
  }

  lemma NextName(names: seq<string>, live0: Shelf, rollback0: Shelf, live: Shelf, rollback: Shelf, i: nat)
    requires Distinct(names) && i < |names| && GoneSoFar(names, live0, rollback0, live, rollback, i)
    ensures Unchanged(live0, rollback0, live, rollback, names[i]) && names[i] !in names[..i]
    ensures names[i] !in live ==> GoneSoFar(names, live0, rollback0, live, rollback, i + 1)
    ensures names[i] in live ==>
              GoneSoFar(names, live0, rollback0, live - {names[i]}, rollback[names[i] := live[names[i]]], i + 1)
  {
    forall j | 0 <= j < |names| && j != i
      ensures names[j] != names[i]
    {
      if j < i { assert names[j] != names[i]; } else { assert names[i] != names[j]; }
    }
  }

  lemma GoneIsHalfway(names: seq<string>, live0: Shelf, rollback0: Shelf, live: Shelf, rollback: Shelf, i: nat,
                      moved: seq<string>)
    requires GoneSoFar(names, live0, rollback0, live, rollback, i)
    requires forall n :: n in moved <==> n in names[..i] && n in live0
    ensures Halfway(names, live0, rollback0, live, rollback, moved, |moved|)
  {
    forall j | 0 <= j < |moved|
      ensures MovedOut(live0, rollback0, live, rollback, moved[j])
    {
      assert moved[j] in moved;
      var k :| 0 <= k < i && names[..i][k] == moved[j];
      assert names[k] == moved[j];
    }
    forall n | n in names && n !in moved
      ensures Settled(live0, rollback0, live, rollback, n)
    {
      var j :| 0 <= j < |names| && names[j] == n;
      if j < i { assert n in names[..i]; }
    }
  }

  lemma StepBack(names: seq<string>, live0: Shelf, rollback0: Shelf, l: Shelf, r: Shelf, live: Shelf, rollback: Shelf,
                 moved: seq<string>, i: nat)
    requires i < |moved| && Distinct(moved) && moved[i] in live0 && moved[i] in r
    requires Halfway(names, live0, rollback0, l, r, moved, i + 1)
    requires live == l[moved[i] := r[moved[i]]] && rollback == r - {moved[i]}
    ensures Halfway(names, live0, rollback0, live, rollback, moved, i)
  {
    assert MovedOut(live0, rollback0, l, r, moved[i]);
    OtherIndex(moved, i);
    forall n | n in names && n !in moved
      ensures Settled(live0, rollback0, live, rollback, n)
    {
      assert n != moved[i];
    }
  }

  predicate CanMove(f: MoveFaults, live: Shelf, rollback: Shelf, n: string) {
    n !in f.lstat && (n in live ==> CanRename(Get(live, n), Get(rollback, n), n in f.rename))
  }

  predicate CanMoveAll(f: MoveFaults, live: Shelf, rollback: Shelf, names: seq<string>) {
    forall n :: n in names ==> CanMove(f, live, rollback, n)
  }

  lemma FirstNames(names: seq<string>, b: nat)
    requires b <= |names|
    ensures forall j :: 0 <= j < b ==> names[j] in names[..b]
    ensures b == |names| ==> names[..b] == names
  {
    forall j | 0 <= j < b
      ensures names[j] in names[..b]
    {
      assert names[..b][j] == names[j];
    }
  }

  // ----------------------------------------------------------- undoing once, and twice

  predicate Removable(names: seq<string>, f: UndoFaults) {
    forall n :: n in names ==> n !in f.leftover
  }

  /** A full pass brings an original back exactly if it was in the rollback directory before. */
  lemma UndoBringsBackWhatWasKept(names: seq<string>, f: UndoFaults, live0: Shelf, rollback0: Shelf, live: Shelf,
                                  rollback: Shelf, n: string, tree: Tree)
    requires Removable(names, f) && n in names
    requires UndoneSoFar(names, f, live0, rollback0, live, rollback, |names|, false)
    ensures Get(live, n) == Some(tree) <==> Get(rollback0, n) == Some(tree)
  {
    var j :| 0 <= j < |names| && names[j] == n;
    assert PutBack(f, live0, rollback0, live, rollback, n);
  }

  /** A second pass after one that stopped on the way deletes exactly what the first had put
      back, which is why the restore must undo no more than once. */
  lemma SecondUndoDeletes(names: seq<string>, f: UndoFaults, g: UndoFaults, live0: Shelf, rollback0: Shelf,
                          live1: Shelf, rollback1: Shelf, live2: Shelf, rollback2: Shelf, stop: nat, j: nat)
    requires Distinct(names) && j < |names| && names[j] in rollback0 && Removable(names, g)
    requires UndoneSoFar(names, f, live0, rollback0, live1, rollback1, stop, true)
    requires UndoneSoFar(names, g, live1, rollback1, live2, rollback2, |names|, false)
    ensures Get(live2, names[j]) == if j < stop then None else Some(rollback0[names[j]])
    ensures names[j] !in rollback2
  {
    assert PutBack(g, live1, rollback1, live2, rollback2, names[j]);
    if j < stop {
      assert PutBack(f, live0, rollback0, live1, rollback1, names[j]);
    } else if j > stop {
      assert Unchanged(live0, rollback0, live1, rollback1, names[j]);
    }
  }

  /** A run that is undone and leaves a tree where there was none: the rollback directory is an old
      one, and holds a tree of that name. */
  method StaleTreeComesIn(stale: Tree, script: Script) returns (v: Verdict, live: Shelf)
    requires script.stops && script.move == MoveFaults({}, {}, {}) && script.install.mkdir
    requires script.undo == UndoFaults(map[], {}, {}) && script.disturbed == map[] && script.restarted == map[]
    ensures v.Undone? && live == map["tls" := stale]
  {
    var storage := new Storage(map[], map["tls" := stale], map[], []);
    ghost var b, was;
    v, b, was := storage.ExecuteProductionRestore(Some([]), script);
    live := storage.live;
    assert script.disturbed.Keys + script.restarted.Keys == {};
    OnlyStaleTree(storage.names, stale, script, was, storage.Settlement(), live);
  }

  lemma OnlyStaleTree(names: seq<string>, stale: Tree, script: Script, was: Shelf, left: Shelf, live: Shelf)
    requires names == DataNames() && script.undo == UndoFaults(map[], {}, {}) && script.restarted == map[]
    requires AfterUndo(names, script.undo, map[], map["tls" := stale], was, left) && LeftBy(map[], left, live)
    requires OthersSameBut(names, {}, map[], live)
    ensures live == map["tls" := stale]
  {
    forall n
      ensures Get(live, n) == Get(map["tls" := stale], n)
    {
      if n in names { assert Get(left, n) == Get(map["tls" := stale], n); }
    }
    SameShelf(live, map["tls" := stale]);
  }

  /** A run in which the move is not all-or-nothing: `mysql` has been moved when looking at `minio`
      fails, and nothing is moved back. */
  method LstatStrandsMysql(mysql: Tree, minio: Tree) returns (ok: bool, live: Shelf, rollback: Shelf)
    ensures !ok && live == map["minio" := minio] && rollback == map["mysql" := mysql]
  {
    var storage := new Storage(map["mysql" := mysql, "minio" := minio], map[], map[], []);
    ghost var orig := storage.live;
    var f := MoveFaults({"minio"}, {}, {});
    ghost var b;
    ok, b := storage.MoveLiveDataToRollback(f);
    assert !CanMove(f, orig, map[], storage.names[1]);
    assert CanMove(f, orig, map[], storage.names[0]);
    assert b == 1;
    live, rollback := storage.live, storage.rollback;
    OnlyMinioLeft(storage.names, mysql, minio, live, rollback);
  }

  lemma OnlyMinioLeft(names: seq<string>, mysql: Tree, minio: Tree, live: Shelf, rollback: Shelf)
    requires names == DataNames() && OthersSame(names, map["mysql" := mysql, "minio" := minio], live)
    requires OthersSame(names, map[], rollback)
    requires GoneSoFar(names, map["mysql" := mysql, "minio" := minio], map[], live, rollback, 1)
    ensures live == map["minio" := minio] && rollback == map["mysql" := mysql]
  {
    var orig: Shelf := map["mysql" := mysql, "minio" := minio];
    DataNamesDiffer();
    assert MovedOut(orig, map[], live, rollback, names[0]);
    forall n
      ensures Get(live, n) == Get(map["minio" := minio], n) && Get(rollback, n) == Get(map["mysql" := mysql], n)
    {
      if n in names {
        var j :| 0 <= j < |names| && names[j] == n;
        if j > 0 { assert Unchanged(orig, map[], live, rollback, n); }
      }
    }
    SameShelf(live, map["minio" := minio]);
    SameShelf(rollback, map["mysql" := mysql]);
  }
}
