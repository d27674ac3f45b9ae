/** The cache that lets a build skip `go get` and `go mod tidy` (pkg/builder/builder.go). */
module DependencyCache {
  import opened Strings
  import opened Times

  const CACHE_FORMAT := 1
  /** Six hours, in nanoseconds. */
  const SDK_LATEST_CHECK_INTERVAL := 6 * 60 * 60 * 1_000_000_000

  datatype State = State(formatVersion: int, fingerprint: string, sdkCheckedAt: int)

  /** The cache file as the next load finds it. */
  datatype CacheFile = Absent | Unreadable | Saved(state: State)

  /** What the fingerprint is taken of, and whether go.mod replaces the SDK. */
  datatype Inputs = Inputs(content: string, sdkReplaced: bool)

  /** What the world does during one call: the inputs found (None when they cannot be
      read), the clock, how the commands and the save end. `replacedAtGet` is what
      `go get` finds in go.mod when it looks again. */
  datatype Attempt = Attempt(
    before: Option<Inputs>,
    planAt: int,
    replacedAtGet: bool,
    getOk: bool,
    tidyOk: bool,
    after: Option<Inputs>,
    doneAt: int,
    saveOk: bool)

  datatype Plan = Plan(syncSDK: bool, runTidy: bool)

  datatype Outcome = Failed | Skipped | Prepared

  /** None stands for a missing, unreadable or foreign-format cache. */
  function LoadState(file: CacheFile): Option<State> {
    match file
    case Saved(state) => if state.formatVersion != CACHE_FORMAT then None else Some(state)
    case _ => None
  }

  function BuildPlan(state: Option<State>, fingerprint: string, hasSDKReplace: bool, now: int): Plan {
    var inputsChanged :=
      state.None? || state.value.formatVersion != CACHE_FORMAT || state.value.fingerprint != fingerprint;
    var syncSDK :=
      !hasSDKReplace
      && (state.None? || state.value.sdkCheckedAt == ZERO_TIME
          || now - state.value.sdkCheckedAt >= SDK_LATEST_CHECK_INTERVAL);
    Plan(syncSDK, inputsChanged || syncSDK)
  }

  // ------------------------------------------------------------- one preparation

  function PlanOf(digest: string -> string, file: CacheFile, a: Attempt): Plan
    requires a.before.Some?
  {
    BuildPlan(LoadState(file), digest(a.before.value.content), a.before.value.sdkReplaced, a.planAt)
  }

  /** `go get` ends well when it finds a replacement, which it then leaves alone. */
  predicate GetEndsWell(a: Attempt) {
    a.replacedAtGet || a.getOk
  }

  /** The commands the plan asks for, and the second fingerprint, all succeed. */
  predicate Completes(plan: Plan, a: Attempt) {
    && (plan.syncSDK ==> GetEndsWell(a))
    && (plan.runTidy ==> a.tidyOk)
    && a.after.Some?
  }

  function NextState(digest: string -> string, file: CacheFile, plan: Plan, a: Attempt): State
    requires a.after.Some?
  {
    var checkedAt := if LoadState(file).Some? then LoadState(file).value.sdkCheckedAt else ZERO_TIME;
    State(CACHE_FORMAT, digest(a.after.value.content), if plan.syncSDK then a.doneAt else checkedAt)
  }

  function OutcomeOf(digest: string -> string, file: CacheFile, a: Attempt): Outcome {
    if a.before.None? then Failed
    else
      var plan := PlanOf(digest, file, a);
      if !plan.syncSDK && !plan.runTidy then Skipped
      else if Completes(plan, a) then Prepared
      else Failed
  }

  function FileAfter(digest: string -> string, file: CacheFile, a: Attempt): CacheFile {
    if OutcomeOf(digest, file, a) == Prepared && a.saveOk
    then Saved(NextState(digest, file, PlanOf(digest, file, a), a)) else file
  }

  /** go.mod replaces no SDK, and the cached check is missing, was never made, or is six hours old. */
  predicate NeedsCheck(file: CacheFile, a: Attempt)
    requires a.before.Some?
  {
    !a.before.value.sdkReplaced && CheckIsDue(file, a.planAt)
  }

  /** The cached check is missing, was never made, or is six hours old. */
  predicate CheckIsDue(file: CacheFile, now: int) {
    var state := LoadState(file);
    state.None? || state.value.sdkCheckedAt == ZERO_TIME || now - state.value.sdkCheckedAt >= SDK_LATEST_CHECK_INTERVAL
  }

  /** The cache carries the fingerprint of the inputs. */
  predicate Matches(digest: string -> string, file: CacheFile, a: Attempt)
    requires a.before.Some?
  {
    LoadState(file).Some? && LoadState(file).value.fingerprint == digest(a.before.value.content)
  }

  /** When a call skips, when it prepares, and that it fails otherwise: the inputs can be read before
      and after, a check that is needed finds a replacement or gets the SDK, and tidying succeeds. */
  lemma OutcomeExactlyWhen(digest: string -> string, file: CacheFile, a: Attempt)
    ensures OutcomeOf(digest, file, a) == Skipped <==>
              a.before.Some? && !NeedsCheck(file, a) && Matches(digest, file, a)
    ensures OutcomeOf(digest, file, a) == Prepared <==>
              && a.before.Some? && (NeedsCheck(file, a) || !Matches(digest, file, a))
              && (NeedsCheck(file, a) ==> a.replacedAtGet || a.getOk)
              && a.tidyOk && a.after.Some?
  {
  }

  /** Only a preparation that is saved changes the file: it then holds the new fingerprint, and the
      end of this preparation if that settled the SDK, otherwise the check there was. */
  lemma FileExactlyAfter(digest: string -> string, file: CacheFile, a: Attempt)
    ensures OutcomeOf(digest, file, a) != Prepared || !a.saveOk ==> FileAfter(digest, file, a) == file
    ensures OutcomeOf(digest, file, a) == Prepared && a.saveOk ==>
              FileAfter(digest, file, a) ==
                Saved(State(1, digest(a.after.value.content),
                            if NeedsCheck(file, a) then a.doneAt
                            else if LoadState(file).Some? then LoadState(file).value.sdkCheckedAt else 0))
  {
  }

  /** A cache counts while its format is the first one, and its check while it is under six hours
      old. */
  lemma CacheCountsExactlyWhen(file: CacheFile, now: int)
    ensures LoadState(file).Some? <==> file.Saved? && file.state.formatVersion == 1
    ensures LoadState(file).Some? ==> LoadState(file).value == file.state
    ensures !CheckIsDue(file, now) <==>
              && file.Saved? && file.state.formatVersion == 1 && file.state.sdkCheckedAt != 0
              && now - file.state.sdkCheckedAt < 21_600_000_000_000
  {
  }

  /** A needed check that gets no SDK and finds no replacement is a failure that leaves the cache. */
  lemma FailedGetIsFailed(digest: string -> string, file: CacheFile, a: Attempt)
    requires a.before.Some? && !a.before.value.sdkReplaced && CheckIsDue(file, a.planAt)
    requires !a.replacedAtGet && !a.getOk
    ensures OutcomeOf(digest, file, a) == Failed && FileAfter(digest, file, a) == file
  {
    OutcomeExactlyWhen(digest, file, a);
  }

  class Builder {
    var cacheFile: CacheFile

    /** Go's prepareDependencies. The file is replaced by a rename, so that a save
        that fails leaves the old one. */
    method PrepareDependencies(digest: string -> string, a: Attempt) returns (outcome: Outcome)
      modifies this
      ensures outcome == OutcomeOf(digest, old(cacheFile), a)
      ensures cacheFile == FileAfter(digest, old(cacheFile), a)
    {
      if a.before.None? {
        return Failed;
      }
      var fingerprint := digest(a.before.value.content);
      var state := LoadState(cacheFile);
      var plan := BuildPlan(state, fingerprint, a.before.value.sdkReplaced, a.planAt);
      if !plan.syncSDK && !plan.runTidy {
        return Skipped;
      }
      if plan.syncSDK {
        if !a.replacedAtGet && !a.getOk {
          return Failed;
        }
      }
      if plan.runTidy {
        if !a.tidyOk {
          return Failed;
        }
      }
      if a.after.None? {
        return Failed;
      }
      var nextState := State(CACHE_FORMAT, digest(a.after.value.content), ZERO_TIME);
      if state.Some? {
        nextState := nextState.(sdkCheckedAt := state.value.sdkCheckedAt);
      }
      if plan.syncSDK {
        nextState := nextState.(sdkCheckedAt := a.doneAt);
      }
      if a.saveOk {
        cacheFile := Saved(nextState);
      }
      outcome := Prepared;
    }
  }

  // ------------------------------------------------------------------ whole runs

  /** What is on record about the past: a fingerprint taken once `go mod tidy` had
      succeeded, or that the SDK question was settled (by asking for the latest
      version, or by finding a replacement) in a preparation that ended at `at`. */
  datatype Fact = Tidied(fingerprint: string) | SdkSettled(at: int, asked: bool)

  /** A call; or something outside deletes or damages the cache file, or leaves one
      of another format. */
  datatype Event = Call(a: Attempt) | Lose(left: CacheFile)

  ghost predicate Possible(e: Event) {
    e.Lose? ==> LoadState(e.left).None?
  }

  function Facts(digest: string -> string, file: CacheFile, a: Attempt): set<Fact> {
    if OutcomeOf(digest, file, a) == Prepared then
      (if a.tidyOk then {Tidied(digest(a.after.value.content))} else {})
      + (if PlanOf(digest, file, a).syncSDK then {SdkSettled(a.doneAt, !a.replacedAtGet)} else {})
    else {}
  }

  function FileAt(digest: string -> string, events: seq<Event>, n: nat): CacheFile
    requires n <= |events|
  {
    if n == 0 then Absent
    else
      var file := FileAt(digest, events, n - 1);
      match events[n - 1]
      case Call(a) => FileAfter(digest, file, a)
      case Lose(left) => left
  }

  function FactsAt(digest: string -> string, events: seq<Event>, n: nat): set<Fact>
    requires n <= |events|
  {
    if n == 0 then {}
    else
      FactsAt(digest, events, n - 1)
      + match events[n - 1]
        case Call(a) => Facts(digest, FileAt(digest, events, n - 1), a)
        case Lose(_) => {}
  }

  ghost predicate Settled(facts: set<Fact>, at: int) {
    SdkSettled(at, true) in facts || SdkSettled(at, false) in facts
  }

  /** A loadable cache says only what is on record. */
  ghost predicate Backed(file: CacheFile, facts: set<Fact>) {
    LoadState(file).Some? ==>
      var state := LoadState(file).value;
      Tidied(state.fingerprint) in facts
      && (state.sdkCheckedAt == ZERO_TIME || Settled(facts, state.sdkCheckedAt))
  }

  lemma CallStaysBacked(digest: string -> string, file: CacheFile, facts: set<Fact>, a: Attempt)
    requires Backed(file, facts)
    ensures Backed(FileAfter(digest, file, a), facts + Facts(digest, file, a))
  {
    if OutcomeOf(digest, file, a) == Prepared && a.saveOk {
      var next := NextState(digest, file, PlanOf(digest, file, a), a);
      assert LoadState(Saved(next)) == Some(next);
      assert Tidied(next.fingerprint) in Facts(digest, file, a);
      if PlanOf(digest, file, a).syncSDK {
        assert SdkSettled(a.doneAt, !a.replacedAtGet) in Facts(digest, file, a);
      }
    }
  }

  /** Whatever fails, and whatever happens to the file, a loadable cache carries a
      fingerprint measured after a successful tidy and a check that took place. */
  lemma {:induction false} CacheIsAlwaysBacked(digest: string -> string, events: seq<Event>, n: nat)
    requires n <= |events| && forall e :: e in events ==> Possible(e)
    ensures Backed(FileAt(digest, events, n), FactsAt(digest, events, n))
  {
    if n > 0 {
      CacheIsAlwaysBacked(digest, events, n - 1);
      assert Possible(events[n - 1]);
      match events[n - 1]
      case Call(a) => CallStaysBacked(digest, FileAt(digest, events, n - 1), FactsAt(digest, events, n - 1), a);
      case Lose(left) =>
    }
  }

  /** A build skips both commands only when the fingerprint of its inputs was taken
      after an earlier successful tidy, and the SDK is replaced or was settled in a
      preparation that ended less than six hours before. */
  lemma SkipsAreSound(digest: string -> string, events: seq<Event>, n: nat)
    requires n < |events| && (forall e :: e in events ==> Possible(e)) && events[n].Call?
    requires OutcomeOf(digest, FileAt(digest, events, n), events[n].a) == Skipped
    ensures var a := events[n].a;
            && a.before.Some?
            && Tidied(digest(a.before.value.content)) in FactsAt(digest, events, n)
            && (a.before.value.sdkReplaced
                || exists at :: Settled(FactsAt(digest, events, n), at) && a.planAt - at < SDK_LATEST_CHECK_INTERVAL)
  {
    CacheIsAlwaysBacked(digest, events, n);
    var state := LoadState(FileAt(digest, events, n)).value;
    assert state.sdkCheckedAt != ZERO_TIME ==> Settled(FactsAt(digest, events, n), state.sdkCheckedAt);
  }

  /** A check is due and go.mod holds no replacement when the plan is made, `go get`
      finds one when it looks again, and nothing later fails. */
  predicate ReplacedInBetween(file: CacheFile, a: Attempt) {
    && a.before.Some? && !a.before.value.sdkReplaced && CheckIsDue(file, a.planAt)
    && a.replacedAtGet
    && a.tidyOk && a.after.Some?
  }

  /** A call records a check for which nobody asked exactly when a replacement
      appears between its plan and its `go get`. */
  lemma UnaskedExactlyWhen(digest: string -> string, file: CacheFile, a: Attempt, at: int)
    ensures SdkSettled(at, false) in Facts(digest, file, a) <==> ReplacedInBetween(file, a) && a.doneAt == at
  {
    if ReplacedInBetween(file, a) {
      assert PlanOf(digest, file, a) == Plan(true, true);
      assert Completes(PlanOf(digest, file, a), a);
    }
  }

  ghost predicate UnaskedCall(digest: string -> string, events: seq<Event>, k: nat, at: int)
    requires k < |events|
  {
    events[k].Call? && ReplacedInBetween(FileAt(digest, events, k), events[k].a) && events[k].a.doneAt == at
  }

  /** Over a whole run: a check for which nobody asked is on record exactly when one
      of the calls was such a call. */
  lemma {:induction false} UnaskedOnRecordExactlyWhen(digest: string -> string, events: seq<Event>, n: nat, at: int)
    requires n <= |events|
    ensures SdkSettled(at, false) in FactsAt(digest, events, n) <==>
              exists k: nat :: k < n && UnaskedCall(digest, events, k, at)
  {
    if n > 0 {
      UnaskedOnRecordExactlyWhen(digest, events, n - 1, at);
      match events[n - 1]
      case Call(a) =>
        UnaskedExactlyWhen(digest, FileAt(digest, events, n - 1), a, at);
        assert SdkSettled(at, false) in Facts(digest, FileAt(digest, events, n - 1), a)
          <==> UnaskedCall(digest, events, n - 1, at);
      case Lose(_) =>
        assert !UnaskedCall(digest, events, n - 1, at);
    }
  }

  /** While nobody edits go.mod between planning and `go get`, settling the SDK
      question means that the latest version was asked for. */
  lemma SettledMeansAsked(digest: string -> string, events: seq<Event>, n: nat, at: int)
    requires n <= |events|
    requires forall e :: e in events && e.Call? && e.a.before.Some? ==> e.a.replacedAtGet == e.a.before.value.sdkReplaced
    requires Settled(FactsAt(digest, events, n), at)
    ensures SdkSettled(at, true) in FactsAt(digest, events, n)
  {
    UnaskedOnRecordExactlyWhen(digest, events, n, at);
    forall k: nat | k < n
      ensures !UnaskedCall(digest, events, k, at)
    {
      assert events[k] in events;
    }
  }

  /** The call asks for the latest SDK, and gets it. */
  ghost predicate AskedCall(digest: string -> string, events: seq<Event>, k: nat, at: int)
    requires k < |events|
  {
    && events[k].Call? && OutcomeOf(digest, FileAt(digest, events, k), events[k].a) == Prepared
    && NeedsCheck(FileAt(digest, events, k), events[k].a)
    && events[k].a.getOk && !events[k].a.replacedAtGet && events[k].a.doneAt == at
  }

  lemma AskedExactlyWhen(digest: string -> string, file: CacheFile, a: Attempt, at: int)
    ensures SdkSettled(at, true) in Facts(digest, file, a) <==>
              && OutcomeOf(digest, file, a) == Prepared && NeedsCheck(file, a)
              && a.getOk && !a.replacedAtGet && a.doneAt == at
  {
    OutcomeExactlyWhen(digest, file, a);
  }

  /** Over a whole run: a check that was asked for is on record exactly when one of the calls got the
      latest SDK at that time. */
  lemma {:induction false} AskedOnRecordExactlyWhen(digest: string -> string, events: seq<Event>, n: nat, at: int)
    requires n <= |events|
    ensures SdkSettled(at, true) in FactsAt(digest, events, n) <==> exists k: nat :: k < n && AskedCall(digest, events, k, at)
  {
    if n > 0 {
      AskedOnRecordExactlyWhen(digest, events, n - 1, at);
      match events[n - 1]
      case Call(a) =>
        AskedExactlyWhen(digest, FileAt(digest, events, n - 1), a, at);
        assert SdkSettled(at, true) in Facts(digest, FileAt(digest, events, n - 1), a) <==> AskedCall(digest, events, n - 1, at);
      case Lose(_) =>
        assert !AskedCall(digest, events, n - 1, at);
    }
  }

  lemma TidiedExactlyWhen(digest: string -> string, file: CacheFile, a: Attempt, fingerprint: string)
    ensures Tidied(fingerprint) in Facts(digest, file, a) <==>
              OutcomeOf(digest, file, a) == Prepared && a.tidyOk && a.after.Some? && digest(a.after.value.content) == fingerprint
  {
  }

  /** Editing go.mod in that window can leave a cache that counts as checked although
      nothing was asked: the replacement is gone again by the second fingerprint. */
  lemma EditDuringGetFoolsTheCache(digest: string -> string, content: string, at: int)
    requires at != ZERO_TIME
    ensures var first := Attempt(Some(Inputs(content, false)), at, true, false, true, Some(Inputs(content, false)), at, true);
            var second := first.(planAt := at + 1);
            && OutcomeOf(digest, Absent, first) == Prepared
            && OutcomeOf(digest, FileAfter(digest, Absent, first), second) == Skipped
            && SdkSettled(at, true) !in Facts(digest, Absent, first)
  {
  }

  /** What the cache is for: after a preparation that was saved, a build whose inputs
      have the fingerprint left behind skips both commands, if the SDK is replaced
      or that preparation settled it less than six hours before. */
  lemma PreparedThenSkips(digest: string -> string, file: CacheFile, a: Attempt, b: Attempt)
    requires OutcomeOf(digest, file, a) == Prepared && a.saveOk && b.before.Some?
    requires digest(b.before.value.content) == digest(a.after.value.content)
    requires b.before.value.sdkReplaced
             || (PlanOf(digest, file, a).syncSDK && a.doneAt != ZERO_TIME && b.planAt - a.doneAt < SDK_LATEST_CHECK_INTERVAL)
    ensures OutcomeOf(digest, FileAfter(digest, file, a), b) == Skipped
    ensures FileAfter(digest, FileAfter(digest, file, a), b) == FileAfter(digest, file, a)
  {
    var next := NextState(digest, file, PlanOf(digest, file, a), a);
    assert FileAfter(digest, file, a) == Saved(next);
  }
}
