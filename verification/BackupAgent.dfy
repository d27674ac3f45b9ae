/** The scheduled backup agent's records (cmd/kagectl/backup.go), with the state file,
    the schedule and the pruning of pkg/systembackup/system_backup.go, for one agent
    at a time. */
module BackupAgent {
  import opened Strings

  datatype Trigger = Manual | Schedule

  datatype Status = Running | Failed | Succeeded

  /** `startedAt` is in whole seconds; the identity is the starting instant itself. */
  datatype Record = Record(
    id: int,
    trigger: Trigger,
    status: Status,
    startedAt: int,
    finishedAt: Option<int>,
    objectKey: Option<string>)

  datatype State = State(lastSeenAt: int, running: bool, records: seq<Record>)

  datatype Config = Config(
    enabled: bool,
    scheduleMinute: Option<int>,
    runNowRequestedAt: string,
    lastRunNowProcessedAt: string,
    keepLocal: int)

  const MAX_RECORDS := 50
  const SECOND := 1_000_000_000

  /** The local calendar: the day and the minute of the day of an instant given in
      seconds. */
  datatype Calendar = Calendar(day: int -> int, minute: int -> int)

  /** How everything the agent asks of the world turns out during one invocation.
      `localArchives` counts the archives present when the old ones are pruned. */
  datatype World = World(
    loadOk: bool, seenSaveOk: bool, lockFree: bool, configSaveOk: bool, runningSaveOk: bool,
    pathOk: bool, createOk: bool, uploadOk: bool, objectKey: string, midLoadOk: bool, midSaveOk: bool,
    pruneReadOk: bool, localArchives: nat, pruneRemoveOk: bool, pruneRemoteOk: bool,
    finishLoadOk: bool, finishSaveOk: bool, endedAt: int)

  /** How an invocation ends: before its record is saved as running; with the record
      finished; with an error that leaves the record as it is; in a panic. */
  datatype Exit = NotStarted | Finished(ok: bool) | Unrecorded | Panicked

  /** SaveState keeps the newest records only. */
  function Newest(records: seq<Record>): seq<Record> {
    if |records| > MAX_RECORDS then records[..MAX_RECORDS] else records
  }

  predicate ScheduledOn(r: Record, calendar: Calendar, day: int) {
    r.trigger == Schedule && calendar.day(r.startedAt) == day
  }

  /** A run has been asked for, and the request has not been taken up. */
  predicate Pending(cfg: Config) {
    cfg.runNowRequestedAt != "" && cfg.runNowRequestedAt != cfg.lastRunNowProcessedAt
  }

  function Due(cfg: Config, records: seq<Record>, calendar: Calendar, now: int): Option<Trigger> {
    if !cfg.enabled then None
    else if Pending(cfg) then Some(Manual)
    else if cfg.scheduleMinute.None? || calendar.minute(now / SECOND) < cfg.scheduleMinute.value then None
    else if exists r <- records :: ScheduledOn(r, calendar, calendar.day(now / SECOND)) then None
    else Some(Schedule)
  }

  /** Pruning slices the sorted archives from the number to keep on: a number that is
      negative or larger than theirs is a run-time panic. */
  predicate PruneFits(cfg: Config, w: World) {
    0 <= cfg.keepLocal <= w.localArchives
  }

  // ------------------------------------------------------------- one invocation

  predicate Begins(cfg: Config, s: State, calendar: Calendar, now: int, w: World) {
    var due := Due(cfg, s.records, calendar, now);
    && w.loadOk && w.seenSaveOk && due.Some? && w.lockFree
    && (due.value == Manual ==> w.configSaveOk)
    && w.runningSaveOk
  }

  /** The configuration that an invocation leaves: a request that it takes up is marked. */
  function ConfigLeft(cfg: Config, records: seq<Record>, calendar: Calendar, now: int, w: World): Config {
    if w.loadOk && w.seenSaveOk && Due(cfg, records, calendar, now) == Some(Manual) && w.lockFree && w.configSaveOk
    then cfg.(lastRunNowProcessedAt := cfg.runNowRequestedAt) else cfg
  }

  function NewRecord(trigger: Trigger, now: int): Record {
    Record(now, trigger, Running, now / SECOND, None, None)
  }

  /** Every stage up to the upload succeeds, and its outcome is saved. */
  predicate ReachesPruning(w: World) {
    w.pathOk && w.createOk && w.uploadOk && w.midLoadOk && w.midSaveOk
  }

  predicate AllGoesWell(w: World) {
    ReachesPruning(w) && w.pruneReadOk && w.pruneRemoveOk && w.pruneRemoteOk
  }

  predicate Panics(cfg: Config, w: World) {
    ReachesPruning(w) && w.pruneReadOk && !PruneFits(cfg, w)
  }

  function ExitOf(cfg: Config, w: World): Exit {
    if Panics(cfg, w) then Panicked
    else if w.finishLoadOk && w.finishSaveOk then Finished(AllGoesWell(w))
    else Unrecorded
  }

  /** The record of a run as the run leaves it. */
  function LeftRecord(cfg: Config, r: Record, w: World): Record {
    var uploaded := if ReachesPruning(w) then r.(objectKey := Some(w.objectKey)) else r;
    if ExitOf(cfg, w).Finished? then
      uploaded.(finishedAt := Some(w.endedAt), status := if AllGoesWell(w) then Succeeded else Failed)
    else uploaded
  }

  function RecordsAfter(cfg: Config, records: seq<Record>, trigger: Trigger, now: int, w: World): seq<Record> {
    [LeftRecord(cfg, NewRecord(trigger, now), w)] + Newest([NewRecord(trigger, now)] + records)[1..]
  }

  class Agent {
    var state: State
    var config: Config

    constructor (config: Config)
      ensures this.config == config && state == State(0, false, [])
    {
      this.config := config;
      state := State(0, false, []);
    }

    /** Go's runScheduledProductionBackup from the loading of the state on. */
    method ScheduledRun(calendar: Calendar, now: int, w: World) returns (exit: Exit)
      modifies this
      ensures exit.NotStarted? <==> !Begins(old(config), old(state), calendar, now, w)
      ensures exit.NotStarted? ==>
                state.running == old(state.running)
                && state.records == if w.loadOk && w.seenSaveOk then Newest(old(state.records)) else old(state.records)
      ensures state.lastSeenAt == if exit.Finished? then w.endedAt
                                  else if w.loadOk && w.seenSaveOk then now / 1_000_000_000
                                  else old(state.lastSeenAt)
      ensures !exit.NotStarted? ==>
                var due := Due(old(config), old(state.records), calendar, now).value;
                && exit == ExitOf(old(config), w)
                && state.records == RecordsAfter(old(config), old(state.records), due, now, w)
                && state.running == !exit.Finished?
      ensures config == ConfigLeft(old(config), old(state.records), calendar, now, w)
    {
      if !w.loadOk {
        return NotStarted;
      }
      var loaded := state.(lastSeenAt := now / SECOND);
      if !w.seenSaveOk {
        return NotStarted;
      }
      state := loaded.(records := Newest(loaded.records));
      var due := Due(config, loaded.records, calendar, now);
      if due.None? {
        return NotStarted;
      }
      if !w.lockFree {
        return NotStarted;
      }
      if due.value == Manual {
        if !w.configSaveOk {
          return NotStarted;
        }
        config := config.(lastRunNowProcessedAt := config.runNowRequestedAt);
      }
      if !w.runningSaveOk {
        return NotStarted;
      }
      var record := NewRecord(due.value, now);
      state := loaded.(running := true, records := Newest([record] + loaded.records));
      exit := Work(now, w);
    }

    /** From the first stage after the record has been saved as running. */
    method Work(id: int, w: World) returns (exit: Exit)
      requires 0 < |state.records| <= MAX_RECORDS && state.records[0].id == id && state.running
      modifies this`state
      ensures exit == ExitOf(config, w) && state.running == !exit.Finished?
      ensures state.lastSeenAt == if exit.Finished? then w.endedAt else old(state.lastSeenAt)
      ensures state.records == [LeftRecord(config, old(state.records[0]), w)] + old(state.records)[1..]
    {
      if !w.pathOk || !w.createOk || !w.uploadOk || !w.midLoadOk {
        exit := Finish(id, false, w);
        return;
      }
      var latest := UpdateFirst(state.records, id, (r: Record) => r.(objectKey := Some(w.objectKey)));
      if !w.midSaveOk {
        exit := Finish(id, false, w);
        return;
      }
      state := state.(records := Newest(latest));
      if !w.pruneReadOk {
        exit := Finish(id, false, w);
        return;
      }
      if config.keepLocal < 0 || config.keepLocal > w.localArchives {
        return Panicked;
      }
      if !w.pruneRemoveOk || !w.pruneRemoteOk {
        exit := Finish(id, false, w);
        return;
      }
      exit := Finish(id, true, w);
    }

    /** The closure that every exit goes through once the record is saved as running. */
    method Finish(id: int, ok: bool, w: World) returns (exit: Exit)
      requires 0 < |state.records| <= MAX_RECORDS && state.records[0].id == id
      modifies this`state
      ensures exit == if w.finishLoadOk && w.finishSaveOk then Finished(ok) else Unrecorded
      ensures exit.Unrecorded? ==> state == old(state)
      ensures exit.Finished? ==>
                var r := old(state.records[0]).(finishedAt := Some(w.endedAt), status := if ok then Succeeded else Failed);
                state == State(w.endedAt, false, [r] + old(state.records)[1..])
    {
      if !w.finishLoadOk {
        return Unrecorded;
      }
      var records := UpdateFirst(state.records, id,
        (r: Record) => r.(finishedAt := Some(w.endedAt), status := if ok then Succeeded else Failed));
      var latest := State(w.endedAt, false, records);
      if !w.finishSaveOk {
        return Unrecorded;
      }
      state := latest.(records := Newest(latest.records));
      exit := Finished(ok);
    }
  }

  /** Changes the first record with the given identity. */
  method UpdateFirst(records: seq<Record>, id: int, change: Record -> Record) returns (updated: seq<Record>)
    ensures |updated| == |records|
    ensures forall i :: 0 <= i < |records| ==>
              updated[i] == if records[i].id == id && (forall j :: 0 <= j < i ==> records[j].id != id)
                            then change(records[i]) else records[i]
    ensures records != [] && records[0].id == id ==> updated == [change(records[0])] + records[1..]
  {
    updated := records;
    for i := 0 to |records|
      invariant updated == records
      invariant forall j :: 0 <= j < i ==> records[j].id != id
    {
      if records[i].id == id {
        updated := updated[i := change(records[i])];
        return;
      }
    }
  }

  // ------------------------------------------------------------------ properties

  /** A record that was saved as running ends as succeeded or failed, in step with the
      work, exactly when `finish` can load and save the state and the pruning is not
      asked to keep more archives than there are. */
  lemma RecordEndsExactlyWhen(cfg: Config, records: seq<Record>, trigger: Trigger, now: int, w: World)
    ensures var r := RecordsAfter(cfg, records, trigger, now, w)[0];
            && r.id == now && r.trigger == trigger && r.startedAt == now / 1_000_000_000
            && (r.status != Running <==> w.finishLoadOk && w.finishSaveOk && !Panics(cfg, w))
            && (r.status == Succeeded <==> ExitOf(cfg, w) == Finished(true))
            && (r.status == Failed <==> ExitOf(cfg, w) == Finished(false))
            && r.finishedAt == if r.status == Running then None else Some(w.endedAt)
  {
  }

  /** A run is recorded as succeeded exactly when every one of its stages went well, and has an
      object key exactly when its archive was uploaded and that could be saved. */
  lemma SucceedsExactlyWhen(cfg: Config, records: seq<Record>, trigger: Trigger, now: int, w: World)
    ensures var r := RecordsAfter(cfg, records, trigger, now, w)[0];
            && (r.status == Succeeded <==>
                  && w.pathOk && w.createOk && w.uploadOk && w.midLoadOk && w.midSaveOk
                  && w.pruneReadOk && 0 <= cfg.keepLocal <= w.localArchives && w.pruneRemoveOk && w.pruneRemoteOk
                  && w.finishLoadOk && w.finishSaveOk)
            && r.objectKey ==
                 if w.pathOk && w.createOk && w.uploadOk && w.midLoadOk && w.midSaveOk then Some(w.objectKey) else None
  {
  }

  /** It stays recorded as running, though it has ended, exactly when the state cannot be read or
      written at the end, or pruning panics after all went well so far. */
  lemma StaysRunningExactlyWhen(cfg: Config, records: seq<Record>, trigger: Trigger, now: int, w: World)
    ensures RecordsAfter(cfg, records, trigger, now, w)[0].status == Running <==>
              || !w.finishLoadOk || !w.finishSaveOk
              || (w.pathOk && w.createOk && w.uploadOk && w.midLoadOk && w.midSaveOk && w.pruneReadOk
                  && !(0 <= cfg.keepLocal <= w.localArchives))
  {
  }

  /** An upload that fails: the run is recorded as failed, without an object key. */
  lemma FailedUploadIsRecorded(cfg: Config, records: seq<Record>, trigger: Trigger, now: int, w: World)
    requires !w.uploadOk && w.finishLoadOk && w.finishSaveOk
    ensures RecordsAfter(cfg, records, trigger, now, w)[0] ==
              Record(now, trigger, Failed, now / SECOND, Some(w.endedAt), None)
  {
    SucceedsExactlyWhen(cfg, records, trigger, now, w);
    StaysRunningExactlyWhen(cfg, records, trigger, now, w);
  }

  /** A manual run is due when a request is not yet marked as taken up; else, from the minute of the
      schedule on, a scheduled one if none on record began on the same day. */
  lemma DueExactlyWhen(cfg: Config, records: seq<Record>, calendar: Calendar, now: int)
    ensures Due(cfg, records, calendar, now) == Some(Manual) <==>
              cfg.enabled && cfg.runNowRequestedAt != "" && cfg.runNowRequestedAt != cfg.lastRunNowProcessedAt
    ensures var second := now / 1_000_000_000;
            Due(cfg, records, calendar, now) == Some(Schedule) <==>
              && cfg.enabled
              && (cfg.runNowRequestedAt == "" || cfg.runNowRequestedAt == cfg.lastRunNowProcessedAt)
              && cfg.scheduleMinute.Some? && calendar.minute(second) >= cfg.scheduleMinute.value
              && forall r :: r in records ==>
                   !(r.trigger == Schedule && calendar.day(r.startedAt) == calendar.day(second))
  {
    var day := calendar.day(now / SECOND);
    assert forall r :: r in records ==>
        (ScheduledOn(r, calendar, day) <==> r.trigger == Schedule && calendar.day(r.startedAt) == day);
  }

  /** An invocation starts a run exactly when one is due and nothing that comes before it fails: the
      state is read and saved, the lock is free, a request can be marked, the record saved. */
  lemma StartsExactlyWhen(records: seq<Record>, calendar: Calendar, t: Tick)
    ensures StartsAt(records, calendar, t) <==>
              && t.w.loadOk && t.w.seenSaveOk && t.w.lockFree && t.w.runningSaveOk
              && (|| (Due(t.cfg, records, calendar, t.now) == Some(Manual) && t.w.configSaveOk)
                  || Due(t.cfg, records, calendar, t.now) == Some(Schedule))
  {
  }

  /** A request is due at once while the agent is enabled, and from the invocation on that takes it
      up it is pending no more. It is lost, marked without a run, exactly when the record of that
      run cannot be saved. */
  lemma RequestIsTakenUpOnce(records: seq<Record>, calendar: Calendar, t: Tick)
    requires t.cfg.enabled && t.cfg.runNowRequestedAt != "" && t.cfg.runNowRequestedAt != t.cfg.lastRunNowProcessedAt
    ensures var left := ConfigLeft(t.cfg, records, calendar, t.now, t.w);
            && Due(t.cfg, records, calendar, t.now) == Some(Manual)
            && (StartsAt(records, calendar, t) ==> left.lastRunNowProcessedAt == left.runNowRequestedAt)
            && (left.lastRunNowProcessedAt == left.runNowRequestedAt && !StartsAt(records, calendar, t) <==>
                  t.w.loadOk && t.w.seenSaveOk && t.w.lockFree && t.w.configSaveOk && !t.w.runningSaveOk)
            && left == t.cfg.(lastRunNowProcessedAt := left.lastRunNowProcessedAt)
  {
  }

  /** An invocation changes the configuration only by marking a request that was pending. */
  lemma OnlyRequestsAreMarked(records: seq<Record>, calendar: Calendar, t: Tick)
    ensures ConfigLeft(t.cfg, records, calendar, t.now, t.w) != t.cfg ==>
              && t.cfg.enabled && t.cfg.runNowRequestedAt != "" && t.cfg.runNowRequestedAt != t.cfg.lastRunNowProcessedAt
              && t.w.loadOk && t.w.seenSaveOk && t.w.lockFree && t.w.configSaveOk
  {
  }

  /** With the settings the agent falls back on, two archives to keep, the very first
      backup is the only archive: its record stays running although it is complete
      and uploaded. */
  lemma FirstBackupStaysRunning(cfg: Config, trigger: Trigger, now: int, w: World)
    requires cfg.keepLocal == 2 && w.localArchives == 1 && AllGoesWell(w)
    ensures ExitOf(cfg, w) == Panicked
    ensures RecordsAfter(cfg, [], trigger, now, w)[0].status == Running
    ensures RecordsAfter(cfg, [], trigger, now, w)[0].objectKey == Some(w.objectKey)
  {
  }

  /** One invocation: the configuration the agent finds, the time, and the world. */
  datatype Tick = Tick(cfg: Config, now: int, w: World)

  function RecordsAt(ticks: seq<Tick>, calendar: Calendar, n: nat): seq<Record>
    requires n <= |ticks|
  {
    if n == 0 then []
    else
      var before := RecordsAt(ticks, calendar, n - 1);
      var t := ticks[n - 1];
      if StartsAt(before, calendar, t) then
        RecordsAfter(t.cfg, before, Due(t.cfg, before, calendar, t.now).value, t.now, t.w)
      else if t.w.loadOk && t.w.seenSaveOk then Newest(before) else before
  }

  predicate StartsAt(records: seq<Record>, calendar: Calendar, t: Tick) {
    Begins(t.cfg, State(0, false, records), calendar, t.now, t.w)
  }

  lemma {:induction false} NeverMoreThanMax(ticks: seq<Tick>, calendar: Calendar, n: nat)
    requires n <= |ticks|
    ensures |RecordsAt(ticks, calendar, n)| <= 50
  {
    if n > 0 { NeverMoreThanMax(ticks, calendar, n - 1); }
  }

  /** Over any sequence of invocations in which `finish` can use the state file and the
      pruning fits, no record is left running. */
  lemma {:induction false} NoRecordLeftRunning(ticks: seq<Tick>, calendar: Calendar, n: nat)
    requires n <= |ticks|
    requires forall t :: t in ticks ==> t.w.finishLoadOk && t.w.finishSaveOk && !Panics(t.cfg, t.w)
    ensures forall r :: r in RecordsAt(ticks, calendar, n) ==> r.status != Running
  {
    if n > 0 {
      NoRecordLeftRunning(ticks, calendar, n - 1);
      var before, t := RecordsAt(ticks, calendar, n - 1), ticks[n - 1];
      assert t in ticks;
      if StartsAt(before, calendar, t) {
        var trigger := Due(t.cfg, before, calendar, t.now).value;
        var added := [NewRecord(trigger, t.now)] + before;
        RecordEndsExactlyWhen(t.cfg, before, trigger, t.now, t.w);
        assert forall r :: r in Newest(added)[1..] ==> r in before;
      } else {
        assert forall r :: r in Newest(before) ==> r in before;
      }
    }
  }

  // ------------------------------------------------------- once a day, and how often

  /** How many of the invocations from i up to n started a run. */
  function Starts(ticks: seq<Tick>, calendar: Calendar, i: nat, n: nat): nat
    requires i <= n <= |ticks|
  {
    if n == i then 0
    else Starts(ticks, calendar, i, n - 1)
         + if StartsAt(RecordsAt(ticks, calendar, n - 1), calendar, ticks[n - 1]) then 1 else 0
  }

  /** The record at place `place` is, but for how it ended, the one begun at `now`. */
  predicate BegunAt(records: seq<Record>, place: nat, trigger: Trigger, now: int) {
    place < |records| && records[place].trigger == trigger && records[place].startedAt == now / SECOND
  }

  /** A record moves back by one place with every run started after it, and is there
      as long as fewer than fifty were. */
  lemma {:induction false} RecordMovesBack(ticks: seq<Tick>, calendar: Calendar, i: nat, n: nat)
    requires i < n <= |ticks| && StartsAt(RecordsAt(ticks, calendar, i), calendar, ticks[i])
    requires Starts(ticks, calendar, i + 1, n) < MAX_RECORDS
    ensures BegunAt(RecordsAt(ticks, calendar, n), Starts(ticks, calendar, i + 1, n),
                    Due(ticks[i].cfg, RecordsAt(ticks, calendar, i), calendar, ticks[i].now).value, ticks[i].now)
    decreases n
  {
    if i + 1 < n {
      RecordMovesBack(ticks, calendar, i, n - 1);
      var before, t := RecordsAt(ticks, calendar, n - 1), ticks[n - 1];
      var place := Starts(ticks, calendar, i + 1, n - 1);
      if StartsAt(before, calendar, t) {
        var trigger := Due(t.cfg, before, calendar, t.now).value;
        assert Newest([NewRecord(trigger, t.now)] + before)[1..][place] == before[place];
      }
    }
  }

  /** Conversely, every record stands for a run, with as many runs after it as records
      before it. */
  lemma {:induction false} RecordHasStart(ticks: seq<Tick>, calendar: Calendar, n: nat, p: nat) returns (i: nat)
    requires n <= |ticks| && p < |RecordsAt(ticks, calendar, n)|
    ensures i < n && StartsAt(RecordsAt(ticks, calendar, i), calendar, ticks[i]) && Starts(ticks, calendar, i + 1, n) == p
    ensures BegunAt(RecordsAt(ticks, calendar, n), p,
                    Due(ticks[i].cfg, RecordsAt(ticks, calendar, i), calendar, ticks[i].now).value, ticks[i].now)
    decreases n
  {
    var before, t := RecordsAt(ticks, calendar, n - 1), ticks[n - 1];
    if !StartsAt(before, calendar, t) {
      i := RecordHasStart(ticks, calendar, n - 1, p);
    } else if p == 0 {
      i := n - 1;
    } else {
      PlacesAfter(t.cfg, before, Due(t.cfg, before, calendar, t.now).value, t.now, t.w, p);
      i := RecordHasStart(ticks, calendar, n - 1, p - 1);
    }
  }

  /** The new record in front, the others one place back. */
  lemma PlacesAfter(cfg: Config, before: seq<Record>, trigger: Trigger, now: int, w: World, place: nat)
    requires place < |RecordsAfter(cfg, before, trigger, now, w)|
    ensures place == 0 ==> RecordsAfter(cfg, before, trigger, now, w)[place].trigger == trigger
    ensures place > 0 ==> place - 1 < |before| && RecordsAfter(cfg, before, trigger, now, w)[place] == before[place - 1]
  {
    var all := [NewRecord(trigger, now)] + before;
    if place > 0 { assert Newest(all)[1..][place - 1] == all[place] == before[place - 1]; }
  }

  /** The schedule is on, its minute has come, and no request goes before it. */
  predicate ScheduleAsks(cfg: Config, calendar: Calendar, now: int) {
    && cfg.enabled && !Pending(cfg)
    && cfg.scheduleMinute.Some? && calendar.minute(now / SECOND) >= cfg.scheduleMinute.value
  }

  /** The invocation starts a scheduled run on that day. */
  predicate ScheduledStart(ticks: seq<Tick>, calendar: Calendar, i: nat, day: int)
    requires i < |ticks|
  {
    var at := RecordsAt(ticks, calendar, i);
    && StartsAt(at, calendar, ticks[i]) && Due(ticks[i].cfg, at, calendar, ticks[i].now) == Some(Schedule)
    && calendar.day(ticks[i].now / SECOND) == day
  }

  /** Over any sequence of invocations, a scheduled run is due exactly when the schedule asks
      for one and every scheduled run of that day has at least fifty runs after it. */
  lemma ScheduleDueExactlyWhen(ticks: seq<Tick>, calendar: Calendar, n: nat)
    requires n < |ticks|
    ensures var day := calendar.day(ticks[n].now / SECOND);
            Due(ticks[n].cfg, RecordsAt(ticks, calendar, n), calendar, ticks[n].now) == Some(Schedule) <==>
              && ScheduleAsks(ticks[n].cfg, calendar, ticks[n].now)
              && forall i :: 0 <= i < n && ScheduledStart(ticks, calendar, i, day) ==>
                   Starts(ticks, calendar, i + 1, n) >= 50
  {
    var day, records := calendar.day(ticks[n].now / SECOND), RecordsAt(ticks, calendar, n);
    if r :| r in records && ScheduledOn(r, calendar, day) {
      var p :| 0 <= p < |records| && records[p] == r;
      var i := RecordHasStart(ticks, calendar, n, p);
      NeverMoreThanMax(ticks, calendar, n);
      assert ScheduledStart(ticks, calendar, i, day);
    } else {
      forall i | 0 <= i < n && ScheduledStart(ticks, calendar, i, day)
        ensures Starts(ticks, calendar, i + 1, n) >= MAX_RECORDS
      {
        if Starts(ticks, calendar, i + 1, n) < MAX_RECORDS { StillOnRecord(ticks, calendar, i, n, day); }
      }
    }
  }

  lemma StillOnRecord(ticks: seq<Tick>, calendar: Calendar, i: nat, n: nat, day: int)
    requires i < n <= |ticks| && ScheduledStart(ticks, calendar, i, day) && Starts(ticks, calendar, i + 1, n) < MAX_RECORDS
    ensures exists r :: r in RecordsAt(ticks, calendar, n) && ScheduledOn(r, calendar, day)
  {
    var records, place := RecordsAt(ticks, calendar, n), Starts(ticks, calendar, i + 1, n);
    RecordMovesBack(ticks, calendar, i, n);
    assert records[place] in records;
  }

  /** The schedule starts at most one backup a day, unless fifty other runs on that day
      push the record of the first out of the state file. */
  lemma ScheduleRunsOncePerDay(ticks: seq<Tick>, calendar: Calendar, i: nat, n: nat, day: int)
    requires i < n < |ticks| && ScheduledStart(ticks, calendar, i, day) && ScheduledStart(ticks, calendar, n, day)
    ensures Starts(ticks, calendar, i + 1, n) >= 50
  {
    ScheduleDueExactlyWhen(ticks, calendar, n);
  }

  // ---------------------------------------------------------- invocations in a row

  /** What the settings service may make of a configuration: anything of its settings, and a
      request with the time of day; it never takes a request or its mark back. */
  predicate MayBecome(left: Config, cfg: Config) {
    && cfg.lastRunNowProcessedAt == left.lastRunNowProcessedAt
    && (cfg.runNowRequestedAt == left.runNowRequestedAt || cfg.runNowRequestedAt != "")
  }

  /** The next invocation finds the configuration that the last one left, in a later second, after
      the last run has ended, and one archive more than that run has kept. */
  predicate Linked(ticks: seq<Tick>, calendar: Calendar, k: nat)
    requires k + 1 < |ticks|
  {
    var t, u := ticks[k], ticks[k + 1];
    var before, after := RecordsAt(ticks, calendar, k), RecordsAt(ticks, calendar, k + 1);
    && MayBecome(ConfigLeft(t.cfg, before, calendar, t.now, t.w), u.cfg)
    && t.now / SECOND < u.now / SECOND
    && (StartsAt(before, calendar, t) ==> t.now / SECOND <= t.w.endedAt <= u.now / SECOND)
    && (StartsAt(before, calendar, t) && AllGoesWell(t.w) && StartsAt(after, calendar, u) ==>
          u.w.localArchives == t.cfg.keepLocal + 1)
  }

  /** Invocations as they can follow one another on a fresh installation. */
  ghost predicate Reachable(ticks: seq<Tick>, calendar: Calendar) {
    && (ticks != [] ==> ticks[0].cfg.runNowRequestedAt == "" && ticks[0].cfg.lastRunNowProcessedAt == ""
                        && ticks[0].w.localArchives <= 1)
    && forall k: nat :: k + 1 < |ticks| ==> Linked(ticks, calendar, k)
  }

  // ----------------------------------------------- a day with two scheduled backups

  function Utc(): Calendar {
    Calendar(s => s / 86400, s => s % 86400 / 60)
  }

  function AllWell(archives: nat, endedAt: int): World {
    World(true, true, true, true, true, true, true, true, "key", true, true, true, archives, true, true, true, true, endedAt)
  }

  function TwoDigits(n: nat): string
    requires n < 100
  {
    [('0' as int + n / 10) as char, ('0' as int + n % 10) as char]
  }

  /** The k-th request, half a minute before the k-th minute of the day. */
  function Request(k: nat): string
    requires k <= 50
  {
    if k == 0 then "" else "1970-01-01T00:" + (TwoDigits(k - 1) + ":30Z")
  }

  lemma RequestsDiffer(k: nat)
    requires 0 < k <= 50
    ensures Request(k) != Request(k - 1) && Request(k) != ""
  {
    if k > 1 { DifferInside("1970-01-01T00:", TwoDigits(k - 1), TwoDigits(k - 2), ":30Z"); }
  }

  lemma DifferInside(start: string, a: string, b: string, end: string)
    requires |a| == |b| == 2 && a[1] != b[1]
    ensures start + (a + end) != start + (b + end)
  {
    assert (start + (a + end))[|start| + 1] == a[1];
    assert (start + (b + end))[|start| + 1] == b[1];
  }

  /** What the k-th invocation finds: a request that is new, except at first and at last. */
  function BusyConfig(k: nat): Config
    requires k <= 51
  {
    Config(true, Some(0), Request(if k == 51 then 50 else k), Request(if k == 0 then 0 else k - 1), 1)
  }

  function BusyTick(k: nat): Tick
    requires k <= 51
  {
    Tick(BusyConfig(k), k * 60 * SECOND, AllWell(if k == 0 then 1 else 2, k * 60 + 20))
  }

  /** A scheduled run, fifty runs that were asked for, and one more look at the schedule, a minute
      apart. */
  function BusyDay(): seq<Tick> {
    seq(52, k requires 0 <= k < 52 => BusyTick(k))
  }

  /** From the second invocation to the last but one, each takes up the new request. */
  lemma BusyMinute(ticks: seq<Tick>, calendar: Calendar, k: nat, records: seq<Record>)
    requires ticks == BusyDay() && 1 <= k <= 50
    ensures Due(ticks[k].cfg, records, calendar, ticks[k].now) == Some(Manual)
    ensures StartsAt(records, calendar, ticks[k])
  {
    RequestsDiffer(k);
    assert ticks[k] == BusyTick(k);
  }

  lemma {:induction false} FiftyManualRuns(ticks: seq<Tick>, calendar: Calendar, first: nat, n: nat)
    requires ticks == BusyDay() && first == 0 && 1 <= n <= 51
    ensures Starts(ticks, calendar, first + 1, n) == n - 1
  {
    if n > 1 {
      FiftyManualRuns(ticks, calendar, first, n - 1);
      BusyMinute(ticks, calendar, n - 1, RecordsAt(ticks, calendar, n - 1));
    }
  }

  lemma BusyEnds(ticks: seq<Tick>, calendar: Calendar, k: nat)
    requires ticks == BusyDay() && calendar == Utc() && (k == 0 || k == 51)
    ensures ScheduleAsks(ticks[k].cfg, calendar, ticks[k].now) && calendar.day(ticks[k].now / SECOND) == 0
    ensures ticks[k].w == AllWell(if k == 0 then 1 else 2, k * 60 + 20)
  {
    assert ticks[k] == BusyTick(k);
  }

  lemma StartsWhenDue(records: seq<Record>, calendar: Calendar, t: Tick, archives: nat, endedAt: int)
    requires t.w == AllWell(archives, endedAt) && Due(t.cfg, records, calendar, t.now).Some?
    ensures StartsAt(records, calendar, t)
  {
  }

  lemma BusyLinks(ticks: seq<Tick>, calendar: Calendar, k: nat, records: seq<Record>)
    requires ticks == BusyDay() && calendar == Utc() && k <= 50 && records == RecordsAt(ticks, calendar, k)
    ensures MayBecome(ConfigLeft(ticks[k].cfg, records, calendar, ticks[k].now, ticks[k].w), ticks[k + 1].cfg)
  {
    assert ticks[k] == BusyTick(k) && ticks[k + 1] == BusyTick(k + 1);
    if k == 0 {
      BusyEnds(ticks, calendar, k);
    } else {
      BusyMinute(ticks, calendar, k, records);
    }
    if k < 50 { RequestsDiffer(k + 1); }
  }

  lemma BusyDayIsReachable(ticks: seq<Tick>, calendar: Calendar)
    requires ticks == BusyDay() && calendar == Utc()
    ensures Reachable(ticks, calendar)
  {
    assert ticks[0] == BusyTick(0);
    forall k: nat | k + 1 < |ticks|
      ensures Linked(ticks, calendar, k)
    {
      BusyLinks(ticks, calendar, k, RecordsAt(ticks, calendar, k));
      assert ticks[k] == BusyTick(k) && ticks[k + 1] == BusyTick(k + 1);
    }
  }

  /** Such a day can come about, and on it the schedule starts two backups. */
  lemma BusyDayRunsTwice(ticks: seq<Tick>, calendar: Calendar, first: nat, last: nat)
    requires ticks == BusyDay() && calendar == Utc() && first == 0 && last == 51
    ensures Reachable(ticks, calendar)
    ensures ScheduledStart(ticks, calendar, first, 0) && ScheduledStart(ticks, calendar, last, 0)
  {
    BusyDayIsReachable(ticks, calendar);
    BusyEnds(ticks, calendar, first);
    BusyEnds(ticks, calendar, last);
    ScheduleDueExactlyWhen(ticks, calendar, first);
    StartsWhenDue(RecordsAt(ticks, calendar, first), calendar, ticks[first], 1, 20);
    FiftyManualRuns(ticks, calendar, first, last);
    forall i | 0 <= i < last && ScheduledStart(ticks, calendar, i, 0)
      ensures Starts(ticks, calendar, i + 1, last) >= MAX_RECORDS
    {
      if i > 0 { BusyMinute(ticks, calendar, i, RecordsAt(ticks, calendar, i)); }
    }
    ScheduleDueExactlyWhen(ticks, calendar, last);
    StartsWhenDue(RecordsAt(ticks, calendar, last), calendar, ticks[last], 2, last * 60 + 20);
  }
}
