/** The lock file of the scheduled backup agent (cmd/kagectl/backup.go), for any number
    of agents whose steps interleave. */
module BackupLock {
  import opened Strings

  /** Twelve hours, in nanoseconds. */
  const STALE_AFTER := 12 * 60 * 60 * 1_000_000_000

  /** Where an agent stands: not running; about to look at the lock file, with the
      time it read on entry; about to remove a lock it took for stale; about to create
      its own; between creating it and the deferred removal. */
  datatype Place = Idle | Looking(now: int) | SawStale | Creating | Holding

  datatype Lock = Lock(owner: nat, modTime: int)

  datatype State = State(lock: Option<Lock>, places: map<nat, Place>)

  /** One atomic step of one agent. `fails` is an error other than "exists" or "does
      not exist". A crash runs no deferred removal. */
  datatype Event =
    | Begin(agent: nat, now: int)
    | Look(agent: nat, fails: bool)
    | RemoveStale(agent: nat, fails: bool)
    | Create(agent: nat, at: int, fails: bool)
    | Release(agent: nat, fails: bool)
    | Crash(agent: nat)

  function PlaceOf(s: State, agent: nat): Place {
    if agent in s.places then s.places[agent] else Idle
  }

  function Moved(s: State, agent: nat, place: Place): State {
    s.(places := s.places[agent := place])
  }

  predicate IsStale(lock: Option<Lock>, now: int) {
    lock.Some? && now - lock.value.modTime > STALE_AFTER
  }

  /** A step an agent is not up to changes nothing. */
  function Step(s: State, e: Event): State {
    match e
    case Begin(a, now) =>
      if PlaceOf(s, a).Idle? then Moved(s, a, Looking(now)) else s
    case Look(a, fails) =>
      if !PlaceOf(s, a).Looking? then s
      else if !fails && IsStale(s.lock, PlaceOf(s, a).now) then Moved(s, a, SawStale)
      else Moved(s, a, Creating)
    case RemoveStale(a, fails) =>
      if !PlaceOf(s, a).SawStale? then s
      else Moved(s, a, Creating).(lock := if fails then s.lock else None)
    case Create(a, at, fails) =>
      if !PlaceOf(s, a).Creating? then s
      else if s.lock.Some? || fails then Moved(s, a, Idle)
      else Moved(s, a, Holding).(lock := Some(Lock(a, at)))
    case Release(a, fails) =>
      if !PlaceOf(s, a).Holding? then s
      else Moved(s, a, Idle).(lock := if fails then s.lock else None)
    case Crash(a) =>
      Moved(s, a, Idle)
  }

  function StateAfter(events: seq<Event>, n: nat): State
    requires n <= |events|
  {
    if n == 0 then State(None, map[]) else Step(StateAfter(events, n - 1), events[n - 1])
  }

  ghost predicate Exclusive(s: State) {
    forall a, b :: PlaceOf(s, a).Holding? && PlaceOf(s, b).Holding? ==> a == b
  }

  /** Whoever holds the lock owns the lock file. */
  ghost predicate HolderOwnsFile(s: State) {
    forall a :: PlaceOf(s, a).Holding? ==> s.lock.Some? && s.lock.value.owner == a
  }

  /** The step deletes, as stale, the lock of an agent that is still at work. */
  ghost predicate RobsHolder(s: State, e: Event) {
    e.RemoveStale? && !e.fails && PlaceOf(s, e.agent).SawStale? && exists b :: PlaceOf(s, b).Holding?
  }

  lemma StepKeepsOwner(s: State, e: Event)
    requires HolderOwnsFile(s)
    ensures HolderOwnsFile(Step(s, e)) <==> !RobsHolder(s, e)
  {
    var t := Step(s, e);
    forall b | b != e.agent
      ensures PlaceOf(t, b) == PlaceOf(s, b)
    {
    }
    if RobsHolder(s, e) {
      var b :| PlaceOf(s, b).Holding?;
      assert PlaceOf(t, b).Holding? && t.lock.None?;
    }
  }

  ghost predicate RobsAt(events: seq<Event>, k: nat)
    requires k < |events|
  {
    RobsHolder(StateAfter(events, k), events[k])
  }

  /** As long as no lock is deleted under a working agent, at most one agent is
      between exclusive creation and deferred removal, whatever the interleaving,
      the errors and the crashes. */
  lemma {:induction false} LockIsExclusive(events: seq<Event>, n: nat)
    requires n <= |events|
    requires forall k :: 0 <= k < n ==> !RobsAt(events, k)
    ensures HolderOwnsFile(StateAfter(events, n)) && Exclusive(StateAfter(events, n))
  {
    if n > 0 {
      LockIsExclusive(events, n - 1);
      assert !RobsAt(events, n - 1);
      StepStaysExclusive(StateAfter(events, n - 1), events[n - 1], StateAfter(events, n));
    }
  }

  lemma StepStaysExclusive(s: State, e: Event, t: State)
    requires HolderOwnsFile(s) && !RobsHolder(s, e) && t == Step(s, e)
    ensures HolderOwnsFile(t) && Exclusive(t)
  {
    StepKeepsOwner(s, e);
  }

  /** The step finds a lock older than twelve hours. */
  predicate FindsStale(s: State, e: Event) {
    e.Look? && !e.fails && PlaceOf(s, e.agent).Looking? && IsStale(s.lock, PlaceOf(s, e.agent).now)
  }

  lemma {:induction false} NobodySawStale(events: seq<Event>, n: nat)
    requires n <= |events|
    requires forall k :: 0 <= k < n ==> !FindsStale(StateAfter(events, k), events[k])
    ensures forall a :: !PlaceOf(StateAfter(events, n), a).SawStale?
  {
    if n > 0 {
      NobodySawStale(events, n - 1);
      var s, e := StateAfter(events, n - 1), events[n - 1];
      assert !FindsStale(s, e);
      forall a
        ensures !PlaceOf(Step(s, e), a).SawStale?
      {
        assert a != e.agent ==> PlaceOf(Step(s, e), a) == PlaceOf(s, a);
      }
    }
  }

  /** In particular the lock is exclusive in every run in which no lock is over
      twelve hours old when it is examined. */
  lemma {:induction false} ExclusiveWhileFresh(events: seq<Event>, n: nat)
    requires n <= |events|
    requires forall k :: 0 <= k < n ==> !FindsStale(StateAfter(events, k), events[k])
    ensures Exclusive(StateAfter(events, n))
  {
    forall k | 0 <= k < n
      ensures !RobsAt(events, k)
    {
      NobodySawStale(events, k);
    }
    LockIsExclusive(events, n);
  }

  /** Conversely, deleting the lock of a working agent is always one step away from
      two agents at work: the one that deleted it creates its own. */
  lemma RobbingLeadsToTwo(s: State, e: Event, at: int)
    requires RobsHolder(s, e)
    ensures !Exclusive(Step(Step(s, e), Create(e.agent, at, false)))
  {
    var b :| PlaceOf(s, b).Holding?;
    var t := Step(Step(s, e), Create(e.agent, at, false));
    assert PlaceOf(t, b).Holding? && PlaceOf(t, e.agent).Holding?;
  }

  /** Two agents find the lock that a third left behind when it crashed; both take it
      for stale. The first removes it and creates its own, which the second removes
      in turn: two agents at work, although no working agent's lock was ever old. */
  function TwoFindACrashedLock(late: int): seq<Event> {
    [Begin(0, 0), Look(0, false), Create(0, 0, false), Crash(0),
     Begin(1, late), Look(1, false), Begin(2, late), Look(2, false),
     RemoveStale(1, false), Create(1, late, false), RemoveStale(2, false), Create(2, late, false)]
  }

  lemma CrashedLockLetsTwoIn(late: int)
    requires late > STALE_AFTER
    ensures var s := StateAfter(TwoFindACrashedLock(late), 12);
            PlaceOf(s, 1).Holding? && PlaceOf(s, 2).Holding?
  {
    var events := TwoFindACrashedLock(late);
    BothSeeTheCrashedLock(late);
    assert StateAfter(events, 9) == State(None, map[0 := Idle, 1 := Creating, 2 := SawStale]);
    assert StateAfter(events, 10) == State(Some(Lock(1, late)), map[0 := Idle, 1 := Holding, 2 := SawStale]);
    assert StateAfter(events, 11) == State(None, map[0 := Idle, 1 := Holding, 2 := Creating]);
  }

  lemma BothSeeTheCrashedLock(late: int)
    requires late > STALE_AFTER
    ensures StateAfter(TwoFindACrashedLock(late), 8) == State(Some(Lock(0, 0)), map[0 := Idle, 1 := SawStale, 2 := SawStale])
  {
    var events := TwoFindACrashedLock(late);
    LockLeftBehind(late);
    var left := Some(Lock(0, 0));
    assert StateAfter(events, 5) == State(left, map[0 := Idle, 1 := Looking(late)]);
    assert StateAfter(events, 6) == State(left, map[0 := Idle, 1 := SawStale]);
    assert StateAfter(events, 7) == State(left, map[0 := Idle, 1 := SawStale, 2 := Looking(late)]);
  }

  lemma LockLeftBehind(late: int)
    ensures StateAfter(TwoFindACrashedLock(late), 4) == State(Some(Lock(0, 0)), map[0 := Idle])
  {
    var events := TwoFindACrashedLock(late);
    assert StateAfter(events, 1) == State(None, map[0 := Looking(0)]);
    assert StateAfter(events, 2) == State(None, map[0 := Creating]);
    assert StateAfter(events, 3) == State(Some(Lock(0, 0)), map[0 := Holding]);
  }

  // ----------------------------------------------------- locks are given back

  /** An agent stops working and leaves its lock: its removal fails, or it crashes. */
  ghost predicate LeavesLock(events: seq<Event>, k: nat, agent: nat)
    requires k < |events|
  {
    PlaceOf(StateAfter(events, k), agent).Holding? && (events[k] == Release(agent, true) || events[k] == Crash(agent))
  }

  /** There is a lock file only while its owner is at work, or after it has left it behind. */
  lemma {:induction false} LockHasAReason(events: seq<Event>, n: nat)
    requires n <= |events| && StateAfter(events, n).lock.Some?
    ensures var owner := StateAfter(events, n).lock.value.owner;
            PlaceOf(StateAfter(events, n), owner).Holding? || exists k :: 0 <= k < n && LeavesLock(events, k, owner)
  {
    var s, e, t := StateAfter(events, n - 1), events[n - 1], StateAfter(events, n);
    var owner := t.lock.value.owner;
    if s.lock == t.lock {
      LockHasAReason(events, n - 1);
      if PlaceOf(s, owner).Holding? && !PlaceOf(t, owner).Holding? {
        StopsWorking(s, e, owner);
        assert LeavesLock(events, n - 1, owner);
      }
    }
  }

  lemma StopsWorking(s: State, e: Event, agent: nat)
    requires PlaceOf(s, agent).Holding? && !PlaceOf(Step(s, e), agent).Holding?
    ensures e == Crash(agent) || e == Release(agent, true) || (e == Release(agent, false) && Step(s, e).lock.None?)
  {
  }

  /** When a working agent has removed its lock, the next that begins, looks and creates is at work. */
  lemma ReleasedLockIsTaken(s: State, holder: nat, next: nat, now: int, at: int)
    requires PlaceOf(s, holder).Holding? && (next == holder || PlaceOf(s, next).Idle?)
    ensures var t := Step(Step(Step(Step(s, Release(holder, false)), Begin(next, now)), Look(next, false)), Create(next, at, false));
            PlaceOf(t, next).Holding? && t.lock == Some(Lock(next, at))
  {
  }

  /** An agent that nothing fails for and nobody gets in the way of comes to work exactly when there
      is no lock, or the one there is more than twelve hours old; it then owns the lock, and otherwise
      leaves it as it was. */
  lemma TakesLockExactlyWhen(s: State, agent: nat, now: int, at: int)
    requires PlaceOf(s, agent).Idle?
    ensures var looked := Step(Step(s, Begin(agent, now)), Look(agent, false));
            var t := Step(Step(looked, RemoveStale(agent, false)), Create(agent, at, false));
            var free := s.lock.None? || now - s.lock.value.modTime > 43_200_000_000_000;
            && PlaceOf(t, agent) == (if free then Holding else Idle)
            && t.lock == if free then Some(Lock(agent, at)) else s.lock
  {
  }

  /** A call that fails, and a crash, leave the lock file as it is and bring nobody to work. */
  lemma FailuresTakeNoLock(s: State, e: Event, agent: nat)
    requires e.Crash? || (!e.Begin? && e.fails)
    ensures Step(s, e).lock == s.lock
    ensures PlaceOf(Step(s, e), agent).Holding? ==> PlaceOf(s, agent).Holding?
  {
  }
}
