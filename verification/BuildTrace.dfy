/** The recorder of build timings (pkg/buildtrace/buildtrace.go): one mutex around the
    trace, one sync.Once in each span. */
module BuildTrace {
  import opened Strings
  import opened Seqs
  import opened Sorting

  datatype Status = Running | Ok | Error

  const MAX_ERROR_LEN := 4000

  datatype SpanRecord = SpanRecord(
    seqNo: nat,
    name: string,
    attributes: map<string, string>,
    startedAt: int,
    endedAt: Option<int>,
    durationMS: int,
    status: Status,
    error: string)

  datatype Summary = Summary(
    traceID: string,
    operation: string,
    startedAt: int,
    endedAt: Option<int>,
    durationMS: int,
    status: Status,
    error: string,
    storagePath: string,
    spans: seq<SpanRecord>)

  // ------------------------------------------------------------------- values

  /** Nanoseconds to milliseconds, truncated toward zero, but at least 1 for any time
      that passed. */
  function DurationMillis(d: int): (ms: int)
    ensures d > 0 <==> ms > 0
    ensures d > 0 ==> (ms - 1) * 1_000_000 < d
    ensures d >= 1_000_000 ==> ms * 1_000_000 <= d
    ensures d < 0 ==> d <= ms * 1_000_000 < d + 1_000_000
  {
    var ms := if d >= 0 then d / 1_000_000 else -((-d) / 1_000_000);
    if ms == 0 && d > 0 then 1 else ms
  }

  function CompactError(text: string): string {
    var trimmed := TrimSpace(text);
    if |trimmed| <= MAX_ERROR_LEN then trimmed else trimmed[..MAX_ERROR_LEN] + "...(truncated)"
  }

  function Started(seqNo: nat, name: string, attributes: map<string, string>, now: int): SpanRecord {
    SpanRecord(seqNo, TrimSpace(name), attributes, now, None, 0, Running, "")
  }

  function Closed(r: SpanRecord, now: int, err: Option<string>): SpanRecord {
    r.(endedAt := Some(now),
       durationMS := DurationMillis(now - r.startedAt),
       status := if err.Some? then Error else Ok,
       error := if err.Some? then CompactError(err.value) else r.error)
  }

  function Finalized(s: Summary, now: int, err: Option<string>): Summary {
    s.(endedAt := Some(now),
       durationMS := DurationMillis(now - s.startedAt),
       status := if err.Some? then Error else Ok,
       error := if err.Some? then CompactError(err.value) else s.error)
  }

  /** The first 4000 characters of the trimmed text, and a note if that is not all. */
  lemma CompactErrorMeaning(text: string)
    ensures |TrimSpace(text)| <= 4000 ==> CompactError(text) == TrimSpace(text)
    ensures |TrimSpace(text)| > 4000 ==>
              HasPrefix(CompactError(text), TrimSpace(text)[..4000]) && HasSuffix(CompactError(text), "...(truncated)")
              && |CompactError(text)| == 4014
  {
  }

  predicate SeqLe(x: SpanRecord, y: SpanRecord) {
    x.seqNo <= y.seqNo
  }

  /** Longest first; of equally long spans the one started first. */
  predicate SlowerLe(x: SpanRecord, y: SpanRecord) {
    x.durationMS > y.durationMS || (x.durationMS == y.durationMS && x.seqNo <= y.seqNo)
  }

  /** A copy of the trace with its spans in the order they were started. */
  function Copied(s: Summary): Summary {
    s.(spans := Sort(s.spans, SeqLe))
  }

  // -------------------------------------------------------------- atomic steps

  /** A span between its start and its entry in the trace: the first Finish closes
      the record before it gets the mutex. */
  datatype Stage = Open(record: SpanRecord) | Closing(record: SpanRecord) | Recorded(record: SpanRecord)

  datatype State = State(summary: Summary, nextSeq: nat, finished: bool, spans: map<nat, Stage>)

  /** The atomic steps of any number of threads. */
  datatype Event =
    | StartSpan(name: string, attributes: map<string, string>, startedAt: int)
    | BeginFinish(seqNo: nat, now: int, err: Option<string>)
    | AppendSpan(seqNo: nat)
    | Finalize(now: int, err: Option<string>)
    | SetStoragePath(path: string)

  function Step(s: State, e: Event): State {
    match e
    case StartSpan(name, attributes, startedAt) =>
      var n := s.nextSeq + 1;
      s.(nextSeq := n, spans := s.spans[n := Open(Started(n, name, attributes, startedAt))])
    case BeginFinish(n, now, err) =>
      if n in s.spans && s.spans[n].Open? then
        s.(spans := s.spans[n := Closing(Closed(s.spans[n].record, now, err))])
      else s
    case AppendSpan(n) =>
      if n in s.spans && s.spans[n].Closing? then
        s.(summary := s.summary.(spans := s.summary.spans + [s.spans[n].record]),
           spans := s.spans[n := Recorded(s.spans[n].record)])
      else s
    case Finalize(now, err) =>
      if s.finished then s else s.(finished := true, summary := Finalized(s.summary, now, err))
    case SetStoragePath(path) =>
      s.(summary := s.summary.(storagePath := path))
  }

  function RunFrom(s: State, events: seq<Event>): State {
    if events == [] then s else Step(RunFrom(s, events[..|events| - 1]), events[|events| - 1])
  }

  function Initial(traceID: string, operation: string, now: int): State {
    State(Summary(traceID, TrimSpace(operation), now, None, 0, Running, "", "", []), 0, false, map[])
  }

  /** Started spans carry the numbers 1 to nextSeq; the trace lists the recorded ones,
      each once, with the record its first Finish closed. */
  ghost predicate Consistent(s: State) {
    && (forall n :: n in s.spans <==> 1 <= n <= s.nextSeq)
    && (forall n :: n in s.spans ==> s.spans[n].record.seqNo == n)
    && (forall i, j :: 0 <= i < j < |s.summary.spans| ==> s.summary.spans[i].seqNo != s.summary.spans[j].seqNo)
    && (forall i :: 0 <= i < |s.summary.spans| ==>
          s.summary.spans[i].seqNo in s.spans && s.spans[s.summary.spans[i].seqNo] == Recorded(s.summary.spans[i]))
    && (forall n :: n in s.spans && s.spans[n].Recorded? ==> s.spans[n].record in s.summary.spans)
  }

  lemma StepStaysConsistent(s: State, e: Event)
    requires Consistent(s)
    ensures Consistent(Step(s, e))
  {
    var t := Step(s, e);
    if e.AppendSpan? && e.seqNo in s.spans && s.spans[e.seqNo].Closing? {
      var r := s.spans[e.seqNo].record;
      assert t.summary.spans == s.summary.spans + [r];
      forall n | n in t.spans && t.spans[n].Recorded?
        ensures t.spans[n].record in t.summary.spans
      {
        assert t.summary.spans[|s.summary.spans|] == r;
        if n != e.seqNo { assert s.spans[n].record in s.summary.spans; }
      }
    }
  }

  // ------------------------------------------------------------------ objects

  class Snapshot {
    var summary: Summary

    constructor (summary: Summary)
      ensures this.summary == summary
    {
      this.summary := summary;
    }
  }

  class Trace {
    var summary: Summary
    var nextSeq: nat
    var finished: bool
    /** The spans started so far, by their numbers. */
    ghost var spans: map<nat, Span>

    ghost function StageOf(span: Span): Stage
      reads this, span
    {
      if !span.done then Open(span.record)
      else if span.record in summary.spans then Recorded(span.record)
      else Closing(span.record)
    }

    /** The trace and its spans as one state of the step machine. */
    ghost function Abs(): State
      reads this, spans.Values
    {
      State(summary, nextSeq, finished, map n | n in spans :: StageOf(spans[n]))
    }

    ghost predicate Valid()
      reads this, spans.Values
    {
      Consistent(Abs()) && forall n :: n in spans ==> spans[n].trace == this
    }

    constructor (traceID: string, operation: string, now: int)
      ensures Valid() && Abs() == Initial(traceID, operation, now)
      ensures summary == Summary(traceID, TrimSpace(operation), now, None, 0, Running, "", "", [])
    {
      summary := Summary(traceID, TrimSpace(operation), now, None, 0, Running, "", "", []);
      nextSeq := 0;
      finished := false;
      spans := map[];
    }

    /** The critical section of Start. */
    method TakeSeq() returns (seqNo: nat)
      modifies this`nextSeq
      ensures nextSeq == old(nextSeq) + 1 && seqNo == nextSeq
    {
      nextSeq := nextSeq + 1;
      seqNo := nextSeq;
    }

    /** Lists the span that took the last number. */
    ghost method Enrol(span: Span, before: State, name: string, attributes: map<string, string>, now: int)
      requires Consistent(before) && before == Abs().(nextSeq := before.nextSeq) && nextSeq == before.nextSeq + 1
      requires forall n :: n in spans ==> spans[n].trace == this
      requires span.trace == this && !span.done && span.record == Started(nextSeq, name, attributes, now)
      modifies this`spans
      ensures spans == old(spans)[nextSeq := span]
      ensures Valid() && Abs() == Step(before, StartSpan(name, attributes, now))
    {
      spans := spans[nextSeq := span];
      assert Abs().spans == Step(before, StartSpan(name, attributes, now)).spans;
      StepStaysConsistent(before, StartSpan(name, attributes, now));
    }

    /** The critical section of Finish. */
    method Append(span: Span)
      requires Valid() && span.Watched(this) && StageOf(span).Closing?
      modifies this`summary
      ensures Valid() && Abs() == Step(old(Abs()), AppendSpan(span.record.seqNo))
      ensures summary == old(summary).(spans := old(summary.spans) + [span.record])
    {
      summary := summary.(spans := summary.spans + [span.record]);
      assert Abs().spans == Step(old(Abs()), AppendSpan(span.record.seqNo)).spans;
      StepStaysConsistent(old(Abs()), AppendSpan(span.record.seqNo));
    }

    twostate predicate Same(span: Span)
      reads span
    {
      span.record == old(span.record) && span.done == old(span.done)
    }

    /** Nothing happened to the spans, or to the trace's list of them. */
    twostate lemma SameSpans()
      requires spans == old(spans) && summary.spans == old(summary.spans)
      requires forall n :: n in spans ==> Same(spans[n])
      ensures Abs().spans == old(Abs().spans)
    {
    }

    method SetStoragePath(path: string)
      requires Valid()
      modifies this`summary
      ensures Valid() && Abs() == Step(old(Abs()), Event.SetStoragePath(path))
      ensures summary == old(summary).(storagePath := path)
    {
      summary := summary.(storagePath := path);
      SameSpans();
    }

    /** One open span has been closed, and nothing else happened. */
    lemma OneClosed(span: Span, before: State, r: SpanRecord, now: int, err: Option<string>)
      requires Consistent(before) && r.seqNo in before.spans && before.spans[r.seqNo] == Open(r)
      requires span.done && span.record == Closed(r, now, err)
      requires Abs() == before.(spans := before.spans[r.seqNo := StageOf(span)])
      ensures StageOf(span).Closing? && Consistent(Abs())
      ensures Abs() == Step(before, BeginFinish(r.seqNo, now, err))
    {
      assert span.record !in summary.spans;
      StepStaysConsistent(before, BeginFinish(r.seqNo, now, err));
    }

    /** What the first Finalize settles. */
    method Settle(now: int, err: Option<string>)
      requires Valid()
      modifies this`finished, this`summary
      ensures Valid() && Abs() == Step(old(Abs()), Event.Finalize(now, err))
    {
      if !finished {
        finished := true;
        summary := summary.(endedAt := Some(now), durationMS := DurationMillis(now - summary.startedAt));
        if err.Some? {
          summary := summary.(status := Error, error := CompactError(err.value));
        } else {
          summary := summary.(status := Ok);
        }
        assert summary == Finalized(old(summary), now, err);
        SameSpans();
      }
    }

    method Finalize(now: int, err: Option<string>) returns (snapshot: Snapshot)
      requires Valid()
      modifies this`finished, this`summary
      ensures Valid() && Abs() == Step(old(Abs()), Event.Finalize(now, err))
      ensures summary == if old(finished) then old(summary) else Finalized(old(summary), now, err)
      ensures !old(finished) ==>
                && summary.endedAt == Some(now) && summary.durationMS == DurationMillis(now - old(summary.startedAt))
                && summary.status == (if err.Some? then Error else Ok)
                && (err.Some? ==> summary.error == CompactError(err.value))
                && summary.spans == old(summary.spans) && summary.startedAt == old(summary.startedAt)
      ensures fresh(snapshot) && snapshot.summary == Copied(summary)
    {
      Settle(now, err);
      snapshot := CloneLocked();
    }

    method TakeSnapshot() returns (snapshot: Snapshot)
      ensures fresh(snapshot) && snapshot.summary == Copied(summary)
      ensures snapshot.summary == summary.(spans := snapshot.summary.spans)
    {
      snapshot := CloneLocked();
    }

    /** Copies the spans one by one, then sorts the copy. */
    method CloneLocked() returns (snapshot: Snapshot)
      ensures fresh(snapshot) && snapshot.summary == Copied(summary)
    {
      var spans: seq<SpanRecord> := [];
      for i := 0 to |summary.spans|
        invariant spans == summary.spans[..i]
      {
        spans := spans + [summary.spans[i]];
      }
      assert spans == summary.spans;
      snapshot := new Snapshot(summary.(spans := Sort(spans, SeqLe)));
    }
  }

  class Span {
    const trace: Trace?
    var record: SpanRecord
    var done: bool

    /** The span is one of those started on the trace. */
    ghost predicate Watched(trace: Trace)
      reads this, trace
    {
      this.trace == trace && record.seqNo in trace.spans && trace.spans[record.seqNo] == this
    }

    /** Go's Start; without a trace the span does nothing. */
    constructor (trace: Trace?, name: string, attributes: map<string, string>, now: int)
      requires trace != null ==> trace.Valid()
      modifies if trace == null then {} else {trace}
      ensures this.trace == trace && !done
      ensures trace != null ==>
                && trace.Valid() && Watched(trace)
                && trace.spans == old(trace.spans)[trace.nextSeq := this]
                && record.seqNo == trace.nextSeq == old(trace.nextSeq) + 1 && record.name == TrimSpace(name)
                && record.startedAt == now && record.status == Running && record.endedAt == None
                && record.attributes == attributes
                && trace.Abs() == Step(old(trace.Abs()), StartSpan(name, attributes, now))
    {
      this.trace := trace;
      done := false;
      var seqNo := 0;
      if trace != null {
        seqNo := trace.TakeSeq();
      }
      record := Started(seqNo, name, attributes, now);
      new;
      if trace != null {
        assert trace.Abs().spans == old(trace.Abs()).spans;
        trace.Enrol(this, old(trace.Abs()), name, attributes, now);
      }
    }

    method MarkClosed(now: int, err: Option<string>)
      modifies this
      ensures done && record == Closed(old(record), now, err)
    {
      done := true;
      record := record.(endedAt := Some(now), durationMS := DurationMillis(now - record.startedAt));
      if err.Some? {
        record := record.(status := Error, error := CompactError(err.value));
      } else {
        record := record.(status := Ok);
      }
    }

    /** What the first Finish does before it takes the mutex. */
    method Close(now: int, err: Option<string>)
      requires trace != null && trace.Valid() && Watched(trace) && !done
      modifies this
      ensures done && record == Closed(old(record), now, err)
      ensures trace.Valid() && Watched(trace) && trace.StageOf(this).Closing?
      ensures trace.Abs() == Step(old(trace.Abs()), BeginFinish(record.seqNo, now, err))
    {
      MarkClosed(now, err);
      assert trace.Abs().spans == old(trace.Abs()).spans[record.seqNo := trace.StageOf(this)];
      trace.OneClosed(this, old(trace.Abs()), old(record), now, err);
    }

    /** The first call closes the record and appends it; later ones do nothing. */
    method Finish(now: int, err: Option<string>)
      requires trace != null ==> trace.Valid() && Watched(trace)
      modifies this, if trace == null then {} else {trace}
      ensures trace == null ==> record == old(record) && done == old(done)
      ensures trace != null ==> trace.Valid() && Watched(trace) && done
      ensures trace != null && old(done) ==> trace.Abs() == old(trace.Abs())
      ensures trace != null && !old(done) ==>
                && record == Closed(old(record), now, err)
                && record.endedAt == Some(now) && record.durationMS == DurationMillis(now - old(record.startedAt))
                && record.status == (if err.Some? then Error else Ok)
                && (err.Some? ==> record.error == CompactError(err.value))
                && record.seqNo == old(record.seqNo) && record.name == old(record.name)
                && trace.summary.spans == old(trace.summary.spans) + [record]
                && trace.Abs() == Step(Step(old(trace.Abs()), BeginFinish(record.seqNo, now, err)), AppendSpan(record.seqNo))
    {
      if trace == null {
        return;
      }
      if done {
        return;
      }
      Close(now, err);
      trace.Append(this);
    }
  }

  // ------------------------------------------------------- every interleaving

  lemma {:induction false} RunStaysConsistent(s: State, events: seq<Event>)
    requires Consistent(s)
    ensures Consistent(RunFrom(s, events))
  {
    if events != [] {
      RunStaysConsistent(s, events[..|events| - 1]);
      StepStaysConsistent(RunFrom(s, events[..|events| - 1]), events[|events| - 1]);
    }
  }

  /** How one state may differ from an earlier one. */
  ghost predicate Later(s: State, t: State) {
    && s.summary.spans <= t.summary.spans
    && s.nextSeq <= t.nextSeq
    && (forall n :: n in s.spans ==> n in t.spans)
    && (forall n :: n in s.spans && !s.spans[n].Open? ==> !t.spans[n].Open? && t.spans[n].record == s.spans[n].record)
    && (s.finished ==>
          t.finished && t.summary.status == s.summary.status && t.summary.error == s.summary.error
          && t.summary.endedAt == s.summary.endedAt && t.summary.durationMS == s.summary.durationMS)
  }

  lemma LaterTransitive(s: State, t: State, u: State)
    requires Later(s, t) && Later(t, u)
    ensures Later(s, u)
  {
    assert s.summary.spans <= u.summary.spans;
  }

  lemma StepIsLater(s: State, e: Event)
    requires Consistent(s)
    ensures Later(s, Step(s, e))
  {
  }

  /** Whatever the threads do, recorded spans stay as they are and where they are,
      a closed record is never closed again, and the first Finalize fixes the
      outcome and the duration. */
  lemma {:induction false} RunIsLater(s: State, events: seq<Event>)
    requires Consistent(s)
    ensures Later(s, RunFrom(s, events))
  {
    if events != [] {
      var before := RunFrom(s, events[..|events| - 1]);
      RunIsLater(s, events[..|events| - 1]);
      RunStaysConsistent(s, events[..|events| - 1]);
      StepIsLater(before, events[|events| - 1]);
      LaterTransitive(s, before, RunFrom(s, events));
    }
  }

  ghost predicate StrictlyBySeq(spans: seq<SpanRecord>) {
    forall i, j :: 0 <= i < j < |spans| ==> spans[i].seqNo < spans[j].seqNo
  }

  lemma SeqOrder()
    ensures TotalPreorder(SeqLe)
  {
  }

  /** A snapshot of any reachable state lists exactly the spans recorded so far, in
      strictly rising order of their numbers. */
  lemma SnapshotIsSorted(s: State)
    requires Consistent(s)
    ensures StrictlyBySeq(Copied(s.summary).spans)
    ensures multiset(Copied(s.summary).spans) == multiset(s.summary.spans)
    ensures forall r :: r in Copied(s.summary).spans <==> exists n :: n in s.spans && s.spans[n] == Recorded(r)
  {
    var spans, sorted := s.summary.spans, Copied(s.summary).spans;
    SeqOrder();
    SortPermutes(spans, SeqLe);
    SortOrders(spans, SeqLe);
    DistinctWhenSorted(spans, sorted);
    forall r
      ensures r in sorted <==> exists n :: n in s.spans && s.spans[n] == Recorded(r)
    {
      assert r in sorted <==> r in spans;
      if r in spans {
        var i :| 0 <= i < |spans| && spans[i] == r;
        assert s.spans[r.seqNo] == Recorded(r);
      }
    }
  }

  lemma DistinctWhenSorted(spans: seq<SpanRecord>, sorted: seq<SpanRecord>)
    requires forall i, j :: 0 <= i < j < |spans| ==> spans[i].seqNo != spans[j].seqNo
    requires multiset(sorted) == multiset(spans) && Ordered(SeqLe, sorted)
    ensures StrictlyBySeq(sorted)
  {
    assert Distinct(spans);
    DistinctPermuted(spans, sorted);
    PermutedMembers(sorted, spans);
    forall i, j | 0 <= i < j < |sorted|
      ensures sorted[i].seqNo < sorted[j].seqNo
    {
      assert SeqLe(sorted[i], sorted[j]) && sorted[i] != sorted[j];
      assert sorted[i] in spans && sorted[j] in spans;
    }
  }

  /** Snapshots only grow: one taken later holds every record of one taken earlier. */
  lemma SnapshotsOnlyGrow(s: State, events: seq<Event>)
    requires Consistent(s)
    ensures multiset(Copied(s.summary).spans) <= multiset(Copied(RunFrom(s, events).summary).spans)
  {
    var t := RunFrom(s, events);
    RunIsLater(s, events);
    RunStaysConsistent(s, events);
    SnapshotIsSorted(s);
    SnapshotIsSorted(t);
    var more := t.summary.spans[|s.summary.spans|..];
    assert t.summary.spans == s.summary.spans + more;
  }

  /** The trace of any interleaving from the start on: the numbers given out are
      distinct, and a span is recorded at most once. */
  lemma EveryInterleaving(traceID: string, operation: string, now: int, events: seq<Event>)
    ensures Consistent(RunFrom(Initial(traceID, operation, now), events))
    ensures StrictlyBySeq(Copied(RunFrom(Initial(traceID, operation, now), events).summary).spans)
  {
    RunStaysConsistent(Initial(traceID, operation, now), events);
    SnapshotIsSorted(RunFrom(Initial(traceID, operation, now), events));
  }

  // ----------------------------------------------------------- slowest spans

  lemma SlowerOrder()
    ensures TotalPreorder(SlowerLe)
  {
  }

  /** `rest` is what `top` leaves of `spans`, and no span in it goes before one in `top`. */
  ghost predicate IsTop(top: seq<SpanRecord>, rest: seq<SpanRecord>, spans: seq<SpanRecord>) {
    && multiset(top) + multiset(rest) == multiset(spans)
    && (forall i, j :: 0 <= i < j < |top| ==>
          top[i].durationMS > top[j].durationMS
          || (top[i].durationMS == top[j].durationMS && top[i].seqNo <= top[j].seqNo))
    && forall x, y :: x in top && y in rest ==>
         x.durationMS > y.durationMS || (x.durationMS == y.durationMS && x.seqNo <= y.seqNo)
  }

  method Slowest(trace: Option<Summary>, limit: int) returns (top: seq<SpanRecord>)
    ensures trace.None? || limit <= 0 ==> top == []
    ensures trace.Some? && limit > 0 ==>
              |top| == (if limit < |trace.value.spans| then limit else |trace.value.spans|)
              && exists rest :: IsTop(top, rest, trace.value.spans)
  {
    if trace.None? || limit <= 0 {
      return [];
    }
    var all := trace.value.spans;
    if |all| == 0 {
      assert IsTop([], [], all);
      return [];
    }
    var spans: seq<SpanRecord> := [];
    for i := 0 to |all|
      invariant spans == all[..i]
    {
      spans := spans + [all[i]];
    }
    assert spans == all;
    spans := Sort(spans, SlowerLe);
    SlowerOrder();
    SortPermutes(all, SlowerLe);
    SortOrders(all, SlowerLe);
    top := if |spans| > limit then spans[..limit] else spans;
    ghost var rest := spans[|top|..];
    assert spans == top + rest;
    assert IsTop(top, rest, all);
  }
}
