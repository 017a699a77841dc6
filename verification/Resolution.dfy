/**
 What the logs of all attempts say about each row
 (crates/rowforge-core/src/row_resolution.rs).
 */
module Resolution {
  import opened Base
  import opened Protocol
  import opened Text
  import opened PipelineAccount

  datatype ResolutionState = NeverAttempted | Resolved | FailedLast | CrashedLast | CancelledLast | TooLarge

  datatype OutcomeKind = KindSuccess | KindFailed

  datatype OutcomeRecord = OutcomeRecord(
    attemptId: string, seqNo: nat, kind: OutcomeKind, headers: seq<string>, raw: seq<string>, code: Option<string>)

  datatype PerSeq = PerSeq(
    state: ResolutionState, canonicalSuccess: Option<OutcomeRecord>, latestFailure: Option<OutcomeRecord>)

  const FRESH := PerSeq(NeverAttempted, None, None)

  datatype AttemptState = Running | Completed | Aborted

  datatype Attempt = Attempt(id: string, state: AttemptState, log: seq<BatchOutcome>)

  /** One outcome together with the attempt that logged it. */
  datatype Event = Event(attemptId: string, outcome: RowOutcome)

  // ------------------------------------------------------------------
  // Records
  // ------------------------------------------------------------------

  function CsvCell(v: Json): string {
    match v case Str(s) => s case Null => "" case Other(text) => text
  }

  function Cells(keys: seq<string>, data: Data): (r: seq<string>)
    ensures |r| == |keys|
    ensures forall i :: 0 <= i < |keys| && keys[i] in data ==> r[i] == CsvCell(data[keys[i]])
  {
    seq(|keys|, i requires 0 <= i < |keys| => if keys[i] in data then CsvCell(data[keys[i]]) else "")
  }

  function SuccessRecord(attemptId: string, seqNo: nat, data: Data): OutcomeRecord {
    var keys := Sorted(data.Keys);
    OutcomeRecord(attemptId, seqNo, KindSuccess, ["seqid"] + keys, [Decimal(seqNo)] + Cells(keys, data), None)
  }

  function ErrorRecord(attemptId: string, seqNo: nat, code: string, message: string, detail: Option<Data>)
    : OutcomeRecord
  {
    var data: Data := match detail case Some(d) => d case None => map[];
    var keys := Sorted(data.Keys);
    OutcomeRecord(attemptId, seqNo, KindFailed, ["seqid", "errcode", "errmessage"] + keys,
                  [Decimal(seqNo), code, message] + Cells(keys, data), Some(code))
  }

  function Classify(code: string): ResolutionState {
    if code == ERR_WORKER_CRASH || code == ERR_WORKER_CRASH_UNSAFE then CrashedLast
    else if code == ERR_CANCELLED then CancelledLast
    else if code == ERR_ROW_TOO_LARGE then TooLarge
    else FailedLast
  }

  /** The failed state a failure on its own puts a row in. */
  function FailureState(o: RowOutcome): ResolutionState
    requires !o.Success?
  {
    if o.Error? then Classify(o.code) else CrashedLast
  }

  function CrashMessage(workerId: nat, crashAtSeq: nat): string {
    "worker " + Decimal(workerId) + " crashed at seq " + Decimal(crashAtSeq)
  }

  function RecordOf(e: Event): OutcomeRecord {
    match e.outcome
    case Success(n, data, _) => SuccessRecord(e.attemptId, n, data)
    case Error(n, code, message, _, detail) => ErrorRecord(e.attemptId, n, code, message, detail)
    case Crash(n, w, at) => ErrorRecord(e.attemptId, n, ERR_WORKER_CRASH, CrashMessage(w, at), None)
  }

  // ------------------------------------------------------------------
  // Declarative meaning: read one row's events as a whole
  // ------------------------------------------------------------------

  /** Position of the first success, or the length when there is none. */
  function FirstSuccess(events: seq<Event>): (k: nat)
    ensures k <= |events|
    ensures k < |events| ==> events[k].outcome.Success?
    ensures forall i :: 0 <= i < k ==> !events[i].outcome.Success?
  {
    if events == [] then 0
    else if events[0].outcome.Success? then 0
    else 1 + FirstSuccess(events[1..])
  }

  /** The first success settles a row; until then its last failure describes it. */
  function RowSpec(events: seq<Event>): PerSeq {
    var k := FirstSuccess(events);
    PerSeq(
      if k < |events| then Resolved else if k == 0 then NeverAttempted else FailureState(events[k - 1].outcome),
      if k < |events| then Some(RecordOf(events[k])) else None,
      if k > 0 then Some(RecordOf(events[k - 1])) else None)
  }

  function Trace(events: seq<Event>, s: nat): seq<Event> {
    Filter((e: Event) => e.outcome.seqNo == s, events)
  }

  function Mentioned(events: seq<Event>): set<nat> {
    set i | 0 <= i < |events| :: events[i].outcome.seqNo
  }

  function UpTo(n: nat): (r: set<nat>)
    ensures forall s: nat :: s in r <==> s < n
  {
    if n == 0 then {} else UpTo(n - 1) + {n - 1}
  }

  function Rows(n: nat, events: seq<Event>): set<nat> { UpTo(n) + Mentioned(events) }

  function ResolutionOf(n: nat, events: seq<Event>): (m: map<nat, PerSeq>)
    ensures m.Keys == Rows(n, events)
  {
    map s | s in Rows(n, events) :: RowSpec(Trace(events, s))
  }

  function EventsOf(id: string, outcomes: seq<RowOutcome>): (r: seq<Event>)
    ensures |r| == |outcomes|
    ensures forall i :: 0 <= i < |r| ==> r[i] == Event(id, outcomes[i])
  {
    seq(|outcomes|, i requires 0 <= i < |outcomes| => Event(id, outcomes[i]))
  }

  function AttemptEvents(at: Attempt): seq<Event> {
    if at.state == Running then [] else EventsOf(at.id, LogOutcomes(at.log))
  }

  /** Everything that counts, in the order of the attempts and of their logs. */
  function History(attempts: seq<Attempt>): seq<Event> {
    if attempts == [] then []
    else History(attempts[..|attempts| - 1]) + AttemptEvents(attempts[|attempts| - 1])
  }

  // ------------------------------------------------------------------
  // The fold the source performs, one outcome at a time
  // ------------------------------------------------------------------

  function Fold(p: PerSeq, e: Event): PerSeq {
    if e.outcome.Success? then
      PerSeq(Resolved, if p.canonicalSuccess.None? then Some(RecordOf(e)) else p.canonicalSuccess, p.latestFailure)
    else if p.state == Resolved then p
    else PerSeq(FailureState(e.outcome), p.canonicalSuccess, Some(RecordOf(e)))
  }

  lemma {:induction false} FirstSuccessConcat(a: seq<Event>, b: seq<Event>)
    ensures FirstSuccess(a + b) == if FirstSuccess(a) < |a| then FirstSuccess(a) else |a| + FirstSuccess(b)
  {
    if a == [] {
      assert a + b == b;
    } else {
      assert (a + b)[1..] == a[1..] + b;
      FirstSuccessConcat(a[1..], b);
    }
  }

  /** Reading one more event is exactly the source's update of the row. */
  lemma RowSpecSnoc(events: seq<Event>, e: Event)
    ensures RowSpec(events + [e]) == Fold(RowSpec(events), e)
  {
    FirstSuccessConcat(events, [e]);
    assert FirstSuccess([e]) == if e.outcome.Success? then 0 else 1;
    hide FirstSuccess, RecordOf, FailureState;
  }

  lemma TraceConcat(a: seq<Event>, b: seq<Event>, s: nat)
    ensures Trace(a + b, s) == Trace(a, s) + Trace(b, s)
  {
    FilterConcat((e: Event) => e.outcome.seqNo == s, a, b);
  }

  lemma MentionedConcat(a: seq<Event>, b: seq<Event>)
    ensures Mentioned(a + b) == Mentioned(a) + Mentioned(b)
  {
    forall s | s in Mentioned(b) ensures s in Mentioned(a + b) {
      var i :| 0 <= i < |b| && b[i].outcome.seqNo == s;
      assert (a + b)[|a| + i] == b[i];
    }
    forall s | s in Mentioned(a) ensures s in Mentioned(a + b) {
      var i :| 0 <= i < |a| && a[i].outcome.seqNo == s;
      assert (a + b)[i] == a[i];
    }
  }

  lemma TraceOf(e: Event, s: nat)
    ensures Trace([e], s) == if e.outcome.seqNo == s then [e] else []
  {
    var about := (x: Event) => x.outcome.seqNo == s;
    assert [e][1..] == [] && Filter(about, []) == [];
    assert Trace([e], s) == Filter(about, [e]);
  }

  lemma {:induction false} TraceElements(events: seq<Event>, s: nat)
    ensures forall e :: e in Trace(events, s) <==> e in events && e.outcome.seqNo == s
  {
    if events != [] {
      TraceElements(events[1..], s);
      assert events == [events[0]] + events[1..];
      TraceConcat([events[0]], events[1..], s);
      TraceOf(events[0], s);
    }
  }

  function Entry(m: map<nat, PerSeq>, s: nat): PerSeq { if s in m then m[s] else FRESH }

  lemma {:induction false} EmptyTrace(events: seq<Event>, s: nat)
    requires s !in Mentioned(events)
    ensures Trace(events, s) == []
  {
    if events != [] {
      var head, tail := [events[0]], events[1..];
      assert events == head + tail;
      MentionedConcat(head, tail);
      assert head[0].outcome.seqNo in Mentioned(head);
      EmptyTrace(tail, s);
      TraceConcat(head, tail, s);
      TraceOf(events[0], s);
    }
  }

  lemma EntryIsSpec(n: nat, events: seq<Event>, s: nat)
    ensures Entry(ResolutionOf(n, events), s) == RowSpec(Trace(events, s))
  {
    if s !in Rows(n, events) {
      EmptyTrace(events, s);
    }
  }

  lemma RowSnoc(events: seq<Event>, e: Event, s: nat)
    ensures RowSpec(Trace(events + [e], s))
         == if s == e.outcome.seqNo then Fold(RowSpec(Trace(events, s)), e) else RowSpec(Trace(events, s))
  {
    TraceConcat(events, [e], s);
    TraceOf(e, s);
    RowSpecSnoc(Trace(events, s), e);
    hide RowSpec, Trace, Fold;
    assert Trace(events, s) + [] == Trace(events, s);
  }

  lemma RowsSnoc(n: nat, events: seq<Event>, e: Event)
    ensures Rows(n, events + [e]) == Rows(n, events) + {e.outcome.seqNo}
  {
    MentionedConcat(events, [e]);
    assert [e][0].outcome.seqNo in Mentioned([e]);
    assert Mentioned([e]) == {e.outcome.seqNo};
  }

  /** One more logged outcome touches its own row and nothing else. */
  lemma ResolutionSnoc(n: nat, events: seq<Event>, e: Event)
    ensures var s := e.outcome.seqNo; var m := ResolutionOf(n, events);
      ResolutionOf(n, events + [e]) == m[s := Fold(Entry(m, s), e)]
  {
    var s0, m, after := e.outcome.seqNo, ResolutionOf(n, events), ResolutionOf(n, events + [e]);
    RowsSnoc(n, events, e);
    hide ResolutionOf, Mentioned, Rows;
    forall s | s in after ensures after[s] == if s == s0 then Fold(Entry(m, s), e) else m[s] {
      RowSnoc(events, e, s);
      EntryIsSpec(n, events, s);
      EntryIsSpec(n, events + [e], s);
      hide RowSpec, Trace, Fold;
    }
    hide Fold, Entry;
  }

  lemma NothingLogged(n: nat)
    ensures ResolutionOf(n, []).Keys == UpTo(n)
    ensures forall s: nat :: s < n ==> ResolutionOf(n, [])[s] == FRESH
  {
    assert Mentioned([]) == {};
    assert FirstSuccess([]) == 0;
  }

  /** The ids of the attempts that are running, or of those that are not, in order. */
  function Ids(attempts: seq<Attempt>, running: bool): seq<string> {
    if attempts == [] then []
    else
      var front, last := attempts[..|attempts| - 1], attempts[|attempts| - 1];
      Ids(front, running) + if (last.state == Running) == running then [last.id] else []
  }

  lemma EventsSnoc(id: string, before: seq<RowOutcome>, outcomes: seq<RowOutcome>, j: nat)
    requires j < |outcomes|
    ensures EventsOf(id, before + outcomes[..j + 1])
         == EventsOf(id, before + outcomes[..j]) + [Event(id, outcomes[j])]
  {
  }

  class Resolver {
    const inputRowCount: nat
    var perSeq: map<nat, PerSeq>
    ghost var events: seq<Event>

    ghost predicate Valid() reads this { perSeq == ResolutionOf(inputRowCount, events) }

    constructor (n: nat)
      ensures inputRowCount == n && Valid() && events == []
    {
      inputRowCount := n;
      perSeq := map[];
      events := [];
      new;
      for s := 0 to n
        invariant perSeq.Keys == UpTo(s) && forall k :: k in perSeq ==> perSeq[k] == FRESH
        invariant events == []
      {
        perSeq := perSeq[s := FRESH];
      }
      NothingLogged(n);
    }

    /** `apply_row_outcome`. */
    method ApplyRowOutcome(outcome: RowOutcome, id: string)
      requires Valid()
      modifies this
      ensures Valid() && events == old(events) + [Event(id, outcome)]
    {
      ghost var e := Event(id, outcome);
      ResolutionSnoc(inputRowCount, events, e);
      var s := outcome.seqNo;
      var entry := if s in perSeq then perSeq[s] else FRESH;
      hide ResolutionOf;
      match outcome {
        case Success(_, data, _) =>
          if entry.canonicalSuccess.None? {
            entry := entry.(canonicalSuccess := Some(SuccessRecord(id, s, data)));
          }
          entry := entry.(state := Resolved);
        case Error(_, code, message, _, detail) =>
          if entry.state != Resolved {
            entry := entry.(state := Classify(code), latestFailure := Some(ErrorRecord(id, s, code, message, detail)));
          }
        case Crash(_, w, at) =>
          if entry.state != Resolved {
            entry := entry.(state := CrashedLast,
                            latestFailure := Some(ErrorRecord(id, s, ERR_WORKER_CRASH, CrashMessage(w, at), None)));
          }
      }
      perSeq := perSeq[s := entry];
      events := events + [e];
    }

    /** `ingest_jsonl`: every outcome of every line, in order. */
    method IngestLog(log: seq<BatchOutcome>, id: string)
      requires Valid()
      modifies this
      ensures Valid() && events == old(events) + EventsOf(id, LogOutcomes(log))
    {
      for i := 0 to |log|
        invariant Valid() && events == old(events) + EventsOf(id, LogOutcomes(log[..i]))
      {
        var outcomes := log[i].outcomes;
        LogSeqsSnoc(log[..i], log[i]);
        assert log[..i + 1] == log[..i] + [log[i]];
        ghost var before := LogOutcomes(log[..i]);
        assert outcomes[..0] == [] && before + [] == before;
        for j := 0 to |outcomes|
          invariant Valid() && events == old(events) + EventsOf(id, before + outcomes[..j])
        {
          EventsSnoc(id, before, outcomes, j);
          hide ResolutionOf, EventsOf;
          ApplyRowOutcome(outcomes[j], id);
        }
        assert outcomes[..|outcomes|] == outcomes;
      }
      assert log[..|log|] == log;
    }

    /** The walk of `compute_resolution` over the attempts, oldest first. */
    method WalkAttempts(attempts: seq<Attempt>) returns (mergedFrom: seq<string>, skippedRunning: seq<string>)
      requires Valid() && events == []
      modifies this
      ensures perSeq == ResolutionOf(inputRowCount, History(attempts))
      ensures mergedFrom == Ids(attempts, false) && skippedRunning == Ids(attempts, true)
    {
      hide ResolutionOf, LogOutcomes, EventsOf, UpTo;
      mergedFrom, skippedRunning := [], [];
      for i := 0 to |attempts|
        invariant Valid() && events == History(attempts[..i])
        invariant mergedFrom == Ids(attempts[..i], false) && skippedRunning == Ids(attempts[..i], true)
      {
        var at := attempts[i];
        assert attempts[..i + 1] == attempts[..i] + [at];
        assert attempts[..i + 1][..i] == attempts[..i];
        if at.state == Running {
          skippedRunning := skippedRunning + [at.id];
        } else {
          mergedFrom := mergedFrom + [at.id];
          IngestLog(at.log, at.id);
        }
      }
      assert attempts[..|attempts|] == attempts;
    }
  }
}
