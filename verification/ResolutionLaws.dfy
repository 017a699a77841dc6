/**
 Laws of row resolution: when a row is resolved, attempted or failed, that
 completion order and repeated ingestion do not matter, and that more history
 only adds to what is resolved.
 */
module ResolutionLaws {
  import opened Base
  import opened Protocol
  import opened PipelineAccount
  import opened Resolution

  function ResolvedSeqs(m: map<nat, PerSeq>): set<nat> { set s | s in m && m[s].state == Resolved }

  function AttemptedSeqs(m: map<nat, PerSeq>): set<nat> { set s | s in m && m[s].state != NeverAttempted }

  /** `failed_seqs`: the latest outcome is a non-success. */
  function FailedSeqs(m: map<nat, PerSeq>): set<nat> {
    set s | s in m &&
      (m[s].state == FailedLast || m[s].state == CrashedLast || m[s].state == CancelledLast || m[s].state == TooLarge)
  }

  ghost predicate Succeeded(events: seq<Event>, s: nat) {
    exists e :: e in events && e.outcome.seqNo == s && e.outcome.Success?
  }

  ghost predicate Touched(events: seq<Event>, s: nat) {
    exists e :: e in events && e.outcome.seqNo == s
  }

  lemma TouchedIsMentioned(events: seq<Event>, s: nat)
    ensures Touched(events, s) <==> s in Mentioned(events)
  {
    if s in Mentioned(events) {
      var i :| 0 <= i < |events| && events[i].outcome.seqNo == s;
      assert events[i] in events;
    }
    if e :| e in events && e.outcome.seqNo == s {
      var i :| 0 <= i < |events| && events[i] == e;
    }
  }

  /** Every state a row can be in, from its whole history. */
  lemma StateIff(n: nat, events: seq<Event>, s: nat)
    ensures s in ResolvedSeqs(ResolutionOf(n, events)) <==> Succeeded(events, s)
    ensures s in AttemptedSeqs(ResolutionOf(n, events)) <==> Touched(events, s)
    ensures s in FailedSeqs(ResolutionOf(n, events)) <==> Touched(events, s) && !Succeeded(events, s)
  {
    var m, trace := ResolutionOf(n, events), Trace(events, s);
    SpecState(trace);
    TraceElements(events, s);
    assert Succeeded(events, s) <==> exists e :: e in trace && e.outcome.Success?;
    assert Touched(events, s) <==> trace != [] by {
      if trace != [] { assert trace[0] in events; }
    }
    EntryIsSpec(n, events, s);
    hide Trace, Succeeded, Touched, RowSpec, ResolutionOf;
    assert s !in m ==> RowSpec(trace).state == NeverAttempted;
  }

  lemma SpecState(trace: seq<Event>)
    ensures RowSpec(trace).state == Resolved <==> exists e :: e in trace && e.outcome.Success?
    ensures RowSpec(trace).state == NeverAttempted <==> trace == []
  {
    var k := FirstSuccess(trace);
    if k < |trace| { assert trace[k] in trace; }
  }

  /** The canonical success is the record of the earliest success in the whole history. */
  lemma CanonicalIsEarliest(n: nat, events: seq<Event>, i: nat)
    requires i < |events| && events[i].outcome.Success?
    requires forall j :: 0 <= j < i && events[j].outcome.seqNo == events[i].outcome.seqNo ==>
      !events[j].outcome.Success?
    ensures var p := Entry(ResolutionOf(n, events), events[i].outcome.seqNo);
      p.state == Resolved && p.canonicalSuccess == Some(RecordOf(events[i]))
  {
    var e, pre, post := events[i], events[..i], events[i + 1..];
    var s := e.outcome.seqNo;
    assert events == pre + [e] + post;
    TraceConcat(pre + [e], post, s);
    TraceConcat(pre, [e], s);
    TraceOf(e, s);
    TraceElements(pre, s);
    var a := Trace(pre, s);
    assert FirstSuccess(a) == |a| by {
      forall x | x in a ensures !x.outcome.Success? {
        var j :| 0 <= j < i && pre[j] == x;
      }
    }
    FirstSuccessConcat(a + [e], Trace(post, s));
    FirstSuccessConcat(a, [e]);
    EntryIsSpec(n, events, s);
    hide Trace, RecordOf, ResolutionOf, Entry;
    assert FirstSuccess([e]) == 0;
  }

  /** An unresolved row is described by the last outcome it has in the whole history. */
  lemma UnresolvedIsLast(n: nat, events: seq<Event>, i: nat)
    requires i < |events| && !Succeeded(events, events[i].outcome.seqNo)
    requires forall j :: i < j < |events| ==> events[j].outcome.seqNo != events[i].outcome.seqNo
    ensures var p := Entry(ResolutionOf(n, events), events[i].outcome.seqNo);
      && !events[i].outcome.Success?
      && p == PerSeq(FailureState(events[i].outcome), None, Some(RecordOf(events[i])))
  {
    var e, pre, post := events[i], events[..i], events[i + 1..];
    var s := e.outcome.seqNo;
    assert events == pre + [e] + post && e in events;
    TraceConcat(pre + [e], post, s);
    TraceConcat(pre, [e], s);
    TraceOf(e, s);
    assert s !in Mentioned(post);
    EmptyTrace(post, s);
    TraceElements(events, s);
    var t := Trace(events, s);
    assert t == Trace(pre, s) + [e];
    EntryIsSpec(n, events, s);
    hide Trace, RecordOf, ResolutionOf, Entry;
    forall x | x in t ensures !x.outcome.Success? {
      assert x in events;
    }
    assert FirstSuccess(t) == |t|;
  }

  predicate EndsCrashed(o: RowOutcome) {
    o.Crash? || (o.Error? && (o.code == "WORKER_CRASH" || o.code == "WORKER_CRASH_UNSAFE"))
  }

  predicate EndsCancelled(o: RowOutcome) { o.Error? && o.code == "CANCELLED" }

  predicate EndsTooLarge(o: RowOutcome) { o.Error? && o.code == "ROW_TOO_LARGE" }

  /** Failed under a code of the handler's own. */
  predicate EndsFailed(o: RowOutcome) {
    o.Error? && o.code !in {"WORKER_CRASH", "WORKER_CRASH_UNSAFE", "CANCELLED", "ROW_TOO_LARGE"}
  }

  lemma CodesDiffer()
    ensures ERR_WORKER_CRASH == "WORKER_CRASH" && ERR_WORKER_CRASH_UNSAFE == "WORKER_CRASH_UNSAFE"
    ensures ERR_CANCELLED == "CANCELLED" && ERR_ROW_TOO_LARGE == "ROW_TOO_LARGE"
    ensures ERR_WORKER_CRASH != ERR_CANCELLED && ERR_WORKER_CRASH_UNSAFE != ERR_CANCELLED
    ensures ERR_WORKER_CRASH != ERR_ROW_TOO_LARGE && ERR_WORKER_CRASH_UNSAFE != ERR_ROW_TOO_LARGE
    ensures ERR_CANCELLED != ERR_ROW_TOO_LARGE
  {
    assert ERR_ROW_TOO_LARGE[0] == 'R' && ERR_WORKER_CRASH[0] == 'W' && ERR_WORKER_CRASH_UNSAFE[0] == 'W';
    assert ERR_CANCELLED[0] == 'C' && |ERR_WORKER_CRASH| < |ERR_WORKER_CRASH_UNSAFE|;
  }

  /** What a failure makes of its row, by its kind and its code. */
  lemma FailureStateIff(o: RowOutcome)
    requires !o.Success?
    ensures FailureState(o) == CrashedLast <==> EndsCrashed(o)
    ensures FailureState(o) == CancelledLast <==> EndsCancelled(o)
    ensures FailureState(o) == TooLarge <==> EndsTooLarge(o)
    ensures FailureState(o) == FailedLast <==> EndsFailed(o)
  {
    CodesDiffer();
  }

  /** What a record says of its outcome beside the cells. */
  lemma RecordSays(e: Event)
    ensures RecordOf(e).attemptId == e.attemptId && RecordOf(e).seqNo == e.outcome.seqNo
    ensures RecordOf(e).kind == if e.outcome.Success? then KindSuccess else KindFailed
    ensures RecordOf(e).code ==
      if e.outcome.Success? then None else if e.outcome.Error? then Some(e.outcome.code) else Some("WORKER_CRASH")
  {
    hide Text.Sorted, Text.Decimal, Cells;
  }

  /** The last outcome of a row that has some but no success. */
  ghost predicate Ends(events: seq<Event>, s: nat, o: RowOutcome) {
    && !Succeeded(events, s)
    && var t := Trace(events, s); t != [] && t[|t| - 1].outcome == o
  }

  /** Every row's state, in terms of the outcomes logged for it. */
  lemma StateByLast(n: nat, events: seq<Event>, s: nat, o: RowOutcome)
    requires Ends(events, s, o)
    ensures s in ResolutionOf(n, events) && !o.Success?
    ensures var st := ResolutionOf(n, events)[s].state;
      && (st == CrashedLast <==> EndsCrashed(o)) && (st == CancelledLast <==> EndsCancelled(o))
      && (st == TooLarge <==> EndsTooLarge(o)) && (st == FailedLast <==> EndsFailed(o))
  {
    var t := Trace(events, s);
    TraceElements(events, s);
    assert t[|t| - 1] in t;
    TouchedIsMentioned(events, s);
    assert FirstSuccess(t) == |t| by { assert forall e :: e in t ==> !e.outcome.Success?; }
    EntryIsSpec(n, events, s);
    FailureStateIff(o);
    hide FailureState, Trace, EndsCrashed, EndsCancelled, EndsTooLarge, EndsFailed, RecordOf, ResolutionOf, Succeeded;
  }

  /** What counts: the outcomes logged by attempts that are not running. */
  lemma {:induction false} HistoryMembers(attempts: seq<Attempt>, e: Event)
    ensures e in History(attempts) <==>
      exists at :: at in attempts && at.state != Running && at.id == e.attemptId && e.outcome in LogOutcomes(at.log)
  {
    if attempts != [] {
      var last, front := attempts[|attempts| - 1], attempts[..|attempts| - 1];
      assert attempts == front + [last];
      HistoryMembers(front, e);
      var outcomes := LogOutcomes(last.log);
      assert e in EventsOf(last.id, outcomes) <==> e.attemptId == last.id && e.outcome in outcomes by {
        if e.attemptId == last.id && e.outcome in outcomes {
          var i :| 0 <= i < |outcomes| && outcomes[i] == e.outcome;
          assert EventsOf(last.id, outcomes)[i] == e;
        }
      }
      hide LogOutcomes, EventsOf;
    }
  }

  /** What the synthesised failures make of a row: crashed, too large, or plainly failed. */
  lemma SynthesizedStates(s: nat, idempotent: bool, o: RowOutcome)
    ensures FailureState(SynthesizeCrash(s, idempotent)) == CrashedLast
    ensures FailureState(SynthesizeTooLarge(s)) == TooLarge
    ensures o in SynthesizeBatchProtocolError([s]) ==> FailureState(o) == FailedLast
    ensures FailureState(RowReplyOutcome(s, idempotent, Message(Ready))) == FailedLast
  {
    assert ERR_ROW_TOO_LARGE[0] == 'R' && ERR_WORKER_CRASH[0] == 'W' && ERR_WORKER_CRASH_UNSAFE[0] == 'W';
    assert ERR_CANCELLED[0] == 'C' && ERR_BATCH_PROTOCOL_ERROR[0] == 'B' && |ERR_PROTOCOL_ERROR| > |ERR_ROW_TOO_LARGE|;
  }

  // ------------------------------------------------------------------
  // Same rows, same answer
  // ------------------------------------------------------------------

  /** Resolution looks at each row's own events only. */
  lemma TracesDecide(n: nat, a: seq<Event>, b: seq<Event>)
    requires forall s :: RowSpec(Trace(a, s)) == RowSpec(Trace(b, s))
    requires Mentioned(a) == Mentioned(b)
    ensures ResolutionOf(n, a) == ResolutionOf(n, b)
  {
    hide RowSpec, Trace, Mentioned;
    forall s | s in ResolutionOf(n, a) ensures ResolutionOf(n, a)[s] == ResolutionOf(n, b)[s] {
      assert RowSpec(Trace(a, s)) == RowSpec(Trace(b, s));
    }
  }

  /** When no seq occurs twice in the block, a row's trace in it is that row's single event. */
  lemma {:induction false} SingleTrace(events: seq<Event>, e: Event)
    requires e in events
    requires forall i, j :: 0 <= i < j < |events| ==> events[i].outcome.seqNo != events[j].outcome.seqNo
    ensures Trace(events, e.outcome.seqNo) == [e]
  {
    var s := e.outcome.seqNo;
    var i :| 0 <= i < |events| && events[i] == e;
    var pre, post := events[..i], events[i + 1..];
    assert events == pre + [e] + post;
    TraceConcat(pre + [e], post, s);
    TraceConcat(pre, [e], s);
    TraceOf(e, s);
    assert s !in Mentioned(pre) && s !in Mentioned(post);
    EmptyTrace(pre, s);
    EmptyTrace(post, s);
  }

  ghost predicate OncePerRow(events: seq<Event>) {
    forall i, j :: 0 <= i < j < |events| ==> events[i].outcome.seqNo != events[j].outcome.seqNo
  }

  /** Reordering a block in which each row occurs once leaves every trace as it was. */
  lemma ReorderedBlock(a: seq<Event>, b: seq<Event>, s: nat)
    requires OncePerRow(a) && OncePerRow(b) && multiset(a) == multiset(b)
    ensures Trace(a, s) == Trace(b, s)
    ensures s in Mentioned(a) <==> s in Mentioned(b)
  {
    assert forall e :: e in a <==> e in multiset(a);
    assert forall e :: e in b <==> e in multiset(b);
    TouchedIsMentioned(a, s);
    TouchedIsMentioned(b, s);
    if e :| e in a && e.outcome.seqNo == s {
      SingleTrace(a, e);
      SingleTrace(b, e);
    } else {
      EmptyTrace(a, s);
      EmptyTrace(b, s);
    }
  }

  /** The same attempts, each log with its lines in some other order and no row twice in it. */
  ghost predicate SameUpToLineOrder(a: seq<Attempt>, b: seq<Attempt>) {
    && |a| == |b|
    && forall i :: 0 <= i < |a| ==>
      && a[i].id == b[i].id && a[i].state == b[i].state
      && multiset(a[i].log) == multiset(b[i].log)
      && Distinct(LogSeqs(a[i].log))
  }

  lemma {:induction false} LogOutcomesIsFlatten(log: seq<BatchOutcome>)
    ensures LogOutcomes(log) == Flatten(LineOutcomes(log))
  {
    if log != [] {
      var front, last := log[..|log| - 1], log[|log| - 1];
      LogOutcomesIsFlatten(front);
      FlattenSnoc(LineOutcomes(front), last.outcomes);
      assert LineOutcomes(log) == LineOutcomes(front) + [last.outcomes];
    }
  }

  function LineOutcomes(log: seq<BatchOutcome>): (r: seq<seq<RowOutcome>>)
    ensures |r| == |log|
  {
    seq(|log|, i requires 0 <= i < |log| => log[i].outcomes)
  }

  lemma {:induction false} DistinctPermutation(a: seq<nat>, b: seq<nat>)
    requires Distinct(a) && multiset(a) == multiset(b)
    ensures Distinct(b)
  {
    forall x ensures multiset(b)[x] <= 1 { BagOfDistinct(a, x); }
    DistinctBag(b);
  }

  lemma OutcomesPermutation(id: string, a: seq<BatchOutcome>, b: seq<BatchOutcome>)
    requires multiset(a) == multiset(b)
    ensures multiset(LogSeqs(a)) == multiset(LogSeqs(b))
    ensures multiset(EventsOf(id, LogOutcomes(a))) == multiset(EventsOf(id, LogOutcomes(b)))
  {
    var outcomes := (line: BatchOutcome) => line.outcomes;
    var seqNo, event := (o: RowOutcome) => o.seqNo, (o: RowOutcome) => Event(id, o);
    var x, y := LogOutcomes(a), LogOutcomes(b);
    LogOutcomesIsFlatten(a);
    LogOutcomesIsFlatten(b);
    MapPermutation(outcomes, a, b);
    assert LineOutcomes(a) == Map(outcomes, a) && LineOutcomes(b) == Map(outcomes, b);
    FlattenPermutation(LineOutcomes(a), LineOutcomes(b));
    MapPermutation(seqNo, x, y);
    assert OutcomeSeqs(x) == Map(seqNo, x) && OutcomeSeqs(y) == Map(seqNo, y);
    MapPermutation(event, x, y);
    assert EventsOf(id, x) == Map(event, x) && EventsOf(id, y) == Map(event, y);
  }

  lemma ReorderedAttempt(a: Attempt, b: Attempt, s: nat)
    requires a.id == b.id && a.state == b.state && multiset(a.log) == multiset(b.log) && Distinct(LogSeqs(a.log))
    ensures Trace(AttemptEvents(a), s) == Trace(AttemptEvents(b), s)
    ensures s in Mentioned(AttemptEvents(a)) <==> s in Mentioned(AttemptEvents(b))
  {
    var x, y := LogOutcomes(a.log), LogOutcomes(b.log);
    OutcomesPermutation(a.id, a.log, b.log);
    DistinctPermutation(OutcomeSeqs(x), OutcomeSeqs(y));
    OnceFromDistinct(a.id, x);
    OnceFromDistinct(a.id, y);
    ReorderedBlock(EventsOf(a.id, x), EventsOf(a.id, y), s);
  }

  lemma OnceFromDistinct(id: string, outcomes: seq<RowOutcome>)
    requires Distinct(OutcomeSeqs(outcomes))
    ensures OncePerRow(EventsOf(id, outcomes))
  {
    var events := EventsOf(id, outcomes);
    forall i, j | 0 <= i < j < |events| ensures events[i].outcome.seqNo != events[j].outcome.seqNo {
      assert OutcomeSeqs(outcomes)[i] != OutcomeSeqs(outcomes)[j];
    }
  }

  lemma {:induction false} ReorderedHistory(a: seq<Attempt>, b: seq<Attempt>, s: nat)
    requires SameUpToLineOrder(a, b)
    ensures Trace(History(a), s) == Trace(History(b), s)
    ensures s in Mentioned(History(a)) <==> s in Mentioned(History(b))
  {
    if a != [] {
      var n := |a| - 1;
      ReorderedHistory(a[..n], b[..n], s);
      ReorderedAttempt(a[n], b[n], s);
      TraceConcat(History(a[..n]), AttemptEvents(a[n]), s);
      TraceConcat(History(b[..n]), AttemptEvents(b[n]), s);
      MentionedConcat(History(a[..n]), AttemptEvents(a[n]));
      MentionedConcat(History(b[..n]), AttemptEvents(b[n]));
      hide Trace, Mentioned, AttemptEvents;
    }
  }

  /** The order in which workers finished, hence the order of the lines, never shows in the resolution. */
  lemma OrderIndependence(n: nat, a: seq<Attempt>, b: seq<Attempt>)
    requires SameUpToLineOrder(a, b)
    ensures ResolutionOf(n, History(a)) == ResolutionOf(n, History(b))
  {
    forall s: nat
      ensures Trace(History(a), s) == Trace(History(b), s)
      ensures s in Mentioned(History(a)) <==> s in Mentioned(History(b))
    {
      ReorderedHistory(a, b, s);
    }
    hide RowSpec, Trace;
    TracesDecide(n, History(a), History(b));
  }

  // ------------------------------------------------------------------
  // Ingesting a log twice in a row
  // ------------------------------------------------------------------

  lemma RowSpecTwice(t: seq<Event>, b: seq<Event>)
    ensures RowSpec(t + b + b) == RowSpec(t + b)
  {
    FirstSuccessConcat(t + b, b);
    FirstSuccessConcat(t, b);
    hide FirstSuccess, RecordOf, FailureState;
    if b != [] && FirstSuccess(t + b) == |t + b| {
      assert (t + b + b)[|t + b + b| - 1] == (t + b)[|t + b| - 1];
    }
    assert b == [] ==> t + b + b == t + b;
  }

  lemma {:induction false} RowSpecExtend(a: seq<Event>, b: seq<Event>, more: seq<Event>)
    ensures RowSpec(a) == RowSpec(b) ==> RowSpec(a + more) == RowSpec(b + more)
  {
    hide *;
    if more == [] {
      assert a + more == a && b + more == b;
    } else {
      var front, last := more[..|more| - 1], more[|more| - 1];
      RowSpecExtend(a, b, front);
      assert a + more == (a + front) + [last] && b + more == (b + front) + [last];
      RowSpecSnoc(a + front, last);
      RowSpecSnoc(b + front, last);
    }
  }

  /** Re-ingesting an attempt's whole log right after itself changes nothing, whatever came before or follows. */
  lemma ReingestIsIdempotent(n: nat, before: seq<Event>, log: seq<Event>, after: seq<Event>)
    ensures ResolutionOf(n, before + log + log + after) == ResolutionOf(n, before + log + after)
  {
    forall s: nat
      ensures RowSpec(Trace(before + log + log + after, s)) == RowSpec(Trace(before + log + after, s))
    {
      TraceConcat(before + log + log, after, s);
      TraceConcat(before + log, log, s);
      TraceConcat(before, log, s);
      TraceConcat(before + log, after, s);
      RowSpecTwice(Trace(before, s), Trace(log, s));
      hide Trace, RowSpec;
      var once := Trace(before, s) + Trace(log, s);
      RowSpecExtend(once + Trace(log, s), once, Trace(after, s));
    }
    MentionedConcat(before + log + log, after);
    MentionedConcat(before + log, log);
    MentionedConcat(before, log);
    MentionedConcat(before + log, after);
    hide Trace, RowSpec, Mentioned;
    TracesDecide(n, before + log + log + after, before + log + after);
  }

  // ------------------------------------------------------------------
  // More history only adds
  // ------------------------------------------------------------------

  /** Later store contents: finished attempts unchanged, running ones possibly finished, new ones at the end. */
  ghost predicate Follows(a: seq<Attempt>, b: seq<Attempt>) {
    && |a| <= |b|
    && forall i :: 0 <= i < |a| ==> a[i].state == Running || b[i] == a[i]
  }

  lemma ResolutionOnlyGrows(n: nat, a: seq<Attempt>, b: seq<Attempt>)
    requires Follows(a, b)
    ensures ResolvedSeqs(ResolutionOf(n, History(a))) <= ResolvedSeqs(ResolutionOf(n, History(b)))
    ensures AttemptedSeqs(ResolutionOf(n, History(a))) <= AttemptedSeqs(ResolutionOf(n, History(b)))
  {
    forall e | e in History(a) ensures e in History(b) {
      HistoryMembers(a, e);
      HistoryMembers(b, e);
      var at :| at in a && at.state != Running && at.id == e.attemptId && e.outcome in LogOutcomes(at.log);
      var i :| 0 <= i < |a| && a[i] == at;
      assert b[i] == at;
    }
    forall s: nat
      ensures s in ResolvedSeqs(ResolutionOf(n, History(a))) ==> s in ResolvedSeqs(ResolutionOf(n, History(b)))
      ensures s in AttemptedSeqs(ResolutionOf(n, History(a))) ==> s in AttemptedSeqs(ResolutionOf(n, History(b)))
    {
      StateIff(n, History(a), s);
      StateIff(n, History(b), s);
      hide ResolutionOf;
    }
  }
}
