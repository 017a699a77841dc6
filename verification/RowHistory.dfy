/**
 One row's history across attempts: a scan that stops at each attempt's first
 match (crates/rowforge-studio-core/src/lib.rs), compared with the full fold.
 */
module RowHistory {
  import opened Base
  import opened Protocol
  import opened PipelineAccount
  import opened Pipeline
  import opened Resolution
  import opened Text
  import opened ResolutionLaws
  import opened FailedPage
  import opened Histories

  datatype OutcomeForSeq = FoundSuccess | FoundFailure(kind: RowOutcomeKind, code: Option<string>)

  datatype HistoryRow = HistoryRow(attemptId: string, kind: RowOutcomeKind, code: Option<string>)

  function Found(o: RowOutcome): OutcomeForSeq {
    match o
    case Success(_, _, _) => FoundSuccess
    case Error(_, code, _, _, _) => FoundFailure(KindError, Some(code))
    case Crash(_, _, _) => FoundFailure(KindCrash, None)
  }

  /** A log's outcomes for one row. */
  function About(outcomes: seq<RowOutcome>, s: nat): seq<RowOutcome> {
    Filter((o: RowOutcome) => o.seqNo == s, outcomes)
  }

  lemma AboutConcat(a: seq<RowOutcome>, b: seq<RowOutcome>, s: nat)
    ensures About(a + b, s) == About(a, s) + About(b, s)
  {
    FilterConcat((x: RowOutcome) => x.seqNo == s, a, b);
  }

  lemma AboutSnoc(outcomes: seq<RowOutcome>, o: RowOutcome, s: nat)
    ensures About(outcomes + [o], s) == About(outcomes, s) + if o.seqNo == s then [o] else []
  {
    FilterConcat((x: RowOutcome) => x.seqNo == s, outcomes, [o]);
    assert [o][1..] == [];
  }

  lemma FirstMatch(log: seq<BatchOutcome>, i: nat, j: nat, s: nat)
    requires i < |log| && j < |log[i].outcomes| && log[i].outcomes[j].seqNo == s
    requires About(LogOutcomes(log[..i]) + log[i].outcomes[..j], s) == []
    ensures About(LogOutcomes(log), s) != [] && About(LogOutcomes(log), s)[0] == log[i].outcomes[j]
  {
    var outcomes := log[i].outcomes;
    var pre, rest := LogOutcomes(log[..i]) + outcomes[..j], outcomes[j + 1..] + LogTailOutcomes(log, i);
    LogSplit(log, i);
    assert LogOutcomes(log) == (pre + [outcomes[j]]) + rest by {
      assert outcomes == outcomes[..j] + [outcomes[j]] + outcomes[j + 1..];
      hide LogOutcomes, LogTailOutcomes;
    }
    AboutConcat(pre + [outcomes[j]], rest, s);
    AboutSnoc(pre, outcomes[j], s);
    hide *;
  }

  lemma NothingAbout(s: nat)
    ensures About(LogOutcomes([]), s) == []
  {
  }

  method ReadOutcomeForSeq(log: seq<BatchOutcome>, s: nat) returns (found: Option<OutcomeForSeq>)
    ensures var t := About(LogOutcomes(log), s); found == if t == [] then None else Some(Found(t[0]))
  {
    NothingAbout(s);
    hide LogOutcomes, About;
    for i := 0 to |log|
      invariant About(LogOutcomes(log[..i]), s) == []
    {
      LogSeqsSnoc(log[..i], log[i]);
      assert log[..i + 1] == log[..i] + [log[i]];
      ghost var before := LogOutcomes(log[..i]);
      var outcomes := log[i].outcomes;
      assert outcomes[..0] == [] && before + [] == before;
      for j := 0 to |outcomes|
        invariant About(before + outcomes[..j], s) == []
      {
        var o := outcomes[j];
        AboutSnoc(before + outcomes[..j], o, s);
        assert before + outcomes[..j + 1] == before + outcomes[..j] + [o];
        if o.seqNo == s {
          FirstMatch(log, i, j, s);
          return Some(Found(o));
        }
      }
      assert outcomes[..|outcomes|] == outcomes;
    }
    assert log[..|log|] == log;
    return None;
  }

  /** Each attempt's first outcome for the row, in attempt order. */
  function Heads(attempts: seq<Attempt>, s: nat): seq<Event> {
    if attempts == [] then []
    else Heads(attempts[..|attempts| - 1], s) + Head(attempts[|attempts| - 1], s)
  }

  function Head(at: Attempt, s: nat): seq<Event> {
    var t := About(LogOutcomes(at.log), s);
    if t == [] then [] else [Event(at.id, t[0])]
  }

  function ToHistoryRow(e: Event): HistoryRow {
    match Found(e.outcome)
    case FoundSuccess => HistoryRow(e.attemptId, KindError, None)
    case FoundFailure(kind, code) => HistoryRow(e.attemptId, kind, code)
  }

  function FailureRows(heads: seq<Event>): seq<HistoryRow> { Map(ToHistoryRow, heads[..FirstSuccess(heads)]) }

  function ResolvedAt(heads: seq<Event>): Option<string> {
    var k := FirstSuccess(heads);
    if k < |heads| then Some(heads[k].attemptId) else None
  }

  lemma {:induction false} HeadsPrefix(attempts: seq<Attempt>, i: nat, s: nat)
    requires i <= |attempts|
    ensures Heads(attempts[..i], s) <= Heads(attempts, s)
    decreases |attempts|
  {
    if i < |attempts| {
      var n := |attempts| - 1;
      HeadsPrefix(attempts[..n], i, s);
      assert attempts[..n][..i] == attempts[..i];
    } else {
      assert attempts[..i] == attempts;
    }
  }

  lemma HeadsSnoc(attempts: seq<Attempt>, i: nat, s: nat)
    requires i < |attempts|
    ensures Heads(attempts[..i + 1], s) == Heads(attempts[..i], s) + Head(attempts[i], s)
  {
    assert attempts[..i + 1][..i] == attempts[..i];
  }

  lemma OneMoreFailure(heads: seq<Event>, e: Event)
    requires FirstSuccess(heads) == |heads| && !e.outcome.Success?
    ensures FirstSuccess(heads + [e]) == |heads + [e]|
    ensures Map(ToHistoryRow, heads + [e]) == Map(ToHistoryRow, heads) + [ToHistoryRow(e)]
  {
    FirstSuccessConcat(heads, [e]);
    assert FirstSuccess([e]) == 1;
  }

  lemma NoneSucceeded(heads: seq<Event>)
    requires FirstSuccess(heads) == |heads|
    ensures FailureRows(heads) == Map(ToHistoryRow, heads) && ResolvedAt(heads) == None
  {
    assert heads[..|heads|] == heads;
  }

  lemma NoAttempts(s: nat)
    ensures Heads([], s) == [] && FirstSuccess([]) == 0 && Map(ToHistoryRow, []) == []
  {
  }

  /** `row_history`: failures up to the first attempt whose first match is a success. */
  method ReadRowHistory(attempts: seq<Attempt>, s: nat) returns (rows: seq<HistoryRow>, resolvedAt: Option<string>)
    ensures rows == FailureRows(Heads(attempts, s))
    ensures resolvedAt == ResolvedAt(Heads(attempts, s))
  {
    NoAttempts(s);
    assert attempts[..0] == [] && attempts[..|attempts|] == attempts;
    hide LogOutcomes, About, Heads, FirstSuccess, Map, FailureRows, ResolvedAt;
    rows, resolvedAt := [], None;
    for i := 0 to |attempts|
      invariant resolvedAt.None?
      invariant var heads := Heads(attempts[..i], s);
        FirstSuccess(heads) == |heads| && rows == Map(ToHistoryRow, heads)
    {
      var at := attempts[i];
      HeadsSnoc(attempts, i, s);
      ghost var heads := Heads(attempts[..i], s);
      var found := ReadOutcomeForSeq(at.log, s);
      match found {
        case None =>
          assert heads + [] == heads;
        case Some(kindAndCode) =>
          ghost var e := Event(at.id, About(LogOutcomes(at.log), s)[0]);
          match kindAndCode {
            case FoundSuccess =>
              resolvedAt := Some(at.id);
              HeadsPrefix(attempts, i + 1, s);
              StopsAtSuccess(heads, e, Heads(attempts, s));
              return;
            case FoundFailure(kind, code) =>
              rows := rows + [HistoryRow(at.id, kind, code)];
              OneMoreFailure(heads, e);
          }
      }
    }
    NoneSucceeded(Heads(attempts, s));
  }

  lemma StopsAtSuccess(heads: seq<Event>, e: Event, all: seq<Event>)
    requires FirstSuccess(heads) == |heads| && e.outcome.Success? && heads + [e] <= all
    ensures FailureRows(all) == Map(ToHistoryRow, heads) && ResolvedAt(all) == Some(e.attemptId)
  {
    var rest := all[|heads|..];
    assert all == heads + rest && rest[0] == e;
    FirstSuccessConcat(heads, rest);
    assert all[..|heads|] == heads;
  }

  // ------------------------------------------------------------------
  // Agreement with the fold
  // ------------------------------------------------------------------

  /** The attempts as resolution would see them once the running ones have stopped. */
  function Settled(attempts: seq<Attempt>): (r: seq<Attempt>)
    ensures |r| == |attempts|
    ensures forall i :: 0 <= i < |r| ==>
      r[i] == if attempts[i].state == Running then attempts[i].(state := Completed) else attempts[i]
  {
    seq(|attempts|, i requires 0 <= i < |attempts| =>
      if attempts[i].state == Running then attempts[i].(state := Completed) else attempts[i])
  }

  ghost predicate OnceEach(attempts: seq<Attempt>) {
    forall at :: at in attempts ==> Distinct(LogSeqs(at.log))
  }

  lemma OneOutcome(id: string, outcomes: seq<RowOutcome>, s: nat)
    requires Distinct(OutcomeSeqs(outcomes))
    ensures var t := About(outcomes, s);
      Trace(EventsOf(id, outcomes), s) == if t == [] then [] else [Event(id, t[0])]
  {
    var events, t := EventsOf(id, outcomes), About(outcomes, s);
    FilterMembers((o: RowOutcome) => o.seqNo == s, outcomes);
    OnceFromDistinct(id, outcomes);
    if t == [] {
      forall i | 0 <= i < |events| ensures events[i].outcome.seqNo != s { assert outcomes[i] in outcomes; }
      EmptyTrace(events, s);
    } else {
      assert t[0] in t;
      var i :| 0 <= i < |outcomes| && outcomes[i] == t[0];
      assert events[i] == Event(id, t[0]);
      SingleTrace(events, Event(id, t[0]));
    }
  }

  lemma {:induction false} HeadsAreTrace(attempts: seq<Attempt>, s: nat)
    requires OnceEach(attempts)
    ensures Heads(attempts, s) == Trace(History(Settled(attempts)), s)
  {
    if attempts != [] {
      var front, last := attempts[..|attempts| - 1], attempts[|attempts| - 1];
      assert last in attempts;
      OneOutcome(last.id, LogOutcomes(last.log), s);
      SettledSnoc(attempts);
      assert Head(last, s) == Trace(EventsOf(last.id, LogOutcomes(last.log)), s);
      assert Heads(attempts, s) == Heads(front, s) + Head(last, s);
      assert OnceEach(front);
      hide *;
      HeadsAreTrace(front, s);
      TraceConcat(History(Settled(front)), EventsOf(last.id, LogOutcomes(last.log)), s);
    } else {
      assert Settled(attempts) == [];
    }
  }

  lemma SettledSnoc(attempts: seq<Attempt>)
    requires attempts != []
    ensures var front, last := attempts[..|attempts| - 1], attempts[|attempts| - 1];
      History(Settled(attempts)) == History(Settled(front)) + EventsOf(last.id, LogOutcomes(last.log))
  {
    var n := |attempts| - 1;
    hide LogOutcomes;
    assert Settled(attempts)[..n] == Settled(attempts[..n]);
  }

  /**
   What the scan reports and what resolution holds name the same attempts: the one that resolved the row,
   and the one of its last failure, under the same code.
   */
  ghost predicate Agree(heads: seq<Event>, p: PerSeq) {
    var rows := FailureRows(heads);
    && ResolvedAt(heads) == (if p.canonicalSuccess.Some? then Some(p.canonicalSuccess.value.attemptId) else None)
    && (rows == [] <==> p.latestFailure.None?)
    && (rows != [] ==>
         var lastRow, failure := rows[|rows| - 1], p.latestFailure.value;
         && lastRow.attemptId == failure.attemptId
         && Reports(lastRow, heads[|rows| - 1])
         && lastRow.code == (if lastRow.kind == KindCrash then None else failure.code))
  }

  /** The entry names the attempt, and a crash or the error's code. */
  predicate Reports(row: HistoryRow, e: Event) {
    && row.attemptId == e.attemptId
    && (e.outcome.Error? ==> row.kind == KindError && row.code == Some(e.outcome.code))
    && (e.outcome.Crash? ==> row.kind == KindCrash && row.code == None)
  }

  /** The entries are the attempts' first outcomes for the row, as far as these are failures, each as it was. */
  lemma EntriesReport(attempts: seq<Attempt>, s: nat)
    ensures var heads, rows := Heads(attempts, s), FailureRows(Heads(attempts, s));
      && |rows| <= |heads| && (|rows| < |heads| ==> heads[|rows|].outcome.Success?)
      && forall i :: 0 <= i < |rows| ==> !heads[i].outcome.Success? && Reports(rows[i], heads[i])
  {
    hide Heads, FirstSuccess;
  }

  lemma SpecAgrees(heads: seq<Event>)
    ensures Agree(heads, RowSpec(heads))
  {
    var k := FirstSuccess(heads);
    hide RecordOf, FirstSuccess;
    if k < |heads| { RecordNames(heads[k]); }
    if k > 0 { RecordNames(heads[k - 1]); }
  }

  lemma RecordNames(e: Event)
    ensures RecordOf(e).attemptId == e.attemptId
    ensures e.outcome.Error? ==> RecordOf(e).code == Some(e.outcome.code)
  {
    hide Sorted, Cells, Decimal;
  }

  /** The scan and the fold name the same attempts. */
  lemma RowHistoryAgrees(n: nat, attempts: seq<Attempt>, s: nat)
    requires OnceEach(attempts)
    ensures Agree(Heads(attempts, s), Entry(ResolutionOf(n, History(Settled(attempts))), s))
  {
    hide *;
    HeadsAreTrace(attempts, s);
    EntryIsSpec(n, History(Settled(attempts)), s);
    SpecAgrees(Heads(attempts, s));
  }

  lemma SettledAlready(attempts: seq<Attempt>)
    requires forall at :: at in attempts ==> at.state != Running
    ensures Settled(attempts) == attempts
  {
  }

  /** Over a history of pool runs nothing needs assuming: their logs never repeat a row. */
  lemma RowHistoryAgreesForRuns(items: seq<Item>, n: nat, runs: seq<Run>, s: nat)
    requires Sequential(items, n, runs)
    ensures OnceEach(AttemptsOf(runs)) && Settled(AttemptsOf(runs)) == AttemptsOf(runs)
    ensures Agree(Heads(AttemptsOf(runs), s), Entry(ResolutionOf(n, Logged(runs)), s))
  {
    forall at | at in AttemptsOf(runs) ensures Distinct(LogSeqs(at.log)) {
      var i :| 0 <= i < |runs| && AttemptOf(runs[i]) == at;
      AtMostOnceInLog(runs[i].cfg, runs[i].final);
    }
    SettledAlready(AttemptsOf(runs));
    RowHistoryAgrees(n, AttemptsOf(runs), s);
    hide *;
  }

  // ------------------------------------------------------------------
  // Any logs: when `resolved_at` is right
  // ------------------------------------------------------------------

  ghost predicate LogsSuccess(at: Attempt, s: nat) {
    exists o :: o in LogOutcomes(at.log) && o.seqNo == s && o.Success?
  }

  /** The attempt's first outcome for the row is a success. */
  predicate SucceedsFirst(at: Attempt, s: nat) {
    var t := About(LogOutcomes(at.log), s);
    t != [] && t[0].Success?
  }

  lemma SuccessAbout(at: Attempt, s: nat)
    ensures SucceedsFirst(at, s) ==> LogsSuccess(at, s)
  {
    FilterMembers((o: RowOutcome) => o.seqNo == s, LogOutcomes(at.log));
    if SucceedsFirst(at, s) { assert About(LogOutcomes(at.log), s)[0] in About(LogOutcomes(at.log), s); }
  }

  /** The scan stops at the first attempt whose own first outcome for the row is a success. */
  lemma {:induction false} ScanStopsAt(attempts: seq<Attempt>, s: nat, a: nat)
    requires a < |attempts| && SucceedsFirst(attempts[a], s)
    requires forall i :: 0 <= i < a ==> !SucceedsFirst(attempts[i], s)
    ensures ResolvedAt(Heads(attempts, s)) == Some(attempts[a].id)
  {
    var upTo := attempts[..a + 1];
    assert upTo[..a] == attempts[..a];
    NoneStops(attempts[..a], s);
    HeadsPrefix(attempts, a + 1, s);
    var e := Head(attempts[a], s)[0];
    assert Heads(upTo, s) == Heads(attempts[..a], s) + [e];
    hide Heads, SucceedsFirst;
    StopsAtSuccess(Heads(attempts[..a], s), e, Heads(attempts, s));
  }

  lemma {:induction false} NoneStops(attempts: seq<Attempt>, s: nat)
    requires forall i :: 0 <= i < |attempts| ==> !SucceedsFirst(attempts[i], s)
    ensures FirstSuccess(Heads(attempts, s)) == |Heads(attempts, s)|
  {
    if attempts != [] {
      var front, last := attempts[..|attempts| - 1], attempts[|attempts| - 1];
      NoneStops(front, s);
      FirstSuccessConcat(Heads(front, s), Head(last, s));
      assert Heads(front, s) + [] == Heads(front, s);
      hide Heads, About;
    }
  }

  /** The row's canonical success comes from the first attempt that logs any success for it. */
  lemma CanonicalAttempt(n: nat, attempts: seq<Attempt>, s: nat, a: nat)
    requires a < |attempts| && LogsSuccess(attempts[a], s)
    requires forall i :: 0 <= i < a ==> !LogsSuccess(attempts[i], s)
    ensures var p := Entry(ResolutionOf(n, History(Settled(attempts))), s);
      p.canonicalSuccess.Some? && p.canonicalSuccess.value.attemptId == attempts[a].id
  {
    hide *;
    HistoryPrefix(attempts, a);
    var block := EventsOf(attempts[a].id, LogOutcomes(attempts[a].log));
    var i := EarliestIn(block, s, attempts[a]);
    NoSuccessIn(attempts[..a], s);
    CanonicalIn(n, History(Settled(attempts[..a])), block, History(Settled(attempts)), s, i);
  }

  /** The earliest success of a block is canonical when nothing before the block succeeded. */
  lemma CanonicalIn(n: nat, pre: seq<Event>, block: seq<Event>, events: seq<Event>, s: nat, i: nat)
    requires pre + block <= events && i < |block| && block[i].outcome.seqNo == s && block[i].outcome.Success?
    requires forall e :: e in pre && e.outcome.seqNo == s ==> !e.outcome.Success?
    requires forall k :: 0 <= k < i && block[k].outcome.seqNo == s ==> !block[k].outcome.Success?
    ensures var p := Entry(ResolutionOf(n, events), s);
      p.canonicalSuccess.Some? && p.canonicalSuccess.value.attemptId == block[i].attemptId
  {
    hide *;
    RecordNames(block[i]);
    EarliestOverall(pre, block, events, s, i);
    CanonicalIsEarliest(n, events, |pre| + i);
  }

  lemma EarliestOverall(pre: seq<Event>, block: seq<Event>, events: seq<Event>, s: nat, i: nat)
    requires pre + block <= events && i < |block|
    requires forall e :: e in pre && e.outcome.seqNo == s ==> !e.outcome.Success?
    requires forall k :: 0 <= k < i && block[k].outcome.seqNo == s ==> !block[k].outcome.Success?
    ensures events[|pre| + i] == block[i]
    ensures forall k :: 0 <= k < |pre| + i && events[k].outcome.seqNo == s ==> !events[k].outcome.Success?
  {
    assert events[|pre| + i] == (pre + block)[|pre| + i];
    forall k | 0 <= k < |pre| + i && events[k].outcome.seqNo == s ensures !events[k].outcome.Success? {
      assert events[k] == (pre + block)[k];
      if k < |pre| { assert pre[k] in pre; }
    }
  }

  lemma {:induction false} HistoryPrefix(attempts: seq<Attempt>, a: nat)
    requires a < |attempts|
    ensures History(Settled(attempts[..a])) + EventsOf(attempts[a].id, LogOutcomes(attempts[a].log))
         <= History(Settled(attempts))
    decreases |attempts|
  {
    var front := attempts[..|attempts| - 1];
    SettledSnoc(attempts);
    if a < |front| {
      HistoryPrefix(front, a);
      assert front[..a] == attempts[..a];
    }
    hide History, EventsOf, LogOutcomes, Settled;
  }

  lemma EarliestIn(block: seq<Event>, s: nat, at: Attempt) returns (i: nat)
    requires block == EventsOf(at.id, LogOutcomes(at.log)) && LogsSuccess(at, s)
    ensures i < |block| && block[i].outcome.seqNo == s && block[i].outcome.Success? && block[i].attemptId == at.id
    ensures forall k :: 0 <= k < i && block[k].outcome.seqNo == s ==> !block[k].outcome.Success?
  {
    var outcomes := LogOutcomes(at.log);
    var o :| o in outcomes && o.seqNo == s && o.Success?;
    var last :| 0 <= last < |outcomes| && outcomes[last] == o;
    i := 0;
    while !(block[i].outcome.seqNo == s && block[i].outcome.Success?)
      invariant i <= last
      invariant forall k :: 0 <= k < i && block[k].outcome.seqNo == s ==> !block[k].outcome.Success?
      decreases last - i
    {
      i := i + 1;
    }
  }

  lemma NoSuccessIn(attempts: seq<Attempt>, s: nat)
    requires forall i :: 0 <= i < |attempts| ==> !LogsSuccess(attempts[i], s)
    ensures forall e :: e in History(Settled(attempts)) && e.outcome.seqNo == s ==> !e.outcome.Success?
  {
    forall e | e in History(Settled(attempts)) && e.outcome.seqNo == s ensures !e.outcome.Success? {
      HistoryMembers(Settled(attempts), e);
      var at :| at in Settled(attempts) && at.state != Running
        && at.id == e.attemptId && e.outcome in LogOutcomes(at.log);
      var i :| 0 <= i < |attempts| && Settled(attempts)[i] == at;
      assert attempts[i].log == at.log && !LogsSuccess(attempts[i], s);
    }
  }

  /** Whatever the logs hold, `resolved_at` names the resolving attempt iff that attempt logs its success first. */
  lemma ResolvedAtIff(n: nat, attempts: seq<Attempt>, s: nat, a: nat)
    requires forall i, k :: 0 <= i < k < |attempts| ==> attempts[i].id != attempts[k].id
    requires a < |attempts| && LogsSuccess(attempts[a], s)
    requires forall i :: 0 <= i < a ==> !LogsSuccess(attempts[i], s)
    ensures var p := Entry(ResolutionOf(n, History(Settled(attempts))), s);
      && p.canonicalSuccess.Some?
      && (ResolvedAt(Heads(attempts, s)) == Some(p.canonicalSuccess.value.attemptId) <==> SucceedsFirst(attempts[a], s))
  {
    hide *;
    CanonicalAttempt(n, attempts, s, a);
    forall i | 0 <= i < |attempts| ensures SucceedsFirst(attempts[i], s) ==> LogsSuccess(attempts[i], s) {
      SuccessAbout(attempts[i], s);
    }
    if SucceedsFirst(attempts[a], s) {
      ScanStopsAt(attempts, s, a);
    } else if exists k :: a < k < |attempts| && SucceedsFirst(attempts[k], s) {
      var k := FirstStop(attempts, s, a);
      ScanStopsAt(attempts, s, k);
    } else {
      NeverStops(attempts, s);
    }
  }

  lemma FirstStop(attempts: seq<Attempt>, s: nat, a: nat) returns (k: nat)
    requires a < |attempts| && exists k :: a < k < |attempts| && SucceedsFirst(attempts[k], s)
    requires forall i :: 0 <= i <= a ==> !SucceedsFirst(attempts[i], s)
    ensures a < k < |attempts| && SucceedsFirst(attempts[k], s)
    ensures forall i :: 0 <= i < k ==> !SucceedsFirst(attempts[i], s)
  {
    hide SucceedsFirst;
    var last :| a < last < |attempts| && SucceedsFirst(attempts[last], s);
    k := a + 1;
    while !SucceedsFirst(attempts[k], s)
      invariant a < k <= last && forall i :: 0 <= i < k ==> !SucceedsFirst(attempts[i], s)
      decreases last - k
    {
      k := k + 1;
    }
  }

  lemma NeverStops(attempts: seq<Attempt>, s: nat)
    requires forall i :: 0 <= i < |attempts| ==> !SucceedsFirst(attempts[i], s)
    ensures ResolvedAt(Heads(attempts, s)) == None
  {
    NoneStops(attempts, s);
    hide Heads, SucceedsFirst;
  }

  /** An input where it is wrong: one attempt that logs a failure and then a success for a row resolves it unseen. */
  lemma RepeatedRowDisagrees(n: nat, id: string, failure: RowOutcome, success: RowOutcome)
    requires failure.seqNo == success.seqNo && !failure.Success? && success.Success?
    ensures var attempts := [Attempt(id, Completed, [FromOutcomes([failure, success])])];
      && ResolvedAt(Heads(attempts, success.seqNo)) == None
      && Entry(ResolutionOf(n, History(attempts)), success.seqNo).state == Resolved
  {
    hide *;
    var s, at := success.seqNo, Attempt(id, Completed, [FromOutcomes([failure, success])]);
    OneLine(failure, success);
    OneAttempt(at, s);
    HeadIs(at, s);
    TwoEvents(id, failure, success);
    CanonicalIsEarliest(n, EventsOf(id, [failure, success]), 1);
    ResolvedNowhere(id, failure);
  }

  lemma HeadIs(at: Attempt, s: nat)
    requires About(LogOutcomes(at.log), s) != []
    ensures Head(at, s) == [Event(at.id, About(LogOutcomes(at.log), s)[0])]
  {
  }

  lemma TwoEvents(id: string, a: RowOutcome, b: RowOutcome)
    ensures EventsOf(id, [a, b]) == [Event(id, a), Event(id, b)]
  {
  }

  lemma OneLine(failure: RowOutcome, success: RowOutcome)
    ensures LogOutcomes([FromOutcomes([failure, success])]) == [failure, success]
    ensures About([failure, success], failure.seqNo) != [] && About([failure, success], failure.seqNo)[0] == failure
  {
    var line := FromOutcomes([failure, success]);
    LogSeqsSnoc([], line);
    assert [] + [line] == [line] && [] + line.outcomes == line.outcomes;
    assert [failure, success][0] == failure;
  }

  lemma ResolvedNowhere(id: string, failure: RowOutcome)
    requires !failure.Success?
    ensures ResolvedAt([Event(id, failure)]) == None
  {
  }

  lemma OneAttempt(at: Attempt, s: nat)
    requires at.state != Running
    ensures History([at]) == EventsOf(at.id, LogOutcomes(at.log))
    ensures Heads([at], s) == Head(at, s)
  {
    hide LogOutcomes, About;
    assert [at][..0] == [];
    assert History([]) == [] && Heads([], s) == [];
  }
}
