/**
 From the handler to the exported file: over any number of attempts at the
 same input, what a line of success.csv or failed.csv says about a row is what
 some handler that was given this very row made of it.
 */
module EndToEnd {
  import opened Base
  import opened Protocol
  import opened PipelineSafety
  import opened PipelineAccount
  import opened Resolution
  import opened ResolutionLaws
  import opened Histories
  import opened Export
  import opened ExportLines
  import opened ExportFiles
  import PipelineFlag
  import Text
  import P = Pipeline
  import L = Lockstep
  import Joint

  /** A finished attempt together with the sessions of its workers. */
  datatype Traced = Traced(run: Run, setup: L.Setup, sessions: seq<L.Session>)

  function RunsOf(traced: seq<Traced>): (r: seq<Run>)
    ensures |r| == |traced|
    ensures forall i :: 0 <= i < |traced| ==> r[i] == traced[i].run
  {
    seq(|traced|, i requires 0 <= i < |traced| => traced[i].run)
  }

  function EventsSoFar(traced: seq<Traced>): seq<Event> { Logged(RunsOf(traced)) }

  /** The attempt read these items, its handlers kept their stdouts clean, and it may have ended anywhere. */
  ghost predicate AttemptAt(items: seq<P.Item>, t: Traced) {
    && ValidConfig(t.run.cfg) && t.run.cfg.items == items
    && t.setup.runtime == t.run.cfg.runtime && t.setup.Clean()
    && Joint.Reachable(t.run.cfg, t.setup, Joint.Attempt(t.run.final, t.sessions))
  }

  /** Attempts at one input, whatever rows each of them skips, asks for or samples. */
  ghost predicate AttemptsAt(items: seq<P.Item>, traced: seq<Traced>) {
    forall i :: 0 <= i < |traced| ==> AttemptAt(items, traced[i])
  }

  // ------------------------------------------------------------------
  // Which attempt decides
  // ------------------------------------------------------------------

  lemma SoFarSnoc(traced: seq<Traced>)
    requires traced != []
    ensures var k := |traced| - 1;
      EventsSoFar(traced) == EventsSoFar(traced[..k]) + EventsOf(traced[k].run.id, LogOutcomes(traced[k].run.final.log))
  {
    var k := |traced| - 1;
    LoggedSnoc(RunsOf(traced));
    assert RunsOf(traced)[..k] == RunsOf(traced[..k]);
  }

  lemma NothingSoFar()
    ensures EventsSoFar([]) == []
  {
    assert RunsOf([]) == [] && AttemptsOf([]) == [];
  }

  lemma FromBlock(id: string, outcomes: seq<RowOutcome>, e: Event, s: nat)
    requires e in Trace(EventsOf(id, outcomes), s)
    ensures e.outcome in outcomes && e.outcome.seqNo == s
  {
    TraceElements(EventsOf(id, outcomes), s);
    var i :| 0 <= i < |EventsOf(id, outcomes)| && EventsOf(id, outcomes)[i] == e;
  }

  lemma NoSuccess(events: seq<Event>, s: nat)
    requires !Succeeded(events, s)
    ensures FirstSuccess(Trace(events, s)) == |Trace(events, s)|
  {
    TraceElements(events, s);
    var t := Trace(events, s);
    assert forall e :: e in t ==> !e.outcome.Success?;
  }

  lemma SomeSuccess(events: seq<Event>, s: nat)
    requires Succeeded(events, s)
    ensures FirstSuccess(Trace(events, s)) < |Trace(events, s)|
  {
    TraceElements(events, s);
    var e :| e in events && e.outcome.seqNo == s && e.outcome.Success?;
    assert e in Trace(events, s);
  }

  /** The attempt that logged a row's first success. */
  lemma {:induction false} FirstSuccessRun(traced: seq<Traced>, s: nat) returns (i: nat)
    requires Succeeded(EventsSoFar(traced), s)
    ensures i < |traced| && !Succeeded(EventsSoFar(traced[..i]), s)
    ensures var t := Trace(EventsSoFar(traced), s);
      var k := FirstSuccess(t);
      k < |t| && t[k].outcome.Success? && t[k].outcome.seqNo == s
      && t[k].outcome in LogOutcomes(traced[i].run.final.log)
    decreases |traced|
  {
    NothingSoFar();
    var n := |traced| - 1;
    var front, last := traced[..n], traced[n].run;
    var block := EventsOf(last.id, LogOutcomes(last.final.log));
    SoFarSnoc(traced);
    var earlier := EventsSoFar(front);
    TraceConcat(earlier, block, s);
    var a, b := Trace(earlier, s), Trace(block, s);
    FirstSuccessConcat(a, b);
    SomeSuccess(EventsSoFar(traced), s);
    hide *;
    if Succeeded(earlier, s) {
      i := FirstSuccessRun(front, s);
      SomeSuccess(earlier, s);
      assert front[..i] == traced[..i];
    } else {
      i := n;
      NoSuccess(earlier, s);
      FromBlock(last.id, LogOutcomes(last.final.log), b[FirstSuccess(b)], s);
    }
  }

  /** No later attempt logged anything about the row. */
  ghost predicate SilentAfter(traced: seq<Traced>, i: nat, s: nat) {
    forall j, o :: i < j < |traced| && o in LogOutcomes(traced[j].run.final.log) ==> o.seqNo != s
  }

  lemma NoneAfter(traced: seq<Traced>, s: nat)
    requires traced != []
    ensures SilentAfter(traced, |traced| - 1, s)
  {
  }

  lemma SilentSnoc(traced: seq<Traced>, i: nat, s: nat)
    requires traced != [] && SilentAfter(traced[..|traced| - 1], i, s)
    requires forall o :: o in LogOutcomes(traced[|traced| - 1].run.final.log) ==> o.seqNo != s
    ensures SilentAfter(traced, i, s)
  {
    hide LogOutcomes;
    forall j, o | i < j < |traced| && o in LogOutcomes(traced[j].run.final.log) ensures o.seqNo != s {
      if j < |traced| - 1 { assert traced[..|traced| - 1][j] == traced[j]; }
    }
  }

  lemma LastOf<T>(a: seq<T>, b: seq<T>)
    ensures if b == [] then a + b == a else (a + b)[|a + b| - 1] == b[|b| - 1]
  {
  }

  /** An outcome of the row stands last, and this attempt logged it. */
  ghost predicate LoggedLast(t: seq<Event>, r: Run, s: nat) {
    t != [] && t[|t| - 1].outcome.seqNo == s && t[|t| - 1].outcome in LogOutcomes(r.final.log)
  }

  lemma BlockIsLast(a: seq<Event>, r: Run, s: nat)
    requires Trace(EventsOf(r.id, LogOutcomes(r.final.log)), s) != []
    ensures LoggedLast(a + Trace(EventsOf(r.id, LogOutcomes(r.final.log)), s), r, s)
  {
    var b := Trace(EventsOf(r.id, LogOutcomes(r.final.log)), s);
    FromBlock(r.id, LogOutcomes(r.final.log), b[|b| - 1], s);
    LastOf(a, b);
    hide Trace, EventsOf, LogOutcomes;
  }

  /** The attempt that logged a row's last outcome. */
  lemma {:induction false} LastRun(traced: seq<Traced>, s: nat) returns (i: nat)
    requires Trace(EventsSoFar(traced), s) != []
    ensures i < |traced| && LoggedLast(Trace(EventsSoFar(traced), s), traced[i].run, s)
    ensures SilentAfter(traced, i, s)
    decreases |traced|
  {
    NothingSoFar();
    assert Trace([], s) == [];
    hide *;
    var n := |traced| - 1;
    var front, last := traced[..n], traced[n].run;
    var block := EventsOf(last.id, LogOutcomes(last.final.log));
    SoFarSnoc(traced);
    TraceConcat(EventsSoFar(front), block, s);
    LastOf(Trace(EventsSoFar(front), s), Trace(block, s));
    if Trace(block, s) != [] {
      i := n;
      BlockIsLast(Trace(EventsSoFar(front), s), last, s);
      NoneAfter(traced, s);
    } else {
      NotInBlock(last.id, LogOutcomes(last.final.log), s);
      i := LastRun(front, s);
      SilentSnoc(traced, i, s);
    }
  }

  lemma NotInBlock(id: string, outcomes: seq<RowOutcome>, s: nat)
    requires Trace(EventsOf(id, outcomes), s) == []
    ensures forall o :: o in outcomes ==> o.seqNo != s
  {
    TraceElements(EventsOf(id, outcomes), s);
    forall o | o in outcomes ensures o.seqNo != s {
      var i :| 0 <= i < |outcomes| && outcomes[i] == o;
      assert EventsOf(id, outcomes)[i] in EventsOf(id, outcomes);
    }
  }

  /** The one row of the input that an outcome of some attempt is about, and where the outcome comes from. */
  lemma RowBehind(items: seq<P.Item>, t: Traced, o: RowOutcome) returns (row: Row)
    requires AttemptAt(items, t) && o in LogOutcomes(t.run.final.log)
    ensures TheRow(items, row, o.seqNo) && Joint.Explained(t.run.cfg.runtime, t.sessions, row, o)
  {
    row := Joint.EveryOutcomeIsExplained(t.run.cfg, t.setup, Joint.Attempt(t.run.final, t.sessions), o);
    hide Joint.Reachable, Joint.Explained;
    SelectFromParsed(t.run.cfg, items, 0, row);
    OnlyRow(items, row);
  }

  /** The row with this number, of which the input has no other. */
  ghost predicate TheRow(items: seq<P.Item>, row: Row, s: nat) {
    && row in P.Parsed(items) && row.seqNo == s
    && forall other :: other in P.Parsed(items) && other.seqNo == s ==> other == row
  }

  lemma OnlyRow(items: seq<P.Item>, row: Row)
    requires P.Increasing(P.Parsed(items)) && row in P.Parsed(items)
    ensures TheRow(items, row, row.seqNo)
  {
    var rows := P.Parsed(items);
    hide P.Parsed;
    var i :| 0 <= i < |rows| && rows[i] == row;
    forall other | other in rows && other.seqNo == row.seqNo ensures other == row {
      var k :| 0 <= k < |rows| && rows[k] == other;
    }
  }

  // ------------------------------------------------------------------
  // The strict export
  // ------------------------------------------------------------------

  /** A strict export over a history is let through iff every row has an outcome and no attempt was flagged. */
  lemma StrictExportIff(n: nat, runs: seq<Run>)
    ensures FullyProcessed(n, AttemptsOf(runs)) <==>
      && (forall s: nat :: s < n ==> Touched(Logged(runs), s))
      && forall i :: 0 <= i < |runs| ==> !P.Aborted(runs[i].cfg, runs[i].final)
  {
    var attempts := AttemptsOf(runs);
    assert Logged(runs) == History(attempts);
    FlagsAreStates(runs);
    hide Touched, P.Aborted, Logged, AttemptsOf;
  }

  lemma FlagsAreStates(runs: seq<Run>)
    ensures (forall at :: at in AttemptsOf(runs) ==> at.state != AttemptState.Aborted)
       <==> (forall i :: 0 <= i < |runs| ==> !P.Aborted(runs[i].cfg, runs[i].final))
  {
    var attempts := AttemptsOf(runs);
    forall i | 0 <= i < |runs|
      ensures attempts[i] in attempts
      ensures attempts[i].state == AttemptState.Aborted <==> P.Aborted(runs[i].cfg, runs[i].final)
    {
      assert attempts[i] == AttemptOf(runs[i]);
    }
    hide P.Aborted, AttemptsOf, AttemptOf;
  }

  /** One attempt that stalled, lost an append, was killed or came to a flush after a cancel blocks it. */
  lemma FlaggedAttemptBlocksExport(n: nat, runs: seq<Run>, i: nat, schedule: seq<P.Action>)
    requires i < |runs| && ValidConfig(runs[i].cfg) && runs[i].final.joined
    requires P.Exec(runs[i].cfg, P.Init(runs[i].cfg), schedule) == Some(runs[i].final)
    requires PipelineFlag.Flagged(runs[i].cfg, schedule)
    ensures !FullyProcessed(n, AttemptsOf(runs))
  {
    PipelineFlag.FlaggedIff(runs[i].cfg, schedule, runs[i].final);
    hide *;
    StrictExportIff(n, runs);
  }

  // ------------------------------------------------------------------
  // The two files
  // ------------------------------------------------------------------

  /**
   A line of success.csv: its number names one row of the input, in the first attempt that logged a success
   for it a handler was called with that row and returned some data, and the line consists of the number and
   of exactly those values, column by column, with a column for each.
   */
  lemma SuccessCsvIsTheHandlers(items: seq<P.Item>, n: nat, traced: seq<Traced>, s: nat)
    returns (i: nat, row: Row, data: Data)
    requires AttemptsAt(items, traced) && s in SuccessRows(ResolutionOf(n, EventsSoFar(traced)))
    ensures i < |traced| && !Succeeded(EventsSoFar(traced[..i]), s)
    ensures TheRow(items, row, s) && Joint.HandlerReturned(traced[i].sessions, row, data)
    ensures var m := ResolutionOf(n, EventsSoFar(traced));
      var cols := Text.Sorted(SuccessKeys(m));
      ReadsSuccess(SuccessLine(m, cols)(s), s, cols, data) && Covers(cols, data, {"seqid"})
  {
    var events := EventsSoFar(traced);
    ExportIsPartition(n, events);
    hide *;
    i := FirstSuccessRun(traced, s);
    var o := Trace(events, s)[FirstSuccess(Trace(events, s))].outcome;
    SuccessLineReads(n, events, s);
    ValuesOfSuccess(o);
    OneOfThem(items, traced, i);
    row := RowBehind(items, traced[i], o);
    data := o.data;
    SuccessReturned(traced[i], row, o);
  }

  lemma OneOfThem(items: seq<P.Item>, traced: seq<Traced>, i: nat)
    requires AttemptsAt(items, traced) && i < |traced|
    ensures AttemptAt(items, traced[i])
  {
  }

  lemma ValuesOfSuccess(o: RowOutcome)
    ensures o.Success? ==> Values(o) == o.data
  {
  }

  lemma SuccessReturned(t: Traced, row: Row, o: RowOutcome)
    requires o.Success? && Joint.Explained(t.run.cfg.runtime, t.sessions, row, o)
    ensures Joint.HandlerReturned(t.sessions, row, o.data)
  {
    hide Joint.HandlerSaid;
  }

  /**
   A line of failed.csv about a row that has been attempted: it is the code, message and values of the last
   outcome any attempt logged for that row, which is ROW_TOO_LARGE if the row is oversized, and otherwise a
   crash of its worker or what a handler called with that row made of it, other than a success.
   */
  lemma FailedCsvIsExplained(items: seq<P.Item>, n: nat, traced: seq<Traced>, s: nat)
    returns (i: nat, row: Row, o: RowOutcome)
    requires AttemptsAt(items, traced) && s in FailedRows(ResolutionOf(n, EventsSoFar(traced)))
    requires Touched(EventsSoFar(traced), s)
    ensures i < |traced| && o in LogOutcomes(traced[i].run.final.log) && o.Error?
    ensures SilentAfter(traced, i, s)
    ensures TheRow(items, row, s) && Joint.Explained(traced[i].run.cfg.runtime, traced[i].sessions, row, o)
    ensures var m := ResolutionOf(n, EventsSoFar(traced));
      var cols := Text.Sorted(FailureKeys(m));
      && ReadsFailure(FailedLine(m, cols)(s), s, cols, o.code, o.message, Values(o))
      && Covers(cols, Values(o), {"seqid", "errcode", "errmessage"})
  {
    var events := EventsSoFar(traced);
    ExportIsPartition(n, events);
    AttemptedTrace(events, s);
    hide *;
    i := LastRun(traced, s);
    IsLogged(Trace(events, s), traced[i].run, s);
    o := Trace(events, s)[|Trace(events, s)| - 1].outcome;
    FailedLineReads(n, events, s);
    OneOfThem(items, traced, i);
    row := RowBehind(items, traced[i], o);
    var m := ResolutionOf(n, events);
    var cols := Text.Sorted(FailureKeys(m));
    VerdictOfError(FailedLine(m, cols)(s), s, cols, Trace(events, s));
    FailureIsError(traced[i], row, o);
  }

  lemma IsLogged(t: seq<Event>, r: Run, s: nat)
    requires LoggedLast(t, r, s)
    ensures t != [] && t[|t| - 1].outcome.seqNo == s && t[|t| - 1].outcome in LogOutcomes(r.final.log)
  {
  }

  lemma FailureIsError(t: Traced, row: Row, o: RowOutcome)
    requires !o.Success? && Joint.Explained(t.run.cfg.runtime, t.sessions, row, o)
    ensures o.Error?
  {
    hide Joint.HandlerSaid;
  }

  lemma VerdictOfError(line: seq<string>, s: nat, cols: seq<string>, t: seq<Event>)
    requires ReadsVerdict(line, s, cols, t) && t != []
    ensures var o := t[|t| - 1].outcome;
      !o.Success? && (o.Error? ==> ReadsFailure(line, s, cols, o.code, o.message, Values(o)))
  {
  }

  lemma AttemptedTrace(events: seq<Event>, s: nat)
    requires Touched(events, s)
    ensures Trace(events, s) != []
  {
    TraceElements(events, s);
    var e :| e in events && e.outcome.seqNo == s;
    assert e in Trace(events, s);
  }
}
