/**
 Exactly when a finished run's log is complete, by the way its accumulator
 and its workers ended, and by what was under way when a cancel fired.
 */
module PipelineComplete {
  import opened Base
  import opened Protocol
  import opened Batching
  import opened WorkerLines
  import opened Pipeline
  import opened PipelineSafety
  import opened PipelineAccount

  // ------------------------------------------------------------------
  // What the ends of the tasks say about the run
  // ------------------------------------------------------------------

  predicate CutShort(p: WorkerPhase) {
    p == Stopped(SawCancel) || p == Stopped(CutOff) || (p.Recording? && p.end == Some(CutOff))
  }

  ghost predicate Ends(cfg: Config, s: State) {
    && (forall w :: 0 <= w < |s.workers| && CutShort(s.workers[w]) ==> s.stalled || s.operator)
    && (s.acc == AccDone(RowsDrained) && !LogFailure(s) ==> s.lost == [] && Select(cfg, s.items, s.emitted) == [])
  }

  predicate OfAWorker(a: Action) { a.Pull? || a.Write? || a.Answer? || a.CutRecv? || a.Append? }

  lemma PullFrame(s: State, w: nat)
    requires w < |s.workers|
    ensures var t := DoPull(s, w);
      && t == s.(lock := None, jobQ := t.jobQ, workers := t.workers)
      && t.workers == s.workers[w := t.workers[w]] && (s.cancelled ==> t.jobQ == s.jobQ)
  {
  }

  lemma AppendFrame(s: State, w: nat, ok: bool)
    requires w < |s.workers| && s.workers[w].Recording?
    ensures var t := DoAppend(s, w, ok);
      && t == s.(workers := t.workers, log := t.log, lost := t.lost)
      && t.workers == s.workers[w := t.workers[w]] && (ok ==> t.lost == s.lost)
  {
  }

  /** A write, an answer or a cut concerns one worker only. */
  lemma BusyFrame(cfg: Config, s: State, a: Action)
    requires Enabled(cfg, s, a) && (a.Write? || a.Answer? || a.CutRecv?)
    ensures var t := Apply(cfg, s, a);
      && t == s.(workers := t.workers)
      && a.w < |s.workers| && a.w < |t.workers| && t.workers == s.workers[a.w := t.workers[a.w]]
  {
    hide CrashLine, ReplyLine;
  }

  /** A worker's step changes its own phase, the lock, the job queue, the log and what is lost. */
  lemma WorkerFrame(cfg: Config, s: State, a: Action)
    requires Inv(cfg, s) && Enabled(cfg, s, a) && OfAWorker(a)
    ensures a.w < |s.workers| && !s.workers[a.w].Stopped? && a.w < |Apply(cfg, s, a).workers|
    ensures var t := Apply(cfg, s, a);
      t == s.(lock := t.lock, jobQ := t.jobQ, workers := s.workers[a.w := t.workers[a.w]], log := t.log, lost := t.lost)
  {
    IsAbout(cfg, s, a);
    hide Inv, DoPull, DoAppend, DoWrite, DoAnswer, DoCutRecv;
    match a
    case Pull(w) => PullFrame(s, w);
    case Append(w, ok) => AppendFrame(s, w, ok);
    case _ =>
      BusyFrame(cfg, s, a);
      hide Apply, Enabled;
  }

  /** The worker that acts has not left its loop. */
  lemma IsAbout(cfg: Config, s: State, a: Action)
    requires Inv(cfg, s) && Enabled(cfg, s, a) && OfAWorker(a)
    ensures a.w < |s.workers| && !s.workers[a.w].Stopped?
  {
    hide WorkerShape, AccShape, Causes;
  }

  predicate OfTheAccumulator(a: Action) { a.AccReceive? || a.AccFlush? || a.AccReject? }

  /** Only the accumulator's own hands, its queues, the log and the histories differ. */
  ghost predicate AccumulatorOnly(s: State, t: State) {
    t == s.(rowQ := t.rowQ, acc := t.acc, pending := t.pending, pendingBytes := t.pendingBytes, jobQ := t.jobQ,
            log := t.log, sent := t.sent, rejected := t.rejected, lost := t.lost)
  }

  /** The accumulator takes in a row or returns: it sends nothing, logs nothing and rejects nothing. */
  ghost predicate TakesIn(s: State, t: State) {
    t == s.(rowQ := t.rowQ, acc := t.acc, pending := t.pending, pendingBytes := t.pendingBytes, lost := t.lost)
  }

  lemma ExitFrame(s: State, end: AccEnd, held: seq<Row>)
    ensures TakesIn(s, AccExit(s, end, held)) && AccExit(s, end, held).acc == AccDone(end)
  {
  }

  lemma PushFrame(cfg: Config, s: State, row: Row)
    ensures TakesIn(s, AccPush(cfg, s, row)) && !AccPush(cfg, s, row).acc.AccDone?
  {
    hide Runtime.MaxCount;
  }

  lemma MeetFrame(cfg: Config, s: State)
    requires s.rowQ != []
    ensures TakesIn(s, AccMeet(cfg, s)) && !AccMeet(cfg, s).acc.AccDone?
  {
    PushFrame(cfg, s.(rowQ := s.rowQ[1..]), s.rowQ[0]);
    hide Overflows, Dispatchable, AccPush;
  }

  lemma ReceiveFrame(cfg: Config, s: State)
    requires s.acc.Receiving?
    ensures TakesIn(s, DoAccReceive(cfg, s)) && DoAccReceive(cfg, s).acc != AccDone(AccLogFailed)
  {
    ExitFrame(s, CancelSeen, []);
    ExitFrame(s, RowsDrained, []);
    if s.rowQ != [] { MeetFrame(cfg, s); }
    hide AccExit, AccMeet;
  }

  /** The accumulator sends its pending batch, or returns; it logs nothing and rejects nothing. */
  ghost predicate Sends(s: State, t: State) {
    && t == s.(rowQ := t.rowQ, acc := t.acc, pending := t.pending, pendingBytes := t.pendingBytes, lost := t.lost,
               jobQ := t.jobQ, sent := t.sent)
    && ((t.jobQ == s.jobQ && t.sent == s.sent) || (t.jobQ == s.jobQ + [s.pending] && t.sent == s.sent + [s.pending]))
  }

  lemma FlushFrame(cfg: Config, s: State)
    requires Flushing(s.acc)
    ensures Sends(s, DoAccFlush(cfg, s)) && DoAccFlush(cfg, s).acc != AccDone(AccLogFailed)
  {
    var t := s.(jobQ := s.jobQ + [s.pending], sent := s.sent + [s.pending], pending := [], pendingBytes := 0);
    ExitFrame(s, FlushCancelled, HeldByAcc(s.acc));
    ExitFrame(t, RowsDrained, []);
    if s.acc.FlushThen? { PushFrame(cfg, t, s.acc.row); }
    hide AccPush, AccExit, HeldByAcc;
  }

  /** The accumulator logs and rejects the row it holds, or returns. */
  ghost predicate Rejects(s: State, t: State, ok: bool)
    requires s.acc.Rejecting?
  {
    if ok then
      t == s.(acc := Receiving, log := s.log + [TooLargeLine(s.acc.row)], rejected := s.rejected + [s.acc.row])
    else TakesIn(s, t)
  }

  lemma RejectFrame(s: State, ok: bool)
    requires s.acc.Rejecting?
    ensures Rejects(s, DoAccReject(s, ok), ok)
  {
    ExitFrame(s, AccLogFailed, [s.acc.row]);
    hide AccExit, TooLargeLine;
  }

  /** What the accumulator's step does; it ends in an error only when its own append fails. */
  lemma AccumulatorActs(cfg: Config, s: State, a: Action)
    requires Enabled(cfg, s, a) && OfTheAccumulator(a)
    ensures !s.acc.AccDone? && (a.AccReject? ==> s.acc.Rejecting?)
    ensures var t := Apply(cfg, s, a);
      match a
      case AccReceive => TakesIn(s, t)
      case AccFlush => Sends(s, t)
      case AccReject(ok) => Rejects(s, t, ok)
    ensures a != AccReject(false) ==> Apply(cfg, s, a).acc != AccDone(AccLogFailed)
  {
    hide DoAccReceive, DoAccFlush, DoAccReject, TakesIn, Sends, TooLargeLine;
    match a
    case AccReceive => ReceiveFrame(cfg, s);
    case AccFlush => FlushFrame(cfg, s);
    case AccReject(ok) => RejectFrame(s, ok);
  }

  /** The accumulator's step leaves the workers, the reader and every flag alone. */
  lemma AccumulatorFrame(cfg: Config, s: State, a: Action)
    requires Enabled(cfg, s, a) && OfTheAccumulator(a)
    ensures !s.acc.AccDone? && AccumulatorOnly(s, Apply(cfg, s, a))
  {
    AccumulatorActs(cfg, s, a);
    hide Apply, Enabled, TooLargeLine;
  }

  /** What the accumulator sends it also enqueues. */
  lemma AccumulatorBooks(cfg: Config, s: State, a: Action)
    requires Enabled(cfg, s, a) && OfTheAccumulator(a)
    ensures var t := Apply(cfg, s, a); |t.sent| - |t.jobQ| == |s.sent| - |s.jobQ|
  {
    AccumulatorActs(cfg, s, a);
    hide Apply, Enabled, TooLargeLine;
  }

  lemma ReaderNextFrame(cfg: Config, s: State)
    ensures var t := DoReaderNext(cfg, s); t == s.(items := t.items, emitted := t.emitted, reader := t.reader)
  {
    hide Config.Wants, Config.AtLimit;
  }

  /** The reader's steps, the lock and the flags leave the workers' and the accumulator's hands and the log alone. */
  lemma RestFrame(cfg: Config, s: State, a: Action)
    requires Enabled(cfg, s, a) && !OfAWorker(a) && !OfTheAccumulator(a)
    ensures var t := Apply(cfg, s, a);
      && t == s.(items := t.items, emitted := t.emitted, reader := t.reader, rowQ := t.rowQ, lost := t.lost,
              lock := t.lock, cancelled := t.cancelled, operator := t.operator, hard := t.hard,
              stalled := t.stalled, joined := t.joined)
      && (a.ReaderNext? || a.ReaderSend? ==>
           t == s.(items := t.items, emitted := t.emitted, reader := t.reader, rowQ := t.rowQ, lost := t.lost))
  {
    hide DoReaderNext;
    match a
    case ReaderNext => ReaderNextFrame(cfg, s);
    case ReaderSend =>
    case _ => hide DoReaderSend;
  }

  lemma OtherFrame(cfg: Config, s: State, a: Action)
    requires Enabled(cfg, s, a) && !OfAWorker(a)
    ensures Apply(cfg, s, a).workers == s.workers
    ensures s.acc.AccDone? ==> Apply(cfg, s, a).acc == s.acc
  {
    if OfTheAccumulator(a) { AccumulatorFrame(cfg, s, a); } else { RestFrame(cfg, s, a); }
    hide Apply, Enabled;
  }

  lemma LogFailureKept(cfg: Config, s: State, a: Action)
    requires Inv(cfg, s) && Enabled(cfg, s, a) && LogFailure(s)
    ensures LogFailure(Apply(cfg, s, a))
  {
    if OfAWorker(a) {
      WorkerFrame(cfg, s, a);
      SomeLogFailedKept(s, a.w, Apply(cfg, s, a).workers[a.w]);
    } else {
      OtherFrame(cfg, s, a);
    }
    hide Apply, Inv, Enabled, SomeWorkerLogFailed;
  }

  /** Nothing a task still does can change what a drained accumulator left behind, short of a failed append. */
  lemma DrainedStays(cfg: Config, s: State, a: Action)
    requires Inv(cfg, s) && Enabled(cfg, s, a) && s.acc == AccDone(RowsDrained)
    ensures var t := Apply(cfg, s, a); t.acc == s.acc && t.items == s.items && t.emitted == s.emitted
    ensures var t := Apply(cfg, s, a); t.lost == s.lost || (a.Append? && !a.ok)
  {
    if OfAWorker(a) {
      WorkerFrame(cfg, s, a);
      hide CrashLine, ReplyLine, Inv;
    } else {
      assert s.reader.ReaderDone?;
      hide Inv;
    }
  }

  lemma BecomesDrained(cfg: Config, s: State, a: Action)
    requires Inv(cfg, s) && Enabled(cfg, s, a) && !s.acc.AccDone?
    ensures var t := Apply(cfg, s, a);
      t.acc == AccDone(RowsDrained) && !LogFailure(t) ==> t.lost == [] && Select(cfg, t.items, t.emitted) == []
  {
    if OfAWorker(a) {
      WorkerFrame(cfg, s, a);
      hide Apply, Enabled, Inv;
    } else if OfTheAccumulator(a) {
      AccumulatorFrame(cfg, s, a);
      hide Select, SomeWorkerLogFailed, Overflows, Dispatchable, Shape;
    } else {
      hide Inv, Select, SomeWorkerLogFailed;
    }
  }

  /** A worker is only ever cut short by a cancel. */
  lemma CutShortOnlyByCancel(cfg: Config, s: State, a: Action)
    requires Inv(cfg, s) && Enabled(cfg, s, a) && OfAWorker(a) && a.w < |s.workers|
    requires a.w < |Apply(cfg, s, a).workers| && CutShort(Apply(cfg, s, a).workers[a.w])
    ensures CutShort(s.workers[a.w]) || s.cancelled
  {
    assert WorkerShape(CapsOf(cfg.runtime), s.workers[a.w]);
    hide CrashLine, ReplyLine, Inv, Fits;
    match a
    case Pull(_) =>
    case Write(_, _) =>
    case Answer(_, _) =>
    case CutRecv(_) =>
    case Append(_, _) =>
  }

  lemma NotJoined(cfg: Config, s: State, w: nat)
    requires Inv(cfg, s) && w < |s.workers| && !s.workers[w].Stopped?
    ensures !s.joined && (s.cancelled ==> s.stalled || s.operator)
  {
    assert s.joined ==> AllStopped(s.workers);
  }

  lemma CutShortStep(cfg: Config, s: State, a: Action)
    requires Inv(cfg, s) && Enabled(cfg, s, a)
    requires forall w :: 0 <= w < |s.workers| && CutShort(s.workers[w]) ==> s.stalled || s.operator
    ensures var t := Apply(cfg, s, a);
      forall w :: 0 <= w < |t.workers| && CutShort(t.workers[w]) ==> t.stalled || t.operator
  {
    var t := Apply(cfg, s, a);
    if OfAWorker(a) {
      WorkerFrame(cfg, s, a);
      NotJoined(cfg, s, a.w);
      if CutShort(t.workers[a.w]) { CutShortOnlyByCancel(cfg, s, a); }
      hide *;
    } else {
      OtherFrame(cfg, s, a);
      FlagsStay(cfg, s, a);
      hide *;
    }
  }

  lemma FlagsStay(cfg: Config, s: State, a: Action)
    requires Inv(cfg, s) && Enabled(cfg, s, a)
    ensures s.stalled ==> Apply(cfg, s, a).stalled
    ensures s.operator ==> Apply(cfg, s, a).operator
    ensures s.cancelled ==> Apply(cfg, s, a).cancelled
  {
    if OfTheAccumulator(a) {
      AccumulatorFrame(cfg, s, a);
      hide Apply, Enabled, Inv;
    } else if OfAWorker(a) {
      WorkerFrame(cfg, s, a);
      hide Apply, Enabled, Inv;
    }
  }

  lemma AppendFails(cfg: Config, s: State, a: Action)
    requires Inv(cfg, s) && Enabled(cfg, s, a) && a.Append? && !a.ok
    ensures LogFailure(Apply(cfg, s, a))
  {
    SomeLogFailedKept(s, a.w, Stopped(LogFailed));
  }

  lemma RejectFails(cfg: Config, s: State, a: Action)
    requires Enabled(cfg, s, a) && a.AccReject? && !a.ok
    ensures LogFailure(Apply(cfg, s, a))
  {
  }

  lemma EndsStep(cfg: Config, s: State, a: Action)
    requires Inv(cfg, s) && Enabled(cfg, s, a) && Ends(cfg, s)
    ensures Ends(cfg, Apply(cfg, s, a))
  {
    var t := Apply(cfg, s, a);
    CutShortStep(cfg, s, a);
    if s.acc == AccDone(RowsDrained) {
      DrainedStays(cfg, s, a);
      if LogFailure(s) { LogFailureKept(cfg, s, a); }
      if a.Append? && !a.ok { AppendFails(cfg, s, a); }
    } else if s.acc.AccDone? {
      if OfAWorker(a) { WorkerFrame(cfg, s, a); } else { OtherFrame(cfg, s, a); }
    } else {
      BecomesDrained(cfg, s, a);
    }
    hide Inv, Select, LogFailure, CutShort;
  }

  lemma {:induction false} ExecEnds(cfg: Config, s: State, schedule: seq<Action>)
    requires cfg.runtime.Validates() && Inv(cfg, s) && Ends(cfg, s) && Exec(cfg, s, schedule).Some?
    ensures Ends(cfg, Exec(cfg, s, schedule).value)
    decreases |schedule|
  {
    hide Inv, Ends, Apply, Enabled;
    if schedule != [] {
      InvStep(cfg, s, schedule[0]);
      EndsStep(cfg, s, schedule[0]);
      ExecEnds(cfg, Apply(cfg, s, schedule[0]), schedule[1..]);
    }
  }

  lemma EndsHolds(cfg: Config, s: State)
    requires ValidConfig(cfg) && Reachable(cfg, s)
    ensures Ends(cfg, s)
  {
    var schedule :| Exec(cfg, Init(cfg), schedule) == Some(s);
    InitInv(cfg);
    assert Ends(cfg, Init(cfg));
    hide Ends, Inv, Init, Exec;
    ExecEnds(cfg, Init(cfg), schedule);
  }

  /** Once the accumulator reached the end of input and no append failed, the job queue decides, cancelled or not. */
  lemma DrainedCompleteIff(cfg: Config, s: State)
    requires ValidConfig(cfg) && Reachable(cfg, s) && s.joined && s.acc == AccDone(RowsDrained) && !LogFailure(s)
    ensures Complete(cfg, s) <==> s.jobQ == []
  {
    EndsHolds(cfg, s);
    CompleteIffNothingMissed(cfg, s);
    hide Complete, Reachable, ValidConfig, Select;
  }

  lemma FailedShows(s: State, w: nat)
    requires w < |s.workers| && s.workers[w] == Stopped(LogFailed)
    ensures LogFailure(s)
  {
  }

  /** Without a caller's token an unflagged log can only be incomplete because every worker lost its stdin. */
  lemma IncompleteMeansWritesFailed(cfg: Config, s: State)
    requires ValidConfig(cfg) && Reachable(cfg, s) && s.joined && !cfg.external && !Aborted(cfg, s) && !Complete(cfg, s)
    ensures s.jobQ != [] && forall w :: 0 <= w < |s.workers| ==> s.workers[w] == Stopped(WriteFailed)
  {
    EndsHolds(cfg, s);
    Conservation(cfg, s);
    CompleteIffJobsDrained(cfg, s);
    FinishedUndisturbed(cfg, s);
    forall w | 0 <= w < |s.workers| ensures s.workers[w] == Stopped(WriteFailed) {
      assert s.workers[w].Stopped? && !CutShort(s.workers[w]);
      match s.workers[w].why
      case Drained =>
      case SawCancel =>
      case WriteFailed =>
      case CutOff =>
      case LogFailed => FailedShows(s, w);
    }
  }

  // ------------------------------------------------------------------
  // Cancelled runs: decided at the moment of the cancel
  // ------------------------------------------------------------------

  function AwaitingFlush(acc: AccPhase): seq<Row> { if acc.FlushThen? then [acc.row] else [] }

  /** Rows that are lost already, or will be once the cancelled tasks have ended. */
  function Doomed(s: State, x: nat): nat {
    Count(s.lost, x) + Count(s.pending, x) + Count(AwaitingFlush(s.acc), x)
    + Count(s.rowQ, x) + Count(HeldByReader(s.reader), x)
  }

  ghost predicate Settling(s: State, t: State) {
    && t.cancelled && t.items == s.items && t.emitted == s.emitted && t.jobQ == s.jobQ
    && forall x :: Doomed(t, x) == Doomed(s, x)
  }

  lemma ReaderSettles(cfg: Config, s: State, a: Action)
    requires Inv(cfg, s) && Enabled(cfg, s, a) && s.cancelled && (a.ReaderNext? || a.ReaderSend?)
    ensures Settling(s, Apply(cfg, s, a))
  {
    var t, held := Apply(cfg, s, a), HeldByReader(s.reader);
    assert t == s.(reader := ReaderDone, lost := s.lost + held) by {
      hide Inv, Config.Wants, Config.AtLimit;
      assert s.lost + [] == s.lost;
    }
    assert HeldByReader(t.reader) == [];
    hide Apply, Enabled, Inv, HeldByReader, AwaitingFlush, Count;
    forall x ensures Doomed(t, x) == Doomed(s, x) {
      CountNone(x);
      CountConcat(s.lost, held, x);
    }
  }

  lemma ExitSettles(cfg: Config, s: State, end: AccEnd, held: seq<Row>)
    requires s.cancelled && held == AwaitingFlush(s.acc)
    ensures Settling(s, AccExit(s, end, held))
  {
    var t := AccExit(s, end, held);
    forall x ensures Doomed(t, x) == Doomed(s, x) {
      CountNone(x);
      CountConcat(s.lost + s.pending + held, s.rowQ, x);
      CountConcat(s.lost + s.pending, held, x);
      CountConcat(s.lost, s.pending, x);
      hide Count;
    }
  }

  lemma AccSettles(cfg: Config, s: State, a: Action)
    requires Inv(cfg, s) && Enabled(cfg, s, a) && s.cancelled && (a.AccReceive? || a.AccFlush? || a == AccReject(true))
    ensures Settling(s, Apply(cfg, s, a))
  {
    match a
    case AccReceive => ExitSettles(cfg, s, CancelSeen, []);
    case AccFlush => ExitSettles(cfg, s, FlushCancelled, HeldByAcc(s.acc));
    case AccReject(_) => hide Count;
  }

  lemma WorkerSettles(cfg: Config, s: State, a: Action)
    requires Inv(cfg, s) && Enabled(cfg, s, a) && s.cancelled && OfAWorker(a) && (a.Append? ==> a.ok)
    ensures Settling(s, Apply(cfg, s, a))
  {
    WorkerFrame(cfg, s, a);
    WorkerLosesNothing(cfg, s, a);
    hide Apply, Inv, Enabled, Count, AwaitingFlush, HeldByReader;
  }

  lemma WorkerLosesNothing(cfg: Config, s: State, a: Action)
    requires Inv(cfg, s) && Enabled(cfg, s, a) && s.cancelled && OfAWorker(a) && (a.Append? ==> a.ok)
    ensures Apply(cfg, s, a).lost == s.lost && Apply(cfg, s, a).jobQ == s.jobQ
  {
    IsAbout(cfg, s, a);
    hide Inv, DoPull, DoAppend, DoWrite, DoAnswer, DoCutRecv;
    match a
    case Pull(w) => PullFrame(s, w);
    case Append(w, ok) => AppendFrame(s, w, ok);
    case _ =>
      BusyFrame(cfg, s, a);
      hide Apply, Enabled;
  }

  lemma FlagSettles(cfg: Config, s: State, a: Action)
    requires Enabled(cfg, s, a) && s.cancelled && (a.Lock? || a.Cancel? || a.Stall? || a.Join?)
    ensures Settling(s, Apply(cfg, s, a))
  {
    hide Count, AwaitingFlush, HeldByReader;
  }

  lemma SettlingStep(cfg: Config, s: State, a: Action)
    requires Inv(cfg, s) && Enabled(cfg, s, a) && s.cancelled && !LogFailure(Apply(cfg, s, a))
    ensures Settling(s, Apply(cfg, s, a))
  {
    if a.AccReject? && !a.ok { RejectFails(cfg, s, a); }
    if a.Append? && !a.ok { AppendFails(cfg, s, a); }
    hide Inv, Settling, LogFailure, Apply;
    if a.ReaderNext? || a.ReaderSend? {
      ReaderSettles(cfg, s, a);
    } else if a.AccReceive? || a.AccFlush? || a.AccReject? {
      AccSettles(cfg, s, a);
    } else if OfAWorker(a) {
      WorkerSettles(cfg, s, a);
    } else {
      FlagSettles(cfg, s, a);
    }
  }

  lemma {:induction false} ExecSettles(cfg: Config, s: State, schedule: seq<Action>)
    requires cfg.runtime.Validates() && Inv(cfg, s) && s.cancelled && Exec(cfg, s, schedule).Some?
    ensures LogFailure(s) ==> LogFailure(Exec(cfg, s, schedule).value)
    ensures !LogFailure(Exec(cfg, s, schedule).value) ==> Settling(s, Exec(cfg, s, schedule).value)
    decreases |schedule|
  {
    if schedule != [] {
      var next := Apply(cfg, s, schedule[0]);
      InvStep(cfg, s, schedule[0]);
      FlagsStay(cfg, s, schedule[0]);
      ExecSettles(cfg, next, schedule[1..]);
      if LogFailure(s) { LogFailureKept(cfg, s, schedule[0]); }
      if !LogFailure(next) { SettlingStep(cfg, s, schedule[0]); }
      hide Inv, LogFailure, Apply, Enabled, Doomed;
    }
  }

  /** Every row the attempt should cover has been taken by a worker or is on its way to the log as too large. */
  ghost predicate AllTaken(cfg: Config, s: State) {
    && s.jobQ == [] && s.pending == [] && s.rowQ == []
    && !s.acc.FlushThen? && !s.reader.Holding? && Select(cfg, s.items, s.emitted) == []
  }

  lemma NoneDoomedIff(s: State)
    requires s.lost == []
    ensures (forall x :: Doomed(s, x) == 0)
       <==> s.pending == [] && s.rowQ == [] && !s.acc.FlushThen? && !s.reader.Holding?
  {
    forall x ensures Count([], x) == 0 { CountNone(x); }
    hide Count;
    if forall x :: Doomed(s, x) == 0 {
      NotCounted(s, s.pending);
      NotCounted(s, s.rowQ);
      NotCounted(s, AwaitingFlush(s.acc));
      NotCounted(s, HeldByReader(s.reader));
    }
  }

  lemma SomeCounted(rows: seq<Row>)
    requires rows != []
    ensures Count(rows, rows[0].seqNo) > 0
  {
    assert Seqs(rows)[0] in Seqs(rows);
  }

  lemma NotCounted(s: State, rows: seq<Row>)
    requires forall x :: Doomed(s, x) == 0
    requires rows == s.lost || rows == s.pending || rows == s.rowQ
      || rows == AwaitingFlush(s.acc) || rows == HeldByReader(s.reader)
    ensures rows == []
  {
    if rows != [] {
      var x := rows[0].seqNo;
      assert Doomed(s, x) == 0;
      hide Count;
      SomeCounted(rows);
    }
  }

  lemma FinallyLost(cfg: Config, t: State)
    requires Inv(cfg, t) && t.joined
    ensures (forall x :: Doomed(t, x) == 0) <==> t.lost == []
  {
    assert t.pending == [] && AwaitingFlush(t.acc) == [] && t.rowQ == [] && HeldByReader(t.reader) == [];
    forall x ensures Count([], x) == 0 { CountNone(x); }
    hide Inv, Count;
    if forall x :: Doomed(t, x) == 0 { NotCounted(t, t.lost); }
  }

  /**
   A run that is cancelled, from outside or by the monitor, and loses no append ends with a complete log
   exactly when at that moment nothing of its selection was left upstream of the workers.
   */
  lemma CancelledCompleteIff(cfg: Config, c: State, a: Action, rest: seq<Action>)
    requires ValidConfig(cfg) && Reachable(cfg, c) && !c.cancelled && (a.Cancel? || a.Stall?) && Enabled(cfg, c, a)
    requires var end := Exec(cfg, Apply(cfg, c, a), rest);
      end.Some? && end.value.joined && !LogFailure(end.value)
    ensures Complete(cfg, Exec(cfg, Apply(cfg, c, a), rest).value) <==> AllTaken(cfg, c)
  {
    var from := Apply(cfg, c, a);
    var t := Exec(cfg, from, rest).value;
    Conservation(cfg, c);
    InvStep(cfg, c, a);
    ExecSettles(cfg, from, rest);
    if LogFailure(c) { LogFailureKept(cfg, c, a); }
    assert c.lost == [];
    ExecKeeps(cfg, from, rest);
    ReachedAfter(cfg, c, a, rest);
    CompleteIffNothingMissed(cfg, t);
    FinallyLost(cfg, t);
    NoneDoomedIff(from);
    hide Inv, Complete, Reachable, ValidConfig, Exec, LogFailure, Select, Doomed;
    assert from.lost == c.lost;
  }

  lemma ReachedAfter(cfg: Config, c: State, a: Action, rest: seq<Action>)
    requires Reachable(cfg, c) && Enabled(cfg, c, a) && Exec(cfg, Apply(cfg, c, a), rest).Some?
    ensures Reachable(cfg, Exec(cfg, Apply(cfg, c, a), rest).value)
  {
    var schedule :| Exec(cfg, Init(cfg), schedule) == Some(c);
    assert ([a] + rest)[1..] == rest;
    ExecConcat(cfg, Init(cfg), schedule, [a] + rest);
    hide Init, Apply, Enabled;
    assert Exec(cfg, Init(cfg), schedule + ([a] + rest)) == Exec(cfg, Apply(cfg, c, a), rest);
  }

  /** So a soft cancel that the report does not flag hides missing rows iff some were upstream when it fired. */
  lemma SoftCancelCompleteIff(cfg: Config, c: State, rest: seq<Action>)
    requires ValidConfig(cfg) && Reachable(cfg, c) && !c.cancelled && Enabled(cfg, c, Cancel(false))
    requires var end := Exec(cfg, Apply(cfg, c, Cancel(false)), rest);
      end.Some? && end.value.joined && !Aborted(cfg, end.value)
    ensures Complete(cfg, Exec(cfg, Apply(cfg, c, Cancel(false)), rest).value) <==> AllTaken(cfg, c)
  {
    hide ValidConfig, Reachable, Exec, Apply, Enabled, Complete, AllTaken;
    CancelledCompleteIff(cfg, c, Cancel(false), rest);
  }
}
