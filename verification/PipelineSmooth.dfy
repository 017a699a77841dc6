/**
 Every run in which nothing goes wrong: handlers answer with results, writes
 and appends succeed, and nobody cancels. Such runs cannot block, and bring
 each selected row to a success unless it is oversized.
 */
module PipelineSmooth {
  import opened Base
  import opened Protocol
  import opened Batching
  import opened WorkerLines
  import opened Pipeline
  import opened PipelineSafety
  import opened PipelineAccount
  import opened PipelineLive
  import opened PipelineComplete
  import PipelineLines
  import PipelineOrigins

  /** The reply holds a result for each row of the batch. */
  predicate Serves(rt: Runtime, batch: Batch, reply: Reply) {
    && reply.Message?
    && match rt.mode
       case RowMode => reply.msg.Result?
       case BatchMode =>
         && reply.msg.BatchResult? && |reply.msg.results| == |batch|
         && forall e :: e in reply.msg.results ==> e.EntryResult?
  }

  predicate GoesWell(cfg: Config, s: State, a: Action) {
    match a
    case Write(_, ok) => ok
    case Append(_, ok) => ok
    case AccReject(ok) => ok
    case Answer(w, reply) => w < |s.workers| && s.workers[w].Waiting? && Serves(cfg.runtime, s.workers[w].batch, reply)
    case Cancel(_) => false
    case Stall => false
    case _ => true
  }

  /** A schedule of enabled actions that all go well. */
  predicate Smooth(cfg: Config, s: State, schedule: seq<Action>)
    decreases |schedule|
  {
    schedule == [] ||
    (Enabled(cfg, s, schedule[0]) && GoesWell(cfg, s, schedule[0])
     && Smooth(cfg, Apply(cfg, s, schedule[0]), schedule[1..]))
  }

  predicate AllSuccess(line: BatchOutcome) { forall o :: o in line.outcomes ==> o.Success? }

  ghost predicate Oversized(s: State, line: BatchOutcome) {
    exists row :: row in s.rejected && line == TooLargeLine(row)
  }

  predicate Well(p: WorkerPhase) {
    (p.Stopped? ==> p.why == Drained) && (p.Recording? ==> p.end.None? && AllSuccess(p.line))
  }

  ghost predicate Fine(cfg: Config, s: State) {
    && Inv(cfg, s)
    && !s.operator && !s.stalled && !s.hard && s.acc != AccDone(AccLogFailed)
    && (forall w :: 0 <= w < |s.workers| ==> Well(s.workers[w]))
    && (forall line :: line in s.log ==> AllSuccess(line) || Oversized(s, line))
  }

  lemma ServedLine(rt: Runtime, batch: Batch, reply: Reply)
    requires batch != [] && Serves(rt, batch, reply)
    ensures AllSuccess(ReplyLine(rt, batch, reply))
  {
    var outcomes := ReplyOutcomes(rt.mode, Seqs(batch), rt.IsIdempotent(), reply);
    assert ReplyLine(rt, batch, reply).outcomes == outcomes;
    hide ReplyLine;
    if rt.mode == BatchMode {
      hide ReplyOutcomes;
      forall o | o in outcomes ensures o.Success? {
        var i :| 0 <= i < |outcomes| && outcomes[i] == o;
        assert reply.msg.results[i] in reply.msg.results;
      }
    }
  }

  lemma WorkerGoesWell(cfg: Config, s: State, a: Action)
    requires Inv(cfg, s) && Enabled(cfg, s, a) && OfAWorker(a) && GoesWell(cfg, s, a) && !s.cancelled
    requires a.w < |s.workers| == |Apply(cfg, s, a).workers| && Well(s.workers[a.w])
    ensures Well(Apply(cfg, s, a).workers[a.w])
    ensures var t := Apply(cfg, s, a);
      t.log == s.log || (a.Append? && s.workers[a.w].Recording? && t.log == s.log + [s.workers[a.w].line])
  {
    if a.Answer? { ServedLine(cfg.runtime, s.workers[a.w].batch, a.reply); }
    hide CrashLine, ReplyLine, Inv, Serves, AllSuccess;
    match a
    case Pull(_) =>
    case Write(_, _) =>
    case Answer(_, _) =>
    case CutRecv(_) =>
    case Append(_, _) =>
  }

  lemma WorkerStaysFine(cfg: Config, s: State, a: Action)
    requires cfg.runtime.Validates() && Fine(cfg, s) && !s.joined
    requires Enabled(cfg, s, a) && OfAWorker(a) && GoesWell(cfg, s, a)
    ensures Fine(cfg, Apply(cfg, s, a))
  {
    var t := Apply(cfg, s, a);
    InvStep(cfg, s, a);
    WorkerFrame(cfg, s, a);
    assert !s.cancelled && Well(s.workers[a.w]);
    WorkerGoesWell(cfg, s, a);
    hide Apply, Enabled, Inv, AllSuccess;
    forall line | line in t.log ensures AllSuccess(line) || Oversized(t, line) {
      if line !in s.log { assert Well(s.workers[a.w]); }
    }
  }

  /** A reader's step that goes well only moves rows along. */
  lemma ReaderStaysFine(cfg: Config, s: State, a: Action)
    requires cfg.runtime.Validates() && Fine(cfg, s) && !s.joined
    requires Enabled(cfg, s, a) && (a.ReaderNext? || a.ReaderSend?)
    ensures Fine(cfg, Apply(cfg, s, a))
  {
    var t := Apply(cfg, s, a);
    InvStep(cfg, s, a);
    RestFrame(cfg, s, a);
    FlagsOfReader(cfg, s, a);
    hide Apply, Enabled, Inv, AllSuccess, Well;
  }

  lemma FlagsOfReader(cfg: Config, s: State, a: Action)
    requires Enabled(cfg, s, a) && (a.ReaderNext? || a.ReaderSend?)
    ensures var t := Apply(cfg, s, a); t.operator == s.operator && t.stalled == s.stalled && t.hard == s.hard
  {
    RestFrame(cfg, s, a);
    hide Apply, Enabled;
  }

  lemma AccumulatorStaysFine(cfg: Config, s: State, a: Action)
    requires cfg.runtime.Validates() && Fine(cfg, s) && !s.joined
    requires Enabled(cfg, s, a) && OfTheAccumulator(a) && GoesWell(cfg, s, a)
    ensures Fine(cfg, Apply(cfg, s, a))
  {
    var t := Apply(cfg, s, a);
    InvStep(cfg, s, a);
    AccumulatorFrame(cfg, s, a);
    AccumulatorActs(cfg, s, a);
    hide Apply, Enabled, Inv, AllSuccess, Well, TooLargeLine;
  }

  lemma FineStep(cfg: Config, s: State, a: Action)
    requires cfg.runtime.Validates() && Fine(cfg, s) && Enabled(cfg, s, a) && GoesWell(cfg, s, a)
    ensures Fine(cfg, Apply(cfg, s, a))
  {
    OverWhenJoined(cfg, s, a);
    if OfAWorker(a) {
      WorkerStaysFine(cfg, s, a);
    } else if OfTheAccumulator(a) {
      AccumulatorStaysFine(cfg, s, a);
    } else if a.ReaderNext? || a.ReaderSend? {
      ReaderStaysFine(cfg, s, a);
    } else {
      InvStep(cfg, s, a);
      hide Inv, Well, AllSuccess;
    }
  }

  lemma OverWhenJoined(cfg: Config, s: State, a: Action)
    requires Fine(cfg, s) && Enabled(cfg, s, a) && GoesWell(cfg, s, a)
    ensures !s.joined
  {
    assert s.joined ==> TasksDone(s);
    hide Well, AllSuccess, Oversized, Serves, Fits, AccShape, WorkerShape;
  }

  lemma {:induction false} SmoothIsFine(cfg: Config, s: State, schedule: seq<Action>)
    requires cfg.runtime.Validates() && Fine(cfg, s) && Smooth(cfg, s, schedule)
    ensures Exec(cfg, s, schedule).Some? && Fine(cfg, Exec(cfg, s, schedule).value)
    decreases |schedule|
  {
    if schedule != [] {
      FineStep(cfg, s, schedule[0]);
      hide Fine, Apply, Enabled, GoesWell;
      SmoothIsFine(cfg, Apply(cfg, s, schedule[0]), schedule[1..]);
    }
  }

  lemma SmoothRun(cfg: Config, schedule: seq<Action>) returns (s: State)
    requires ValidConfig(cfg) && Smooth(cfg, Init(cfg), schedule)
    ensures Exec(cfg, Init(cfg), schedule) == Some(s) && Reachable(cfg, s) && Fine(cfg, s)
  {
    InitInv(cfg);
    assert Fine(cfg, Init(cfg));
    hide Fine, Inv, Init, Smooth;
    SmoothIsFine(cfg, Init(cfg), schedule);
    s := Exec(cfg, Init(cfg), schedule).value;
  }

  /** With a worker at all, a smooth run that has not joined can always go on, and go on smoothly. */
  lemma SmoothGoesOn(cfg: Config, schedule: seq<Action>) returns (s: State)
    requires ValidConfig(cfg) && Smooth(cfg, Init(cfg), schedule) && cfg.WorkerCount() > 0
    ensures Exec(cfg, Init(cfg), schedule) == Some(s)
    ensures !s.joined ==> exists a :: Enabled(cfg, s, a) && GoesWell(cfg, s, a)
  {
    s := SmoothRun(cfg, schedule);
    if !s.joined {
      BlockedIffWedged(cfg, s);
      assert !Wedged(s) by { NotWedged(cfg, s); }
      hide Wedged, Reachable;
      var any :| OfATask(any) && Enabled(cfg, s, any);
      var a := WellDone(cfg, s, any);
    }
  }

  lemma NotWedged(cfg: Config, s: State)
    requires Fine(cfg, s) && cfg.WorkerCount() > 0
    ensures !Wedged(s)
  {
    assert Well(s.workers[0]);
    hide AllSuccess, Oversized, Fits, WorkerShape;
  }

  /** Whatever a task can do, it can do well. */
  lemma WellDone(cfg: Config, s: State, any: Action) returns (a: Action)
    requires Fine(cfg, s) && !s.joined && Enabled(cfg, s, any) && OfATask(any)
    ensures Enabled(cfg, s, a) && GoesWell(cfg, s, a)
  {
    assert !s.cancelled;
    hide Inv, Well, AllSuccess, Oversized;
    match any
    case Write(w, _) => a := Write(w, true);
    case Append(w, _) => a := Append(w, true);
    case AccReject(_) => a := AccReject(true);
    case Answer(w, _) =>
      var results := seq(|s.workers[w].batch|, i => EntryResult(map[]));
      assert forall e :: e in results ==> e.EntryResult?;
      a := Answer(w, Message(if cfg.runtime.mode == RowMode then Result(0, map[]) else BatchResult(results)));
    case _ => a := any;
  }

  ghost predicate HasSuccess(log: seq<BatchOutcome>, row: Row) {
    exists o :: o in LogOutcomes(log) && o.seqNo == row.seqNo && o.Success?
  }

  lemma FineOutcome(cfg: Config, s: State, o: RowOutcome)
    requires ValidConfig(cfg) && Reachable(cfg, s) && Fine(cfg, s) && o in LogOutcomes(s.log)
    ensures !o.Success? ==>
      exists row :: row in Selected(cfg) && !Dispatchable(row) && o == SynthesizeTooLarge(row.seqNo)
  {
    var line := PipelineLines.InSomeLine(s.log, o);
    PipelineOrigins.OriginHolds(cfg, s);
    hide Inv, Selected, Dispatchable, Reachable, ValidConfig;
    if !o.Success? {
      assert !AllSuccess(line);
      var row :| row in s.rejected && line == TooLargeLine(row);
    }
  }

  lemma OneOutcome(cfg: Config, s: State, row: Row) returns (o: RowOutcome)
    requires ValidConfig(cfg) && Complete(cfg, s) && row in Selected(cfg)
    ensures o in LogOutcomes(s.log) && o.seqNo == row.seqNo
  {
    var rows, seqs := Selected(cfg), LogSeqs(s.log);
    var i :| 0 <= i < |rows| && rows[i] == row;
    assert Seqs(rows)[i] in Seqs(rows);
    assert row.seqNo in multiset(seqs);
    var k :| 0 <= k < |seqs| && seqs[k] == row.seqNo;
    o := LogOutcomes(s.log)[k];
  }

  /**
   Every finished smooth run of at least one worker, over any input and any interleaving: exactly one
   outcome per selected row, a success iff the row is not oversized, and ROW_TOO_LARGE otherwise.
   */
  lemma SmoothRunsSucceed(cfg: Config, schedule: seq<Action>) returns (s: State)
    requires ValidConfig(cfg) && Smooth(cfg, Init(cfg), schedule) && cfg.WorkerCount() > 0
    ensures Exec(cfg, Init(cfg), schedule) == Some(s)
    ensures s.joined ==> !Aborted(cfg, s) && Complete(cfg, s) && Distinct(LogSeqs(s.log))
    ensures s.joined ==> forall row :: row in Selected(cfg) ==> (HasSuccess(s.log, row) <==> Dispatchable(row))
    ensures forall o :: o in LogOutcomes(s.log) && !o.Success? ==>
      exists row :: row in Selected(cfg) && !Dispatchable(row) && o == SynthesizeTooLarge(row.seqNo)
  {
    s := SmoothRun(cfg, schedule);
    AtMostOnceInLog(cfg, s);
    forall o | o in LogOutcomes(s.log) && !o.Success?
      ensures exists row :: row in Selected(cfg) && !Dispatchable(row) && o == SynthesizeTooLarge(row.seqNo)
    {
      FineOutcome(cfg, s, o);
    }
    if s.joined {
      FineIsDrained(cfg, s);
      DrainedCompleteIff(cfg, s);
      hide Fine, Reachable, ValidConfig, Complete, LogOutcomes, LogSeqs, Selected, Dispatchable, Aborted, Smooth;
      forall row | row in Selected(cfg) ensures HasSuccess(s.log, row) <==> Dispatchable(row) {
        SuccessIff(cfg, s, row);
      }
    }
  }

  lemma FineIsDrained(cfg: Config, s: State)
    requires Fine(cfg, s) && s.joined && cfg.WorkerCount() > 0
    ensures s.acc == AccDone(RowsDrained) && s.jobQ == [] && !LogFailure(s) && !Aborted(cfg, s)
  {
    assert s.workers[0].Stopped? && Well(s.workers[0]);
    forall w | 0 <= w < |s.workers| ensures s.workers[w] != Stopped(LogFailed) {
      assert Well(s.workers[w]);
    }
    hide AllSuccess, Oversized, Select, Fits, WorkerShape, Well;
    match s.acc.end
    case RowsDrained =>
    case CancelSeen =>
    case FlushCancelled =>
    case AccLogFailed =>
  }

  lemma SuccessIff(cfg: Config, s: State, row: Row)
    requires ValidConfig(cfg) && Reachable(cfg, s) && Fine(cfg, s) && Complete(cfg, s) && row in Selected(cfg)
    ensures HasSuccess(s.log, row) <==> Dispatchable(row)
  {
    hide Fine, Reachable, ValidConfig, Complete, LogOutcomes, Selected, Dispatchable;
    if o :| o in LogOutcomes(s.log) && o.seqNo == row.seqNo && o.Success? {
      var same := PipelineLines.SuccessIsOfProperSize(cfg, s, o);
      NumbersAreUnique(cfg, same, row);
    }
    if Dispatchable(row) {
      var o := OneOutcome(cfg, s, row);
      FineOutcome(cfg, s, o);
      if !o.Success? {
        var big :| big in Selected(cfg) && !Dispatchable(big) && o == SynthesizeTooLarge(big.seqNo);
        NumbersAreUnique(cfg, big, row);
      }
    }
  }
}
