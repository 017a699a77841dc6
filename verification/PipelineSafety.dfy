/**
 What every reachable state of the pipeline keeps: shapes and bounds, why a
 row can be dropped, conservation of rows, and what a finished run recorded.
 */
module PipelineSafety {
  import opened Protocol
  import opened Batching
  import opened WorkerLines
  import opened Pipeline

  ghost predicate ValidConfig(cfg: Config) {
    && cfg.runtime.Validates()
    && Increasing(Parsed(cfg.items))
  }

  // ------------------------------------------------------------------
  // Shape: what each task and queue may hold
  // ------------------------------------------------------------------

  ghost predicate WorkerShape(caps: Caps, p: WorkerPhase) {
    match p
    case Idle => true
    case Sending(batch) => Fits(caps, batch)
    case Waiting(batch) => Fits(caps, batch)
    case Recording(batch, line, end) =>
      && Fits(caps, batch)
      && line.seqs == OutcomeSeqs(line.outcomes) == Seqs(batch)
      && (end.Some? ==> end.value == WriteFailed || end.value == CutOff)
    case Stopped(_) => true
  }

  ghost predicate AccShape(cfg: Config, s: State) {
    var caps := CapsOf(cfg.runtime);
    && s.pendingBytes == Bytes(s.pending)
    && match s.acc
       case Receiving => Growing(caps, s.pending)
       case Rejecting(row) => Growing(caps, s.pending) && !Dispatchable(row)
       case FlushThen(row) =>
         Growing(caps, s.pending) && Dispatchable(row) && Overflows(cfg.runtime, s.pending, s.pendingBytes, row)
       case FlushFull => Fits(caps, s.pending) && |s.pending| == caps.count
       case FlushEof => s.pending != [] && Growing(caps, s.pending) && s.rowQ == [] && s.reader.ReaderDone?
       case AccDone(_) => s.pending == [] && s.rowQ == []
  }

  ghost predicate Shape(cfg: Config, s: State) {
    var caps := CapsOf(cfg.runtime);
    && |s.workers| == cfg.WorkerCount()
    && (forall w :: 0 <= w < |s.workers| ==> WorkerShape(caps, s.workers[w]))
    && (s.lock.Some? ==> s.lock.value < |s.workers| && s.workers[s.lock.value].Idle?)
    && |s.rowQ| <= ROW_CHANNEL_CAP
    && |s.jobQ| <= JOB_CHANNEL_CAP
    && (forall i :: 0 <= i < |s.jobQ| ==> Fits(caps, s.jobQ[i]))
    && (forall i :: 0 <= i < |s.sent| ==> Fits(caps, s.sent[i]))
    && AccShape(cfg, s)
  }

  // ------------------------------------------------------------------
  // Causes: why a task ended early or a row was dropped
  // ------------------------------------------------------------------

  predicate LogFailure(s: State) {
    SomeWorkerLogFailed(s.workers) || s.acc == AccDone(AccLogFailed)
  }

  /** Something other than the end of input stopped part of the pipeline. */
  predicate Disturbed(s: State) { s.stalled || s.operator || LogFailure(s) }

  ghost predicate Causes(cfg: Config, s: State) {
    && (s.cancelled <==> s.stalled || s.operator || s.joined)
    && (s.operator ==> cfg.external)
    && (s.joined ==> TasksDone(s))
    && (s.lost != [] ==> Disturbed(s))
    && (s.acc == AccDone(CancelSeen) || s.acc == AccDone(FlushCancelled) ==> s.stalled || s.operator)
    && (s.acc == AccDone(RowsDrained) ==> s.reader.ReaderDone?)
    && (s.reader.ReaderDone? ==> Disturbed(s) || Select(cfg, s.items, s.emitted) == [])
    && (forall w :: 0 <= w < |s.workers| && s.workers[w] == Stopped(Drained) ==> s.acc.AccDone? && s.jobQ == [])
  }

  ghost predicate Inv(cfg: Config, s: State) { Shape(cfg, s) && Causes(cfg, s) }

  lemma InitInv(cfg: Config)
    requires ValidConfig(cfg)
    ensures Inv(cfg, Init(cfg))
  {
  }

  lemma ReaderFrame(cfg: Config, s: State, t: State)
    requires Inv(cfg, s) && !s.reader.ReaderDone?
    requires t == s.(items := t.items, emitted := t.emitted, reader := t.reader)
    requires t.reader.ReaderDone? ==> Disturbed(s) || Select(cfg, t.items, t.emitted) == []
    ensures Inv(cfg, t)
  {
  }

  lemma NextStep(cfg: Config, s: State)
    requires Inv(cfg, s) && s.reader.Reading?
    ensures Inv(cfg, DoReaderNext(cfg, s))
  {
    assert s.cancelled ==> Disturbed(s);
    hide Inv;
    ReaderFrame(cfg, s, DoReaderNext(cfg, s));
  }

  lemma SendStep(cfg: Config, s: State)
    requires Inv(cfg, s) && Enabled(cfg, s, ReaderSend)
    ensures Inv(cfg, DoReaderSend(s))
  {
    assert !s.joined;
    if s.acc.AccDone? {
      match s.acc.end {
        case RowsDrained =>
        case CancelSeen =>
        case FlushCancelled =>
        case AccLogFailed =>
      }
    }
  }

  /** The accumulator returning leaves a well-shaped, explained state. */
  lemma AccExitStep(cfg: Config, s: State, end: AccEnd, held: seq<Row>)
    requires Shape(cfg, s) && Causes(cfg, s) && !s.acc.AccDone?
    requires end == RowsDrained ==> s.pending == [] && held == [] && s.rowQ == [] && s.reader.ReaderDone?
    requires end == CancelSeen || end == FlushCancelled ==> s.cancelled
    ensures Inv(cfg, AccExit(s, end, held))
  {
  }

  lemma AccPushStep(cfg: Config, s: State, row: Row)
    requires cfg.runtime.Validates() && !s.acc.AccDone? && Causes(cfg, s)
    requires Shape(cfg, s.(acc := Receiving))
    requires Dispatchable(row) && !Overflows(cfg.runtime, s.pending, s.pendingBytes, row)
    ensures Inv(cfg, AccPush(cfg, s, row))
  {
    BytesSnoc(s.pending, row);
  }

  lemma AccReceiveStep(cfg: Config, s: State)
    requires cfg.runtime.Validates() && Inv(cfg, s) && Enabled(cfg, s, AccReceive)
    ensures Inv(cfg, DoAccReceive(cfg, s))
  {
    if s.cancelled {
      AccExitStep(cfg, s, CancelSeen, []);
    } else if s.rowQ != [] {
      var t := s.(rowQ := s.rowQ[1..]);
      if Dispatchable(s.rowQ[0]) && !Overflows(cfg.runtime, s.pending, s.pendingBytes, s.rowQ[0]) {
        AccPushStep(cfg, t, s.rowQ[0]);
      }
    } else if s.pending == [] {
      AccExitStep(cfg, s, RowsDrained, []);
    }
  }

  lemma AccFlushStep(cfg: Config, s: State)
    requires cfg.runtime.Validates() && Inv(cfg, s) && Enabled(cfg, s, AccFlush)
    ensures Inv(cfg, DoAccFlush(cfg, s))
  {
    if s.cancelled {
      AccExitStep(cfg, s, FlushCancelled, HeldByAcc(s.acc));
    } else {
      var t := s.(jobQ := s.jobQ + [s.pending], sent := s.sent + [s.pending], pending := [], pendingBytes := 0);
      assert forall i :: 0 <= i < |t.sent| ==> i < |s.sent| || t.sent[i] == s.pending;
      match s.acc
      case FlushThen(row) => AccPushStep(cfg, t, row);
      case FlushFull =>
      case FlushEof => AccExitStep(cfg, t.(acc := Receiving), RowsDrained, []);
    }
  }

  lemma RejectStep(cfg: Config, s: State, ok: bool)
    requires Inv(cfg, s) && s.acc.Rejecting?
    ensures Inv(cfg, DoAccReject(s, ok))
  {
    if !ok {
      AccExitStep(cfg, s, AccLogFailed, [s.acc.row]);
    }
  }

  lemma SomeLogFailedKept(s: State, w: nat, p: WorkerPhase)
    requires w < |s.workers| && !s.workers[w].Stopped?
    ensures SomeWorkerLogFailed(s.workers) ==> SomeWorkerLogFailed(s.workers[w := p])
    ensures p == Stopped(LogFailed) ==> SomeWorkerLogFailed(s.workers[w := p])
  {
    if i :| 0 <= i < |s.workers| && s.workers[i] == Stopped(LogFailed) {
      assert s.workers[w := p][i] == Stopped(LogFailed);
    }
    assert s.workers[w := p][w] == p;
  }

  lemma PullStep(cfg: Config, s: State, w: nat)
    requires Inv(cfg, s) && Enabled(cfg, s, Pull(w))
    ensures Inv(cfg, DoPull(s, w))
  {
    var t := DoPull(s, w);
    SomeLogFailedKept(s, w, t.workers[w]);
    assert !s.joined && !s.workers[w].Stopped?;
  }

  lemma AppendStep(cfg: Config, s: State, w: nat, ok: bool)
    requires Inv(cfg, s) && Enabled(cfg, s, Append(w, ok))
    ensures Inv(cfg, DoAppend(s, w, ok))
  {
    var t := DoAppend(s, w, ok);
    SomeLogFailedKept(s, w, t.workers[w]);
    assert !s.joined && !s.workers[w].Stopped?;
  }

  /** A step of one busy worker that touches nothing else. */
  lemma BusyStep(cfg: Config, s: State, w: nat, p: WorkerPhase)
    requires Inv(cfg, s) && w < |s.workers| && WorkerShape(CapsOf(cfg.runtime), p)
    requires !s.workers[w].Stopped? && !s.workers[w].Idle? && !p.Stopped? && !p.Idle?
    ensures Inv(cfg, SetWorker(s, w, p))
  {
    SomeLogFailedKept(s, w, p);
    assert !s.joined && !s.workers[w].Stopped?;
  }

  lemma FlagStep(cfg: Config, s: State, a: Action)
    requires Inv(cfg, s) && Enabled(cfg, s, a) && (a.Lock? || a.Cancel? || a.Stall? || a.Join?)
    ensures Inv(cfg, Apply(cfg, s, a))
  {
  }

  lemma InvStep(cfg: Config, s: State, a: Action)
    requires cfg.runtime.Validates() && Inv(cfg, s) && Enabled(cfg, s, a)
    ensures Inv(cfg, Apply(cfg, s, a))
  {
    hide CrashLine, ReplyLine;
    match a
    case ReaderNext => NextStep(cfg, s);
    case ReaderSend => SendStep(cfg, s);
    case AccReceive => AccReceiveStep(cfg, s);
    case AccFlush => AccFlushStep(cfg, s);
    case AccReject(ok) => RejectStep(cfg, s, ok);
    case Pull(w) => PullStep(cfg, s, w);
    case Write(w, _) => BusyStep(cfg, s, w, Apply(cfg, s, a).workers[w]);
    case Answer(w, _) => BusyStep(cfg, s, w, Apply(cfg, s, a).workers[w]);
    case CutRecv(w) => BusyStep(cfg, s, w, Apply(cfg, s, a).workers[w]);
    case Append(w, ok) => AppendStep(cfg, s, w, ok);
    case _ => FlagStep(cfg, s, a);
  }
}
