/**
 Termination, absence of deadlock, cancel safety and backpressure of the
 pipeline, over every interleaving of its tasks.
 */
module PipelineLive {
  import opened Base
  import opened Protocol
  import opened Batching
  import opened WorkerLines
  import opened Pipeline
  import opened PipelineSafety
  import opened PipelineAccount
  import opened PipelineComplete

  // ------------------------------------------------------------------
  // A measure that every action lowers
  // ------------------------------------------------------------------

  function WorkerWeight(p: WorkerPhase): nat {
    match p
    case Idle => 4
    case Sending(batch) => 10 * |batch|
    case Waiting(batch) => 9 * |batch|
    case Recording(batch, _, _) => 8 * |batch|
    case Stopped(_) => 0
  }

  function WorkersWeight(ws: seq<WorkerPhase>): nat {
    if ws == [] then 0 else WorkerWeight(ws[0]) + WorkersWeight(ws[1..])
  }

  lemma {:induction false} WeightUpdate(ws: seq<WorkerPhase>, w: nat, p: WorkerPhase)
    requires w < |ws|
    ensures WorkersWeight(ws[w := p]) + WorkerWeight(ws[w]) == WorkersWeight(ws) + WorkerWeight(p)
  {
    if w == 0 {
      assert ws[w := p][1..] == ws[1..];
    } else {
      assert ws[w := p][1..] == ws[1..][w - 1 := p];
      WeightUpdate(ws[1..], w - 1, p);
    }
  }

  function ReaderWeight(r: ReaderPhase): nat {
    match r case Reading => 1 case Holding(_) => 18 case ReaderDone => 0
  }

  function AccWeight(acc: AccPhase): nat {
    match acc
    case Receiving => 3
    case Rejecting(_) => 18
    case FlushThen(_) => 18
    case FlushFull => 2
    case FlushEof => 1
    case AccDone(_) => 0
  }

  function Bit(b: bool): nat { if b then 1 else 0 }

  /** What has not reached the job queue. */
  function Inflow(s: State): nat {
    20 * |s.items| + ReaderWeight(s.reader) + 16 * |s.rowQ| + AccWeight(s.acc) + 15 * |s.pending|
  }

  function Measure(s: State): nat {
    Inflow(s) + 12 * |Flatten(s.jobQ)| + Bit(s.lock.None?) + WorkersWeight(s.workers)
    + Bit(!s.cancelled) + Bit(!s.hard) + Bit(!s.joined)
  }

  ghost predicate SameBelow(s: State, t: State) {
    && t.lock == s.lock && t.workers == s.workers
    && t.cancelled == s.cancelled && t.hard == s.hard && t.joined == s.joined
  }

  lemma InflowMeasure(s: State, t: State)
    requires SameBelow(s, t)
    requires Inflow(t) + 12 * |Flatten(t.jobQ)| < Inflow(s) + 12 * |Flatten(s.jobQ)|
    ensures Measure(t) < Measure(s)
  {
    hide Flatten, WorkersWeight, Inflow, Bit;
  }

  lemma ReaderMeasure(cfg: Config, s: State)
    requires s.reader.Reading?
    ensures Measure(DoReaderNext(cfg, s)) < Measure(s)
  {
    ReaderNextFrame(cfg, s);
    ReaderInflow(cfg, s);
    hide Measure, DoReaderNext, Inflow, Flatten;
    InflowMeasure(s, DoReaderNext(cfg, s));
  }

  lemma ReaderInflow(cfg: Config, s: State)
    requires s.reader.Reading?
    ensures Inflow(DoReaderNext(cfg, s)) < Inflow(s)
  {
    hide Config.Wants, Config.AtLimit, AccWeight;
  }

  lemma SendMeasure(s: State)
    requires s.reader.Holding?
    ensures Measure(DoReaderSend(s)) < Measure(s)
  {
    hide Flatten, WorkersWeight;
  }

  lemma AccMeasure(s: State, t: State)
    requires TakesIn(s, t)
    requires AccWeight(t.acc) + 15 * |t.pending| + 16 * |t.rowQ| < AccWeight(s.acc) + 15 * |s.pending| + 16 * |s.rowQ|
    ensures Measure(t) < Measure(s)
  {
    hide Measure, Flatten, AccWeight;
    InflowMeasure(s, t);
  }

  lemma FlushMeasure(cfg: Config, s: State)
    requires Flushing(s.acc) && s.pending != []
    ensures Measure(DoAccFlush(cfg, s)) < Measure(s)
  {
    var t := DoAccFlush(cfg, s);
    FlushFrame(cfg, s);
    FlattenSnoc(s.jobQ, s.pending);
    FlushInflow(cfg, s);
    hide Measure, DoAccFlush, Inflow, Flatten;
    InflowMeasure(s, t);
  }

  lemma FlushInflow(cfg: Config, s: State)
    requires Flushing(s.acc) && s.pending != []
    ensures var t := DoAccFlush(cfg, s);
      Inflow(t) + (if t.jobQ == s.jobQ then 0 else 12 * |s.pending|) < Inflow(s)
  {
    hide Runtime.MaxCount, ReaderWeight;
  }

  lemma RejectMeasure(s: State, ok: bool)
    requires s.acc.Rejecting?
    ensures Measure(DoAccReject(s, ok)) < Measure(s)
  {
    hide Flatten, WorkersWeight;
  }

  lemma PullMeasure(s: State, w: nat)
    requires w < |s.workers| && s.lock == Some(w) && s.workers[w].Idle?
    requires s.jobQ != [] ==> s.jobQ[0] != []
    ensures Measure(DoPull(s, w)) < Measure(s)
  {
    assert s.jobQ != [] ==> |Flatten(s.jobQ)| == |s.jobQ[0]| + |Flatten(s.jobQ[1..])|;
    WeightUpdate(s.workers, w, DoPull(s, w).workers[w]);
    hide Flatten, WorkersWeight;
  }

  lemma BusyMeasure(s: State, t: State, w: nat, p: WorkerPhase)
    requires w < |s.workers| && WorkerWeight(p) < WorkerWeight(s.workers[w])
    requires t == SetWorker(s.(log := t.log, lost := t.lost), w, p)
    ensures Measure(t) < Measure(s)
  {
    WeightUpdate(s.workers, w, p);
    hide Flatten, WorkersWeight, WorkerWeight;
  }

  lemma FlagMeasure(cfg: Config, s: State, a: Action)
    requires Enabled(cfg, s, a) && (a.Lock? || a.Cancel? || a.Stall? || a.Join?)
    ensures Measure(Apply(cfg, s, a)) < Measure(s)
  {
    hide Flatten, WorkersWeight, TasksDone;
  }

  lemma MeetMeasure(cfg: Config, s: State)
    requires s.acc.Receiving? && s.rowQ != []
    ensures Measure(AccMeet(cfg, s)) < Measure(s)
  {
    hide Measure, Overflows, Dispatchable, Runtime.MaxCount;
    MeetFrame(cfg, s);
    AccMeasure(s, AccMeet(cfg, s));
  }

  lemma ReceiveMeasure(cfg: Config, s: State)
    requires Enabled(cfg, s, AccReceive)
    ensures Measure(DoAccReceive(cfg, s)) < Measure(s)
  {
    hide Measure;
    if s.cancelled || s.rowQ == [] {
      ReceiveFrame(cfg, s);
      AccMeasure(s, DoAccReceive(cfg, s));
    } else {
      MeetMeasure(cfg, s);
    }
  }

  lemma AppendMeasure(s: State, w: nat, ok: bool)
    requires w < |s.workers| && s.workers[w].Recording? && s.workers[w].batch != []
    ensures Measure(DoAppend(s, w, ok)) < Measure(s)
  {
    hide Measure;
    BusyMeasure(s, DoAppend(s, w, ok), w, DoAppend(s, w, ok).workers[w]);
  }

  lemma BusyDrops(cfg: Config, s: State, a: Action)
    requires Enabled(cfg, s, a) && (a.Write? || a.Answer? || a.CutRecv?)
    ensures Measure(Apply(cfg, s, a)) < Measure(s)
  {
    BusyFrame(cfg, s, a);
    hide Measure, CrashLine, ReplyLine;
    BusyMeasure(s, Apply(cfg, s, a), a.w, Apply(cfg, s, a).workers[a.w]);
  }

  lemma MeasureDrops(cfg: Config, s: State, a: Action)
    requires Inv(cfg, s) && Enabled(cfg, s, a)
    ensures Measure(Apply(cfg, s, a)) < Measure(s)
  {
    hide Measure, CrashLine, ReplyLine;
    match a
    case ReaderNext => ReaderMeasure(cfg, s);
    case ReaderSend => SendMeasure(s);
    case AccReceive => ReceiveMeasure(cfg, s);
    case AccFlush => FlushMeasure(cfg, s);
    case AccReject(ok) => RejectMeasure(s, ok);
    case Pull(w) => PullMeasure(s, w);
    case Lock(_) => FlagMeasure(cfg, s, a);
    case Cancel(_) => FlagMeasure(cfg, s, a);
    case Stall => FlagMeasure(cfg, s, a);
    case Join => FlagMeasure(cfg, s, a);
    case Write(_, _) => BusyDrops(cfg, s, a);
    case Answer(_, _) => BusyDrops(cfg, s, a);
    case CutRecv(_) => BusyDrops(cfg, s, a);
    case Append(w, ok) => AppendMeasure(s, w, ok);
  }

  lemma {:induction false} ExecMeasure(cfg: Config, s: State, schedule: seq<Action>)
    requires cfg.runtime.Validates() && Inv(cfg, s) && Exec(cfg, s, schedule).Some?
    ensures |schedule| + Measure(Exec(cfg, s, schedule).value) <= Measure(s)
    decreases |schedule|
  {
    if schedule != [] {
      InvStep(cfg, s, schedule[0]);
      MeasureDrops(cfg, s, schedule[0]);
      ExecMeasure(cfg, Apply(cfg, s, schedule[0]), schedule[1..]);
    }
  }

  lemma {:induction false} IdleWeight(ws: seq<WorkerPhase>)
    requires forall i :: 0 <= i < |ws| ==> ws[i] == Idle
    ensures WorkersWeight(ws) == 4 * |ws|
  {
    if ws != [] {
      IdleWeight(ws[1..]);
    }
  }

  /** Every run is finite, and its length is bounded by the input and the worker count alone. */
  lemma RunsTerminate(cfg: Config, schedule: seq<Action>)
    requires ValidConfig(cfg) && Exec(cfg, Init(cfg), schedule).Some?
    ensures |schedule| <= 20 * |cfg.items| + 4 * cfg.WorkerCount() + 8
  {
    InitInv(cfg);
    ExecMeasure(cfg, Init(cfg), schedule);
    IdleWeight(Init(cfg).workers);
  }

  // ------------------------------------------------------------------
  // No deadlock
  // ------------------------------------------------------------------

  /** Actions of the tasks themselves, as opposed to a cancel from outside or from the monitor. */
  predicate OfATask(a: Action) { !a.Cancel? && !a.Stall? }

  ghost predicate CanStep(cfg: Config, s: State) {
    exists a :: OfATask(a) && Enabled(cfg, s, a)
  }

  /** Every worker has left and the accumulator faces a full job queue that nobody will drain. */
  predicate Wedged(s: State) {
    && !s.cancelled
    && AllStopped(s.workers)
    && Flushing(s.acc) && |s.jobQ| == JOB_CHANNEL_CAP
    && (s.reader.ReaderDone? || (s.reader.Holding? && |s.rowQ| == ROW_CHANNEL_CAP))
  }

  lemma WorkerCanStep(cfg: Config, s: State, w: nat)
    requires Inv(cfg, s) && w < |s.workers| && !s.workers[w].Stopped?
    ensures CanStep(cfg, s) || (!s.cancelled && s.jobQ == [] && !s.acc.AccDone?)
  {
    match s.workers[w]
    case Idle =>
      if s.lock.None? {
        assert Enabled(cfg, s, Lock(w));
      } else if s.cancelled || s.jobQ != [] || s.acc.AccDone? {
        assert Enabled(cfg, s, Pull(s.lock.value));
      }
    case Sending(_) => assert Enabled(cfg, s, Write(w, true));
    case Waiting(_) =>
      if s.cancelled {
        assert Enabled(cfg, s, CutRecv(w));
      } else {
        assert Enabled(cfg, s, Answer(w, Reply.Eof));
      }
    case Recording(_, _, _) => assert Enabled(cfg, s, Append(w, true));
    case Stopped(_) =>
  }

  lemma AccCanStep(cfg: Config, s: State)
    requires Inv(cfg, s) && !s.acc.AccDone?
    ensures CanStep(cfg, s) || !s.cancelled
    ensures CanStep(cfg, s) || (s.acc.Receiving? && s.rowQ == [] && !s.reader.ReaderDone?)
         || (Flushing(s.acc) && |s.jobQ| == JOB_CHANNEL_CAP)
  {
    if s.acc.Rejecting? {
      assert Enabled(cfg, s, AccReject(true));
    } else if s.acc.Receiving? && Enabled(cfg, s, AccReceive) {
      assert OfATask(AccReceive);
    } else if Flushing(s.acc) && Enabled(cfg, s, AccFlush) {
      assert OfATask(AccFlush);
    }
  }

  lemma ReaderCanStep(cfg: Config, s: State)
    requires Inv(cfg, s) && !s.reader.ReaderDone?
    ensures CanStep(cfg, s)
         || (!s.cancelled && !s.acc.AccDone? && s.reader.Holding? && |s.rowQ| == ROW_CHANNEL_CAP)
  {
    if s.reader.Reading? {
      assert Enabled(cfg, s, ReaderNext);
    } else if Enabled(cfg, s, ReaderSend) {
      assert OfATask(ReaderSend);
    }
  }

  /**
   The pipeline is blocked exactly when it is wedged: short of that, some task
   can always move, given that handler writes return and handlers answer.
   */
  lemma BlockedIffWedged(cfg: Config, s: State)
    requires ValidConfig(cfg) && Reachable(cfg, s) && !s.joined
    ensures !CanStep(cfg, s) <==> Wedged(s)
  {
    Conservation(cfg, s);
    if !CanStep(cfg, s) {
      if !s.reader.ReaderDone? { ReaderCanStep(cfg, s); }
      if !s.acc.AccDone? { AccCanStep(cfg, s); }
      forall w | 0 <= w < |s.workers| ensures s.workers[w].Stopped? {
        if !s.workers[w].Stopped? { WorkerCanStep(cfg, s, w); }
      }
      if TasksDone(s) {
        assert Enabled(cfg, s, Join) && OfATask(Join);
      }
    }
  }

  lemma WorkerUnblocked(cfg: Config, s: State, w: nat)
    requires Inv(cfg, s) && s.cancelled && w < |s.workers| && !s.workers[w].Stopped?
    ensures Enabled(cfg, s, Lock(w)) || (s.lock.Some? && Enabled(cfg, s, Pull(s.lock.value)))
      || Enabled(cfg, s, Write(w, true)) || Enabled(cfg, s, CutRecv(w)) || Enabled(cfg, s, Append(w, true))
  {
    hide AccShape, Causes;
  }

  /** Once cancel has fired, no full queue can hold any task: the run can always go on until it has joined. */
  lemma CancelAlwaysUnblocks(cfg: Config, s: State)
    requires ValidConfig(cfg) && Reachable(cfg, s) && s.cancelled && !s.joined
    ensures CanStep(cfg, s)
    ensures !s.reader.ReaderDone? ==> Enabled(cfg, s, ReaderNext) || Enabled(cfg, s, ReaderSend)
    ensures !s.acc.AccDone? ==>
      Enabled(cfg, s, AccReceive) || Enabled(cfg, s, AccFlush) || Enabled(cfg, s, AccReject(true))
    ensures forall w :: 0 <= w < |s.workers| && !s.workers[w].Stopped? ==>
      Enabled(cfg, s, Lock(w)) || (s.lock.Some? && Enabled(cfg, s, Pull(s.lock.value)))
      || Enabled(cfg, s, Write(w, true)) || Enabled(cfg, s, CutRecv(w)) || Enabled(cfg, s, Append(w, true))
  {
    BlockedIffWedged(cfg, s);
    Conservation(cfg, s);
    hide Reachable, ValidConfig, CanStep, Fits, AccShape;
    forall w | 0 <= w < |s.workers| && !s.workers[w].Stopped?
      ensures Enabled(cfg, s, Lock(w)) || (s.lock.Some? && Enabled(cfg, s, Pull(s.lock.value)))
        || Enabled(cfg, s, Write(w, true)) || Enabled(cfg, s, CutRecv(w)) || Enabled(cfg, s, Append(w, true))
    {
      WorkerUnblocked(cfg, s, w);
      hide *;
    }
    hide Inv;
  }

  /** A run that no task can extend has joined, or waits, wedged, for the monitor or the operator to cancel it. */
  lemma MaximalRunsJoin(cfg: Config, s: State)
    requires ValidConfig(cfg) && Reachable(cfg, s) && !CanStep(cfg, s)
    ensures s.joined || (Wedged(s) && Enabled(cfg, s, Stall))
  {
    if !s.joined {
      BlockedIffWedged(cfg, s);
    }
  }

  // ------------------------------------------------------------------
  // Backpressure
  // ------------------------------------------------------------------

  lemma {:induction false} FlattenBound<T>(xss: seq<seq<T>>, n: nat)
    requires forall i :: 0 <= i < |xss| ==> |xss[i]| <= n
    ensures |Flatten(xss)| <= |xss| * n
  {
    if xss != [] {
      FlattenBound(xss[1..], n);
      assert |xss| * n == n + (|xss| - 1) * n;
    }
  }

  /** Rows read from the input that are neither in the log nor dropped. */
  function InTransit(s: State): nat {
    |HeldByReader(s.reader)| + |s.rowQ| + |HeldByAcc(s.acc)| + |s.pending|
    + |Flatten(s.jobQ)| + |Flatten(InHands(s.workers))|
  }

  lemma QueueBound(jobs: nat, workers: nat, c: nat)
    requires jobs <= 64
    ensures jobs * c + c + workers * c <= (65 + workers) * c
  {
    assert (65 + workers) * c == (64 - jobs) * c + jobs * c + c + workers * c;
  }

  lemma PlacesBound(cfg: Config, s: State)
    requires Inv(cfg, s) && cfg.runtime.Validates()
    ensures |s.rowQ| <= 64 && |s.jobQ| <= 64 && |s.workers| == cfg.WorkerCount()
    ensures |HeldByAcc(s.acc)| + |s.pending| <= cfg.runtime.MaxCount()
    ensures forall i :: 0 <= i < |s.jobQ| ==> |s.jobQ[i]| <= cfg.runtime.MaxCount()
    ensures forall i :: 0 <= i < |s.workers| ==> |InHand(s.workers[i])| <= cfg.runtime.MaxCount()
  {
  }

  /** However large the input, this many rows are in memory at most. */
  lemma Backpressure(cfg: Config, s: State)
    requires ValidConfig(cfg) && Reachable(cfg, s)
    ensures InTransit(s) <= 65 + (65 + cfg.WorkerCount()) * cfg.runtime.MaxCount()
  {
    Conservation(cfg, s);
    PlacesBound(cfg, s);
    hide Inv, Reachable, ValidConfig, Flatten;
    var c := cfg.runtime.MaxCount();
    FlattenBound(s.jobQ, c);
    FlattenBound(InHands(s.workers), c);
    QueueBound(|s.jobQ|, cfg.WorkerCount(), c);
  }

  // ------------------------------------------------------------------
  // After the cancel
  // ------------------------------------------------------------------

  function Owes(p: WorkerPhase): nat { Bit(InHand(p) != []) }

  /** Lines still to be written: one for each batch in a worker's hands, one for a row being rejected. */
  function LinesOwed(ws: seq<WorkerPhase>): nat {
    if ws == [] then 0 else Owes(ws[0]) + LinesOwed(ws[1..])
  }

  function Owed(s: State): nat { LinesOwed(s.workers) + Bit(s.acc.Rejecting?) }

  lemma {:induction false} OwedUpdate(ws: seq<WorkerPhase>, w: nat, p: WorkerPhase)
    requires w < |ws|
    ensures LinesOwed(ws[w := p]) + Owes(ws[w]) == LinesOwed(ws) + Owes(p)
  {
    if w == 0 {
      assert ws[w := p][1..] == ws[1..];
    } else {
      assert ws[w := p][1..] == ws[1..][w - 1 := p];
      OwedUpdate(ws[1..], w - 1, p);
    }
  }

  lemma {:induction false} OwedBound(ws: seq<WorkerPhase>)
    ensures LinesOwed(ws) <= |ws|
  {
    if ws != [] {
      OwedBound(ws[1..]);
    }
  }

  /** What a step leaves alone once cancel has fired. */
  ghost predicate Quiet(s: State, t: State) {
    && t.cancelled
    && t.sent == s.sent && t.jobQ == s.jobQ
    && (t.rowQ == s.rowQ || t.rowQ == [])
    && s.log <= t.log
    && |t.log| + Owed(t) <= |s.log| + Owed(s)
  }

  lemma QuietWorker(s: State, t: State, w: nat, p: WorkerPhase)
    requires s.cancelled && w < |s.workers|
    requires t == SetWorker(s.(lock := t.lock, log := t.log, lost := t.lost), w, p)
    requires s.log <= t.log && |t.log| + Owes(p) <= |s.log| + Owes(s.workers[w])
    ensures Quiet(s, t)
  {
    OwedUpdate(s.workers, w, p);
    hide LinesOwed, Owes;
  }

  lemma QuietPhases(cfg: Config, s: State, a: Action)
    requires Inv(cfg, s) && Enabled(cfg, s, a) && s.cancelled
    requires a.Pull? || a.Write? || a.CutRecv? || a.Append?
    ensures a.w < |s.workers| && a.w < |Apply(cfg, s, a).workers|
    ensures var t, p := Apply(cfg, s, a), Apply(cfg, s, a).workers[a.w];
      && t == SetWorker(s.(lock := t.lock, log := t.log, lost := t.lost), a.w, p)
      && s.log <= t.log && |t.log| + Owes(p) <= |s.log| + Owes(s.workers[a.w])
  {
    hide CrashLine, ReplyLine, Causes, AccShape;
  }

  lemma QuietTaken(cfg: Config, s: State, a: Action)
    requires Inv(cfg, s) && Enabled(cfg, s, a) && s.cancelled
    requires a.Pull? || a.Write? || a.CutRecv? || a.Append?
    ensures Quiet(s, Apply(cfg, s, a))
  {
    QuietPhases(cfg, s, a);
    hide Apply, Enabled, Inv, Owes;
    QuietWorker(s, Apply(cfg, s, a), a.w, Apply(cfg, s, a).workers[a.w]);
  }

  lemma QuietStep(cfg: Config, s: State, a: Action)
    requires Inv(cfg, s) && Enabled(cfg, s, a) && s.cancelled
    ensures Quiet(s, Apply(cfg, s, a))
  {
    hide *;
    if a.Pull? || a.Write? || a.CutRecv? || a.Append? {
      QuietTaken(cfg, s, a);
    } else if a.AccReceive? || a.AccFlush? || a.AccReject? {
      QuietAcc(cfg, s, a);
    } else {
      QuietOther(cfg, s, a);
    }
  }

  lemma ReturnsOnCancel(cfg: Config, s: State, a: Action)
    requires Enabled(cfg, s, a) && s.cancelled && (a.AccReceive? || a.AccFlush? || a.AccReject?)
    ensures var t := Apply(cfg, s, a);
      t.jobQ == s.jobQ && t.sent == s.sent && (t.rowQ == s.rowQ || t.rowQ == []) && !t.acc.Rejecting?
  {
    hide Overflows, Dispatchable, Runtime.MaxCount, TooLargeLine;
  }

  lemma QuietAcc(cfg: Config, s: State, a: Action)
    requires Enabled(cfg, s, a) && s.cancelled && (a.AccReceive? || a.AccFlush? || a.AccReject?)
    ensures Quiet(s, Apply(cfg, s, a))
  {
    AccumulatorActs(cfg, s, a);
    ReturnsOnCancel(cfg, s, a);
    hide Apply, Enabled, LinesOwed, TooLargeLine;
  }

  lemma QuietOther(cfg: Config, s: State, a: Action)
    requires Enabled(cfg, s, a) && s.cancelled
    requires a.ReaderNext? || a.ReaderSend? || a.Lock? || a.Answer? || a.Cancel? || a.Stall? || a.Join?
    ensures Quiet(s, Apply(cfg, s, a))
  {
    hide LinesOwed;
  }

  lemma {:induction false} QuietExec(cfg: Config, s: State, schedule: seq<Action>)
    requires cfg.runtime.Validates() && Inv(cfg, s) && s.cancelled && Exec(cfg, s, schedule).Some?
    ensures Quiet(s, Exec(cfg, s, schedule).value)
    decreases |schedule|
  {
    if schedule != [] {
      InvStep(cfg, s, schedule[0]);
      QuietStep(cfg, s, schedule[0]);
      QuietExec(cfg, Apply(cfg, s, schedule[0]), schedule[1..]);
    }
  }

  /** After the cancel no row or batch is enqueued or pulled, and at most W + 1 lines follow. */
  lemma CancelSafety(cfg: Config, s: State, schedule: seq<Action>)
    requires ValidConfig(cfg) && Reachable(cfg, s) && s.cancelled && Exec(cfg, s, schedule).Some?
    ensures var t := Exec(cfg, s, schedule).value;
      && t.sent == s.sent && t.jobQ == s.jobQ && (t.rowQ == s.rowQ || t.rowQ == [])
      && s.log <= t.log && |t.log| <= |s.log| + cfg.WorkerCount() + 1
  {
    Conservation(cfg, s);
    QuietExec(cfg, s, schedule);
    OwedBound(s.workers);
  }
}
