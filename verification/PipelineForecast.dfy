/**
 What can be told before a run starts: exactly which inputs can block the
 pipeline, and exactly which can end in an unflagged log with rows missing.
 */
module PipelineForecast {
  import opened Base
  import opened Protocol
  import opened WorkerLines
  import opened Pipeline
  import opened PipelineSafety
  import opened PipelineAccount
  import opened PipelineLive
  import opened PipelineBatches
  import opened PipelineComplete
  import opened PipelineReport
  import PipelineFlag

  // ------------------------------------------------------------------
  // Counting over the workers
  // ------------------------------------------------------------------

  function Total(f: WorkerPhase -> nat, ws: seq<WorkerPhase>): nat {
    if ws == [] then 0 else f(ws[0]) + Total(f, ws[1..])
  }

  lemma {:induction false} TotalUpdate(f: WorkerPhase -> nat, ws: seq<WorkerPhase>, w: nat, p: WorkerPhase)
    requires w < |ws|
    ensures Total(f, ws[w := p]) + f(ws[w]) == Total(f, ws) + f(p)
  {
    if w == 0 {
      assert ws[w := p][1..] == ws[1..];
    } else {
      assert ws[w := p][1..] == ws[1..][w - 1 := p];
      TotalUpdate(f, ws[1..], w - 1, p);
    }
  }

  lemma {:induction false} TotalSame(f: WorkerPhase -> nat, ws: seq<WorkerPhase>, c: nat)
    requires forall i :: 0 <= i < |ws| ==> f(ws[i]) == c
    ensures Total(f, ws) == c * |ws|
  {
    if ws != [] { TotalSame(f, ws[1..], c); }
  }

  /** The worker holds a batch, or its last batch was the end of it. */
  function UsesUp(p: WorkerPhase): nat {
    match p
    case Idle => 0
    case Sending(_) => 1
    case Waiting(_) => 1
    case Recording(_, _, _) => 1
    case Stopped(why) => if why == Drained || why == SawCancel then 0 else 1
  }

  /** The worker is back, or on its way back, to taking another batch. */
  function Returns(p: WorkerPhase): nat {
    match p
    case Idle => 1
    case Sending(_) => 0
    case Waiting(_) => 1
    case Recording(_, _, end) => if end.None? then 1 else 0
    case Stopped(_) => 0
  }

  // ------------------------------------------------------------------
  // Every worker that is busy or has died took a batch of its own
  // ------------------------------------------------------------------

  ghost predicate Booked(s: State) {
    && Total(UsesUp, s.workers) + |s.jobQ| <= |s.sent|
    && (s.workers == [] ==> |s.jobQ| == |s.sent|)
  }

  lemma WorkerBooks(cfg: Config, s: State, a: Action)
    requires Inv(cfg, s) && Enabled(cfg, s, a) && OfAWorker(a)
    ensures a.w < |s.workers| == |Apply(cfg, s, a).workers| && Apply(cfg, s, a).sent == s.sent
    ensures var t := Apply(cfg, s, a);
      UsesUp(t.workers[a.w]) + |t.jobQ| <= UsesUp(s.workers[a.w]) + |s.jobQ|
  {
    hide CrashLine, ReplyLine, Inv;
    match a
    case Pull(_) =>
    case Write(_, _) =>
    case Answer(_, _) =>
    case CutRecv(_) =>
    case Append(_, _) =>
  }

  lemma BookedStep(cfg: Config, s: State, a: Action)
    requires Inv(cfg, s) && Enabled(cfg, s, a) && Booked(s)
    ensures Booked(Apply(cfg, s, a))
  {
    if OfAWorker(a) {
      WorkerFrame(cfg, s, a);
      WorkerBooks(cfg, s, a);
      hide Apply, Enabled, Inv, Total, UsesUp;
      TotalUpdate(UsesUp, s.workers, a.w, Apply(cfg, s, a).workers[a.w]);
    } else if OfTheAccumulator(a) {
      AccumulatorFrame(cfg, s, a);
      AccumulatorBooks(cfg, s, a);
      hide Apply, Enabled, Inv, Total, UsesUp;
    } else {
      RestFrame(cfg, s, a);
      hide Apply, Enabled, Inv, Total, UsesUp;
    }
  }

  lemma {:induction false} ExecBooks(cfg: Config, s: State, schedule: seq<Action>)
    requires cfg.runtime.Validates() && Inv(cfg, s) && Booked(s) && Exec(cfg, s, schedule).Some?
    ensures Booked(Exec(cfg, s, schedule).value)
    decreases |schedule|
  {
    hide Inv, Booked, Apply, Enabled;
    if schedule != [] {
      InvStep(cfg, s, schedule[0]);
      BookedStep(cfg, s, schedule[0]);
      ExecBooks(cfg, Apply(cfg, s, schedule[0]), schedule[1..]);
    }
  }

  lemma BookedHolds(cfg: Config, s: State)
    requires ValidConfig(cfg) && Reachable(cfg, s)
    ensures Booked(s)
  {
    var schedule :| Exec(cfg, Init(cfg), schedule) == Some(s);
    InitInv(cfg);
    TotalSame(UsesUp, Init(cfg).workers, 0);
    hide Inv, Exec, Total;
    ExecBooks(cfg, Init(cfg), schedule);
  }

  /** A wedged run has lost a batch to each worker, filled the queue, and has one more to send. */
  lemma WedgedNeeds(cfg: Config, s: State)
    requires ValidConfig(cfg) && Reachable(cfg, s) && Wedged(s)
    ensures |Target(cfg)| >= 65 + cfg.WorkerCount()
  {
    Conservation(cfg, s);
    EndsHolds(cfg, s);
    BookedHolds(cfg, s);
    StillSending(cfg, s);
    hide Reachable, ValidConfig, Target;
    forall w | 0 <= w < |s.workers| ensures UsesUp(s.workers[w]) == 1 {
      assert s.workers[w].Stopped? && !CutShort(s.workers[w]);
    }
    TotalSame(UsesUp, s.workers, 1);
  }

  // ------------------------------------------------------------------
  // A run in which exactly so many batches are taken
  // ------------------------------------------------------------------

  /** Batches taken so far, and those that the workers still about will take at least. */
  function Level(s: State): int { |s.sent| - |s.jobQ| + Total(Returns, s.workers) }

  /** The worker has left after a failed write, or is about to. */
  predicate Lost(p: WorkerPhase) { p.Stopped? || (p.Recording? && p.end.Some?) }

  predicate ByWrite(p: WorkerPhase) {
    (p.Stopped? ==> p.why == WriteFailed) && (p.Recording? && p.end.Some? ==> p.end.value == WriteFailed)
  }

  /** Nothing but writes has failed, and none before the level reached the bound. */
  ghost predicate OnCourse(cfg: Config, bound: nat, s: State) {
    && Reachable(cfg, s) && !s.cancelled && s.acc != AccDone(AccLogFailed)
    && cfg.WorkerCount() <= Level(s) <= bound
    && forall w :: 0 <= w < |s.workers| ==> ByWrite(s.workers[w]) && (Lost(s.workers[w]) ==> Level(s) == bound)
  }

  /** The same action, choosing how things turn out: appends work, writes fail unless `writes`, handlers hang up. */
  function Chosen(a: Action, writes: bool): Action {
    match a
    case Write(w, _) => Write(w, writes)
    case Answer(w, _) => Answer(w, Reply.Eof)
    case Append(w, _) => Append(w, true)
    case AccReject(_) => AccReject(true)
    case _ => a
  }

  lemma NoLogFailure(cfg: Config, bound: nat, s: State)
    requires OnCourse(cfg, bound, s)
    ensures !LogFailure(s)
  {
    hide Level, Reachable;
    forall w | 0 <= w < |s.workers| ensures s.workers[w] != Stopped(LogFailed) {
      assert ByWrite(s.workers[w]);
    }
  }

  /** Before the last batch is taken the queue is not closed and empty. */
  lemma NotDrained(cfg: Config, bound: nat, s: State)
    requires ValidConfig(cfg) && OnCourse(cfg, bound, s) && bound < |Target(cfg)| && s.acc.AccDone?
    ensures s.acc == AccDone(RowsDrained) && s.jobQ != []
  {
    Conservation(cfg, s);
    NoLogFailure(cfg, bound, s);
    BatchesIndependentOfSchedule(cfg, s);
    hide Reachable, ValidConfig, Target, Total, Returns;
    match s.acc.end
    case RowsDrained =>
    case CancelSeen =>
    case FlushCancelled =>
    case AccLogFailed =>
  }

  /** What each outcome of a worker's step makes of its phase and the queue. */
  lemma PhaseLevel(cfg: Config, s: State, a: Action, writes: bool)
    requires Enabled(cfg, s, a) && OfAWorker(a) && a == Chosen(a, writes) && !s.cancelled && a.w < |s.workers|
    requires (a.Pull? ==> s.workers[a.w].Idle? && s.jobQ != []) && ByWrite(s.workers[a.w])
    ensures |s.workers| == |Apply(cfg, s, a).workers|
    ensures var t, p, q := Apply(cfg, s, a), s.workers[a.w], Apply(cfg, s, a).workers[a.w];
      && t.sent == s.sent && ByWrite(q)
      && |s.jobQ| - |t.jobQ| + Returns(q) - Returns(p) == (if a == Write(a.w, true) then 1 else 0)
      && (Lost(q) ==> Lost(p) || a == Write(a.w, false))
  {
    hide CrashLine, ReplyLine;
    match a
    case Pull(_) =>
    case Write(_, _) =>
    case Answer(_, _) =>
    case CutRecv(_) =>
    case Append(_, _) =>
  }

  lemma PullerIsIdle(cfg: Config, s: State, a: Action)
    requires Inv(cfg, s) && Enabled(cfg, s, a) && OfAWorker(a)
    ensures a.w < |s.workers| && (a.Pull? ==> s.workers[a.w].Idle? && (s.jobQ != [] || s.cancelled || s.acc.AccDone?))
  {
  }

  /** A worker's step raises the level by one when a write succeeds, and otherwise keeps it. */
  lemma WorkerLevel(cfg: Config, bound: nat, s: State, a: Action)
    requires ValidConfig(cfg) && OnCourse(cfg, bound, s) && bound < |Target(cfg)| && Inv(cfg, s)
    requires Enabled(cfg, s, a) && OfAWorker(a) && a == Chosen(a, Level(s) < bound)
    ensures a.w < |s.workers| == |Apply(cfg, s, a).workers|
    ensures var t, p, q := Apply(cfg, s, a), s.workers[a.w], Apply(cfg, s, a).workers[a.w];
      && t.sent == s.sent && ByWrite(q)
      && |s.jobQ| - |t.jobQ| + Returns(q) - Returns(p) == (if a == Write(a.w, true) then 1 else 0)
      && (Lost(q) ==> Lost(p) || a == Write(a.w, false))
  {
    PullerIsIdle(cfg, s, a);
    if s.acc.AccDone? { NotDrained(cfg, bound, s); }
    assert ByWrite(s.workers[a.w]);
    PhaseLevel(cfg, s, a, Level(s) < bound);
    hide *;
  }

  lemma WorkerStays(cfg: Config, bound: nat, s: State, a: Action)
    requires ValidConfig(cfg) && OnCourse(cfg, bound, s) && bound < |Target(cfg)| && Inv(cfg, s)
    requires Enabled(cfg, s, a) && OfAWorker(a) && a == Chosen(a, Level(s) < bound)
    ensures OnCourse(cfg, bound, Apply(cfg, s, a))
  {
    var t := Apply(cfg, s, a);
    ReachStep(cfg, s, a);
    WorkerFrame(cfg, s, a);
    WorkerLevel(cfg, bound, s, a);
    hide Apply, Enabled, Inv, Reachable, Total, Returns, ByWrite, Lost, Target, ValidConfig;
    TotalUpdate(Returns, s.workers, a.w, t.workers[a.w]);
    assert Level(t) == Level(s) + (if a == Write(a.w, true) then 1 else 0);
    assert a == Write(a.w, false) ==> Level(s) == bound;
    forall w | 0 <= w < |t.workers| ensures ByWrite(t.workers[w]) && (Lost(t.workers[w]) ==> Level(t) == bound) {
      if w != a.w { assert t.workers[w] == s.workers[w]; }
    }
  }

  lemma StillRunning(cfg: Config, s: State, a: Action)
    requires Enabled(cfg, s, a) && OfATask(a) && !a.Join? && !OfAWorker(a) && !OfTheAccumulator(a)
    ensures Apply(cfg, s, a).cancelled == s.cancelled
  {
    RestFrame(cfg, s, a);
    hide DoReaderNext, DoReaderSend;
  }

  lemma OthersStay(cfg: Config, bound: nat, s: State, a: Action)
    requires ValidConfig(cfg) && OnCourse(cfg, bound, s) && Enabled(cfg, s, a) && !OfAWorker(a)
    requires OfATask(a) && !a.Join? && a == Chosen(a, Level(s) < bound)
    ensures OnCourse(cfg, bound, Apply(cfg, s, a))
  {
    var t := Apply(cfg, s, a);
    ReachStep(cfg, s, a);
    if OfTheAccumulator(a) {
      AccumulatorFrame(cfg, s, a);
      AccumulatorBooks(cfg, s, a);
      AccumulatorActs(cfg, s, a);
    } else {
      RestFrame(cfg, s, a);
      StillRunning(cfg, s, a);
    }
    hide Apply, Enabled, Reachable, Total, Returns, ByWrite, Lost, ValidConfig;
  }

  lemma NotJoinedYet(cfg: Config, bound: nat, s: State)
    requires ValidConfig(cfg) && OnCourse(cfg, bound, s)
    ensures Inv(cfg, s) && !s.joined
  {
    Conservation(cfg, s);
    hide Reachable, ValidConfig, Shape, Level;
  }

  lemma ChosenIsEnabled(cfg: Config, s: State, a: Action, writes: bool)
    requires Enabled(cfg, s, a) && OfATask(a)
    ensures Enabled(cfg, s, Chosen(a, writes)) && OfATask(Chosen(a, writes))
    ensures Chosen(Chosen(a, writes), writes) == Chosen(a, writes)
    ensures a.Join? ==> TasksDone(s)
    ensures Chosen(a, writes).Join? ==> a.Join?
  {
    hide TasksDone;
  }

  lemma Advance(cfg: Config, bound: nat, s: State) returns (t: State)
    requires ValidConfig(cfg) && OnCourse(cfg, bound, s) && bound < |Target(cfg)|
    requires !TasksDone(s) && !Wedged(s)
    ensures OnCourse(cfg, bound, t) && Measure(t) < Measure(s)
  {
    hide *;
    NotJoinedYet(cfg, bound, s);
    var a := NextAction(cfg, bound, s);
    t := Apply(cfg, s, a);
    MeasureDrops(cfg, s, a);
    if OfAWorker(a) { WorkerStays(cfg, bound, s, a); } else { OthersStay(cfg, bound, s, a); }
  }

  lemma NextAction(cfg: Config, bound: nat, s: State) returns (a: Action)
    requires ValidConfig(cfg) && OnCourse(cfg, bound, s) && !s.joined && !TasksDone(s) && !Wedged(s)
    ensures Enabled(cfg, s, a) && OfATask(a) && !a.Join? && a == Chosen(a, Level(s) < bound)
  {
    BlockedIffWedged(cfg, s);
    hide ValidConfig, TasksDone, Wedged, Enabled, Level, Chosen, OfATask, Reachable;
    var any :| OfATask(any) && Enabled(cfg, s, any);
    ChosenIsEnabled(cfg, s, any, Level(s) < bound);
    a := Chosen(any, Level(s) < bound);
  }

  /** Whatever the tasks do, with writes failing as chosen, the run ends with all tasks done or wedged. */
  lemma {:induction false} Drive(cfg: Config, bound: nat, s: State) returns (t: State)
    requires ValidConfig(cfg) && OnCourse(cfg, bound, s) && bound < |Target(cfg)|
    ensures OnCourse(cfg, bound, t) && (TasksDone(t) || Wedged(t))
    decreases Measure(s)
  {
    if TasksDone(s) || Wedged(s) {
      t := s;
    } else {
      hide *;
      var next := Advance(cfg, bound, s);
      t := Drive(cfg, bound, next);
    }
  }

  lemma StartOnCourse(cfg: Config, bound: nat)
    requires cfg.WorkerCount() <= bound
    ensures OnCourse(cfg, bound, Init(cfg))
  {
    assert Exec(cfg, Init(cfg), []) == Some(Init(cfg));
    TotalSame(Returns, Init(cfg).workers, 1);
    hide Exec, Total;
  }

  /** Once all workers have left, the level is the number of batches taken. */
  lemma TakenAtEnd(cfg: Config, bound: nat, t: State)
    requires ValidConfig(cfg) && OnCourse(cfg, bound, t) && AllStopped(t.workers)
    ensures cfg.WorkerCount() <= |t.sent| - |t.jobQ| <= bound && |t.jobQ| <= 64
    ensures cfg.WorkerCount() > 0 ==> |t.sent| - |t.jobQ| == bound
    ensures cfg.WorkerCount() == 0 ==> |t.sent| == |t.jobQ|
    ensures TasksDone(t) ==> t.sent == Target(cfg) && t.acc == AccDone(RowsDrained)
    ensures Wedged(t) ==> |t.jobQ| == 64 && |t.sent| < |Target(cfg)|
  {
    Conservation(cfg, t);
    BookedHolds(cfg, t);
    NoLogFailure(cfg, bound, t);
    BatchesIndependentOfSchedule(cfg, t);
    if Wedged(t) { StillSending(cfg, t); }
    TotalSame(Returns, t.workers, 0);
    hide Reachable, ValidConfig, Target, LogFailure;
    assert |t.workers| > 0 ==> Lost(t.workers[0]);
    if t.acc.AccDone? {
      match t.acc.end
      case RowsDrained =>
      case CancelSeen =>
      case FlushCancelled =>
      case AccLogFailed =>
    }
  }

  // ------------------------------------------------------------------
  // Before the run
  // ------------------------------------------------------------------

  /** An input can block the pipeline exactly when it makes more batches than the workers and the queue can swallow. */
  lemma CanWedgeIff(cfg: Config)
    requires ValidConfig(cfg)
    ensures (exists s :: Reachable(cfg, s) && Wedged(s)) <==> |Target(cfg)| >= 65 + cfg.WorkerCount()
  {
    if s :| Reachable(cfg, s) && Wedged(s) {
      WedgedNeeds(cfg, s);
    }
    hide Target, Reachable, ValidConfig, Wedged, AllStopped;
    var w := cfg.WorkerCount();
    if |Target(cfg)| >= 65 + w {
      StartOnCourse(cfg, w);
      var t := Drive(cfg, w, Init(cfg));
      assert AllStopped(t.workers) by { StoppedEitherWay(t); }
      TakenAtEnd(cfg, w, t);
      assert Reachable(cfg, t) && Wedged(t);
    }
  }

  lemma StoppedEitherWay(t: State)
    requires TasksDone(t) || Wedged(t)
    ensures AllStopped(t.workers)
  {
  }

  /** A finished run that raises no flag although rows are missing from its log. */
  ghost predicate Deceives(cfg: Config, s: State) {
    Reachable(cfg, s) && s.joined && !Aborted(cfg, s) && !Complete(cfg, s)
  }

  lemma DeceivesNeeds(cfg: Config, s: State)
    requires ValidConfig(cfg) && !cfg.external && Deceives(cfg, s)
    ensures |Target(cfg)| > cfg.WorkerCount() && (cfg.WorkerCount() == 0 ==> |Target(cfg)| <= 64)
  {
    IncompleteMeansWritesFailed(cfg, s);
    Conservation(cfg, s);
    FinishedUndisturbed(cfg, s);
    BookedHolds(cfg, s);
    BatchesIndependentOfSchedule(cfg, s);
    TotalSame(UsesUp, s.workers, 1);
    hide Reachable, ValidConfig, Target, Complete, Aborted, Disturbed, Total, UsesUp;
  }

  lemma HardOnlyWhenCancelled(cfg: Config, s: State)
    requires ValidConfig(cfg) && Reachable(cfg, s)
    ensures s.hard ==> s.operator
  {
    var schedule :| Exec(cfg, Init(cfg), schedule) == Some(s);
    PipelineFlag.HardIsTaken(cfg, schedule, s);
  }

  lemma DeceivesWithoutToken(cfg: Config) returns (s: State)
    requires ValidConfig(cfg) && !cfg.external
    requires |Target(cfg)| > cfg.WorkerCount() && (cfg.WorkerCount() == 0 ==> |Target(cfg)| <= 64)
    ensures Deceives(cfg, s)
  {
    var bound := |Target(cfg)| - 1;
    StartOnCourse(cfg, bound);
    hide Target, Wedged, AllStopped, TasksDone, Init;
    var t := Drive(cfg, bound, Init(cfg));
    assert AllStopped(t.workers) by { StoppedEitherWay(t); }
    TakenAtEnd(cfg, bound, t);
    assert TasksDone(t);
    Conservation(cfg, t);
    NoLogFailure(cfg, bound, t);
    HardOnlyWhenCancelled(cfg, t);
    assert !t.joined && !t.stalled && !t.hard;
    s := JoinUnflagged(cfg, t);
    assert s.jobQ != [];
    hide Reachable, ValidConfig, Complete, Aborted;
    CompleteIffJobsDrained(cfg, s);
  }

  // ------------------------------------------------------------------
  // With a caller's token
  // ------------------------------------------------------------------

  lemma NothingSelectedNothingMissed(cfg: Config, s: State)
    requires ValidConfig(cfg) && Reachable(cfg, s) && s.joined && Selected(cfg) == []
    ensures Complete(cfg, s)
  {
    FinishedAccount(cfg, s);
    hide Reachable, ValidConfig, LogSeqs, Select;
    NoRowsInBag(Selected(cfg));
  }

  /**
   Exactly which inputs can deceive. With a caller's token: all that select anything. Without one: those
   with more batches than workers, since every worker can lose its stdin on a batch of its own; a pool of
   no workers needs its few batches to fit the queue.
   */
  lemma UnflaggedIncompleteIff(cfg: Config)
    requires ValidConfig(cfg)
    ensures (exists s :: Deceives(cfg, s)) <==>
      if cfg.external then Selected(cfg) != []
      else |Target(cfg)| > cfg.WorkerCount() && (cfg.WorkerCount() == 0 ==> |Target(cfg)| <= 64)
  {
    hide Reachable, Complete, Aborted, Target;
    if s :| Deceives(cfg, s) {
      if cfg.external {
        if Selected(cfg) == [] { NothingSelectedNothingMissed(cfg, s); }
      } else {
        DeceivesNeeds(cfg, s);
      }
    }
    if cfg.external && Selected(cfg) != [] {
      var s := CancelAtOnce(cfg);
      CompleteIffNothingMissed(cfg, s);
      assert Deceives(cfg, s);
    } else if !cfg.external && |Target(cfg)| > cfg.WorkerCount() && (cfg.WorkerCount() == 0 ==> |Target(cfg)| <= 64) {
      var s := DeceivesWithoutToken(cfg);
    }
  }

  // ------------------------------------------------------------------
  // How far the reader gets ahead
  // ------------------------------------------------------------------

  function Ahead(s: State): nat { |s.rowQ| + |HeldByReader(s.reader)| }

  /** Only the reader has moved so far. */
  ghost predicate ReaderAlone(cfg: Config, s: State) {
    Reachable(cfg, s) && Undisturbed(s) && Coming(cfg, s) == Selected(cfg)
  }

  lemma ReaderMoves(cfg: Config, s: State) returns (t: State)
    requires ValidConfig(cfg) && ReaderAlone(cfg, s) && Ahead(s) < 65 && Ahead(s) < |Selected(cfg)|
    ensures ReaderAlone(cfg, t) && Ahead(s) <= Ahead(t) <= Ahead(s) + 1 && Measure(t) < Measure(s)
  {
    Conservation(cfg, s);
    OnTargetHolds(cfg, s);
    if s.reader.Holding? {
      ReachStep(cfg, s, ReaderSend);
      MeasureDrops(cfg, s, ReaderSend);
      SendOnTarget(cfg, s);
      hide Reachable, ValidConfig, Measure, Inv, Coming, Selected;
      t := Apply(cfg, s, ReaderSend);
    } else {
      StillReading(cfg, s);
      ReachStep(cfg, s, ReaderNext);
      MeasureDrops(cfg, s, ReaderNext);
      NextOnTarget(cfg, s);
      RestFrame(cfg, s, ReaderNext);
      NextHolds(cfg, s);
      hide Reachable, ValidConfig, Measure, Inv, Coming, Selected, Apply, DoReaderNext;
      t := Apply(cfg, s, ReaderNext);
    }
  }

  lemma StillReading(cfg: Config, s: State)
    requires cfg.runtime.Validates() && OnTarget(cfg, s) && Undisturbed(s) && Coming(cfg, s) == Selected(cfg)
    requires Ahead(s) < |Selected(cfg)|
    ensures !s.reader.ReaderDone?
  {
    hide Target, Remaining, Select;
  }

  lemma NextHolds(cfg: Config, s: State)
    requires s.reader.Reading?
    ensures var t := DoReaderNext(cfg, s); t.rowQ == s.rowQ && |HeldByReader(t.reader)| <= 1
  {
    hide Config.Wants, Config.AtLimit;
  }

  lemma {:induction false} RunAhead(cfg: Config, s: State, k: nat) returns (t: State)
    requires ValidConfig(cfg) && ReaderAlone(cfg, s) && Ahead(s) <= k && k <= 65 && k <= |Selected(cfg)|
    ensures Reachable(cfg, t) && Ahead(t) == k
    decreases Measure(s)
  {
    hide ReaderAlone, Measure, Ahead, Selected;
    if Ahead(s) == k {
      t := s;
      assert Reachable(cfg, s) by { AloneIsReachable(cfg, s); }
    } else {
      var next := ReaderMoves(cfg, s);
      t := RunAhead(cfg, next, k);
    }
  }

  lemma AloneIsReachable(cfg: Config, s: State)
    requires ReaderAlone(cfg, s)
    ensures Reachable(cfg, s)
  {
  }

  /** The reader is never more than 65 rows ahead of the accumulator, and can be that far if so many are selected. */
  lemma ReadAheadIff(cfg: Config, k: nat)
    requires ValidConfig(cfg) && k <= |Selected(cfg)|
    ensures (exists s :: Reachable(cfg, s) && Ahead(s) == k) <==> k <= 65
  {
    if s :| Reachable(cfg, s) && Ahead(s) == k {
      Conservation(cfg, s);
      hide Reachable, ValidConfig;
    }
    if k <= 65 {
      var init := Init(cfg);
      assert Exec(cfg, init, []) == Some(init);
      assert Coming(cfg, init) == Selected(cfg);
      assert ReaderAlone(cfg, init) && Ahead(init) == 0;
      hide Reachable, ValidConfig, ReaderAlone, Init, Exec, Ahead;
      var t := RunAhead(cfg, init, k);
    }
  }
}
