/**
 When the report raises its flag, in terms of what happened in the run: the
 actions taken and the states they were taken in.
 */
module PipelineFlag {
  import opened Base
  import Protocol
  import opened WorkerLines
  import opened Pipeline
  import opened PipelineSafety
  import opened PipelineAccount
  import opened PipelineLive
  import opened PipelineComplete
  import opened PipelineReport

  /** A worker's or the accumulator's append to the log failed. */
  ghost predicate SomeAppendFailed(schedule: seq<Action>) {
    AccReject(false) in schedule || exists w :: Append(w, false) in schedule
  }

  predicate FlushesCancelled(s: State, a: Action) { a == AccFlush && s.cancelled }

  /** The accumulator got to a flush only after the cancel. */
  ghost predicate SomeFlushCancelled(cfg: Config, s: State, schedule: seq<Action>)
    decreases |schedule|
  {
    schedule != [] && Enabled(cfg, s, schedule[0])
    && (FlushesCancelled(s, schedule[0]) || SomeFlushCancelled(cfg, Apply(cfg, s, schedule[0]), schedule[1..]))
  }

  /** What one action adds to the grounds for the flag. */
  ghost predicate Grounds(s: State, a: Action, t: State) {
    && (t.stalled <==> s.stalled || a == Stall)
    && (t.hard <==> s.hard || a == Cancel(true))
    && (LogFailure(t) <==> LogFailure(s) || a == AccReject(false) || (a.Append? && !a.ok))
    && (t.acc == AccDone(FlushCancelled) <==> s.acc == AccDone(FlushCancelled) || FlushesCancelled(s, a))
    && ((t.hard ==> t.operator) || !(s.hard ==> s.operator))
  }

  lemma ReceiveEnds(cfg: Config, s: State)
    requires s.acc.Receiving?
    ensures DoAccReceive(cfg, s).acc != AccDone(FlushCancelled)
  {
    if s.rowQ != [] { MeetFrame(cfg, s); }
    hide AccMeet;
  }

  lemma FlushEnds(cfg: Config, s: State)
    requires Flushing(s.acc)
    ensures DoAccFlush(cfg, s).acc == AccDone(FlushCancelled) <==> s.cancelled
  {
    var t := s.(jobQ := s.jobQ + [s.pending], sent := s.sent + [s.pending], pending := [], pendingBytes := 0);
    if s.acc.FlushThen? { PushFrame(cfg, t, s.acc.row); }
    hide AccPush;
  }

  lemma RejectEnds(s: State, ok: bool)
    requires s.acc.Rejecting?
    ensures DoAccReject(s, ok).acc == if ok then Receiving else AccDone(AccLogFailed)
  {
    hide Batching.TooLargeLine;
  }

  lemma AccumulatorGrounds(cfg: Config, s: State, a: Action)
    requires Enabled(cfg, s, a) && OfTheAccumulator(a)
    ensures Grounds(s, a, Apply(cfg, s, a))
  {
    AccumulatorFrame(cfg, s, a);
    AccumulatorActs(cfg, s, a);
    match a
    case AccReceive =>
      ReceiveEnds(cfg, s);
      hide DoAccReceive, SomeWorkerLogFailed, TakesIn;
    case AccFlush =>
      FlushEnds(cfg, s);
      hide DoAccFlush, SomeWorkerLogFailed, Sends;
    case AccReject(ok) =>
      RejectEnds(s, ok);
      hide DoAccReject, SomeWorkerLogFailed, Rejects;
  }

  /** A worker ends with an error exactly when its append fails. */
  lemma PhaseGrounds(cfg: Config, s: State, a: Action)
    requires Inv(cfg, s) && Enabled(cfg, s, a) && OfAWorker(a)
    ensures a.w < |s.workers| && a.w < |Apply(cfg, s, a).workers| && !s.workers[a.w].Stopped?
    ensures Apply(cfg, s, a).workers[a.w] == Stopped(LogFailed) <==> a.Append? && !a.ok
  {
    IsAbout(cfg, s, a);
    assert WorkerShape(Batching.CapsOf(cfg.runtime), s.workers[a.w]);
    hide CrashLine, ReplyLine, Inv, Batching.Fits;
    match a
    case Pull(_) =>
    case Write(_, _) =>
    case Answer(_, _) =>
    case CutRecv(_) =>
    case Append(_, _) =>
  }

  lemma OneLogFailed(ws: seq<WorkerPhase>, w: nat, p: WorkerPhase)
    requires w < |ws| && !ws[w].Stopped?
    ensures SomeWorkerLogFailed(ws[w := p]) <==> SomeWorkerLogFailed(ws) || p == Stopped(LogFailed)
  {
    var after := ws[w := p];
    if i :| 0 <= i < |ws| && ws[i] == Stopped(LogFailed) { assert after[i] == Stopped(LogFailed); }
    assert after[w] == p;
    if i :| 0 <= i < |after| && after[i] == Stopped(LogFailed) { assert i == w || ws[i] == Stopped(LogFailed); }
  }

  lemma WorkerGrounds(cfg: Config, s: State, a: Action)
    requires Inv(cfg, s) && Enabled(cfg, s, a) && OfAWorker(a)
    ensures Grounds(s, a, Apply(cfg, s, a))
  {
    var t := Apply(cfg, s, a);
    WorkerFrame(cfg, s, a);
    PhaseGrounds(cfg, s, a);
    hide Apply, Enabled, Inv;
    OneLogFailed(s.workers, a.w, t.workers[a.w]);
    hide SomeWorkerLogFailed;
  }

  lemma RestGrounds(cfg: Config, s: State, a: Action)
    requires Enabled(cfg, s, a) && !OfAWorker(a) && !OfTheAccumulator(a)
    ensures Grounds(s, a, Apply(cfg, s, a))
  {
    RestFrame(cfg, s, a);
    hide DoReaderNext, DoReaderSend, SomeWorkerLogFailed;
  }

  lemma GroundsStep(cfg: Config, s: State, a: Action)
    requires Inv(cfg, s) && Enabled(cfg, s, a)
    ensures Grounds(s, a, Apply(cfg, s, a))
  {
    hide *;
    if OfAWorker(a) {
      WorkerGrounds(cfg, s, a);
    } else if OfTheAccumulator(a) {
      AccumulatorGrounds(cfg, s, a);
    } else {
      RestGrounds(cfg, s, a);
    }
  }

  /** What a whole schedule adds. */
  ghost predicate AllGrounds(cfg: Config, s: State, schedule: seq<Action>, t: State) {
    && (t.stalled <==> s.stalled || Stall in schedule)
    && (t.hard <==> s.hard || Cancel(true) in schedule)
    && (LogFailure(t) <==> LogFailure(s) || SomeAppendFailed(schedule))
    && (t.acc == AccDone(FlushCancelled)
        <==> s.acc == AccDone(FlushCancelled) || SomeFlushCancelled(cfg, s, schedule))
    && ((t.hard ==> t.operator) || !(s.hard ==> s.operator))
  }

  lemma AppendFailedSnoc(a: Action, rest: seq<Action>)
    ensures SomeAppendFailed([a] + rest) <==> a == AccReject(false) || (a.Append? && !a.ok) || SomeAppendFailed(rest)
  {
    if a.Append? && !a.ok { assert Append(a.w, false) in [a] + rest; }
    if w :| Append(w, false) in rest { assert Append(w, false) in [a] + rest; }
  }

  lemma JoinGrounds(cfg: Config, s: State, a: Action, rest: seq<Action>, t: State)
    requires Enabled(cfg, s, a) && Grounds(s, a, Apply(cfg, s, a)) && AllGrounds(cfg, Apply(cfg, s, a), rest, t)
    ensures AllGrounds(cfg, s, [a] + rest, t)
  {
    AppendFailedSnoc(a, rest);
    assert ([a] + rest)[0] == a && ([a] + rest)[1..] == rest;
    assert forall b :: b in [a] + rest <==> b == a || b in rest;
    hide Apply, Enabled, LogFailure, SomeAppendFailed;
  }

  lemma {:induction false} ExecGrounds(cfg: Config, s: State, schedule: seq<Action>)
    requires cfg.runtime.Validates() && Inv(cfg, s) && Exec(cfg, s, schedule).Some?
    ensures AllGrounds(cfg, s, schedule, Exec(cfg, s, schedule).value)
    decreases |schedule|
  {
    if schedule == [] {
      hide Inv, LogFailure;
    } else {
      var a, rest := schedule[0], schedule[1..];
      InvStep(cfg, s, a);
      GroundsStep(cfg, s, a);
      hide Inv, AllGrounds, Grounds, Apply, Enabled;
      ExecGrounds(cfg, Apply(cfg, s, a), rest);
      JoinGrounds(cfg, s, a, rest, Exec(cfg, s, schedule).value);
      assert schedule == [a] + rest;
    }
  }

  /** Whether a run is to be flagged: it stalled, lost an append, was cancelled hard, or was cut short in a flush. */
  ghost predicate Flagged(cfg: Config, schedule: seq<Action>) {
    || Stall in schedule
    || SomeAppendFailed(schedule)
    || Cancel(true) in schedule
    || SomeFlushCancelled(cfg, Init(cfg), schedule)
  }

  /** The report of every finished run raises its flag exactly on those grounds. */
  lemma FlaggedIff(cfg: Config, schedule: seq<Action>, s: State)
    requires ValidConfig(cfg) && Exec(cfg, Init(cfg), schedule) == Some(s) && s.joined
    ensures Aborted(cfg, s) <==> Flagged(cfg, schedule)
  {
    var init := Init(cfg);
    InitInv(cfg);
    ExecGrounds(cfg, init, schedule);
    ExecKeeps(cfg, init, schedule);
    assert !LogFailure(init) && !init.stalled && !init.hard && init.acc == Receiving;
    assert s.operator ==> cfg.external;
    assert s.acc == AccDone(FlushCancelled) ==> s.stalled || s.operator;
    hide Inv, Init, SomeWorkerLogFailed, SomeFlushCancelled, SomeAppendFailed, Exec, ValidConfig;
  }

  // ------------------------------------------------------------------
  // Ending a run at will
  // ------------------------------------------------------------------

  /** The pipeline does not decide how writes, appends and replies turn out. */
  lemma OutcomesAreOpen(cfg: Config, s: State, w: nat, one: Protocol.Reply, other: Protocol.Reply)
    ensures Enabled(cfg, s, Write(w, true)) <==> Enabled(cfg, s, Write(w, false))
    ensures Enabled(cfg, s, Append(w, true)) <==> Enabled(cfg, s, Append(w, false))
    ensures Enabled(cfg, s, AccReject(true)) <==> Enabled(cfg, s, AccReject(false))
    ensures Enabled(cfg, s, Answer(w, one)) <==> Enabled(cfg, s, Answer(w, other))
    ensures Enabled(cfg, s, Stall) <==> !s.cancelled
  {
  }

  /** Once cancelled, a run can be brought to its end by its tasks alone. */
  lemma {:induction false} RunsOut(cfg: Config, s: State) returns (rest: seq<Action>)
    requires ValidConfig(cfg) && Reachable(cfg, s) && s.cancelled
    ensures Exec(cfg, s, rest).Some? && Exec(cfg, s, rest).value.joined
    decreases Measure(s)
  {
    if s.joined {
      rest := [];
    } else {
      Conservation(cfg, s);
      CancelAlwaysUnblocks(cfg, s);
      hide Reachable, ValidConfig, Measure, Inv;
      var a :| OfATask(a) && Enabled(cfg, s, a);
      ReachStep(cfg, s, a);
      MeasureDrops(cfg, s, a);
      FlagsStay(cfg, s, a);
      hide Apply, Enabled;
      var more := RunsOut(cfg, Apply(cfg, s, a));
      rest := [a] + more;
      assert rest[1..] == more;
    }
  }

  /** Any run, wherever it stands, can be ended by a cancel: by a stall verdict, or with a token by hand. */
  lemma EndedBy(cfg: Config, s: State, a: Action) returns (rest: seq<Action>)
    requires ValidConfig(cfg) && Reachable(cfg, s) && !s.cancelled
    requires a == Stall || (cfg.external && a.Cancel?)
    ensures rest != [] && rest[0] == a && Exec(cfg, s, rest).Some? && Exec(cfg, s, rest).value.joined
  {
    Conservation(cfg, s);
    assert Enabled(cfg, s, a) && Apply(cfg, s, a).cancelled;
    ReachStep(cfg, s, a);
    hide Reachable, ValidConfig, Inv, Apply, Enabled;
    var more := RunsOut(cfg, Apply(cfg, s, a));
    rest := [a] + more;
    assert rest[1..] == more;
  }

  /** With a token any run that has not finished can be killed, also after a soft cancel, and then ends flagged. */
  lemma KilledIsFlagged(cfg: Config, schedule: seq<Action>, s: State) returns (rest: seq<Action>)
    requires ValidConfig(cfg) && cfg.external && Exec(cfg, Init(cfg), schedule) == Some(s) && !s.joined
    ensures Exec(cfg, Init(cfg), schedule + rest).Some?
    ensures var t := Exec(cfg, Init(cfg), schedule + rest).value; t.joined && Aborted(cfg, t)
  {
    assert Reachable(cfg, s);
    Conservation(cfg, s);
    hide Reachable;
    if s.hard {
      assert s.cancelled by { HardMeansCancelled(cfg, s); }
      rest := RunsOut(cfg, s);
      HardIsTaken(cfg, schedule, s);
    } else {
      ReachStep(cfg, s, Cancel(true));
      hide Inv;
      assert Apply(cfg, s, Cancel(true)).cancelled;
      hide Apply;
      var more := RunsOut(cfg, Apply(cfg, s, Cancel(true)));
      rest := [Cancel(true)] + more;
      assert rest[1..] == more;
    }
    ExecConcat(cfg, Init(cfg), schedule, rest);
    assert Cancel(true) in schedule + rest;
    hide Exec, Apply, Enabled;
    FlaggedIff(cfg, schedule + rest, Exec(cfg, Init(cfg), schedule + rest).value);
  }

  lemma HardIsTaken(cfg: Config, schedule: seq<Action>, s: State)
    requires ValidConfig(cfg) && Exec(cfg, Init(cfg), schedule) == Some(s)
    ensures s.hard <==> Cancel(true) in schedule
    ensures s.hard ==> s.operator
  {
    InitInv(cfg);
    assert !Init(cfg).hard;
    hide Inv, Init, Exec;
    ExecGrounds(cfg, Init(cfg), schedule);
    hide LogFailure, SomeFlushCancelled;
  }

  lemma HardMeansCancelled(cfg: Config, s: State)
    requires ValidConfig(cfg) && Reachable(cfg, s) && s.hard
    ensures s.cancelled
  {
    Conservation(cfg, s);
    var schedule :| Exec(cfg, Init(cfg), schedule) == Some(s);
    HardIsTaken(cfg, schedule, s);
    hide Reachable, ValidConfig, Shape;
  }
}
