/**
 Runs that show what the general results leave possible: two finished runs whose
 report says `aborted == false` although rows are missing from the log, a run
 that blocks without a cancel, and the plainest complete run.
 */
module PipelineReport {
  import opened Base
  import opened Protocol
  import opened Batching
  import opened WorkerLines
  import opened Pipeline
  import opened PipelineSafety
  import opened PipelineAccount
  import opened PipelineLive

  /** A reachable state stays reachable through one more enabled action. */
  lemma ReachStep(cfg: Config, s: State, a: Action)
    requires Reachable(cfg, s) && Enabled(cfg, s, a)
    ensures Reachable(cfg, Apply(cfg, s, a))
  {
    var schedule :| Exec(cfg, Init(cfg), schedule) == Some(s);
    ExecConcat(cfg, Init(cfg), schedule, [a]);
    assert Exec(cfg, Apply(cfg, s, a), [a][1..]) == Some(Apply(cfg, s, a));
    assert Exec(cfg, Init(cfg), schedule + [a]) == Some(Apply(cfg, s, a));
  }

  const SIMPLE := Runtime(RowMode, None, 0, 0, None, false)

  function Solo(rows: seq<Row>, external: bool): Config {
    Config(seq(|rows|, i requires 0 <= i < |rows| => Source(rows[i])), {}, None, None, SIMPLE, 1, external)
  }

  function TinyRow(n: nat): Row { Row(n, map[], 0) }

  lemma ReadOne(cfg: Config, s: State, row: Row) returns (t: State)
    requires cfg.Wants(row) && cfg.limit.None?
    requires Reachable(cfg, s) && !s.cancelled && s.reader == Reading && s.acc == Receiving
    requires s.items != [] && s.items[0] == Source(row) && s.rowQ == []
    ensures Reachable(cfg, t)
    ensures t == s.(items := s.items[1..], emitted := s.emitted + 1, rowQ := [row])
  {
    hide Reachable;
    ReachStep(cfg, s, ReaderNext);
    var picked := s.(items := s.items[1..], emitted := s.emitted + 1, reader := Holding(row));
    assert Apply(cfg, s, ReaderNext) == picked;
    ReachStep(cfg, picked, ReaderSend);
    t := Apply(cfg, picked, ReaderSend);
    assert t.rowQ == [row];
  }

  /** Row mode: one row travels from the input to the job queue. */
  lemma FeedOne(cfg: Config, s: State, row: Row) returns (t: State)
    requires cfg.runtime == SIMPLE && cfg.Wants(row) && cfg.limit.None? && Dispatchable(row)
    requires Reachable(cfg, s) && !s.cancelled && s.reader == Reading && s.acc == Receiving
    requires s.items != [] && s.items[0] == Source(row) && s.rowQ == [] && s.pending == [] && s.pendingBytes == 0
    requires |s.jobQ| < JOB_CHANNEL_CAP
    ensures Reachable(cfg, t)
    ensures t == s.(items := s.items[1..], emitted := s.emitted + 1, jobQ := s.jobQ + [[row]], sent := s.sent + [[row]])
  {
    var queued := ReadOne(cfg, s, row);
    hide Reachable;
    ReachStep(cfg, queued, AccReceive);
    var full := queued.(rowQ := [], pending := [row], pendingBytes := row.size, acc := FlushFull);
    assert Apply(cfg, queued, AccReceive) == full;
    ReachStep(cfg, full, AccFlush);
    t := Apply(cfg, full, AccFlush);
  }

  /** The reader and the accumulator come to their natural end. */
  lemma EndInput(cfg: Config, s: State) returns (t: State)
    requires Reachable(cfg, s) && !s.cancelled && s.reader == Reading && s.acc == Receiving
    requires s.items == [] && s.rowQ == [] && s.pending == [] && s.pendingBytes == 0
    ensures Reachable(cfg, t) && t == s.(reader := ReaderDone, acc := AccDone(RowsDrained))
  {
    hide Reachable;
    ReachStep(cfg, s, ReaderNext);
    var read := s.(reader := ReaderDone);
    ReachStep(cfg, read, AccReceive);
    t := Apply(cfg, read, AccReceive);
  }

  /** The only worker takes a batch, fails to write it, records the crash and leaves. */
  lemma LoseWorker(cfg: Config, s: State) returns (t: State)
    requires Reachable(cfg, s) && !s.cancelled && s.lock.None? && s.workers == [Idle] && s.jobQ != [] && s.jobQ[0] != []
    ensures Reachable(cfg, t) && t.workers == [Stopped(WriteFailed)]
    ensures t == s.(workers := t.workers, log := t.log, jobQ := s.jobQ[1..])
  {
    hide Reachable;
    var batch := s.jobQ[0];
    ReachStep(cfg, s, Lock(0));
    var locked := s.(lock := Some(0));
    ReachStep(cfg, locked, Pull(0));
    var taken := s.(jobQ := s.jobQ[1..], workers := [Sending(batch)]);
    assert Apply(cfg, locked, Pull(0)) == taken;
    ReachStep(cfg, taken, Write(0, false));
    var dying := taken.(workers := [Recording(batch, CrashLine(cfg.runtime, batch), Some(WriteFailed))]);
    assert Apply(cfg, taken, Write(0, false)) == dying;
    hide CrashLine;
    ReachStep(cfg, dying, Append(0, true));
    t := Apply(cfg, dying, Append(0, true));
  }

  /** Two rows, one worker whose stdin breaks: the second row stays queued and the report raises no flag. */
  lemma DeadWorkersLookComplete() returns (cfg: Config, s: State)
    ensures ValidConfig(cfg) && !cfg.external && Reachable(cfg, s) && s.joined
    ensures !Aborted(cfg, s) && !Complete(cfg, s)
  {
    cfg := Solo([TinyRow(0), TinyRow(1)], false);
    var init := Init(cfg);
    assert cfg.items == [Source(TinyRow(0)), Source(TinyRow(1))];
    assert Parsed(cfg.items) == [TinyRow(0), TinyRow(1)] by {
      assert cfg.items[1..] == [Source(TinyRow(1))];
    }
    assert Reachable(cfg, init) by { assert Exec(cfg, init, []) == Some(init); }
    hide Reachable, Complete;
    var one := FeedOne(cfg, init, TinyRow(0));
    var two := FeedOne(cfg, one, TinyRow(1));
    var read := EndInput(cfg, two);
    assert init.workers == [Idle];
    var dead := LoseWorker(cfg, read);
    ReachStep(cfg, dead, Join);
    s := Apply(cfg, dead, Join);
    assert s.jobQ == [[TinyRow(1)]];
    assert s.workers[0] != Stopped(LogFailed);
    CompleteIffJobsDrained(cfg, s);
  }

  lemma JoinUnflagged(cfg: Config, t: State) returns (s: State)
    requires ValidConfig(cfg) && Reachable(cfg, t) && TasksDone(t) && !t.joined
    requires !t.stalled && !LogFailure(t) && !t.hard && t.acc != AccDone(FlushCancelled)
    ensures Reachable(cfg, s) && s == t.(cancelled := true, joined := true) && !Aborted(cfg, s)
  {
    ReachStep(cfg, t, Join);
    s := Apply(cfg, t, Join);
    hide Reachable, SomeWorkerLogFailed;
  }

  lemma LeaveOnCancel(cfg: Config, s: State, w: nat) returns (t: State)
    requires Reachable(cfg, s) && s.cancelled && s.lock.None? && w < |s.workers| && s.workers[w] == Idle
    ensures Reachable(cfg, t) && t == SetWorker(s, w, Stopped(SawCancel))
  {
    hide Reachable;
    ReachStep(cfg, s, Lock(w));
    var locked := s.(lock := Some(w));
    ReachStep(cfg, locked, Pull(w));
    t := Apply(cfg, locked, Pull(w));
  }

  lemma {:induction false} LeaveAll(cfg: Config, s: State, k: nat) returns (t: State)
    requires Reachable(cfg, s) && s.cancelled && s.lock.None? && k <= |s.workers|
    requires forall w :: 0 <= w < |s.workers| ==> s.workers[w] == if w < k then Stopped(SawCancel) else Idle
    ensures Reachable(cfg, t) && t == s.(workers := t.workers)
    ensures forall w :: 0 <= w < |t.workers| ==> t.workers[w] == Stopped(SawCancel)
    decreases |s.workers| - k
  {
    hide Reachable;
    if k == |s.workers| {
      t := s;
    } else {
      var one := LeaveOnCancel(cfg, s, k);
      t := LeaveAll(cfg, one, k + 1);
    }
  }

  /** Cancelled softly before the first row is read: every task ends well, and nothing was read. */
  lemma CancelAtOnce(cfg: Config) returns (s: State)
    requires ValidConfig(cfg) && cfg.external
    ensures Reachable(cfg, s) && s.joined && !Aborted(cfg, s) && s.items == cfg.items && s.emitted == 0
    ensures s.operator && !s.hard
  {
    var init := Init(cfg);
    assert Reachable(cfg, init) by { assert Exec(cfg, init, []) == Some(init); }
    hide Reachable;
    ReachStep(cfg, init, Cancel(false));
    var cancelled := init.(cancelled := true, operator := true);
    ReachStep(cfg, cancelled, ReaderNext);
    var read := cancelled.(reader := ReaderDone);
    ReachStep(cfg, read, AccReceive);
    var left := read.(acc := AccDone(CancelSeen));
    assert Apply(cfg, read, AccReceive) == left;
    var done := LeaveAll(cfg, left, 0);
    s := JoinUnflagged(cfg, done);
  }

  /** One row, cancelled from outside before it is read: every task ends with `Ok` and the report raises no flag. */
  lemma SoftCancelLooksComplete() returns (cfg: Config, s: State)
    ensures ValidConfig(cfg) && cfg.external && Reachable(cfg, s) && s.joined && s.operator && !s.hard
    ensures !Aborted(cfg, s) && !Complete(cfg, s)
  {
    cfg := Solo([TinyRow(0)], true);
    assert cfg.items == [Source(TinyRow(0))];
    assert Select(cfg, cfg.items, 0) != [];
    s := CancelAtOnce(cfg);
    hide Reachable, Complete, Select, Aborted;
    CompleteIffNothingMissed(cfg, s);
  }

  // ------------------------------------------------------------------
  // Blocked without a cancel
  // ------------------------------------------------------------------

  lemma {:induction false} ParsedSolo(rows: seq<Row>)
    ensures Parsed(Solo(rows, false).items) == rows
  {
    if rows != [] {
      ParsedSolo(rows[1..]);
      assert Solo(rows, false).items[1..] == Solo(rows[1..], false).items;
    }
  }

  /** Row mode: several rows travel from the input to the job queue, one after the other. */
  lemma {:induction false} FeedMany(cfg: Config, s: State, k: nat) returns (t: State)
    requires cfg.runtime == SIMPLE && cfg.limit.None?
    requires Reachable(cfg, s) && !s.cancelled && s.reader == Reading && s.acc == Receiving
    requires s.rowQ == [] && s.pending == [] && s.pendingBytes == 0
    requires k <= |s.items| && |s.jobQ| + k <= JOB_CHANNEL_CAP
    requires forall i :: 0 <= i < k ==> s.items[i].Source? && cfg.Wants(s.items[i].row) && Dispatchable(s.items[i].row)
    ensures Reachable(cfg, t) && |t.jobQ| == |s.jobQ| + k
    ensures t == s.(items := s.items[k..], emitted := t.emitted, jobQ := t.jobQ, sent := t.sent)
    decreases k
  {
    if k == 0 {
      t := s;
    } else {
      var one := FeedOne(cfg, s, s.items[0].row);
      hide Reachable, Dispatchable;
      t := FeedMany(cfg, one, k - 1);
    }
  }

  /** The last row arrives at a full job queue, and the input ends behind it. */
  lemma FillUp(cfg: Config, s: State, row: Row) returns (t: State)
    requires cfg.runtime == SIMPLE && cfg.Wants(row) && cfg.limit.None? && Dispatchable(row)
    requires Reachable(cfg, s) && !s.cancelled && s.reader == Reading && s.acc == Receiving
    requires s.items == [Source(row)] && s.rowQ == [] && s.pending == [] && s.pendingBytes == 0
    ensures Reachable(cfg, t)
    ensures t == s.(items := [], emitted := s.emitted + 1, reader := ReaderDone, acc := FlushFull,
                    pending := [row], pendingBytes := row.size)
  {
    var queued := ReadOne(cfg, s, row);
    hide Reachable;
    ReachStep(cfg, queued, AccReceive);
    var full := queued.(rowQ := [], pending := [row], pendingBytes := row.size, acc := FlushFull);
    assert Apply(cfg, queued, AccReceive) == full;
    ReachStep(cfg, full, ReaderNext);
    t := Apply(cfg, full, ReaderNext);
  }

  /** 66 rows and one worker whose first write fails: with nobody left to drain it, the job queue fills up for good. */
  lemma WedgedIsReachable() returns (cfg: Config, s: State)
    ensures ValidConfig(cfg) && Reachable(cfg, s) && Wedged(s) && !CanStep(cfg, s)
  {
    var rows := seq(66, i requires 0 <= i < 66 => TinyRow(i));
    cfg := Solo(rows, false);
    ParsedSolo(rows);
    var init := Init(cfg);
    assert Reachable(cfg, init) by { assert Exec(cfg, init, []) == Some(init); }
    assert init.workers == [Idle];
    hide Reachable;
    var first := FeedOne(cfg, init, TinyRow(0));
    var lost := LoseWorker(cfg, first);
    assert lost.jobQ == [];
    var queued := FeedMany(cfg, lost, 64);
    assert queued.items == [Source(TinyRow(65))];
    s := FillUp(cfg, queued, TinyRow(65));
    hide Wedged, CanStep, Solo, Init;
    assert Wedged(s) by { ShownWedged(s); }
    BlockedIffWedged(cfg, s);
  }

  lemma ShownWedged(s: State)
    requires !s.cancelled && s.workers == [Stopped(WriteFailed)] && s.acc.FlushFull?
    requires |s.jobQ| == JOB_CHANNEL_CAP && s.reader.ReaderDone?
    ensures Wedged(s)
  {
  }

  // ------------------------------------------------------------------
  // A run in which everything goes well
  // ------------------------------------------------------------------

  /** Nothing is under way and nothing has happened to any task. */
  predicate Resting(s: State) {
    && !s.cancelled && !s.stalled && !s.hard && !s.joined && s.lock.None? && s.workers == [Idle]
    && s.reader == Reading && s.acc == Receiving
    && s.rowQ == [] && s.pending == [] && s.pendingBytes == 0 && s.jobQ == []
  }

  function SuccessLine(row: Row): BatchOutcome { FromOutcomes([Success(row.seqNo, map[], 0)]) }

  lemma EmptyResult(row: Row)
    ensures ReplyLine(SIMPLE, [row], Message(Result(row.seqNo, map[]))) == SuccessLine(row)
  {
    var reply := Message(Result(row.seqNo, map[]));
    assert ReplyOutcomes(RowMode, Seqs([row]), true, reply) == [Success(row.seqNo, map[], 0)];
  }

  /** The only worker takes a single-row batch and logs the handler's empty result for it. */
  lemma ServeOne(cfg: Config, s: State, row: Row) returns (t: State)
    requires cfg.runtime == SIMPLE && Reachable(cfg, s) && !s.cancelled && s.lock.None? && s.workers == [Idle]
    requires s.jobQ == [[row]]
    ensures Reachable(cfg, t) && t == s.(jobQ := [], log := s.log + [SuccessLine(row)])
  {
    EmptyResult(row);
    hide Reachable, ReplyLine, SuccessLine;
    ReachStep(cfg, s, Lock(0));
    var locked := s.(lock := Some(0));
    ReachStep(cfg, locked, Pull(0));
    var taken := s.(jobQ := [], workers := [Sending([row])]);
    assert Apply(cfg, locked, Pull(0)) == taken;
    ReachStep(cfg, taken, Write(0, true));
    var waiting := taken.(workers := [Waiting([row])]);
    assert Apply(cfg, taken, Write(0, true)) == waiting;
    var reply := Message(Result(row.seqNo, map[]));
    ReachStep(cfg, waiting, Answer(0, reply));
    var recording := taken.(workers := [Recording([row], SuccessLine(row), None)]);
    assert Apply(cfg, waiting, Answer(0, reply)) == recording;
    ReachStep(cfg, recording, Append(0, true));
    t := Apply(cfg, recording, Append(0, true));
  }

  /** A row over the hard cap goes straight to the log. */
  lemma RejectOne(cfg: Config, s: State, row: Row) returns (t: State)
    requires cfg.Wants(row) && cfg.limit.None? && !Dispatchable(row) && Reachable(cfg, s) && Resting(s)
    requires s.items != [] && s.items[0] == Source(row)
    ensures Reachable(cfg, t) && Resting(t) && t.items == s.items[1..] && s.log <= t.log
  {
    var queued := ReadOne(cfg, s, row);
    hide Reachable;
    ReachStep(cfg, queued, AccReceive);
    var meeting := queued.(rowQ := [], acc := Rejecting(row));
    assert Apply(cfg, queued, AccReceive) == meeting;
    ReachStep(cfg, meeting, AccReject(true));
    t := Apply(cfg, meeting, AccReject(true));
  }

  /** One input item is dealt with completely before the next. */
  lemma ServeItem(cfg: Config, s: State) returns (t: State)
    requires cfg.runtime == SIMPLE && cfg.limit.None? && Reachable(cfg, s) && Resting(s) && s.items != []
    ensures Reachable(cfg, t) && Resting(t) && t.items == s.items[1..] && s.log <= t.log
    ensures s.items[0].Source? && cfg.Wants(s.items[0].row) && Dispatchable(s.items[0].row)
      ==> t.log == s.log + [SuccessLine(s.items[0].row)]
  {
    hide Reachable;
    if s.items[0].Source? && cfg.Wants(s.items[0].row) {
      var row := s.items[0].row;
      if Dispatchable(row) {
        var fed := FeedOne(cfg, s, row);
        t := ServeOne(cfg, fed, row);
      } else {
        t := RejectOne(cfg, s, row);
      }
    } else {
      ReachStep(cfg, s, ReaderNext);
      t := Apply(cfg, s, ReaderNext);
    }
  }

  lemma {:induction false} ServeAll(cfg: Config, s: State) returns (t: State)
    requires cfg.runtime == SIMPLE && cfg.limit.None? && Reachable(cfg, s) && Resting(s)
    ensures Reachable(cfg, t) && Resting(t) && t.items == [] && s.log <= t.log
    ensures forall row :: Source(row) in s.items && cfg.Wants(row) && Dispatchable(row) ==> SuccessLine(row) in t.log
    decreases |s.items|
  {
    hide Reachable, Resting, SuccessLine, Dispatchable;
    if s.items == [] {
      t := s;
    } else {
      var one := ServeItem(cfg, s);
      t := ServeAll(cfg, one);
      assert s.items == [s.items[0]] + s.items[1..];
      assert forall line :: line in one.log ==> line in t.log;
    }
  }

  lemma LeaveDrained(cfg: Config, s: State) returns (t: State)
    requires Reachable(cfg, s) && !s.cancelled && s.lock.None? && s.workers == [Idle] && s.jobQ == [] && s.acc.AccDone?
    ensures Reachable(cfg, t) && t == s.(workers := [Stopped(Drained)])
  {
    hide Reachable;
    ReachStep(cfg, s, Lock(0));
    var locked := s.(lock := Some(0));
    ReachStep(cfg, locked, Pull(0));
    t := Apply(cfg, locked, Pull(0));
  }

  /** Over any input there is a run of one worker in which every wanted row of proper size succeeds. */
  lemma PerfectRun(cfg: Config) returns (s: State)
    requires cfg.runtime == SIMPLE && cfg.workers == 1 && cfg.limit.None?
    ensures Reachable(cfg, s) && s.joined && !Aborted(cfg, s)
    ensures forall row :: Source(row) in cfg.items && cfg.Wants(row) && Dispatchable(row) ==> SuccessLine(row) in s.log
  {
    var init := Init(cfg);
    assert Reachable(cfg, init) by { assert Exec(cfg, init, []) == Some(init); }
    assert init.workers == [Idle];
    hide Reachable;
    var served := ServeAll(cfg, init);
    var read := EndInput(cfg, served);
    var left := LeaveDrained(cfg, read);
    ReachStep(cfg, left, Join);
    s := Apply(cfg, left, Join);
    assert s.workers[0] != Stopped(LogFailed);
  }
}
