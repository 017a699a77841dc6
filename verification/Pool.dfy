/**
 The pipeline's shared state as one object whose tasks' steps update it in
 place. Each method is one action of the transition system; `Run` drives a
 whole schedule of them and `Report` decides the abort flag.
 */
module Pool {
  import opened Base
  import opened Protocol
  import opened Batching
  import opened WorkerLines
  import opened Pipeline
  import opened PipelineAccount
  import opened PipelineSafety
  import PipelineFlag

  class StreamingPool {
    const cfg: Config
    var items: seq<Item>
    var emitted: nat
    var reader: ReaderPhase
    var rowQ: seq<Row>
    var acc: AccPhase
    var pending: Batch
    var pendingBytes: nat
    var jobQ: seq<Batch>
    var lock: Option<nat>
    var workers: seq<WorkerPhase>
    var log: seq<BatchOutcome>
    var cancelled: bool
    var operator: bool
    var hard: bool
    var stalled: bool
    var joined: bool
    ghost var sent: seq<Batch>
    ghost var rejected: seq<Row>
    ghost var lost: seq<Row>

    ghost function Model(): State reads this {
      State(items, emitted, reader, rowQ, acc, pending, pendingBytes, jobQ, lock, workers, log,
            cancelled, operator, hard, stalled, joined, sent, rejected, lost)
    }

    constructor (cfg: Config)
      ensures this.cfg == cfg && Model() == Init(cfg)
    {
      this.cfg := cfg;
      items, emitted, reader, rowQ := cfg.items, 0, Reading, [];
      acc, pending, pendingBytes, jobQ := Receiving, [], 0, [];
      lock, workers, log := None, seq(cfg.WorkerCount(), i => Idle), [];
      cancelled, operator, hard, stalled, joined := false, false, false, false, false;
      sent, rejected, lost := [], [], [];
    }

    method ReadNext()
      requires Enabled(cfg, Model(), ReaderNext)
      modifies this`items, this`emitted, this`reader
      ensures Model() == Apply(cfg, old(Model()), ReaderNext)
    {
      if |items| == 0 {
        reader := ReaderDone;
        return;
      }
      if cancelled {
        reader := ReaderDone;
        return;
      }
      match items[0] {
        case ParseError =>
          items := items[1..];
        case Source(row) =>
          if cfg.only.Some? {
            if row.seqNo !in cfg.only.value {
              items := items[1..];
              return;
            }
          } else if row.seqNo in cfg.skip {
            items := items[1..];
            return;
          }
          if cfg.limit.Some? && emitted >= cfg.limit.value {
            reader := ReaderDone;
            return;
          }
          items, emitted, reader := items[1..], emitted + 1, Holding(row);
      }
    }

    method SendRow()
      requires Enabled(cfg, Model(), ReaderSend)
      modifies this`lost, this`reader, this`rowQ
      ensures Model() == Apply(cfg, old(Model()), ReaderSend)
    {
      var row := reader.row;
      if cancelled || acc.AccDone? {
        lost := lost + [row];
        reader := ReaderDone;
      } else {
        rowQ := rowQ + [row];
        reader := Reading;
      }
    }

    /** What the accumulator holds and what waits for it goes with it. */
    method Drop(held: seq<Row>)
      modifies this`lost, this`pending, this`pendingBytes, this`rowQ
      ensures lost == old(lost) + old(pending) + held + old(rowQ)
      ensures pending == [] && pendingBytes == 0 && rowQ == []
    {
      lost := lost + pending + held + rowQ;
      pending, pendingBytes, rowQ := [], 0, [];
    }

    /** The accumulator returns and drops what it owns. */
    method LeaveAccumulator(end: AccEnd, held: seq<Row>)
      modifies this`lost, this`pending, this`pendingBytes, this`rowQ, this`acc
      ensures Model() == AccExit(old(Model()), end, held)
    {
      Drop(held);
      acc := AccDone(end);
    }

    method PushPending(row: Row)
      modifies this`pending, this`pendingBytes, this`acc
      ensures Model() == AccPush(cfg, old(Model()), row)
    {
      pending := pending + [row];
      pendingBytes := pendingBytes + row.size;
      acc := if |pending| >= cfg.runtime.MaxCount() then FlushFull else Receiving;
    }

    method ReceiveRow()
      requires Enabled(cfg, Model(), AccReceive)
      modifies this`lost, this`pending, this`pendingBytes, this`rowQ, this`acc
      ensures Model() == Apply(cfg, old(Model()), AccReceive)
    {
      hide AccPush, AccExit;
      if cancelled {
        LeaveAccumulator(CancelSeen, []);
        return;
      }
      if |rowQ| == 0 {
        if |pending| == 0 {
          LeaveAccumulator(RowsDrained, []);
        } else {
          acc := FlushEof;
        }
        return;
      }
      var row := rowQ[0];
      rowQ := rowQ[1..];
      if row.size > ROW_HARD_CAP_BYTES {
        acc := Rejecting(row);
      } else if |pending| != 0 && pendingBytes + row.size > cfg.runtime.maxBatchBytes {
        acc := FlushThen(row);
      } else if |pending| != 0 && pendingBytes + row.size > cfg.runtime.batchBytesTarget {
        acc := FlushThen(row);
      } else {
        PushPending(row);
      }
    }

    method EnqueuePending()
      modifies this`jobQ, this`sent, this`pending, this`pendingBytes
      ensures jobQ == old(jobQ) + [old(pending)] && sent == old(sent) + [old(pending)]
      ensures pending == [] && pendingBytes == 0
    {
      jobQ := jobQ + [pending];
      sent := sent + [pending];
      pending, pendingBytes := [], 0;
    }

    /** The send arm: the batch is enqueued, and the accumulator goes on from where it flushed. */
    method SendPending()
      requires Flushing(acc) && !cancelled
      modifies this`jobQ, this`sent, this`pending, this`pendingBytes, this`acc, this`rowQ, this`lost
      ensures Model() == DoAccFlush(cfg, old(Model()))
    {
      hide AccPush, AccExit;
      EnqueuePending();
      match acc {
        case FlushThen(row) => PushPending(row);
        case FlushFull => acc := Receiving;
        case FlushEof => LeaveAccumulator(RowsDrained, []);
      }
    }

    method FlushPending()
      requires Enabled(cfg, Model(), AccFlush)
      modifies this`jobQ, this`sent, this`pending, this`pendingBytes, this`acc, this`rowQ, this`lost
      ensures Model() == Apply(cfg, old(Model()), AccFlush)
    {
      if cancelled {
        LeaveAccumulator(FlushCancelled, HeldByAcc(acc));
      } else {
        SendPending();
      }
    }

    method RejectRow(ok: bool)
      requires Enabled(cfg, Model(), AccReject(ok))
      modifies this`lost, this`pending, this`pendingBytes, this`rowQ, this`acc, this`log, this`rejected
      ensures Model() == Apply(cfg, old(Model()), AccReject(ok))
    {
      var row := acc.row;
      if !ok {
        LeaveAccumulator(AccLogFailed, [row]);
        return;
      }
      log := log + [TooLargeLine(row)];
      rejected := rejected + [row];
      acc := Receiving;
    }

    method LockJobs(w: nat)
      requires Enabled(cfg, Model(), Lock(w))
      modifies this`lock
      ensures Model() == Apply(cfg, old(Model()), Lock(w))
    {
      lock := Some(w);
    }

    method PullBatch(w: nat)
      requires Enabled(cfg, Model(), Pull(w))
      modifies this`lock, this`workers, this`jobQ
      ensures Model() == Apply(cfg, old(Model()), Pull(w))
    {
      lock := None;
      if cancelled {
        workers := workers[w := Stopped(SawCancel)];
      } else if |jobQ| != 0 {
        workers := workers[w := Sending(jobQ[0])];
        jobQ := jobQ[1..];
      } else {
        workers := workers[w := Stopped(Drained)];
      }
    }

    method WriteBatch(w: nat, ok: bool)
      requires Enabled(cfg, Model(), Write(w, ok))
      modifies this`workers
      ensures Model() == Apply(cfg, old(Model()), Write(w, ok))
    {
      var batch := workers[w].batch;
      if ok {
        workers := workers[w := Waiting(batch)];
      } else {
        workers := workers[w := Recording(batch, CrashLine(cfg.runtime, batch), Some(WriteFailed))];
      }
    }

    method TakeReply(w: nat, reply: Reply)
      requires Enabled(cfg, Model(), Answer(w, reply))
      modifies this`workers
      ensures Model() == Apply(cfg, old(Model()), Answer(w, reply))
    {
      var batch := workers[w].batch;
      workers := workers[w := Recording(batch, ReplyLine(cfg.runtime, batch, reply), None)];
    }

    method CutOffWorker(w: nat)
      requires Enabled(cfg, Model(), CutRecv(w))
      modifies this`workers
      ensures Model() == Apply(cfg, old(Model()), CutRecv(w))
    {
      var batch := workers[w].batch;
      workers := workers[w := Recording(batch, CrashLine(cfg.runtime, batch), Some(CutOff))];
    }

    method AppendLine(w: nat, ok: bool)
      requires Enabled(cfg, Model(), Append(w, ok))
      modifies this`lost, this`workers, this`log
      ensures Model() == Apply(cfg, old(Model()), Append(w, ok))
    {
      var p := workers[w];
      if !ok {
        lost := lost + p.batch;
        workers := workers[w := Stopped(LogFailed)];
        return;
      }
      log := log + [p.line];
      workers := workers[w := match p.end case Some(why) => Stopped(why) case None => Idle];
    }

    method CancelBy(hardly: bool)
      requires Enabled(cfg, Model(), Cancel(hardly))
      modifies this`cancelled, this`operator, this`hard
      ensures Model() == Apply(cfg, old(Model()), Cancel(hardly))
    {
      cancelled, operator, hard := true, true, hard || hardly;
    }

    method StallOut()
      requires Enabled(cfg, Model(), Stall)
      modifies this`cancelled, this`stalled
      ensures Model() == Apply(cfg, old(Model()), Stall)
    {
      cancelled, stalled := true, true;
    }

    method JoinTasks()
      requires Enabled(cfg, Model(), Join)
      modifies this`cancelled, this`joined
      ensures Model() == Apply(cfg, old(Model()), Join)
    {
      cancelled, joined := true, true;
    }

    method Step(a: Action)
      requires Enabled(cfg, Model(), a)
      modifies this
      ensures Model() == Apply(cfg, old(Model()), a)
    {
      match a {
        case ReaderNext => ReadNext();
        case ReaderSend => SendRow();
        case AccReceive => ReceiveRow();
        case AccFlush => FlushPending();
        case AccReject(ok) => RejectRow(ok);
        case Lock(w) => LockJobs(w);
        case Pull(w) => PullBatch(w);
        case Write(w, ok) => WriteBatch(w, ok);
        case Answer(w, reply) => TakeReply(w, reply);
        case CutRecv(w) => CutOffWorker(w);
        case Append(w, ok) => AppendLine(w, ok);
        case Cancel(hardly) => CancelBy(hardly);
        case Stall => StallOut();
        case Join => JoinTasks();
      }
    }

    /** Runs a schedule; every state passed through is a reachable one. */
    method Run(schedule: seq<Action>)
      requires Model() == Init(cfg) && Exec(cfg, Init(cfg), schedule).Some?
      modifies this
      ensures Some(Model()) == Exec(cfg, Init(cfg), schedule) && Reachable(cfg, Model())
    {
      var i := 0;
      while i < |schedule|
        invariant 0 <= i <= |schedule|
        invariant Exec(cfg, Model(), schedule[i..]) == Exec(cfg, Init(cfg), schedule)
      {
        Step(schedule[i]);
        i := i + 1;
      }
    }

    /** The report's decision, collecting the workers' errors first. */
    method Report() returns (aborted: bool)
      ensures aborted == Aborted(cfg, Model())
    {
      var workerErrors: seq<nat> := [];
      for i := 0 to |workers|
        invariant workerErrors != [] <==> exists k :: 0 <= k < i && workers[k] == Stopped(LogFailed)
      {
        if workers[i] == Stopped(LogFailed) {
          workerErrors := workerErrors + [i];
        }
      }
      if stalled { return true; }
      if |workerErrors| != 0 { return true; }
      if acc == AccDone(AccLogFailed) { return true; }
      if cfg.external && cancelled && hard { return true; }
      if cfg.external && cancelled && acc == AccDone(FlushCancelled) { return true; }
      return false;
    }

    /** A whole run and its report: flagged on exactly those grounds. */
    method RunToReport(schedule: seq<Action>) returns (aborted: bool)
      requires ValidConfig(cfg) && Model() == Init(cfg)
      requires Exec(cfg, Init(cfg), schedule).Some? && Exec(cfg, Init(cfg), schedule).value.joined
      modifies this
      ensures Some(Model()) == Exec(cfg, Init(cfg), schedule)
      ensures aborted <==> PipelineFlag.Flagged(cfg, schedule)
    {
      Run(schedule);
      PipelineFlag.FlaggedIff(cfg, schedule, Model());
      aborted := Report();
    }
  }

  // ------------------------------------------------------------------
  // compute_run_stats
  // ------------------------------------------------------------------

  datatype RunStats = RunStats(success: nat, failed: nat, byErrorCode: map<string, nat>)

  function CountIf(p: RowOutcome -> bool, outcomes: seq<RowOutcome>): nat { |Filter(p, outcomes)| }

  function WithCode(code: string): RowOutcome -> bool {
    (o: RowOutcome) => (o.Error? && o.code == code) || (o.Crash? && code == "WORKER_CRASH")
  }

  function IsSuccess(o: RowOutcome): bool { o.Success? }

  function CountAt(counts: map<string, nat>, code: string): nat { if code in counts then counts[code] else 0 }

  ghost predicate Tallies(stats: RunStats, outcomes: seq<RowOutcome>) {
    && stats.success == CountIf(IsSuccess, outcomes)
    && stats.success + stats.failed == |outcomes|
    && forall code :: CountAt(stats.byErrorCode, code) == CountIf(WithCode(code), outcomes)
  }

  method ComputeRunStats(outcomes: seq<RowOutcome>) returns (stats: RunStats)
    ensures Tallies(stats, outcomes)
  {
    stats := RunStats(0, 0, map[]);
    for i := 0 to |outcomes|
      invariant stats.success == CountIf(IsSuccess, outcomes[..i])
      invariant stats.success + stats.failed == i
      invariant forall code :: CountAt(stats.byErrorCode, code) == CountIf(WithCode(code), outcomes[..i])
    {
      var o := outcomes[i];
      assert outcomes[..i + 1] == outcomes[..i] + [o];
      FilterConcat(IsSuccess, outcomes[..i], [o]);
      forall code ensures CountIf(WithCode(code), outcomes[..i + 1])
                       == CountIf(WithCode(code), outcomes[..i]) + if WithCode(code)(o) then 1 else 0 {
        FilterConcat(WithCode(code), outcomes[..i], [o]);
      }
      match o {
        case Success(_, _, _) =>
          stats := stats.(success := stats.success + 1);
        case Error(_, code, _, _, _) =>
          stats := stats.(failed := stats.failed + 1,
                          byErrorCode := stats.byErrorCode[code := CountAt(stats.byErrorCode, code) + 1]);
        case Crash(_, _, _) =>
          var crashes := CountAt(stats.byErrorCode, ERR_WORKER_CRASH);
          stats := stats.(failed := stats.failed + 1,
                          byErrorCode := stats.byErrorCode[ERR_WORKER_CRASH := crashes + 1]);
      }
    }
    assert outcomes[..|outcomes|] == outcomes;
  }

  /** Each code is counted as often as errors came under it, a crash being one of WORKER_CRASH. */
  lemma CodesAreCounted(stats: RunStats, outcomes: seq<RowOutcome>, code: string)
    requires Tallies(stats, outcomes)
    ensures var errors := Filter((o: RowOutcome) => o.Error? && o.code == code, outcomes);
      var crashes := Filter((o: RowOutcome) => o.Crash?, outcomes);
      CountAt(stats.byErrorCode, code) == |errors| + if code == "WORKER_CRASH" then |crashes| else 0
  {
    SplitCount(code, outcomes);
  }

  lemma {:induction false} SplitCount(code: string, outcomes: seq<RowOutcome>)
    ensures CountIf(WithCode(code), outcomes)
         == |Filter((o: RowOutcome) => o.Error? && o.code == code, outcomes)|
            + if code == "WORKER_CRASH" then |Filter((o: RowOutcome) => o.Crash?, outcomes)| else 0
  {
    if outcomes != [] { SplitCount(code, outcomes[1..]); }
  }

  lemma {:induction false} CountAllIff<T>(p: T -> bool, xs: seq<T>)
    ensures |Filter(p, xs)| <= |xs|
    ensures |Filter(p, xs)| == |xs| <==> forall x :: x in xs ==> p(x)
  {
    if xs != [] {
      CountAllIff(p, xs[1..]);
      assert xs == [xs[0]] + xs[1..];
    }
  }

  ghost predicate SucceededIn(outcomes: seq<RowOutcome>, s: nat) {
    exists o :: o in outcomes && o.seqNo == s && o.Success?
  }

  lemma InBoth(cfg: Config, s: State, x: nat)
    requires Complete(cfg, s)
    ensures x in LogSeqs(s.log) <==> x in Seqs(Selected(cfg))
  {
    assert x in LogSeqs(s.log) <==> x in multiset(LogSeqs(s.log));
    assert x in Seqs(Selected(cfg)) <==> x in Bag(Selected(cfg));
  }

  lemma AllSucceedIff(cfg: Config, s: State)
    requires Complete(cfg, s) && Distinct(LogSeqs(s.log))
    ensures (forall o :: o in LogOutcomes(s.log) ==> o.Success?)
       <==> (forall row :: row in Selected(cfg) ==> SucceededIn(LogOutcomes(s.log), row.seqNo))
  {
    var outcomes, seqs, rows := LogOutcomes(s.log), LogSeqs(s.log), Selected(cfg);
    hide Complete, LogOutcomes, Selected;
    if forall o :: o in outcomes ==> o.Success? {
      forall row | row in rows ensures SucceededIn(outcomes, row.seqNo) {
        var i :| 0 <= i < |rows| && rows[i] == row;
        assert Seqs(rows)[i] in Seqs(rows);
        InBoth(cfg, s, row.seqNo);
        var k :| 0 <= k < |seqs| && seqs[k] == row.seqNo;
        assert outcomes[k] in outcomes;
      }
    }
    if forall row :: row in rows ==> SucceededIn(outcomes, row.seqNo) {
      forall i | 0 <= i < |outcomes| ensures outcomes[i].Success? {
        assert seqs[i] in seqs;
        InBoth(cfg, s, seqs[i]);
        var r :| 0 <= r < |rows| && Seqs(rows)[r] == seqs[i];
        assert rows[r] in rows;
        var o :| o in outcomes && o.seqNo == seqs[i] && o.Success?;
        var k :| 0 <= k < |outcomes| && outcomes[k] == o;
        assert seqs[k] == seqs[i];
      }
    }
  }

  /** The counters of a complete run add up to the rows selected, and none failed iff each of them succeeded. */
  lemma CompleteRunCounts(cfg: Config, s: State, stats: RunStats)
    requires ValidConfig(cfg) && Reachable(cfg, s) && Complete(cfg, s) && Tallies(stats, LogOutcomes(s.log))
    ensures stats.success + stats.failed == |Selected(cfg)|
    ensures stats.failed == 0 <==> forall row :: row in Selected(cfg) ==> SucceededIn(LogOutcomes(s.log), row.seqNo)
  {
    assert |multiset(LogSeqs(s.log))| == |LogSeqs(s.log)|;
    assert |Bag(Selected(cfg))| == |Selected(cfg)|;
    AtMostOnceInLog(cfg, s);
    AllSucceedIff(cfg, s);
    CountAllIff(IsSuccess, LogOutcomes(s.log));
    hide Reachable, ValidConfig, Selected, LogOutcomes, Filter, SucceededIn, Distinct;
  }
}
