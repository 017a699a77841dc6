/**
 What the lines of an attempt's log are: well formed, and exactly one for
 each batch a worker has taken, naming that batch's rows in order.
 */
module PipelineLines {
  import opened Base
  import opened Protocol
  import opened Batching
  import opened WorkerLines
  import opened Pipeline
  import opened PipelineSafety
  import opened PipelineAccount
  import opened PipelineBatches
  import opened PipelineComplete

  /** The batches workers have taken from the queue: all that were sent but the queued ones. */
  function Pulled(s: State): seq<Batch>
    requires |s.jobQ| <= |s.sent|
  {
    s.sent[..|s.sent| - |s.jobQ|]
  }

  /** The queue is first in, first out, and what a worker holds it has taken from there. */
  ghost predicate Fifo(s: State) {
    && |s.jobQ| <= |s.sent| && s.sent == Pulled(s) + s.jobQ
    && forall w :: 0 <= w < |s.workers| && InHand(s.workers[w]) != [] ==> InHand(s.workers[w]) in Pulled(s)
  }

  ghost predicate AllSound(s: State) {
    && (forall line :: line in s.log ==> Sound(line))
    && forall w :: 0 <= w < |s.workers| && s.workers[w].Recording? ==> Sound(s.workers[w].line)
  }

  lemma EnqueueKeepsFifo(s: State, t: State)
    requires Fifo(s) && t.workers == s.workers
    requires (t.jobQ == s.jobQ && t.sent == s.sent) || exists b :: t.jobQ == s.jobQ + [b] && t.sent == s.sent + [b]
    ensures Fifo(t)
  {
    if b :| t.jobQ == s.jobQ + [b] && t.sent == s.sent + [b] {
      assert Pulled(t) == Pulled(s);
      hide InHand;
    }
  }

  lemma TakeKeepsFifo(s: State, t: State, w: nat)
    requires Fifo(s) && s.jobQ != [] && t.jobQ == s.jobQ[1..] && t.sent == s.sent
    requires w < |s.workers| && t.workers == s.workers[w := Sending(s.jobQ[0])]
    ensures Fifo(t)
  {
    assert Pulled(t) == Pulled(s) + [s.jobQ[0]];
    assert s.jobQ == [s.jobQ[0]] + t.jobQ;
    hide Pulled;
    ConcatLeft(Pulled(s), s.jobQ[0], t.jobQ);
    assert s.jobQ[0] in Pulled(s) + [s.jobQ[0]];
  }

  lemma LeaveKeepsFifo(s: State, t: State, w: nat, why: WorkerEnd)
    requires Fifo(s) && t.jobQ == s.jobQ && t.sent == s.sent
    requires w < |s.workers| && t.workers == s.workers[w := Stopped(why)]
    ensures Fifo(t)
  {
    assert Pulled(t) == Pulled(s);
    hide Pulled;
  }

  lemma PullKeepsFifo(cfg: Config, s: State, w: nat)
    requires Fifo(s) && Enabled(cfg, s, Pull(w))
    ensures Fifo(DoPull(s, w))
  {
    hide Fifo;
    if s.cancelled {
      LeaveKeepsFifo(s, DoPull(s, w), w, SawCancel);
    } else if s.jobQ != [] {
      TakeKeepsFifo(s, DoPull(s, w), w);
    } else {
      LeaveKeepsFifo(s, DoPull(s, w), w, Drained);
    }
  }

  lemma ConcatLeft<T>(a: seq<T>, x: T, b: seq<T>)
    ensures a + ([x] + b) == (a + [x]) + b
  {
  }

  lemma HandKeeps(cfg: Config, s: State, a: Action)
    requires Inv(cfg, s) && Enabled(cfg, s, a) && OfAWorker(a) && !a.Pull?
    ensures a.w < |s.workers| && a.w < |Apply(cfg, s, a).workers|
    ensures var t := Apply(cfg, s, a);
      && t.jobQ == s.jobQ && t.sent == s.sent
      && (InHand(t.workers[a.w]) == InHand(s.workers[a.w]) || InHand(t.workers[a.w]) == [])
  {
    hide CrashLine, ReplyLine, Inv;
    match a
    case Write(_, _) =>
    case Answer(_, _) =>
    case CutRecv(_) =>
    case Append(_, _) =>
  }

  lemma FifoStep(cfg: Config, s: State, a: Action)
    requires Inv(cfg, s) && Enabled(cfg, s, a) && Fifo(s)
    ensures Fifo(Apply(cfg, s, a))
  {
    var t := Apply(cfg, s, a);
    if a.Pull? {
      PullKeepsFifo(cfg, s, a.w);
    } else if OfAWorker(a) {
      WorkerFrame(cfg, s, a);
      HandKeeps(cfg, s, a);
      hide Inv, Enabled, Apply, InHand, Pulled;
      assert Pulled(t) == Pulled(s);
    } else if OfTheAccumulator(a) {
      AccumulatorFrame(cfg, s, a);
      if a.AccFlush? { FlushFrame(cfg, s); }
      hide Fifo, Inv, DoAccFlush;
      EnqueueKeepsFifo(s, t);
    } else {
      RestFrame(cfg, s, a);
      hide Fifo, Inv, Apply, Enabled;
      EnqueueKeepsFifo(s, t);
    }
  }

  lemma OneSound(s: State, t: State, w: nat)
    requires AllSound(s) && w < |s.workers| && w < |t.workers| && t.workers == s.workers[w := t.workers[w]]
    requires t.workers[w].Recording? ==> Sound(t.workers[w].line)
    requires t.log == s.log || (s.workers[w].Recording? && t.log == s.log + [s.workers[w].line])
    ensures AllSound(t)
  {
    hide Sound;
  }

  lemma LineSound(s: State, t: State)
    requires AllSound(s) && t.workers == s.workers
    requires t.log == s.log || (exists row :: t.log == s.log + [TooLargeLine(row)])
    ensures AllSound(t)
  {
    forall row ensures Sound(TooLargeLine(row)) {}
    hide Sound, TooLargeLine;
  }

  lemma SoundStep(cfg: Config, s: State, a: Action)
    requires Inv(cfg, s) && Enabled(cfg, s, a) && AllSound(s)
    ensures AllSound(Apply(cfg, s, a))
  {
    hide Inv, Enabled, Apply, AllSound, Sound;
    if OfAWorker(a) {
      WorkerFrame(cfg, s, a);
      NewSound(cfg, s, a);
      OneSound(s, Apply(cfg, s, a), a.w);
    } else {
      if OfTheAccumulator(a) {
        AccumulatorFrame(cfg, s, a);
        AccumulatorLogs(cfg, s, a);
      } else {
        RestFrame(cfg, s, a);
      }
      LineSound(s, Apply(cfg, s, a));
    }
  }

  lemma NewSound(cfg: Config, s: State, a: Action)
    requires Inv(cfg, s) && Enabled(cfg, s, a) && AllSound(s) && OfAWorker(a)
    ensures a.w < |s.workers| && a.w < |Apply(cfg, s, a).workers|
    ensures var t := Apply(cfg, s, a);
      && (t.workers[a.w].Recording? ==> Sound(t.workers[a.w].line))
      && (t.log == s.log || (s.workers[a.w].Recording? && t.log == s.log + [s.workers[a.w].line]))
  {
    WorkerFrame(cfg, s, a);
    LogsItsLine(cfg, s, a);
    RecordsItsBatch(cfg, s, a);
    hide Sound, Inv, AllSound, Apply, Enabled, InHand, Covered;
  }

  lemma AccumulatorLogs(cfg: Config, s: State, a: Action)
    requires Enabled(cfg, s, a) && OfTheAccumulator(a)
    ensures var t := Apply(cfg, s, a);
      t.log == s.log || (s.acc.Rejecting? && t.log == s.log + [TooLargeLine(s.acc.row)])
  {
    AccumulatorActs(cfg, s, a);
    hide Apply, Enabled, TooLargeLine;
  }

  lemma {:induction false} ExecKeepsLines(cfg: Config, s: State, schedule: seq<Action>)
    requires cfg.runtime.Validates() && Inv(cfg, s) && Fifo(s) && AllSound(s) && Exec(cfg, s, schedule).Some?
    ensures var t := Exec(cfg, s, schedule).value; Fifo(t) && AllSound(t)
    decreases |schedule|
  {
    hide Inv, Fifo, AllSound, Apply, Enabled;
    if schedule != [] {
      InvStep(cfg, s, schedule[0]);
      FifoStep(cfg, s, schedule[0]);
      SoundStep(cfg, s, schedule[0]);
      ExecKeepsLines(cfg, Apply(cfg, s, schedule[0]), schedule[1..]);
    }
  }

  /** In every reachable state each line of the log names the rows of its own outcomes, and the first of them again. */
  lemma LoggedLinesAreSound(cfg: Config, s: State)
    requires ValidConfig(cfg) && Reachable(cfg, s)
    ensures Fifo(s) && AllSound(s)
  {
    var schedule :| Exec(cfg, Init(cfg), schedule) == Some(s);
    InitInv(cfg);
    assert Fifo(Init(cfg)) && AllSound(Init(cfg));
    hide Inv, Fifo, AllSound, Init, Exec;
    ExecKeepsLines(cfg, Init(cfg), schedule);
  }

  // ------------------------------------------------------------------
  // Whom a line is about
  // ------------------------------------------------------------------

  ghost predicate ForABatch(rt: Runtime, line: BatchOutcome, sent: seq<Batch>) {
    exists b :: b in sent && b != [] && line.seqs == Covered(rt, b)
  }

  /** Lines are about oversized rows or about batches sent; what a worker is about to log is about a batch sent. */
  ghost predicate AllSourced(cfg: Config, s: State) {
    && (forall line :: line in s.log ==>
          (exists row :: line == TooLargeLine(row)) || ForABatch(cfg.runtime, line, s.sent))
    && forall w :: 0 <= w < |s.workers| && s.workers[w].Recording? ==> ForABatch(cfg.runtime, s.workers[w].line, s.sent)
  }

  lemma SourcedLater(rt: Runtime, line: BatchOutcome, before: seq<Batch>, after: seq<Batch>)
    requires ForABatch(rt, line, before) && before <= after
    ensures ForABatch(rt, line, after)
  {
    var b :| b in before && b != [] && line.seqs == Covered(rt, b);
    assert b in after;
  }

  lemma SendsMore(cfg: Config, s: State, a: Action)
    requires Inv(cfg, s) && Enabled(cfg, s, a)
    ensures s.sent <= Apply(cfg, s, a).sent
  {
    if OfAWorker(a) {
      WorkerFrame(cfg, s, a);
    } else if OfTheAccumulator(a) {
      AccumulatorSends(cfg, s, a);
    } else {
      RestFrame(cfg, s, a);
    }
    hide Apply, Enabled;
  }

  lemma AccumulatorSends(cfg: Config, s: State, a: Action)
    requires Enabled(cfg, s, a) && OfTheAccumulator(a)
    ensures s.sent <= Apply(cfg, s, a).sent
  {
    AccumulatorActs(cfg, s, a);
    hide Apply, Enabled, TooLargeLine;
  }

  /** What a worker is about to log after a step is about the batch it held before it. */
  lemma RecordsItsBatch(cfg: Config, s: State, a: Action)
    requires Inv(cfg, s) && Enabled(cfg, s, a) && OfAWorker(a)
    ensures a.w < |s.workers| && a.w < |Apply(cfg, s, a).workers|
    ensures var p := Apply(cfg, s, a).workers[a.w];
      p.Recording? ==>
        var b := InHand(s.workers[a.w]); b != [] && p.line.seqs == Covered(cfg.runtime, b) && Sound(p.line)
  {
    hide CrashLine, ReplyLine, Inv, Covered, Sound;
    match a
    case Pull(_) =>
    case Write(_, _) =>
    case Answer(_, _) =>
    case CutRecv(_) =>
    case Append(_, _) =>
  }

  lemma LogsItsLine(cfg: Config, s: State, a: Action)
    requires Inv(cfg, s) && Enabled(cfg, s, a) && OfAWorker(a)
    ensures a.w < |s.workers|
    ensures var t := Apply(cfg, s, a);
      t.log == s.log || (s.workers[a.w].Recording? && t.log == s.log + [s.workers[a.w].line])
  {
    WorkerFrame(cfg, s, a);
    hide CrashLine, ReplyLine, Inv;
    match a
    case Pull(_) =>
    case Write(_, _) =>
    case Answer(_, _) =>
    case CutRecv(_) =>
    case Append(_, _) =>
  }

  lemma OneSourced(cfg: Config, s: State, t: State, w: nat)
    requires AllSourced(cfg, s) && t.sent == s.sent && w < |s.workers| && w < |t.workers|
    requires t.workers == s.workers[w := t.workers[w]]
    requires t.log == s.log || (s.workers[w].Recording? && t.log == s.log + [s.workers[w].line])
    requires t.workers[w].Recording? ==> ForABatch(cfg.runtime, t.workers[w].line, s.sent)
    ensures AllSourced(cfg, t)
  {
    hide ForABatch, TooLargeLine;
  }

  lemma SourcedWorker(cfg: Config, s: State, a: Action)
    requires Inv(cfg, s) && Enabled(cfg, s, a) && AllSourced(cfg, s) && Fifo(s) && OfAWorker(a)
    ensures AllSourced(cfg, Apply(cfg, s, a))
  {
    hide Inv, Enabled, Apply, AllSourced, InHand;
    var t := Apply(cfg, s, a);
    WorkerFrame(cfg, s, a);
    RecordsItsBatch(cfg, s, a);
    LogsItsLine(cfg, s, a);
    if t.workers[a.w].Recording? {
      var batch := InHand(s.workers[a.w]);
      assert batch in Pulled(s);
      assert batch in s.sent && t.workers[a.w].line.seqs == Covered(cfg.runtime, batch);
    }
    OneSourced(cfg, s, t, a.w);
  }

  lemma SourcedStep(cfg: Config, s: State, a: Action)
    requires Inv(cfg, s) && Enabled(cfg, s, a) && AllSourced(cfg, s) && Fifo(s)
    ensures AllSourced(cfg, Apply(cfg, s, a))
  {
    var t := Apply(cfg, s, a);
    SendsMore(cfg, s, a);
    if OfAWorker(a) {
      SourcedWorker(cfg, s, a);
    } else {
      if OfTheAccumulator(a) {
        AccumulatorFrame(cfg, s, a);
        AccumulatorLogs(cfg, s, a);
      } else {
        RestFrame(cfg, s, a);
      }
      hide Inv, Enabled, Apply, Fifo, TooLargeLine;
      forall line | ForABatch(cfg.runtime, line, s.sent) ensures ForABatch(cfg.runtime, line, t.sent) {
        SourcedLater(cfg.runtime, line, s.sent, t.sent);
      }
      hide ForABatch;
    }
  }

  lemma {:induction false} ExecSourced(cfg: Config, s: State, schedule: seq<Action>)
    requires cfg.runtime.Validates() && Inv(cfg, s) && Fifo(s) && AllSourced(cfg, s) && Exec(cfg, s, schedule).Some?
    ensures AllSourced(cfg, Exec(cfg, s, schedule).value)
    decreases |schedule|
  {
    hide Inv, Fifo, AllSourced, Apply, Enabled;
    if schedule != [] {
      InvStep(cfg, s, schedule[0]);
      FifoStep(cfg, s, schedule[0]);
      SourcedStep(cfg, s, schedule[0]);
      ExecSourced(cfg, Apply(cfg, s, schedule[0]), schedule[1..]);
    }
  }

  lemma LinesAreSourced(cfg: Config, s: State)
    requires ValidConfig(cfg) && Reachable(cfg, s)
    ensures AllSourced(cfg, s)
  {
    var schedule :| Exec(cfg, Init(cfg), schedule) == Some(s);
    InitInv(cfg);
    assert Fifo(Init(cfg)) && AllSourced(cfg, Init(cfg));
    hide Inv, Fifo, AllSourced, Init, Exec;
    ExecSourced(cfg, Init(cfg), schedule);
  }

  lemma {:induction false} FromFilter(rows: seq<Row>, row: Row)
    requires row in Filter(Dispatchable, rows)
    ensures row in rows && Dispatchable(row)
  {
    if !Dispatchable(rows[0]) || row != rows[0] { FromFilter(rows[1..], row); }
  }

  /** Every row of every batch sent is one of the attempt's selected rows, and not oversized. */
  lemma SentRowsAreSelected(cfg: Config, s: State, b: Batch, row: Row)
    requires ValidConfig(cfg) && Reachable(cfg, s) && b in s.sent && row in b
    ensures row in Selected(cfg) && Dispatchable(row)
  {
    var rows := Filter(Dispatchable, Selected(cfg));
    BatchesIndependentOfSchedule(cfg, s);
    GreedyIsLegal(CapsOf(cfg.runtime), rows);
    var i :| 0 <= i < |s.sent| && s.sent[i] == b;
    hide Reachable, Greedy, Selected, Fits, Dispatchable;
    assert b == Target(cfg)[i];
    InFlatten(Target(cfg), i, row);
    FromFilter(Selected(cfg), row);
  }

  /** A success is always about a selected row that was not oversized. */
  lemma SuccessIsOfProperSize(cfg: Config, s: State, o: RowOutcome) returns (row: Row)
    requires ValidConfig(cfg) && Reachable(cfg, s) && o in LogOutcomes(s.log) && o.Success?
    ensures row in Selected(cfg) && Dispatchable(row) && row.seqNo == o.seqNo
  {
    LinesAreSourced(cfg, s);
    LoggedLinesAreSound(cfg, s);
    hide Reachable, ValidConfig;
    var line := InSomeLine(s.log, o);
    var i :| 0 <= i < |line.outcomes| && line.outcomes[i] == o;
    if r :| line == TooLargeLine(r) { TooLargeIsNoSuccess(r); }
    var b :| b in s.sent && b != [] && line.seqs == Covered(cfg.runtime, b);
    assert Sound(line) && line.seqs[i] == o.seqNo;
    assert Seqs(b)[i] == o.seqNo;
    row := b[i];
    SentRowsAreSelected(cfg, s, b, row);
  }

  lemma TooLargeIsNoSuccess(row: Row)
    ensures forall o :: o in TooLargeLine(row).outcomes ==> !o.Success?
  {
  }

  lemma {:induction false} InSomeLine(log: seq<BatchOutcome>, o: RowOutcome) returns (line: BatchOutcome)
    requires o in LogOutcomes(log)
    ensures line in log && o in line.outcomes
  {
    var front, last := log[..|log| - 1], log[|log| - 1];
    if o in last.outcomes {
      line := last;
    } else {
      line := InSomeLine(front, o);
    }
  }

  // ------------------------------------------------------------------
  // One line each
  // ------------------------------------------------------------------

  lemma TwoOfFive<T>(a: seq<T>, b: seq<T>, c: seq<T>, d: seq<T>, e: seq<T>, p: nat, q: nat)
    requires p < |b| && q < |d|
    ensures var all := (a + b + c) + d + e;
      && |a| + p < |a + b + c| + q < |all|
      && all[|a| + p] == b[p] && all[|a + b + c| + q] == d[q]
  {
  }

  /** Two lines that share a row make that row occur twice in the log. */
  lemma LinesShareNothing(log: seq<BatchOutcome>, j: nat, k: nat, x: nat)
    requires j < k < |log| && Sound(log[j]) && Sound(log[k]) && x in log[j].seqs && x in log[k].seqs
    ensures !Distinct(LogSeqs(log))
  {
    LogSplit(log, k);
    LogSplit(log[..k], j);
    assert log[..k][..j] == log[..j] && log[..k][j] == log[j];
    var before, between := LogOutcomes(log[..j]), LogTailOutcomes(log[..k], j);
    var after := LogTailOutcomes(log, k);
    var p :| 0 <= p < |log[j].seqs| && log[j].seqs[p] == x;
    var q :| 0 <= q < |log[k].seqs| && log[k].seqs[q] == x;
    var all := LogOutcomes(log);
    assert all == (before + log[j].outcomes + between) + log[k].outcomes + after;
    hide *;
    TwoOfFive(before, log[j].outcomes, between, log[k].outcomes, after, p, q);
    Repeated(log, |before| + p, |before + log[j].outcomes + between| + q);
  }

  lemma Repeated(log: seq<BatchOutcome>, i: nat, j: nat)
    requires i < j < |LogOutcomes(log)| && LogOutcomes(log)[i].seqNo == LogOutcomes(log)[j].seqNo
    ensures !Distinct(LogSeqs(log))
  {
    hide LogOutcomes;
    assert LogSeqs(log)[i] == LogSeqs(log)[j];
  }

  ghost predicate OnlyLineFor(log: seq<BatchOutcome>, k: nat, batch: Batch) {
    && k < |log| && log[k].seqs == Seqs(batch)
    && forall j :: 0 <= j < |log| && log[j].seqs == Seqs(batch) ==> j == k
  }

  lemma CountedTag(tags: seq<seq<nat>>, tag: seq<nat>) returns (k: nat)
    requires multiset(tags)[tag] > 0
    ensures k < |tags| && tags[k] == tag
  {
    assert tag in multiset(tags);
    k :| 0 <= k < |tags| && tags[k] == tag;
  }

  /** When every worker has left and no append failed, each batch ever taken has exactly one line, its rows in order. */
  lemma OneLineEach(cfg: Config, s: State, i: nat) returns (k: nat)
    requires ValidConfig(cfg) && Reachable(cfg, s) && AllStopped(s.workers) && !LogFailure(s)
    requires i < |s.sent| - |s.jobQ|
    ensures OnlyLineFor(s.log, k, s.sent[i])
  {
    var batch := s.sent[i];
    var tag := Seqs(batch);
    LoggedLinesAreSound(cfg, s);
    AtMostOnceInLog(cfg, s);
    NoneEmpty(cfg, s, i);
    OneLinePerBatch(cfg, s, tag);
    var pulled := Pulled(s);
    TagsConcat(pulled, s.jobQ);
    assert Tags(pulled)[i] == tag;
    assert Tags(pulled)[i] in multiset(Tags(pulled));
    assert multiset(Tags(s.sent))[tag] == multiset(Tags(pulled))[tag] + multiset(Tags(s.jobQ))[tag];
    hide Reachable, ValidConfig, Tags, LogFailure, Distinct, LogSeqs, RejectTags, Sound;
    k := CountedTag(LineTags(s.log), tag);
    forall j | 0 <= j < |s.log| && s.log[j].seqs == tag ensures j == k {
      assert s.log[j] in s.log && s.log[k] in s.log && tag[0] in tag;
      if j < k { LinesShareNothing(s.log, j, k, tag[0]); }
      if k < j { LinesShareNothing(s.log, k, j, tag[0]); }
    }
  }

  lemma NoneEmpty(cfg: Config, s: State, i: nat)
    requires ValidConfig(cfg) && Reachable(cfg, s) && i < |s.sent|
    ensures s.sent[i] != [] && Seqs(s.sent[i]) != []
  {
    Conservation(cfg, s);
    hide Reachable;
    assert Fits(CapsOf(cfg.runtime), s.sent[i]);
    assert |Seqs(s.sent[i])| == |s.sent[i]|;
  }
}
