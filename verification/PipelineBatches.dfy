/**
 What the workers are given and what they give back: the batches do not
 depend on the schedule, they are as few as the caps allow, and each batch a
 worker takes becomes exactly one line of the log.
 */
module PipelineBatches {
  import opened Base
  import opened Protocol
  import opened Batching
  import opened WorkerLines
  import opened Pipeline
  import opened PipelineSafety
  import opened PipelineAccount
  import opened PipelineLive
  import opened PipelineComplete

  // ------------------------------------------------------------------
  // The batches sent are those of the reference cut, in its order
  // ------------------------------------------------------------------

  function Target(cfg: Config): seq<Batch>
    requires cfg.runtime.Validates()
  {
    Greedy(CapsOf(cfg.runtime), Filter(Dispatchable, Selected(cfg)))
  }

  /** Selected rows the accumulator has not received yet, in order. */
  function Coming(cfg: Config, s: State): seq<Row> {
    s.rowQ + (HeldByReader(s.reader) + Select(cfg, s.items, s.emitted))
  }

  /** The batches still to be sent, given the accumulator's hands and the dispatchable rows to come. */
  function FromHere(rt: Runtime, acc: AccPhase, pending: Batch, rows: seq<Row>): seq<Batch> {
    match acc
    case Receiving => Stream(rt, pending, rows)
    case Rejecting(_) => Stream(rt, pending, rows)
    case FlushThen(row) => [pending] + StreamPush(rt, [], [row] + rows)
    case FlushFull => [pending] + Stream(rt, [], rows)
    case FlushEof => [pending]
    case AccDone(_) => []
  }

  function Remaining(cfg: Config, s: State): seq<Batch> {
    FromHere(cfg.runtime, s.acc, s.pending, Filter(Dispatchable, Coming(cfg, s)))
  }

  /** The accumulator is still running and nothing has cancelled the run. */
  predicate Undisturbed(s: State) { !s.cancelled && !s.acc.AccDone? }

  ghost predicate OnTarget(cfg: Config, s: State)
    requires cfg.runtime.Validates()
  {
    && s.sent <= Target(cfg)
    && (s.acc == AccDone(RowsDrained) ==> s.sent == Target(cfg))
    && (Undisturbed(s) ==> s.sent + Remaining(cfg, s) == Target(cfg))
    && (Undisturbed(s) && s.reader.ReaderDone? ==> Select(cfg, s.items, s.emitted) == [])
  }

  lemma NextOnTarget(cfg: Config, s: State)
    requires s.reader.Reading? && !s.cancelled
    ensures var t := DoReaderNext(cfg, s);
      Coming(cfg, t) == Coming(cfg, s) && (t.reader.ReaderDone? ==> Select(cfg, t.items, t.emitted) == [])
  {
    hide Config.Wants, Config.AtLimit;
    if s.items != [] { assert s.items == [s.items[0]] + s.items[1..]; }
  }

  lemma SendOnTarget(cfg: Config, s: State)
    requires s.reader.Holding? && Undisturbed(s)
    ensures Coming(cfg, DoReaderSend(s)) == Coming(cfg, s)
  {
    hide Select;
  }

  lemma PushRow(rt: Runtime, pending: Batch, row: Row, rows: seq<Row>)
    ensures StreamPush(rt, pending, [row] + rows)
         == FromHere(rt, if |pending| + 1 >= rt.MaxCount() then FlushFull else Receiving, pending + [row], rows)
  {
    assert ([row] + rows)[1..] == rows;
  }

  lemma MeetRow(rt: Runtime, pending: Batch, row: Row, rows: seq<Row>)
    ensures Stream(rt, pending, [row] + rows)
         == if Overflows(rt, pending, Bytes(pending), row) then FromHere(rt, FlushThen(row), pending, rows)
            else FromHere(rt, if |pending| + 1 >= rt.MaxCount() then FlushFull else Receiving, pending + [row], rows)
  {
    PushRow(rt, pending, row, rows);
    assert ([row] + rows)[0] == row;
  }

  lemma ComingMeets(cfg: Config, s: State, t: State)
    requires s.rowQ != []
    requires t == s.(acc := t.acc, pending := t.pending, pendingBytes := t.pendingBytes, rowQ := s.rowQ[1..])
    ensures Filter(Dispatchable, Coming(cfg, s))
         == (if Dispatchable(s.rowQ[0]) then [s.rowQ[0]] else []) + Filter(Dispatchable, Coming(cfg, t))
  {
    var later := Coming(cfg, t);
    assert Coming(cfg, s) == [s.rowQ[0]] + later;
    hide Coming;
    assert ([s.rowQ[0]] + later)[1..] == later;
  }

  /** Receiving one row leaves the list of batches to come as it was. */
  lemma MeetOnTarget(cfg: Config, s: State)
    requires s.pendingBytes == Bytes(s.pending) && s.acc.Receiving? && s.rowQ != []
    ensures Remaining(cfg, AccMeet(cfg, s)) == Remaining(cfg, s)
  {
    var t := AccMeet(cfg, s);
    var row, rows := s.rowQ[0], Filter(Dispatchable, Coming(cfg, t));
    assert Filter(Dispatchable, Coming(cfg, s)) == if Dispatchable(row) then [row] + rows else rows by {
      ComingMeets(cfg, s, t);
    }
    MeetRow(cfg.runtime, s.pending, row, rows);
    hide Filter, Coming, Stream, StreamPush, Overflows, Dispatchable, Bytes, Runtime.MaxCount;
    if Dispatchable(row) && !Overflows(cfg.runtime, s.pending, s.pendingBytes, row) {
      assert t.pending == s.pending + [row];
    }
  }

  lemma FlushOnTarget(cfg: Config, s: State)
    requires Inv(cfg, s) && Flushing(s.acc) && !s.cancelled
    requires s.acc.FlushEof? ==> Coming(cfg, s) == []
    ensures DoAccFlush(cfg, s).sent + Remaining(cfg, DoAccFlush(cfg, s)) == s.sent + Remaining(cfg, s)
  {
    var t := DoAccFlush(cfg, s);
    var rows := Filter(Dispatchable, Coming(cfg, s));
    if s.acc.FlushThen? {
      assert ([s.acc.row] + rows)[1..] == rows && [] + [s.acc.row] == [s.acc.row];
      assert Remaining(cfg, t) == StreamPush(cfg.runtime, [], [s.acc.row] + rows);
    }
  }

  lemma ReceiveOnTarget(cfg: Config, s: State)
    requires cfg.runtime.Validates() && Inv(cfg, s) && Enabled(cfg, s, AccReceive) && OnTarget(cfg, s)
    ensures OnTarget(cfg, DoAccReceive(cfg, s))
  {
    assert s.pendingBytes == Bytes(s.pending);
    hide Inv;
    if !s.cancelled && s.rowQ != [] {
      MeetOnTarget(cfg, s);
      hide Target, Remaining, Overflows, Runtime.MaxCount;
    } else if !s.cancelled {
      assert Coming(cfg, s) == [];
      hide Target;
    } else {
      hide Target, Remaining;
    }
  }

  lemma FlushKeepsTarget(cfg: Config, s: State)
    requires cfg.runtime.Validates() && Inv(cfg, s) && Enabled(cfg, s, AccFlush) && OnTarget(cfg, s)
    ensures OnTarget(cfg, DoAccFlush(cfg, s))
  {
    if !s.cancelled {
      assert s.acc.FlushEof? ==> Coming(cfg, s) == [];
      FlushOnTarget(cfg, s);
    }
    assert s.acc.FlushEof? ==> Remaining(cfg, s) == [s.pending];
    hide Target, Remaining, Inv;
  }

  lemma RejectOnTarget(cfg: Config, s: State, ok: bool)
    requires cfg.runtime.Validates() && s.acc.Rejecting? && OnTarget(cfg, s)
    ensures OnTarget(cfg, DoAccReject(s, ok))
  {
    assert Coming(cfg, DoAccReject(s, true)) == Coming(cfg, s);
    hide Target, Stream, StreamPush, Filter, Coming;
  }

  /** What decides `OnTarget`: the way the upstream rows divide, and whether anything was cancelled. */
  lemma TargetFrame(cfg: Config, s: State, t: State)
    requires cfg.runtime.Validates() && OnTarget(cfg, s)
    requires t.sent == s.sent && t.acc == s.acc && t.pending == s.pending && (s.cancelled ==> t.cancelled)
    requires Undisturbed(t) ==> Coming(cfg, t) == Coming(cfg, s)
    requires Undisturbed(t) && t.reader.ReaderDone? ==> Select(cfg, t.items, t.emitted) == []
    ensures OnTarget(cfg, t)
  {
    hide Target, Stream, StreamPush, Filter, Coming;
  }

  lemma ReaderOnTarget(cfg: Config, s: State, a: Action)
    requires cfg.runtime.Validates() && Enabled(cfg, s, a) && OnTarget(cfg, s) && (a.ReaderNext? || a.ReaderSend?)
    ensures OnTarget(cfg, Apply(cfg, s, a))
  {
    if Undisturbed(s) {
      if a.ReaderNext? { NextOnTarget(cfg, s); } else { SendOnTarget(cfg, s); }
    }
    var t := Apply(cfg, s, a);
    hide Coming, Select;
    TargetFrame(cfg, s, t);
    hide OnTarget;
  }

  lemma OtherOnTarget(cfg: Config, s: State, a: Action)
    requires cfg.runtime.Validates() && Enabled(cfg, s, a) && OnTarget(cfg, s)
    requires !a.AccReceive? && !a.AccFlush? && !a.AccReject? && !a.ReaderNext? && !a.ReaderSend?
    ensures OnTarget(cfg, Apply(cfg, s, a))
  {
    hide Select, CrashLine, ReplyLine, Target, Remaining;
    TargetFrame(cfg, s, Apply(cfg, s, a));
    hide OnTarget;
  }

  lemma {:induction false} ExecOnTarget(cfg: Config, s: State, schedule: seq<Action>)
    requires cfg.runtime.Validates() && Inv(cfg, s) && OnTarget(cfg, s) && Exec(cfg, s, schedule).Some?
    ensures OnTarget(cfg, Exec(cfg, s, schedule).value)
    decreases |schedule|
  {
    if schedule != [] {
      var a := schedule[0];
      InvStep(cfg, s, a);
      if a.AccReceive? {
        ReceiveOnTarget(cfg, s);
      } else if a.AccFlush? {
        FlushKeepsTarget(cfg, s);
      } else if a.AccReject? {
        RejectOnTarget(cfg, s, a.ok);
      } else if a.ReaderNext? || a.ReaderSend? {
        ReaderOnTarget(cfg, s, a);
      } else {
        OtherOnTarget(cfg, s, a);
      }
      ExecOnTarget(cfg, Apply(cfg, s, a), schedule[1..]);
    }
  }

  lemma OnTargetHolds(cfg: Config, s: State)
    requires ValidConfig(cfg) && Reachable(cfg, s)
    ensures OnTarget(cfg, s)
  {
    var schedule :| Exec(cfg, Init(cfg), schedule) == Some(s);
    InitInv(cfg);
    var rows := Filter(Dispatchable, Selected(cfg));
    StreamIsGreedy(cfg.runtime, [], rows);
    assert [] + rows == rows;
    assert Coming(cfg, Init(cfg)) == Selected(cfg);
    ExecOnTarget(cfg, Init(cfg), schedule);
  }

  /** Whatever the interleaving, the batches sent are a prefix of one fixed list, and all of it at end of input. */
  lemma BatchesIndependentOfSchedule(cfg: Config, s: State)
    requires ValidConfig(cfg) && Reachable(cfg, s)
    ensures s.sent <= Target(cfg)
    ensures s.acc == AccDone(RowsDrained) ==> s.sent == Target(cfg)
  {
    OnTargetHolds(cfg, s);
    hide Target, Remaining, Reachable, ValidConfig;
  }

  /** An accumulator about to send has at least that batch still to come. */
  lemma StillSending(cfg: Config, s: State)
    requires ValidConfig(cfg) && Reachable(cfg, s) && Flushing(s.acc) && !s.cancelled
    ensures |s.sent| < |Target(cfg)|
  {
    OnTargetHolds(cfg, s);
    hide Target, Coming, Stream, StreamPush, Filter, Reachable, ValidConfig;
    assert Remaining(cfg, s) != [];
  }

  lemma PackedPrefix(rt: Runtime, batches: seq<Batch>, k: nat)
    requires k <= |batches| && Packed(rt, batches)
    ensures Packed(rt, batches[..k])
  {
    hide Full;
    forall i | 0 <= i < k - 1 ensures FullAt(rt, batches[..k], i) { assert FullAt(rt, batches, i); }
  }

  /**
   In terms of what is configured: every batch sent in any run obeys the count and byte caps, and each of them but
   the last is full.
   */
  lemma SentIsPacked(cfg: Config, s: State)
    requires ValidConfig(cfg) && Reachable(cfg, s)
    ensures forall i :: 0 <= i < |s.sent| ==> Obeys(cfg.runtime, s.sent[i])
    ensures Packed(cfg.runtime, s.sent)
  {
    BatchesIndependentOfSchedule(cfg, s);
    GreedyIsPacked(cfg.runtime, Filter(Dispatchable, Selected(cfg)));
    PackedPrefix(cfg.runtime, Target(cfg), |s.sent|);
    assert s.sent == Target(cfg)[..|s.sent|];
    hide Reachable, Greedy, Selected, Obeys, Packed;
  }

  /** No way of cutting the rows of proper size that obeys the caps uses fewer batches than a run to end of input. */
  lemma BatchesAreFewest(cfg: Config, s: State, others: seq<Batch>)
    requires ValidConfig(cfg) && Reachable(cfg, s) && s.acc == AccDone(RowsDrained)
    requires Partition(cfg.runtime, OfProperSize(Selected(cfg)), others)
    ensures Partition(cfg.runtime, OfProperSize(Selected(cfg)), s.sent) && Packed(cfg.runtime, s.sent)
    ensures |s.sent| <= |others|
  {
    var rt, rows := cfg.runtime, Filter(Dispatchable, Selected(cfg));
    BatchesIndependentOfSchedule(cfg, s);
    ProperIsDispatchable(Selected(cfg));
    PartitionIff(rt, rows, others);
    GreedyIsPacked(rt, rows);
    GreedyIsOptimal(CapsOf(rt), rows, others);
    hide Greedy, Selected, Reachable, Partition, Packed, Legal, OfProperSize;
  }

  lemma {:induction false} InFlatten<T>(xss: seq<seq<T>>, i: nat, x: T)
    requires i < |xss| && x in xss[i]
    ensures x in Flatten(xss)
  {
    if i > 0 { InFlatten(xss[1..], i - 1, x); }
  }

  lemma {:induction false} DispatchableOnly(rows: seq<Row>, row: Row)
    requires row in Filter(Dispatchable, rows)
    ensures Dispatchable(row)
  {
    if !Dispatchable(rows[0]) || row != rows[0] { DispatchableOnly(rows[1..], row); }
  }

  /** In batch mode no batch ever sent, in any run, exceeds the configured byte maximum. */
  lemma SentWithinMaxBytes(cfg: Config, s: State, i: nat)
    requires ValidConfig(cfg) && Reachable(cfg, s) && cfg.runtime.mode == BatchMode && i < |s.sent|
    ensures Bytes(s.sent[i]) <= cfg.runtime.maxBatchBytes
  {
    var rows := Filter(Dispatchable, Selected(cfg));
    BatchesIndependentOfSchedule(cfg, s);
    GreedyIsLegal(CapsOf(cfg.runtime), rows);
    assert s.sent[i] == Target(cfg)[i];
    hide Reachable, Greedy, Selected, Fits, Bytes, Runtime.Validates;
    forall row | row in s.sent[i] ensures Dispatchable(row) {
      InFlatten(Target(cfg), i, row);
      DispatchableOnly(Selected(cfg), row);
    }
    WithinMaxBytes(cfg.runtime, s.sent[i]);
  }

  // ------------------------------------------------------------------
  // One line per batch taken
  // ------------------------------------------------------------------

  /** The sequence numbers of each batch, in order: what its line must say. */
  function Tags(batches: seq<Batch>): (r: seq<seq<nat>>)
    ensures |r| == |batches|
  {
    seq(|batches|, i requires 0 <= i < |batches| => Seqs(batches[i]))
  }

  function LineTags(log: seq<BatchOutcome>): (r: seq<seq<nat>>)
    ensures |r| == |log|
  {
    seq(|log|, i requires 0 <= i < |log| => log[i].seqs)
  }

  function RejectTags(rows: seq<Row>): (r: seq<seq<nat>>)
    ensures |r| == |rows|
  {
    seq(|rows|, i requires 0 <= i < |rows| => [rows[i].seqNo])
  }

  /** How many lines, batches in hand and queued batches carry the tag. */
  function Delivered(s: State, tag: seq<nat>): nat {
    multiset(LineTags(s.log))[tag] + multiset(Tags(InHands(s.workers)))[tag] + multiset(Tags(s.jobQ))[tag]
  }

  /** How many batches sent and rows rejected carry the tag. */
  function Issued(s: State, tag: seq<nat>): nat {
    multiset(Tags(s.sent))[tag] + multiset(RejectTags(s.rejected))[tag]
  }

  ghost predicate Ledger(s: State, tag: seq<nat>) {
    && Delivered(s, tag) <= Issued(s, tag)
    && (!LogFailure(s) ==> Delivered(s, tag) == Issued(s, tag))
  }

  lemma TagsConcat(a: seq<Batch>, b: seq<Batch>)
    ensures Tags(a + b) == Tags(a) + Tags(b)
  {
  }

  lemma TagsSnoc(batches: seq<Batch>, batch: Batch, tag: seq<nat>)
    ensures multiset(Tags(batches + [batch]))[tag] == multiset(Tags(batches))[tag] + Bit(Seqs(batch) == tag)
  {
    TagsConcat(batches, [batch]);
    assert Tags([batch]) == [Seqs(batch)];
  }

  lemma LineTagsSnoc(log: seq<BatchOutcome>, line: BatchOutcome, tag: seq<nat>)
    ensures multiset(LineTags(log + [line]))[tag] == multiset(LineTags(log))[tag] + Bit(line.seqs == tag)
  {
    assert LineTags(log + [line]) == LineTags(log) + [line.seqs];
  }

  lemma HandsUpdate(ws: seq<WorkerPhase>, w: nat, p: WorkerPhase, tag: seq<nat>)
    requires w < |ws|
    ensures multiset(Tags(InHands(ws[w := p])))[tag] + Bit(Seqs(InHand(ws[w])) == tag)
         == multiset(Tags(InHands(ws)))[tag] + Bit(Seqs(InHand(p)) == tag)
  {
    var tags, x := Tags(InHands(ws)), Seqs(InHand(p));
    assert Tags(InHands(ws[w := p])) == tags[w := x];
    assert tags[w] == Seqs(InHand(ws[w]));
    hide *;
    CountUpdate(tags, w, x, tag);
  }

  lemma CountUpdate(tags: seq<seq<nat>>, w: nat, x: seq<nat>, tag: seq<nat>)
    requires w < |tags|
    ensures multiset(tags[w := x])[tag] + Bit(tags[w] == tag) == multiset(tags)[tag] + Bit(x == tag)
  {
  }

  lemma EnqueueLedger(s: State, t: State, tag: seq<nat>)
    requires Ledger(s, tag) && (LogFailure(s) ==> LogFailure(t))
    requires t.log == s.log && t.workers == s.workers && t.rejected == s.rejected
    requires t.jobQ == s.jobQ + [s.pending] && t.sent == s.sent + [s.pending]
    ensures Ledger(t, tag)
  {
    TagsSnoc(s.jobQ, s.pending, tag);
    TagsSnoc(s.sent, s.pending, tag);
    hide Tags, LineTags, RejectTags, InHands, LogFailure;
  }

  lemma FlushLedger(cfg: Config, s: State, tag: seq<nat>)
    requires Flushing(s.acc) && Ledger(s, tag)
    ensures Ledger(DoAccFlush(cfg, s), tag)
  {
    FlushFrame(cfg, s);
    var t := DoAccFlush(cfg, s);
    hide DoAccFlush, Ledger, SomeWorkerLogFailed;
    if t.jobQ == s.jobQ && t.sent == s.sent {
      LedgerFrame(s, t, tag);
    } else {
      EnqueueLedger(s, t, tag);
    }
  }

  lemma LoggedReject(s: State, t: State, tag: seq<nat>)
    requires s.acc.Rejecting? && Ledger(s, tag) && Rejects(s, t, true)
    ensures Ledger(t, tag)
  {
    var row := s.acc.row;
    var line := TooLargeLine(row);
    LineTagsSnoc(s.log, line, tag);
    RejectTagsSnoc(s.rejected, row, tag);
    assert line.seqs == [row.seqNo];
    hide Tags, LineTags, RejectTags, InHands, TooLargeLine, SomeWorkerLogFailed;
  }

  lemma RejectTagsSnoc(rows: seq<Row>, row: Row, tag: seq<nat>)
    ensures multiset(RejectTags(rows + [row]))[tag] == multiset(RejectTags(rows))[tag] + Bit([row.seqNo] == tag)
  {
    assert RejectTags(rows + [row]) == RejectTags(rows) + [[row.seqNo]];
  }

  lemma RejectLedger(s: State, ok: bool, tag: seq<nat>)
    requires s.acc.Rejecting? && Ledger(s, tag)
    ensures Ledger(DoAccReject(s, ok), tag)
  {
    RejectFrame(s, ok);
    var t := DoAccReject(s, ok);
    hide DoAccReject;
    if ok {
      LoggedReject(s, t, tag);
    } else {
      LedgerFrame(s, t, tag);
    }
  }

  lemma HeadTag(batches: seq<Batch>, tag: seq<nat>)
    requires batches != []
    ensures multiset(Tags(batches))[tag] == Bit(Seqs(batches[0]) == tag) + multiset(Tags(batches[1..]))[tag]
  {
    TagsConcat([batches[0]], batches[1..]);
    assert [batches[0]] + batches[1..] == batches;
    assert Tags([batches[0]]) == [Seqs(batches[0])];
  }

  lemma TakeLedger(s: State, w: nat, tag: seq<nat>)
    requires w < |s.workers| && s.workers[w].Idle? && s.jobQ != [] && Ledger(s, tag) && tag != []
    ensures Ledger(SetWorker(s.(lock := None, jobQ := s.jobQ[1..]), w, Sending(s.jobQ[0])), tag)
  {
    var p := Sending(s.jobQ[0]);
    SomeLogFailedKept(s, w, p);
    LogFailedOnlyHere(s, w, p);
    HandsUpdate(s.workers, w, p, tag);
    HeadTag(s.jobQ, tag);
    assert InHand(p) == s.jobQ[0] && InHand(s.workers[w]) == [] && Seqs([]) == [];
    hide Tags, LineTags, RejectTags, InHands, InHand, SomeWorkerLogFailed, Seqs;
  }

  lemma LeaveLedger(s: State, w: nat, why: WorkerEnd, tag: seq<nat>)
    requires w < |s.workers| && s.workers[w].Idle? && Ledger(s, tag) && why != LogFailed
    ensures Ledger(SetWorker(s.(lock := None), w, Stopped(why)), tag)
  {
    SomeLogFailedKept(s, w, Stopped(why));
    LogFailedOnlyHere(s, w, Stopped(why));
    HandsUpdate(s.workers, w, Stopped(why), tag);
    hide Tags, LineTags, RejectTags, InHands, SomeWorkerLogFailed;
  }

  lemma PullLedger(s: State, w: nat, tag: seq<nat>)
    requires w < |s.workers| && s.workers[w].Idle? && Ledger(s, tag) && tag != []
    ensures Ledger(DoPull(s, w), tag)
  {
    hide Ledger;
    if !s.cancelled && s.jobQ != [] {
      TakeLedger(s, w, tag);
    } else {
      LeaveLedger(s, w, if s.cancelled then SawCancel else Drained, tag);
    }
  }

  lemma LogFailedOnlyHere(s: State, w: nat, p: WorkerPhase)
    requires w < |s.workers| && p != Stopped(LogFailed)
    ensures SomeWorkerLogFailed(s.workers[w := p]) ==> SomeWorkerLogFailed(s.workers)
  {
    var ws := s.workers[w := p];
    if i :| 0 <= i < |ws| && ws[i] == Stopped(LogFailed) {
      assert s.workers[i] == Stopped(LogFailed);
    }
  }

  lemma AppendLedger(s: State, w: nat, ok: bool, tag: seq<nat>)
    requires w < |s.workers| && s.workers[w].Recording? && Ledger(s, tag) && tag != []
    requires s.workers[w].line.seqs == Seqs(s.workers[w].batch)
    requires s.workers[w].end != Some(LogFailed)
    ensures Ledger(DoAppend(s, w, ok), tag)
  {
    var t, line := DoAppend(s, w, ok), s.workers[w].line;
    var p := t.workers[w];
    SomeLogFailedKept(s, w, p);
    if ok {
      LogFailedOnlyHere(s, w, p);
      LineTagsSnoc(s.log, line, tag);
    }
    HandsUpdate(s.workers, w, p, tag);
    assert InHand(p) == [] && InHand(s.workers[w]) == s.workers[w].batch && Seqs([]) == [];
    hide Tags, LineTags, RejectTags, InHands, InHand, SomeWorkerLogFailed, Seqs;
  }

  lemma BusyLedger(s: State, w: nat, p: WorkerPhase, tag: seq<nat>)
    requires w < |s.workers| && InHand(p) == InHand(s.workers[w]) && Ledger(s, tag)
    requires !s.workers[w].Stopped? && !p.Stopped?
    ensures Ledger(SetWorker(s, w, p), tag)
  {
    SomeLogFailedKept(s, w, p);
    LogFailedOnlyHere(s, w, p);
    HandsUpdate(s.workers, w, p, tag);
    hide Tags, LineTags, RejectTags, InHands;
  }

  lemma LedgerFrame(s: State, t: State, tag: seq<nat>)
    requires Ledger(s, tag) && (LogFailure(s) ==> LogFailure(t))
    requires t.log == s.log && t.workers == s.workers && t.jobQ == s.jobQ
    requires t.sent == s.sent && t.rejected == s.rejected
    ensures Ledger(t, tag)
  {
    hide Tags, LineTags, RejectTags, InHands;
  }

  lemma FlagLedger(cfg: Config, s: State, a: Action, tag: seq<nat>)
    requires Enabled(cfg, s, a) && Ledger(s, tag)
    requires a.ReaderNext? || a.ReaderSend? || a.Lock? || a.Cancel? || a.Stall? || a.Join?
    ensures Ledger(Apply(cfg, s, a), tag)
  {
    RestFrame(cfg, s, a);
    hide Apply, Enabled, Ledger, SomeWorkerLogFailed;
    LedgerFrame(s, Apply(cfg, s, a), tag);
  }

  lemma ReceiveLedger(cfg: Config, s: State, tag: seq<nat>)
    requires s.acc.Receiving? && Ledger(s, tag)
    ensures Ledger(DoAccReceive(cfg, s), tag)
  {
    ReceiveFrame(cfg, s);
    hide DoAccReceive, Ledger, SomeWorkerLogFailed;
    LedgerFrame(s, DoAccReceive(cfg, s), tag);
  }

  lemma LedgerStep(cfg: Config, s: State, a: Action, tag: seq<nat>)
    requires Inv(cfg, s) && Enabled(cfg, s, a) && Ledger(s, tag) && tag != []
    ensures Ledger(Apply(cfg, s, a), tag)
  {
    hide Ledger, CrashLine, ReplyLine;
    match a
    case AccReceive => ReceiveLedger(cfg, s, tag);
    case AccFlush => FlushLedger(cfg, s, tag);
    case AccReject(ok) => RejectLedger(s, ok, tag);
    case Pull(w) => PullLedger(s, w, tag);
    case Write(w, _) => BusyLedger(s, w, Apply(cfg, s, a).workers[w], tag);
    case Answer(w, _) => BusyLedger(s, w, Apply(cfg, s, a).workers[w], tag);
    case CutRecv(w) => BusyLedger(s, w, Apply(cfg, s, a).workers[w], tag);
    case Append(w, ok) => AppendLedger(s, w, ok, tag);
    case _ => FlagLedger(cfg, s, a, tag);
  }

  lemma {:induction false} ExecLedger(cfg: Config, s: State, schedule: seq<Action>, tag: seq<nat>)
    requires cfg.runtime.Validates() && Inv(cfg, s) && Ledger(s, tag) && tag != []
    requires Exec(cfg, s, schedule).Some?
    ensures Ledger(Exec(cfg, s, schedule).value, tag)
    decreases |schedule|
  {
    if schedule != [] {
      InvStep(cfg, s, schedule[0]);
      LedgerStep(cfg, s, schedule[0], tag);
      ExecLedger(cfg, Apply(cfg, s, schedule[0]), schedule[1..], tag);
    }
  }

  lemma {:induction false} NoTag(batches: seq<Batch>, tag: seq<nat>)
    requires tag != [] && forall i :: 0 <= i < |batches| ==> batches[i] == []
    ensures multiset(Tags(batches))[tag] == 0
  {
    assert forall x :: x in Tags(batches) ==> x == [];
  }

  lemma LedgerHolds(cfg: Config, s: State, tag: seq<nat>)
    requires ValidConfig(cfg) && Reachable(cfg, s) && tag != []
    ensures Ledger(s, tag)
  {
    var schedule :| Exec(cfg, Init(cfg), schedule) == Some(s);
    InitInv(cfg);
    NoTag(InHands(Init(cfg).workers), tag);
    ExecLedger(cfg, Init(cfg), schedule, tag);
  }

  /**
   Once every worker has left its loop, each batch that was sent is either
   still queued or has its own line, which names its rows in order; the only
   other lines are those of rejected rows. Without a failed append nothing is missing.
   */
  lemma OneLinePerBatch(cfg: Config, s: State, tag: seq<nat>)
    requires ValidConfig(cfg) && Reachable(cfg, s) && AllStopped(s.workers) && tag != []
    ensures multiset(LineTags(s.log))[tag] + multiset(Tags(s.jobQ))[tag]
         <= multiset(Tags(s.sent))[tag] + multiset(RejectTags(s.rejected))[tag]
    ensures !LogFailure(s) ==>
      multiset(LineTags(s.log))[tag] + multiset(Tags(s.jobQ))[tag]
      == multiset(Tags(s.sent))[tag] + multiset(RejectTags(s.rejected))[tag]
  {
    LedgerHolds(cfg, s, tag);
    NoTag(InHands(s.workers), tag);
  }
}
