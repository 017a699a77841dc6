/**
 What forcing a stateful handler to one worker is for: it is given its rows,
 and their outcomes are logged, in the order of the input.
 */
module PipelineOrder {
  import opened Base
  import opened Protocol
  import opened Batching
  import opened WorkerLines
  import opened Pipeline
  import opened PipelineSafety
  import opened PipelineAccount
  import opened PipelineBatches
  import opened PipelineComplete
  import opened PipelineReport
  import PipelineLines
  import PipelineOrigins

  // ------------------------------------------------------------------
  // Batches are sent in the order of the input
  // ------------------------------------------------------------------

  lemma {:induction false} FilterIncreasing(rows: seq<Row>)
    requires Increasing(rows)
    ensures Increasing(Filter(Dispatchable, rows))
    ensures forall r :: r in Filter(Dispatchable, rows) ==> r in rows
  {
    if rows != [] {
      IncreasingTail(rows, 1);
      FilterIncreasing(rows[1..]);
      assert rows == [rows[0]] + rows[1..];
      hide Dispatchable;
    }
  }

  lemma SentIncreasing(cfg: Config, s: State)
    requires ValidConfig(cfg) && Reachable(cfg, s)
    ensures Increasing(Flatten(s.sent))
  {
    var rows := Filter(Dispatchable, Selected(cfg));
    BatchesIndependentOfSchedule(cfg, s);
    GreedyIsLegal(CapsOf(cfg.runtime), rows);
    SelectIncreasing(cfg, cfg.items, 0);
    FilterIncreasing(Selected(cfg));
    var rest := Target(cfg)[|s.sent|..];
    assert Target(cfg) == s.sent + rest;
    FlattenConcat(s.sent, rest);
    hide Reachable, Greedy, Selected, Select, Filter, Flatten;
    forall i, j | 0 <= i < j < |Flatten(s.sent)| ensures Flatten(s.sent)[i].seqNo < Flatten(s.sent)[j].seqNo {
      assert Flatten(s.sent)[i] == rows[i] && Flatten(s.sent)[j] == rows[j];
    }
  }

  /** A row sent earlier has the smaller number. */
  lemma EarlierIsSmaller(before: seq<Batch>, after: seq<Batch>, x: nat, y: nat)
    requires Increasing(Flatten(before + after))
    requires x in Seqs(Flatten(before)) && y in Seqs(Flatten(after))
    ensures x < y
  {
    FlattenConcat(before, after);
    var a, b := Flatten(before), Flatten(after);
    hide Flatten;
    var i :| 0 <= i < |a| && Seqs(a)[i] == x;
    var j :| 0 <= j < |b| && Seqs(b)[j] == y;
    assert (a + b)[i] == a[i] && (a + b)[|a| + j] == b[j];
  }

  // ------------------------------------------------------------------
  // One worker logs them in that order
  // ------------------------------------------------------------------

  /** Numbers of rows that have been sent to the workers. */
  predicate Sent(s: State, x: nat) { x in Seqs(Flatten(s.sent)) }

  /** Lines name rows that were sent in increasing order, and what the worker holds comes after all of them. */
  ghost predicate Ordered(s: State) {
    && |s.workers| == 1
    && (forall i, j, x, y ::
          0 <= i < j < |s.log| && x in s.log[i].seqs && y in s.log[j].seqs && Sent(s, x) && Sent(s, y) ==> x < y)
    && (forall i, x, y ::
          0 <= i < |s.log| && x in s.log[i].seqs && Sent(s, x) && y in Seqs(InHand(s.workers[0])) ==> x < y)
  }

  lemma InLogSeqs(log: seq<BatchOutcome>, i: nat, x: nat)
    requires i < |log| && log[i].seqs == OutcomeSeqs(log[i].outcomes) && x in log[i].seqs
    ensures x in LogSeqs(log)
  {
    LogSplit(log, i);
    var k :| 0 <= k < |log[i].seqs| && log[i].seqs[k] == x;
    var o := log[i].outcomes[k];
    assert o in LogOutcomes(log);
    hide LogOutcomes;
    var p :| 0 <= p < |LogOutcomes(log)| && LogOutcomes(log)[p] == o;
    assert LogSeqs(log)[p] == x;
  }

  /** A row is in one place at a time: what is queued or pending is not in the log. */
  lemma NotLoggedYet(cfg: Config, s: State, rows: seq<Row>, x: nat)
    requires ValidConfig(cfg) && Reachable(cfg, s) && (rows == Flatten(s.jobQ) || rows == s.pending) && x in Seqs(rows)
    ensures x !in LogSeqs(s.log)
  {
    Conservation(cfg, s);
    SelectIncreasing(cfg, cfg.items, 0);
    var all := Seqs(Selected(cfg));
    hide Reachable, ValidConfig, Select, Selected, Inv, Flatten, LogSeqs, InHands;
    BagOfDistinct(all, x);
    assert Count(Selected(cfg), x) == Accounted(cfg, s, x);
    assert Count(rows, x) > 0;
  }

  /** A row rejected for its size was not sent. */
  lemma RejectedIsNotSent(cfg: Config, s: State)
    requires ValidConfig(cfg) && Reachable(cfg, s) && s.acc.Rejecting?
    ensures !Sent(s, s.acc.row.seqNo)
  {
    Conservation(cfg, s);
    PipelineOrigins.OriginHolds(cfg, s);
    var big := s.acc.row;
    assert !Dispatchable(big) && big in PipelineOrigins.Undecided(cfg, s);
    hide Reachable, ValidConfig, Inv, Dispatchable, Selected;
    if Sent(s, big.seqNo) {
      var rows := Flatten(s.sent);
      var k :| 0 <= k < |rows| && Seqs(rows)[k] == big.seqNo;
      var i := BatchHolding(s.sent, rows[k]);
      PipelineLines.SentRowsAreSelected(cfg, s, s.sent[i], rows[k]);
      NumbersAreUnique(cfg, big, rows[k]);
    }
  }

  lemma {:induction false} BatchHolding(batches: seq<Batch>, row: Row) returns (i: nat)
    requires row in Flatten(batches)
    ensures i < |batches| && row in batches[i]
  {
    if row in batches[0] {
      i := 0;
    } else {
      i := BatchHolding(batches[1..], row);
      i := i + 1;
    }
  }

  /** Steps that leave log, batches sent and the worker's hand alone, or empty the hand. */
  lemma OrderedFrame(s: State, t: State)
    requires Ordered(s) && t.log == s.log && t.sent == s.sent && |t.workers| == 1
    requires InHand(t.workers[0]) == InHand(s.workers[0]) || InHand(t.workers[0]) == []
    ensures Ordered(t)
  {
    assert Seqs([]) == [];
    forall x ensures Sent(t, x) == Sent(s, x) {}
    hide Sent, InHand, Seqs;
  }

  /** A line that names no row sent changes nothing. */
  lemma OrderedLine(s: State, t: State, line: BatchOutcome)
    requires Ordered(s) && t.log == s.log + [line] && t.sent == s.sent && t.workers == s.workers
    requires forall x :: x in line.seqs ==> !Sent(s, x)
    ensures Ordered(t)
  {
    forall x ensures Sent(t, x) == Sent(s, x) {}
    hide Sent, InHand, Seqs;
  }

  lemma OrderedAppend(s: State, t: State, line: BatchOutcome)
    requires Ordered(s) && t.log == s.log + [line] && t.sent == s.sent && |t.workers| == 1
    requires line.seqs == Seqs(InHand(s.workers[0])) && InHand(t.workers[0]) == []
    ensures Ordered(t)
  {
    assert Seqs([]) == [];
    forall x ensures Sent(t, x) == Sent(s, x) {}
    hide Sent, InHand, Seqs;
  }

  lemma OrderedSend(s: State, t: State)
    requires Ordered(s) && t.log == s.log && t.workers == s.workers && t.sent == s.sent + [s.pending]
    requires forall i, x :: 0 <= i < |s.log| && x in s.log[i].seqs ==> x !in Seqs(s.pending)
    ensures Ordered(t)
  {
    FlattenSnoc(s.sent, s.pending);
    SeqsConcat(Flatten(s.sent), s.pending);
    forall x ensures Sent(t, x) <==> Sent(s, x) || x in Seqs(s.pending) {}
    hide Sent, InHand, Seqs;
  }

  lemma OrderedTake(s: State, t: State)
    requires Ordered(s) && t.log == s.log && t.sent == s.sent && s.jobQ != []
    requires t.workers == [Sending(s.jobQ[0])] && PipelineLines.Fifo(s) && Increasing(Flatten(s.sent))
    requires forall i, x :: 0 <= i < |s.log| && x in s.log[i].seqs ==> x !in Seqs(Flatten(s.jobQ))
    ensures Ordered(t)
  {
    var before := PipelineLines.Pulled(s);
    FlattenConcat(before, s.jobQ);
    SeqsConcat(Flatten(before), Flatten(s.jobQ));
    HeadInFlatten(s.jobQ);
    forall x ensures Sent(t, x) == Sent(s, x) {}
    assert s.sent == before + s.jobQ;
    forall i, x, y | 0 <= i < |s.log| && x in s.log[i].seqs && Sent(s, x) && y in Seqs(s.jobQ[0]) ensures x < y {
      assert x in Seqs(Flatten(before));
      EarlierIsSmaller(before, s.jobQ, x, y);
    }
    assert InHand(t.workers[0]) == s.jobQ[0];
    hide Sent, InHand, Seqs, Flatten, PipelineLines.Fifo;
  }

  lemma HeadInFlatten(batches: seq<Batch>)
    requires batches != []
    ensures forall y :: y in Seqs(batches[0]) ==> y in Seqs(Flatten(batches))
  {
    SeqsConcat(batches[0], Flatten(batches[1..]));
  }

  lemma NothingTwice(cfg: Config, s: State, rows: seq<Row>)
    requires ValidConfig(cfg) && Reachable(cfg, s) && (rows == Flatten(s.jobQ) || rows == s.pending)
    ensures forall i, x :: 0 <= i < |s.log| && x in s.log[i].seqs ==> x !in Seqs(rows)
  {
    PipelineLines.LoggedLinesAreSound(cfg, s);
    hide Reachable, ValidConfig, Seqs, LogSeqs, Flatten;
    forall i, x | 0 <= i < |s.log| && x in s.log[i].seqs ensures x !in Seqs(rows) {
      assert s.log[i] in s.log;
      InLogSeqs(s.log, i, x);
      if x in Seqs(rows) { NotLoggedYet(cfg, s, rows, x); }
    }
  }

  lemma WorkerKeepsOrder(cfg: Config, s: State, a: Action)
    requires ValidConfig(cfg) && Reachable(cfg, s) && Inv(cfg, s) && Ordered(s) && Enabled(cfg, s, a) && OfAWorker(a)
    ensures Ordered(Apply(cfg, s, a))
  {
    var t := Apply(cfg, s, a);
    WorkerFrame(cfg, s, a);
    assert a.w == 0;
    if a.Pull? && !s.cancelled && s.jobQ != [] {
      PipelineLines.LoggedLinesAreSound(cfg, s);
      SentIncreasing(cfg, s);
      NothingTwice(cfg, s, Flatten(s.jobQ));
      assert t.workers == [Sending(s.jobQ[0])];
      hide Apply, Enabled, Inv, Reachable, ValidConfig, Ordered;
      OrderedTake(s, t);
    } else if a.Append? && a.ok {
      AppendedLine(cfg, s, a);
      hide Apply, Enabled, Inv, Reachable, ValidConfig, Ordered;
      OrderedAppend(s, t, s.workers[0].line);
    } else {
      HandStays(cfg, s, a);
      hide Apply, Enabled, Inv, Reachable, ValidConfig, Ordered;
      OrderedFrame(s, t);
    }
  }

  lemma AppendedLine(cfg: Config, s: State, a: Action)
    requires Inv(cfg, s) && Enabled(cfg, s, a) && a.Append? && a.ok && a.w == 0
    ensures |s.workers| > 0 && s.workers[0].Recording? && s.workers[0].line.seqs == Seqs(InHand(s.workers[0]))
    ensures var t := Apply(cfg, s, a);
      |t.workers| > 0 && InHand(t.workers[0]) == [] && t.log == s.log + [s.workers[0].line] && t.sent == s.sent
  {
    assert WorkerShape(CapsOf(cfg.runtime), s.workers[0]);
    hide Inv, Fits;
  }

  lemma HandStays(cfg: Config, s: State, a: Action)
    requires Inv(cfg, s) && Enabled(cfg, s, a) && OfAWorker(a)
    requires !(a.Pull? && !s.cancelled && s.jobQ != []) && !(a.Append? && a.ok)
    ensures a.w < |s.workers| && a.w < |Apply(cfg, s, a).workers|
    ensures var t := Apply(cfg, s, a);
      && t.log == s.log && t.sent == s.sent
      && (InHand(t.workers[a.w]) == InHand(s.workers[a.w]) || InHand(t.workers[a.w]) == [])
  {
    WorkerFrame(cfg, s, a);
    hide CrashLine, ReplyLine, Inv;
    match a
    case Pull(_) =>
    case Write(_, _) =>
    case Answer(_, _) =>
    case CutRecv(_) =>
    case Append(_, _) =>
  }

  lemma AccumulatorKeepsOrder(cfg: Config, s: State, a: Action)
    requires ValidConfig(cfg) && Reachable(cfg, s) && Inv(cfg, s) && Ordered(s)
    requires Enabled(cfg, s, a) && OfTheAccumulator(a)
    ensures Ordered(Apply(cfg, s, a))
  {
    var t := Apply(cfg, s, a);
    AccumulatorActs(cfg, s, a);
    if a == AccReject(true) {
      RejectedIsNotSent(cfg, s);
      assert TooLargeLine(s.acc.row).seqs == [s.acc.row.seqNo];
      hide Apply, Enabled, Inv, Reachable, ValidConfig, Ordered, Sent, TooLargeLine;
      OrderedLine(s, t, TooLargeLine(s.acc.row));
    } else if t.sent == s.sent + [s.pending] {
      NothingTwice(cfg, s, s.pending);
      hide Apply, Enabled, Inv, Reachable, ValidConfig, Ordered;
      OrderedSend(s, t);
    } else {
      assert |s.workers| == 1;
      hide Apply, Enabled, Inv, Reachable, ValidConfig, Ordered;
      OrderedFrame(s, t);
    }
  }

  lemma OrderedStep(cfg: Config, s: State, a: Action)
    requires ValidConfig(cfg) && Reachable(cfg, s) && Ordered(s) && Enabled(cfg, s, a)
    ensures Ordered(Apply(cfg, s, a))
  {
    Conservation(cfg, s);
    if OfAWorker(a) {
      WorkerKeepsOrder(cfg, s, a);
    } else if OfTheAccumulator(a) {
      AccumulatorKeepsOrder(cfg, s, a);
    } else {
      RestFrame(cfg, s, a);
      assert |s.workers| == 1;
      hide Apply, Enabled, Inv, Reachable, ValidConfig, Ordered;
      OrderedFrame(s, Apply(cfg, s, a));
    }
  }

  lemma {:induction false} ExecOrdered(cfg: Config, s: State, schedule: seq<Action>)
    requires ValidConfig(cfg) && Reachable(cfg, s) && Ordered(s) && Exec(cfg, s, schedule).Some?
    ensures Ordered(Exec(cfg, s, schedule).value)
    decreases |schedule|
  {
    hide Reachable, ValidConfig, Ordered, Apply, Enabled;
    if schedule != [] {
      OrderedStep(cfg, s, schedule[0]);
      ReachStep(cfg, s, schedule[0]);
      ExecOrdered(cfg, Apply(cfg, s, schedule[0]), schedule[1..]);
    }
  }

  /** With a stateful handler, of two lines about rows that were dispatched the later is about later rows. */
  lemma StatefulInOrder(cfg: Config, s: State, i: nat, j: nat, x: nat, y: nat)
    requires ValidConfig(cfg) && Reachable(cfg, s) && (cfg.runtime.stateful || cfg.workers == 1)
    requires i < j < |s.log| && x in s.log[i].seqs && y in s.log[j].seqs
    requires x in Seqs(Flatten(s.sent)) && y in Seqs(Flatten(s.sent))
    ensures x < y
  {
    var init := Init(cfg);
    assert Exec(cfg, init, []) == Some(init);
    assert Reachable(cfg, init);
    assert Ordered(init);
    var schedule :| Exec(cfg, init, schedule) == Some(s);
    hide Reachable, ValidConfig, Init, Exec;
    ExecOrdered(cfg, init, schedule);
    assert Sent(s, x) && Sent(s, y);
  }
}
