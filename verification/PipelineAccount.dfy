/**
 Where the selected rows are: in every reachable state each of them is in
 exactly one place, and the log of a finished run is judged against that.
 */
module PipelineAccount {
  import opened Base
  import opened Protocol
  import opened Batching
  import opened WorkerLines
  import opened Pipeline
  import opened PipelineSafety

  function Bag(rows: seq<Row>): multiset<nat> { multiset(Seqs(rows)) }

  /** How often `x` occurs as a sequence number in `rows`. */
  function Count(rows: seq<Row>, x: nat): nat { Bag(rows)[x] }

  lemma CountConcat(a: seq<Row>, b: seq<Row>, x: nat)
    ensures Count(a + b, x) == Count(a, x) + Count(b, x)
  {
    SeqsConcat(a, b);
  }

  lemma CountNone(x: nat)
    ensures Count([], x) == 0
  {
  }

  /** Every outcome in the log, in log order. */
  function LogOutcomes(log: seq<BatchOutcome>): seq<RowOutcome> {
    if log == [] then [] else LogOutcomes(log[..|log| - 1]) + log[|log| - 1].outcomes
  }

  function LogSeqs(log: seq<BatchOutcome>): seq<nat> { OutcomeSeqs(LogOutcomes(log)) }

  function LogCount(log: seq<BatchOutcome>, x: nat): nat { multiset(LogSeqs(log))[x] }

  lemma LogSeqsSnoc(log: seq<BatchOutcome>, line: BatchOutcome)
    ensures LogOutcomes(log + [line]) == LogOutcomes(log) + line.outcomes
    ensures LogSeqs(log + [line]) == LogSeqs(log) + OutcomeSeqs(line.outcomes)
  {
    assert (log + [line])[..|log|] == log;
  }

  lemma LogCountSnoc(log: seq<BatchOutcome>, line: BatchOutcome, rows: seq<Row>, x: nat)
    requires OutcomeSeqs(line.outcomes) == Seqs(rows)
    ensures LogCount(log + [line], x) == LogCount(log, x) + Count(rows, x)
  {
    LogSeqsSnoc(log, line);
  }

  function LogTailOutcomes(log: seq<BatchOutcome>, i: nat): seq<RowOutcome>
    requires i < |log|
  {
    LogOutcomes(log[i + 1..])
  }

  lemma {:induction false} LogSplit(log: seq<BatchOutcome>, i: nat)
    requires i < |log|
    ensures LogOutcomes(log) == LogOutcomes(log[..i]) + log[i].outcomes + LogTailOutcomes(log, i)
    decreases |log|
  {
    var n := |log| - 1;
    if i < n {
      LogSplit(log[..n], i);
      assert log[..n][..i] == log[..i] && log[..n][i + 1..] == log[i + 1..n];
      assert log[i + 1..][..n - i - 1] == log[i + 1..n];
    } else {
      assert log[i + 1..] == [];
    }
  }

  function InHand(p: WorkerPhase): Batch {
    match p
    case Idle => []
    case Stopped(_) => []
    case Sending(batch) => batch
    case Waiting(batch) => batch
    case Recording(batch, _, _) => batch
  }

  function InHands(ws: seq<WorkerPhase>): (r: seq<Batch>)
    ensures |r| == |ws|
  {
    seq(|ws|, i requires 0 <= i < |ws| => InHand(ws[i]))
  }

  function HeldByReader(r: ReaderPhase): seq<Row> { if r.Holding? then [r.row] else [] }

  /** Copies of row `x` that have not reached the job queue. */
  function Upstream(cfg: Config, s: State, x: nat): nat {
    Count(s.pending, x) + Count(HeldByAcc(s.acc), x) + Count(s.rowQ, x) + Count(HeldByReader(s.reader), x)
    + Count(Select(cfg, s.items, s.emitted), x)
  }

  /** Copies of row `x` in the log, in a worker's hands, in the job queue, upstream of it, and dropped. */
  function Accounted(cfg: Config, s: State, x: nat): nat {
    LogCount(s.log, x) + Count(Flatten(InHands(s.workers)), x) + Count(Flatten(s.jobQ), x)
    + Upstream(cfg, s, x) + Count(s.lost, x)
  }

  lemma CountMiddle(left: seq<Batch>, batch: Batch, right: seq<Batch>, x: nat)
    ensures Count(Flatten(left + [batch] + right), x)
         == Count(Flatten(left), x) + Count(batch, x) + Count(Flatten(right), x)
  {
    FlattenMiddle(left, batch, right);
    CountConcat(Flatten(left) + batch, Flatten(right), x);
    CountConcat(Flatten(left), batch, x);
  }

  lemma WorkerUpdate(ws: seq<WorkerPhase>, w: nat, p: WorkerPhase, x: nat)
    requires w < |ws|
    ensures Count(Flatten(InHands(ws[w := p])), x) + Count(InHand(ws[w]), x)
         == Count(Flatten(InHands(ws)), x) + Count(InHand(p), x)
  {
    var left, right := InHands(ws)[..w], InHands(ws)[w + 1..];
    assert InHands(ws) == left + [InHand(ws[w])] + right;
    assert InHands(ws[w := p]) == left + [InHand(p)] + right;
    CountMiddle(left, InHand(ws[w]), right, x);
    CountMiddle(left, InHand(p), right, x);
  }

  lemma NextAccount(cfg: Config, s: State, x: nat)
    requires s.reader.Reading?
    ensures Accounted(cfg, DoReaderNext(cfg, s), x) == Accounted(cfg, s, x)
  {
    hide Count, Flatten, InHands, LogCount, Config.Wants, Config.AtLimit;
    CountNone(x);
    if s.items != [] && s.items[0].Source? {
      CountConcat([s.items[0].row], Select(cfg, s.items[1..], s.emitted + 1), x);
    }
  }

  lemma SendAccount(cfg: Config, s: State, x: nat)
    requires s.reader.Holding?
    ensures Accounted(cfg, DoReaderSend(s), x) == Accounted(cfg, s, x)
  {
    hide Count, Flatten, InHands, LogCount, Select;
    CountNone(x);
    CountConcat(s.rowQ, [s.reader.row], x);
    CountConcat(s.lost, [s.reader.row], x);
  }

  lemma ExitAccount(cfg: Config, s: State, end: AccEnd, held: seq<Row>, x: nat)
    requires held == HeldByAcc(s.acc)
    ensures Accounted(cfg, AccExit(s, end, held), x) == Accounted(cfg, s, x)
  {
    CountConcat(s.lost + s.pending + held, s.rowQ, x);
    CountConcat(s.lost + s.pending, held, x);
    CountConcat(s.lost, s.pending, x);
  }

  /** An accumulator step that only moves rows between its queue, its hand and its pending batch. */
  lemma AccFrame(cfg: Config, s: State, t: State, x: nat)
    requires t == s.(acc := t.acc, pending := t.pending, pendingBytes := t.pendingBytes, rowQ := t.rowQ)
    requires Count(t.pending, x) + Count(HeldByAcc(t.acc), x) + Count(t.rowQ, x)
          == Count(s.pending, x) + Count(HeldByAcc(s.acc), x) + Count(s.rowQ, x)
    ensures Accounted(cfg, t, x) == Accounted(cfg, s, x)
  {
    hide Count, Flatten, InHands, LogCount, Select, HeldByAcc;
  }

  /** The row met goes to the accumulator's hand or to its pending batch. */
  lemma MeetMoves(cfg: Config, s: State)
    requires s.acc.Receiving? && s.rowQ != []
    ensures var t := AccMeet(cfg, s);
      && t == s.(acc := t.acc, pending := t.pending, pendingBytes := t.pendingBytes, rowQ := s.rowQ[1..])
      && (if HeldByAcc(t.acc) == [] then t.pending == s.pending + [s.rowQ[0]]
          else t.pending == s.pending && HeldByAcc(t.acc) == [s.rowQ[0]])
  {
    hide Overflows, Dispatchable, Runtime.MaxCount;
  }

  lemma MeetAccount(cfg: Config, s: State, x: nat)
    requires s.acc.Receiving? && s.rowQ != []
    ensures Accounted(cfg, AccMeet(cfg, s), x) == Accounted(cfg, s, x)
  {
    MeetMoves(cfg, s);
    assert HeldByAcc(s.acc) == [];
    hide *;
    CountNone(x);
    var row := s.rowQ[0];
    assert [row] + s.rowQ[1..] == s.rowQ;
    CountConcat([row], s.rowQ[1..], x);
    CountConcat(s.pending, [row], x);
    AccFrame(cfg, s, AccMeet(cfg, s), x);
  }

  lemma ReceiveAccount(cfg: Config, s: State, x: nat)
    requires Enabled(cfg, s, AccReceive)
    ensures Accounted(cfg, DoAccReceive(cfg, s), x) == Accounted(cfg, s, x)
  {
    if s.cancelled {
      ExitAccount(cfg, s, CancelSeen, [], x);
    } else if s.rowQ != [] {
      MeetAccount(cfg, s, x);
    } else if s.pending == [] {
      ExitAccount(cfg, s, RowsDrained, [], x);
    } else {
      hide Count, Flatten, InHands, LogCount, Select;
    }
  }

  lemma FlushAccount(cfg: Config, s: State, x: nat)
    requires Enabled(cfg, s, AccFlush)
    ensures Accounted(cfg, DoAccFlush(cfg, s), x) == Accounted(cfg, s, x)
  {
    hide Count;
    CountNone(x);
    if s.cancelled {
      ExitAccount(cfg, s, FlushCancelled, HeldByAcc(s.acc), x);
    } else {
      var t := s.(jobQ := s.jobQ + [s.pending], sent := s.sent + [s.pending], pending := [], pendingBytes := 0);
      FlattenSnoc(s.jobQ, s.pending);
      CountConcat(Flatten(s.jobQ), s.pending, x);
      assert Accounted(cfg, t, x) == Accounted(cfg, s, x);
      match s.acc
      case FlushThen(row) => assert [] + [row] == [row];
      case FlushFull =>
      case FlushEof => ExitAccount(cfg, t, RowsDrained, [], x);
    }
  }

  lemma RejectAccount(cfg: Config, s: State, ok: bool, x: nat)
    requires s.acc.Rejecting?
    ensures Accounted(cfg, DoAccReject(s, ok), x) == Accounted(cfg, s, x)
  {
    hide Count, Flatten, InHands, LogCount;
    CountNone(x);
    if ok {
      LogCountSnoc(s.log, TooLargeLine(s.acc.row), [s.acc.row], x);
    } else {
      ExitAccount(cfg, s, AccLogFailed, [s.acc.row], x);
    }
  }

  lemma PullAccount(cfg: Config, s: State, w: nat, x: nat)
    requires Inv(cfg, s) && Enabled(cfg, s, Pull(w))
    ensures Accounted(cfg, DoPull(s, w), x) == Accounted(cfg, s, x)
  {
    hide Count;
    CountNone(x);
    WorkerUpdate(s.workers, w, DoPull(s, w).workers[w], x);
    if !s.cancelled && s.jobQ != [] {
      CountConcat(s.jobQ[0], Flatten(s.jobQ[1..]), x);
    }
  }

  lemma AppendAccount(cfg: Config, s: State, w: nat, ok: bool, x: nat)
    requires Inv(cfg, s) && Enabled(cfg, s, Append(w, ok))
    ensures Accounted(cfg, DoAppend(s, w, ok), x) == Accounted(cfg, s, x)
  {
    hide Count, Flatten, InHands, LogCount;
    CountNone(x);
    var p := s.workers[w];
    WorkerUpdate(s.workers, w, DoAppend(s, w, ok).workers[w], x);
    LogCountSnoc(s.log, p.line, p.batch, x);
    CountConcat(s.lost, p.batch, x);
  }

  lemma BusyAccount(cfg: Config, s: State, w: nat, p: WorkerPhase, x: nat)
    requires w < |s.workers| && InHand(p) == InHand(s.workers[w])
    ensures Accounted(cfg, SetWorker(s, w, p), x) == Accounted(cfg, s, x)
  {
    WorkerUpdate(s.workers, w, p, x);
  }

  lemma AccountStep(cfg: Config, s: State, a: Action, x: nat)
    requires Inv(cfg, s) && Enabled(cfg, s, a)
    ensures Accounted(cfg, Apply(cfg, s, a), x) == Accounted(cfg, s, x)
  {
    hide Count, Flatten, InHands, LogCount, Select, CrashLine, ReplyLine;
    match a
    case ReaderNext => NextAccount(cfg, s, x);
    case ReaderSend => SendAccount(cfg, s, x);
    case AccReceive => ReceiveAccount(cfg, s, x);
    case AccFlush => FlushAccount(cfg, s, x);
    case AccReject(ok) => RejectAccount(cfg, s, ok, x);
    case Lock(_) =>
    case Pull(w) => PullAccount(cfg, s, w, x);
    case Write(w, _) => BusyAccount(cfg, s, w, Apply(cfg, s, a).workers[w], x);
    case Answer(w, _) => BusyAccount(cfg, s, w, Apply(cfg, s, a).workers[w], x);
    case CutRecv(w) => BusyAccount(cfg, s, w, Apply(cfg, s, a).workers[w], x);
    case Append(w, ok) => AppendAccount(cfg, s, w, ok, x);
    case Cancel(_) =>
    case Stall =>
    case Join =>
  }

  lemma EmptyHands(ws: seq<WorkerPhase>)
    requires forall i :: 0 <= i < |ws| ==> InHand(ws[i]) == []
    ensures Flatten(InHands(ws)) == []
  {
    if ws != [] {
      EmptyHands(ws[1..]);
      assert InHands(ws)[1..] == InHands(ws[1..]);
    }
  }

  lemma InitAccount(cfg: Config)
    ensures forall x :: Accounted(cfg, Init(cfg), x) == Count(Selected(cfg), x)
  {
    EmptyHands(Init(cfg).workers);
  }

  lemma {:induction false} ExecKeeps(cfg: Config, s: State, schedule: seq<Action>)
    requires cfg.runtime.Validates() && Inv(cfg, s) && Exec(cfg, s, schedule).Some?
    ensures Inv(cfg, Exec(cfg, s, schedule).value)
    ensures forall x :: Accounted(cfg, Exec(cfg, s, schedule).value, x) == Accounted(cfg, s, x)
    decreases |schedule|
  {
    if schedule != [] {
      InvStep(cfg, s, schedule[0]);
      forall x ensures Accounted(cfg, Apply(cfg, s, schedule[0]), x) == Accounted(cfg, s, x) {
        AccountStep(cfg, s, schedule[0], x);
      }
      ExecKeeps(cfg, Apply(cfg, s, schedule[0]), schedule[1..]);
    }
  }

  /** Conservation over every interleaving: the selection is the disjoint sum of the places. */
  lemma Conservation(cfg: Config, s: State)
    requires ValidConfig(cfg) && Reachable(cfg, s)
    ensures Inv(cfg, s)
    ensures forall x :: Count(Selected(cfg), x) == Accounted(cfg, s, x)
    ensures s.lost != [] ==> Disturbed(s)
  {
    var schedule :| Exec(cfg, Init(cfg), schedule) == Some(s);
    InitInv(cfg);
    InitAccount(cfg);
    ExecKeeps(cfg, Init(cfg), schedule);
  }

  // ------------------------------------------------------------------
  // At most one outcome per row in one attempt's log
  // ------------------------------------------------------------------

  lemma {:induction false} SelectFromParsed(cfg: Config, items: seq<Item>, emitted: nat, row: Row)
    requires row in Select(cfg, items, emitted)
    ensures row in Parsed(items) && cfg.Wants(row)
  {
    match items[0]
    case ParseError => SelectFromParsed(cfg, items[1..], emitted, row);
    case Source(first) =>
      if !cfg.Wants(first) {
        SelectFromParsed(cfg, items[1..], emitted, row);
      } else if row != first {
        SelectFromParsed(cfg, items[1..], emitted + 1, row);
      }
  }

  /** Without a limit the selection is every row of the input that `only` asks for, or else `skip` does not name. */
  lemma {:induction false} SelectedIff(cfg: Config, items: seq<Item>, emitted: nat, row: Row)
    requires cfg.limit.None?
    ensures row in Parsed(items) <==> Source(row) in items
    ensures row in Select(cfg, items, emitted) <==>
      Source(row) in items && if cfg.only.Some? then row.seqNo in cfg.only.value else row.seqNo !in cfg.skip
  {
    if items != [] {
      assert items == [items[0]] + items[1..];
      match items[0]
      case ParseError =>
        assert Parsed(items) == Parsed(items[1..]);
        SelectedIff(cfg, items[1..], emitted, row);
      case Source(first) =>
        assert Parsed(items) == [first] + Parsed(items[1..]);
        SelectedIff(cfg, items[1..], if cfg.Wants(first) then emitted + 1 else emitted, row);
    }
  }

  /** There are as many workers as asked for, and one for a stateful handler. */
  lemma WorkersAsAsked(cfg: Config, s: State)
    requires ValidConfig(cfg) && Reachable(cfg, s)
    ensures |s.workers| == if cfg.runtime.stateful then 1 else cfg.workers
  {
    Conservation(cfg, s);
    hide Reachable, ValidConfig;
  }

  lemma IncreasingTail(all: seq<Row>, n: nat)
    requires n <= |all| && Increasing(all)
    ensures Increasing(all[n..])
    ensures n == 1 ==> forall r :: r in all[n..] ==> all[0].seqNo < r.seqNo
  {
    forall i, j | 0 <= i < j < |all| - n ensures all[n..][i].seqNo < all[n..][j].seqNo {
      assert all[n + i].seqNo < all[n + j].seqNo;
    }
  }

  lemma ParsedTail(items: seq<Item>)
    requires items != [] && Increasing(Parsed(items))
    ensures Increasing(Parsed(items[1..]))
    ensures items[0].Source? ==> forall r :: r in Parsed(items[1..]) ==> items[0].row.seqNo < r.seqNo
  {
    var n := if items[0].Source? then 1 else 0;
    assert Parsed(items)[n..] == Parsed(items[1..]) && (n == 1 ==> Parsed(items)[0] == items[0].row);
    hide Parsed, Increasing;
    IncreasingTail(Parsed(items), n);
  }

  lemma {:induction false} SelectIncreasing(cfg: Config, items: seq<Item>, emitted: nat)
    requires Increasing(Parsed(items))
    ensures Increasing(Select(cfg, items, emitted))
  {
    if items != [] {
      ParsedTail(items);
      match items[0]
      case ParseError => SelectIncreasing(cfg, items[1..], emitted);
      case Source(first) =>
        if !cfg.Wants(first) {
          SelectIncreasing(cfg, items[1..], emitted);
        } else if !cfg.AtLimit(emitted) {
          var tail := Select(cfg, items[1..], emitted + 1);
          SelectIncreasing(cfg, items[1..], emitted + 1);
          forall r | r in tail ensures first.seqNo < r.seqNo {
            SelectFromParsed(cfg, items[1..], emitted + 1, r);
          }
        }
    }
  }

  /** A number names at most one row of the selection. */
  lemma NumbersAreUnique(cfg: Config, a: Row, b: Row)
    requires ValidConfig(cfg) && a in Selected(cfg) && b in Selected(cfg) && a.seqNo == b.seqNo
    ensures a == b
  {
    SelectIncreasing(cfg, cfg.items, 0);
    var rows := Selected(cfg);
    hide Selected, Select;
    var i :| 0 <= i < |rows| && rows[i] == a;
    var k :| 0 <= k < |rows| && rows[k] == b;
  }

  lemma {:induction false} DistinctBag(xs: seq<nat>)
    requires forall x :: multiset(xs)[x] <= 1
    ensures Distinct(xs)
  {
    forall i, j | 0 <= i < j < |xs| ensures xs[i] != xs[j] {
      assert xs == xs[..i] + [xs[i]] + xs[i + 1..];
      assert xs[i + 1..][j - i - 1] == xs[j];
      assert multiset(xs)[xs[i]] == multiset(xs[..i])[xs[i]] + 1 + multiset(xs[i + 1..])[xs[i]];
    }
  }

  lemma {:induction false} BagOfDistinct(xs: seq<nat>, x: nat)
    requires Distinct(xs)
    ensures multiset(xs)[x] <= 1
  {
    if xs != [] {
      assert xs == [xs[0]] + xs[1..];
      BagOfDistinct(xs[1..], x);
      if xs[0] == x {
        assert x !in xs[1..];
      }
    }
  }

  /** No seq occurs twice in an attempt's log, and only selected rows occur at all. */
  lemma AtMostOnceInLog(cfg: Config, s: State)
    requires ValidConfig(cfg) && Reachable(cfg, s)
    ensures Distinct(LogSeqs(s.log))
    ensures forall x :: x in LogSeqs(s.log) ==>
      exists row :: row in Parsed(cfg.items) && cfg.Wants(row) && row.seqNo == x
  {
    Conservation(cfg, s);
    SelectIncreasing(cfg, cfg.items, 0);
    var all := Seqs(Selected(cfg));
    forall x: nat ensures multiset(LogSeqs(s.log))[x] <= multiset(all)[x] <= 1 {
      BagOfDistinct(all, x);
      assert Count(Selected(cfg), x) == Accounted(cfg, s, x);
    }
    DistinctBag(LogSeqs(s.log));
    forall x | x in LogSeqs(s.log)
      ensures exists row :: row in Parsed(cfg.items) && cfg.Wants(row) && row.seqNo == x
    {
      assert multiset(LogSeqs(s.log))[x] > 0;
      assert x in all;
      var i :| 0 <= i < |all| && all[i] == x;
      SelectFromParsed(cfg, cfg.items, 0, Selected(cfg)[i]);
    }
  }

  // ------------------------------------------------------------------
  // What a finished run recorded
  // ------------------------------------------------------------------

  /** The log holds exactly one outcome for each selected row and nothing else. */
  ghost predicate Complete(cfg: Config, s: State) {
    multiset(LogSeqs(s.log)) == Bag(Selected(cfg))
  }

  lemma NoRowsInBag(rows: seq<Row>)
    ensures Bag(rows) == multiset{} <==> rows == []
  {
    assert |Bag(rows)| == |rows|;
  }

  lemma HandsEmpty(cfg: Config, s: State)
    requires Inv(cfg, s) && s.joined
    ensures s.pending == [] && HeldByAcc(s.acc) == [] && s.rowQ == [] && HeldByReader(s.reader) == []
    ensures Flatten(InHands(s.workers)) == []
  {
    EmptyHands(s.workers);
  }

  lemma FinishedAccount(cfg: Config, s: State)
    requires ValidConfig(cfg) && Reachable(cfg, s) && s.joined
    ensures Bag(Selected(cfg))
         == multiset(LogSeqs(s.log)) + (Bag(Flatten(s.jobQ)) + Bag(s.lost) + Bag(Select(cfg, s.items, s.emitted)))
  {
    Conservation(cfg, s);
    HandsEmpty(cfg, s);
    hide Inv, ValidConfig, Reachable, Flatten, Select, Selected, InHands, LogSeqs, HeldByAcc, HeldByReader, Bag;
    var missed := Bag(Flatten(s.jobQ)) + Bag(s.lost) + Bag(Select(cfg, s.items, s.emitted));
    forall x: nat ensures Bag(Selected(cfg))[x] == multiset(LogSeqs(s.log))[x] + missed[x] {
      CountNone(x);
      assert Count(Selected(cfg), x) == Accounted(cfg, s, x);
    }
  }

  /** A finished run covered its selection exactly when nothing was left queued, dropped or unread. */
  lemma CompleteIffNothingMissed(cfg: Config, s: State)
    requires ValidConfig(cfg) && Reachable(cfg, s) && s.joined
    ensures Complete(cfg, s) <==> s.jobQ == [] && s.lost == [] && Select(cfg, s.items, s.emitted) == []
  {
    FinishedAccount(cfg, s);
    Conservation(cfg, s);
    NoRowsInBag(Flatten(s.jobQ));
    NoRowsInBag(s.lost);
    NoRowsInBag(Select(cfg, s.items, s.emitted));
    var log := multiset(LogSeqs(s.log));
    var missed := Bag(Flatten(s.jobQ)) + Bag(s.lost) + Bag(Select(cfg, s.items, s.emitted));
    assert log + missed == log <==> missed == multiset{} by { assert missed == (log + missed) - log; }
    assert missed == multiset{} <==>
      |Bag(Flatten(s.jobQ))| == 0 && |Bag(s.lost)| == 0 && |Bag(Select(cfg, s.items, s.emitted))| == 0 by {
      assert |missed| == |Bag(Flatten(s.jobQ))| + |Bag(s.lost)| + |Bag(Select(cfg, s.items, s.emitted))|;
    }
    assert Flatten(s.jobQ) == [] <==> s.jobQ == [];
  }

  lemma FinishedUndisturbed(cfg: Config, s: State)
    requires Inv(cfg, s) && s.joined && !cfg.external && !Aborted(cfg, s)
    ensures !Disturbed(s) && s.acc == AccDone(RowsDrained)
  {
    match s.acc.end {
      case RowsDrained =>
      case CancelSeen =>
      case FlushCancelled =>
      case AccLogFailed =>
    }
  }

  /** With no caller's token, `aborted == false` means a complete log exactly when the job queue was emptied. */
  lemma CompleteIffJobsDrained(cfg: Config, s: State)
    requires ValidConfig(cfg) && Reachable(cfg, s) && s.joined
    requires !cfg.external && !Aborted(cfg, s)
    ensures Complete(cfg, s) <==> s.jobQ == []
  {
    Conservation(cfg, s);
    FinishedUndisturbed(cfg, s);
    CompleteIffNothingMissed(cfg, s);
  }

  /** One worker that left its loop on the closed and drained queue is enough. */
  lemma NormalRunIsComplete(cfg: Config, s: State, w: nat)
    requires ValidConfig(cfg) && Reachable(cfg, s) && s.joined
    requires !cfg.external && !Aborted(cfg, s)
    requires w < |s.workers| && s.workers[w] == Stopped(Drained)
    ensures Complete(cfg, s) && Distinct(LogSeqs(s.log))
  {
    Conservation(cfg, s);
    CompleteIffJobsDrained(cfg, s);
    AtMostOnceInLog(cfg, s);
  }
}
