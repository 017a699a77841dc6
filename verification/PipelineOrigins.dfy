/**
 Where rows come from: whatever is on its way through the pipeline, and
 whatever was rejected as oversized, belongs to the attempt's selection.
 */
module PipelineOrigins {
  import opened Base
  import opened Protocol
  import opened Batching
  import opened Pipeline
  import opened PipelineSafety
  import opened PipelineAccount
  import opened PipelineBatches
  import opened PipelineComplete

  /** Rows on their way to the accumulator's decision, the one it holds included. */
  function Undecided(cfg: Config, s: State): seq<Row> { Coming(cfg, s) + HeldByAcc(s.acc) }

  ghost predicate Origin(cfg: Config, s: State) {
    && (forall row :: row in Undecided(cfg, s) ==> row in Selected(cfg))
    && (forall row :: row in s.rejected ==> row in Selected(cfg) && !Dispatchable(row))
  }

  lemma NextComes(cfg: Config, s: State)
    requires s.reader.Reading?
    ensures forall row :: row in Coming(cfg, DoReaderNext(cfg, s)) ==> row in Coming(cfg, s)
  {
    if s.cancelled {
      assert Coming(cfg, DoReaderNext(cfg, s)) == Coming(cfg, s);
    } else {
      NextOnTarget(cfg, s);
    }
    hide Coming;
  }

  lemma SendComes(cfg: Config, s: State)
    requires s.reader.Holding?
    ensures forall row :: row in Coming(cfg, DoReaderSend(s)) ==> row in Coming(cfg, s)
  {
    hide Select;
  }

  lemma ExitComes(cfg: Config, s: State, end: AccEnd, held: seq<Row>)
    ensures forall row :: row in Undecided(cfg, AccExit(s, end, held)) ==> row in Coming(cfg, s)
  {
    hide Select;
  }

  lemma MeetComes(cfg: Config, s: State)
    requires s.acc.Receiving? && s.rowQ != []
    ensures forall row :: row in Undecided(cfg, AccMeet(cfg, s)) ==> row in Coming(cfg, s)
  {
    var t := AccMeet(cfg, s);
    MeetMoves(cfg, s);
    assert HeldByAcc(t.acc) == [] || HeldByAcc(t.acc) == [s.rowQ[0]];
    hide AccMeet, HeldByAcc, Select;
    assert Coming(cfg, t) == Coming(cfg, s)[1..] && Coming(cfg, s)[0] == s.rowQ[0];
  }

  lemma ReceiveComes(cfg: Config, s: State)
    requires s.acc.Receiving?
    ensures forall row :: row in Undecided(cfg, DoAccReceive(cfg, s)) ==> row in Coming(cfg, s)
  {
    if s.cancelled {
      ExitComes(cfg, s, CancelSeen, []);
    } else if s.rowQ != [] {
      MeetComes(cfg, s);
    } else if s.pending == [] {
      ExitComes(cfg, s, RowsDrained, []);
    }
    hide AccMeet, AccExit, Select;
  }

  lemma PushComes(cfg: Config, s: State, row: Row)
    ensures Undecided(cfg, AccPush(cfg, s, row)) == Coming(cfg, s)
  {
    hide Runtime.MaxCount, Select;
  }

  lemma FlushComes(cfg: Config, s: State)
    requires Flushing(s.acc)
    ensures forall row :: row in Undecided(cfg, DoAccFlush(cfg, s)) ==> row in Coming(cfg, s)
  {
    var t := s.(jobQ := s.jobQ + [s.pending], sent := s.sent + [s.pending], pending := [], pendingBytes := 0);
    assert Coming(cfg, t) == Coming(cfg, s);
    if s.cancelled {
      ExitComes(cfg, s, FlushCancelled, HeldByAcc(s.acc));
    } else if s.acc.FlushThen? {
      PushComes(cfg, t, s.acc.row);
    } else if s.acc.FlushEof? {
      ExitComes(cfg, t, RowsDrained, []);
    }
    hide AccPush, AccExit, Select;
  }

  lemma RejectComes(cfg: Config, s: State, ok: bool)
    requires s.acc.Rejecting?
    ensures var t := DoAccReject(s, ok);
      && (forall row :: row in Undecided(cfg, t) ==> row in Coming(cfg, s))
      && t.rejected == s.rejected + (if ok then [s.acc.row] else [])
  {
    ExitComes(cfg, s, AccLogFailed, [s.acc.row]);
    hide AccExit, Select, TooLargeLine;
  }

  /** Only the accumulator rejects, and only what it holds. */
  lemma AccumulatorComes(cfg: Config, s: State, a: Action)
    requires Enabled(cfg, s, a) && OfTheAccumulator(a)
    ensures var t := Apply(cfg, s, a);
      && (forall row :: row in Undecided(cfg, t) ==> row in Coming(cfg, s))
      && t.rejected == s.rejected + (if a == AccReject(true) then [s.acc.row] else [])
  {
    match a
    case AccReceive =>
      ReceiveComes(cfg, s);
      KeepsRejected(cfg, s, a);
      hide *;
    case AccFlush =>
      FlushComes(cfg, s);
      KeepsRejected(cfg, s, a);
      hide *;
    case AccReject(ok) =>
      RejectComes(cfg, s, ok);
      hide *;
  }

  lemma KeepsRejected(cfg: Config, s: State, a: Action)
    requires Enabled(cfg, s, a) && (a.AccReceive? || a.AccFlush?)
    ensures Apply(cfg, s, a).rejected == s.rejected + []
  {
    AccumulatorActs(cfg, s, a);
    hide Apply, Enabled;
  }

  lemma OriginStep(cfg: Config, s: State, a: Action)
    requires Inv(cfg, s) && Enabled(cfg, s, a) && Origin(cfg, s)
    ensures Origin(cfg, Apply(cfg, s, a))
  {
    var t := Apply(cfg, s, a);
    if OfTheAccumulator(a) {
      AccumulatorComes(cfg, s, a);
      if s.acc.Rejecting? {
        assert !Dispatchable(s.acc.row) && HeldByAcc(s.acc) == [s.acc.row];
        assert s.acc.row in Undecided(cfg, s);
      }
      assert a.AccReject? ==> s.acc.Rejecting?;
      assert forall row :: row in Coming(cfg, s) ==> row in Undecided(cfg, s);
    } else {
      if OfAWorker(a) { WorkerFrame(cfg, s, a); } else { RestFrame(cfg, s, a); }
      OthersCome(cfg, s, a);
    }
    hide Apply, Enabled, Inv, Coming, Selected, Dispatchable;
  }

  lemma OthersCome(cfg: Config, s: State, a: Action)
    requires Inv(cfg, s) && Enabled(cfg, s, a) && !OfTheAccumulator(a)
    ensures forall row :: row in Undecided(cfg, Apply(cfg, s, a)) ==> row in Undecided(cfg, s)
  {
    if a.ReaderNext? {
      NextComes(cfg, s);
      RestFrame(cfg, s, a);
      hide Coming, HeldByAcc;
    } else if a.ReaderSend? {
      SendComes(cfg, s);
      RestFrame(cfg, s, a);
      hide Coming, HeldByAcc;
    } else if OfAWorker(a) {
      WorkerFrame(cfg, s, a);
      hide Apply, Enabled, Inv, Select;
    } else {
      hide Select, Inv;
    }
  }

  lemma {:induction false} ExecOrigin(cfg: Config, s: State, schedule: seq<Action>)
    requires cfg.runtime.Validates() && Inv(cfg, s) && Origin(cfg, s) && Exec(cfg, s, schedule).Some?
    ensures Origin(cfg, Exec(cfg, s, schedule).value)
    decreases |schedule|
  {
    hide Inv, Origin, Apply, Enabled;
    if schedule != [] {
      InvStep(cfg, s, schedule[0]);
      OriginStep(cfg, s, schedule[0]);
      ExecOrigin(cfg, Apply(cfg, s, schedule[0]), schedule[1..]);
    }
  }

  /** In every reachable state rows under way are selected ones, and rejected rows are selected and oversized. */
  lemma OriginHolds(cfg: Config, s: State)
    requires ValidConfig(cfg) && Reachable(cfg, s)
    ensures Origin(cfg, s)
  {
    var schedule :| Exec(cfg, Init(cfg), schedule) == Some(s);
    InitInv(cfg);
    assert Undecided(cfg, Init(cfg)) == Selected(cfg);
    assert Origin(cfg, Init(cfg));
    hide Inv, Origin, Init, Exec;
    ExecOrigin(cfg, Init(cfg), schedule);
  }
}
