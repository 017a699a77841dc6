/**
 The streaming dispatch pipeline as a transition system: Reader, Accumulator,
 competing Workers, Stall Monitor and the joining main task, interleaved in
 any order (crates/rowforge-core/src/pool_streaming.rs, reader.rs,
 accumulator.rs, worker_loop.rs).

 One action is one stretch of a task between two points where it can be
 suspended. A biased select is one action: its cancel arm when cancel is set,
 its other arm otherwise.
 */
module Pipeline {
  import opened Base
  import opened Protocol
  import opened Batching
  import opened WorkerLines

  const ROW_CHANNEL_CAP: nat := 64
  const JOB_CHANNEL_CAP: nat := 64

  /** What the input iterator yields: a row, or a row that did not parse. */
  datatype Item = ParseError | Source(row: Row)

  datatype Config = Config(
    items: seq<Item>,
    skip: set<nat>,
    only: Option<set<nat>>,
    limit: Option<nat>,
    runtime: Runtime,
    workers: nat,
    external: bool)  // the caller supplied a cancel token
  {
    function WorkerCount(): nat { if runtime.stateful then 1 else workers }

    predicate Wants(row: Row) {
      match only
      case Some(ids) => row.seqNo in ids
      case None => row.seqNo !in skip
    }

    predicate AtLimit(emitted: nat) { limit.Some? && emitted >= limit.value }
  }

  datatype ReaderPhase = Reading | Holding(row: Row) | ReaderDone

  /** How the accumulator task ended; the first two are its `Ok`. */
  datatype AccEnd = RowsDrained | CancelSeen | FlushCancelled | AccLogFailed

  datatype AccPhase =
    | Receiving
    | Rejecting(row: Row)   // about to append the ROW_TOO_LARGE line
    | FlushThen(row: Row)   // byte cap: send pending, then start over with this row
    | FlushFull             // count cap
    | FlushEof
    | AccDone(end: AccEnd)

  /** How a worker left its loop; all but the last are its `Ok`. */
  datatype WorkerEnd = Drained | SawCancel | WriteFailed | CutOff | LogFailed

  datatype WorkerPhase =
    | Idle
    | Sending(batch: Batch)
    | Waiting(batch: Batch)
    | Recording(batch: Batch, line: BatchOutcome, end: Option<WorkerEnd>)
    | Stopped(why: WorkerEnd)

  datatype State = State(
    items: seq<Item>,
    emitted: nat,             // rows picked for sending, the held one included
    reader: ReaderPhase,
    rowQ: seq<Row>,
    acc: AccPhase,
    pending: Batch,
    pendingBytes: nat,
    jobQ: seq<Batch>,
    lock: Option<nat>,        // holder of the job receiver's mutex
    workers: seq<WorkerPhase>,
    log: seq<BatchOutcome>,
    cancelled: bool,
    operator: bool,           // cancelled from outside
    hard: bool,
    stalled: bool,            // cancelled by the Stall Monitor
    joined: bool,             // every task awaited, monitor told to stop
    sent: seq<Batch>,         // history: every batch ever enqueued
    rejected: seq<Row>,       // history: rows recorded as too large
    lost: seq<Row>)           // history: rows dropped with a task or a queue

  datatype Action =
    | ReaderNext
    | ReaderSend
    | AccReceive
    | AccFlush
    | AccReject(ok: bool)
    | Lock(w: nat)
    | Pull(w: nat)
    | Write(w: nat, ok: bool)
    | Answer(w: nat, reply: Reply)
    | CutRecv(w: nat)
    | Append(w: nat, ok: bool)
    | Cancel(hard: bool)
    | Stall
    | Join

  function Init(cfg: Config): State {
    State(cfg.items, 0, Reading, [], Receiving, [], 0, [], None,
          seq(cfg.WorkerCount(), i => Idle), [], false, false, false, false, false, [], [], [])
  }

  predicate AllStopped(ws: seq<WorkerPhase>) {
    forall i :: 0 <= i < |ws| ==> ws[i].Stopped?
  }

  predicate TasksDone(s: State) {
    s.reader.ReaderDone? && s.acc.AccDone? && AllStopped(s.workers)
  }

  // ------------------------------------------------------------------
  // When an action can be taken
  // ------------------------------------------------------------------

  predicate Enabled(cfg: Config, s: State, a: Action) {
    match a
    case ReaderNext => s.reader.Reading?
    case ReaderSend => s.reader.Holding? && (s.cancelled || s.acc.AccDone? || |s.rowQ| < ROW_CHANNEL_CAP)
    case AccReceive => s.acc.Receiving? && (s.cancelled || s.rowQ != [] || s.reader.ReaderDone?)
    case AccFlush => Flushing(s.acc) && (s.cancelled || |s.jobQ| < JOB_CHANNEL_CAP)
    case AccReject(_) => s.acc.Rejecting?
    case Lock(w) => w < |s.workers| && s.workers[w].Idle? && s.lock.None?
    case Pull(w) => w < |s.workers| && s.lock == Some(w) && (s.cancelled || s.jobQ != [] || s.acc.AccDone?)
    case Write(w, _) => w < |s.workers| && s.workers[w].Sending? && s.workers[w].batch != []
    case Answer(w, _) => w < |s.workers| && s.workers[w].Waiting? && s.workers[w].batch != [] && !s.cancelled
    case CutRecv(w) => w < |s.workers| && s.workers[w].Waiting? && s.workers[w].batch != [] && s.cancelled
    case Append(w, _) => w < |s.workers| && s.workers[w].Recording?
    case Cancel(hard) => cfg.external && !s.joined && (!s.cancelled || (hard && !s.hard))
    case Stall => !s.cancelled
    case Join => TasksDone(s) && !s.joined
  }

  predicate Flushing(acc: AccPhase) { acc.FlushThen? || acc.FlushFull? || acc.FlushEof? }

  // ------------------------------------------------------------------
  // What each action does
  // ------------------------------------------------------------------

  /** One turn of the reader's for loop, up to its send. */
  function DoReaderNext(cfg: Config, s: State): State {
    if s.items == [] || s.cancelled then s.(reader := ReaderDone)
    else match s.items[0]
      case ParseError => s.(items := s.items[1..])
      case Source(row) =>
        if !cfg.Wants(row) then s.(items := s.items[1..])
        else if cfg.AtLimit(s.emitted) then s.(reader := ReaderDone)
        else s.(items := s.items[1..], emitted := s.emitted + 1, reader := Holding(row))
  }

  function DoReaderSend(s: State): State
    requires s.reader.Holding?
  {
    if s.cancelled || s.acc.AccDone? then s.(reader := ReaderDone, lost := s.lost + [s.reader.row])
    else s.(reader := Reading, rowQ := s.rowQ + [s.reader.row])
  }

  /** The accumulator returns: its pending rows, `held`, and the row queue go with it. */
  function AccExit(s: State, end: AccEnd, held: seq<Row>): State {
    s.(acc := AccDone(end), lost := s.lost + s.pending + held + s.rowQ, pending := [], pendingBytes := 0, rowQ := [])
  }

  function AccPush(cfg: Config, s: State, row: Row): State {
    var grown := s.pending + [row];
    s.(pending := grown, pendingBytes := s.pendingBytes + row.size,
       acc := if |grown| >= cfg.runtime.MaxCount() then FlushFull else Receiving)
  }

  /** The next row of the queue: too large, over a byte cap, or simply one more pending row. */
  function AccMeet(cfg: Config, s: State): State
    requires s.rowQ != []
  {
    var row := s.rowQ[0];
    var t := s.(rowQ := s.rowQ[1..]);
    if !Dispatchable(row) then t.(acc := Rejecting(row))
    else if Overflows(cfg.runtime, s.pending, s.pendingBytes, row) then t.(acc := FlushThen(row))
    else AccPush(cfg, t, row)
  }

  function DoAccReceive(cfg: Config, s: State): State {
    if s.cancelled then AccExit(s, CancelSeen, [])
    else if s.rowQ != [] then AccMeet(cfg, s)
    else if s.pending == [] then AccExit(s, RowsDrained, [])
    else s.(acc := FlushEof)
  }

  function HeldByAcc(acc: AccPhase): seq<Row> {
    match acc
    case Rejecting(row) => [row]
    case FlushThen(row) => [row]
    case _ => []
  }

  function DoAccFlush(cfg: Config, s: State): State
    requires Flushing(s.acc)
  {
    if s.cancelled then AccExit(s, FlushCancelled, HeldByAcc(s.acc))
    else
      var t := s.(jobQ := s.jobQ + [s.pending], sent := s.sent + [s.pending], pending := [], pendingBytes := 0);
      match s.acc
      case FlushThen(row) => AccPush(cfg, t, row)
      case FlushFull => t.(acc := Receiving)
      case FlushEof => AccExit(t, RowsDrained, [])
  }

  function DoAccReject(s: State, ok: bool): State
    requires s.acc.Rejecting?
  {
    if ok then s.(acc := Receiving, log := s.log + [TooLargeLine(s.acc.row)], rejected := s.rejected + [s.acc.row])
    else AccExit(s, AccLogFailed, [s.acc.row])
  }

  function SetWorker(s: State, w: nat, p: WorkerPhase): State
    requires w < |s.workers|
  {
    s.(workers := s.workers[w := p])
  }

  function DoPull(s: State, w: nat): State
    requires w < |s.workers|
  {
    var t := s.(lock := None);
    if s.cancelled then SetWorker(t, w, Stopped(SawCancel))
    else if s.jobQ != [] then SetWorker(t.(jobQ := s.jobQ[1..]), w, Sending(s.jobQ[0]))
    else SetWorker(t, w, Stopped(Drained))
  }

  function DoWrite(cfg: Config, s: State, w: nat, ok: bool): State
    requires w < |s.workers| && s.workers[w].Sending? && s.workers[w].batch != []
  {
    var batch := s.workers[w].batch;
    SetWorker(s, w, if ok then Waiting(batch) else Recording(batch, CrashLine(cfg.runtime, batch), Some(WriteFailed)))
  }

  function DoAnswer(cfg: Config, s: State, w: nat, reply: Reply): State
    requires w < |s.workers| && s.workers[w].Waiting? && s.workers[w].batch != []
  {
    var batch := s.workers[w].batch;
    SetWorker(s, w, Recording(batch, ReplyLine(cfg.runtime, batch, reply), None))
  }

  function DoCutRecv(cfg: Config, s: State, w: nat): State
    requires w < |s.workers| && s.workers[w].Waiting? && s.workers[w].batch != []
  {
    var batch := s.workers[w].batch;
    SetWorker(s, w, Recording(batch, CrashLine(cfg.runtime, batch), Some(CutOff)))
  }

  function DoAppend(s: State, w: nat, ok: bool): State
    requires w < |s.workers| && s.workers[w].Recording?
  {
    var p := s.workers[w];
    if !ok then SetWorker(s.(lost := s.lost + p.batch), w, Stopped(LogFailed))
    else SetWorker(s.(log := s.log + [p.line]), w, match p.end case Some(e) => Stopped(e) case None => Idle)
  }

  function Apply(cfg: Config, s: State, a: Action): State
    requires Enabled(cfg, s, a)
  {
    match a
    case ReaderNext => DoReaderNext(cfg, s)
    case ReaderSend => DoReaderSend(s)
    case AccReceive => DoAccReceive(cfg, s)
    case AccFlush => DoAccFlush(cfg, s)
    case AccReject(ok) => DoAccReject(s, ok)
    case Lock(w) => s.(lock := Some(w))
    case Pull(w) => DoPull(s, w)
    case Write(w, ok) => DoWrite(cfg, s, w, ok)
    case Answer(w, reply) => DoAnswer(cfg, s, w, reply)
    case CutRecv(w) => DoCutRecv(cfg, s, w)
    case Append(w, ok) => DoAppend(s, w, ok)
    case Cancel(hard) => s.(cancelled := true, operator := true, hard := s.hard || hard)
    case Stall => s.(cancelled := true, stalled := true)
    case Join => s.(cancelled := true, joined := true)
  }

  // ------------------------------------------------------------------
  // Runs and their report
  // ------------------------------------------------------------------

  /** The state a schedule of actions leads to, if every action in it is enabled in turn. */
  function Exec(cfg: Config, s: State, schedule: seq<Action>): Option<State>
    decreases |schedule|
  {
    if schedule == [] then Some(s)
    else if Enabled(cfg, s, schedule[0]) then Exec(cfg, Apply(cfg, s, schedule[0]), schedule[1..])
    else None
  }

  lemma {:induction false} ExecConcat(cfg: Config, s: State, first: seq<Action>, second: seq<Action>)
    requires Exec(cfg, s, first).Some?
    ensures Exec(cfg, s, first + second) == Exec(cfg, Exec(cfg, s, first).value, second)
    decreases |first|
  {
    if first == [] {
      assert first + second == second;
    } else {
      assert (first + second)[1..] == first[1..] + second;
      ExecConcat(cfg, Apply(cfg, s, first[0]), first[1..], second);
    }
  }

  ghost predicate Reachable(cfg: Config, s: State) {
    exists schedule :: Exec(cfg, Init(cfg), schedule) == Some(s)
  }

  predicate SomeWorkerLogFailed(ws: seq<WorkerPhase>) {
    exists i :: 0 <= i < |ws| && ws[i] == Stopped(LogFailed)
  }

  /** The report's `aborted` flag, decided in the source's order of precedence. */
  function Aborted(cfg: Config, s: State): bool {
    if s.stalled then true
    else if SomeWorkerLogFailed(s.workers) then true
    else if s.acc == AccDone(AccLogFailed) then true
    else if cfg.external && s.cancelled && s.hard then true
    else cfg.external && s.cancelled && s.acc == AccDone(FlushCancelled)
  }

  /** The rows an attempt is meant to cover, as the reader's loop picks them from a position on. */
  function Select(cfg: Config, items: seq<Item>, emitted: nat): seq<Row> {
    if items == [] then []
    else match items[0]
      case ParseError => Select(cfg, items[1..], emitted)
      case Source(row) =>
        if !cfg.Wants(row) then Select(cfg, items[1..], emitted)
        else if cfg.AtLimit(emitted) then []
        else [row] + Select(cfg, items[1..], emitted + 1)
  }

  function Selected(cfg: Config): seq<Row> { Select(cfg, cfg.items, 0) }

  /** The rows that parse, in input order. */
  function Parsed(items: seq<Item>): seq<Row> {
    if items == [] then []
    else (match items[0] case ParseError => [] case Source(row) => [row]) + Parsed(items[1..])
  }

  /** The selection is the first `limit` of the rows that parse and pass the filter. */
  lemma {:induction false} SelectIsFilteredPrefix(cfg: Config, items: seq<Item>, emitted: nat)
    requires cfg.limit.Some? ==> emitted <= cfg.limit.value
    ensures Select(cfg, items, emitted)
         == Take(Filter(row => cfg.Wants(row), Parsed(items)),
                 match cfg.limit case None => None case Some(n) => Some(n - emitted))
  {
    if items != [] {
      var keep := row => cfg.Wants(row);
      match items[0]
      case ParseError =>
        assert Parsed(items) == Parsed(items[1..]);
        SelectIsFilteredPrefix(cfg, items[1..], emitted);
      case Source(row) =>
        assert Parsed(items) == [row] + Parsed(items[1..]);
        if !cfg.Wants(row) || !cfg.AtLimit(emitted) {
          SelectIsFilteredPrefix(cfg, items[1..], if cfg.Wants(row) then emitted + 1 else emitted);
        }
    }
  }

  /** Input positions carry strictly increasing sequence numbers. */
  ghost predicate Increasing(rows: seq<Row>) {
    forall i, j :: 0 <= i < j < |rows| ==> rows[i].seqNo < rows[j].seqNo
  }
}
