/**
 Rows, wire messages and the per-row outcomes a worker records
 (crates/rowforge-core/src/pool.rs, protocol.rs, worker.rs, worker_loop.rs).
 */
module Protocol {
  import opened Base

  /** A JSON value as far as exports look at it: strings, null, everything else as its rendered text. */
  datatype Json = Null | Str(s: string) | Other(text: string)

  type Data = map<string, Json>

  /** A row on its way to a worker; `size` is the length of its serialised envelope. */
  datatype Row = Row(seqNo: nat, data: Data, size: nat)

  type Batch = seq<Row>

  const ERR_WORKER_CRASH := "WORKER_CRASH"
  const ERR_WORKER_CRASH_UNSAFE := "WORKER_CRASH_UNSAFE"
  const ERR_CANCELLED := "CANCELLED"
  const ERR_ROW_TOO_LARGE := "ROW_TOO_LARGE"
  const ERR_BATCH_PROTOCOL_ERROR := "BATCH_PROTOCOL_ERROR"
  const ERR_PROTOCOL_ERROR := "ROW_PROTOCOL_ERROR"

  datatype RowOutcome =
    | Success(seqNo: nat, data: Data, durMs: nat)
    | Error(seqNo: nat, code: string, message: string, durMs: nat, detail: Option<Data>)
    | Crash(seqNo: nat, workerId: nat, crashAtSeq: nat)

  /** One line of outcomes.jsonl. */
  datatype BatchOutcome = BatchOutcome(firstSeq: nat, seqs: seq<nat>, outcomes: seq<RowOutcome>)

  datatype BatchEntry =
    | EntryResult(data: Data)
    | EntryError(code: string, message: string, detail: Option<Data>)

  datatype Inbound =
    | Ready
    | Result(seqNo: nat, data: Data)
    | Failure(seqNo: nat, code: string, message: string, detail: Option<Data>)
    | BatchResult(results: seq<BatchEntry>)

  /** What `Worker::recv` yields: a message, a closed stdout, or a read error. */
  datatype Reply = Message(msg: Inbound) | Eof | ReadError

  datatype Mode = RowMode | BatchMode

  /** How the studio classes a row that did not succeed. */
  datatype RowOutcomeKind = KindError | KindCrash | KindTooLarge

  function Seqs(rows: seq<Row>): (r: seq<nat>)
    ensures |r| == |rows|
    ensures forall i :: 0 <= i < |rows| ==> r[i] == rows[i].seqNo
  {
    seq(|rows|, i requires 0 <= i < |rows| => rows[i].seqNo)
  }

  lemma SeqsConcat(a: seq<Row>, b: seq<Row>)
    ensures Seqs(a + b) == Seqs(a) + Seqs(b)
  {
  }

  function OutcomeSeqs(outcomes: seq<RowOutcome>): (r: seq<nat>)
    ensures |r| == |outcomes|
    ensures forall i :: 0 <= i < |outcomes| ==> r[i] == outcomes[i].seqNo
  {
    seq(|outcomes|, i requires 0 <= i < |outcomes| => outcomes[i].seqNo)
  }

  /** `BatchOutcome::from_outcomes`; the source panics on an empty vector. */
  function FromOutcomes(outcomes: seq<RowOutcome>): (bo: BatchOutcome)
    requires outcomes != []
    ensures bo.outcomes == outcomes
    ensures bo.seqs == OutcomeSeqs(outcomes) && bo.firstSeq == bo.seqs[0]
  {
    var seqs := OutcomeSeqs(outcomes);
    BatchOutcome(seqs[0], seqs, outcomes)
  }

  /** The code tells whether the row may safely be sent again. */
  function SynthesizeCrash(seqNo: nat, idempotent: bool): (o: RowOutcome)
    ensures o.Error? && o.seqNo == seqNo
    ensures o.code == ERR_WORKER_CRASH <==> idempotent
    ensures o.code == ERR_WORKER_CRASH_UNSAFE <==> !idempotent
    ensures o.durMs == 0 && o.detail == None
  {
    Error(seqNo, if idempotent then ERR_WORKER_CRASH else ERR_WORKER_CRASH_UNSAFE, "worker crashed", 0, None)
  }

  function CrashAll(seqs: seq<nat>, idempotent: bool): (r: seq<RowOutcome>)
    ensures OutcomeSeqs(r) == seqs
    ensures forall o :: o in r ==> o.Error?
  {
    seq(|seqs|, i requires 0 <= i < |seqs| => SynthesizeCrash(seqs[i], idempotent))
  }

  function SynthesizeTooLarge(seqNo: nat): (o: RowOutcome)
    ensures o.Error? && o.seqNo == seqNo && o.code == ERR_ROW_TOO_LARGE && o.durMs == 0 && o.detail == None
  {
    Error(seqNo, ERR_ROW_TOO_LARGE, "row exceeds the hard cap", 0, None)
  }

  function SynthesizeBatchProtocolError(seqs: seq<nat>): (r: seq<RowOutcome>)
    ensures OutcomeSeqs(r) == seqs
    ensures forall o :: o in r ==> o.Error? && o.code == ERR_BATCH_PROTOCOL_ERROR && o.durMs == 0 && o.detail == None
  {
    seq(|seqs|, i requires 0 <= i < |seqs| => Error(seqs[i], ERR_BATCH_PROTOCOL_ERROR, "bad batch reply", 0, None))
  }

  /** Row mode: the reply's own `seq` is ignored, the outcome carries the dispatched one. */
  function RowReplyOutcome(seqNo: nat, idempotent: bool, reply: Reply): (o: RowOutcome)
    ensures o.seqNo == seqNo && !o.Crash? && o.durMs == 0
    ensures o.Success? <==> reply.Message? && reply.msg.Result?
    ensures o.Success? ==> o.data == reply.msg.data
    ensures reply.Message? && reply.msg.Failure? ==>
      o.code == reply.msg.code && o.message == reply.msg.message && o.detail == reply.msg.detail
    ensures !reply.Message? ==> o == SynthesizeCrash(seqNo, idempotent)
    ensures reply.Message? && (reply.msg.Ready? || reply.msg.BatchResult?) ==>
      o.code == ERR_PROTOCOL_ERROR && o.detail == None
  {
    match reply
    case Message(Result(_, data)) => Success(seqNo, data, 0)
    case Message(Failure(_, code, message, detail)) => Error(seqNo, code, message, 0, detail)
    case Message(_) => Error(seqNo, ERR_PROTOCOL_ERROR, "unexpected message", 0, None)
    case Eof => SynthesizeCrash(seqNo, idempotent)
    case ReadError => SynthesizeCrash(seqNo, idempotent)
  }

  function EntryOutcome(seqNo: nat, entry: BatchEntry): (o: RowOutcome)
    ensures o.seqNo == seqNo && !o.Crash? && o.durMs == 0
    ensures entry == if o.Success? then EntryResult(o.data) else EntryError(o.code, o.message, o.detail)
  {
    match entry
    case EntryResult(data) => Success(seqNo, data, 0)
    case EntryError(code, message, detail) => Error(seqNo, code, message, 0, detail)
  }

  /** Batch mode (`recv_batch_result` and the crash fallback around it): positional alignment. */
  function BatchReplyOutcomes(seqs: seq<nat>, idempotent: bool, reply: Reply): (r: seq<RowOutcome>)
    ensures OutcomeSeqs(r) == seqs
    ensures if reply.Message? && reply.msg.BatchResult? && |reply.msg.results| == |seqs| then
        forall i :: 0 <= i < |seqs| ==> r[i] == EntryOutcome(seqs[i], reply.msg.results[i])
      else
        forall o :: o in r ==> o.Error?
    ensures !reply.Message? ==> r == CrashAll(seqs, idempotent)
  {
    match reply
    case Message(BatchResult(results)) =>
      if |results| != |seqs| then SynthesizeBatchProtocolError(seqs)
      else seq(|seqs|, i requires 0 <= i < |seqs| => EntryOutcome(seqs[i], results[i]))
    case Message(_) => SynthesizeBatchProtocolError(seqs)
    case Eof => CrashAll(seqs, idempotent)
    case ReadError => CrashAll(seqs, idempotent)
  }

  /** The outcomes a worker derives from one reply; row mode looks at the batch's first row only. */
  function ReplyOutcomes(mode: Mode, seqs: seq<nat>, idempotent: bool, reply: Reply): (r: seq<RowOutcome>)
    requires seqs != []
    ensures OutcomeSeqs(r) == if mode == RowMode then seqs[..1] else seqs
    ensures forall o :: o in r ==> !o.Crash?
    ensures mode == RowMode && reply.Message? && reply.msg.Result? ==> r == [Success(seqs[0], reply.msg.data, 0)]
    ensures mode == RowMode && reply.Message? && reply.msg.Failure? ==>
      r == [Error(seqs[0], reply.msg.code, reply.msg.message, 0, reply.msg.detail)]
    ensures mode == BatchMode && reply.Message? && reply.msg.BatchResult? && |reply.msg.results| == |seqs| ==>
      forall i :: 0 <= i < |seqs| ==> r[i] == EntryOutcome(seqs[i], reply.msg.results[i])
    ensures forall o :: o in r && o.Success? ==>
      && reply.Message?
      && if mode == RowMode then reply.msg.Result? else reply.msg.BatchResult? && |reply.msg.results| == |seqs|
    ensures !reply.Message? ==> r == CrashAll(if mode == RowMode then seqs[..1] else seqs, idempotent)
  {
    match mode
    case RowMode => [RowReplyOutcome(seqs[0], idempotent, reply)]
    case BatchMode => BatchReplyOutcomes(seqs, idempotent, reply)
  }
}
