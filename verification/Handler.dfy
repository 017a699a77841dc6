/**
 The handler side of the protocol as the Go SDK runs it
 (sdks/go/protocol.go and sdks/go/batch.go): one reply per row, or exit.
 */
module Handler {
  import opened Base
  import opened Protocol

  /** What one call of the handler function comes to; a panic counts as Uncaught. */
  datatype Verdict =
    | Returned(data: Data)
    | Rejected(code: string, message: string, detail: Option<Data>)
    | Uncaught(message: string)
    | NilResult

  const UNCAUGHT := "UNCAUGHT"
  const BAD_RETURN := "BAD_RETURN"
  const BAD_RETURN_MESSAGE := "HandleFunc returned a nil result with no error"

  /** What the log should say about a row the handler has answered. */
  function Answered(s: nat, v: Verdict): (o: RowOutcome)
    ensures o.seqNo == s && !o.Crash? && o.durMs == 0 && (o.Success? <==> v.Returned?)
    ensures o.Success? ==> v == Returned(o.data)
    ensures v.Rejected? ==> o.Error? && v == Rejected(o.code, o.message, o.detail)
    ensures v.Uncaught? ==> o.Error? && o.code == UNCAUGHT && v == Uncaught(o.message) && o.detail == None
    ensures v.NilResult? ==> o.Error? && o.code == BAD_RETURN && o.message == BAD_RETURN_MESSAGE && o.detail == None
  {
    match v
    case Returned(data) => Success(s, data, 0)
    case Rejected(code, message, detail) => Error(s, code, message, 0, detail)
    case Uncaught(message) => Error(s, UNCAUGHT, message, 0, None)
    case NilResult => Error(s, BAD_RETURN, BAD_RETURN_MESSAGE, 0, None)
  }

  function AnsweredAll(rows: seq<Row>, verdicts: seq<Verdict>): (r: seq<RowOutcome>)
    requires |rows| == |verdicts|
    ensures OutcomeSeqs(r) == Seqs(rows)
  {
    seq(|rows|, i requires 0 <= i < |rows| => Answered(rows[i].seqNo, verdicts[i]))
  }

  /** A line on the handler's stdin. */
  datatype InLine = Blank | Malformed | RowLine(row: Row) | BatchLine(rows: Batch) | Shutdown | Unknown

  datatype Ending = Returns | Exits

  /** How many lines of a row-mode session are looked at before it ends. */
  function Lifetime(input: seq<InLine>): (n: nat)
    ensures n <= |input|
  {
    if input == [] || input[0].Malformed? || input[0].Shutdown? then 0 else 1 + Lifetime(input[1..])
  }

  /** The rows among some lines, in order. */
  function RowsIn(input: seq<InLine>): seq<Row> {
    if input == [] then []
    else RowsIn(input[..|input| - 1]) + if input[|input| - 1].RowLine? then [input[|input| - 1].row] else []
  }

  lemma {:induction false} RowsInIff(input: seq<InLine>, row: Row)
    ensures row in RowsIn(input) <==> RowLine(row) in input
  {
    if input != [] {
      assert input == input[..|input| - 1] + [input[|input| - 1]];
      RowsInIff(input[..|input| - 1], row);
    }
  }

  lemma {:induction false} LifetimeIs(input: seq<InLine>, n: nat)
    requires n <= |input|
    requires forall i :: 0 <= i < n ==> !input[i].Malformed? && !input[i].Shutdown?
    requires n < |input| ==> input[n].Malformed? || input[n].Shutdown?
    ensures Lifetime(input) == n
  {
    if n > 0 { LifetimeIs(input[1..], n - 1); }
  }

  lemma {:induction false} OutlivesSound(input: seq<InLine>, n: nat)
    requires n <= |input| && forall i :: 0 <= i < n ==> !input[i].Malformed? && !input[i].Shutdown?
    ensures Lifetime(input) >= n
  {
    if n > 0 { OutlivesSound(input[1..], n - 1); }
  }

  lemma {:induction false} RowsPrefix(input: seq<InLine>, i: nat, j: nat)
    requires i <= j <= |input|
    ensures RowsIn(input[..i]) <= RowsIn(input[..j])
    decreases j
  {
    if i < j {
      RowsPrefix(input, i, j - 1);
      assert input[..j][..j - 1] == input[..j - 1];
    }
  }

  /** The reply is the row's own envelope and says what the handler made of the row. */
  predicate Tells(reply: Inbound, row: Row, v: Verdict) {
    && (reply.Result? || reply.Failure?) && reply.seqNo == row.seqNo
    && RowReplyOutcome(row.seqNo, false, Message(reply)) == Answered(row.seqNo, v)
  }

  /**
   The loop of `Run` after the handshake. `fn(k, data)` is what the k-th call makes of a row, `emits(k)`
   whether the k-th envelope can be marshalled, written and flushed, `scanFails` whether reading stdin
   ends in an error instead of its end.
   */
  method Run(input: seq<InLine>, fn: (nat, Data) -> Verdict, emits: nat -> bool, scanFails: bool)
    returns (replies: seq<Inbound>, ending: Ending)
    ensures var life := Lifetime(input);
      var rows := RowsIn(input[..life]);
      && |replies| <= |rows|
      && (forall k :: 0 <= k < |replies| ==> emits(k) && Tells(replies[k], rows[k], fn(k, rows[k].data)))
      && (|replies| < |rows| ==> !emits(|replies|))
      && (ending == Exits <==> |replies| < |rows| || if life < |input| then input[life].Malformed? else scanFails)
  {
    replies, ending := [], Returns;
    for i := 0 to |input|
      invariant forall j :: 0 <= j < i ==> !input[j].Malformed? && !input[j].Shutdown?
      invariant ending == Returns && |replies| == |RowsIn(input[..i])|
      invariant forall k :: 0 <= k < |replies| ==>
        emits(k) && Tells(replies[k], RowsIn(input[..i])[k], fn(k, RowsIn(input[..i])[k].data))
    {
      assert input[..i + 1][..i] == input[..i];
      match input[i] {
        case Blank =>
        case Malformed =>
          LifetimeIs(input, i);
          return replies, Exits;
        case Shutdown =>
          LifetimeIs(input, i);
          return;
        case BatchLine(_) =>
        case Unknown =>
        case RowLine(row) =>
          var reply := RowReply(row, fn(|replies|, row.data));
          if !emits(|replies|) {
            OutlivesSound(input, i + 1);
            RowsPrefix(input, i + 1, Lifetime(input));
            return replies, Exits;
          }
          replies := replies + [reply];
      }
    }
    LifetimeIs(input, |input|);
    assert input[..|input|] == input;
    if scanFails { ending := Exits; }
  }

  /** The envelope emitted for one row. */
  function RowReply(row: Row, v: Verdict): (reply: Inbound)
    ensures (reply.Result? || reply.Failure?) && reply.seqNo == row.seqNo
    ensures forall idempotent :: RowReplyOutcome(row.seqNo, idempotent, Message(reply)) == Answered(row.seqNo, v)
  {
    match v
    case Returned(data) => Result(row.seqNo, data)
    case Rejected(code, message, detail) => Failure(row.seqNo, code, message, detail)
    case Uncaught(message) => Failure(row.seqNo, UNCAUGHT, message, None)
    case NilResult => Failure(row.seqNo, BAD_RETURN, BAD_RETURN_MESSAGE, None)
  }

  /** Batch results are either successes or errors: a panic ends the process instead. */
  predicate BatchVerdict(v: Verdict) { v.Returned? || v.Rejected? }

  function EntryFor(v: Verdict): BatchEntry
    requires BatchVerdict(v)
  {
    match v
    case Returned(data) => EntryResult(data)
    case Rejected(code, message, detail) => EntryError(code, message, detail)
  }

  function Entries(verdicts: seq<Verdict>): (r: seq<BatchEntry>)
    requires forall v :: v in verdicts ==> BatchVerdict(v)
    ensures |r| == |verdicts|
    ensures forall i :: 0 <= i < |r| ==> r[i] == EntryFor(verdicts[i])
  {
    seq(|verdicts|, i requires 0 <= i < |verdicts| => EntryFor(verdicts[i]))
  }

  /** One turn of `RunBatch`: a reply with an entry for every row, or exit on a length mismatch or a failed emit. */
  method ReplyToBatch(rows: Batch, results: seq<Verdict>, emits: bool) returns (reply: Option<Inbound>)
    requires forall v :: v in results ==> BatchVerdict(v)
    ensures reply.None? <==> |results| != |rows| || !emits
    ensures reply.Some? ==> reply.value == BatchResult(Entries(results))
  {
    if |results| != |rows| { return None; }
    var entries := new BatchEntry[|results|](_ => EntryResult(map[]));
    for i := 0 to |results|
      invariant forall k :: 0 <= k < i ==> entries[k] == EntryFor(results[k])
    {
      assert results[i] in results;
      match results[i] {
        case Returned(data) => entries[i] := EntryResult(data);
        case Rejected(code, message, detail) => entries[i] := EntryError(code, message, detail);
      }
    }
    assert entries[..] == Entries(results);
    if !emits { return None; }
    return Some(BatchResult(entries[..]));
  }

  /** Positional alignment: the host reads back exactly what the handler said about each row. */
  lemma BatchRoundTrip(rows: Batch, verdicts: seq<Verdict>, idempotent: bool)
    requires |rows| == |verdicts| && forall v :: v in verdicts ==> BatchVerdict(v)
    ensures BatchReplyOutcomes(Seqs(rows), idempotent, Message(BatchResult(Entries(verdicts))))
         == AnsweredAll(rows, verdicts)
  {
    forall i | 0 <= i < |rows|
      ensures EntryOutcome(rows[i].seqNo, EntryFor(verdicts[i])) == Answered(rows[i].seqNo, verdicts[i])
    {
      assert verdicts[i] in verdicts;
    }
  }
}
