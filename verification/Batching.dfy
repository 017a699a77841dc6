/**
 Runtime caps and the accumulator's batching
 (crates/rowforge-core/src/runtime.rs and accumulator.rs).
 */
module Batching {
  import opened Base
  import opened Protocol

  const MIN_BATCH_SIZE: nat := 1
  const MAX_BATCH_SIZE: nat := 10_000
  const ROW_HARD_CAP_BYTES: nat := 4 * 1024 * 1024

  datatype Runtime = Runtime(
    mode: Mode,
    batchSize: Option<nat>,
    maxBatchBytes: nat,
    batchBytesTarget: nat,
    idempotent: Option<bool>,
    stateful: bool)
  {
    /** `Runtime::validate`, true for `Ok`. */
    predicate Validates() {
      match mode
      case RowMode => true
      case BatchMode =>
        && batchSize.Some?
        && MIN_BATCH_SIZE <= batchSize.value <= MAX_BATCH_SIZE
        && idempotent.Some?
        && maxBatchBytes != 0
        && maxBatchBytes >= ROW_HARD_CAP_BYTES
    }

    function MaxCount(): nat {
      match mode
      case RowMode => 1
      case BatchMode => match batchSize case Some(n) => n case None => 100
    }

    function IsIdempotent(): bool {
      match idempotent case Some(b) => b case None => true
    }
  }

  /** The two limits a batch obeys: row count, and row bytes unless the batch is a single row. */
  datatype Caps = Caps(count: nat, bytes: nat)

  function CapsOf(rt: Runtime): (c: Caps) {
    Caps(rt.MaxCount(), Min(rt.maxBatchBytes, rt.batchBytesTarget))
  }

  function Bytes(rows: seq<Row>): nat {
    if rows == [] then 0 else Bytes(rows[..|rows| - 1]) + rows[|rows| - 1].size
  }

  predicate Fits(caps: Caps, batch: Batch) {
    1 <= |batch| <= caps.count && (|batch| == 1 || Bytes(batch) <= caps.bytes)
  }

  predicate Dispatchable(row: Row) { row.size <= ROW_HARD_CAP_BYTES }

  // ------------------------------------------------------------------
  // Reference: cut off the longest batch that fits, again and again
  // ------------------------------------------------------------------

  function Extend(caps: Caps, rows: seq<Row>, k: nat): (r: nat)
    requires 1 <= k <= |rows| && Fits(caps, rows[..k])
    ensures k <= r <= |rows| && Fits(caps, rows[..r])
    ensures r < |rows| ==> !Fits(caps, rows[..r + 1])
    decreases |rows| - k
  {
    if k < |rows| && Fits(caps, rows[..k + 1]) then Extend(caps, rows, k + 1) else k
  }

  function LongestFit(caps: Caps, rows: seq<Row>): (k: nat)
    requires caps.count >= 1 && rows != []
    ensures 1 <= k <= |rows| && Fits(caps, rows[..k])
    ensures k < |rows| ==> !Fits(caps, rows[..k + 1])
  {
    Extend(caps, rows, 1)
  }

  function Greedy(caps: Caps, rows: seq<Row>): seq<Batch>
    requires caps.count >= 1
    decreases |rows|
  {
    if rows == [] then []
    else var k := LongestFit(caps, rows); [rows[..k]] + Greedy(caps, rows[k..])
  }

  /** A way to cut `rows` into consecutive batches that all respect the caps. */
  ghost predicate Legal(caps: Caps, rows: seq<Row>, batches: seq<Batch>) {
    && Flatten(batches) == rows
    && forall i :: 0 <= i < |batches| ==> Fits(caps, batches[i])
  }

  lemma {:induction false} GreedyIsLegal(caps: Caps, rows: seq<Row>)
    requires caps.count >= 1
    ensures Legal(caps, rows, Greedy(caps, rows))
    decreases |rows|
  {
    if rows != [] {
      var k := LongestFit(caps, rows);
      GreedyIsLegal(caps, rows[k..]);
      assert rows == rows[..k] + rows[k..];
      var rest := Greedy(caps, rows[k..]);
      assert Greedy(caps, rows) == [rows[..k]] + rest;
      assert ([rows[..k]] + rest)[1..] == rest;
    }
  }

  lemma {:induction false} BytesConcat(a: seq<Row>, b: seq<Row>)
    ensures Bytes(a + b) == Bytes(a) + Bytes(b)
  {
    if b == [] {
      assert a + b == a;
    } else {
      var n := |b| - 1;
      assert (a + b)[..|a + b| - 1] == a + b[..n];
      BytesConcat(a, b[..n]);
    }
  }

  /** Every non-empty piece of a batch that fits also fits. */
  lemma FitsInside(caps: Caps, batch: Batch, i: nat, j: nat)
    requires Fits(caps, batch) && i < j <= |batch|
    ensures Fits(caps, batch[i..j])
  {
    assert batch == batch[..i] + (batch[i..j] + batch[j..]);
    BytesConcat(batch[..i], batch[i..j] + batch[j..]);
    BytesConcat(batch[i..j], batch[j..]);
  }

  lemma PrefixFits(caps: Caps, rows: seq<Row>, i: nat, j: nat)
    requires 1 <= i <= j <= |rows| && Fits(caps, rows[..j])
    ensures Fits(caps, rows[..i])
  {
    FitsInside(caps, rows[..j], 0, i);
    assert rows[..j][0..i] == rows[..i];
  }

  /** No cut of the rows that starts at the front beats the longest fit. */
  lemma LongestFitIsMaximal(caps: Caps, rows: seq<Row>, j: nat)
    requires caps.count >= 1 && 1 <= j <= |rows| && Fits(caps, rows[..j])
    ensures j <= LongestFit(caps, rows)
  {
    var k := LongestFit(caps, rows);
    if k < j {
      PrefixFits(caps, rows, k + 1, j);
    }
  }

  /** Dropping rows at the front never costs the greedy cut an extra batch. */
  lemma {:induction false} GreedySuffix(caps: Caps, rows: seq<Row>, j: nat)
    requires caps.count >= 1 && j <= |rows|
    ensures |Greedy(caps, rows[j..])| <= |Greedy(caps, rows)|
    decreases |rows|
  {
    if j < |rows| {
      var k := LongestFit(caps, rows);
      assert Greedy(caps, rows) == [rows[..k]] + Greedy(caps, rows[k..]);
      if k <= j {
        assert rows[k..][j - k..] == rows[j..];
        GreedySuffix(caps, rows[k..], j - k);
      } else {
        var m := LongestFit(caps, rows[j..]);
        SuffixReachesFurther(caps, rows, j);
        assert rows[j..][m..] == rows[k..][j + m - k..];
        assert Greedy(caps, rows[j..]) == [rows[j..][..m]] + Greedy(caps, rows[j..][m..]);
        GreedySuffix(caps, rows[k..], j + m - k);
      }
    }
  }

  lemma SuffixReachesFurther(caps: Caps, rows: seq<Row>, j: nat)
    requires caps.count >= 1 && rows != [] && j < LongestFit(caps, rows)
    ensures j + LongestFit(caps, rows[j..]) >= LongestFit(caps, rows)
  {
    var k := LongestFit(caps, rows);
    FitsInside(caps, rows[..k], j, k);
    assert rows[..k][j..k] == rows[j..][..k - j];
    LongestFitIsMaximal(caps, rows[j..], k - j);
  }

  /** The greedy cut uses as few batches as any legal cut. */
  lemma {:induction false} GreedyIsOptimal(caps: Caps, rows: seq<Row>, batches: seq<Batch>)
    requires caps.count >= 1 && Legal(caps, rows, batches)
    ensures |Greedy(caps, rows)| <= |batches|
    decreases |batches|
  {
    if rows != [] {
      var first := batches[0];
      assert first == rows[..|first|];
      LongestFitIsMaximal(caps, rows, |first|);
      var k := LongestFit(caps, rows);
      var tail := rows[|first|..];
      assert Flatten(batches[1..]) == tail;
      GreedyIsOptimal(caps, tail, batches[1..]);
      assert tail[k - |first|..] == rows[k..];
      GreedySuffix(caps, tail, k - |first|);
    }
  }

  /** A validated batch runtime never sends more row bytes at once than it was configured for. */
  lemma WithinMaxBytes(rt: Runtime, batch: Batch)
    requires rt.Validates() && rt.mode == BatchMode && Fits(CapsOf(rt), batch)
    requires forall row :: row in batch ==> Dispatchable(row)
    ensures Bytes(batch) <= rt.maxBatchBytes
  {
    if |batch| == 1 {
      assert batch[0] in batch && batch[..0] == [];
      assert Bytes(batch) == batch[0].size;
    }
  }

  // ------------------------------------------------------------------
  // The caps in terms of what is configured
  // ------------------------------------------------------------------

  /** A batch that the runtime's own fields allow: single rows in row mode, else so many rows and so many bytes. */
  ghost predicate Obeys(rt: Runtime, batch: Batch) {
    if rt.mode == RowMode then
      |batch| == 1
    else
      && 1 <= |batch| <= (match rt.batchSize case Some(n) => n case None => 100)
      && (|batch| == 1 || (Bytes(batch) <= rt.maxBatchBytes && Bytes(batch) <= rt.batchBytesTarget))
  }

  lemma ObeysIff(rt: Runtime, batch: Batch)
    ensures Fits(CapsOf(rt), batch) <==> Obeys(rt, batch)
  {
  }

  /** Exactly these runtimes pass: a size in bounds, idempotence declared, room for any row that may be dispatched. */
  lemma ValidatesIff(rt: Runtime)
    ensures rt.Validates() <==>
      rt.mode == RowMode
      || (rt.batchSize.Some? && 1 <= rt.batchSize.value <= 10_000 && rt.idempotent != None
          && forall row: Row :: row.size <= 4_194_304 ==> row.size <= rt.maxBatchBytes)
  {
    var largest := Row(0, map[], 4_194_304);
    assert largest.size <= 4_194_304;
  }

  /** The declared idempotence counts; without one a handler is taken to be idempotent. */
  lemma IdempotentIff(rt: Runtime)
    ensures rt.IsIdempotent() <==> rt.idempotent != Some(false)
  {
  }

  /** No batch of the reference cut could have taken in the next row. */
  lemma {:induction false} GreedyIsTight(caps: Caps, rows: seq<Row>, i: nat)
    requires caps.count >= 1 && i + 1 < |Greedy(caps, rows)|
    ensures var batches := Greedy(caps, rows);
      batches[i + 1] != [] && !Fits(caps, batches[i] + [batches[i + 1][0]])
    decreases |rows|
  {
    GreedyStep(caps, rows);
    var k := LongestFit(caps, rows);
    var rest := rows[k..];
    if i > 0 {
      GreedyIsTight(caps, rest, i - 1);
    } else {
      GreedyStep(caps, rest);
      NextAfter(rows, k, LongestFit(caps, rest));
    }
  }

  /** One more row would be too many: for the count, or for one of the byte caps. */
  ghost predicate Full(rt: Runtime, batch: Batch, next: Row) {
    || rt.mode == RowMode
    || |batch| >= (match rt.batchSize case Some(n) => n case None => 100)
    || Bytes(batch) + next.size > rt.maxBatchBytes
    || Bytes(batch) + next.size > rt.batchBytesTarget
  }

  lemma FullIff(rt: Runtime, batch: Batch, next: Row)
    requires Obeys(rt, batch)
    ensures Full(rt, batch, next) <==> !Obeys(rt, batch + [next])
  {
    BytesSnoc(batch, next);
  }

  /** The rows that are not too large to be dispatched. */
  function OfProperSize(rows: seq<Row>): seq<Row> { Filter((row: Row) => row.size <= 4_194_304, rows) }

  lemma {:induction false} ProperIsDispatchable(rows: seq<Row>)
    ensures OfProperSize(rows) == Filter(Dispatchable, rows)
  {
    if rows != [] { ProperIsDispatchable(rows[1..]); }
  }

  /** The rows cut into consecutive batches that the runtime's fields allow. */
  ghost predicate Partition(rt: Runtime, rows: seq<Row>, batches: seq<Batch>) {
    && Flatten(batches) == rows
    && forall i :: 0 <= i < |batches| ==> Obeys(rt, batches[i])
  }

  ghost predicate FullAt(rt: Runtime, batches: seq<Batch>, i: nat)
    requires i < |batches| - 1
  {
    batches[i + 1] != [] && Full(rt, batches[i], batches[i + 1][0])
  }

  /** Each batch but the last is full. */
  ghost predicate Packed(rt: Runtime, batches: seq<Batch>) {
    forall i :: 0 <= i < |batches| - 1 ==> FullAt(rt, batches, i)
  }

  lemma PartitionIff(rt: Runtime, rows: seq<Row>, batches: seq<Batch>)
    ensures Legal(CapsOf(rt), rows, batches) <==> Partition(rt, rows, batches)
  {
    forall i | 0 <= i < |batches| ensures Fits(CapsOf(rt), batches[i]) <==> Obeys(rt, batches[i]) {
      ObeysIff(rt, batches[i]);
    }
    hide Fits, Obeys, CapsOf, Flatten;
  }

  /** In terms of what is configured: the reference cut obeys the caps and fills every batch but the last. */
  lemma GreedyIsPacked(rt: Runtime, rows: seq<Row>)
    requires rt.MaxCount() >= 1
    ensures Partition(rt, rows, Greedy(CapsOf(rt), rows)) && Packed(rt, Greedy(CapsOf(rt), rows))
  {
    var batches := Greedy(CapsOf(rt), rows);
    GreedyIsLegal(CapsOf(rt), rows);
    PartitionIff(rt, rows, batches);
    hide Greedy, Fits, Obeys, Full, Flatten, Legal, Runtime.MaxCount;
    forall i | 0 <= i < |batches| - 1 ensures FullAt(rt, batches, i) {
      GreedyIsTight(CapsOf(rt), rows, i);
      ObeysIff(rt, batches[i] + [batches[i + 1][0]]);
      FullIff(rt, batches[i], batches[i + 1][0]);
    }
  }

  lemma NextAfter(rows: seq<Row>, k: nat, m: nat)
    requires k < |rows| && 1 <= m <= |rows| - k
    ensures rows[k..][..m] != [] && rows[..k + 1] == rows[..k] + [rows[k..][..m][0]]
  {
  }

  // ------------------------------------------------------------------
  // The accumulator's own decisions
  // ------------------------------------------------------------------

  /** Flush before this row: it would push a non-empty batch over the hard or the soft byte cap. */
  predicate Overflows(rt: Runtime, pending: Batch, pendingBytes: nat, row: Row) {
    && pending != []
    && (pendingBytes + row.size > rt.maxBatchBytes || pendingBytes + row.size > rt.batchBytesTarget)
  }

  /** The batches the accumulator still sends when it holds `pending` and `rows` follow, up to end of input. */
  function Stream(rt: Runtime, pending: Batch, rows: seq<Row>): seq<Batch>
    decreases |rows|
  {
    if rows == [] then (if pending == [] then [] else [pending])
    else if Overflows(rt, pending, Bytes(pending), rows[0]) then [pending] + StreamPush(rt, [], rows)
    else StreamPush(rt, pending, rows)
  }

  function StreamPush(rt: Runtime, pending: Batch, rows: seq<Row>): seq<Batch>
    requires rows != []
    decreases |rows|, 0
  {
    var grown := pending + [rows[0]];
    if |grown| >= rt.MaxCount() then [grown] + Stream(rt, [], rows[1..]) else Stream(rt, grown, rows[1..])
  }

  lemma GreedyStep(caps: Caps, rows: seq<Row>)
    requires caps.count >= 1 && rows != []
    ensures var k := LongestFit(caps, rows); Greedy(caps, rows) == [rows[..k]] + Greedy(caps, rows[k..])
  {
    hide LongestFit, Fits;
  }

  /** A cut that fits and cannot be made longer is the greedy one. */
  lemma FirstCut(caps: Caps, rows: seq<Row>, k: nat)
    requires caps.count >= 1 && 1 <= k <= |rows| && Fits(caps, rows[..k])
    requires k < |rows| ==> !Fits(caps, rows[..k + 1])
    ensures LongestFit(caps, rows) == k
  {
    hide *;
    LongestFitIsMaximal(caps, rows, k);
    var m := LongestFit(caps, rows);
    if k < m {
      PrefixFits(caps, rows, k + 1, m);
    }
  }

  lemma GreedyFirst(caps: Caps, rows: seq<Row>, k: nat)
    requires caps.count >= 1 && 1 <= k <= |rows| && Fits(caps, rows[..k])
    requires k < |rows| ==> !Fits(caps, rows[..k + 1])
    ensures Greedy(caps, rows) == [rows[..k]] + Greedy(caps, rows[k..])
  {
    hide *;
    FirstCut(caps, rows, k);
    GreedyStep(caps, rows);
  }

  predicate Growing(caps: Caps, pending: Batch) {
    pending == [] || (Fits(caps, pending) && |pending| < caps.count)
  }

  /** The eager, one-row-at-a-time accumulator cuts exactly where the reference does. */
  lemma {:induction false} StreamIsGreedy(rt: Runtime, pending: Batch, rows: seq<Row>)
    requires rt.MaxCount() >= 1 && Growing(CapsOf(rt), pending)
    ensures Stream(rt, pending, rows) == Greedy(CapsOf(rt), pending + rows)
    decreases |rows|, 1
  {
    var caps := CapsOf(rt);
    if rows == [] {
      assert pending + rows == pending;
      if pending != [] {
        assert pending[..|pending|] == pending;
        GreedyFirst(caps, pending, |pending|);
      }
    } else if Overflows(rt, pending, Bytes(pending), rows[0]) {
      var all := pending + rows;
      assert all[..|pending|] == pending && all[|pending|..] == rows;
      assert all[..|pending| + 1] == pending + [rows[0]];
      BytesSnoc(pending, rows[0]);
      GreedyFirst(caps, all, |pending|);
      assert [] + rows == rows;
      StreamPushIsGreedy(rt, [], rows);
    } else {
      StreamPushIsGreedy(rt, pending, rows);
    }
  }

  lemma {:induction false} StreamPushIsGreedy(rt: Runtime, pending: Batch, rows: seq<Row>)
    requires rt.MaxCount() >= 1 && Growing(CapsOf(rt), pending)
    requires rows != [] && !Overflows(rt, pending, Bytes(pending), rows[0])
    ensures StreamPush(rt, pending, rows) == Greedy(CapsOf(rt), pending + rows)
    decreases |rows|, 0
  {
    var caps := CapsOf(rt);
    var grown := pending + [rows[0]];
    var all := pending + rows;
    assert all == grown + rows[1..];
    BytesSnoc(pending, rows[0]);
    assert Fits(caps, grown);
    if |grown| >= rt.MaxCount() {
      assert all[..|grown|] == grown && all[|grown|..] == rows[1..];
      GreedyFirst(caps, all, |grown|);
      assert [] + rows[1..] == rows[1..];
      StreamIsGreedy(rt, [], rows[1..]);
    } else {
      StreamIsGreedy(rt, grown, rows[1..]);
    }
  }

  lemma BytesSnoc(pending: Batch, row: Row)
    ensures Bytes(pending + [row]) == Bytes(pending) + row.size
  {
    assert (pending + [row])[..|pending|] == pending;
  }

  // ------------------------------------------------------------------
  // The accumulator task on its own: rows in, batches out, to end of input
  // ------------------------------------------------------------------

  function TooLargeLine(row: Row): BatchOutcome {
    FromOutcomes([SynthesizeTooLarge(row.seqNo)])
  }

  function TooLargeLines(rows: seq<Row>): seq<BatchOutcome> {
    Map(TooLargeLine, Filter((row: Row) => !Dispatchable(row), rows))
  }

  lemma TooLargeLinesSnoc(rows: seq<Row>, row: Row)
    ensures TooLargeLines(rows + [row]) == TooLargeLines(rows) + if Dispatchable(row) then [] else [TooLargeLine(row)]
  {
    var oversized := (row: Row) => !Dispatchable(row);
    FilterConcat(oversized, rows, [row]);
    assert [row][1..] == [] && Filter(oversized, []) == [];
    assert Filter(oversized, [row]) == if Dispatchable(row) then [] else [row];
    hide Filter;
    MapConcat(TooLargeLine, Filter(oversized, rows), Filter(oversized, [row]));
  }

  lemma NextRow(rows: seq<Row>, i: nat)
    requires i < |rows|
    ensures var rest := Filter(Dispatchable, rows[i + 1..]);
      Filter(Dispatchable, rows[i..]) == if Dispatchable(rows[i]) then [rows[i]] + rest else rest
  {
    assert rows[i..][1..] == rows[i + 1..];
  }

  lemma LinesUpTo(rows: seq<Row>, i: nat)
    requires i < |rows|
    ensures TooLargeLines(rows[..i + 1])
         == TooLargeLines(rows[..i]) + if Dispatchable(rows[i]) then [] else [TooLargeLine(rows[i])]
  {
    assert rows[..i + 1] == rows[..i] + [rows[i]];
    TooLargeLinesSnoc(rows[..i], rows[i]);
  }

  /** What the accumulator makes of all the rows. */
  lemma CutOf(rt: Runtime, rows: seq<Row>)
    requires rt.MaxCount() >= 1
    ensures var jobs := Stream(rt, [], Filter(Dispatchable, rows));
      && jobs == Greedy(CapsOf(rt), Filter(Dispatchable, rows))
      && Partition(rt, OfProperSize(rows), jobs) && Packed(rt, jobs)
  {
    var proper := Filter(Dispatchable, rows);
    assert Growing(CapsOf(rt), []) && [] + proper == proper;
    hide *;
    StreamIsGreedy(rt, [], proper);
    ProperIsDispatchable(rows);
    GreedyIsPacked(rt, proper);
  }

  class Accumulator {
    const rt: Runtime
    var pending: Batch
    var pendingBytes: nat
    var jobs: seq<Batch>
    var lines: seq<BatchOutcome>

    ghost predicate Valid() reads this {
      && rt.MaxCount() >= 1
      && Growing(CapsOf(rt), pending)
      && pendingBytes == Bytes(pending)
    }

    constructor (rt: Runtime)
      requires rt.Validates()
      ensures Valid() && this.rt == rt && pending == [] && jobs == [] && lines == []
    {
      this.rt := rt;
      pending, pendingBytes, jobs, lines := [], 0, [], [];
    }

    method Flush()
      modifies this
      ensures pending == [] && pendingBytes == 0
      ensures jobs == old(jobs) + [old(pending)] && lines == old(lines)
    {
      jobs := jobs + [pending];
      pending := [];
      pendingBytes := 0;
    }

    /** One turn of the accumulator's loop for a received row. */
    method Receive(row: Row)
      requires Valid()
      modifies this
      ensures Valid()
      ensures lines == old(lines) + (if Dispatchable(row) then [] else [TooLargeLine(row)])
      ensures forall rest ::
        jobs + Stream(rt, pending, rest)
        == old(jobs) + Stream(rt, old(pending), if Dispatchable(row) then [row] + rest else rest)
    {
      if row.size > ROW_HARD_CAP_BYTES {
        lines := lines + [TooLargeLine(row)];
        return;
      }
      ghost var p0, j0 := pending, jobs;
      if pending != [] && pendingBytes + row.size > rt.maxBatchBytes {
        Flush();
      } else if pending != [] && pendingBytes + row.size > rt.batchBytesTarget {
        Flush();
      }
      ghost var p1, j1 := pending, jobs;
      BytesSnoc(pending, row);
      pending := pending + [row];
      pendingBytes := pendingBytes + row.size;
      if |pending| >= rt.MaxCount() {
        Flush();
      }
      forall rest
        ensures jobs + Stream(rt, pending, rest) == j0 + Stream(rt, p0, [row] + rest)
      {
        assert ([row] + rest)[1..] == rest;
        assert jobs + Stream(rt, pending, rest) == j1 + StreamPush(rt, p1, [row] + rest);
      }
    }

    /** The whole accumulator when it is never cancelled: feed every row, then flush the remainder. */
    method Run(rows: seq<Row>)
      requires Valid() && pending == [] && jobs == [] && lines == []
      modifies this
      ensures jobs == Greedy(CapsOf(rt), Filter(Dispatchable, rows))
      ensures Partition(rt, OfProperSize(rows), jobs) && Packed(rt, jobs)
      ensures lines == TooLargeLines(rows)
    {
      var i := 0;
      while i < |rows|
        invariant 0 <= i <= |rows| && Valid()
        invariant lines == TooLargeLines(rows[..i])
        invariant jobs + Stream(rt, pending, Filter(Dispatchable, rows[i..]))
               == Stream(rt, [], Filter(Dispatchable, rows))
      {
        NextRow(rows, i);
        LinesUpTo(rows, i);
        hide *;
        Receive(rows[i]);
        i := i + 1;
      }
      assert rows[..|rows|] == rows;
      if pending != [] {
        Flush();
      }
      CutOf(rt, rows);
      hide *;
    }
  }
}
