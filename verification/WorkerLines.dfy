/** The lines a worker appends to the log for the batch it holds (crates/rowforge-core/src/worker_loop.rs). */
module WorkerLines {
  import opened Base
  import opened Protocol
  import opened Batching

  /** The rows a worker answers for; row mode looks at the batch's first row only. */
  function Covered(rt: Runtime, batch: Batch): seq<nat>
    requires batch != []
  {
    if rt.mode == RowMode then Seqs(batch)[..1] else Seqs(batch)
  }

  /** A well-formed line: it names the rows of its outcomes, at least one, and the first of them again. */
  ghost predicate Sound(line: BatchOutcome) {
    line.outcomes != [] && line.seqs == OutcomeSeqs(line.outcomes) && line.firstSeq == line.seqs[0]
  }

  /** Outcomes synthesised when the worker dies or is cut off. */
  function CrashLine(rt: Runtime, batch: Batch): (line: BatchOutcome)
    requires batch != []
    ensures Sound(line) && line.seqs == Covered(rt, batch)
    ensures forall o :: o in line.outcomes ==> o.Error?
  {
    FromOutcomes(CrashAll(Covered(rt, batch), rt.IsIdempotent()))
  }

  function ReplyLine(rt: Runtime, batch: Batch, reply: Reply): (line: BatchOutcome)
    requires batch != []
    ensures Sound(line) && line.seqs == Covered(rt, batch)
  {
    var outcomes := ReplyOutcomes(rt.mode, Seqs(batch), rt.IsIdempotent(), reply);
    assert |OutcomeSeqs(outcomes)| > 0;
    FromOutcomes(outcomes)
  }

  /** A row reported as crashed, under the code that says whether the declared handler may be given it again. */
  ghost predicate Crashed(rt: Runtime, o: RowOutcome) {
    && o.Error? && o.durMs == 0 && o.detail == None
    && o.code == if rt.idempotent == Some(false) then "WORKER_CRASH_UNSAFE" else "WORKER_CRASH"
  }

  lemma CrashIsCrashed(rt: Runtime, s: nat)
    ensures Crashed(rt, SynthesizeCrash(s, rt.IsIdempotent()))
  {
    IdempotentIff(rt);
  }

  /** Whatever takes a worker away, each row it held is reported as crashed under the declared code. */
  lemma LostRowsAreCrashed(rt: Runtime, batch: Batch, reply: Reply)
    requires batch != [] && !reply.Message?
    ensures forall o ::
      o in CrashLine(rt, batch).outcomes || o in ReplyLine(rt, batch, reply).outcomes ==> Crashed(rt, o)
  {
    LostIsCrash(rt, batch, reply);
    var outcomes := CrashAll(Covered(rt, batch), rt.IsIdempotent());
    assert CrashLine(rt, batch).outcomes == outcomes;
    hide CrashLine, ReplyLine, Crashed;
    forall o | o in outcomes ensures Crashed(rt, o) {
      var i :| 0 <= i < |outcomes| && outcomes[i] == o;
      CrashIsCrashed(rt, Covered(rt, batch)[i]);
    }
  }

  /** Without a message there is nothing to tell a row's outcome from: the whole batch counts as crashed. */
  lemma LostIsCrash(rt: Runtime, batch: Batch, reply: Reply)
    requires batch != [] && !reply.Message?
    ensures ReplyLine(rt, batch, reply) == CrashLine(rt, batch)
  {
    assert ReplyOutcomes(rt.mode, Seqs(batch), rt.IsIdempotent(), reply)
        == CrashAll(Covered(rt, batch), rt.IsIdempotent());
  }
}
