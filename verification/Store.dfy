/**
 One execution's attempts in the store: created running, finished once, never
 touched again short of deleting the execution as a whole
 (crates/rowforge-core/src/execution_store.rs).
 */
module Store {
  import opened Protocol
  import opened Resolution
  import opened ResolutionLaws

  datatype ExecutionState = Open | Iterating | Settled | Closed | Abandoned

  /** `known`: the execution is there; `handlers`: the registered handler instances. */
  datatype Db = Db(known: bool, state: ExecutionState, handlers: set<string>, attempts: seq<Attempt>)

  datatype Op =
    | Register(handler: string)
    | Create(id: string, handler: string)
    | Record(id: string, line: BatchOutcome)
    | Finish(id: string, aborted: bool)
    | SetState(state: ExecutionState)
    | Delete

  predicate Accepts(st: ExecutionState) { st.Open? || st.Iterating? || st.Settled? }

  predicate IsRunning(attempts: seq<Attempt>, id: string) {
    exists i :: 0 <= i < |attempts| && attempts[i].id == id && attempts[i].state == Running
  }

  /** `UPDATE … WHERE id = ? AND state = 'running'`. */
  function Update(attempts: seq<Attempt>, id: string, f: Attempt -> Attempt): (r: seq<Attempt>)
    ensures |r| == |attempts|
    ensures forall i :: 0 <= i < |r| ==>
      r[i] == if attempts[i].id == id && attempts[i].state == Running then f(attempts[i]) else attempts[i]
  {
    seq(|attempts|, i requires 0 <= i < |attempts| =>
      if attempts[i].id == id && attempts[i].state == Running then f(attempts[i]) else attempts[i])
  }

  function Ended(aborted: bool): Attempt -> Attempt {
    (at: Attempt) => at.(state := if aborted then Aborted else Completed)
  }

  function Logged(line: BatchOutcome): Attempt -> Attempt {
    (at: Attempt) => at.(log := at.log + [line])
  }

  /** What an operation leaves behind; a refused one leaves everything as it was. */
  function ApplyOp(db: Db, op: Op): Db {
    match op
    case Register(handler) => db.(handlers := db.handlers + {handler})
    case Create(id, handler) =>
      if db.known && Accepts(db.state) && handler in db.handlers then
        db.(attempts := db.attempts + [Attempt(id, Running, [])])
      else db
    case Record(id, line) => db.(attempts := Update(db.attempts, id, Logged(line)))
    case Finish(id, aborted) =>
      if IsRunning(db.attempts, id) then
        db.(state := if db.state.Open? then Iterating else db.state,
            attempts := Update(db.attempts, id, Ended(aborted)))
      else db
    case SetState(st) => if db.known then db.(state := st) else db
    case Delete => db.(known := false, attempts := [])
  }

  function ApplyAll(db: Db, ops: seq<Op>): Db {
    if ops == [] then db else ApplyOp(ApplyAll(db, ops[..|ops| - 1]), ops[|ops| - 1])
  }

  lemma {:induction false} DeletedIsGone(db: Db, ops: seq<Op>)
    requires Delete in ops || (!db.known && db.attempts == [])
    ensures !ApplyAll(db, ops).known && ApplyAll(db, ops).attempts == []
  {
    if ops != [] {
      var front, last := ops[..|ops| - 1], ops[|ops| - 1];
      assert ops == front + [last];
      if Delete in front || (!db.known && db.attempts == []) { DeletedIsGone(db, front); }
    }
  }

  lemma {:induction false} KeptUndeleted(db: Db, ops: seq<Op>)
    requires Delete !in ops
    ensures Follows(db.attempts, ApplyAll(db, ops).attempts)
  {
    if ops != [] {
      assert ops == ops[..|ops| - 1] + [ops[|ops| - 1]];
      KeptUndeleted(db, ops[..|ops| - 1]);
    }
  }

  /** Finished attempts stay exactly as they are, whatever happens, unless the execution they belong to is deleted. */
  lemma FinishedIsFinal(db: Db, ops: seq<Op>)
    ensures Follows(db.attempts, ApplyAll(db, ops).attempts) <==> Delete !in ops || db.attempts == []
  {
    if Delete in ops { DeletedIsGone(db, ops); } else { KeptUndeleted(db, ops); }
  }

  /** Over any operations but a deletion a row that is resolved stays resolved, an attempted one attempted. */
  lemma StoreOnlyGrows(n: nat, db: Db, ops: seq<Op>, s: nat)
    ensures s in ResolvedSeqs(ResolutionOf(n, History(db.attempts)))
      ==> Delete in ops || s in ResolvedSeqs(ResolutionOf(n, History(ApplyAll(db, ops).attempts)))
    ensures s in AttemptedSeqs(ResolutionOf(n, History(db.attempts)))
      ==> Delete in ops || s in AttemptedSeqs(ResolutionOf(n, History(ApplyAll(db, ops).attempts)))
  {
    hide *;
    FinishedIsFinal(db, ops);
    if Delete !in ops { ResolutionOnlyGrows(n, db.attempts, ApplyAll(db, ops).attempts); }
  }

  /** A deletion forgets every row. */
  lemma DeletionForgets(n: nat, db: Db, ops: seq<Op>)
    requires Delete in ops
    ensures AttemptedSeqs(ResolutionOf(n, History(ApplyAll(db, ops).attempts))) == {}
  {
    DeletedIsGone(db, ops);
    assert History([]) == [];
    NothingLogged(n);
    hide ResolutionOf;
  }

  /** Finishing an attempt: it is aborted or completed as told, with its log kept, and nobody else's changes. */
  lemma FinishSays(db: Db, id: string, aborted: bool)
    requires IsRunning(db.attempts, id)
    ensures var t := ApplyOp(db, Finish(id, aborted));
      && !IsRunning(t.attempts, id) && |t.attempts| == |db.attempts|
      && t.known == db.known && t.handlers == db.handlers && (t.state.Iterating? || t.state == db.state)
      && (db.state.Open? ==> t.state.Iterating?) && (t.state.Iterating? ==> db.state.Open? || db.state.Iterating?)
      && forall i :: 0 <= i < |db.attempts| ==>
           && t.attempts[i].id == db.attempts[i].id && t.attempts[i].log == db.attempts[i].log
           && (db.attempts[i].id == id && db.attempts[i].state == Running ==>
                if aborted then t.attempts[i].state.Aborted? else t.attempts[i].state.Completed?)
           && (db.attempts[i].id != id || db.attempts[i].state != Running ==> t.attempts[i] == db.attempts[i])
  {
  }

  function Records(id: string, lines: seq<BatchOutcome>): (r: seq<Op>)
    ensures |r| == |lines|
    ensures forall i :: 0 <= i < |r| ==> r[i] == Record(id, lines[i])
  {
    seq(|lines|, i requires 0 <= i < |lines| => Record(id, lines[i]))
  }

  ghost predicate Unused(db: Db, id: string) { forall at :: at in db.attempts ==> at.id != id }

  lemma {:induction false} RecordedSoFar(db: Db, id: string, handler: string, lines: seq<BatchOutcome>)
    requires db.known && Accepts(db.state) && handler in db.handlers && Unused(db, id)
    ensures ApplyAll(db, [Create(id, handler)] + Records(id, lines))
         == db.(attempts := db.attempts + [Attempt(id, Running, lines)])
  {
    var ops := [Create(id, handler)] + Records(id, lines);
    if lines == [] {
      assert ops == [Create(id, handler)] && ops[..0] == [];
    } else {
      var front, last := lines[..|lines| - 1], lines[|lines| - 1];
      assert ops[..|ops| - 1] == [Create(id, handler)] + Records(id, front);
      RecordedSoFar(db, id, handler, front);
      var before := db.attempts + [Attempt(id, Running, front)];
      assert Update(before, id, Logged(last)) == db.attempts + [Attempt(id, Running, lines)] by {
        assert front + [last] == lines;
      }
    }
  }

  /** The life of an attempt: created, given its lines, finished, it stands in the store with exactly these lines. */
  lemma AttemptRoundTrip(db: Db, id: string, handler: string, lines: seq<BatchOutcome>, aborted: bool)
    requires db.known && (db.state.Open? || db.state.Iterating? || db.state.Settled?)
    requires handler in db.handlers && Unused(db, id)
    ensures var t := ApplyAll(db, [Create(id, handler)] + Records(id, lines) + [Finish(id, aborted)]);
      && t.attempts == db.attempts + [Attempt(id, if aborted then AttemptState.Aborted else Completed, lines)]
      && t.state == (if db.state.Open? then Iterating else db.state)
  {
    RecordedSoFar(db, id, handler, lines);
    var ops := [Create(id, handler)] + Records(id, lines);
    assert (ops + [Finish(id, aborted)])[..|ops|] == ops;
    var before := db.attempts + [Attempt(id, Running, lines)];
    assert before[|db.attempts|].id == id && before[|db.attempts|].state == Running;
    assert Update(before, id, Ended(aborted))
        == db.attempts + [Attempt(id, if aborted then AttemptState.Aborted else Completed, lines)];
  }

  lemma {:induction false} ApplyConcat(db: Db, a: seq<Op>, b: seq<Op>)
    ensures ApplyAll(db, a + b) == ApplyAll(ApplyAll(db, a), b)
  {
    if b == [] {
      assert a + b == a;
    } else {
      assert (a + b)[..|a + b| - 1] == a + b[..|b| - 1];
      ApplyConcat(db, a, b[..|b| - 1]);
    }
  }

  /** From a new execution: a handler registered, one attempt run and finished. */
  lemma FirstAttempt(id: string, handler: string, lines: seq<BatchOutcome>, aborted: bool)
    ensures ApplyAll(Db(true, Open, {}, []),
                     [Register(handler)] + ([Create(id, handler)] + Records(id, lines) + [Finish(id, aborted)]))
         == Db(true, Iterating, {handler}, [Attempt(id, if aborted then AttemptState.Aborted else Completed, lines)])
  {
    var empty, known := Db(true, Open, {}, []), Db(true, Open, {handler}, []);
    var ops := [Create(id, handler)] + Records(id, lines) + [Finish(id, aborted)];
    assert {} + {handler} == {handler};
    assert [Register(handler)][..0] == [] && ApplyAll(empty, [Register(handler)]) == known;
    ApplyConcat(empty, [Register(handler)], ops);
    AttemptRoundTrip(known, id, handler, lines, aborted);
    Untouched(known, id, handler, lines, aborted);
    hide ApplyAll;
  }

  lemma Untouched(db: Db, id: string, handler: string, lines: seq<BatchOutcome>, aborted: bool)
    requires db.known && Accepts(db.state) && handler in db.handlers && Unused(db, id)
    ensures var t := ApplyAll(db, [Create(id, handler)] + Records(id, lines) + [Finish(id, aborted)]);
      t.known == db.known && t.handlers == db.handlers
  {
    RecordedSoFar(db, id, handler, lines);
    var ops := [Create(id, handler)] + Records(id, lines);
    assert (ops + [Finish(id, aborted)])[..|ops|] == ops;
  }

  /** A state set by hand decides at once whether a further attempt is let in. */
  lemma SetStateDecides(db: Db, st: ExecutionState, id: string, handler: string)
    requires db.known && handler in db.handlers
    ensures var t := ApplyAll(db, [SetState(st), Create(id, handler)]);
      && t.state == st
      && t.attempts == db.attempts + if st.Closed? || st.Abandoned? then [] else [Attempt(id, Running, [])]
  {
    var ops := [SetState(st), Create(id, handler)];
    assert ops[..|ops| - 1] == [SetState(st)] && [SetState(st)][..0] == [];
    assert ApplyAll(db, [SetState(st)]) == db.(state := st);
    assert db.attempts + [] == db.attempts;
  }

  class ExecutionStore {
    var known: bool
    var state: ExecutionState
    var handlers: set<string>
    var attempts: seq<Attempt>

    ghost function Model(): Db reads this { Db(known, state, handlers, attempts) }

    constructor ()
      ensures Model() == Db(true, Open, {}, [])
    {
      known, state, handlers, attempts := true, Open, {}, [];
    }

    /** Refused without the execution, once it is closed or abandoned, or for an unknown handler instance. */
    method CreateAttempt(id: string, handler: string) returns (ok: bool)
      modifies this
      ensures Model() == ApplyOp(old(Model()), Create(id, handler))
      ensures ok <==> attempts != old(attempts)
      ensures ok <==> old(known) && !old(state).Closed? && !old(state).Abandoned? && handler in old(handlers)
    {
      if !known { return false; }
      match state {
        case Closed => return false;
        case Abandoned => return false;
        case _ =>
      }
      if handler !in handlers { return false; }
      attempts := attempts + [Attempt(id, Running, [])];
      return true;
    }

    /** `delete_execution`: the attempts go with it. */
    method DeleteExecution() returns (ok: bool)
      modifies this
      ensures Model() == ApplyOp(old(Model()), Delete)
      ensures ok <==> old(known)
    {
      attempts := [];
      ok := known;
      known := false;
    }

    /** Only a running attempt can be finished; the first one to end moves an open execution on. */
    method FinishAttempt(id: string, aborted: bool) returns (ok: bool)
      modifies this
      ensures Model() == ApplyOp(old(Model()), Finish(id, aborted))
      ensures ok <==> IsRunning(old(attempts), id)
      ensures !IsRunning(attempts, id)
    {
      var updated := 0;
      ghost var was := attempts;
      for i := 0 to |attempts|
        invariant |attempts| == |was| && state == old(state) && known == old(known) && handlers == old(handlers)
        invariant updated > 0 <==> IsRunning(was[..i], id)
        invariant forall k :: 0 <= k < |was| ==>
          attempts[k] == if k < i then Update(was, id, Ended(aborted))[k] else was[k]
      {
        var at := attempts[i];
        assert was[..i + 1] == was[..i] + [at];
        RunningSnoc(was[..i], at, id);
        if at.id == id && at.state == Running {
          attempts := attempts[i := at.(state := if aborted then Aborted else Completed)];
          updated := updated + 1;
        }
      }
      assert was[..|was|] == was;
      assert attempts == Update(was, id, Ended(aborted));
      if updated == 0 {
        assert attempts == was;
        return false;
      }
      if state.Open? { state := Iterating; }
      return true;
    }
  }

  lemma RunningSnoc(attempts: seq<Attempt>, at: Attempt, id: string)
    ensures IsRunning(attempts + [at], id) <==> IsRunning(attempts, id) || (at.id == id && at.state == Running)
  {
    if IsRunning(attempts, id) {
      var i :| 0 <= i < |attempts| && attempts[i].id == id && attempts[i].state == Running;
      assert (attempts + [at])[i] == attempts[i];
    }
    if at.id == id && at.state == Running { assert (attempts + [at])[|attempts|] == at; }
  }
}
