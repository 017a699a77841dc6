/**
 Whole histories of `exec run` attempts over one input: which rows a retry
 policy dispatches, and what that means for the number of outcomes a row can
 ever get (crates/rowforge-cli/src/exec_cmd.rs, row_resolution.rs).
 */
module Histories {
  import opened Base
  import opened Protocol
  import opened Batching
  import opened Pipeline
  import opened PipelineSafety
  import opened PipelineAccount
  import opened PipelineReport
  import opened PipelineLines
  import opened Resolution
  import opened ResolutionLaws
  import opened Lines
  import opened JsonlInput

  datatype Policy = Default | RetryFailed | Force

  /** The rows an attempt under the policy must not dispatch. */
  function SkipSet(policy: Policy, m: map<nat, PerSeq>, n: nat): set<nat> {
    match policy
    case Default => AttemptedSeqs(m)
    case RetryFailed => UpTo(n) - FailedSeqs(m)
    case Force => {}
  }

  /** Exactly which rows each policy dispatches, in terms of what the logs hold. */
  lemma DispatchedIff(policy: Policy, n: nat, events: seq<Event>, s: nat)
    ensures s !in SkipSet(policy, ResolutionOf(n, events), n) <==>
      match policy
      case Default => !Touched(events, s)
      case RetryFailed => s >= n || (Touched(events, s) && !Succeeded(events, s))
      case Force => true
  {
    StateIff(n, events, s);
    hide ResolutionOf, Touched, Succeeded;
  }

  /** A row that has succeeded is dispatched again only by force, or by a retry that numbers it beyond the row count. */
  lemma RedispatchIff(policy: Policy, n: nat, events: seq<Event>, s: nat)
    requires Succeeded(events, s)
    ensures s !in SkipSet(policy, ResolutionOf(n, events), n) <==> policy.Force? || (policy.RetryFailed? && s >= n)
  {
    DispatchedIff(policy, n, events, s);
    var e :| e in events && e.outcome.seqNo == s && e.outcome.Success?;
    assert Touched(events, s);
  }

  /** One finished attempt: its policy, its pool run, and where that run got to. */
  datatype Run = Run(id: string, policy: Policy, cfg: Config, final: State)

  function AttemptOf(r: Run): Attempt {
    Attempt(r.id, if Pipeline.Aborted(r.cfg, r.final) then AttemptState.Aborted else Completed, r.final.log)
  }

  function AttemptsOf(runs: seq<Run>): (r: seq<Attempt>)
    ensures |r| == |runs|
    ensures forall i :: 0 <= i < |runs| ==> r[i] == AttemptOf(runs[i])
  {
    seq(|runs|, i requires 0 <= i < |runs| => AttemptOf(runs[i]))
  }

  function Logged(runs: seq<Run>): seq<Event> { History(AttemptsOf(runs)) }

  /**
   Attempts one after the other over the same input: each skips what its policy
   derives from the logs so far, and ends in any state its pool can reach.
   Sampling limits, worker counts, cancels and crashes are arbitrary.
   */
  ghost predicate Sequential(items: seq<Item>, n: nat, runs: seq<Run>) {
    forall i :: 0 <= i < |runs| ==> Next(items, n, runs[..i], runs[i])
  }

  /** The run may follow the earlier ones. */
  ghost predicate Next(items: seq<Item>, n: nat, earlier: seq<Run>, r: Run) {
    && ValidConfig(r.cfg)
    && r.cfg.items == items
    && r.cfg.only.None?
    && r.cfg.skip == SkipSet(r.policy, ResolutionOf(n, Logged(earlier)), n)
    && Reachable(r.cfg, r.final)
  }

  lemma LoggedSnoc(runs: seq<Run>)
    requires runs != []
    ensures var k := |runs| - 1;
      Logged(runs) == Logged(runs[..k]) + EventsOf(runs[k].id, LogOutcomes(runs[k].final.log))
  {
    var k := |runs| - 1;
    assert AttemptsOf(runs)[..k] == AttemptsOf(runs[..k]);
  }

  lemma SequentialPrefix(items: seq<Item>, n: nat, runs: seq<Run>, k: nat)
    requires Sequential(items, n, runs) && k <= |runs|
    ensures Sequential(items, n, runs[..k])
  {
    hide Next;
    forall i | 0 <= i < k ensures runs[..k][..i] == runs[..i] {}
  }

  /** One attempt's own events: no row twice, and only rows its policy lets through. */
  lemma NewEvents(items: seq<Item>, n: nat, runs: seq<Run>)
    requires runs != []
    ensures Sequential(items, n, runs) ==>
      var r := runs[|runs| - 1];
      var block := EventsOf(r.id, LogOutcomes(r.final.log));
      && OncePerRow(block)
      && forall e :: e in block ==>
           && e.outcome.seqNo !in SkipSet(r.policy, ResolutionOf(n, Logged(runs[..|runs| - 1])), n)
           && exists row :: row in Parsed(items) && row.seqNo == e.outcome.seqNo
  {
    if !Sequential(items, n, runs) { return; }
    var r := runs[|runs| - 1];
    var outcomes := LogOutcomes(r.final.log);
    AtMostOnceInLog(r.cfg, r.final);
    OnceFromDistinct(r.id, outcomes);
    forall e | e in EventsOf(r.id, outcomes)
      ensures e.outcome.seqNo !in r.cfg.skip
      ensures exists row :: row in Parsed(items) && row.seqNo == e.outcome.seqNo
    {
      var i :| 0 <= i < |outcomes| && EventsOf(r.id, outcomes)[i] == e;
      assert LogSeqs(r.final.log)[i] == e.outcome.seqNo;
      assert e.outcome.seqNo in LogSeqs(r.final.log);
    }
  }

  /** A success is its row's last outcome: nothing about that row is logged afterwards. */
  ghost predicate SuccessIsFinal(events: seq<Event>) {
    forall i, j :: 0 <= i < j < |events| && events[i].outcome.seqNo == events[j].outcome.seqNo ==>
      !events[i].outcome.Success?
  }

  lemma NotRedispatched(policy: Policy, n: nat, events: seq<Event>, i: nat)
    requires i < |events| && events[i].outcome.Success?
    ensures var s := events[i].outcome.seqNo;
      s !in SkipSet(policy, ResolutionOf(n, events), n) <==> policy.Force? || (policy.RetryFailed? && s >= n)
  {
    assert events[i] in events;
    assert Succeeded(events, events[i].outcome.seqNo);
    hide *;
    RedispatchIff(policy, n, events, events[i].outcome.seqNo);
  }

  lemma JoinSettled(a: seq<Event>, b: seq<Event>)
    requires SuccessIsFinal(a) && OncePerRow(b)
    requires forall i, j :: 0 <= i < |a| && 0 <= j < |b| && a[i].outcome.seqNo == b[j].outcome.seqNo ==>
      !a[i].outcome.Success?
    ensures SuccessIsFinal(a + b)
  {
  }

  /** Every row that can succeed, being of proper size, is numbered below the recorded count. */
  ghost predicate Numbered(items: seq<Item>, n: nat) {
    forall row :: row in Parsed(items) && Dispatchable(row) ==> row.seqNo < n
  }

  lemma {:induction false} SuccessIsNumbered(items: seq<Item>, n: nat, runs: seq<Run>, e: Event)
    requires Sequential(items, n, runs) && Numbered(items, n) && e in Logged(runs) && e.outcome.Success?
    ensures e.outcome.seqNo < n
    decreases |runs|
  {
    assert History([]) == [];
    var k := |runs| - 1;
    var r := runs[k];
    var outcomes := LogOutcomes(r.final.log);
    LoggedSnoc(runs);
    if e in Logged(runs[..k]) {
      SequentialPrefix(items, n, runs, k);
      SuccessIsNumbered(items, n, runs[..k], e);
    } else {
      assert e in EventsOf(r.id, outcomes);
      var i :| 0 <= i < |outcomes| && EventsOf(r.id, outcomes)[i] == e;
      assert Next(items, n, runs[..k], r) && e.outcome in outcomes;
      var row := SuccessIsOfProperSize(r.cfg, r.final, e.outcome);
      SelectFromParsed(r.cfg, items, 0, row);
    }
    hide Sequential, Next, Logged;
  }

  /**
   At most one success per row over whole histories. `--retry-failed` builds its
   skip set from the recorded row count, so it needs the rows that can succeed
   numbered below it.
   */
  lemma {:induction false} AtMostOneSuccess(items: seq<Item>, n: nat, runs: seq<Run>)
    requires Sequential(items, n, runs)
    requires forall i :: 0 <= i < |runs| ==> !runs[i].policy.Force?
    requires (exists i :: 0 <= i < |runs| && runs[i].policy.RetryFailed?) ==> Numbered(items, n)
    ensures SuccessIsFinal(Logged(runs))
    decreases |runs|
  {
    if runs != [] {
      var k := |runs| - 1;
      var r, earlier := runs[k], Logged(runs[..k]);
      SequentialPrefix(items, n, runs, k);
      AtMostOneSuccess(items, n, runs[..k]);
      LoggedSnoc(runs);
      NewEvents(items, n, runs);
      var block := EventsOf(r.id, LogOutcomes(r.final.log));
      assert r.policy.RetryFailed? ==> Numbered(items, n);
      hide *;
      forall i, j | 0 <= i < |earlier| && 0 <= j < |block| && earlier[i].outcome.seqNo == block[j].outcome.seqNo
        ensures !earlier[i].outcome.Success?
      {
        assert block[j] in block;
        if earlier[i].outcome.Success? {
          NotRedispatched(r.policy, n, earlier, i);
          if r.policy.RetryFailed? { SuccessIsNumbered(items, n, runs[..k], earlier[i]); }
        }
      }
      JoinSettled(earlier, block);
    }
  }

  // ------------------------------------------------------------------
  // Rows numbered at or beyond the recorded count
  // ------------------------------------------------------------------

  function Plain(items: seq<Item>, skip: set<nat>): Config { Config(items, skip, None, None, SIMPLE, 1, false) }

  lemma ParsedItem(items: seq<Item>, row: Row)
    requires row in Parsed(items)
    ensures Source(row) in items
  {
    if items[0] != Source(row) { ParsedItem(items[1..], row); }
  }

  lemma LineInLog(log: seq<BatchOutcome>, line: BatchOutcome, o: RowOutcome)
    requires line in log && o in line.outcomes
    ensures o in LogOutcomes(log)
  {
    var i :| 0 <= i < |log| && log[i] == line;
    LogSplit(log, i);
  }

  /** Another finished attempt under a policy that still dispatches the row, which succeeds in it. */
  lemma SucceedUnder(items: seq<Item>, n: nat, runs: seq<Run>, id: string, policy: Policy, row: Row) returns (next: Run)
    requires Increasing(Parsed(items)) && Sequential(items, n, runs)
    requires row in Parsed(items) && Dispatchable(row)
    requires row.seqNo !in SkipSet(policy, ResolutionOf(n, Logged(runs)), n)
    ensures next.policy == policy && next.final.joined && Sequential(items, n, runs + [next])
    ensures Success(row.seqNo, map[], 0) in LogOutcomes(next.final.log)
  {
    var cfg := Plain(items, SkipSet(policy, ResolutionOf(n, Logged(runs)), n));
    var final := PerfectRun(cfg);
    ParsedItem(items, row);
    assert SuccessLine(row) in final.log;
    assert SuccessLine(row).outcomes[0] == Success(row.seqNo, map[], 0);
    LineInLog(final.log, SuccessLine(row), Success(row.seqNo, map[], 0));
    next := Run(id, policy, cfg, final);
    hide Reachable, ResolutionOf, SkipSet, Logged, Parsed, LogOutcomes;
    Extend(items, n, runs, next);
  }

  lemma Extend(items: seq<Item>, n: nat, runs: seq<Run>, next: Run)
    requires Sequential(items, n, runs) && Next(items, n, runs, next)
    ensures Sequential(items, n, runs + [next])
  {
    hide Next;
    var more := runs + [next];
    forall i | 0 <= i < |more| ensures Next(items, n, more[..i], more[i]) {
      assert more[..i] == if i < |runs| then runs[..i] else runs;
    }
  }

  lemma TwoSuccesses(a: seq<Event>, b: seq<Event>, x: Event, y: Event)
    requires x in a && y in b && x.outcome.seqNo == y.outcome.seqNo && x.outcome.Success?
    ensures !SuccessIsFinal(a + b)
  {
    var i :| 0 <= i < |a| && a[i] == x;
    var j :| 0 <= j < |b| && b[j] == y;
    assert (a + b)[i] == x && (a + b)[|a| + j] == y;
  }

  lemma EventIn(r: Run, o: RowOutcome)
    requires o in LogOutcomes(r.final.log)
    ensures Event(r.id, o) in EventsOf(r.id, LogOutcomes(r.final.log))
  {
    var outcomes := LogOutcomes(r.final.log);
    var i :| 0 <= i < |outcomes| && outcomes[i] == o;
    assert EventsOf(r.id, outcomes)[i] == Event(r.id, o);
  }

  /** A default attempt and then a retry, both finished: a row at or beyond the count succeeds twice. */
  lemma RetryRepeatsSuccess(items: seq<Item>, n: nat, row: Row) returns (runs: seq<Run>)
    requires Increasing(Parsed(items)) && row in Parsed(items) && Dispatchable(row) && row.seqNo >= n
    ensures Sequential(items, n, runs) && |runs| == 2 && runs[0].policy == Default && runs[1].policy == RetryFailed
    ensures !SuccessIsFinal(Logged(runs))
  {
    assert Sequential(items, n, []);
    assert Logged([]) == [];
    DispatchedIff(Default, n, [], row.seqNo);
    var first := SucceedUnder(items, n, [], "first", Default, row);
    var one := [first];
    assert [] + [first] == one;
    var o := Success(row.seqNo, map[], 0);
    LoggedSnoc(one);
    assert one[..0] == [];
    var a := EventsOf(first.id, LogOutcomes(first.final.log));
    assert Logged(one) == [] + a == a;
    EventIn(first, o);
    assert Succeeded(a, row.seqNo) by { assert Event(first.id, o) in a; }
    hide Sequential, Reachable, ResolutionOf, SkipSet, EventsOf, LogOutcomes, Logged, Succeeded;
    RedispatchIff(RetryFailed, n, a, row.seqNo);
    var second := SucceedUnder(items, n, one, "second", RetryFailed, row);
    runs := one + [second];
    LoggedSnoc(runs);
    assert runs[..1] == one;
    EventIn(second, o);
    TwoSuccesses(a, EventsOf(second.id, LogOutcomes(second.final.log)), Event(first.id, o), Event(second.id, o));
  }

  ghost predicate Forceless(runs: seq<Run>) { forall i :: 0 <= i < |runs| ==> !runs[i].policy.Force? }

  /** Whether retrying can ever repeat a success depends on the numbering of the input's rows alone. */
  lemma RetrySafeIff(items: seq<Item>, n: nat)
    requires Increasing(Parsed(items))
    ensures (forall runs :: Sequential(items, n, runs) && Forceless(runs) ==> SuccessIsFinal(Logged(runs)))
       <==> Numbered(items, n)
  {
    hide Sequential, Logged, Parsed, Increasing, SuccessIsFinal, Dispatchable;
    if Numbered(items, n) {
      forall runs | Sequential(items, n, runs) && Forceless(runs) ensures SuccessIsFinal(Logged(runs)) {
        AtMostOneSuccess(items, n, runs);
      }
    } else {
      var row :| row in Parsed(items) && Dispatchable(row) && row.seqNo >= n;
      var runs := RetryRepeatsSuccess(items, n, row);
    }
  }

  // ------------------------------------------------------------------
  // Default attempts only
  // ------------------------------------------------------------------

  /** A row the default policy dispatches has no earlier outcome. */
  lemma NeverTouched(n: nat, events: seq<Event>, i: nat, s: nat)
    requires i < |events| && s !in SkipSet(Default, ResolutionOf(n, events), n)
    ensures events[i].outcome.seqNo != s
  {
    DispatchedIff(Default, n, events, s);
    assert events[i] in events;
    hide SkipSet, ResolutionOf;
  }

  lemma JoinBlocks(a: seq<Event>, b: seq<Event>)
    requires OncePerRow(a) && OncePerRow(b)
    requires forall i, j :: 0 <= i < |a| && 0 <= j < |b| ==> a[i].outcome.seqNo != b[j].outcome.seqNo
    ensures OncePerRow(a + b)
  {
  }

  /** Default attempts only: every row gets at most one outcome of any kind. */
  lemma {:induction false} AtMostOneOutcome(items: seq<Item>, n: nat, runs: seq<Run>)
    requires Sequential(items, n, runs)
    requires forall i :: 0 <= i < |runs| ==> runs[i].policy.Default?
    ensures OncePerRow(Logged(runs))
    decreases |runs|
  {
    if runs != [] {
      var k := |runs| - 1;
      var r, earlier := runs[k], Logged(runs[..k]);
      SequentialPrefix(items, n, runs, k);
      AtMostOneOutcome(items, n, runs[..k]);
      LoggedSnoc(runs);
      NewEvents(items, n, runs);
      var block := EventsOf(r.id, LogOutcomes(r.final.log));
      hide *;
      forall i, j | 0 <= i < |earlier| && 0 <= j < |block| ensures earlier[i].outcome.seqNo != block[j].outcome.seqNo {
        assert earlier[i] in earlier && block[j] in block;
        NeverTouched(n, earlier, i, block[j].outcome.seqNo);
      }
      JoinBlocks(earlier, block);
    }
  }

  /** For a JSONL input nothing about the numbering has to be assumed. */
  lemma AtMostOneSuccessForJsonl(r: Reading, content: string, runs: seq<Run>)
    requires Items(r, Split(content)).Some?
    requires Sequential(Items(r, Split(content)).value, |Split(content)|, runs)
    requires forall i :: 0 <= i < |runs| ==> !runs[i].policy.Force?
    ensures SuccessIsFinal(Logged(runs))
  {
    NumbersBelowCount(r, Split(content));
    AtMostOneSuccess(Items(r, Split(content)).value, |Split(content)|, runs);
  }
}
