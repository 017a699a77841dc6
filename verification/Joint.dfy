/**
 The whole of an attempt: the pool's W workers, each joined to its own handler
 process by a lockstep session. What the log says about a row is what the
 handler that was given the row said.
 */
module Joint {
  import opened Base
  import opened Protocol
  import opened Batching
  import opened WorkerLines
  import opened PipelineSafety
  import opened PipelineAccount
  import opened Handler
  import opened Worker
  import P = Pipeline
  import L = Lockstep
  import PipelineReport
  import PipelineComplete
  import PipelineLines
  import PipelineOrigins

  /** `sessions[w]` is what passes between worker w and its handler. */
  datatype Attempt = Attempt(pool: P.State, sessions: seq<L.Session>)

  datatype Step =
    | Internal(a: P.Action)                  // a step of the pool that touches no pipe
    | Send(w: nat)
    | SendFails(w: nat, delivered: bool)
    | Read(w: nat)
    | ReadEof(w: nat)
    | ReadFails(w: nat)
    | CutOff(w: nat)
    | Peer(w: nat, step: L.Step)             // a step of the handler

  predicate TouchesAPipe(a: P.Action) { a.Write? || a.Answer? || a.CutRecv? }

  /** What reading the next line makes `recv` return, or nothing for noise. */
  function ReplyOf(line: Line): Option<Reply> {
    match line
    case Blank => None
    case Noise => None
    case Garbage => Some(ReadError)
    case Protocol(msg) => Some(Message(msg))
  }

  /** The pool's side of a step, if it has one. */
  function PoolAction(j: Attempt, st: Step): Option<P.Action> {
    match st
    case Internal(a) => Some(a)
    case Send(w) => Some(P.Write(w, true))
    case SendFails(w, _) => Some(P.Write(w, false))
    case Read(w) =>
      if w < |j.sessions| && j.sessions[w].stdout != [] then
        (match ReplyOf(j.sessions[w].stdout[0]) case Some(reply) => Some(P.Answer(w, reply)) case None => None)
      else None
    case ReadEof(w) => Some(P.Answer(w, Eof))
    case ReadFails(w) => Some(P.Answer(w, ReadError))
    case CutOff(w) => Some(P.CutRecv(w))
    case Peer(_, _) => None
  }

  function BatchOf(j: Attempt, w: nat): Batch {
    if w < |j.pool.workers| then InHand(j.pool.workers[w]) else []
  }

  /** The session's side of a step on worker w's pipes. */
  function SessionStep(j: Attempt, st: Step): L.Step
    requires !st.Internal?
  {
    match st
    case Send(w) => L.Send(BatchOf(j, w))
    case SendFails(w, delivered) => L.SendFails(BatchOf(j, w), delivered)
    case Read(_) => L.ReadLine
    case ReadEof(_) => L.ReadEof
    case ReadFails(_) => L.ReadFails
    case CutOff(_) => L.CutOff
    case Peer(_, step) => step
  }

  predicate OfTheHandler(a: L.Step) { a.Take? || a.Answer? || a.Say? || a.Exit? }

  predicate Enabled(cfg: P.Config, setup: L.Setup, j: Attempt, st: Step) {
    && (PoolAction(j, st).Some? ==> P.Enabled(cfg, j.pool, PoolAction(j, st).value))
    && (st.Internal? ==> !TouchesAPipe(st.a))
    && (st.Peer? ==> OfTheHandler(st.step))
    && (!st.Internal? ==>
          && st.w < |j.sessions| && L.Sane(j.sessions[st.w])
          && L.Enabled(setup, j.sessions[st.w], SessionStep(j, st)))
  }

  function Apply(cfg: P.Config, setup: L.Setup, j: Attempt, st: Step): Attempt
    requires Enabled(cfg, setup, j, st)
  {
    var a := PoolAction(j, st);
    Attempt(
      if a.Some? then P.Apply(cfg, j.pool, a.value) else j.pool,
      if st.Internal? then j.sessions
      else j.sessions[st.w := L.Apply(setup, j.sessions[st.w], SessionStep(j, st))])
  }

  function Start(cfg: P.Config): Attempt { Attempt(P.Init(cfg), seq(cfg.WorkerCount(), _ => L.START)) }

  function Exec(cfg: P.Config, setup: L.Setup, j: Attempt, schedule: seq<Step>): Option<Attempt>
    decreases |schedule|
  {
    if schedule == [] then Some(j)
    else if Enabled(cfg, setup, j, schedule[0]) then Exec(cfg, setup, Apply(cfg, setup, j, schedule[0]), schedule[1..])
    else None
  }

  // ------------------------------------------------------------------
  // How a worker and its session fit together
  // ------------------------------------------------------------------

  ghost predicate Paired(p: P.WorkerPhase, x: L.Session) {
    match p
    case Idle => x.host == L.Idle
    case Sending(_) => x.host == L.Idle
    case Waiting(batch) => x.host == L.Waiting(batch)
    case Recording(_, line, end) =>
      x.host == (if end.None? then L.Idle else L.Stopped) && x.log != [] && x.log[|x.log| - 1] == line
    case Stopped(_) => true
  }

  /** The line was derived in some worker's session, or reports a rejected row. */
  ghost predicate Known(sessions: seq<L.Session>, rejected: seq<Row>, line: BatchOutcome) {
    || (exists w :: 0 <= w < |sessions| && line in sessions[w].log)
    || exists row :: row in rejected && line == TooLargeLine(row)
  }

  ghost predicate Inv(cfg: P.Config, setup: L.Setup, j: Attempt) {
    && P.Reachable(cfg, j.pool)
    && |j.sessions| == |j.pool.workers|
    && (forall w :: 0 <= w < |j.sessions| ==>
         && L.Reachable(setup, j.sessions[w])
         && Paired(j.pool.workers[w], j.sessions[w])
         && forall b :: b in j.sessions[w].sent ==> b in j.pool.sent)
    && forall line :: line in j.pool.log ==> Known(j.sessions, j.pool.rejected, line)
  }

  lemma StartInv(cfg: P.Config, setup: L.Setup)
    ensures Inv(cfg, setup, Start(cfg))
  {
    assert P.Exec(cfg, P.Init(cfg), []) == Some(P.Init(cfg));
    assert L.Exec(setup, L.START, []) == Some(L.START);
    assert L.Reachable(setup, L.START);
    hide L.Reachable, L.Exec, P.Exec, P.Reachable;
  }

  // ------------------------------------------------------------------
  // Steps of the pool alone
  // ------------------------------------------------------------------

  lemma PullPairs(cfg: P.Config, s: P.State, w: nat, x: L.Session)
    requires P.Enabled(cfg, s, P.Pull(w)) && Paired(s.workers[w], x) && s.workers[w].Idle?
    ensures Paired(P.DoPull(s, w).workers[w], x)
  {
  }

  lemma AppendPairs(s: P.State, w: nat, ok: bool, x: L.Session)
    requires w < |s.workers| && s.workers[w].Recording? && Paired(s.workers[w], x)
    ensures Paired(P.DoAppend(s, w, ok).workers[w], x)
  {
  }

  lemma InternalKeepsWorkers(cfg: P.Config, setup: L.Setup, j: Attempt, a: P.Action, w: nat)
    requires ValidConfig(cfg) && Inv(cfg, setup, j) && P.Enabled(cfg, j.pool, a) && !TouchesAPipe(a) && w < |j.sessions|
    ensures w < |P.Apply(cfg, j.pool, a).workers| == |j.sessions|
    ensures Paired(P.Apply(cfg, j.pool, a).workers[w], j.sessions[w])
  {
    Conservation(cfg, j.pool);
    if PipelineComplete.OfAWorker(a) {
      PipelineComplete.WorkerFrame(cfg, j.pool, a);
      if a.w == w {
        if a.Pull? { PullPairs(cfg, j.pool, w, j.sessions[w]); } else { AppendPairs(j.pool, w, a.ok, j.sessions[w]); }
      } else {
        hide P.Apply;
      }
    } else {
      PipelineComplete.OtherFrame(cfg, j.pool, a);
      hide P.Apply;
    }
  }

  /** What a pool step adds to the log was in the worker's hand, or is an oversized row; batches sent stay sent. */
  lemma InternalLogs(cfg: P.Config, s: P.State, a: P.Action)
    requires PipelineSafety.Inv(cfg, s) && P.Enabled(cfg, s, a)
    ensures var t := P.Apply(cfg, s, a);
      && s.sent <= t.sent && s.rejected <= t.rejected
      && (t.log == s.log
          || (exists row :: t.log == s.log + [TooLargeLine(row)] && row in t.rejected)
          || (a.Append? && a.w < |s.workers| && s.workers[a.w].Recording? && t.log == s.log + [s.workers[a.w].line]))
  {
    if PipelineComplete.OfAWorker(a) {
      PipelineComplete.WorkerFrame(cfg, s, a);
      WorkerLogs(cfg, s, a);
      hide P.Apply, P.Enabled;
    } else if PipelineComplete.OfTheAccumulator(a) {
      PipelineLines.AccumulatorLogs(cfg, s, a);
      PipelineLines.AccumulatorSends(cfg, s, a);
      PipelineOrigins.AccumulatorComes(cfg, s, a);
      if a != P.AccReject(true) { LogsOnlyRejects(cfg, s, a); }
      hide P.Apply, P.Enabled;
    } else {
      PipelineComplete.RestFrame(cfg, s, a);
      hide P.Apply, P.Enabled;
    }
  }

  lemma LogsOnlyRejects(cfg: P.Config, s: P.State, a: P.Action)
    requires P.Enabled(cfg, s, a) && PipelineComplete.OfTheAccumulator(a) && a != P.AccReject(true)
    ensures P.Apply(cfg, s, a).log == s.log
  {
    PipelineComplete.AccumulatorActs(cfg, s, a);
    hide P.Apply, P.Enabled;
  }

  lemma WorkerLogs(cfg: P.Config, s: P.State, a: P.Action)
    requires P.Enabled(cfg, s, a) && PipelineComplete.OfAWorker(a) && a.w < |s.workers|
    ensures var t := P.Apply(cfg, s, a);
      t.log == s.log || (a.Append? && s.workers[a.w].Recording? && t.log == s.log + [s.workers[a.w].line])
  {
    hide CrashLine, ReplyLine;
    match a
    case Pull(_) =>
    case Write(_, _) =>
    case Answer(_, _) =>
    case CutRecv(_) =>
    case Append(_, _) =>
  }

  lemma KnownStays(before: seq<L.Session>, after: seq<L.Session>, rejected: seq<Row>, line: BatchOutcome)
    requires Known(before, rejected, line) && |before| == |after|
    requires forall w :: 0 <= w < |before| ==> before[w].log <= after[w].log
    ensures Known(after, rejected, line)
  {
    if w :| 0 <= w < |before| && line in before[w].log { assert line in after[w].log; }
  }

  lemma InternalStep(cfg: P.Config, setup: L.Setup, j: Attempt, a: P.Action)
    requires ValidConfig(cfg) && Inv(cfg, setup, j) && P.Enabled(cfg, j.pool, a) && !TouchesAPipe(a)
    ensures Inv(cfg, setup, Attempt(P.Apply(cfg, j.pool, a), j.sessions))
  {
    var s, t := j.pool, P.Apply(cfg, j.pool, a);
    Conservation(cfg, s);
    PipelineReport.ReachStep(cfg, s, a);
    InternalLogs(cfg, s, a);
    SameCount(cfg, s, a);
    forall w: nat | w < |j.sessions| ensures Paired(t.workers[w], j.sessions[w]) {
      InternalKeepsWorkers(cfg, setup, j, a, w);
    }
    forall line | line in t.log ensures Known(j.sessions, t.rejected, line) {
      if line in s.log { StaysRejected(j.sessions, s, t, line); } else { NewLineKnown(s, t, a, j.sessions, line); }
    }
    hide P.Apply, P.Enabled, P.Reachable, L.Reachable, Paired, Known, PipelineSafety.Inv, ValidConfig;
  }

  lemma SameCount(cfg: P.Config, s: P.State, a: P.Action)
    requires PipelineSafety.Inv(cfg, s) && P.Enabled(cfg, s, a)
    ensures |P.Apply(cfg, s, a).workers| == |s.workers|
  {
    if PipelineComplete.OfAWorker(a) {
      PipelineComplete.WorkerFrame(cfg, s, a);
    } else {
      PipelineComplete.OtherFrame(cfg, s, a);
    }
    hide P.Apply, P.Enabled;
  }

  lemma StaysRejected(sessions: seq<L.Session>, s: P.State, t: P.State, line: BatchOutcome)
    requires Known(sessions, s.rejected, line) && s.rejected <= t.rejected
    ensures Known(sessions, t.rejected, line)
  {
    if row :| row in s.rejected && line == TooLargeLine(row) { assert row in t.rejected; }
  }

  lemma NewLineKnown(s: P.State, t: P.State, a: P.Action, sessions: seq<L.Session>, line: BatchOutcome)
    requires line in t.log && line !in s.log && |sessions| == |s.workers|
    requires forall w :: 0 <= w < |sessions| ==> Paired(s.workers[w], sessions[w])
    requires t.log == s.log || (exists row :: t.log == s.log + [TooLargeLine(row)] && row in t.rejected)
      || (a.Append? && a.w < |s.workers| && s.workers[a.w].Recording? && t.log == s.log + [s.workers[a.w].line])
    ensures Known(sessions, t.rejected, line)
  {
    if row :| t.log == s.log + [TooLargeLine(row)] && row in t.rejected {
      assert line == TooLargeLine(row);
    } else {
      assert Paired(s.workers[a.w], sessions[a.w]);
      assert line == s.workers[a.w].line;
      assert line in sessions[a.w].log;
    }
  }

  // ------------------------------------------------------------------
  // Steps on one worker's pipes
  // ------------------------------------------------------------------

  /** One worker's phase and its session change together; everything else stays. */
  lemma OnePair(cfg: P.Config, setup: L.Setup, j: Attempt, t: P.State, w: nat, x: L.Session)
    requires Inv(cfg, setup, j) && w < |j.sessions|
    requires P.Reachable(cfg, t) && L.Reachable(setup, x)
    requires t.log == j.pool.log && t.sent == j.pool.sent && t.rejected == j.pool.rejected && w < |t.workers|
    requires t.workers == j.pool.workers[w := t.workers[w]]
    requires Paired(t.workers[w], x) && j.sessions[w].log <= x.log
    requires forall b :: b in x.sent ==> b in t.sent
    ensures Inv(cfg, setup, Attempt(t, j.sessions[w := x]))
  {
    var after := j.sessions[w := x];
    forall line | line in t.log ensures Known(after, t.rejected, line) {
      KnownStays(j.sessions, after, t.rejected, line);
    }
    hide P.Reachable, L.Reachable, Paired, Known;
  }

  /** The pool's half of a step on worker w's pipes. */
  lemma PipeFrame(cfg: P.Config, s: P.State, a: P.Action)
    requires PipelineSafety.Inv(cfg, s) && P.Enabled(cfg, s, a) && TouchesAPipe(a)
    ensures a.w < |s.workers| == |P.Apply(cfg, s, a).workers|
    ensures var t := P.Apply(cfg, s, a);
      && t.log == s.log && t.sent == s.sent && t.rejected == s.rejected
      && t.workers == s.workers[a.w := t.workers[a.w]]
  {
    hide CrashLine, ReplyLine, PipelineSafety.Inv;
  }

  lemma HandWasSent(cfg: P.Config, s: P.State, w: nat)
    requires ValidConfig(cfg) && P.Reachable(cfg, s) && w < |s.workers| && InHand(s.workers[w]) != []
    ensures InHand(s.workers[w]) in s.sent
  {
    PipelineLines.LoggedLinesAreSound(cfg, s);
    hide P.Reachable, ValidConfig;
    var pulled := PipelineLines.Pulled(s);
    assert InHand(s.workers[w]) in pulled;
    assert s.sent == pulled + s.jobQ;
  }

  /** A read of anything but noise: both sides derive the same line from the same reply. */
  lemma ReadPairs(setup: L.Setup, x: L.Session, a: L.Step, reply: Reply)
    requires L.Sane(x) && L.Enabled(setup, x, a) && (a.ReadLine? || a.ReadEof? || a.ReadFails?)
    requires a.ReadLine? ==> ReplyOf(x.stdout[0]) == Some(reply)
    requires a.ReadEof? ==> reply == Eof
    requires a.ReadFails? ==> reply == ReadError
    ensures x.host.Waiting?
    ensures var y := L.Apply(setup, x, a);
      y.host == L.Idle && y.log == x.log + [ReplyLine(setup.runtime, x.host.batch, reply)]
  {
    hide ReplyLine;
  }

  lemma SendPairs(setup: L.Setup, x: L.Session, a: L.Step)
    requires L.Sane(x) && L.Enabled(setup, x, a) && (a.Send? || a.SendFails? || a.CutOff?)
    ensures var y := L.Apply(setup, x, a);
      match a
      case Send(batch) => y.host == L.Waiting(batch) && y.log == x.log
      case SendFails(batch, _) =>
        batch != [] && y.host == L.Stopped && y.log == x.log + [CrashLine(setup.runtime, batch)]
      case CutOff =>
        x.host.Waiting? && x.host.batch != [] && y.host == L.Stopped
        && y.log == x.log + [CrashLine(setup.runtime, x.host.batch)]
  {
    hide CrashLine;
  }

  /** What the pool makes of a write, an answer or a cut, for the worker concerned. */
  lemma PipePhase(cfg: P.Config, s: P.State, a: P.Action)
    requires P.Enabled(cfg, s, a) && TouchesAPipe(a)
    ensures a.w < |s.workers| == |P.Apply(cfg, s, a).workers| && InHand(s.workers[a.w]) != []
    ensures var p, batch := P.Apply(cfg, s, a).workers[a.w], InHand(s.workers[a.w]);
      match a
      case Write(_, true) => s.workers[a.w].Sending? && p == P.Waiting(batch)
      case Write(_, false) =>
        s.workers[a.w].Sending? && p == P.Recording(batch, CrashLine(cfg.runtime, batch), Some(P.WriteFailed))
      case Answer(_, reply) =>
        s.workers[a.w].Waiting? && p == P.Recording(batch, ReplyLine(cfg.runtime, batch, reply), None)
      case CutRecv(_) =>
        s.workers[a.w].Waiting? && p == P.Recording(batch, CrashLine(cfg.runtime, batch), Some(P.CutOff))
  {
    hide CrashLine, ReplyLine;
  }

  /** After the step the worker and its session fit together again. */
  ghost predicate FitsAgain(j: Attempt, next: Attempt, w: nat) {
    && w < |j.sessions| == |next.sessions| && w < |next.pool.workers|
    && Paired(next.pool.workers[w], next.sessions[w])
    && j.sessions[w].log <= next.sessions[w].log
  }

  /** A step on a pipe is one action of the pool and one of the session, each enabled on its side. */
  lemma Halves(cfg: P.Config, setup: L.Setup, j: Attempt, st: Step)
    requires Enabled(cfg, setup, j, st) && !st.Internal? && PoolAction(j, st).Some?
    requires |j.sessions| == |j.pool.workers|
    ensures var a, b := PoolAction(j, st).value, SessionStep(j, st);
      && a.w == st.w < |j.sessions| && P.Enabled(cfg, j.pool, a)
      && L.Sane(j.sessions[st.w]) && L.Enabled(setup, j.sessions[st.w], b)
      && Apply(cfg, setup, j, st)
         == Attempt(P.Apply(cfg, j.pool, a), j.sessions[st.w := L.Apply(setup, j.sessions[st.w], b)])
  {
    hide P.Apply, P.Enabled, L.Apply, L.Enabled, L.Sane;
  }

  lemma ReadFits(cfg: P.Config, setup: L.Setup, j: Attempt, st: Step)
    requires setup.runtime == cfg.runtime && Inv(cfg, setup, j) && Enabled(cfg, setup, j, st)
    requires (st.Read? || st.ReadEof? || st.ReadFails?) && PoolAction(j, st).Some?
    ensures FitsAgain(j, Apply(cfg, setup, j, st), st.w)
  {
    var a, b := PoolAction(j, st).value, SessionStep(j, st);
    Halves(cfg, setup, j, st);
    assert a.Answer? && Paired(j.pool.workers[st.w], j.sessions[st.w]);
    PipePhase(cfg, j.pool, a);
    ReadPairs(setup, j.sessions[st.w], b, a.reply);
    hide P.Apply, P.Enabled, L.Apply, L.Enabled, L.Sane, ReplyLine, Inv, SessionStep, PoolAction, Apply, Enabled;
  }

  lemma PairedNow(cfg: P.Config, setup: L.Setup, j: Attempt, w: nat)
    requires Inv(cfg, setup, j) && w < |j.sessions|
    ensures |j.sessions| == |j.pool.workers| && Paired(j.pool.workers[w], j.sessions[w])
  {
  }

  lemma RecordingPairs(batch: Batch, line: BatchOutcome, why: P.WorkerEnd, x: L.Session, y: L.Session)
    requires y.host == L.Stopped && y.log == x.log + [line]
    ensures Paired(P.Recording(batch, line, Some(why)), y) && x.log <= y.log
  {
  }

  lemma WriteFits(cfg: P.Config, setup: L.Setup, j: Attempt, st: Step)
    requires setup.runtime == cfg.runtime && Inv(cfg, setup, j) && Enabled(cfg, setup, j, st)
    requires st.Send? || st.SendFails? || st.CutOff?
    ensures FitsAgain(j, Apply(cfg, setup, j, st), st.w)
  {
    var a, b := PoolAction(j, st).value, SessionStep(j, st);
    assert st.w < |j.sessions|;
    hide P.Apply, P.Enabled, L.Apply, L.Enabled, L.Sane, CrashLine, Inv, Apply, Enabled;
    PairedNow(cfg, setup, j, st.w);
    Halves(cfg, setup, j, st);
    PipePhase(cfg, j.pool, a);
    SendPairs(setup, j.sessions[st.w], b);
    var batch, x := InHand(j.pool.workers[st.w]), j.sessions[st.w];
    var y := L.Apply(setup, x, b);
    match st
    case Send(_) => assert Paired(P.Waiting(batch), y);
    case SendFails(_, _) => RecordingPairs(batch, CrashLine(cfg.runtime, batch), P.WriteFailed, x, y);
    case CutOff(_) => RecordingPairs(batch, CrashLine(cfg.runtime, batch), P.CutOff, x, y);
  }

  lemma SentByNow(cfg: P.Config, setup: L.Setup, j: Attempt, st: Step)
    requires ValidConfig(cfg) && Inv(cfg, setup, j) && Enabled(cfg, setup, j, st) && !st.Internal?
    requires st.Send? || st.SendFails? ==> InHand(j.pool.workers[st.w]) != []
    ensures forall b :: b in L.Apply(setup, j.sessions[st.w], SessionStep(j, st)).sent ==> b in j.pool.sent
  {
    if st.Send? || st.SendFails? { HandWasSent(cfg, j.pool, st.w); }
    hide P.Reachable, L.Reachable, P.Enabled, Known, Paired, CrashLine, ReplyLine;
  }

  lemma PipeStep(cfg: P.Config, setup: L.Setup, j: Attempt, st: Step)
    requires ValidConfig(cfg) && setup.runtime == cfg.runtime && Inv(cfg, setup, j) && Enabled(cfg, setup, j, st)
    requires !st.Internal? && !st.Peer? && PoolAction(j, st).Some?
    ensures Inv(cfg, setup, Apply(cfg, setup, j, st))
  {
    var a, w, next := PoolAction(j, st).value, st.w, Apply(cfg, setup, j, st);
    Conservation(cfg, j.pool);
    PipelineReport.ReachStep(cfg, j.pool, a);
    L.ReachStep(setup, j.sessions[w], SessionStep(j, st));
    assert TouchesAPipe(a) && a.w == w;
    PipeFrame(cfg, j.pool, a);
    if st.Send? || st.SendFails? || st.CutOff? { WriteFits(cfg, setup, j, st); } else { ReadFits(cfg, setup, j, st); }
    SentByNow(cfg, setup, j, st);
    var x := next.sessions[w];
    assert x == L.Apply(setup, j.sessions[w], SessionStep(j, st));
    assert next == Attempt(P.Apply(cfg, j.pool, a), j.sessions[w := x]);
    hide P.Apply, P.Enabled, L.Apply, L.Enabled, P.Reachable, L.Reachable, Paired, Known, SessionStep;
    hide PipelineSafety.Inv;
    OnePair(cfg, setup, j, next.pool, w, x);
  }

  /** Noise and the handler's own steps move only what lies between host and handler. */
  lemma SessionOnly(setup: L.Setup, x: L.Session, a: L.Step)
    requires L.Sane(x) && L.Enabled(setup, x, a)
    requires OfTheHandler(a) || (a.ReadLine? && Skipped(x.stdout[0]))
    ensures var y := L.Apply(setup, x, a); y.host == x.host && y.log == x.log && y.sent == x.sent
  {
    hide L.Envelope, CrashLine, ReplyLine;
  }

  lemma SilentStep(cfg: P.Config, setup: L.Setup, j: Attempt, st: Step)
    requires Inv(cfg, setup, j) && Enabled(cfg, setup, j, st) && !st.Internal? && PoolAction(j, st).None?
    ensures Inv(cfg, setup, Apply(cfg, setup, j, st))
  {
    var w, a := st.w, SessionStep(j, st);
    L.ReachStep(setup, j.sessions[w], a);
    SessionOnly(setup, j.sessions[w], a);
    var x := L.Apply(setup, j.sessions[w], a);
    assert Apply(cfg, setup, j, st) == Attempt(j.pool, j.sessions[w := x]);
    assert j.pool.workers == j.pool.workers[w := j.pool.workers[w]];
    hide P.Apply, P.Enabled, L.Apply, L.Enabled, P.Reachable, L.Reachable, Known, SessionStep;
    OnePair(cfg, setup, j, j.pool, w, x);
  }

  lemma InvStep(cfg: P.Config, setup: L.Setup, j: Attempt, st: Step)
    requires ValidConfig(cfg) && setup.runtime == cfg.runtime && Inv(cfg, setup, j) && Enabled(cfg, setup, j, st)
    ensures Inv(cfg, setup, Apply(cfg, setup, j, st))
  {
    if st.Internal? {
      InternalStep(cfg, setup, j, st.a);
    } else if PoolAction(j, st).Some? {
      PipeStep(cfg, setup, j, st);
    } else {
      SilentStep(cfg, setup, j, st);
    }
    hide Inv, P.Apply, L.Apply, P.Enabled, L.Enabled;
  }

  ghost predicate Reachable(cfg: P.Config, setup: L.Setup, j: Attempt) {
    exists schedule :: Exec(cfg, setup, Start(cfg), schedule) == Some(j)
  }

  lemma {:induction false} ExecInv(cfg: P.Config, setup: L.Setup, j: Attempt, schedule: seq<Step>)
    requires ValidConfig(cfg) && setup.runtime == cfg.runtime && Inv(cfg, setup, j)
    requires Exec(cfg, setup, j, schedule).Some?
    ensures Inv(cfg, setup, Exec(cfg, setup, j, schedule).value)
    decreases |schedule|
  {
    hide Inv, Apply, Enabled, ValidConfig;
    if schedule != [] {
      InvStep(cfg, setup, j, schedule[0]);
      ExecInv(cfg, setup, Apply(cfg, setup, j, schedule[0]), schedule[1..]);
    }
  }

  // ------------------------------------------------------------------
  // Nothing the pool does is lost by joining it to its handlers
  // ------------------------------------------------------------------

  lemma BatchCanBeSent(cfg: P.Config, setup: L.Setup, s: P.State, w: nat)
    requires PipelineSafety.Inv(cfg, s) && setup.runtime == cfg.runtime && w < |s.workers| && s.workers[w].Sending?
    ensures L.Sendable(setup, s.workers[w].batch)
  {
    assert WorkerShape(CapsOf(cfg.runtime), s.workers[w]);
    ObeysIff(cfg.runtime, s.workers[w].batch);
    hide PipelineSafety.Inv, Fits;
  }

  lemma SessionIsSane(setup: L.Setup, x: L.Session)
    requires setup.Clean() && L.Reachable(setup, x)
    ensures L.Sane(x)
  {
    L.ReachableInv(setup, x);
    hide L.InStep, L.Numbered, L.Attributed;
  }

  /** The joint step that makes the pool take this action. */
  function Follow(a: P.Action): Step
    requires !a.Answer?
  {
    match a
    case Write(w, true) => Send(w)
    case Write(w, false) => SendFails(w, false)
    case CutRecv(w) => CutOff(w)
    case _ => Internal(a)
  }

  /** Whatever the pool can do short of getting an answer, pool and handlers together can. */
  lemma PoolCanBeFollowed(cfg: P.Config, setup: L.Setup, j: Attempt, a: P.Action)
    requires ValidConfig(cfg) && setup.runtime == cfg.runtime && setup.Clean() && Inv(cfg, setup, j)
    requires P.Enabled(cfg, j.pool, a) && !a.Answer?
    ensures Enabled(cfg, setup, j, Follow(a))
    ensures Apply(cfg, setup, j, Follow(a)).pool == P.Apply(cfg, j.pool, a)
  {
    if a.Write? || a.CutRecv? {
      Conservation(cfg, j.pool);
      PairedNow(cfg, setup, j, a.w);
      assert L.Reachable(setup, j.sessions[a.w]);
      SessionIsSane(setup, j.sessions[a.w]);
      if a.Write? { BatchCanBeSent(cfg, setup, j.pool, a.w); }
    }
    hide PipelineSafety.Inv, P.Reachable, L.Reachable, Known, ValidConfig, P.Apply, L.Apply, L.Sane, L.Sendable;
    match a
    case Write(w, true) => assert SessionStep(j, Send(w)) == L.Send(j.pool.workers[w].batch);
    case Write(w, false) => assert SessionStep(j, SendFails(w, false)) == L.SendFails(j.pool.workers[w].batch, false);
    case _ =>
  }

  /** The joint step that makes worker w's session take this step, of the handler or of a reading host. */
  function FollowSession(w: nat, step: L.Step): Step
    requires OfTheHandler(step) || step.ReadLine? || step.ReadEof?
  {
    match step
    case ReadLine => Read(w)
    case ReadEof => ReadEof(w)
    case _ => Peer(w, step)
  }

  /** Whatever the handlers can do, and whatever there is to be read before a cancel, can happen in the whole. */
  lemma SessionsCanBeFollowed(cfg: P.Config, setup: L.Setup, j: Attempt, w: nat, step: L.Step)
    requires ValidConfig(cfg) && setup.runtime == cfg.runtime && setup.Clean() && Inv(cfg, setup, j)
    requires w < |j.sessions| && L.Sane(j.sessions[w]) && L.Enabled(setup, j.sessions[w], step)
    requires OfTheHandler(step)
      || ((step.ReadLine? || step.ReadEof?) && j.pool.workers[w].Waiting? && !j.pool.cancelled)
    ensures Enabled(cfg, setup, j, FollowSession(w, step))
    ensures Apply(cfg, setup, j, FollowSession(w, step)).sessions
         == j.sessions[w := L.Apply(setup, j.sessions[w], step)]
  {
    PairedNow(cfg, setup, j, w);
    hide Inv, ValidConfig, P.Apply, L.Apply, L.Sane;
  }

  // ------------------------------------------------------------------
  // End to end
  // ------------------------------------------------------------------

  /** Some worker's handler was called with the row, and this came of it. */
  ghost predicate HandlerSaid(sessions: seq<L.Session>, row: Row, v: Verdict) {
    exists w, c, p: nat ::
      && 0 <= w < |sessions| && c in sessions[w].calls && L.Complete(c)
      && p < |c.rows| && c.rows[p] == row && c.verdicts[p] == v
  }

  ghost predicate HandlerReturned(sessions: seq<L.Session>, row: Row, data: Data) {
    HandlerSaid(sessions, row, Returned(data))
  }

  /**
   The three ways to an outcome: the row is larger than the hard cap, its worker was lost, or its handler
   answered for it.
   */
  ghost predicate Explained(rt: Runtime, sessions: seq<L.Session>, row: Row, o: RowOutcome) {
    && o.seqNo == row.seqNo && !o.Crash? && o.durMs == 0
    && if row.size > 4_194_304 then
         o.Error? && o.code == "ROW_TOO_LARGE" && o.detail == None
       else
         Crashed(rt, o) || exists v :: HandlerSaid(sessions, row, v) && Conveys(o, v)
  }

  /** The outcome says what came of the call. */
  ghost predicate Conveys(o: RowOutcome, v: Verdict) {
    match v
    case Returned(data) => o.Success? && o.data == data
    case Rejected(code, message, detail) => o.Error? && o.code == code && o.message == message && o.detail == detail
    case Uncaught(message) => o.Error? && o.code == "UNCAUGHT" && o.message == message && o.detail == None
    case NilResult =>
      && o.Error? && o.code == "BAD_RETURN" && o.detail == None
      && o.message == "HandleFunc returned a nil result with no error"
  }

  lemma CrashedRow(rt: Runtime, batch: Batch, o: RowOutcome) returns (p: nat)
    requires batch != [] && o in CrashLine(rt, batch).outcomes
    ensures p < |batch| && o.seqNo == batch[p].seqNo && Crashed(rt, o)
  {
    var outcomes := CrashAll(Covered(rt, batch), rt.IsIdempotent());
    assert CrashLine(rt, batch).outcomes == outcomes;
    p :| 0 <= p < |outcomes| && outcomes[p] == o;
    CrashIsCrashed(rt, Covered(rt, batch)[p]);
  }

  lemma AnsweredConveys(s: nat, v: Verdict)
    ensures Conveys(Answered(s, v), v)
  {
  }

  lemma RejectedIsTooLarge(row: Row, o: RowOutcome)
    requires o in TooLargeLine(row).outcomes
    ensures o.seqNo == row.seqNo && o.Error? && o.code == "ROW_TOO_LARGE" && o.durMs == 0 && o.detail == None
  {
  }

  /** An outcome in a clean session's line is a crash of one of the batch's rows, or the answer for it. */
  lemma LineOfSession(setup: L.Setup, sessions: seq<L.Session>, w: nat, k: nat, o: RowOutcome) returns (row: Row)
    requires setup.Clean() && w < |sessions| && L.Reachable(setup, sessions[w])
    requires k < |sessions[w].log| && o in sessions[w].log[k].outcomes
    ensures k < |sessions[w].sent| && row in sessions[w].sent[k] && row.seqNo == o.seqNo
    ensures Dispatchable(row) ==> Explained(setup.runtime, sessions, row, o)
  {
    var x := sessions[w];
    L.CleanIsAttributed(setup, x);
    hide L.Reachable, CrashLine;
    var line, batch := x.log[k], x.sent[k];
    assert L.Genuine(setup, line, batch, x.calls);
    if batch != [] && line == CrashLine(setup.runtime, batch) {
      var p := CrashedRow(setup.runtime, batch, o);
      row := batch[p];
    } else {
      var c :| c in x.calls && c.rows == batch && L.Reports(line, c);
      var p :| 0 <= p < |line.outcomes| && line.outcomes[p] == o;
      row := batch[p];
      assert HandlerSaid(sessions, row, c.verdicts[p]);
      assert o == Answered(row.seqNo, c.verdicts[p]);
      AnsweredConveys(row.seqNo, c.verdicts[p]);
    }
  }

  lemma ReachableInv(cfg: P.Config, setup: L.Setup, j: Attempt)
    requires ValidConfig(cfg) && setup.runtime == cfg.runtime && Reachable(cfg, setup, j)
    ensures Inv(cfg, setup, j)
  {
    var schedule :| Exec(cfg, setup, Start(cfg), schedule) == Some(j);
    StartInv(cfg, setup);
    hide Exec, Start, Inv, ValidConfig;
    ExecInv(cfg, setup, Start(cfg), schedule);
  }

  lemma OutcomeOfSession(cfg: P.Config, setup: L.Setup, j: Attempt, w: nat, line: BatchOutcome, o: RowOutcome)
    returns (row: Row)
    requires ValidConfig(cfg) && setup.runtime == cfg.runtime && setup.Clean() && Inv(cfg, setup, j)
    requires w < |j.sessions| && line in j.sessions[w].log && o in line.outcomes
    ensures row in P.Selected(cfg) && row.seqNo == o.seqNo && Explained(cfg.runtime, j.sessions, row, o)
  {
    var k :| 0 <= k < |j.sessions[w].log| && j.sessions[w].log[k] == line;
    hide P.Reachable, L.Reachable, Known, Paired, ValidConfig, P.Selected, Explained, Dispatchable;
    row := LineOfSession(setup, j.sessions, w, k, o);
    assert j.sessions[w].sent[k] in j.sessions[w].sent;
    PipelineLines.SentRowsAreSelected(cfg, j.pool, j.sessions[w].sent[k], row);
  }

  /**
   In every run of the pool with its W handlers, whose stdouts are clean: an outcome in the attempt's log is
   about one of the selected rows, the only one with that number. An oversized row is reported as such; any
   other row as crashed, or with exactly what the handler that was given this row made of it.
   */
  lemma EveryOutcomeIsExplained(cfg: P.Config, setup: L.Setup, j: Attempt, o: RowOutcome) returns (row: Row)
    requires ValidConfig(cfg) && setup.runtime == cfg.runtime && setup.Clean() && Reachable(cfg, setup, j)
    requires o in LogOutcomes(j.pool.log)
    ensures row in P.Selected(cfg) && row.seqNo == o.seqNo && Explained(cfg.runtime, j.sessions, row, o)
    ensures forall other :: other in P.Selected(cfg) && other.seqNo == o.seqNo ==> other == row
  {
    ReachableInv(cfg, setup, j);
    var line := PipelineLines.InSomeLine(j.pool.log, o);
    assert Known(j.sessions, j.pool.rejected, line);
    PipelineOrigins.OriginHolds(cfg, j.pool);
    hide Inv, Reachable, ValidConfig, P.Reachable, P.Selected, HandlerSaid, Dispatchable;
    if w :| 0 <= w < |j.sessions| && line in j.sessions[w].log {
      row := OutcomeOfSession(cfg, setup, j, w, line, o);
    } else {
      row :| row in j.pool.rejected && line == TooLargeLine(row);
      RejectedIsTooLarge(row, o);
    }
    forall other | other in P.Selected(cfg) && other.seqNo == o.seqNo ensures other == row {
      NumbersAreUnique(cfg, other, row);
    }
  }

  /** So a success carries exactly the data that the handler given this row returned for it. */
  lemma EverySuccessIsTheHandlers(cfg: P.Config, setup: L.Setup, j: Attempt, o: RowOutcome) returns (row: Row)
    requires ValidConfig(cfg) && setup.runtime == cfg.runtime && setup.Clean() && Reachable(cfg, setup, j)
    requires o in LogOutcomes(j.pool.log) && o.Success?
    ensures row in P.Selected(cfg) && row.seqNo == o.seqNo && HandlerReturned(j.sessions, row, o.data)
    ensures forall other :: other in P.Selected(cfg) && other.seqNo == o.seqNo ==> other == row
  {
    row := EveryOutcomeIsExplained(cfg, setup, j, o);
    hide Reachable, ValidConfig, P.Selected, HandlerSaid;
    var v :| HandlerSaid(j.sessions, row, v) && Conveys(o, v);
  }
}
