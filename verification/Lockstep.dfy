/**
 One worker and its handler joined by the FIFO pipes of stdin and stdout: the
 host throws away the `seq` of every reply, so attribution rests on the two
 sides staying in step (crates/rowforge-core/src/worker_loop.rs and worker.rs,
 sdks/go/protocol.go and batch.go).
 */
module Lockstep {
  import opened Base
  import opened Protocol
  import opened Batching
  import opened WorkerLines
  import opened Handler
  import opened Worker

  /** What can be relied on: `utf8` and `quiet` are up to the handler, `readable` to the pipe. */
  datatype Setup = Setup(
    runtime: Runtime,
    utf8: bool,      // every line on stdout is valid UTF-8
    quiet: bool,     // no line but the SDK's own parses as a message
    readable: bool)  // reading stdout never fails
  {
    predicate Clean() { utf8 && quiet && readable }
  }

  datatype Host = Idle | Waiting(batch: Batch) | Stopped

  datatype Peer = Listening | Busy(request: Batch) | Exited

  /** A call of the handler function and what came of it, row by row. */
  datatype Call = Call(rows: Batch, verdicts: seq<Verdict>)

  /** `sent` and `calls` are history: the batches dispatched and the calls answered, oldest first. */
  datatype Session = Session(
    host: Host, stdin: seq<Batch>, peer: Peer, stdout: seq<Line>, log: seq<BatchOutcome>,
    sent: seq<Batch>, calls: seq<Call>)

  const START := Session(Idle, [], Listening, [], [], [], [])

  datatype Step =
    | Send(batch: Batch)
    | SendFails(batch: Batch, delivered: bool)
    | ReadLine
    | ReadEof
    | ReadFails
    | CutOff
    | Leave
    | Take
    | Answer(verdicts: seq<Verdict>)
    | Say(line: Line)
    | Exit

  /** Row mode dispatches one row at a time. */
  predicate Sendable(setup: Setup, batch: Batch) { batch != [] && (setup.runtime.mode == RowMode ==> |batch| == 1) }

  predicate Enabled(setup: Setup, s: Session, a: Step) {
    match a
    case Send(batch) => s.host == Idle && Sendable(setup, batch)
    case SendFails(batch, _) => s.host == Idle && Sendable(setup, batch)
    case ReadLine => s.host.Waiting? && s.stdout != []
    case ReadEof => s.host.Waiting? && s.stdout == [] && s.peer == Exited
    case ReadFails => s.host.Waiting? && !setup.readable
    case CutOff => s.host.Waiting?
    case Leave => s.host != Stopped
    case Take => s.peer == Listening && s.stdin != []
    case Answer(verdicts) =>
      && s.peer.Busy? && |verdicts| == |s.peer.request|
      && (setup.runtime.mode == BatchMode ==> forall v :: v in verdicts ==> BatchVerdict(v))
    case Say(line) =>
      && s.peer != Exited
      && (line == Garbage ==> !setup.utf8)
      && (line.Protocol? ==> !setup.quiet)
    case Exit => s.peer != Exited
  }

  /** What the handler writes back after a call. */
  function Envelope(mode: Mode, c: Call): Inbound
    requires c.rows != [] && |c.rows| == |c.verdicts|
    requires mode == BatchMode ==> forall v :: v in c.verdicts ==> BatchVerdict(v)
  {
    match mode
    case RowMode => RowReply(c.rows[0], c.verdicts[0])
    case BatchMode => BatchResult(Entries(c.verdicts))
  }

  /** No request is ever empty. */
  predicate Sane(s: Session) {
    && (s.host.Waiting? ==> s.host.batch != [])
    && (s.peer.Busy? ==> s.peer.request != [])
    && forall b :: b in s.stdin ==> b != []
  }

  function Apply(setup: Setup, s: Session, a: Step): Session
    requires Enabled(setup, s, a) && Sane(s)
  {
    match a
    case Send(batch) => s.(host := Waiting(batch), stdin := s.stdin + [batch], sent := s.sent + [batch])
    case SendFails(batch, delivered) =>
      s.(host := Stopped, log := s.log + [CrashLine(setup.runtime, batch)],
         stdin := if delivered then s.stdin + [batch] else s.stdin, sent := s.sent + [batch])
    case ReadLine =>
      var rest := s.(stdout := s.stdout[1..]);
      (match s.stdout[0]
       case Blank => rest
       case Noise => rest
       case Garbage => rest.(host := Idle, log := s.log + [ReplyLine(setup.runtime, s.host.batch, ReadError)])
       case Protocol(msg) => rest.(host := Idle, log := s.log + [ReplyLine(setup.runtime, s.host.batch, Message(msg))]))
    case ReadEof => s.(host := Idle, log := s.log + [ReplyLine(setup.runtime, s.host.batch, Eof)])
    case ReadFails => s.(host := Idle, log := s.log + [ReplyLine(setup.runtime, s.host.batch, ReadError)])
    case CutOff => s.(host := Stopped, log := s.log + [CrashLine(setup.runtime, s.host.batch)])
    case Leave => s.(host := Stopped)
    case Take => s.(peer := Busy(s.stdin[0]), stdin := s.stdin[1..])
    case Answer(verdicts) =>
      var c := Call(s.peer.request, verdicts);
      s.(peer := Listening, calls := s.calls + [c], stdout := s.stdout + [Protocol(Envelope(setup.runtime.mode, c))])
    case Say(line) => s.(stdout := s.stdout + [line])
    case Exit => s.(peer := Exited)
  }

  /** The session a schedule leads to, if each of its steps is enabled in turn. */
  function Exec(setup: Setup, s: Session, schedule: seq<Step>): Option<Session>
    decreases |schedule|
  {
    if schedule == [] then Some(s)
    else if Sane(s) && Enabled(setup, s, schedule[0]) then Exec(setup, Apply(setup, s, schedule[0]), schedule[1..])
    else None
  }

  // ------------------------------------------------------------------
  // Attribution
  // ------------------------------------------------------------------

  predicate Complete(c: Call) { c.rows != [] && |c.rows| == |c.verdicts| }

  /** The line that reports a call faithfully: each row under its own number with its own verdict. */
  predicate Reports(line: BatchOutcome, c: Call) {
    Complete(c) && line == FromOutcomes(AnsweredAll(c.rows, c.verdicts))
  }

  ghost predicate Genuine(setup: Setup, line: BatchOutcome, batch: Batch, calls: seq<Call>) {
    || (batch != [] && line == CrashLine(setup.runtime, batch))
    || exists c :: c in calls && c.rows == batch && Reports(line, c)
  }

  /** The k-th line is about the k-th batch sent: a crash of all its rows, or what the handler answered for them. */
  ghost predicate Attributed(setup: Setup, s: Session) {
    |s.log| <= |s.sent| && forall k :: 0 <= k < |s.log| ==> Genuine(setup, s.log[k], s.sent[k], s.calls)
  }

  ghost predicate AnsweredWith(calls: seq<Call>, batch: Batch, i: nat, data: Data) {
    exists c :: c in calls && Complete(c) && c.rows == batch && i < |batch| && c.verdicts[i] == Returned(data)
  }

  /** In particular a success logged for a row carries the data the handler returned for that very row. */
  lemma SuccessIsHandlers(setup: Setup, s: Session, k: nat, i: nat)
    requires Attributed(setup, s) && k < |s.log| && i < |s.log[k].outcomes| && s.log[k].outcomes[i].Success?
    ensures i < |s.sent[k]| && s.sent[k][i].seqNo == s.log[k].outcomes[i].seqNo
    ensures AnsweredWith(s.calls, s.sent[k], i, s.log[k].outcomes[i].data)
  {
    var line, batch := s.log[k], s.sent[k];
    assert Genuine(setup, line, batch, s.calls);
    assert line.outcomes[i] in line.outcomes;
    var c :| c in s.calls && c.rows == batch && Reports(line, c);
    assert line.outcomes[i] == Answered(c.rows[i].seqNo, c.verdicts[i]);
  }

  /** The protocol messages waiting in stdout. */
  function Messages(lines: seq<Line>): seq<Line> { Filter((l: Line) => !Skipped(l), lines) }

  lemma MessagesSnoc(lines: seq<Line>, l: Line)
    ensures Messages(lines + [l]) == if Skipped(l) then Messages(lines) else Messages(lines) + [l]
  {
    FilterConcat((x: Line) => !Skipped(x), lines, [l]);
    assert [l][1..] == [];
    assert Messages(lines) + [] == Messages(lines);
  }

  /** The answer to the batch the host waits for, if the handler has given it. */
  ghost predicate Answering(setup: Setup, s: Session, batch: Batch) {
    && s.calls != []
    && var c := s.calls[|s.calls| - 1];
      && c.rows == batch && Complete(c)
      && (setup.runtime.mode == BatchMode ==> forall v :: v in c.verdicts ==> BatchVerdict(v))
      && Messages(s.stdout) == [Protocol(Envelope(setup.runtime.mode, c))]
  }

  /** Requests on their way, being worked on, or answered but not read. */
  function Outstanding(s: Session): nat {
    |s.stdin| + (if s.peer.Busy? then 1 else 0) + |Messages(s.stdout)|
  }

  /** Host and handler are in step: at most the one request the host waits for is anywhere between them. */
  ghost predicate InStep(setup: Setup, s: Session) {
    match s.host
    case Stopped => true
    case Idle =>
      && Messages(s.stdout) == []
      && (s.peer != Exited ==> s.peer == Listening && s.stdin == [])
    case Waiting(batch) =>
      && Sendable(setup, batch)
      && (if Messages(s.stdout) == [] then
            s.peer == Exited || (s.peer == Listening && s.stdin == [batch]) || (s.peer == Busy(batch) && s.stdin == [])
          else
            Answering(setup, s, batch) && (s.peer != Exited ==> s.peer == Listening && s.stdin == []))
  }

  lemma OutstandingIff(setup: Setup, s: Session)
    requires InStep(setup, s) && s.host != Stopped && s.peer != Exited
    ensures Outstanding(s) == if s.host.Waiting? then 1 else 0
  {
  }

  /** Which batch the next line will be about. */
  ghost predicate Numbered(s: Session) {
    match s.host
    case Idle => |s.sent| == |s.log|
    case Waiting(batch) => |s.sent| == |s.log| + 1 && s.sent[|s.log|] == batch
    case Stopped => |s.log| <= |s.sent|
  }

  ghost predicate Inv(setup: Setup, s: Session) {
    Sane(s) && InStep(setup, s) && Numbered(s) && Attributed(setup, s)
  }

  /** Reading the handler's own envelope back gives its own verdicts, whatever `seq` it carried. */
  lemma EnvelopeRoundTrip(setup: Setup, c: Call)
    requires Complete(c) && Sendable(setup, c.rows)
    requires setup.runtime.mode == BatchMode ==> forall v :: v in c.verdicts ==> BatchVerdict(v)
    ensures Reports(ReplyLine(setup.runtime, c.rows, Message(Envelope(setup.runtime.mode, c))), c)
  {
    match setup.runtime.mode
    case RowMode =>
      var reply := Message(RowReply(c.rows[0], c.verdicts[0]));
      assert [RowReplyOutcome(c.rows[0].seqNo, setup.runtime.IsIdempotent(), reply)] == AnsweredAll(c.rows, c.verdicts);
    case BatchMode =>
      BatchRoundTrip(c.rows, c.verdicts, setup.runtime.IsIdempotent());
  }

  /** One more line, about the batch whose turn it is, keeps the log attributed. */
  lemma LogOne(setup: Setup, s: Session, t: Session, line: BatchOutcome)
    requires Attributed(setup, s) && t.log == s.log + [line] && t.calls == s.calls && s.sent <= t.sent
    requires |s.log| < |t.sent| && Genuine(setup, line, t.sent[|s.log|], s.calls)
    ensures Attributed(setup, t)
  {
    hide Genuine;
  }

  lemma Unlogged(setup: Setup, s: Session, t: Session)
    requires Attributed(setup, s) && t.log == s.log && s.sent <= t.sent && s.calls <= t.calls
    ensures Attributed(setup, t)
  {
    forall k | 0 <= k < |t.log| ensures Genuine(setup, t.log[k], t.sent[k], t.calls) {
      assert Genuine(setup, s.log[k], s.sent[k], s.calls);
      if c :| c in s.calls && c.rows == s.sent[k] && Reports(s.log[k], c) { assert c in t.calls; }
    }
  }

  lemma MessagesHead(lines: seq<Line>)
    requires lines != []
    ensures Messages(lines) == (if Skipped(lines[0]) then [] else [lines[0]]) + Messages(lines[1..])
  {
    FilterConcat((x: Line) => !Skipped(x), [lines[0]], lines[1..]);
    assert lines == [lines[0]] + lines[1..];
    assert [lines[0]][1..] == [];
  }

  lemma ReadNoise(setup: Setup, s: Session)
    requires Inv(setup, s) && Enabled(setup, s, ReadLine) && Skipped(s.stdout[0])
    ensures Inv(setup, Apply(setup, s, ReadLine))
  {
    var t := Apply(setup, s, ReadLine);
    MessagesHead(s.stdout);
    Unlogged(setup, s, t);
    hide Messages, Attributed, Envelope;
    assert [] + Messages(t.stdout) == Messages(t.stdout);
  }

  lemma ReadMessage(setup: Setup, s: Session)
    requires Inv(setup, s) && Enabled(setup, s, ReadLine) && s.stdout[0].Protocol?
    ensures Inv(setup, Apply(setup, s, ReadLine))
  {
    var t, c := Apply(setup, s, ReadLine), s.calls[|s.calls| - 1];
    MessagesHead(s.stdout);
    hide Messages, Attributed, ReplyLine, Envelope;
    var head, rest := s.stdout[0], Messages(t.stdout);
    assert ([head] + rest)[0] == head && |[head] + rest| == 1 + |rest|;
    EnvelopeRoundTrip(setup, c);
    LogOne(setup, s, t, ReplyLine(setup.runtime, s.host.batch, Message(head.msg)));
  }

  lemma ReadStep(setup: Setup, s: Session)
    requires setup.Clean() && Inv(setup, s) && Enabled(setup, s, ReadLine) && NoGarbage(s)
    ensures Inv(setup, Apply(setup, s, ReadLine)) && NoGarbage(Apply(setup, s, ReadLine))
  {
    hide Inv;
    if Skipped(s.stdout[0]) {
      ReadNoise(setup, s);
    } else {
      ReadMessage(setup, s);
    }
  }

  ghost predicate NoGarbage(s: Session) { Garbage !in s.stdout }

  lemma HostStep(setup: Setup, s: Session, a: Step)
    requires setup.Clean() && Inv(setup, s) && NoGarbage(s) && Enabled(setup, s, a)
    requires a.Send? || a.SendFails? || a.ReadEof? || a.CutOff? || a.Leave?
    ensures Inv(setup, Apply(setup, s, a)) && NoGarbage(Apply(setup, s, a))
  {
    var t := Apply(setup, s, a);
    hide Messages, Attributed, CrashLine, ReplyLine;
    match a
    case Send(batch) => Unlogged(setup, s, t);
    case SendFails(batch, _) =>
      LogOne(setup, s, t, CrashLine(setup.runtime, batch));
    case ReadEof =>
      assert Messages([]) == [] by { NoMessages(); }
      LostIsCrash(setup.runtime, s.host.batch, Eof);
      LogOne(setup, s, t, ReplyLine(setup.runtime, s.host.batch, Eof));
    case CutOff => LogOne(setup, s, t, CrashLine(setup.runtime, s.host.batch));
    case Leave => Unlogged(setup, s, t);
  }

  lemma NoMessages()
    ensures Messages([]) == []
  {
  }

  lemma PeerStep(setup: Setup, s: Session, a: Step)
    requires setup.Clean() && Inv(setup, s) && NoGarbage(s) && Enabled(setup, s, a)
    requires a.Take? || a.Answer? || a.Say? || a.Exit?
    ensures Inv(setup, Apply(setup, s, a)) && NoGarbage(Apply(setup, s, a))
  {
    var t := Apply(setup, s, a);
    Unlogged(setup, s, t);
    hide Attributed, Envelope;
    match a
    case Take =>
      hide Messages;
      assert s.stdin[0] in s.stdin && s.stdin == [s.stdin[0]] + s.stdin[1..];
      if s.host.Waiting? {
        assert s.stdin[1..] == [];
      }
      forall b | b in t.stdin ensures b in s.stdin {}
    case Answer(verdicts) =>
      var c := Call(s.peer.request, verdicts);
      MessagesSnoc(s.stdout, Protocol(Envelope(setup.runtime.mode, c)));
      hide Messages;
    case Say(line) =>
      MessagesSnoc(s.stdout, line);
      hide Messages;
    case Exit =>
  }

  lemma InvStep(setup: Setup, s: Session, a: Step)
    requires setup.Clean() && Inv(setup, s) && NoGarbage(s) && Enabled(setup, s, a)
    ensures Inv(setup, Apply(setup, s, a)) && NoGarbage(Apply(setup, s, a))
  {
    hide Inv, NoGarbage, Apply;
    match a
    case ReadLine => ReadStep(setup, s);
    case Send(_) => HostStep(setup, s, a);
    case SendFails(_, _) => HostStep(setup, s, a);
    case ReadEof => HostStep(setup, s, a);
    case CutOff => HostStep(setup, s, a);
    case Leave => HostStep(setup, s, a);
    case ReadFails =>
    case Take => PeerStep(setup, s, a);
    case Answer(_) => PeerStep(setup, s, a);
    case Say(_) => PeerStep(setup, s, a);
    case Exit => PeerStep(setup, s, a);
  }

  lemma {:induction false} RunsKeepStep(setup: Setup, s: Session, schedule: seq<Step>)
    requires setup.Clean() && Inv(setup, s) && NoGarbage(s) && Exec(setup, s, schedule).Some?
    ensures var t := Exec(setup, s, schedule).value; Inv(setup, t) && NoGarbage(t)
    decreases |schedule|
  {
    hide Inv, NoGarbage, Apply, Enabled;
    if schedule != [] {
      InvStep(setup, s, schedule[0]);
      RunsKeepStep(setup, Apply(setup, s, schedule[0]), schedule[1..]);
    }
  }

  ghost predicate Reachable(setup: Setup, s: Session) {
    exists schedule :: Exec(setup, START, schedule) == Some(s)
  }

  lemma {:induction false} ExecSnoc(setup: Setup, s: Session, schedule: seq<Step>, a: Step)
    requires Exec(setup, s, schedule).Some?
    requires Sane(Exec(setup, s, schedule).value) && Enabled(setup, Exec(setup, s, schedule).value, a)
    ensures Exec(setup, s, schedule + [a]) == Some(Apply(setup, Exec(setup, s, schedule).value, a))
    decreases |schedule|
  {
    hide Apply, Enabled, Sane;
    if schedule == [] {
      assert schedule + [a] == [a] && [a][1..] == [];
    } else {
      assert (schedule + [a])[1..] == schedule[1..] + [a];
      ExecSnoc(setup, Apply(setup, s, schedule[0]), schedule[1..], a);
    }
  }

  lemma ReachStep(setup: Setup, s: Session, a: Step)
    requires Reachable(setup, s) && Sane(s) && Enabled(setup, s, a)
    ensures Reachable(setup, Apply(setup, s, a))
  {
    var schedule :| Exec(setup, START, schedule) == Some(s);
    ExecSnoc(setup, START, schedule, a);
    assert Exec(setup, START, schedule + [a]) == Some(Apply(setup, s, a));
  }

  lemma StartInv(setup: Setup)
    ensures Inv(setup, START) && NoGarbage(START)
  {
    NoMessages();
  }

  lemma ReachableInv(setup: Setup, s: Session)
    requires setup.Clean() && Reachable(setup, s)
    ensures Inv(setup, s) && NoGarbage(s)
  {
    var schedule :| Exec(setup, START, schedule) == Some(s);
    StartInv(setup);
    RunsKeepStep(setup, START, schedule);
  }

  /** With a clean stdout the two sides stay in step, and every line is the handler's own answer or a crash. */
  lemma CleanIsAttributed(setup: Setup, s: Session)
    requires setup.Clean() && Reachable(setup, s)
    ensures Attributed(setup, s)
    ensures s.host != Stopped && s.peer != Exited ==> Outstanding(s) == if s.host.Waiting? then 1 else 0
  {
    ReachableInv(setup, s);
    hide Exec, Reachable;
    if s.host != Stopped && s.peer != Exited { OutstandingIff(setup, s); }
  }

  // ------------------------------------------------------------------
  // A waiting host can always be answered
  // ------------------------------------------------------------------

  /** The host reads on over noise until it has the message. */
  lemma {:induction false} ReadOn(setup: Setup, s: Session, msg: Inbound) returns (t: Session)
    requires setup.Clean() && Reachable(setup, s) && s.host.Waiting? && Messages(s.stdout) == [Protocol(msg)]
    ensures s.host.batch != [] && Reachable(setup, t) && t.host == Idle
    ensures t.log == s.log + [ReplyLine(setup.runtime, s.host.batch, Message(msg))]
    decreases |s.stdout|
  {
    ReachableInv(setup, s);
    NoMessages();
    MessagesHead(s.stdout);
    ReachStep(setup, s, ReadLine);
    hide Reachable, ReplyLine, Messages, Attributed, Envelope;
    if Skipped(s.stdout[0]) {
      assert [] + Messages(s.stdout[1..]) == Messages(s.stdout[1..]);
      t := ReadOn(setup, Apply(setup, s, ReadLine), msg);
    } else {
      assert ([s.stdout[0]] + Messages(s.stdout[1..]))[0] == s.stdout[0];
      t := Apply(setup, s, ReadLine);
    }
  }

  lemma TakenUp(setup: Setup, s: Session) returns (t: Session)
    requires setup.Clean() && Reachable(setup, s) && s.host.Waiting? && s.peer != Exited && Messages(s.stdout) == []
    ensures Reachable(setup, t) && t == s.(peer := Busy(s.host.batch), stdin := [])
    ensures s.host.batch != []
  {
    ReachableInv(setup, s);
    if s.peer == Listening { ReachStep(setup, s, Take); }
    hide Reachable, Messages, Attributed;
    if s.peer == Listening {
      t := Apply(setup, s, Take);
    } else {
      t := s;
    }
  }

  /** Whatever the handler makes of the batch the host waits for can get through, and is logged as it was. */
  lemma AnswerGetsThrough(setup: Setup, s: Session, verdicts: seq<Verdict>) returns (t: Session)
    requires setup.Clean() && Reachable(setup, s) && s.host.Waiting? && s.peer != Exited && Messages(s.stdout) == []
    requires |verdicts| == |s.host.batch|
    requires setup.runtime.mode == BatchMode ==> forall v :: v in verdicts ==> BatchVerdict(v)
    ensures Reachable(setup, t) && t.host == Idle && |t.log| == |s.log| + 1 && s.log <= t.log
    ensures Reports(t.log[|s.log|], Call(s.host.batch, verdicts))
  {
    var busy := TakenUp(setup, s);
    ReachableInv(setup, s);
    ReachableInv(setup, busy);
    var c := Call(s.host.batch, verdicts);
    assert Sendable(setup, c.rows);
    ReachStep(setup, busy, Answer(verdicts));
    var answered := Apply(setup, busy, Answer(verdicts));
    MessagesSnoc(s.stdout, Protocol(Envelope(setup.runtime.mode, c)));
    assert [] + [Protocol(Envelope(setup.runtime.mode, c))] == [Protocol(Envelope(setup.runtime.mode, c))];
    EnvelopeRoundTrip(setup, c);
    hide Reachable, Messages, Attributed, Envelope, ReplyLine, Inv, Reports;
    t := ReadOn(setup, answered, Envelope(setup.runtime.mode, c));
  }

  /** The handler may print noise and exit whenever it likes. */
  lemma HandlerMayGo(setup: Setup, s: Session)
    requires Reachable(setup, s) && Sane(s) && s.peer != Exited
    ensures Reachable(setup, s.(stdout := s.stdout + [Noise]))
    ensures Reachable(setup, s.(peer := Exited))
  {
    ReachStep(setup, s, Say(Noise));
    ReachStep(setup, s, Exit);
    hide Reachable;
    assert Apply(setup, s, Say(Noise)) == s.(stdout := s.stdout + [Noise]);
    assert Apply(setup, s, Exit) == s.(peer := Exited);
  }

  /** A handler that has gone without an answer leaves the host with a crash of the batch. */
  lemma {:induction false} SilenceIsCrash(setup: Setup, s: Session) returns (t: Session)
    requires setup.Clean() && Reachable(setup, s) && s.host.Waiting? && s.peer == Exited && Messages(s.stdout) == []
    ensures s.host.batch != [] && Reachable(setup, t) && t.host == Idle
    ensures t.log == s.log + [CrashLine(setup.runtime, s.host.batch)]
    decreases |s.stdout|
  {
    ReachableInv(setup, s);
    if s.stdout == [] {
      ReachStep(setup, s, ReadEof);
      LostIsCrash(setup.runtime, s.host.batch, Eof);
      hide Reachable, Attributed, CrashLine, ReplyLine;
      t := Apply(setup, s, ReadEof);
    } else {
      MessagesHead(s.stdout);
      ReachStep(setup, s, ReadLine);
      hide Reachable, Messages, Attributed, CrashLine, ReplyLine;
      t := SilenceIsCrash(setup, Apply(setup, s, ReadLine));
    }
  }

  // ------------------------------------------------------------------
  // Each of the three conditions is needed
  // ------------------------------------------------------------------

  const ROW_0 := Row(0, map[], 0)
  const ROW_1 := Row(1, map[], 0)

  /** The host has just put row 0 behind it as crashed, while the handler still has that request to read. */
  ghost predicate OneBehind(setup: Setup, s: Session) {
    && Reachable(setup, s)
    && s == Session(Idle, [[ROW_0]], Listening, [], [CrashLine(setup.runtime, [ROW_0])], [[ROW_0]], [])
  }

  /** From there the host logs the handler's answer for row 0 as row 1's. */
  lemma OneBehindMisattributes(setup: Setup, s: Session) returns (t: Session)
    requires OneBehind(setup, s)
    ensures Reachable(setup, t) && !Attributed(setup, t)
    ensures t.sent == [[ROW_0], [ROW_1]] && t.calls == [Call([ROW_0], [Returned(map[])])]
    ensures |t.log| == 2 && t.log[1].outcomes == [Success(1, map[], 0)]
  {
    hide Reachable;
    var c := Call([ROW_0], [Returned(map[])]);
    ReachStep(setup, s, Send([ROW_1]));
    var waiting := s.(host := Waiting([ROW_1]), stdin := [[ROW_0], [ROW_1]], sent := [[ROW_0], [ROW_1]]);
    assert Apply(setup, s, Send([ROW_1])) == waiting;
    LateAnswer(setup, waiting);
    t := waiting.(stdin := [[ROW_1]], calls := [c], host := Idle,
                  log := waiting.log + [FromOutcomes([Success(1, map[], 0)])]);
    NotForRowOne(setup, t.log[1], c);
    assert t.sent[1] == [ROW_1];
  }

  lemma LateAnswer(setup: Setup, s: Session)
    requires Reachable(setup, s) && s.host == Waiting([ROW_1]) && s.stdin == [[ROW_0], [ROW_1]] && s.peer == Listening
    requires s.stdout == [] && s.calls == []
    ensures Reachable(setup, s.(stdin := [[ROW_1]], calls := [Call([ROW_0], [Returned(map[])])], host := Idle,
                                log := s.log + [FromOutcomes([Success(1, map[], 0)])]))
  {
    hide Reachable;
    var c := Call([ROW_0], [Returned(map[])]);
    ReachStep(setup, s, Take);
    var busy := s.(stdin := [[ROW_1]], peer := Busy([ROW_0]));
    assert Apply(setup, s, Take) == busy;
    ReachStep(setup, busy, Answer([Returned(map[])]));
    var answered := busy.(peer := Listening, calls := [c], stdout := [Protocol(Envelope(setup.runtime.mode, c))]);
    assert Apply(setup, busy, Answer([Returned(map[])])) == answered;
    ReachStep(setup, answered, ReadLine);
    EmptyAnswer(setup.runtime, c, ROW_1);
    var logged := answered.(stdout := [], host := Idle, log := answered.log + [FromOutcomes([Success(1, map[], 0)])]);
    assert Apply(setup, answered, ReadLine) == logged;
  }

  /** An empty result for one row becomes a success of whichever row the host waits for. */
  lemma EmptyAnswer(rt: Runtime, c: Call, row: Row)
    requires |c.rows| == 1 && c.verdicts == [Returned(map[])]
    ensures ReplyLine(rt, [row], Message(Envelope(rt.mode, c))) == FromOutcomes([Success(row.seqNo, map[], 0)])
  {
    var reply := Message(Envelope(rt.mode, c));
    assert ReplyOutcomes(rt.mode, Seqs([row]), rt.IsIdempotent(), reply) == [Success(row.seqNo, map[], 0)] by {
      assert Seqs([row]) == [row.seqNo];
    }
  }

  lemma NotForRowOne(setup: Setup, line: BatchOutcome, c: Call)
    requires line.outcomes == [Success(1, map[], 0)] && c.rows == [ROW_0]
    ensures !Genuine(setup, line, [ROW_1], [c])
  {
    assert line.outcomes[0] in line.outcomes;
    assert [ROW_0][0] != [ROW_1][0];
  }

  lemma SendRowZero(setup: Setup) returns (s: Session)
    ensures Reachable(setup, s) && s == Session(Waiting([ROW_0]), [[ROW_0]], Listening, [], [], [[ROW_0]], [])
  {
    assert Exec(setup, START, []) == Some(START);
    assert Reachable(setup, START);
    hide Reachable;
    ReachStep(setup, START, Send([ROW_0]));
    s := Apply(setup, START, Send([ROW_0]));
  }

  lemma SayGarbage(setup: Setup, s: Session) returns (t: Session)
    requires !setup.utf8 && Reachable(setup, s) && Sane(s) && s.peer != Exited && s.stdout == []
    ensures Reachable(setup, t) && t == s.(stdout := [Garbage])
  {
    hide Reachable;
    ReachStep(setup, s, Say(Garbage));
    t := Apply(setup, s, Say(Garbage));
  }

  /**
   The handler prints one line that is not valid UTF-8 before it answers row 0. The host takes the
   read error for a crash of row 0, goes on to row 1, and logs row 0's answer as row 1's.
   */
  lemma GarbageMisattributes(setup: Setup) returns (t: Session)
    requires !setup.utf8
    ensures Reachable(setup, t) && !Attributed(setup, t)
    ensures t.sent == [[ROW_0], [ROW_1]] && t.calls == [Call([ROW_0], [Returned(map[])])]
    ensures |t.log| == 2 && t.log[1].outcomes == [Success(1, map[], 0)]
  {
    var s := SendRowZero(setup);
    var said := SayGarbage(setup, s);
    hide Reachable, Attributed, CrashLine, ReplyLine;
    ReachStep(setup, said, ReadLine);
    LostIsCrash(setup.runtime, [ROW_0], ReadError);
    var behind := s.(host := Idle, log := [CrashLine(setup.runtime, [ROW_0])]);
    assert Apply(setup, said, ReadLine) == behind;
    hide *;
    t := OneBehindMisattributes(setup, behind);
  }

  /** A single failed read of the pipe puts the host one reply behind in the same way. */
  lemma FailedReadMisattributes(setup: Setup) returns (t: Session)
    requires !setup.readable
    ensures Reachable(setup, t) && !Attributed(setup, t)
    ensures t.sent == [[ROW_0], [ROW_1]] && t.calls == [Call([ROW_0], [Returned(map[])])]
    ensures |t.log| == 2 && t.log[1].outcomes == [Success(1, map[], 0)]
  {
    var s := SendRowZero(setup);
    hide Reachable, Attributed, CrashLine, ReplyLine;
    ReachStep(setup, s, ReadFails);
    LostIsCrash(setup.runtime, [ROW_0], ReadError);
    var behind := s.(host := Idle, log := [CrashLine(setup.runtime, [ROW_0])]);
    assert Apply(setup, s, ReadFails) == behind;
    hide *;
    t := OneBehindMisattributes(setup, behind);
  }

  /** A debug print that parses as a result is logged as row 0's success before the handler was ever called. */
  lemma SpoofMisattributes(setup: Setup) returns (t: Session)
    requires !setup.quiet
    ensures Reachable(setup, t) && !Attributed(setup, t)
    ensures t.sent == [[ROW_0]] && t.calls == [] && |t.log| == 1 && t.log[0].outcomes == [Success(0, map[], 0)]
  {
    var s := SendRowZero(setup);
    hide Reachable;
    var c := Call([ROW_0], [Returned(map[])]);
    var spoof := Protocol(Envelope(setup.runtime.mode, c));
    ReachStep(setup, s, Say(spoof));
    var said := s.(stdout := [spoof]);
    assert Apply(setup, s, Say(spoof)) == said;
    ReachStep(setup, said, ReadLine);
    EmptyAnswer(setup.runtime, c, ROW_0);
    t := s.(host := Idle, log := [FromOutcomes([Success(0, map[], 0)])]);
    assert Apply(setup, said, ReadLine) == t;
    assert t.log[0].outcomes[0] in t.log[0].outcomes && t.log[0].outcomes[0].Success?;
  }

  /** Attribution holds in every run exactly when stdout is text, carries no foreign message, and can be read. */
  lemma AttributedIffClean(setup: Setup)
    ensures (forall s :: Reachable(setup, s) ==> Attributed(setup, s)) <==> setup.Clean()
  {
    if setup.Clean() {
      forall s | Reachable(setup, s) ensures Attributed(setup, s) { CleanIsAttributed(setup, s); }
    } else if !setup.utf8 {
      var s := GarbageMisattributes(setup);
    } else if !setup.quiet {
      var s := SpoofMisattributes(setup);
    } else {
      var s := FailedReadMisattributes(setup);
    }
  }
}
