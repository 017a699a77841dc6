/**
 The host's end of a worker's stdout (crates/rowforge-core/src/worker.rs):
 skipping noise, and aligning a batch reply with the rows it answers.
 */
module Worker {
  import opened Base
  import opened Protocol

  /** One line of stdout. `Garbage` is not valid UTF-8, so reading it is an error. */
  datatype Line = Blank | Noise | Garbage | Protocol(msg: Inbound)

  predicate Skipped(line: Line) { line.Blank? || line.Noise? }

  /** Index of the first line that is neither blank nor noise, or the length. */
  function FirstReply(lines: seq<Line>): (k: nat)
    ensures k <= |lines|
    ensures k < |lines| ==> !Skipped(lines[k])
    ensures forall i :: 0 <= i < k ==> Skipped(lines[i])
  {
    if lines == [] || !Skipped(lines[0]) then 0 else 1 + FirstReply(lines[1..])
  }

  function ReplyFrom(lines: seq<Line>): Reply {
    var k := FirstReply(lines);
    if k == |lines| then Eof
    else match lines[k]
      case Protocol(msg) => Message(msg)
      case _ => ReadError
  }

  lemma {:induction false} SkippedPrefix(lines: seq<Line>, i: nat)
    requires i <= |lines| && forall j :: 0 <= j < i ==> Skipped(lines[j])
    ensures FirstReply(lines) == i + FirstReply(lines[i..])
  {
    if i > 0 {
      SkippedPrefix(lines[1..], i - 1);
      assert lines[1..][i - 1..] == lines[i..];
    }
  }

  /** Behind any number of blank and noise lines, the next line decides; behind nothing but these, the end. */
  lemma WhatIsRead(lines: seq<Line>, k: nat)
    requires k <= |lines| && forall i :: 0 <= i < k ==> lines[i].Blank? || lines[i].Noise?
    ensures k == |lines| ==> ReplyFrom(lines) == Eof
    ensures k < |lines| && lines[k].Garbage? ==> ReplyFrom(lines) == ReadError
    ensures k < |lines| && lines[k].Protocol? ==> ReplyFrom(lines) == Message(lines[k].msg)
  {
    SkippedPrefix(lines, k);
  }

  class Worker {
    /** The lines still to be read before stdout closes. */
    var stdout: seq<Line>

    /** `recv`: the next protocol message, a closed stdout or a read error; noise is passed over. */
    method Recv() returns (r: Reply)
      modifies this
      ensures r == ReplyFrom(old(stdout))
      ensures stdout == old(stdout)[Min(FirstReply(old(stdout)) + 1, |old(stdout)|)..]
    {
      ghost var i := 0;
      while true
        invariant i <= |old(stdout)| && stdout == old(stdout)[i..]
        invariant forall j :: 0 <= j < i ==> Skipped(old(stdout)[j])
        decreases |stdout|
      {
        SkippedPrefix(old(stdout), i);
        if |stdout| == 0 { return Eof; }
        var line := stdout[0];
        stdout := stdout[1..];
        match line {
          case Blank => i := i + 1; continue;
          case Protocol(msg) => return Message(msg);
          case Noise => i := i + 1;
          case Garbage => return ReadError;
        }
      }
    }

    /** `recv_batch_result`; None stands for its error return, which the caller turns into crashes. */
    method RecvBatchResult(expectedSeqs: seq<nat>, idempotent: bool) returns (outcomes: Option<seq<RowOutcome>>)
      modifies this
      ensures stdout == old(stdout)[Min(FirstReply(old(stdout)) + 1, |old(stdout)|)..]
      ensures outcomes.None? <==> !ReplyFrom(old(stdout)).Message?
      ensures BatchReplyOutcomes(expectedSeqs, idempotent, ReplyFrom(old(stdout)))
        == if outcomes.Some? then outcomes.value else CrashAll(expectedSeqs, idempotent)
    {
      var r := Recv();
      if !r.Message? { return None; }
      match r.msg {
        case BatchResult(results) =>
          if |results| != |expectedSeqs| { return Some(SynthesizeBatchProtocolError(expectedSeqs)); }
          var aligned: seq<RowOutcome> := [];
          for i := 0 to |results|
            invariant |aligned| == i
            invariant forall k :: 0 <= k < i ==> aligned[k] == EntryOutcome(expectedSeqs[k], results[k])
          {
            match results[i] {
              case EntryResult(data) => aligned := aligned + [Success(expectedSeqs[i], data, 0)];
              case EntryError(code, message, detail) =>
                aligned := aligned + [Error(expectedSeqs[i], code, message, 0, detail)];
            }
          }
          return Some(aligned);
        case _ => return Some(SynthesizeBatchProtocolError(expectedSeqs));
      }
    }
  }
}
