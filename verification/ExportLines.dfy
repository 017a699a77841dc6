/**
 What the lines of the exported files say when they are read: the row's
 number, and column by column what was logged for the row.
 */
module ExportLines {
  import opened Base
  import opened Protocol
  import opened Resolution
  import opened ResolutionLaws
  import opened Export
  import opened Text

  // ------------------------------------------------------------------
  // How a line reads
  // ------------------------------------------------------------------

  /** The cell is the value under the key as text, or empty when there is none. */
  ghost predicate Shows(cell: string, data: Data, key: string) {
    if key in data then
      match data[key]
      case Str(text) => cell == text
      case Null => cell == ""
      case Other(text) => cell == text
    else cell == ""
  }

  ghost predicate ShowsAll(cells: seq<string>, cols: seq<string>, data: Data) {
    |cells| == |cols| && forall i :: 0 <= i < |cols| ==> Shows(cells[i], data, cols[i])
  }

  /** A line of success.csv: the row's number in digits, and the values. */
  ghost predicate ReadsSuccess(line: seq<string>, s: nat, cols: seq<string>, data: Data) {
    |line| == 1 + |cols| && Numeral(line[0], s) && ShowsAll(line[1..], cols, data)
  }

  /** A line of failed.csv: the row's number in digits, code, message, and the values. */
  ghost predicate ReadsFailure(
    line: seq<string>, s: nat, cols: seq<string>, code: string, message: string, data: Data)
  {
    && |line| == 3 + |cols| && Numeral(line[0], s) && line[1] == code && line[2] == message
    && ShowsAll(line[3..], cols, data)
  }

  /** What came with an outcome beside code and message. */
  function Values(o: RowOutcome): Data {
    match o
    case Success(_, data, _) => data
    case Error(_, _, _, _, Some(data)) => data
    case Error(_, _, _, _, None) => map[]
    case Crash(_, _, _) => map[]
  }

  ghost predicate NamesCrash(message: string, workerId: nat, crashAtSeq: nat) {
    exists a, b :: Numeral(a, workerId) && Numeral(b, crashAtSeq) && message == "worker " + a + " crashed at seq " + b
  }

  /** Every key of the data has a column, the reserved names apart. */
  ghost predicate Covers(cols: seq<string>, data: Data, reserved: set<string>) {
    forall key :: key in data && key !in reserved ==> key in cols
  }

  // ------------------------------------------------------------------
  // The lines read so
  // ------------------------------------------------------------------

  lemma AnswerShows(o: RowOutcome, key: string)
    ensures Shows(Answer(o, key), Values(o), key)
  {
  }

  lemma AnswersShow(o: RowOutcome, cols: seq<string>)
    ensures ShowsAll(Map(AnswerTo(o), cols), cols, Values(o))
  {
    hide Shows, Answer, Values;
    forall i | 0 <= i < |cols| ensures Shows(Answer(o, cols[i]), Values(o), cols[i]) { AnswerShows(o, cols[i]); }
  }

  lemma BlanksShow(cols: seq<string>)
    ensures ShowsAll(Map(Blank(), cols), cols, map[])
  {
  }

  lemma OneThen(x: string, cells: seq<string>)
    ensures |[x] + cells| == 1 + |cells| && ([x] + cells)[0] == x && ([x] + cells)[1..] == cells
  {
  }

  lemma ThreeThen(x: string, y: string, z: string, cells: seq<string>)
    ensures var line := [x, y, z] + cells;
      |line| == 3 + |cells| && line[0] == x && line[1] == y && line[2] == z && line[3..] == cells
  {
  }

  /** A line of success.csv reads as the row's number and what its first success answered. */
  lemma SuccessLineReads(n: nat, events: seq<Event>, s: nat)
    requires Succeeded(events, s)
    ensures var m, t := ResolutionOf(n, events), Trace(events, s);
      var cols, k := Sorted(SuccessKeys(m)), FirstSuccess(t);
      && k < |t| && t[k].outcome.Success?
      && ReadsSuccess(SuccessLine(m, cols)(s), s, cols, Values(t[k].outcome))
      && Covers(cols, Values(t[k].outcome), {"seqid"})
  {
    SuccessLineIsAnswer(n, events, s);
    var cols := Sorted(SuccessKeys(ResolutionOf(n, events)));
    var t := Trace(events, s);
    var k := FirstSuccess(t);
    var o := t[k].outcome;
    hide *;
    DecimalIsNumeral(s);
    AnswersShow(o, cols);
    OneThen(Decimal(s), Map(AnswerTo(o), cols));
    ReadSuccess([Decimal(s)] + Map(AnswerTo(o), cols), s, cols, Values(o));
    AnswersCovered(n, events, s);
  }

  lemma ReadSuccess(line: seq<string>, s: nat, cols: seq<string>, data: Data)
    requires |line| > 0 && Numeral(line[0], s) && ShowsAll(line[1..], cols, data)
    ensures ReadsSuccess(line, s, cols, data)
  {
  }

  lemma ReadFailure(line: seq<string>, s: nat, cols: seq<string>, code: string, message: string, data: Data)
    requires |line| > 2 && Numeral(line[0], s) && line[1] == code && line[2] == message
    requires ShowsAll(line[3..], cols, data)
    ensures ReadsFailure(line, s, cols, code, message, data)
  {
  }

  lemma AnswersCovered(n: nat, events: seq<Event>, s: nat)
    requires var t := Trace(events, s); FirstSuccess(t) < |t|
    ensures var t := Trace(events, s);
      Covers(Sorted(SuccessKeys(ResolutionOf(n, events))), Values(t[FirstSuccess(t)].outcome), {"seqid"})
  {
    var o := Trace(events, s)[FirstSuccess(Trace(events, s))].outcome;
    assert DataOf(o) == Values(o);
    hide Sorted, SuccessKeys, ResolutionOf, Trace, DataOf, Values, FirstSuccess;
    forall key | key in Values(o) && key !in {"seqid"} ensures key in Sorted(SuccessKeys(ResolutionOf(n, events))) {
      EveryAnswerHasItsColumn(n, events, s, key);
    }
  }

  lemma DetailsCovered(n: nat, events: seq<Event>, s: nat)
    requires Trace(events, s) != [] && !Succeeded(events, s)
    ensures var t := Trace(events, s);
      Covers(Sorted(FailureKeys(ResolutionOf(n, events))), Values(t[|t| - 1].outcome),
             {"seqid", "errcode", "errmessage"})
  {
    var o, reserved := Trace(events, s)[|Trace(events, s)| - 1].outcome, FAILURE_RESERVED;
    assert DataOf(o) == Values(o);
    hide Sorted, FailureKeys, ResolutionOf, Trace, DataOf, Values, Succeeded;
    forall key | key in Values(o) && key !in reserved ensures key in Sorted(FailureKeys(ResolutionOf(n, events))) {
      EveryDetailHasItsColumn(n, events, s, key);
    }
  }

  lemma CrashIsNamed(workerId: nat, crashAtSeq: nat)
    ensures NamesCrash(CrashMessage(workerId, crashAtSeq), workerId, crashAtSeq)
  {
    DecimalIsNumeral(workerId);
    DecimalIsNumeral(crashAtSeq);
    hide Numeral, Decimal;
  }

  /** How the verdict on a row that never succeeded reads. */
  ghost predicate ReadsVerdict(line: seq<string>, s: nat, cols: seq<string>, t: seq<Event>) {
    if t == [] then
      ReadsFailure(line, s, cols, "NEVER_ATTEMPTED",
                   "row never reached a worker (was not sampled or never dispatched)", map[])
    else match t[|t| - 1].outcome
      case Success(_, _, _) => false
      case Error(_, code, message, _, _) => ReadsFailure(line, s, cols, code, message, Values(t[|t| - 1].outcome))
      case Crash(_, w, at) =>
        |line| > 2 && NamesCrash(line[2], w, at) && ReadsFailure(line, s, cols, "WORKER_CRASH", line[2], map[])
  }

  lemma VerdictReads(s: nat, t: seq<Event>, cols: seq<string>)
    requires t != [] ==> !t[|t| - 1].outcome.Success?
    ensures ReadsVerdict(Verdict(s, t, cols), s, cols, t)
  {
    var line := Verdict(s, t, cols);
    DecimalIsNumeral(s);
    if t == [] {
      BlanksShow(cols);
      ThreeThen(Decimal(s), NEVER_ATTEMPTED, NEVER_ATTEMPTED_MESSAGE, Map(Blank(), cols));
      hide Numeral, Decimal, Map, ShowsAll, Blank;
    } else {
      var o := t[|t| - 1].outcome;
      AnswersShow(o, cols);
      if o.Crash? { CrashIsNamed(o.workerId, o.crashAtSeq); }
      ThreeThen(Decimal(s), if o.Error? then o.code else ERR_WORKER_CRASH, MessageOf(o), Map(AnswerTo(o), cols));
      hide Numeral, Decimal, Map, ShowsAll, AnswerTo, NamesCrash, CrashMessage;
    }
  }

  /** A line of failed.csv reads as the row's last failure, or says that the row was never attempted. */
  lemma FailedLineReads(n: nat, events: seq<Event>, s: nat)
    requires s in Rows(n, events) && !Succeeded(events, s)
    ensures var m, t := ResolutionOf(n, events), Trace(events, s);
      var cols := Sorted(FailureKeys(m));
      && ReadsVerdict(FailedLine(m, cols)(s), s, cols, t)
      && (t != [] ==> Covers(cols, Values(t[|t| - 1].outcome), {"seqid", "errcode", "errmessage"}))
  {
    hide *;
    FailedLineIsLast(n, events, s);
    var t := Trace(events, s);
    VerdictReads(s, t, Sorted(FailureKeys(ResolutionOf(n, events))));
    if t != [] { DetailsCovered(n, events, s); }
  }
}
