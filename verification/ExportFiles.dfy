/**
 The JSONL files, what they say compared with the CSV files, and the export
 entry point with its strict-completeness gate (crates/rowforge-core/src/export.rs).
 */
module ExportFiles {
  import opened Base
  import opened Protocol
  import opened Order
  import opened Resolution
  import opened ResolutionLaws
  import opened Export
  import opened ExportLines
  import Text

  /** A JSON object with its keys in the order written. */
  type Object = seq<(string, Json)>

  // ------------------------------------------------------------------
  // The JSONL writers
  // ------------------------------------------------------------------

  /** A record's value for a key: its cell as a string, null when the record has no such header. */
  function Value(record: OutcomeRecord, key: string): Json {
    var i := Position(record.headers, key);
    if i < |record.headers| && i < |record.raw| then Str(record.raw[i]) else Null
  }

  function FieldOf(record: OutcomeRecord): string -> (string, Json) { (key: string) => (key, Value(record, key)) }

  function NoValue(): string -> (string, Json) { (key: string) => (key, Null) }

  /** One line of success.jsonl, as a function of the row number. */
  function SuccessObject(m: map<nat, PerSeq>, keys: seq<string>): nat -> Object {
    (s: nat) =>
      if s in m && m[s].canonicalSuccess.Some? then
        [("seqid", Other(Text.Decimal(s)))] + Map(FieldOf(m[s].canonicalSuccess.value), keys)
      else []
  }

  /** One line of failed.jsonl, as a function of the row number. */
  function FailedObject(m: map<nat, PerSeq>, keys: seq<string>): nat -> Object {
    (s: nat) =>
      if s in m && m[s].state == NeverAttempted then
        [("seqid", Other(Text.Decimal(s))), ("errcode", Str(NEVER_ATTEMPTED)),
         ("errmessage", Str(NEVER_ATTEMPTED_MESSAGE))] + Map(NoValue(), keys)
      else if s in m && m[s].latestFailure.Some? then
        var r := m[s].latestFailure.value;
        [("seqid", Other(Text.Decimal(s))), ("errcode", Value(r, "errcode")), ("errmessage", Value(r, "errmessage"))]
        + Map(FieldOf(r), keys)
      else []
  }

  method Fields(record: OutcomeRecord, keys: seq<string>) returns (fields: Object)
    ensures fields == Map(FieldOf(record), keys)
  {
    fields := [];
    for j := 0 to |keys|
      invariant fields == Map(FieldOf(record), keys[..j])
    {
      fields := fields + [(keys[j], Value(record, keys[j]))];
    }
  }

  method WriteSuccessJsonl(m: map<nat, PerSeq>) returns (keys: seq<string>, lines: seq<Object>)
    ensures keys == Text.Sorted(SuccessKeys(m))
    ensures lines == Map(SuccessObject(m, keys), SuccessRows(m))
  {
    hide Within, Value, Ascending, SuccessKeys, Map, Text.Sorted, Text.Decimal;
    var found := DiscoverSuccessKeys(m);
    keys, lines := Text.Sorted(found), [];
    var order := Ascending(m.Keys);
    NoLines(SuccessObject(m, keys), WithSuccess(m));
    for i := 0 to |order|
      invariant lines == Map(SuccessObject(m, keys), Within(order[..i], WithSuccess(m)))
    {
      LinesSnoc(SuccessObject(m, keys), order[..i], order[i], WithSuccess(m));
      assert order[..i + 1] == order[..i] + [order[i]];
      var p := m[order[i]];
      if p.canonicalSuccess.Some? {
        var fields := Fields(p.canonicalSuccess.value, keys);
        lines := lines + [[("seqid", Other(Text.Decimal(order[i])))] + fields];
      }
    }
    assert order[..|order|] == order;
    WithinAll(m.Keys, WithSuccess(m));
  }

  /** The object for a row that is not resolved. */
  method FailedFields(m: map<nat, PerSeq>, s: nat, keys: seq<string>) returns (line: Option<Object>)
    requires s in m
    ensures line == if s in Unresolved(m) then Some(FailedObject(m, keys)(s)) else None
  {
    hide Value, Map, Text.Decimal;
    var p := m[s];
    match p.state {
      case Resolved => line := None;
      case NeverAttempted =>
        line := Some([("seqid", Other(Text.Decimal(s))), ("errcode", Str(NEVER_ATTEMPTED)),
                      ("errmessage", Str(NEVER_ATTEMPTED_MESSAGE))] + Map(NoValue(), keys));
      case _ =>
        if p.latestFailure.None? { return None; }
        var r := p.latestFailure.value;
        var fields := Fields(r, keys);
        line := Some([("seqid", Other(Text.Decimal(s))), ("errcode", Value(r, "errcode")),
                      ("errmessage", Value(r, "errmessage"))] + fields);
    }
  }

  method WriteFailedJsonl(m: map<nat, PerSeq>) returns (keys: seq<string>, lines: seq<Object>)
    ensures keys == Text.Sorted(FailureKeys(m))
    ensures lines == Map(FailedObject(m, keys), FailedRows(m))
  {
    hide Within, Ascending, FailureKeys, Map, Text.Sorted, FailedObject, Unresolved;
    var found := DiscoverFailureDataKeys(m);
    keys, lines := Text.Sorted(found), [];
    var order := Ascending(m.Keys);
    NoLines(FailedObject(m, keys), Unresolved(m));
    for i := 0 to |order|
      invariant lines == Map(FailedObject(m, keys), Within(order[..i], Unresolved(m)))
    {
      LinesSnoc(FailedObject(m, keys), order[..i], order[i], Unresolved(m));
      assert order[..i + 1] == order[..i] + [order[i]];
      var line := FailedFields(m, order[i], keys);
      if line.Some? { lines := lines + [line.value]; }
    }
    assert order[..|order|] == order;
    UnresolvedInside(m);
    WithinAll(m.Keys, Unresolved(m));
  }

  // ------------------------------------------------------------------
  // The two formats compared
  // ------------------------------------------------------------------

  /** An object as a CSV record would have it. */
  function AsCells(line: Object): seq<string> { Map((f: (string, Json)) => CsvCell(f.1), line) }

  function Names(line: Object): seq<string> { Map((f: (string, Json)) => f.0, line) }

  lemma FieldsAsCells(record: OutcomeRecord, keys: seq<string>)
    ensures AsCells(Map(FieldOf(record), keys)) == Map(CellOf(record), keys)
    ensures Names(Map(FieldOf(record), keys)) == keys
  {
    hide Position;
  }

  lemma NoFieldsAsCells(keys: seq<string>)
    ensures AsCells(Map(NoValue(), keys)) == Map(Blank(), keys) && Names(Map(NoValue(), keys)) == keys
  {
  }

  lemma OneAsCells(a: (string, Json), rest: Object)
    ensures AsCells([a] + rest) == [CsvCell(a.1)] + AsCells(rest) && Names([a] + rest) == [a.0] + Names(rest)
  {
  }

  lemma ThreeAsCells(a: (string, Json), b: (string, Json), c: (string, Json), rest: Object)
    ensures AsCells([a, b, c] + rest) == [CsvCell(a.1), CsvCell(b.1), CsvCell(c.1)] + AsCells(rest)
    ensures Names([a, b, c] + rest) == [a.0, b.0, c.0] + Names(rest)
  {
  }

  lemma ValueAsCell(record: OutcomeRecord, key: string)
    ensures CsvCell(Value(record, key)) == Cell(record, key)
  {
    hide Position;
  }

  lemma SuccessAsCsv(m: map<nat, PerSeq>, keys: seq<string>, s: nat)
    requires s in m && m[s].canonicalSuccess.Some?
    ensures AsCells(SuccessObject(m, keys)(s)) == SuccessLine(m, keys)(s)
    ensures Names(SuccessObject(m, keys)(s)) == ["seqid"] + keys
  {
    var r := m[s].canonicalSuccess.value;
    FieldsAsCells(r, keys);
    OneAsCells(("seqid", Other(Text.Decimal(s))), Map(FieldOf(r), keys));
    hide AsCells, Names, Map, FieldOf, CellOf, Text.Decimal;
  }

  lemma FailureAsCsv(m: map<nat, PerSeq>, keys: seq<string>, s: nat)
    requires s in m && m[s].state != NeverAttempted && m[s].latestFailure.Some?
    ensures AsCells(FailedObject(m, keys)(s)) == FailedLine(m, keys)(s)
    ensures Names(FailedObject(m, keys)(s)) == ["seqid", "errcode", "errmessage"] + keys
  {
    var r := m[s].latestFailure.value;
    FieldsAsCells(r, keys);
    ThreeAsCells(("seqid", Other(Text.Decimal(s))), ("errcode", Value(r, "errcode")),
                 ("errmessage", Value(r, "errmessage")), Map(FieldOf(r), keys));
    ValueAsCell(r, "errcode");
    ValueAsCell(r, "errmessage");
    hide AsCells, Names, Map, FieldOf, CellOf, Text.Decimal, Value, Cell;
  }

  lemma UntouchedAsCsv(m: map<nat, PerSeq>, keys: seq<string>, s: nat)
    requires s in m && m[s].state == NeverAttempted
    ensures AsCells(FailedObject(m, keys)(s)) == FailedLine(m, keys)(s)
    ensures Names(FailedObject(m, keys)(s)) == ["seqid", "errcode", "errmessage"] + keys
  {
    NoFieldsAsCells(keys);
    ThreeAsCells(("seqid", Other(Text.Decimal(s))), ("errcode", Str(NEVER_ATTEMPTED)),
                 ("errmessage", Str(NEVER_ATTEMPTED_MESSAGE)), Map(NoValue(), keys));
    hide AsCells, Names, Map, NoValue, Blank, Text.Decimal;
  }

  /** Reading null as the empty cell, each JSONL line is the CSV line of the same row, under the same names. */
  lemma JsonlSaysAsCsv(m: map<nat, PerSeq>, keys: seq<string>, s: nat)
    ensures s in WithSuccess(m) ==>
      && AsCells(SuccessObject(m, keys)(s)) == SuccessLine(m, keys)(s)
      && Names(SuccessObject(m, keys)(s)) == ["seqid"] + keys
    ensures s in Unresolved(m) ==>
      && AsCells(FailedObject(m, keys)(s)) == FailedLine(m, keys)(s)
      && Names(FailedObject(m, keys)(s)) == ["seqid", "errcode", "errmessage"] + keys
  {
    hide SuccessObject, SuccessLine, FailedObject, FailedLine, AsCells, Names;
    if s in WithSuccess(m) { SuccessAsCsv(m, keys, s); }
    if s in Unresolved(m) {
      if m[s].state == NeverAttempted { UntouchedAsCsv(m, keys, s); } else { FailureAsCsv(m, keys, s); }
    }
  }

  /** What JSONL tells and CSV does not: a key the handler left out is null, any other value is a string. */
  lemma NullIffLeftOut(e: Event, key: string)
    requires !Reserved(e.outcome, key)
    ensures Value(RecordOf(e), key) == if key in DataOf(e.outcome) then Str(CsvCell(DataOf(e.outcome)[key])) else Null
  {
    RecordCell(e, key);
    assert |RecordOf(e).headers| == |RecordOf(e).raw| by { hide Text.Sorted, Text.Decimal; }
    hide RecordOf, DataOf, Position, Reserved;
  }

  // ------------------------------------------------------------------
  // How the objects read
  // ------------------------------------------------------------------

  /** Under the key there is null when the handler left it out, and otherwise its value as a string. */
  ghost predicate Holds(field: (string, Json), data: Data, key: string) {
    field.0 == key &&
    if key in data then
      match data[key]
      case Str(text) => field.1 == Str(text)
      case Null => field.1 == Str("")
      case Other(text) => field.1 == Str(text)
    else field.1 == Null
  }

  ghost predicate HoldsAll(fields: Object, keys: seq<string>, data: Data) {
    |fields| == |keys| && forall i :: 0 <= i < |keys| ==> Holds(fields[i], data, keys[i])
  }

  /** The row's number, as a JSON number. */
  ghost predicate IsSeqId(field: (string, Json), s: nat) {
    field.0 == "seqid" && field.1.Other? && Text.Numeral(field.1.text, s)
  }

  ghost predicate ReadsSuccessObject(line: Object, s: nat, keys: seq<string>, data: Data) {
    |line| == 1 + |keys| && IsSeqId(line[0], s) && HoldsAll(line[1..], keys, data)
  }

  ghost predicate ReadsFailedObject(
    line: Object, s: nat, keys: seq<string>, code: string, message: string, data: Data)
  {
    && |line| == 3 + |keys| && IsSeqId(line[0], s)
    && line[1] == ("errcode", Str(code)) && line[2] == ("errmessage", Str(message))
    && HoldsAll(line[3..], keys, data)
  }

  lemma FieldIs(record: OutcomeRecord, key: string)
    ensures FieldOf(record)(key) == (key, Value(record, key))
  {
  }

  lemma ThisHolds(field: (string, Json), data: Data, key: string)
    requires field == (key, if key in data then Str(CsvCell(data[key])) else Null)
    ensures Holds(field, data, key)
  {
  }

  lemma SameData(o: RowOutcome)
    ensures DataOf(o) == Values(o)
  {
  }

  lemma FieldHolds(e: Event, key: string)
    requires !Reserved(e.outcome, key)
    ensures Holds(FieldOf(RecordOf(e))(key), Values(e.outcome), key)
  {
    hide *;
    NullIffLeftOut(e, key);
    SameData(e.outcome);
    FieldIs(RecordOf(e), key);
    ThisHolds(FieldOf(RecordOf(e))(key), Values(e.outcome), key);
  }

  lemma FieldsHold(e: Event, keys: seq<string>)
    requires forall k :: k in keys ==> !Reserved(e.outcome, k)
    ensures HoldsAll(Map(FieldOf(RecordOf(e)), keys), keys, Values(e.outcome))
  {
    hide Holds, Reserved, FieldOf, RecordOf, Values;
    forall i | 0 <= i < |keys| ensures Holds(FieldOf(RecordOf(e))(keys[i]), Values(e.outcome), keys[i]) {
      assert keys[i] in keys;
      FieldHolds(e, keys[i]);
    }
  }

  lemma SuccessObjectIs(n: nat, events: seq<Event>, s: nat)
    requires Succeeded(events, s)
    ensures var m, t := ResolutionOf(n, events), Trace(events, s);
      var keys, k := Text.Sorted(SuccessKeys(m)), FirstSuccess(t);
      && k < |t| && t[k].outcome.Success?
      && SuccessObject(m, keys)(s) == [("seqid", Other(Text.Decimal(s)))] + Map(FieldOf(RecordOf(t[k])), keys)
  {
    SucceededRow(n, events, s);
    RecordsFollowStates(n, events, s);
    hide ResolutionOf, Trace, SuccessKeys, Text.Sorted, Text.Decimal, RecordOf, FieldOf, FirstSuccess, Map;
  }

  lemma OneField(s: nat, rest: Object)
    ensures var line := [("seqid", Other(Text.Decimal(s)))] + rest;
      |line| == 1 + |rest| && IsSeqId(line[0], s) && line[1..] == rest
  {
    Text.DecimalIsNumeral(s);
    hide Text.Decimal, Text.Numeral;
  }

  lemma ThreeFields(s: nat, code: Json, message: Json, rest: Object)
    ensures var line := [("seqid", Other(Text.Decimal(s))), ("errcode", code), ("errmessage", message)] + rest;
      && |line| == 3 + |rest| && IsSeqId(line[0], s)
      && line[1] == ("errcode", code) && line[2] == ("errmessage", message) && line[3..] == rest
  {
    Text.DecimalIsNumeral(s);
    hide Text.Decimal, Text.Numeral;
  }

  lemma ReadSuccessObject(line: Object, s: nat, keys: seq<string>, data: Data)
    requires |line| > 0 && IsSeqId(line[0], s) && HoldsAll(line[1..], keys, data)
    ensures ReadsSuccessObject(line, s, keys, data)
  {
  }

  lemma ReadFailedObject(line: Object, s: nat, keys: seq<string>, code: string, message: string, data: Data)
    requires |line| > 2 && IsSeqId(line[0], s) && line[1] == ("errcode", Str(code))
    requires line[2] == ("errmessage", Str(message)) && HoldsAll(line[3..], keys, data)
    ensures ReadsFailedObject(line, s, keys, code, message, data)
  {
  }

  /** A line of success.jsonl reads as the row's number and what its first success answered. */
  lemma SuccessObjectReads(n: nat, events: seq<Event>, s: nat)
    requires Succeeded(events, s)
    ensures var m, t := ResolutionOf(n, events), Trace(events, s);
      var keys, k := Text.Sorted(SuccessKeys(m)), FirstSuccess(t);
      k < |t| && ReadsSuccessObject(SuccessObject(m, keys)(s), s, keys, Values(t[k].outcome))
  {
    SuccessObjectIs(n, events, s);
    var m, t := ResolutionOf(n, events), Trace(events, s);
    var keys, e := Text.Sorted(SuccessKeys(m)), t[FirstSuccess(t)];
    forall c | c in keys ensures !Reserved(e.outcome, c) {
      SuccessColumns(m, c);
      assert e.outcome.Success?;
      hide ResolutionOf, SuccessKeys, Text.Sorted, Trace, FirstSuccess, WithSuccess;
    }
    hide *;
    FieldsHold(e, keys);
    OneField(s, Map(FieldOf(RecordOf(e)), keys));
    ReadSuccessObject(SuccessObject(m, keys)(s), s, keys, Values(e.outcome));
  }

  lemma FixedFields(e: Event)
    requires !e.outcome.Success?
    ensures Value(RecordOf(e), "errcode") == Str(if e.outcome.Error? then e.outcome.code else "WORKER_CRASH")
    ensures Value(RecordOf(e), "errmessage") == Str(MessageOf(e.outcome))
  {
    FixedCells(e);
    assert |RecordOf(e).headers| == |RecordOf(e).raw| by { hide Text.Sorted, Text.Decimal; }
    hide RecordOf, Position, MessageOf;
  }

  lemma FailedObjectIs(n: nat, events: seq<Event>, s: nat)
    requires s in Rows(n, events) && !Succeeded(events, s)
    ensures var m, t := ResolutionOf(n, events), Trace(events, s);
      var keys := Text.Sorted(FailureKeys(m));
      var seqid := ("seqid", Other(Text.Decimal(s)));
      if t == [] then
        FailedObject(m, keys)(s)
        == [seqid, ("errcode", Str(NEVER_ATTEMPTED)), ("errmessage", Str(NEVER_ATTEMPTED_MESSAGE))]
           + Map(NoValue(), keys)
      else
        var e := t[|t| - 1];
        var r := RecordOf(e);
        && !e.outcome.Success?
        && FailedObject(m, keys)(s)
           == [seqid, ("errcode", Value(r, "errcode")), ("errmessage", Value(r, "errmessage"))] + Map(FieldOf(r), keys)
  {
    UnresolvedRow(n, events, s);
    RecordsFollowStates(n, events, s);
    hide ResolutionOf, Trace, FailureKeys, Text.Sorted, Text.Decimal, RecordOf, FieldOf, FirstSuccess, Map, Value;
    hide Rows, Succeeded, NoValue;
  }

  lemma NullsHold(keys: seq<string>)
    ensures HoldsAll(Map(NoValue(), keys), keys, map[])
  {
  }

  /** A line of failed.jsonl reads as the row's last failure, or says that the row was never attempted. */
  lemma FailedObjectReads(n: nat, events: seq<Event>, s: nat)
    requires s in Rows(n, events) && !Succeeded(events, s)
    ensures var m, t := ResolutionOf(n, events), Trace(events, s);
      var keys := Text.Sorted(FailureKeys(m));
      var line := FailedObject(m, keys)(s);
      if t == [] then
        ReadsFailedObject(line, s, keys, "NEVER_ATTEMPTED",
                          "row never reached a worker (was not sampled or never dispatched)", map[])
      else
        var o := t[|t| - 1].outcome;
        !o.Success? && ReadsFailedObject(line, s, keys, if o.Error? then o.code else "WORKER_CRASH",
                                         MessageOf(o), Values(o))
  {
    FailedObjectIs(n, events, s);
    var m, t := ResolutionOf(n, events), Trace(events, s);
    var keys := Text.Sorted(FailureKeys(m));
    var line := FailedObject(m, keys)(s);
    hide *;
    if t == [] {
      NullsHold(keys);
      ThreeFields(s, Str(NEVER_ATTEMPTED), Str(NEVER_ATTEMPTED_MESSAGE), Map(NoValue(), keys));
      ReadFailedObject(line, s, keys, NEVER_ATTEMPTED, NEVER_ATTEMPTED_MESSAGE, map[]);
    } else {
      var e := t[|t| - 1];
      var r := RecordOf(e);
      FixedFields(e);
      forall c | c in keys ensures !Reserved(e.outcome, c) { NotReserved(m, e.outcome, c); }
      FieldsHold(e, keys);
      ThreeFields(s, Value(r, "errcode"), Value(r, "errmessage"), Map(FieldOf(r), keys));
      ReadFailedObject(line, s, keys, if e.outcome.Error? then e.outcome.code else "WORKER_CRASH",
                       MessageOf(e.outcome), Values(e.outcome));
    }
  }

  lemma NotReserved(m: map<nat, PerSeq>, o: RowOutcome, c: string)
    requires c in Text.Sorted(FailureKeys(m))
    ensures !Reserved(o, c)
  {
    FailureColumns(m, c);
    hide Text.Sorted, FailureKeys;
  }

  // ------------------------------------------------------------------
  // The entry point
  // ------------------------------------------------------------------

  datatype Format = Csv | Jsonl | Both

  datatype Table = Table(cols: seq<string>, lines: seq<seq<string>>)

  datatype ExportResult =
    | Exported(csv: Option<(Table, Table)>, jsonl: Option<(seq<Object>, seq<Object>)>,
               successCount: nat, failedCount: nat)
    | Incomplete(unresolved: nat)

  /** Every row has an outcome and no attempt was aborted. */
  ghost predicate FullyProcessed(n: nat, attempts: seq<Attempt>) {
    && (forall s: nat :: s < n ==> Touched(History(attempts), s))
    && forall at :: at in attempts ==> at.state != AttemptState.Aborted
  }

  function CsvFiles(m: map<nat, PerSeq>): (Table, Table) {
    var successCols, failedCols := Text.Sorted(SuccessKeys(m)), Text.Sorted(FailureKeys(m));
    (Table(successCols, Map(SuccessLine(m, successCols), SuccessRows(m))),
     Table(failedCols, Map(FailedLine(m, failedCols), FailedRows(m))))
  }

  function JsonlFiles(m: map<nat, PerSeq>): (seq<Object>, seq<Object>) {
    (Map(SuccessObject(m, Text.Sorted(SuccessKeys(m))), SuccessRows(m)),
     Map(FailedObject(m, Text.Sorted(FailureKeys(m))), FailedRows(m)))
  }

  lemma FileLengths(m: map<nat, PerSeq>)
    ensures |CsvFiles(m).0.lines| == |JsonlFiles(m).0| == |SuccessRows(m)|
    ensures |CsvFiles(m).1.lines| == |JsonlFiles(m).1| == |FailedRows(m)|
  {
  }

  lemma UntouchedCount(n: nat, events: seq<Event>, counts: ResolutionCounts, byCode: map<string, nat>)
    requires CountsSay(n, events, counts, byCode)
    ensures counts.neverAttempted == |Untouched(n, events)|
  {
  }

  /** `export_execution`: refused, or the files of the format asked for and as many lines as reported. */
  method ExportExecution(inputRowCount: nat, attempts: seq<Attempt>, format: Format, requireComplete: bool)
    returns (r: ExportResult)
    ensures r.Incomplete? <==> requireComplete && !FullyProcessed(inputRowCount, attempts)
    ensures r.Exported? ==>
      var m := ResolutionOf(inputRowCount, History(attempts));
      && r.csv == (if format == Jsonl then None else Some(CsvFiles(m)))
      && r.jsonl == (if format == Csv then None else Some(JsonlFiles(m)))
      && r.successCount == |SuccessRows(m)| && r.failedCount == |FailedRows(m)|
    ensures r.Incomplete? ==> r.unresolved == |Untouched(inputRowCount, History(attempts))|
  {
    hide SuccessRows, FailedRows, SuccessKeys, FailureKeys, SuccessLine, FailedLine, SuccessObject, FailedObject;
    hide Text.Sorted, ResolutionOf, InState, History, Touched, Mentioned, UpTo, Ids, Succeeded, CountsSay;
    var m, counts, byCode := ComputeResolution(inputRowCount, attempts);
    UntouchedCount(inputRowCount, History(attempts), counts, byCode);
    hide Untouched;
    var aborted := 0;
    for i := 0 to |attempts|
      invariant aborted > 0 <==> exists at :: at in attempts[..i] && at.state == AttemptState.Aborted
    {
      assert attempts[..i + 1] == attempts[..i] + [attempts[i]];
      if attempts[i].state == AttemptState.Aborted { aborted := aborted + 1; }
    }
    assert attempts[..|attempts|] == attempts;
    ghost var events := History(attempts);
    SomeUntouched(inputRowCount, events);
    ExportIsPartition(inputRowCount, events);
    if requireComplete && !(counts.neverAttempted == 0 && aborted == 0) {
      return Incomplete(counts.neverAttempted);
    }
    var csv, jsonl := None, None;
    if format != Jsonl {
      var successCols, successLines := WriteSuccessCsv(m);
      var failedCols, failedLines := WriteFailedCsv(m);
      csv := Some((Table(successCols, successLines), Table(failedCols, failedLines)));
    }
    if format != Csv {
      var successKeys, successObjects := WriteSuccessJsonl(m);
      var failedKeys, failedObjects := WriteFailedJsonl(m);
      jsonl := Some((successObjects, failedObjects));
    }
    r := Exported(csv, jsonl, counts.resolved,
                  counts.failedLast + counts.crashedLast + counts.cancelledLast
                  + counts.tooLarge + counts.neverAttempted);
  }
}
