/**
 What an export is made of: counts, columns, the success and failed CSV files
 and completeness (crates/rowforge-core/src/export.rs and the end of
 `compute_resolution` in row_resolution.rs).
 */
module Export {
  import opened Base
  import opened Protocol
  import opened Order
  import opened Resolution
  import opened ResolutionLaws
  import Text

  datatype ResolutionCounts = ResolutionCounts(
    resolved: nat, failedLast: nat, crashedLast: nat, cancelledLast: nat, tooLarge: nat, neverAttempted: nat)

  // ------------------------------------------------------------------
  // Counts
  // ------------------------------------------------------------------

  function InState(m: map<nat, PerSeq>, st: ResolutionState): set<nat> { set s | s in m && m[s].state == st }

  function CountsOf(m: map<nat, PerSeq>): ResolutionCounts {
    ResolutionCounts(
      |InState(m, Resolved)|, |InState(m, FailedLast)|, |InState(m, CrashedLast)|,
      |InState(m, CancelledLast)|, |InState(m, TooLarge)|, |InState(m, NeverAttempted)|)
  }

  /** The rows `by_error_code` counts under a code: only those a handler error left failed. */
  function FailedWith(m: map<nat, PerSeq>, code: string): set<nat> {
    set s | s in m && m[s].state == FailedLast
      && m[s].latestFailure.Some? && m[s].latestFailure.value.code == Some(code)
  }

  /** The keys among `keys` that lie in `chosen`, in order. */
  function Within(keys: seq<nat>, chosen: set<nat>): seq<nat> { Filter((s: nat) => s in chosen, keys) }

  lemma WithinSnoc(keys: seq<nat>, k: nat, chosen: set<nat>)
    ensures Within(keys + [k], chosen) == Within(keys, chosen) + if k in chosen then [k] else []
  {
    FilterConcat((s: nat) => s in chosen, keys, [k]);
    assert [k][1..] == [];
  }

  lemma {:induction false} WithinMembers(keys: seq<nat>, chosen: set<nat>)
    requires StrictlyAscending(keys)
    ensures StrictlyAscending(Within(keys, chosen))
    ensures forall k :: k in Within(keys, chosen) <==> k in keys && k in chosen
  {
    if keys != [] {
      var front, last := keys[..|keys| - 1], keys[|keys| - 1];
      WithinMembers(front, chosen);
      WithinSnoc(front, last, chosen);
      assert keys == front + [last];
      var kept := Within(front, chosen);
      hide Within;
      forall i | 0 <= i < |kept| ensures kept[i] < last {
        assert kept[i] in front;
      }
    }
  }

  /** Visiting a map in key order and keeping some rows visits those rows in order. */
  lemma WithinAll(keys: set<nat>, chosen: set<nat>)
    requires chosen <= keys
    ensures Within(Ascending(keys), chosen) == Ascending(chosen)
  {
    WithinMembers(Ascending(keys), chosen);
    AscendingUnique(Within(Ascending(keys), chosen), Ascending(chosen));
  }

  lemma {:induction false} StatesCover(m: map<nat, PerSeq>, keys: seq<nat>)
    requires forall k :: k in keys ==> k in m
    ensures |Within(keys, InState(m, Resolved))| + |Within(keys, InState(m, FailedLast))|
          + |Within(keys, InState(m, CrashedLast))| + |Within(keys, InState(m, CancelledLast))|
          + |Within(keys, InState(m, TooLarge))| + |Within(keys, InState(m, NeverAttempted))| == |keys|
  {
    if keys != [] {
      var front, last := keys[..|keys| - 1], keys[|keys| - 1];
      assert keys == front + [last];
      StatesCover(m, front);
      forall st
        ensures |Within(keys, InState(m, st))|
             == |Within(front, InState(m, st))| + if m[last].state == st then 1 else 0
      {
        WithinSnoc(front, last, InState(m, st));
      }
      hide Within;
    }
  }

  /** Every row of the map is in exactly one count. */
  lemma CountsCover(m: map<nat, PerSeq>)
    ensures |InState(m, Resolved)| + |InState(m, FailedLast)| + |InState(m, CrashedLast)|
          + |InState(m, CancelledLast)| + |InState(m, TooLarge)| + |InState(m, NeverAttempted)| == |m|
  {
    StatesCover(m, Ascending(m.Keys));
    forall st ensures |Within(Ascending(m.Keys), InState(m, st))| == |InState(m, st)| {
      WithinAll(m.Keys, InState(m, st));
    }
    hide Within;
  }

  function CountsOver(m: map<nat, PerSeq>, keys: seq<nat>): ResolutionCounts {
    ResolutionCounts(
      |Within(keys, InState(m, Resolved))|, |Within(keys, InState(m, FailedLast))|,
      |Within(keys, InState(m, CrashedLast))|, |Within(keys, InState(m, CancelledLast))|,
      |Within(keys, InState(m, TooLarge))|, |Within(keys, InState(m, NeverAttempted))|)
  }

  ghost predicate CodesOver(m: map<nat, PerSeq>, keys: seq<nat>, byCode: map<string, nat>) {
    && (forall c :: c in byCode ==> byCode[c] > 0)
    && forall c :: |Within(keys, FailedWith(m, c))| == if c in byCode then byCode[c] else 0
  }

  lemma NothingCounted(m: map<nat, PerSeq>)
    ensures CountsOver(m, []) == ResolutionCounts(0, 0, 0, 0, 0, 0) && CodesOver(m, [], map[])
  {
  }

  lemma CountsSnoc(m: map<nat, PerSeq>, keys: seq<nat>, k: nat, byCode: map<string, nat>, codes: map<string, nat>)
    requires k in m && CodesOver(m, keys, byCode)
    requires codes ==
      if m[k].state == FailedLast && m[k].latestFailure.Some? && m[k].latestFailure.value.code.Some? then
        var c := m[k].latestFailure.value.code.value;
        byCode[c := (if c in byCode then byCode[c] else 0) + 1]
      else byCode
    ensures var a, b := CountsOver(m, keys), CountsOver(m, keys + [k]);
      b == match m[k].state
           case Resolved => a.(resolved := a.resolved + 1)
           case FailedLast => a.(failedLast := a.failedLast + 1)
           case CrashedLast => a.(crashedLast := a.crashedLast + 1)
           case CancelledLast => a.(cancelledLast := a.cancelledLast + 1)
           case TooLarge => a.(tooLarge := a.tooLarge + 1)
           case NeverAttempted => a.(neverAttempted := a.neverAttempted + 1)
    ensures CodesOver(m, keys + [k], codes)
  {
    forall st
      ensures |Within(keys + [k], InState(m, st))|
           == |Within(keys, InState(m, st))| + if m[k].state == st then 1 else 0
    {
      WithinSnoc(keys, k, InState(m, st));
    }
    forall c
      ensures |Within(keys + [k], FailedWith(m, c))|
           == |Within(keys, FailedWith(m, c))| + if k in FailedWith(m, c) then 1 else 0
    {
      WithinSnoc(keys, k, FailedWith(m, c));
    }
    hide Within;
  }

  lemma CountsOfAll(m: map<nat, PerSeq>, byCode: map<string, nat>)
    requires CodesOver(m, Ascending(m.Keys), byCode)
    ensures CountsOver(m, Ascending(m.Keys)) == CountsOf(m)
    ensures forall c :: c in byCode ==> byCode[c] > 0
    ensures forall c :: |FailedWith(m, c)| == if c in byCode then byCode[c] else 0
  {
    var keys := Ascending(m.Keys);
    hide Within, Ascending;
    forall st ensures |Within(keys, InState(m, st))| == |InState(m, st)| { WithinAll(m.Keys, InState(m, st)); }
    forall c ensures |Within(keys, FailedWith(m, c))| == |FailedWith(m, c)| { WithinAll(m.Keys, FailedWith(m, c)); }
  }

  /** The counting loop at the end of `compute_resolution`. */
  method ComputeCounts(m: map<nat, PerSeq>) returns (counts: ResolutionCounts, byCode: map<string, nat>)
    ensures counts == CountsOf(m)
    ensures forall c :: c in byCode ==> byCode[c] > 0
    ensures forall c :: |FailedWith(m, c)| == if c in byCode then byCode[c] else 0
  {
    hide Within, Ascending, InState, FailedWith;
    var keys := Ascending(m.Keys);
    counts, byCode := ResolutionCounts(0, 0, 0, 0, 0, 0), map[];
    NothingCounted(m);
    for i := 0 to |keys|
      invariant counts == CountsOver(m, keys[..i]) && CodesOver(m, keys[..i], byCode)
    {
      hide CountsOver, CodesOver;
      var p := m[keys[i]];
      ghost var was := byCode;
      match p.state {
        case Resolved => counts := counts.(resolved := counts.resolved + 1);
        case FailedLast =>
          counts := counts.(failedLast := counts.failedLast + 1);
          if p.latestFailure.Some? && p.latestFailure.value.code.Some? {
            var c := p.latestFailure.value.code.value;
            byCode := byCode[c := (if c in byCode then byCode[c] else 0) + 1];
          }
        case CrashedLast => counts := counts.(crashedLast := counts.crashedLast + 1);
        case CancelledLast => counts := counts.(cancelledLast := counts.cancelledLast + 1);
        case TooLarge => counts := counts.(tooLarge := counts.tooLarge + 1);
        case NeverAttempted => counts := counts.(neverAttempted := counts.neverAttempted + 1);
      }
      CountsSnoc(m, keys[..i], keys[i], was, byCode);
      assert keys[..i + 1] == keys[..i] + [keys[i]];
    }
    assert keys[..|keys|] == keys;
    CountsOfAll(m, byCode);
  }

  // ------------------------------------------------------------------
  // The counts in terms of what was logged
  // ------------------------------------------------------------------

  /** The rows without a success whose last outcome is of a kind. */
  ghost function Ending(events: seq<Event>, kind: RowOutcome -> bool): set<nat> {
    set s | s in Mentioned(events) && exists o :: Ends(events, s, o) && kind(o)
  }

  ghost function SucceededRows(events: seq<Event>): set<nat> { set s | s in Mentioned(events) && Succeeded(events, s) }

  ghost function Untouched(n: nat, events: seq<Event>): set<nat> { set s | s in UpTo(n) && !Touched(events, s) }

  /** A failure of the handler's own, under this code. */
  function FailsWith(code: string): RowOutcome -> bool { (o: RowOutcome) => EndsFailed(o) && o.code == code }

  lemma EndsUniquely(events: seq<Event>, s: nat)
    requires s in Mentioned(events)
    ensures !Succeeded(events, s) ==> exists o :: Ends(events, s, o)
    ensures forall a, b :: Ends(events, s, a) && Ends(events, s, b) ==> a == b
  {
    TouchedIsMentioned(events, s);
    TraceElements(events, s);
    var t := Trace(events, s);
    var e :| e in events && e.outcome.seqNo == s;
    assert e in t;
    if !Succeeded(events, s) { assert Ends(events, s, t[|t| - 1].outcome); }
  }

  lemma CodeOfLast(n: nat, events: seq<Event>, s: nat, o: RowOutcome)
    requires Ends(events, s, o) && s in ResolutionOf(n, events)
    ensures var p := ResolutionOf(n, events)[s];
      p.latestFailure.Some? && (o.Error? ==> p.latestFailure.value.code == Some(o.code))
  {
    var t := Trace(events, s);
    UnresolvedRow(n, events, s);
    RecordsFollowStates(n, events, s);
    RecordSays(t[|t| - 1]);
    hide *;
  }

  /** Where each row of the map stands, by its own outcomes. */
  lemma RowStands(n: nat, events: seq<Event>, s: nat, code: string)
    ensures var m := ResolutionOf(n, events);
      && (s in InState(m, Resolved) <==> s in SucceededRows(events))
      && (s in InState(m, NeverAttempted) <==> s in Untouched(n, events))
      && (s in InState(m, FailedLast) <==> s in Ending(events, EndsFailed))
      && (s in InState(m, CrashedLast) <==> s in Ending(events, EndsCrashed))
      && (s in InState(m, CancelledLast) <==> s in Ending(events, EndsCancelled))
      && (s in InState(m, TooLarge) <==> s in Ending(events, EndsTooLarge))
      && (s in FailedWith(m, code) <==> s in Ending(events, FailsWith(code)))
  {
    StateIff(n, events, s);
    UntouchedIff(n, events, s);
    TouchedIsMentioned(events, s);
    if s in Mentioned(events) && !Succeeded(events, s) {
      EndsUniquely(events, s);
      var o :| Ends(events, s, o);
      StateByLast(n, events, s, o);
      CodeOfLast(n, events, s, o);
      hide ResolutionOf, Mentioned, Succeeded, Touched, Ends, EndsFailed, EndsCrashed, EndsCancelled, EndsTooLarge;
    } else {
      hide Mentioned, Succeeded, Touched, EndsFailed, EndsCrashed, EndsCancelled, EndsTooLarge, RowSpec;
    }
  }

  /** The counts of an execution: how many rows succeeded, or ended which way, or were never attempted. */
  ghost predicate CountsSay(n: nat, events: seq<Event>, c: ResolutionCounts, byCode: map<string, nat>) {
    && c.resolved == |SucceededRows(events)| && c.neverAttempted == |Untouched(n, events)|
    && c.failedLast == |Ending(events, EndsFailed)| && c.crashedLast == |Ending(events, EndsCrashed)|
    && c.cancelledLast == |Ending(events, EndsCancelled)| && c.tooLarge == |Ending(events, EndsTooLarge)|
    && (forall code :: |Ending(events, FailsWith(code))| == if code in byCode then byCode[code] else 0)
    && forall code :: code in byCode ==> byCode[code] > 0
  }

  lemma SameRows(n: nat, events: seq<Event>)
    ensures var m := ResolutionOf(n, events);
      && InState(m, Resolved) == SucceededRows(events) && InState(m, NeverAttempted) == Untouched(n, events)
      && InState(m, FailedLast) == Ending(events, EndsFailed) && InState(m, CrashedLast) == Ending(events, EndsCrashed)
      && InState(m, CancelledLast) == Ending(events, EndsCancelled)
      && InState(m, TooLarge) == Ending(events, EndsTooLarge)
  {
    hide *;
    var m := ResolutionOf(n, events);
    forall s: nat
      ensures (s in InState(m, Resolved) <==> s in SucceededRows(events))
        && (s in InState(m, NeverAttempted) <==> s in Untouched(n, events))
        && (s in InState(m, FailedLast) <==> s in Ending(events, EndsFailed))
        && (s in InState(m, CrashedLast) <==> s in Ending(events, EndsCrashed))
        && (s in InState(m, CancelledLast) <==> s in Ending(events, EndsCancelled))
        && (s in InState(m, TooLarge) <==> s in Ending(events, EndsTooLarge))
    {
      RowStands(n, events, s, "");
    }
  }

  lemma SaidSo(n: nat, events: seq<Event>, c: ResolutionCounts, byCode: map<string, nat>)
    requires c == CountsOf(ResolutionOf(n, events)) && forall code :: code in byCode ==> byCode[code] > 0
    requires forall code :: |Ending(events, FailsWith(code))| == if code in byCode then byCode[code] else 0
    requires var m := ResolutionOf(n, events);
      && InState(m, Resolved) == SucceededRows(events) && InState(m, NeverAttempted) == Untouched(n, events)
      && InState(m, FailedLast) == Ending(events, EndsFailed) && InState(m, CrashedLast) == Ending(events, EndsCrashed)
      && InState(m, CancelledLast) == Ending(events, EndsCancelled)
      && InState(m, TooLarge) == Ending(events, EndsTooLarge)
    ensures CountsSay(n, events, c, byCode)
  {
    hide ResolutionOf, InState, Ending, SucceededRows, Untouched, FailsWith;
  }

  lemma CountsAreSaid(n: nat, events: seq<Event>, c: ResolutionCounts, byCode: map<string, nat>)
    requires c == CountsOf(ResolutionOf(n, events)) && forall code :: code in byCode ==> byCode[code] > 0
    requires forall code ::
      |FailedWith(ResolutionOf(n, events), code)| == if code in byCode then byCode[code] else 0
    ensures CountsSay(n, events, c, byCode)
  {
    var m := ResolutionOf(n, events);
    hide *;
    forall code ensures FailedWith(m, code) == Ending(events, FailsWith(code)) {
      forall s: nat ensures s in FailedWith(m, code) <==> s in Ending(events, FailsWith(code)) {
        RowStands(n, events, s, code);
      }
    }
    SameRows(n, events);
    SaidSo(n, events, c, byCode);
  }

  /** `compute_resolution`: the walk over the attempts, then the counts. */
  method ComputeResolution(n: nat, attempts: seq<Attempt>)
    returns (m: map<nat, PerSeq>, counts: ResolutionCounts, byCode: map<string, nat>)
    ensures m == ResolutionOf(n, History(attempts)) && counts == CountsOf(m)
    ensures CountsSay(n, History(attempts), counts, byCode)
  {
    var resolver := new Resolver(n);
    var merged, skipped := resolver.WalkAttempts(attempts);
    m := resolver.perSeq;
    hide *;
    counts, byCode := ComputeCounts(m);
    CountsAreSaid(n, History(attempts), counts, byCode);
  }

  // ------------------------------------------------------------------
  // Cells
  // ------------------------------------------------------------------

  /** Index of the first header equal to `key`, or the length. */
  function Position(headers: seq<string>, key: string): (i: nat)
    ensures i <= |headers|
    ensures i < |headers| ==> headers[i] == key
    ensures key !in headers[..i]
    ensures i == |headers| ==> key !in headers
  {
    if headers == [] || headers[0] == key then 0 else 1 + Position(headers[1..], key)
  }

  /** A record's cell for a column, empty when the record has no such header. */
  function Cell(record: OutcomeRecord, key: string): string {
    var i := Position(record.headers, key);
    if i < |record.headers| && i < |record.raw| then record.raw[i] else ""
  }

  function CellOf(record: OutcomeRecord): string -> string { (key: string) => Cell(record, key) }

  function DataOf(o: RowOutcome): Data {
    match o
    case Success(_, data, _) => data
    case Error(_, _, _, _, detail) => (match detail case Some(d) => d case None => map[])
    case Crash(_, _, _) => map[]
  }

  /** What the handler answered for a key, as a cell. */
  function Answer(o: RowOutcome, key: string): string {
    if key in DataOf(o) then CsvCell(DataOf(o)[key]) else ""
  }

  function AnswerTo(o: RowOutcome): string -> string { (key: string) => Answer(o, key) }

  function Blank(): string -> string { (key: string) => "" }

  predicate Reserved(o: RowOutcome, key: string) {
    key == "seqid" || (!o.Success? && (key == "errcode" || key == "errmessage"))
  }

  lemma PrefixedCell(fixed: seq<string>, values: seq<string>, data: Data, key: string)
    requires |fixed| == |values| && key !in fixed
    ensures var keys := Text.Sorted(data.Keys);
      var i := Position(fixed + keys, key);
      && (i < |fixed + keys| <==> key in data)
      && (if i < |fixed + keys| then (values + Cells(keys, data))[i] else "")
         == if key in data then CsvCell(data[key]) else ""
  {
    var keys := Text.Sorted(data.Keys);
    var i := Position(fixed + keys, key);
    assert key in data ==> key in keys;
    assert key in keys ==> key in fixed + keys;
    if i < |fixed + keys| {
      assert (fixed + keys)[i] == key;
      assert i < |fixed| ==> key in fixed;
      assert keys[i - |fixed|] == key && key in data.Keys;
    }
    hide Text.Sorted;
  }

  /** A record carries the handler's values under the handler's own keys, the reserved ones apart. */
  lemma RecordCell(e: Event, key: string)
    requires !Reserved(e.outcome, key)
    ensures Cell(RecordOf(e), key) == Answer(e.outcome, key)
    ensures Position(RecordOf(e).headers, key) < |RecordOf(e).headers| <==> key in DataOf(e.outcome)
  {
    var data := DataOf(e.outcome);
    if e.outcome.Success? {
      PrefixedCell(["seqid"], [Text.Decimal(e.outcome.seqNo)], data, key);
    } else {
      var r := RecordOf(e);
      PrefixedCell(["seqid", "errcode", "errmessage"], r.raw[..3], data, key);
      assert r.raw == r.raw[..3] + Cells(Text.Sorted(data.Keys), data);
    }
    hide Text.Sorted, Text.Decimal, Position;
  }

  function MessageOf(o: RowOutcome): string
    requires !o.Success?
  {
    if o.Error? then o.message else CrashMessage(o.workerId, o.crashAtSeq)
  }

  lemma FixedCells(e: Event)
    requires !e.outcome.Success?
    ensures Cell(RecordOf(e), "errcode") == (if e.outcome.Error? then e.outcome.code else ERR_WORKER_CRASH)
    ensures Cell(RecordOf(e), "errmessage") == MessageOf(e.outcome)
    ensures Position(RecordOf(e).headers, "errcode") < |RecordOf(e).headers|
    ensures Position(RecordOf(e).headers, "errmessage") < |RecordOf(e).headers|
  {
    var h := RecordOf(e).headers;
    assert h[0] == "seqid" && h[1] == "errcode" && h[2] == "errmessage";
    assert "seqid" != "errcode" && "seqid" != "errmessage" && "errcode" != "errmessage" by {
      assert "seqid"[0] == 's' && "errcode"[0] == 'e' && |"errcode"| == 7 && |"errmessage"| == 10;
    }
    assert h[1..][0] == h[1] && h[1..][1..][0] == h[2];
    assert Position(h, "errcode") == 1;
    assert Position(h, "errmessage") == 2;
    hide Text.Sorted, Text.Decimal;
  }

  // ------------------------------------------------------------------
  // Files
  // ------------------------------------------------------------------

  function SuccessHeaders(m: map<nat, PerSeq>): nat -> seq<string> {
    (s: nat) => if s in m && m[s].canonicalSuccess.Some? then m[s].canonicalSuccess.value.headers else []
  }

  function FailureHeaders(m: map<nat, PerSeq>): nat -> seq<string> {
    (s: nat) => if s in m && m[s].latestFailure.Some? then m[s].latestFailure.value.headers else []
  }

  /** The headers over some rows, reserved ones left out. */
  function KeysOver(headers: nat -> seq<string>, rows: seq<nat>, reserved: set<string>): set<string> {
    set s, h | s in rows && h in headers(s) && h !in reserved :: h
  }

  const SUCCESS_RESERVED := {"seqid"}
  const FAILURE_RESERVED := {"seqid", "errcode", "errmessage"}

  function SuccessKeys(m: map<nat, PerSeq>): set<string> {
    KeysOver(SuccessHeaders(m), Ascending(m.Keys), SUCCESS_RESERVED)
  }

  /** Columns of the failed file; a Resolved row keeps its last failure and so still contributes. */
  function FailureKeys(m: map<nat, PerSeq>): set<string> {
    KeysOver(FailureHeaders(m), Ascending(m.Keys), FAILURE_RESERVED)
  }

  function WithSuccess(m: map<nat, PerSeq>): set<nat> { set s | s in m && m[s].canonicalSuccess.Some? }

  function Unresolved(m: map<nat, PerSeq>): set<nat> {
    set s | s in m && m[s].state != Resolved && (m[s].state == NeverAttempted || m[s].latestFailure.Some?)
  }

  function SuccessRows(m: map<nat, PerSeq>): seq<nat> {
    Ascending(WithSuccess(m))
  }

  function FailedRows(m: map<nat, PerSeq>): seq<nat> {
    Ascending(Unresolved(m))
  }

  const NEVER_ATTEMPTED := "NEVER_ATTEMPTED"
  const NEVER_ATTEMPTED_MESSAGE := "row never reached a worker (was not sampled or never dispatched)"

  /** One line of success.csv, as a function of the row number. */
  function SuccessLine(m: map<nat, PerSeq>, cols: seq<string>): nat -> seq<string> {
    (s: nat) =>
      if s in m && m[s].canonicalSuccess.Some? then
        [Text.Decimal(s)] + Map(CellOf(m[s].canonicalSuccess.value), cols)
      else []
  }

  /** One line of failed.csv, as a function of the row number. */
  function FailedLine(m: map<nat, PerSeq>, cols: seq<string>): nat -> seq<string> {
    (s: nat) =>
      if s in m && m[s].state == NeverAttempted then
        [Text.Decimal(s), NEVER_ATTEMPTED, NEVER_ATTEMPTED_MESSAGE] + Map(Blank(), cols)
      else if s in m && m[s].latestFailure.Some? then
        var r := m[s].latestFailure.value;
        [Text.Decimal(s), Cell(r, "errcode"), Cell(r, "errmessage")] + Map(CellOf(r), cols)
      else []
  }

  lemma InKeysOver(headers: nat -> seq<string>, rows: seq<nat>, reserved: set<string>, s: nat, h: string)
    requires s in rows && h in headers(s) && h !in reserved
    ensures h in KeysOver(headers, rows, reserved)
  {
  }

  lemma KeysSnoc(headers: nat -> seq<string>, rows: seq<nat>, s: nat, reserved: set<string>)
    ensures KeysOver(headers, rows + [s], reserved) == KeysOver(headers, rows, reserved) + Fresh(headers(s), reserved)
  {
  }

  lemma KeysStep(headers: nat -> seq<string>, rows: seq<nat>, i: nat, reserved: set<string>)
    requires i < |rows|
    ensures KeysOver(headers, rows[..i + 1], reserved)
         == KeysOver(headers, rows[..i], reserved) + Fresh(headers(rows[i]), reserved)
  {
    KeysSnoc(headers, rows[..i], rows[i], reserved);
    hide *;
    assert rows[..i + 1] == rows[..i] + [rows[i]];
  }

  function Fresh(headers: seq<string>, reserved: set<string>): set<string> {
    set h | h in headers && h !in reserved
  }

  method AddHeaders(keys: set<string>, headers: seq<string>, reserved: set<string>) returns (all: set<string>)
    ensures all == keys + Fresh(headers, reserved)
  {
    all := keys;
    for j := 0 to |headers|
      invariant all == keys + Fresh(headers[..j], reserved)
    {
      assert headers[..j + 1] == headers[..j] + [headers[j]];
      if headers[j] !in reserved { all := all + {headers[j]}; }
    }
    assert headers[..|headers|] == headers;
  }

  method DiscoverSuccessKeys(m: map<nat, PerSeq>) returns (keys: set<string>)
    ensures keys == SuccessKeys(m)
  {
    hide Ascending;
    keys := {};
    var order := Ascending(m.Keys);
    for i := 0 to |order|
      invariant keys == KeysOver(SuccessHeaders(m), order[..i], SUCCESS_RESERVED)
    {
      KeysStep(SuccessHeaders(m), order, i, SUCCESS_RESERVED);
      hide KeysOver;
      var p := m[order[i]];
      if p.canonicalSuccess.Some? {
        keys := AddHeaders(keys, p.canonicalSuccess.value.headers, SUCCESS_RESERVED);
      }
    }
    assert order[..|order|] == order;
  }

  method DiscoverFailureDataKeys(m: map<nat, PerSeq>) returns (keys: set<string>)
    ensures keys == FailureKeys(m)
  {
    hide Ascending;
    keys := {};
    var order := Ascending(m.Keys);
    for i := 0 to |order|
      invariant keys == KeysOver(FailureHeaders(m), order[..i], FAILURE_RESERVED)
    {
      KeysStep(FailureHeaders(m), order, i, FAILURE_RESERVED);
      hide KeysOver;
      var p := m[order[i]];
      if p.latestFailure.Some? {
        keys := AddHeaders(keys, p.latestFailure.value.headers, FAILURE_RESERVED);
      }
    }
    assert order[..|order|] == order;
  }

  method LookUp(record: OutcomeRecord, cols: seq<string>) returns (cells: seq<string>)
    ensures cells == Map(CellOf(record), cols)
  {
    cells := [];
    for j := 0 to |cols|
      invariant cells == Map(CellOf(record), cols[..j])
    {
      cells := cells + [Cell(record, cols[j])];
    }
  }

  lemma NoLines<T>(line: nat -> T, chosen: set<nat>)
    ensures Map(line, Within([], chosen)) == []
  {
  }

  lemma LinesSnoc<T>(line: nat -> T, rows: seq<nat>, s: nat, chosen: set<nat>)
    ensures Map(line, Within(rows + [s], chosen))
         == Map(line, Within(rows, chosen)) + if s in chosen then [line(s)] else []
  {
    WithinSnoc(rows, s, chosen);
    hide Within;
    assert Within(rows, chosen) + [] == Within(rows, chosen);
  }

  method WriteSuccessCsv(m: map<nat, PerSeq>) returns (cols: seq<string>, lines: seq<seq<string>>)
    ensures cols == Text.Sorted(SuccessKeys(m))
    ensures lines == Map(SuccessLine(m, cols), SuccessRows(m))
  {
    hide Within, Cell, Ascending, SuccessKeys, Map, Text.Sorted, Text.Decimal;
    var keys := DiscoverSuccessKeys(m);
    cols, lines := Text.Sorted(keys), [];
    var order := Ascending(m.Keys);
    NoLines(SuccessLine(m, cols), WithSuccess(m));
    for i := 0 to |order|
      invariant lines == Map(SuccessLine(m, cols), Within(order[..i], WithSuccess(m)))
    {
      LinesSnoc(SuccessLine(m, cols), order[..i], order[i], WithSuccess(m));
      assert order[..i + 1] == order[..i] + [order[i]];
      var p := m[order[i]];
      if p.canonicalSuccess.Some? {
        var cells := LookUp(p.canonicalSuccess.value, cols);
        lines := lines + [[Text.Decimal(order[i])] + cells];
      }
    }
    assert order[..|order|] == order;
    WithinAll(m.Keys, WithSuccess(m));
  }

  /** The line for a row that is not resolved. */
  method FailedCells(m: map<nat, PerSeq>, s: nat, cols: seq<string>) returns (line: Option<seq<string>>)
    requires s in m
    ensures line == if s in Unresolved(m) then Some(FailedLine(m, cols)(s)) else None
  {
    hide Cell, Map, Text.Decimal;
    var p := m[s];
    match p.state {
      case Resolved => line := None;
      case NeverAttempted =>
        line := Some([Text.Decimal(s), NEVER_ATTEMPTED, NEVER_ATTEMPTED_MESSAGE] + Map(Blank(), cols));
      case _ =>
        if p.latestFailure.None? { return None; }
        var r := p.latestFailure.value;
        var cells := LookUp(r, cols);
        line := Some([Text.Decimal(s), Cell(r, "errcode"), Cell(r, "errmessage")] + cells);
    }
  }

  lemma UnresolvedInside(m: map<nat, PerSeq>)
    ensures Unresolved(m) <= m.Keys
  {
  }

  method WriteFailedCsv(m: map<nat, PerSeq>) returns (cols: seq<string>, lines: seq<seq<string>>)
    ensures cols == Text.Sorted(FailureKeys(m))
    ensures lines == Map(FailedLine(m, cols), FailedRows(m))
  {
    hide Within, Ascending, FailureKeys, Map, Text.Sorted, FailedLine, Unresolved;
    var keys := DiscoverFailureDataKeys(m);
    cols, lines := Text.Sorted(keys), [];
    var order := Ascending(m.Keys);
    NoLines(FailedLine(m, cols), Unresolved(m));
    for i := 0 to |order|
      invariant lines == Map(FailedLine(m, cols), Within(order[..i], Unresolved(m)))
    {
      LinesSnoc(FailedLine(m, cols), order[..i], order[i], Unresolved(m));
      assert order[..i + 1] == order[..i] + [order[i]];
      var line := FailedCells(m, order[i], cols);
      if line.Some? { lines := lines + [line.value]; }
    }
    assert order[..|order|] == order;
    UnresolvedInside(m);
    WithinAll(m.Keys, Unresolved(m));
  }

  // ------------------------------------------------------------------
  // What the files say about the history
  // ------------------------------------------------------------------

  /** In a resolution map the records go with the states. */
  lemma RecordsFollowStates(n: nat, events: seq<Event>, s: nat)
    requires s in Rows(n, events)
    ensures var p, t := ResolutionOf(n, events)[s], Trace(events, s);
      var k := FirstSuccess(t);
      && (p.state == Resolved <==> k < |t|)
      && p.canonicalSuccess == (if k < |t| then Some(RecordOf(t[k])) else None)
      && (p.state == NeverAttempted <==> t == [])
      && (p.state != Resolved ==> p.latestFailure == if t == [] then None else Some(RecordOf(t[|t| - 1])))
      && (t != [] && p.state != Resolved ==> !t[|t| - 1].outcome.Success?)
  {
    SpecState(Trace(events, s));
    hide Trace, RecordOf;
  }

  /** The two files partition the resolution's rows, each in ascending order, as the reported counts say. */
  lemma ExportIsPartition(n: nat, events: seq<Event>)
    ensures var m := ResolutionOf(n, events);
      && StrictlyAscending(SuccessRows(m)) && StrictlyAscending(FailedRows(m))
      && (forall s :: s in SuccessRows(m) <==> Succeeded(events, s))
      && (forall s :: s in FailedRows(m) <==> s in m && !Succeeded(events, s))
      && |SuccessRows(m)| == |InState(m, Resolved)|
      && |FailedRows(m)| == |InState(m, FailedLast)| + |InState(m, CrashedLast)| + |InState(m, CancelledLast)|
                          + |InState(m, TooLarge)| + |InState(m, NeverAttempted)|
      && |SuccessRows(m)| + |FailedRows(m)| == |m|
  {
    var m := ResolutionOf(n, events);
    forall s | s in m ensures m[s].canonicalSuccess.Some? <==> m[s].state == Resolved
                      ensures m[s].state == NeverAttempted || m[s].state == Resolved || m[s].latestFailure.Some?
    {
      RecordsFollowStates(n, events, s);
      hide *;
    }
    forall s: nat ensures s in ResolvedSeqs(m) <==> Succeeded(events, s) {
      StateIff(n, events, s);
    }
    hide ResolutionOf, Succeeded, Ascending;
    assert WithSuccess(m) == ResolvedSeqs(m) == InState(m, Resolved);
    assert Unresolved(m) == m.Keys - ResolvedSeqs(m);
    assert |m.Keys - ResolvedSeqs(m)| == |m.Keys| - |ResolvedSeqs(m)|;
    CountsCover(m);
  }

  lemma SameCells(e: Event, cols: seq<string>)
    requires forall c :: c in cols ==> !Reserved(e.outcome, c)
    ensures Map(CellOf(RecordOf(e)), cols) == Map(AnswerTo(e.outcome), cols)
  {
    hide RecordOf, Cell, Answer, Reserved;
    forall i | 0 <= i < |cols| ensures Cell(RecordOf(e), cols[i]) == Answer(e.outcome, cols[i]) {
      assert cols[i] in cols;
      RecordCell(e, cols[i]);
    }
  }

  lemma SuccessColumns(m: map<nat, PerSeq>, key: string)
    ensures key in Text.Sorted(SuccessKeys(m)) ==> key != "seqid"
    ensures key != "seqid" && (exists s :: s in WithSuccess(m) && key in m[s].canonicalSuccess.value.headers)
      ==> key in Text.Sorted(SuccessKeys(m))
  {
    hide Text.Sorted, Ascending;
    var headers := SuccessHeaders(m);
    if s :| s in WithSuccess(m) && key in m[s].canonicalSuccess.value.headers {
      assert s in Ascending(m.Keys) && key in headers(s);
      if key != "seqid" { InKeysOver(headers, Ascending(m.Keys), SUCCESS_RESERVED, s, key); }
    }
  }

  lemma FailureColumns(m: map<nat, PerSeq>, key: string)
    ensures key in Text.Sorted(FailureKeys(m)) ==> key != "seqid" && key != "errcode" && key != "errmessage"
  {
  }

  /** A line of success.csv is the first success's own answer, column by column. */
  lemma SuccessLineIsAnswer(n: nat, events: seq<Event>, s: nat)
    requires Succeeded(events, s)
    ensures var m, t := ResolutionOf(n, events), Trace(events, s);
      var cols, k := Text.Sorted(SuccessKeys(m)), FirstSuccess(t);
      k < |t| && SuccessLine(m, cols)(s) == [Text.Decimal(s)] + Map(AnswerTo(t[k].outcome), cols)
  {
    var m, t := ResolutionOf(n, events), Trace(events, s);
    var cols, k := Text.Sorted(SuccessKeys(m)), FirstSuccess(t);
    SucceededRow(n, events, s);
    RecordsFollowStates(n, events, s);
    hide ResolutionOf, Trace, SuccessKeys, Text.Sorted, Text.Decimal, RecordOf, CellOf, AnswerTo, FirstSuccess, Map;
    assert t[k].outcome.Success?;
    forall c | c in cols ensures !Reserved(t[k].outcome, c) { SuccessColumns(m, c); }
    SameCells(t[k], cols);
  }

  lemma SucceededRow(n: nat, events: seq<Event>, s: nat)
    requires Succeeded(events, s)
    ensures s in Rows(n, events) && ResolutionOf(n, events)[s].state == Resolved
  {
    StateIff(n, events, s);
  }

  /** Nothing the handler answered is missing from success.csv, its own `seqid` apart. */
  lemma EveryAnswerHasItsColumn(n: nat, events: seq<Event>, s: nat, key: string)
    requires var t := Trace(events, s);
      var k := FirstSuccess(t);
      k < |t| && key in DataOf(t[k].outcome) && key != "seqid"
    ensures key in Text.Sorted(SuccessKeys(ResolutionOf(n, events)))
  {
    var m, t := ResolutionOf(n, events), Trace(events, s);
    var e := t[FirstSuccess(t)];
    EmptyUnless(n, events, s);
    RecordsFollowStates(n, events, s);
    assert e.outcome.Success?;
    assert RecordOf(e).headers == ["seqid"] + Text.Sorted(e.outcome.data.Keys);
    assert key in e.outcome.data.Keys && key in Text.Sorted(e.outcome.data.Keys);
    assert key in RecordOf(e).headers;
    hide ResolutionOf, Trace, SuccessKeys, Text.Sorted, RecordOf, FirstSuccess;
    assert s in WithSuccess(m) && key in m[s].canonicalSuccess.value.headers;
    SuccessColumns(m, key);
  }

  /** The row's first success answered this key. */
  ghost predicate AnsweredKey(events: seq<Event>, s: nat, key: string) {
    var t := Trace(events, s);
    var k := FirstSuccess(t);
    k < |t| && key in DataOf(t[k].outcome)
  }

  lemma SuccessHeaderIs(n: nat, events: seq<Event>, s: nat, key: string)
    requires s in ResolutionOf(n, events) && key != "seqid"
    requires key in SuccessHeaders(ResolutionOf(n, events))(s)
    ensures AnsweredKey(events, s, key)
  {
    var t := Trace(events, s);
    RecordsFollowStates(n, events, s);
    var e := t[FirstSuccess(t)];
    assert e.outcome.Success?;
    assert RecordOf(e).headers == ["seqid"] + Text.Sorted(e.outcome.data.Keys);
    hide ResolutionOf, Trace, Text.Sorted, FirstSuccess, RecordOf;
    assert key in Text.Sorted(e.outcome.data.Keys);
  }

  /** The columns of success.csv are exactly the keys that some first success answered, `seqid` apart. */
  lemma SuccessColumnsIff(n: nat, events: seq<Event>, key: string)
    ensures key in Text.Sorted(SuccessKeys(ResolutionOf(n, events)))
       <==> key != "seqid" && exists s :: AnsweredKey(events, s, key)
  {
    var m := ResolutionOf(n, events);
    SuccessColumns(m, key);
    if key in Text.Sorted(SuccessKeys(m)) {
      assert key in SuccessKeys(m);
      hide Text.Sorted, AnsweredKey, ResolutionOf, Ascending, SuccessHeaders;
      var s :| s in Ascending(m.Keys) && key in SuccessHeaders(m)(s);
      SuccessHeaderIs(n, events, s, key);
    }
    if key != "seqid" && exists s :: AnsweredKey(events, s, key) {
      var s :| AnsweredKey(events, s, key);
      hide Text.Sorted, SuccessKeys, ResolutionOf;
      EveryAnswerHasItsColumn(n, events, s, key);
    }
  }

  lemma EmptyUnless(n: nat, events: seq<Event>, s: nat)
    requires Trace(events, s) != []
    ensures s in ResolutionOf(n, events)
  {
    if s !in Mentioned(events) { EmptyTrace(events, s); }
  }

  /** What failed.csv should say about a row with this trace. */
  function Verdict(s: nat, t: seq<Event>, cols: seq<string>): seq<string>
    requires t != [] ==> !t[|t| - 1].outcome.Success?
  {
    if t == [] then [Text.Decimal(s), NEVER_ATTEMPTED, NEVER_ATTEMPTED_MESSAGE] + Map(Blank(), cols)
    else
      var o := t[|t| - 1].outcome;
      [Text.Decimal(s), if o.Error? then o.code else ERR_WORKER_CRASH, MessageOf(o)] + Map(AnswerTo(o), cols)
  }

  /** A line of failed.csv is the row's last failure, or says that the row was never attempted. */
  lemma FailedLineIsLast(n: nat, events: seq<Event>, s: nat)
    requires s in Rows(n, events) && !Succeeded(events, s)
    ensures var m, t := ResolutionOf(n, events), Trace(events, s);
      var cols := Text.Sorted(FailureKeys(m));
      && (t != [] ==> !t[|t| - 1].outcome.Success?)
      && FailedLine(m, cols)(s) == Verdict(s, t, cols)
  {
    var m, t := ResolutionOf(n, events), Trace(events, s);
    var cols := Text.Sorted(FailureKeys(m));
    UnresolvedRow(n, events, s);
    RecordsFollowStates(n, events, s);
    hide ResolutionOf, Trace, FailureKeys, Text.Sorted, Text.Decimal, RecordOf, Cell, CellOf, AnswerTo;
    hide MessageOf, Rows, Mentioned, Succeeded, FirstSuccess, Map;
    if t != [] {
      var e := t[|t| - 1];
      FixedCells(e);
      forall c | c in cols ensures !Reserved(e.outcome, c) { FailureColumns(m, c); }
      SameCells(e, cols);
    }
  }

  lemma UnresolvedRow(n: nat, events: seq<Event>, s: nat)
    requires s in Rows(n, events) && !Succeeded(events, s)
    ensures ResolutionOf(n, events)[s].state != Resolved
  {
    StateIff(n, events, s);
  }

  lemma FailureColumnOf(m: map<nat, PerSeq>, s: nat, key: string)
    requires s in m && m[s].latestFailure.Some? && key in m[s].latestFailure.value.headers && key !in FAILURE_RESERVED
    ensures key in Text.Sorted(FailureKeys(m))
  {
    hide Text.Sorted, Ascending;
    assert s in Ascending(m.Keys) && key in FailureHeaders(m)(s);
    InKeysOver(FailureHeaders(m), Ascending(m.Keys), FAILURE_RESERVED, s, key);
  }

  /** Nothing the handler attached to an exported failure is missing from failed.csv, the three reserved names apart. */
  lemma EveryDetailHasItsColumn(n: nat, events: seq<Event>, s: nat, key: string)
    requires var t := Trace(events, s);
      t != [] && !Succeeded(events, s) && key in DataOf(t[|t| - 1].outcome) && key !in FAILURE_RESERVED
    ensures key in Text.Sorted(FailureKeys(ResolutionOf(n, events)))
  {
    var m, t := ResolutionOf(n, events), Trace(events, s);
    var e := t[|t| - 1];
    EmptyUnless(n, events, s);
    UnresolvedRow(n, events, s);
    RecordsFollowStates(n, events, s);
    DetailInHeaders(e, key);
    hide ResolutionOf, Trace, FailureKeys, Text.Sorted, RecordOf, FirstSuccess, Succeeded;
    FailureColumnOf(m, s, key);
  }

  /** The row's last failure before any success came with this key. */
  ghost predicate DetailKey(events: seq<Event>, s: nat, key: string) {
    var t := Trace(events, s);
    var k := FirstSuccess(t);
    k > 0 && key in DataOf(t[k - 1].outcome)
  }

  lemma FailureRecordIs(n: nat, events: seq<Event>, s: nat)
    requires s in ResolutionOf(n, events)
    ensures var t := Trace(events, s);
      var k := FirstSuccess(t);
      ResolutionOf(n, events)[s].latestFailure == if k > 0 then Some(RecordOf(t[k - 1])) else None
  {
    EntryIsSpec(n, events, s);
    hide Trace, RecordOf, FailureState;
  }

  lemma DetailHeader(e: Event, key: string)
    requires !e.outcome.Success? && key !in FAILURE_RESERVED
    ensures key in RecordOf(e).headers <==> key in DataOf(e.outcome)
  {
    var data := DataOf(e.outcome);
    assert RecordOf(e).headers == ["seqid", "errcode", "errmessage"] + Text.Sorted(data.Keys);
    hide Text.Sorted, RecordOf;
  }

  lemma DetailOfColumn(n: nat, events: seq<Event>, key: string) returns (s: nat)
    requires key in FailureKeys(ResolutionOf(n, events)) && key !in FAILURE_RESERVED
    ensures DetailKey(events, s, key)
  {
    var m := ResolutionOf(n, events);
    hide ResolutionOf, Ascending, Trace, FirstSuccess, RecordOf, DataOf;
    s :| s in Ascending(m.Keys) && key in FailureHeaders(m)(s);
    var t := Trace(events, s);
    FailureRecordIs(n, events, s);
    DetailHeader(t[FirstSuccess(t) - 1], key);
  }

  lemma ColumnOfDetail(n: nat, events: seq<Event>, s: nat, key: string)
    requires DetailKey(events, s, key) && key !in FAILURE_RESERVED
    ensures key in Text.Sorted(FailureKeys(ResolutionOf(n, events)))
  {
    var t := Trace(events, s);
    EmptyUnless(n, events, s);
    FailureRecordIs(n, events, s);
    hide Text.Sorted, FailureKeys, ResolutionOf, Trace, FirstSuccess, RecordOf, DataOf;
    DetailHeader(t[FirstSuccess(t) - 1], key);
    FailureColumnOf(ResolutionOf(n, events), s, key);
  }

  lemma ReservedNames(key: string)
    ensures key in FAILURE_RESERVED <==> key == "seqid" || key == "errcode" || key == "errmessage"
  {
  }

  /**
   The columns of failed.csv are exactly the keys that came with some row's last failure, rows that have
   succeeded since included, the three reserved names apart.
   */
  lemma FailureColumnsIff(n: nat, events: seq<Event>, key: string)
    ensures key in Text.Sorted(FailureKeys(ResolutionOf(n, events)))
       <==> key != "seqid" && key != "errcode" && key != "errmessage" && exists s :: DetailKey(events, s, key)
  {
    hide *;
    FailureColumns(ResolutionOf(n, events), key);
    ReservedNames(key);
    if key in Text.Sorted(FailureKeys(ResolutionOf(n, events))) {
      var s := DetailOfColumn(n, events, key);
    }
    if key !in FAILURE_RESERVED && exists s :: DetailKey(events, s, key) {
      var s :| DetailKey(events, s, key);
      ColumnOfDetail(n, events, s, key);
    }
  }

  lemma DetailInHeaders(e: Event, key: string)
    requires !e.outcome.Success? && key in DataOf(e.outcome)
    ensures key in RecordOf(e).headers
  {
    var data := DataOf(e.outcome);
    assert RecordOf(e).headers == ["seqid", "errcode", "errmessage"] + Text.Sorted(data.Keys);
    assert key in data.Keys;
    hide Text.Sorted, RecordOf;
  }

  // ------------------------------------------------------------------
  // Completeness
  // ------------------------------------------------------------------

  lemma UntouchedIff(n: nat, events: seq<Event>, s: nat)
    ensures s in InState(ResolutionOf(n, events), NeverAttempted) <==> s < n && !Touched(events, s)
  {
    StateIff(n, events, s);
    TouchedIsMentioned(events, s);
    hide Touched, Mentioned, RowSpec;
  }

  lemma {:induction false} UpToSize(n: nat)
    ensures |UpTo(n)| == n
  {
    if n > 0 { UpToSize(n - 1); }
  }

  /** `completion_percent`, over the rationals. */
  function CompletionPercent(n: nat, c: ResolutionCounts): real {
    if n > 0 then
      (c.resolved + c.failedLast + c.crashedLast + c.cancelledLast + c.tooLarge) as real / n as real * 100.0
    else 100.0
  }

  /** Rows logged under a number at or beyond the recorded row count. */
  function Beyond(n: nat, events: seq<Event>): set<nat> { Mentioned(events) - UpTo(n) }

  lemma UnionSize(a: set<nat>, b: set<nat>)
    ensures |a + b| == |a| + |b - a| && |a + b| == |b| + |a - b|
  {
    assert a + b == a + (b - a);
    assert a + b == b + (a - b);
  }

  lemma UntouchedSet(n: nat, events: seq<Event>)
    ensures InState(ResolutionOf(n, events), NeverAttempted) == UpTo(n) - Mentioned(events)
  {
    hide *;
    var untouched, rest := InState(ResolutionOf(n, events), NeverAttempted), UpTo(n) - Mentioned(events);
    forall s: nat ensures s in untouched <==> s in rest {
      UntouchedIff(n, events, s);
      TouchedIsMentioned(events, s);
    }
  }

  lemma RowCount(n: nat, events: seq<Event>)
    ensures |ResolutionOf(n, events)| == |UpTo(n) + Mentioned(events)|
    ensures |UpTo(n) + Mentioned(events)| == n + |Beyond(n, events)|
  {
    var m := ResolutionOf(n, events);
    assert m.Keys == UpTo(n) + Mentioned(events) && |m| == |m.Keys|;
    UnionSize(UpTo(n), Mentioned(events));
    UpToSize(n);
    hide ResolutionOf, UpTo, Mentioned;
  }

  /** All rows but the untouched ones have been logged. */
  lemma LoggedRows(n: nat, events: seq<Event>)
    ensures var c := CountsOf(ResolutionOf(n, events));
      && c.resolved + c.failedLast + c.crashedLast + c.cancelledLast + c.tooLarge == |Mentioned(events)|
      && c.neverAttempted + |Mentioned(events)| == n + |Beyond(n, events)|
  {
    CountsCover(ResolutionOf(n, events));
    UntouchedSet(n, events);
    hide ResolutionOf, InState, UpTo, Mentioned, Beyond;
    RowCount(n, events);
    UnionSize(UpTo(n), Mentioned(events));
  }

  /** So many of the whole, and everything of nothing. */
  ghost predicate IsPercentage(percent: real, part: nat, whole: nat) {
    if whole == 0 then percent == 100.0 else percent * whole as real == 100.0 * part as real
  }

  /**
   The percentage is that of the rows logged, and 100 when no row is on record; so it reads 100 exactly
   when untouched rows and rows beyond the count balance.
   */
  lemma CompletionIff(n: nat, events: seq<Event>)
    ensures var m := ResolutionOf(n, events);
      var percent := CompletionPercent(n, CountsOf(m));
      var never, beyond := |InState(m, NeverAttempted)|, |Beyond(n, events)|;
      && IsPercentage(percent, |Mentioned(events)|, n)
      && (percent <= 100.0 <==> n == 0 || beyond <= never)
      && (percent == 100.0 <==> n == 0 || beyond == never)
  {
    LoggedRows(n, events);
    var c := CountsOf(ResolutionOf(n, events));
    assert c.neverAttempted == |InState(ResolutionOf(n, events), NeverAttempted)|;
    hide *;
    PercentIs(n, c, |Mentioned(events)|);
    PercentSays(n, |Mentioned(events)|, c.neverAttempted, |Beyond(n, events)|, CompletionPercent(n, c));
  }

  /** An input: one row on record, row 1 succeeded, row 0 was never attempted, and the export claims 100 percent. */
  lemma HundredPercentWithARowMissing(id: string, o: RowOutcome)
    requires o.Success? && o.seqNo == 1
    ensures var m := ResolutionOf(1, [Event(id, o)]);
      CompletionPercent(1, CountsOf(m)) == 100.0 && 0 in InState(m, NeverAttempted)
  {
    var events := [Event(id, o)];
    assert events[0].outcome.seqNo == 1;
    assert Mentioned(events) == {1} && UpTo(1) == {0};
    forall s: nat ensures s in InState(ResolutionOf(1, events), NeverAttempted) <==> s == 0 {
      UntouchedIff(1, events, s);
      TouchedIsMentioned(events, s);
    }
    hide ResolutionOf, Touched;
    assert InState(ResolutionOf(1, events), NeverAttempted) == {0} && Beyond(1, events) == {1};
    CompletionIff(1, events);
  }

  lemma PercentIs(n: nat, c: ResolutionCounts, a: nat)
    requires c.resolved + c.failedLast + c.crashedLast + c.cancelledLast + c.tooLarge == a
    ensures CompletionPercent(n, c) == if n > 0 then a as real / n as real * 100.0 else 100.0
  {
  }

  lemma PercentSays(n: nat, a: nat, never: nat, beyond: nat, percent: real)
    requires percent == (if n > 0 then a as real / n as real * 100.0 else 100.0) && never + a == n + beyond
    ensures IsPercentage(percent, a, n)
    ensures percent <= 100.0 <==> n == 0 || beyond <= never
    ensures percent == 100.0 <==> n == 0 || beyond == never
  {
    if n > 0 { Percent(a, n); }
  }

  lemma Percent(a: nat, n: nat)
    requires n > 0
    ensures a as real / n as real * 100.0 * n as real == 100.0 * a as real
    ensures a as real / n as real * 100.0 <= 100.0 <==> a <= n
    ensures a as real / n as real * 100.0 == 100.0 <==> a == n
  {
    var q := a as real / n as real;
    assert q * n as real == a as real;
    if a < n { assert q < 1.0; }
    if a > n { assert q > 1.0; }
  }

  lemma SomeUntouched(n: nat, events: seq<Event>)
    ensures |InState(ResolutionOf(n, events), NeverAttempted)| > 0 <==> exists s: nat :: s < n && !Touched(events, s)
  {
    var untouched := InState(ResolutionOf(n, events), NeverAttempted);
    forall s: nat ensures s in untouched <==> s < n && !Touched(events, s) { UntouchedIff(n, events, s); }
    hide InState, ResolutionOf, Touched;
    if |untouched| > 0 {
      var s :| s in untouched;
      assert s < n && !Touched(events, s);
    }
  }
}
