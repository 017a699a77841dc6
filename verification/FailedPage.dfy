/**
 Paged reading of an attempt's failures
 (crates/rowforge-studio-core/src/failed.rs and `attempt_failed_row_ids` in lib.rs).
 */
module FailedPage {
  import opened Base
  import opened Protocol
  import opened PipelineAccount
  import opened Order

  datatype FailedRow = FailedRow(
    seqNo: nat, errorCode: Option<string>, message: Option<string>, kind: RowOutcomeKind,
    data: Option<Data>, durMs: nat)

  const MAX_PAGE: nat := 500

  /** A failure that the filter lets through; a crash has no code and compares as the empty one. */
  function Shown(filter: Option<string>): RowOutcome -> bool {
    (o: RowOutcome) => !o.Success? && (filter.Some? ==> (if o.Error? then o.code else "") == filter.value)
  }

  function ToFailed(o: RowOutcome): FailedRow {
    match o
    case Error(n, code, message, dur, detail) => FailedRow(n, Some(code), Some(message), KindError, detail, dur)
    case Crash(n, _, _) => FailedRow(n, None, None, KindCrash, None, 0)
    case Success(n, _, _) => FailedRow(n, None, None, KindError, None, 0)
  }

  /** The failures to page through, in log order. */
  function Failures(log: seq<BatchOutcome>, filter: Option<string>): seq<RowOutcome> {
    Filter(Shown(filter), LogOutcomes(log))
  }

  /** The page at an offset, and where the next one starts if there is more. */
  function PageRows(failures: seq<RowOutcome>, offset: nat, limit: nat): seq<FailedRow> {
    var n := |failures|;
    Map(ToFailed, failures[Min(offset, n)..Min(offset + Min(limit, MAX_PAGE), n)])
  }

  function NextOffset(failures: seq<RowOutcome>, offset: nat, limit: nat): Option<nat> {
    var end := offset + Min(limit, MAX_PAGE);
    if end < |failures| then Some(end) else None
  }

  /** The rows collected once `seen` failures have gone by. */
  function Collected(seen: seq<RowOutcome>, offset: nat): (r: seq<FailedRow>)
    ensures |r| == |seen| - Min(offset, |seen|)
  {
    Map(ToFailed, seen[Min(offset, |seen|)..])
  }

  lemma CollectedSnoc(seen: seq<RowOutcome>, o: RowOutcome, offset: nat)
    ensures Collected(seen + [o], offset) == if |seen| < offset then [] else Collected(seen, offset) + [ToFailed(o)]
  {
    if |seen| >= offset {
      assert (seen + [o])[offset..] == seen[offset..] + [o];
    }
  }

  lemma PageIsCollected(failures: seq<RowOutcome>, seen: seq<RowOutcome>, offset: nat, limit: nat)
    requires seen <= failures
    requires |Collected(seen, offset)| <= Min(limit, MAX_PAGE)
    requires seen == failures || (|Collected(seen, offset)| == Min(limit, MAX_PAGE) && |seen| >= offset)
    ensures PageRows(failures, offset, limit) == Collected(seen, offset)
  {
    assert failures[..|seen|] == seen;
    var from := Min(offset, |seen|);
    assert failures[from..|seen|] == seen[from..];
  }

  lemma NothingSeen(filter: Option<string>, offset: nat)
    ensures Filter(Shown(filter), LogOutcomes([])) == [] && Collected([], offset) == []
  {
  }

  method ReadFailedPage(log: seq<BatchOutcome>, offset: nat, limit: nat, filter: Option<string>)
    returns (rows: seq<FailedRow>, next: Option<nat>)
    ensures rows == PageRows(Failures(log, filter), offset, limit)
    ensures next == NextOffset(Failures(log, filter), offset, limit)
  {
    hide LogOutcomes, Filter, Collected, PageRows, ToFailed;
    var cap := Min(limit, MAX_PAGE);
    rows, next := [], None;
    NothingSeen(filter, offset);
    var failedSeen := 0;
    ghost var seen: seq<RowOutcome> := [];
    label outer: for i := 0 to |log|
      invariant next.None? && seen == Filter(Shown(filter), LogOutcomes(log[..i]))
      invariant failedSeen == |seen| && rows == Collected(seen, offset) && |rows| <= cap
    {
      var outcomes := log[i].outcomes;
      ghost var before := LogOutcomes(log[..i]);
      LogSeqsSnoc(log[..i], log[i]);
      assert log[..i + 1] == log[..i] + [log[i]];
      assert outcomes[..0] == [] && before + [] == before;
      for j := 0 to |outcomes|
        invariant next.None? && seen == Filter(Shown(filter), before + outcomes[..j])
        invariant failedSeen == |seen| && rows == Collected(seen, offset) && |rows| <= cap
      {
        var o := outcomes[j];
        SeenSnoc(filter, before + outcomes[..j], o);
        assert before + outcomes[..j + 1] == before + outcomes[..j] + [o];
        if o.Success? { continue; }
        if filter.Some? {
          var code := if o.Error? then o.code else "";
          if code != filter.value { continue; }
        }
        CollectedSnoc(seen, o, offset);
        if failedSeen < offset {
          failedSeen := failedSeen + 1;
          seen := seen + [o];
          continue;
        }
        if |rows| >= cap {
          next := Some(failedSeen);
          MoreToCome(log, filter, i, j);
          break outer;
        }
        rows := rows + [ToFailed(o)];
        failedSeen := failedSeen + 1;
        seen := seen + [o];
      }
      assert outcomes[..|outcomes|] == outcomes;
    }
    if next.None? {
      assert log[..|log|] == log;
    }
    PageIsCollected(Failures(log, filter), seen, offset, limit);
  }

  lemma SeenSnoc(filter: Option<string>, outcomes: seq<RowOutcome>, o: RowOutcome)
    ensures Filter(Shown(filter), outcomes + [o])
         == Filter(Shown(filter), outcomes) + if Shown(filter)(o) then [o] else []
  {
    FilterConcat(Shown(filter), outcomes, [o]);
    assert [o][1..] == [];
  }

  /** The failures before a shown outcome are a proper prefix of all of them. */
  lemma MoreToCome(log: seq<BatchOutcome>, filter: Option<string>, i: nat, j: nat)
    requires i < |log| && j < |log[i].outcomes| && Shown(filter)(log[i].outcomes[j])
    ensures var seen := Filter(Shown(filter), LogOutcomes(log[..i]) + log[i].outcomes[..j]);
      seen <= Failures(log, filter) && |seen| < |Failures(log, filter)|
  {
    var outcomes := log[i].outcomes;
    var seen := LogOutcomes(log[..i]) + outcomes[..j];
    var rest := outcomes[j + 1..] + LogTailOutcomes(log, i);
    LogSplit(log, i);
    assert outcomes == outcomes[..j] + [outcomes[j]] + outcomes[j + 1..];
    assert LogOutcomes(log) == seen + [outcomes[j]] + rest;
    FilterConcat(Shown(filter), seen + [outcomes[j]], rest);
    SeenSnoc(filter, seen, outcomes[j]);
  }

  /** The page's entry says what the log says about the failure. */
  predicate Says(row: FailedRow, o: RowOutcome) {
    row.seqNo == o.seqNo &&
    match o
    case Success(_, _, _) => false
    case Error(_, code, message, dur, detail) =>
      && row.errorCode == Some(code) && row.message == Some(message) && row.kind == KindError
      && row.data == detail && row.durMs == dur
    case Crash(_, _, _) =>
      && row.errorCode == None && row.message == None && row.kind == KindCrash
      && row.data == None && row.durMs == 0
  }

  /** What is paged through: the outcomes that failed, under the code asked for if one is. */
  lemma FailuresIff(log: seq<BatchOutcome>, filter: Option<string>, o: RowOutcome)
    ensures o in Failures(log, filter) <==>
      && o in LogOutcomes(log) && !o.Success?
      && (filter == None || (o.Error? && filter == Some(o.code)) || (o.Crash? && filter == Some("")))
  {
    FilterMembers(Shown(filter), LogOutcomes(log));
  }

  /** A page of at most 500 says of each failure from the offset on what was logged, and tells where more follow. */
  lemma PageSays(log: seq<BatchOutcome>, filter: Option<string>, offset: nat, limit: nat)
    ensures var failures := Failures(log, filter);
      var rows, next := PageRows(failures, offset, limit), NextOffset(failures, offset, limit);
      && |rows| <= limit && |rows| <= 500
      && (|rows| < limit && |rows| < 500 ==> offset + |rows| >= |failures|)
      && (forall i :: 0 <= i < |rows| ==> offset + i < |failures| && Says(rows[i], failures[offset + i]))
      && (next.Some? <==> offset + |rows| < |failures|)
      && (next.Some? ==> next.value == offset + |rows|)
  {
    var failures := Failures(log, filter);
    var rows := PageRows(failures, offset, limit);
    forall i | 0 <= i < |rows| ensures offset + i < |failures| && Says(rows[i], failures[offset + i]) {
      var o := failures[offset + i];
      assert o in failures;
      FailuresIff(log, filter, o);
      hide Failures;
    }
  }

  /** A next page starts later than this one exactly when the limit is at least one. */
  lemma PagingAdvancesIff(failures: seq<RowOutcome>, offset: nat, limit: nat)
    requires NextOffset(failures, offset, limit).Some?
    ensures NextOffset(failures, offset, limit).value > offset <==> limit >= 1
  {
  }

  lemma NextPage(failures: seq<RowOutcome>, offset: nat, limit: nat)
    requires offset <= |failures| && limit >= 1
    ensures var next := NextOffset(failures, offset, limit);
      && (next.Some? ==> offset < next.value <= |failures|)
      && Map(ToFailed, failures[..offset]) + PageRows(failures, offset, limit)
         == Map(ToFailed, if next.Some? then failures[..next.value] else failures)
  {
    var end := Min(offset + Min(limit, MAX_PAGE), |failures|);
    var pre, page := failures[..offset], failures[offset..end];
    hide Map, ToFailed;
    MapConcat(ToFailed, pre, page);
    assert failures[..end] == pre + page;
    assert failures[..|failures|] == failures;
  }

  /** Following `next_offset` from the start to the end sees every failure exactly once, in log order. */
  method ReadAllPages(log: seq<BatchOutcome>, limit: nat, filter: Option<string>) returns (rows: seq<FailedRow>)
    requires limit >= 1
    ensures rows == Map(ToFailed, Failures(log, filter))
  {
    ghost var failures := Failures(log, filter);
    hide Failures;
    rows := [];
    var offset := 0;
    var more := true;
    while more
      invariant more ==> offset <= |failures| && rows == Map(ToFailed, failures[..offset])
      invariant !more ==> rows == Map(ToFailed, failures)
      decreases more, |failures| - offset
    {
      var page, next := ReadFailedPage(log, offset, limit, filter);
      NextPage(failures, offset, limit);
      hide *;
      rows := rows + page;
      match next {
        case Some(n) => offset := n;
        case None => more := false;
      }
    }
  }

  /** The failures' seqs as a sorted set, collected outcome by outcome. */
  method AttemptFailedRowIds(log: seq<BatchOutcome>) returns (ids: seq<nat>)
    ensures StrictlyAscending(ids)
    ensures forall s :: s in ids <==> exists o :: o in LogOutcomes(log) && !o.Success? && o.seqNo == s
  {
    var seqs: set<nat> := {};
    for i := 0 to |log|
      invariant forall s :: s in seqs <==> exists o :: o in LogOutcomes(log[..i]) && !o.Success? && o.seqNo == s
    {
      LogSeqsSnoc(log[..i], log[i]);
      assert log[..i + 1] == log[..i] + [log[i]];
      ghost var before := LogOutcomes(log[..i]);
      var outcomes := log[i].outcomes;
      for j := 0 to |outcomes|
        invariant forall s :: s in seqs <==> exists o :: o in before + outcomes[..j] && !o.Success? && o.seqNo == s
      {
        var o := outcomes[j];
        assert before + outcomes[..j + 1] == before + outcomes[..j] + [o];
        if !o.Success? {
          seqs := seqs + {o.seqNo};
          assert o in before + outcomes[..j + 1];
        }
      }
      assert outcomes[..|outcomes|] == outcomes;
    }
    assert log[..|log|] == log;
    ids := Ascending(seqs);
  }

  /** The pages and the id list name the same rows. */
  lemma {:induction false} PagesNameTheFailedRows(log: seq<BatchOutcome>, s: nat)
    ensures (exists row :: row in Map(ToFailed, Failures(log, None)) && row.seqNo == s)
       <==> (exists o :: o in LogOutcomes(log) && !o.Success? && o.seqNo == s)
  {
    var failures := Failures(log, None);
    FilterMembers(Shown(None), LogOutcomes(log));
    if row :| row in Map(ToFailed, failures) && row.seqNo == s {
      var i :| 0 <= i < |failures| && Map(ToFailed, failures)[i] == row;
      assert failures[i] in failures;
    }
    if o :| o in LogOutcomes(log) && !o.Success? && o.seqNo == s {
      assert Shown(None)(o);
      var i :| 0 <= i < |failures| && failures[i] == o;
      assert Map(ToFailed, failures)[i].seqNo == s;
    }
  }

  lemma {:induction false} FilterMembers(keep: RowOutcome -> bool, outcomes: seq<RowOutcome>)
    ensures forall o :: o in Filter(keep, outcomes) <==> o in outcomes && keep(o)
  {
    if outcomes != [] {
      FilterMembers(keep, outcomes[1..]);
      assert outcomes == [outcomes[0]] + outcomes[1..];
    }
  }
}
