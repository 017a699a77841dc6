/**
 Numbering of JSONL rows (crates/rowforge-core/src/input_stream.rs): the
 first non-blank line is row 0 and every later line, blank or bad, uses up a
 number. The row count taken at import bounds them all.
 */
module JsonlInput {
  import opened Base
  import opened Protocol
  import opened Pipeline
  import opened Lines

  /** What a line is to the parser; reading and JSON syntax themselves are not modelled. */
  datatype Parsing = Blank | Malformed | Object(data: Data)

  datatype Reading = Reading(parse: string -> Parsing, size: Data -> nat, required: set<string>)

  /** Items from the lines after the first row, numbered from `seqNo` on. */
  function Later(r: Reading, lines: seq<string>, seqNo: nat): seq<Item> {
    if lines == [] then []
    else match r.parse(lines[0])
      case Blank => Later(r, lines[1..], seqNo + 1)
      case Malformed => [ParseError] + Later(r, lines[1..], seqNo + 1)
      case Object(data) => [Source(Row(seqNo, data, r.size(data)))] + Later(r, lines[1..], seqNo + 1)
  }

  /** The whole stream; opening fails on a malformed first row or one without the required keys. */
  function Items(r: Reading, lines: seq<string>): Option<seq<Item>> {
    if lines == [] then Some([])
    else match r.parse(lines[0])
      case Blank => Items(r, lines[1..])
      case Malformed => None
      case Object(data) =>
        if r.required <= data.Keys then Some([Source(Row(0, data, r.size(data)))] + Later(r, lines[1..], 1)) else None
  }

  /** The stream once the first row, if any, has been taken off the lines. */
  function Peeked(r: Reading, first: Option<Data>, lines: seq<string>): seq<Item> {
    match first
    case Some(d) => [Source(Row(0, d, r.size(d)))] + Later(r, lines, 1)
    case None => Later(r, lines, 0)
  }

  class JsonlIter {
    const r: Reading
    var lines: seq<string>
    var seqNo: nat
    var first: Option<Data>
    var firstEmitted: bool

    function Remaining(): seq<Item> reads this {
      if !firstEmitted && first.Some? then
        [Source(Row(seqNo, first.value, r.size(first.value)))] + Later(r, lines, seqNo + 1)
      else Later(r, lines, seqNo)
    }

    constructor (r: Reading, first: Option<Data>, lines: seq<string>)
      ensures this.r == r && Remaining() == Peeked(r, first, lines)
    {
      this.r := r;
      this.lines, this.first := lines, first;
      seqNo, firstEmitted := 0, false;
    }

    method Next() returns (item: Option<Item>)
      modifies this
      ensures old(Remaining()) == match item case Some(x) => [x] + Remaining() case None => []
      ensures item.None? ==> Remaining() == []
    {
      if !firstEmitted {
        firstEmitted := true;
        if first.Some? {
          var data := first.value;
          first := None;
          seqNo := seqNo + 1;
          return Some(Source(Row(seqNo - 1, data, r.size(data))));
        }
      }
      while |lines| > 0
        invariant firstEmitted && Remaining() == old(Remaining())
        decreases |lines|
      {
        var line := lines[0];
        lines := lines[1..];
        var n := seqNo;
        seqNo := seqNo + 1;
        match r.parse(line) {
          case Blank =>
          case Malformed => return Some(ParseError);
          case Object(data) => return Some(Source(Row(n, data, r.size(data))));
        }
      }
      item := None;
    }
  }

  /** `JsonlInputStream::open`: skip leading blank lines, peek the first row, check its keys. */
  method Open(r: Reading, content: string) returns (ok: bool, first: Option<Data>, lines: seq<string>)
    ensures Items(r, Split(content)) == if ok then Some(Peeked(r, first, lines)) else None
  {
    lines, first, ok := Split(content), None, true;
    while |lines| > 0 && r.parse(lines[0]).Blank?
      invariant Items(r, lines) == Items(r, Split(content))
      decreases |lines|
    {
      lines := lines[1..];
    }
    if |lines| > 0 {
      var parsed := r.parse(lines[0]);
      if parsed.Object? && r.required <= parsed.data.Keys {
        first, lines := Some(parsed.data), lines[1..];
      } else {
        ok := false;
      }
    }
  }

  method Drain(it: JsonlIter) returns (all: seq<Item>)
    modifies it
    ensures all == old(it.Remaining())
  {
    hide JsonlIter.Remaining;
    all := [];
    ghost var coming := it.Remaining();
    var item := it.Next();
    assert [] + coming == coming;
    while item.Some?
      invariant all + coming == old(it.Remaining())
      invariant coming == match item case Some(x) => [x] + it.Remaining() case None => []
      decreases |coming|
    {
      ConcatAssociates(all, [item.value], it.Remaining());
      all := all + [item.value];
      coming := it.Remaining();
      item := it.Next();
    }
  }

  /** Opening the file and reading it to its end yields exactly the specified items. */
  method ReadJsonl(r: Reading, content: string) returns (items: Option<seq<Item>>)
    ensures items == Items(r, Split(content))
  {
    var ok, first, lines := Open(r, content);
    if !ok { return None; }
    var it := new JsonlIter(r, first, lines);
    var all := Drain(it);
    items := Some(all);
  }

  lemma {:induction false} LaterNumbers(r: Reading, lines: seq<string>, seqNo: nat)
    ensures Increasing(Parsed(Later(r, lines, seqNo)))
    ensures forall row :: row in Parsed(Later(r, lines, seqNo)) ==> seqNo <= row.seqNo < seqNo + |lines|
  {
    if lines != [] {
      var rest := Later(r, lines[1..], seqNo + 1);
      LaterNumbers(r, lines[1..], seqNo + 1);
      match r.parse(lines[0])
      case Blank =>
      case Malformed => assert ([ParseError] + rest)[1..] == rest;
      case Object(data) =>
        var row := Row(seqNo, data, r.size(data));
        assert ([Source(row)] + rest)[1..] == rest;
        assert Parsed([Source(row)] + rest) == [row] + Parsed(rest);
    }
  }

  /** Sequence numbers increase and stay below the row count that import recorded for the same file. */
  lemma {:induction false} NumbersBelowCount(r: Reading, lines: seq<string>)
    requires Items(r, lines).Some?
    ensures Increasing(Parsed(Items(r, lines).value))
    ensures forall row :: row in Parsed(Items(r, lines).value) ==> row.seqNo < |lines|
  {
    if lines != [] {
      match r.parse(lines[0])
      case Blank => NumbersBelowCount(r, lines[1..]);
      case Object(data) =>
        var rest, row := Later(r, lines[1..], 1), Row(0, data, r.size(data));
        LaterNumbers(r, lines[1..], 1);
        assert ([Source(row)] + rest)[1..] == rest;
        assert Parsed([Source(row)] + rest) == [row] + Parsed(rest);
    }
  }

  // ------------------------------------------------------------------
  // Which line becomes which row
  // ------------------------------------------------------------------

  /** The row is what this line parses to. */
  predicate FromLine(r: Reading, line: string, row: Row) {
    r.parse(line) == Object(row.data) && row.size == r.size(row.data)
  }

  lemma {:induction false} LaterIff(r: Reading, lines: seq<string>, seqNo: nat, row: Row)
    ensures Source(row) in Later(r, lines, seqNo) <==>
      seqNo <= row.seqNo < seqNo + |lines| && FromLine(r, lines[row.seqNo - seqNo], row)
    ensures ParseError in Later(r, lines, seqNo) <==> exists line :: line in lines && r.parse(line).Malformed?
    ensures |Later(r, lines, seqNo)| == |Filter((line: string) => !r.parse(line).Blank?, lines)|
  {
    if lines != [] {
      var rest := lines[1..];
      assert lines == [lines[0]] + rest;
      LaterIff(r, rest, seqNo + 1, row);
      if row.seqNo > seqNo && row.seqNo < seqNo + |lines| {
        assert lines[row.seqNo - seqNo] == rest[row.seqNo - (seqNo + 1)];
      }
    }
  }

  /** Before the first row there are only blank lines. */
  ghost predicate FirstRowAt(r: Reading, lines: seq<string>, first: nat) {
    && first <= |lines| && (forall i :: 0 <= i < first ==> r.parse(lines[i]).Blank?)
    && (first < |lines| ==> !r.parse(lines[first]).Blank?)
  }

  /**
   The file's line `first + k` is row k, for every k: blank and malformed lines after the first row use up a
   number, blank ones before it do not. Malformed lines become parse errors, and each line that is not blank
   becomes one item.
   */
  lemma {:induction false} RowsAreLines(r: Reading, lines: seq<string>, first: nat, row: Row)
    requires FirstRowAt(r, lines, first)
    ensures Items(r, lines).Some? <==>
      first == |lines| || (r.parse(lines[first]).Object? && r.required <= r.parse(lines[first]).data.Keys)
    ensures Items(r, lines).Some? ==>
      var items := Items(r, lines).value;
      && (Source(row) in items <==>
           first + row.seqNo < |lines| && FromLine(r, lines[first + row.seqNo], row))
      && (ParseError in items <==> exists line :: line in lines && r.parse(line).Malformed?)
      && |items| == |Filter((line: string) => !r.parse(line).Blank?, lines)|
    decreases |lines|
  {
    if lines != [] {
      var rest := lines[1..];
      assert lines == [lines[0]] + rest;
      if first > 0 {
        RowsAreLines(r, rest, first - 1, row);
      } else {
        LaterIff(r, rest, 1, row);
        if row.seqNo > 0 && row.seqNo < |lines| {
          assert lines[row.seqNo] == rest[row.seqNo - 1];
        }
      }
    }
  }
}
