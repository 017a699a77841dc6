/** Files as lines: the splitting every line reader does, and the row count taken at import. */
module Lines {

  /** Position of the first newline, or the length. */
  function NextBreak(b: string): (i: nat)
    ensures i <= |b|
    ensures i < |b| ==> b[i] == '\n'
    ensures forall k :: 0 <= k < i ==> b[k] != '\n'
  {
    if b == [] || b[0] == '\n' then 0 else 1 + NextBreak(b[1..])
  }

  /** The pieces between newlines; a last piece without newline counts when it is not empty. */
  function Split(b: string): seq<string>
    decreases |b|
  {
    if b == [] then []
    else
      var i := NextBreak(b);
      [b[..i]] + if i < |b| then Split(b[i + 1..]) else []
  }

  /** No unfinished line at the end. */
  predicate AtLineStart(b: string) { b == [] || b[|b| - 1] == '\n' }

  lemma BreakIs(b: string, i: nat)
    requires i <= |b| && (i < |b| ==> b[i] == '\n')
    requires forall k :: 0 <= k < i ==> b[k] != '\n'
    ensures NextBreak(b) == i
  {
  }

  lemma {:induction false} NextBreakPrefix(a: string, b: string)
    requires NextBreak(a) < |a|
    ensures NextBreak(a + b) == NextBreak(a)
  {
    if a[0] != '\n' {
      assert (a + b)[1..] == a[1..] + b;
      NextBreakPrefix(a[1..], b);
    }
  }

  lemma SplitStep(b: string, i: nat)
    requires NextBreak(b) == i < |b|
    ensures Split(b) == [b[..i]] + Split(b[i + 1..])
  {
  }

  lemma ConcatAssociates<T>(x: seq<T>, y: seq<T>, z: seq<T>)
    ensures x + (y + z) == (x + y) + z
  {
  }

  lemma NewlineSplits(a: string, b: string, i: nat)
    requires i < |a|
    ensures (a + b)[..i] == a[..i] && (a + b)[i + 1..] == a[i + 1..] + b
  {
  }

  lemma BreakFound(a: string)
    requires AtLineStart(a) && a != []
    ensures NextBreak(a) < |a| && AtLineStart(a[NextBreak(a) + 1..])
  {
    hide NextBreak;
  }

  /** Both texts lose the same first line. */
  lemma FirstLine(a: string, b: string)
    requires AtLineStart(a) && a != []
    ensures var i := NextBreak(a);
      && i < |a| && AtLineStart(a[i + 1..])
      && Split(a) == [a[..i]] + Split(a[i + 1..])
      && Split(a + b) == [a[..i]] + Split(a[i + 1..] + b)
  {
    hide *;
    BreakFound(a);
    NextBreakPrefix(a, b);
    CutFirst(a, b, NextBreak(a));
  }

  lemma CutFirst(a: string, b: string, i: nat)
    requires NextBreak(a) == i == NextBreak(a + b) && i < |a|
    ensures Split(a) == [a[..i]] + Split(a[i + 1..])
    ensures Split(a + b) == [a[..i]] + Split(a[i + 1..] + b)
  {
    hide *;
    NewlineSplits(a, b, i);
    SplitStep(a, i);
    SplitStep(a + b, i);
  }

  /** Splitting works piecewise at any line start. */
  lemma {:induction false} SplitConcat(a: string, b: string)
    requires AtLineStart(a)
    ensures Split(a + b) == Split(a) + Split(b)
    decreases |a|
  {
    SplitNothing([]);
    hide *;
    if a == [] {
      assert a + b == b;
    } else {
      var i := NextBreak(a);
      FirstLine(a, b);
      SplitConcat(a[i + 1..], b);
      ConcatAssociates([a[..i]], Split(a[i + 1..]), Split(b));
    }
  }

  lemma {:induction false} SplitUnbroken(b: string)
    requires b != [] && NextBreak(b) == |b|
    ensures Split(b) == [b]
  {
    assert b[..|b|] == b;
  }

  /** Every text is a part ending at a line start followed by an unbroken remainder. */
  lemma {:induction false} LastLine(b: string) returns (head: string, tail: string)
    ensures b == head + tail && AtLineStart(head) && NextBreak(tail) == |tail|
    decreases |b|
  {
    var i := NextBreak(b);
    if i == |b| {
      head, tail := [], b;
    } else {
      head, tail := LastLine(b[i + 1..]);
      head := b[..i + 1] + head;
      assert b == b[..i + 1] + b[i + 1..];
    }
  }

  lemma {:induction false} SplitSnoc(b: string, c: char)
    ensures |Split(b + [c])| == |Split(b)| + if AtLineStart(b) then 1 else 0
  {
    var head, tail := LastLine(b);
    assert AtLineStart(b) <==> tail == [] by {
      hide NextBreak;
      if tail != [] { assert b[|b| - 1] == tail[|tail| - 1]; }
    }
    TailSnoc(tail, c);
    hide *;
    assert b + [c] == head + (tail + [c]);
    SplitConcat(head, tail);
    SplitConcat(head, tail + [c]);
  }

  /** A character after an unbroken remainder leaves it one line, or starts one. */
  lemma TailSnoc(tail: string, c: char)
    requires NextBreak(tail) == |tail|
    ensures |Split(tail + [c])| == 1
    ensures |Split(tail)| == if tail == [] then 0 else 1
  {
    var i := if c == '\n' then |tail| else |tail| + 1;
    BreakIs(tail + [c], i);
    if tail != [] { SplitUnbroken(tail); }
    hide NextBreak;
    if c == '\n' {
      SplitStep(tail + [c], i);
      assert (tail + [c])[i + 1..] == [];
    } else {
      SplitUnbroken(tail + [c]);
    }
  }

  lemma SplitNothing(b: string)
    ensures Split(b) == [] <==> b == []
  {
  }

  /** The lines put together again, each with its newline. */
  function Joined(lines: seq<string>): string {
    if lines == [] then [] else lines[0] + ['\n'] + Joined(lines[1..])
  }

  lemma JoinedCons(line: string, lines: seq<string>)
    ensures Joined([line] + lines) == line + ['\n'] + Joined(lines)
  {
  }

  lemma SameEnd(b: string, i: nat)
    requires i < |b| && b[i] == '\n'
    ensures AtLineStart(b) <==> AtLineStart(b[i + 1..])
    ensures b == b[..i] + ['\n'] + b[i + 1..]
  {
  }

  lemma Unbroken(b: string)
    ensures var i := NextBreak(b); '\n' !in b[..i] && (i < |b| ==> b[i] == '\n')
  {
  }

  lemma LongerBy(line: string, rest: string)
    ensures line + ['\n'] + (rest + ['\n']) == (line + ['\n'] + rest) + ['\n']
  {
  }

  lemma WholeLine(b: string)
    requires b != [] && NextBreak(b) == |b|
    ensures !AtLineStart(b) && Joined([b]) == b + ['\n'] && b[..|b|] == b
  {
    assert [b][1..] == [];
    assert b + ['\n'] + Joined([]) == b + ['\n'];
  }

  /** Splitting loses nothing but where the last newline was, and no line holds one. */
  lemma {:induction false} SplitJoins(b: string)
    ensures Joined(Split(b)) == if AtLineStart(b) then b else b + ['\n']
    ensures forall line :: line in Split(b) ==> '\n' !in line
    decreases |b|
  {
    SplitNothing([]);
    assert Joined([]) == [] && AtLineStart([]);
    hide *;
    if b != [] {
      var i := NextBreak(b);
      Unbroken(b);
      if i < |b| {
        SplitStep(b, i);
        SplitJoins(b[i + 1..]);
        SameEnd(b, i);
        JoinedCons(b[..i], Split(b[i + 1..]));
        LongerBy(b[..i], b[i + 1..]);
      } else {
        SplitUnbroken(b);
        WholeLine(b);
      }
    }
  }

  /** A text without a newline is at most one line, whatever else may end a record in it. */
  lemma BareReturnsAreOneLine(content: string)
    requires '\n' !in content
    ensures |Split(content)| <= 1
  {
    if content != [] {
      BreakIs(content, |content|);
      SplitUnbroken(content);
    }
  }

  /** `hash_and_count_rows` without the hash: one pass over the bytes. */
  method CountRows(content: string, isJsonl: bool) returns (rows: nat)
    ensures isJsonl ==> rows == |Split(content)|
    ensures !isJsonl ==> rows == if content == [] then 0 else |Split(content)| - 1
  {
    SplitNothing([]);
    SplitNothing(content);
    hide Split;
    var newlines, lastWasNewline := 0, true;
    for i := 0 to |content|
      invariant lastWasNewline == AtLineStart(content[..i])
      invariant newlines + (if lastWasNewline then 0 else 1) == |Split(content[..i])|
    {
      assert content[..i + 1] == content[..i] + [content[i]];
      SplitSnoc(content[..i], content[i]);
      if content[i] == '\n' {
        newlines := newlines + 1;
        lastWasNewline := true;
      } else {
        lastWasNewline := false;
      }
    }
    assert content[..|content|] == content;
    var lines := newlines;
    if |content| > 0 && !lastWasNewline {
      lines := lines + 1;
    }
    rows := if isJsonl then lines else if lines >= 1 then lines - 1 else 0;
  }
}
