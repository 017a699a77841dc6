/**
 The byte-window read of a log's last lines
 (`read_tail_lines`, crates/rowforge-studio-core/src/lib.rs). Decoding and
 carriage returns are line-by-line matters and left aside.
 */
module LogTail {
  import opened Base
  import opened Lines


  function Suffix(lines: seq<string>, k: nat): seq<string> { lines[|lines| - Min(k, |lines|)..] }

  ghost predicate ShortLines(content: string) {
    forall line :: line in Split(content) ==> |line| + 1 < 1000
  }

  lemma {:induction false} LengthBound(b: string)
    requires ShortLines(b)
    ensures |b| <= 999 * |Split(b)|
    decreases |b|
  {
    if b != [] {
      var i := NextBreak(b);
      assert b[..i] in Split(b);
      if i < |b| {
        SplitStep(b, i);
        LengthBound(b[i + 1..]);
      } else {
        SplitUnbroken(b);
      }
    }
  }

  lemma CutParts(head: string, tail: string, piece: string, rest: string)
    requires AtLineStart(head) && NextBreak(tail) == |tail| && NextBreak(piece) == |piece|
    ensures Split(head + (tail + piece + ['\n'] + rest)) == Split(head) + [tail + piece] + Split(rest)
  {
    var line := tail + piece + ['\n'];
    OneLine(tail, piece);
    assert AtLineStart(line);
    hide Split, NextBreak, AtLineStart;
    SplitConcat(head, line + rest);
    SplitConcat(line, rest);
    ConcatAssociates(Split(head), [tail + piece], Split(rest));
  }

  lemma Regroup(head: string, tail: string, b: string, i: nat)
    requires i < |b| && b[i] == '\n'
    ensures head + tail + b == head + (tail + b[..i] + ['\n'] + b[i + 1..])
  {
  }

  /** Cutting a file anywhere: what follows the first newline after the cut is a suffix of its lines. */
  lemma CutLines(a: string, b: string) returns (front: seq<string>)
    requires NextBreak(b) < |b|
    ensures var i := NextBreak(b);
      && Split(b) == [b[..i]] + Split(b[i + 1..])
      && Split(a + b) == front + Split(b[i + 1..])
      && |front| > 0 && |front[|front| - 1]| >= i
  {
    var i := NextBreak(b);
    SplitStep(b, i);
    var head, tail := LastLine(a);
    BreakIs(b[..i], i);
    Regroup(head, tail, b, i);
    CutParts(head, tail, b[..i], b[i + 1..]);
    hide Split, NextBreak, AtLineStart;
    front := Split(head) + [tail + b[..i]];
  }

  /** Cutting a file anywhere and dropping the first piece leaves a suffix of its lines. */
  lemma CutAnywhere(a: string, b: string)
    requires b != []
    ensures |Split(b)| > 0
    ensures exists front :: Split(a + b) == front + Split(b)[1..]
  {
    if NextBreak(b) < |b| {
      var front := CutLines(a, b);
      assert Split(a + b) == front + Split(b)[1..];
    } else {
      SplitUnbroken(b);
      assert Split(a + b) == Split(a + b) + Split(b)[1..];
    }
  }

  lemma OneLine(tail: string, more: string)
    requires NextBreak(tail) == |tail| && NextBreak(more) == |more|
    ensures Split(tail + more + ['\n']) == [tail + more]
  {
    var line := tail + more + ['\n'];
    BreakIs(line, |tail + more|);
    SplitStep(line, |tail + more|);
    assert line[|tail + more| + 1..] == [];
  }

  /** A long stretch without a newline at the end is a long last line. */
  lemma UnbrokenEnd(a: string, b: string)
    requires b != [] && NextBreak(b) == |b|
    ensures exists line :: line in Split(a + b) && |line| >= |b|
  {
    var head, tail := LastLine(a);
    assert a + b == head + (tail + b);
    SplitConcat(head, tail + b);
    BreakIs(tail + b, |tail + b|);
    SplitUnbroken(tail + b);
    assert tail + b in Split(a + b);
  }

  lemma ShortParts(front: seq<string>, rest: string, content: string)
    requires ShortLines(content) && Split(content) == front + Split(rest)
    ensures ShortLines(rest)
  {
    forall line | line in Split(rest) ensures |line| + 1 < 1000 {
      assert line in Split(content);
    }
  }

  lemma SuffixOfSuffix(all: seq<string>, lines: seq<string>, k: nat)
    requires k <= |lines| <= |all| && lines == Suffix(all, |lines|)
    ensures lines[|lines| - k..] == Suffix(all, k)
  {
  }

  method ReadTailLines(content: string, maxLines: nat) returns (lines: seq<string>)
    ensures lines == Suffix(Split(content), |lines|) && |lines| <= maxLines
    ensures ShortLines(content) ==> |lines| == Min(maxLines, |Split(content)|)
  {
    hide Split, Suffix, ShortLines;
    var target := Min(1000 * maxLines, |content|);
    var buf := content[|content| - target..];
    lines := Split(buf);
    if target < |content| && |lines| > 0 {
      lines := lines[1..];
    }
    WindowIsSuffix(content, maxLines, lines);
    if |lines| > maxLines {
      SuffixOfSuffix(Split(content), lines, maxLines);
      lines := lines[|lines| - maxLines..];
    }
  }

  /** The lines kept of the window. */
  function Kept(content: string, maxLines: nat): seq<string> {
    var target := Min(1000 * maxLines, |content|);
    var lines := Split(content[|content| - target..]);
    if target < |content| && |lines| > 0 then lines[1..] else lines
  }

  /** The window lies within one line: nothing of it is kept, and that line is not a short one. */
  lemma UnbrokenWindow(a: string, b: string)
    requires b != [] && NextBreak(b) == |b|
    ensures |Split(b)| == 1 && Split(b)[1..] == [] && Suffix(Split(a + b), 0) == []
    ensures ShortLines(a + b) ==> |b| < 999
  {
    SplitUnbroken(b);
    UnbrokenEnd(a, b);
    hide Split;
  }

  lemma WindowIsSuffix(content: string, maxLines: nat, lines: seq<string>)
    requires lines == Kept(content, maxLines)
    ensures |lines| <= |Split(content)| && lines == Suffix(Split(content), |lines|)
    ensures ShortLines(content) ==> |lines| >= Min(maxLines, |Split(content)|)
  {
    var target := Min(1000 * maxLines, |content|);
    var a, b := content[..|content| - target], content[|content| - target..];
    assert content == a + b;
    if target < |content| && b != [] {
      hide Split, Suffix, ShortLines;
      if NextBreak(b) < |b| {
        var rest := BrokenWindow(maxLines, a, b);
      } else {
        UnbrokenWindow(a, b);
      }
    } else if target < |content| {
      assert maxLines == 0;
    } else {
      assert b == content;
      hide Split, ShortLines;
    }
  }

  lemma SuffixOfConcat(front: seq<string>, rest: seq<string>)
    ensures Suffix(front + rest, |rest|) == rest
  {
  }

  lemma EnoughAfterCut(content: string, maxLines: nat, front: seq<string>, i: nat, rest: string)
    requires ShortLines(content) && Split(content) == front + Split(rest) && |front| > 0
    requires |front[|front| - 1]| >= i && i + 1 + |rest| == 1000 * maxLines
    ensures |Split(rest)| >= maxLines
  {
    ShortParts(front, rest, content);
    LengthBound(rest);
    assert front[|front| - 1] in Split(content);
    hide Split;
    EnoughLines(maxLines, |Split(rest)|, i, |rest|);
  }

  /** The window starts mid-file and reaches at least one newline. */
  lemma BrokenWindow(maxLines: nat, a: string, b: string) returns (rest: string)
    requires |b| == 1000 * maxLines && NextBreak(b) < |b|
    ensures |Split(b)| > 0 && Split(b)[1..] == Split(rest)
    ensures |Split(rest)| <= |Split(a + b)| && Split(rest) == Suffix(Split(a + b), |Split(rest)|)
    ensures ShortLines(a + b) ==> |Split(rest)| >= maxLines
  {
    var front := CutLines(a, b);
    rest := b[NextBreak(b) + 1..];
    DropFirst(b[..NextBreak(b)], Split(rest));
    SuffixOfConcat(front, Split(rest));
    WindowReaches(a + b, maxLines, front, NextBreak(b), rest);
    hide Split, NextBreak, Suffix, ShortLines;
  }

  lemma WindowReaches(content: string, maxLines: nat, front: seq<string>, i: nat, rest: string)
    requires Split(content) == front + Split(rest) && |front| > 0
    requires |front[|front| - 1]| >= i && i + 1 + |rest| == 1000 * maxLines
    ensures ShortLines(content) ==> |Split(rest)| >= maxLines
  {
    if ShortLines(content) {
      EnoughAfterCut(content, maxLines, front, i, rest);
    }
  }

  lemma DropFirst(x: string, lines: seq<string>)
    ensures ([x] + lines)[1..] == lines
  {
  }

  /** The arithmetic of the window: 1000 bytes a line hold that many lines of under 1000, and a partial one before. */
  lemma EnoughLines(maxLines: nat, kept: nat, first: nat, rest: nat)
    requires first + 1 + rest == 1000 * maxLines
    requires first + 1 < 1000 && rest <= 999 * kept
    ensures kept >= maxLines
  {
    assert 1000 * maxLines <= 999 + 999 * kept;
  }
}
