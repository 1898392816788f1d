/** Byte streams cut into lines: the whole-stream definitions that the chunked readers of
    `console.rs` and `process_metrics.rs` are compared with. */
module Lines {
  import opened Sequences

  type byte = x: int | 0 <= x < 256

  const NEWLINE: byte := 10

  /** Index of the first newline, or the length when there is none. */
  function LineEnd(s: seq<byte>): (pos: nat)
    ensures pos <= |s|
    ensures pos < |s| ==> s[pos] == NEWLINE
    ensures forall k :: 0 <= k < pos ==> s[k] != NEWLINE
  {
    if s == [] || s[0] == NEWLINE then 0 else 1 + LineEnd(s[1..])
  }

  /** The newline-terminated lines of a stream, terminators included. */
  function CompleteLines(s: seq<byte>): seq<seq<byte>>
    decreases |s|
  {
    var end := LineEnd(s);
    if end == |s| then [] else [s[..end + 1]] + CompleteLines(s[end + 1..])
  }

  /** What follows the last newline. */
  function Partial(s: seq<byte>): (rest: seq<byte>)
    ensures |rest| <= |s|
    ensures NEWLINE !in rest
    decreases |s|
  {
    var end := LineEnd(s);
    if end == |s| then s else Partial(s[end + 1..])
  }

  function Flatten(parts: seq<seq<byte>>): seq<byte> {
    if parts == [] then [] else Flatten(parts[..|parts| - 1]) + parts[|parts| - 1]
  }

  lemma LineEndIs(s: seq<byte>, pos: nat)
    requires pos <= |s| && NEWLINE !in s[..pos] && (pos < |s| ==> s[pos] == NEWLINE)
    ensures LineEnd(s) == pos
  {
    assert forall k :: 0 <= k < pos ==> s[k] == s[..pos][k];
  }

  /** One line with its terminator. */
  predicate IsLine(line: seq<byte>) {
    line != [] && line[|line| - 1] == NEWLINE && NEWLINE !in line[..|line| - 1]
  }

  lemma ConsLine(line: seq<byte>, rest: seq<byte>)
    requires IsLine(line)
    ensures CompleteLines(line + rest) == [line] + CompleteLines(rest)
    ensures Partial(line + rest) == Partial(rest)
  {
    var s := line + rest;
    assert s[..|line| - 1] == line[..|line| - 1];
    LineEndIs(s, |line| - 1);
    assert s[..|line|] == line && s[|line|..] == rest;
  }

  lemma FirstLine(s: seq<byte>) returns (line: seq<byte>, rest: seq<byte>)
    requires LineEnd(s) < |s|
    ensures line == s[..LineEnd(s) + 1] && rest == s[LineEnd(s) + 1..]
    ensures IsLine(line) && s == line + rest
    ensures CompleteLines(s) == [line] + CompleteLines(rest) && Partial(s) == Partial(rest)
  {
    var end := LineEnd(s);
    line, rest := s[..end + 1], s[end + 1..];
    assert line[..end] == s[..end];
  }

  lemma NoNewlineIsPartial(s: seq<byte>)
    requires NEWLINE !in s
    ensures CompleteLines(s) == [] && Partial(s) == s
  {
    LineEndIs(s, |s|);
  }

  lemma FlattenSnoc(parts: seq<seq<byte>>, last: seq<byte>)
    ensures Flatten(parts + [last]) == Flatten(parts) + last
  {
    assert (parts + [last])[..|parts|] == parts;
  }

  lemma {:induction false} FlattenAppend(a: seq<seq<byte>>, b: seq<seq<byte>>)
    ensures Flatten(a + b) == Flatten(a) + Flatten(b)
    decreases |b|
  {
    if b == [] {
      EmptyRight(a);
      EmptyRight(Flatten(a));
    } else {
      var init, last := b[..|b| - 1], b[|b| - 1];
      Snoc(b);
      Associative(a, init, [last]);
      FlattenAppend(a, init);
      FlattenSnoc(a + init, last);
      Associative(Flatten(a), Flatten(init), last);
    }
  }

  /** Reading a stream in two pieces: only the first piece's unfinished line carries over. */
  lemma {:induction false} SplitStream(a: seq<byte>, b: seq<byte>)
    ensures CompleteLines(a + b) == CompleteLines(a) + CompleteLines(Partial(a) + b)
    ensures Partial(a + b) == Partial(Partial(a) + b)
    decreases |a|
  {
    if LineEnd(a) < |a| {
      var line, rest := FirstLine(a);
      SplitStream(rest, b);
      SplitAfterLine(line, rest, b);
      Associative([line], CompleteLines(rest), CompleteLines(Partial(rest) + b));
    } else {
      EmptyLeft(CompleteLines(a + b));
    }
  }

  lemma SplitAfterLine(line: seq<byte>, rest: seq<byte>, b: seq<byte>)
    requires IsLine(line)
    ensures CompleteLines(line + rest + b) == [line] + CompleteLines(rest + b)
    ensures Partial(line + rest + b) == Partial(rest + b)
  {
    Associative(line, rest, b);
    ConsLine(line, rest + b);
  }

  /** A stream is its lines, and then what follows the last of them. */
  lemma {:induction false} LinesOf(s: seq<byte>)
    ensures forall i :: 0 <= i < |CompleteLines(s)| ==> IsLine(CompleteLines(s)[i])
    ensures Flatten(CompleteLines(s)) + Partial(s) == s
    decreases |s|
  {
    if LineEnd(s) == |s| {
      EmptyLeft(s);
    } else {
      var line, rest := FirstLine(s);
      LinesOf(rest);
      FlattenAppend([line], CompleteLines(rest));
      FlattenSnoc([], line);
      EmptyLeft([line]);
      EmptyLeft(line);
      Associative(line, Flatten(CompleteLines(rest)), Partial(rest));
    }
  }

  /** Line `i` of a stream in its place: what comes before it and what comes after it. */
  predicate InContext(s: seq<byte>, i: nat, before: seq<byte>, line: seq<byte>, after: seq<byte>) {
    && i < |CompleteLines(s)|
    && CompleteLines(s)[i] == line && IsLine(line)
    && s == before + line + after
    && CompleteLines(before) == CompleteLines(s)[..i] && Partial(before) == []
    && CompleteLines(after) == CompleteLines(s)[i + 1..] && Partial(after) == Partial(s)
  }

  lemma {:induction false} LineInContext(s: seq<byte>, i: nat)
    returns (before: seq<byte>, line: seq<byte>, after: seq<byte>)
    requires i < |CompleteLines(s)|
    ensures InContext(s, i, before, line, after)
    decreases i
  {
    var first, rest := FirstLine(s);
    if i == 0 {
      LineInFront(first, rest);
      before, line, after := [], first, rest;
    } else {
      before, line, after := LineInContext(rest, i - 1);
      LineInLonger(first, rest, i, before, line, after);
      before := first + before;
    }
  }

  lemma LineInFront(first: seq<byte>, rest: seq<byte>)
    requires IsLine(first)
    ensures InContext(first + rest, 0, [], first, rest)
  {
    ConsLine(first, rest);
    EmptyLeft(first);
  }

  lemma LineInLonger(
      first: seq<byte>, rest: seq<byte>, i: nat, before: seq<byte>, line: seq<byte>, after: seq<byte>)
    requires IsLine(first) && i > 0 && InContext(rest, i - 1, before, line, after)
    ensures InContext(first + rest, i, first + before, line, after)
  {
    ConsLine(first, rest);
    ConsLine(first, before);
    LineBehind(first, CompleteLines(rest), i);
    ContextBehind(first, before, line, after);
  }

  lemma ContextBehind(line: seq<byte>, before: seq<byte>, middle: seq<byte>, after: seq<byte>)
    ensures line + (before + middle + after) == line + before + middle + after
  {
    Associative(line, before + middle, after);
    Associative(line, before, middle);
  }

  lemma LineBehind<T>(line: T, lines: seq<T>, i: nat)
    requires 0 < i <= |lines|
    ensures ([line] + lines)[i] == lines[i - 1]
    ensures ([line] + lines)[..i] == [line] + lines[..i - 1]
    ensures ([line] + lines)[i + 1..] == lines[i..]
  {
  }
}
