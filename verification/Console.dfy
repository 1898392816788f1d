/** The console path of `console.rs`: the metrics-line filter and the scrollback broker. */
module Console {
  import opened Lines
  import opened Sequences

  /** "FIRECRAB_USAGE" */
  const MARKER: seq<byte> := [70, 73, 82, 69, 67, 82, 65, 66, 95, 85, 83, 65, 71, 69]

  const MAX_PENDING: nat := 8 * 1024
  const MAX_BACKLOG_BYTES: nat := 256 * 1024

  predicate HasMarker(s: seq<byte>) {
    exists k :: 0 <= k <= |s| && MarkerAt(s, k)
  }

  predicate MarkerAt(s: seq<byte>, k: nat) {
    k + |MARKER| <= |s| && s[k..k + |MARKER|] == MARKER
  }

  predicate IsControl(b: byte) {
    b < 32 || b == 127
  }

  function TrimControlStart(s: seq<byte>): seq<byte> {
    if s != [] && IsControl(s[0]) then TrimControlStart(s[1..]) else s
  }

  predicate CouldBecomeUsageLine(buf: seq<byte>) {
    var trimmed := TrimControlStart(buf);
    HasMarker(trimmed) || (trimmed != [] && trimmed <= MARKER)
  }

  /** Lines that carry no marker, in order. */
  function Kept(lines: seq<seq<byte>>): seq<byte> {
    if lines == [] then []
    else (if HasMarker(lines[0]) then [] else lines[0]) + Kept(lines[1..])
  }

  function Capped(buf: seq<byte>): seq<byte> {
    LastN(buf, MAX_PENDING)
  }

  /** An unfinished line is held only while it could still turn out to be a report. */
  function HoldOrFlush(out: seq<byte>, rest: seq<byte>): (seq<byte>, seq<byte>) {
    if rest != [] && !CouldBecomeUsageLine(rest) then (out + rest, []) else (out, rest)
  }

  /** One call of the filter: the visible bytes and what stays pending. */
  function FilterStep(pending: seq<byte>, chunk: seq<byte>): (seq<byte>, seq<byte>) {
    var buf := Capped(pending + chunk);
    HoldOrFlush(Kept(CompleteLines(buf)), Partial(buf))
  }

  method FilterGuestUsageForTerminal(pending: seq<byte>, chunk: seq<byte>)
    returns (out: seq<byte>, rest: seq<byte>)
    ensures (out, rest) == FilterStep(pending, chunk)
    ensures |rest| <= MAX_PENDING
  {
    rest := pending + chunk;
    if |rest| > MAX_PENDING {
      var excess := |rest| - MAX_PENDING;
      rest := rest[excess..];
    }
    ghost var buf, drained := rest, [];
    EmptyLeft(CompleteLines(buf));
    out := [];
    var pos := LineEnd(rest);
    while pos < |rest|
      invariant pos == LineEnd(rest) && |rest| <= |buf|
      invariant CompleteLines(buf) == drained + CompleteLines(rest) && Partial(rest) == Partial(buf)
      invariant out == Kept(drained)
      decreases |rest|
    {
      DrainLine(drained, rest, pos);
      var line := rest[..pos + 1];
      rest := rest[pos + 1..];
      if !HasMarker(line) {
        out := out + line;
      }
      drained := drained + [line];
      pos := LineEnd(rest);
    }
    AllDrained(drained, rest);
    if rest != [] && !CouldBecomeUsageLine(rest) {
      out := out + rest;
      rest := [];
    }
  }

  lemma AllDrained(drained: seq<seq<byte>>, rest: seq<byte>)
    requires LineEnd(rest) == |rest|
    ensures drained + CompleteLines(rest) == drained && Partial(rest) == rest
  {
    EmptyRight(drained);
  }

  lemma DrainLine(drained: seq<seq<byte>>, rest: seq<byte>, pos: nat)
    requires pos == LineEnd(rest) < |rest|
    ensures
      var line, tail := rest[..pos + 1], rest[pos + 1..];
      && drained + CompleteLines(rest) == drained + [line] + CompleteLines(tail)
      && Partial(rest) == Partial(tail)
      && Kept(drained + [line]) == if HasMarker(line) then Kept(drained) else Kept(drained) + line
  {
    var line, tail := FirstLine(rest);
    Associative(drained, [line], CompleteLines(tail));
    KeptAppend(drained, [line]);
    KeptOne(line);
    if HasMarker(line) {
      EmptyRight(Kept(drained));
    }
  }

  // ----- What one call holds

  /** Just the first `k` bytes are control bytes, up to the first that is not. */
  predicate ControlUpTo(s: seq<byte>, k: nat) {
    && k <= |s|
    && (forall j :: 0 <= j < k ==> IsControl(s[j]))
    && (k < |s| ==> !IsControl(s[k]))
  }

  lemma {:induction false} TrimmedIs(s: seq<byte>, k: nat)
    requires ControlUpTo(s, k)
    ensures TrimControlStart(s) == s[k..]
  {
    if k > 0 {
      TrimmedIs(s[1..], k - 1);
    }
  }

  lemma MarkerStarts(s: seq<byte>, k: nat)
    requires MarkerAt(s, k)
    ensures s[k] == MARKER[0]
  {
    assert s[k] == s[k..k + |MARKER|][0];
  }

  /** A marker holds no control byte, so none of it is lost with the leading ones. */
  lemma MarkerAfterControl(s: seq<byte>, k: nat)
    requires ControlUpTo(s, k)
    ensures HasMarker(s[k..]) <==> HasMarker(s)
  {
    if HasMarker(s) {
      var j :| 0 <= j <= |s| && MarkerAt(s, j);
      MarkerStarts(s, j);
      assert s[k..][j - k..j - k + |MARKER|] == s[j..j + |MARKER|];
      assert MarkerAt(s[k..], j - k);
    }
    if HasMarker(s[k..]) {
      SuffixHasNoMarker(s[..k], s[k..]);
      assert s[..k] + s[k..] == s;
    }
  }

  /** An unfinished line could become a report when the marker is in it, or when it has begun
      with what follows its leading control bytes. */
  lemma CouldBecomeExactly(line: seq<byte>, k: nat)
    requires ControlUpTo(line, k)
    ensures CouldBecomeUsageLine(line) <==> HasMarker(line) || (k < |line| && line[k..] <= MARKER)
  {
    TrimmedIs(line, k);
    MarkerAfterControl(line, k);
  }

  /** Every call, whatever was pending: it looks at the last 8 KiB in hand, shows their complete
      lines but for the marker's, and holds the unfinished line exactly when the marker is in it
      or begins it after control bytes. Any other unfinished line is shown at once. */
  lemma HeldExactly(pending: seq<byte>, chunk: seq<byte>, buf: seq<byte>, k: nat)
    requires |buf| <= MAX_PENDING && exists cut: seq<byte> :: IsCut(cut, buf, pending + chunk)
    requires ControlUpTo(Partial(buf), k)
    ensures
      var line := Partial(buf);
      var held := HasMarker(line) || (k < |line| && line[k..] <= MARKER);
      FilterStep(pending, chunk) ==
      if held then (Kept(CompleteLines(buf)), line) else (Kept(CompleteLines(buf)) + line, [])
  {
    var cut: seq<byte> :| IsCut(cut, buf, pending + chunk);
    assert (cut + buf)[|cut|..] == buf;
    CouldBecomeExactly(Partial(buf), k);
    EmptyRight(Kept(CompleteLines(buf)));
  }

  /** `buf` is what a cut leaves of `all`; nothing is cut off that would have fitted. */
  predicate IsCut(cut: seq<byte>, buf: seq<byte>, all: seq<byte>) {
    cut + buf == all && (cut != [] ==> |buf| == MAX_PENDING)
  }

  // ----- The whole stream

  /** The stream with exactly its complete marker lines deleted. */
  function Visible(s: seq<byte>): seq<byte> {
    Kept(CompleteLines(s)) + Partial(s)
  }

  predicate MarkerOnlyLeads(line: seq<byte>) {
    HasMarker(line) ==> MARKER <= line
  }

  /** Every complete line either begins with the marker or does not contain it. */
  predicate LinesWellFormed(s: seq<byte>) {
    forall i :: 0 <= i < |CompleteLines(s)| ==> MarkerOnlyLeads(CompleteLines(s)[i])
  }

  function Feed(chunks: seq<seq<byte>>): (seq<byte>, seq<byte>) {
    if chunks == [] then ([], [])
    else
      var (out, pending) := Feed(chunks[..|chunks| - 1]);
      var (more, pending') := FilterStep(pending, chunks[|chunks| - 1]);
      (out + more, pending')
  }

  /** No call finds more than `MAX_PENDING` bytes in hand. */
  predicate WithinCap(chunks: seq<seq<byte>>) {
    chunks == [] ||
    var before, last := chunks[..|chunks| - 1], chunks[|chunks| - 1];
    WithinCap(before) && |Feed(before).1| + |last| <= MAX_PENDING
  }

  lemma KeptCons(line: seq<byte>, tail: seq<seq<byte>>)
    ensures Kept([line] + tail) == (if HasMarker(line) then [] else line) + Kept(tail)
  {
    assert ([line] + tail)[1..] == tail;
  }

  lemma {:induction false} KeptAppend(a: seq<seq<byte>>, b: seq<seq<byte>>)
    ensures Kept(a + b) == Kept(a) + Kept(b)
  {
    if a == [] {
      EmptyLeft(b);
      EmptyLeft(Kept(b));
    } else {
      var line, rest := a[0], a[1..];
      assert a == [line] + rest;
      KeptAppend(rest, b);
      Associative([line], rest, b);
      KeptCons(line, rest);
      KeptCons(line, rest + b);
      Associative(if HasMarker(line) then [] else line, Kept(rest), Kept(b));
    }
  }

  lemma KeptOne(line: seq<byte>)
    ensures Kept([line]) == if HasMarker(line) then [] else line
  {
    EmptyRight([line]);
    KeptCons(line, []);
    EmptyRight(if HasMarker(line) then [] else line);
  }

  /** The visible part of a stream that goes on with one whole line. */
  lemma KeptAround(before: seq<seq<byte>>, line: seq<byte>, after: seq<seq<byte>>)
    ensures Kept(before + [line] + after) == Kept(before) + (if HasMarker(line) then [] else line) + Kept(after)
  {
    Associative(before, [line], after);
    KeptAppend(before, [line] + after);
    KeptCons(line, after);
    Associative(Kept(before), if HasMarker(line) then [] else line, Kept(after));
  }

  lemma SuffixHasNoMarker(x: seq<byte>, y: seq<byte>)
    requires HasMarker(y)
    ensures HasMarker(x + y)
  {
    var k :| 0 <= k <= |y| && MarkerAt(y, k);
    assert (x + y)[|x| + k..|x| + k + |MARKER|] == y[k..k + |MARKER|];
    assert MarkerAt(x + y, |x| + k);
  }

  /** A partial line that still leads with the marker, or with the beginning of it. */
  predicate LeadsWithMarker(s: seq<byte>) {
    s != [] && (s <= MARKER || MARKER <= s)
  }

  lemma LeadingMarkerIsHeld(s: seq<byte>)
    requires LeadsWithMarker(s)
    ensures CouldBecomeUsageLine(s)
  {
    assert !IsControl(s[0]);
    if MARKER <= s {
      assert MarkerAt(s, 0);
    }
  }

  /** What the filter has let out and what it holds, after reading stream `s`. */
  predicate Follows(out: seq<byte>, pending: seq<byte>, s: seq<byte>) {
    && out + pending == Visible(s)
    && |pending| <= |Partial(s)| && pending == Partial(s)[|Partial(s)| - |pending|..]
    && (LeadsWithMarker(Partial(s)) ==> pending == Partial(s))
  }

  lemma HoldOrFlushFollows(before: seq<byte>, out: seq<byte>, rest: seq<byte>, s: seq<byte>)
    requires before + out + rest == Visible(s)
    requires |rest| <= |Partial(s)| && rest == Partial(s)[|Partial(s)| - |rest|..]
    requires LeadsWithMarker(Partial(s)) ==> rest == Partial(s)
    ensures var (more, pending) := HoldOrFlush(out, rest); Follows(before + more, pending, s)
  {
    Associative(before, out, rest);
    if LeadsWithMarker(rest) {
      LeadingMarkerIsHeld(rest);
    }
  }

  lemma NoNewlineVisible(s: seq<byte>, chunk: seq<byte>)
    requires NEWLINE !in chunk
    ensures Partial(s + chunk) == Partial(s) + chunk
    ensures Visible(s + chunk) == Visible(s) + chunk
  {
    SplitStream(s, chunk);
    NoNewlineIsPartial(Partial(s) + chunk);
    EmptyRight(CompleteLines(s));
    Associative(Kept(CompleteLines(s)), Partial(s), chunk);
  }

  lemma LineExtends(part: seq<byte>, head: seq<byte>)
    requires NEWLINE !in part && IsLine(head)
    ensures IsLine(part + head)
  {
    assert (part + head)[..|part + head| - 1] == part + head[..|head| - 1];
  }

  /** The first line a chunk completes, as the whole stream sees it. */
  lemma CompletedLine(s: seq<byte>, chunk: seq<byte>) returns (line: seq<byte>, tail: seq<byte>)
    requires LineEnd(chunk) < |chunk|
    ensures IsLine(line) && line == Partial(s) + chunk[..LineEnd(chunk) + 1] && tail == chunk[LineEnd(chunk) + 1..]
    ensures CompleteLines(s + chunk) == CompleteLines(s) + [line] + CompleteLines(tail)
    ensures Partial(s + chunk) == Partial(tail)
  {
    var head;
    head, tail := FirstLine(chunk);
    line := Partial(s) + head;
    LineExtends(Partial(s), head);
    SplitStream(s, chunk);
    Associative(Partial(s), head, tail);
    ConsLine(line, tail);
    Associative(CompleteLines(s), [line], CompleteLines(tail));
  }

  /** What the filter holds of a line decides that line as the whole line would. */
  lemma HeldLineDecides(part: seq<byte>, pending: seq<byte>, rest: seq<byte>)
    requires |pending| <= |part| && pending == part[|part| - |pending|..]
    requires LeadsWithMarker(part) ==> pending == part
    requires MarkerOnlyLeads(part + rest)
    ensures HasMarker(pending + rest) <==> HasMarker(part + rest)
    ensures HasMarker(part + rest) ==> pending == part
  {
    var x := part[..|part| - |pending|];
    assert part + rest == x + (pending + rest);
    if HasMarker(pending + rest) {
      SuffixHasNoMarker(x, pending + rest);
    }
    if HasMarker(part + rest) {
      LeadingPrefix(part, part + rest);
    }
  }

  lemma LeadingPrefix(part: seq<byte>, line: seq<byte>)
    requires part <= line && MARKER <= line
    ensures part == [] || LeadsWithMarker(part)
  {
    if |part| <= |MARKER| {
      assert part == line[..|part|] == MARKER[..|part|];
    } else {
      assert MARKER == line[..|MARKER|] == part[..|MARKER|];
    }
  }

  lemma TailGrows(part: seq<byte>, pending: seq<byte>, chunk: seq<byte>)
    requires |pending| <= |part| && pending == part[|part| - |pending|..]
    requires LeadsWithMarker(part) ==> pending == part
    ensures pending + chunk == (part + chunk)[|part + chunk| - |pending + chunk|..]
    ensures LeadsWithMarker(part + chunk) ==> pending + chunk == part + chunk
  {
    if LeadsWithMarker(part + chunk) && part != [] {
      PrefixLeads(part, part + chunk);
    }
  }

  lemma StepWithoutNewline(out: seq<byte>, pending: seq<byte>, s: seq<byte>, chunk: seq<byte>)
    requires Follows(out, pending, s) && |pending| + |chunk| <= MAX_PENDING && NEWLINE !in chunk
    ensures var (more, pending') := FilterStep(pending, chunk); Follows(out + more, pending', s + chunk)
  {
    var buf := pending + chunk;
    NoNewlineVisible(s, chunk);
    NoNewlineIsPartial(buf);
    TailGrows(Partial(s), pending, chunk);
    EmptyRight(out);
    Associative(out, pending, chunk);
    HoldOrFlushFollows(out, [], buf, s + chunk);
  }

  lemma PrefixLeads(part: seq<byte>, longer: seq<byte>)
    requires part <= longer && part != [] && LeadsWithMarker(longer)
    ensures LeadsWithMarker(part)
  {
    if MARKER <= longer {
      LeadingPrefix(part, longer);
    }
  }

  /** Ending the current line: what was let out grows by what the line shows. */
  lemma LineLetOut(out: seq<byte>, pending: seq<byte>, kept: seq<byte>, part: seq<byte>, rest: seq<byte>)
    requires out + pending == kept + part
    requires MarkerOnlyLeads(part + rest)
    requires HasMarker(pending + rest) <==> HasMarker(part + rest)
    requires HasMarker(part + rest) ==> pending == part
    ensures out + (if HasMarker(pending + rest) then [] else pending + rest)
         == kept + (if HasMarker(part + rest) then [] else part + rest)
  {
    if HasMarker(part + rest) {
      assert |out| == |kept|;
      assert out == (out + pending)[..|out|] == (kept + part)[..|kept|] == kept;
    } else {
      Associative(out, pending, rest);
      Associative(kept, part, rest);
    }
  }

  lemma HeldHasNoNewline(part: seq<byte>, pending: seq<byte>)
    requires NEWLINE !in part && |pending| <= |part| && pending == part[|part| - |pending|..]
    ensures NEWLINE !in pending
  {
  }

  /** The visible stream once a chunk has ended the current line. */
  lemma VisibleAfterLine(s: seq<byte>, chunk: seq<byte>, line: seq<byte>, tail: seq<byte>)
    requires CompleteLines(s + chunk) == CompleteLines(s) + [line] + CompleteLines(tail)
    requires Partial(s + chunk) == Partial(tail)
    ensures Visible(s + chunk) ==
            Kept(CompleteLines(s)) + Shown(line) + Kept(CompleteLines(tail)) + Partial(tail)
  {
    KeptAround(CompleteLines(s), line, CompleteLines(tail));
  }

  lemma EndedLineWellFormed(s: seq<byte>, chunk: seq<byte>, line: seq<byte>, tail: seq<byte>)
    requires CompleteLines(s + chunk) == CompleteLines(s) + [line] + CompleteLines(tail)
    requires LinesWellFormed(s + chunk)
    ensures MarkerOnlyLeads(line)
  {
    assert CompleteLines(s + chunk)[|CompleteLines(s)|] == line;
  }

  /** The filter's own view of the same line, of which it holds the end. */
  lemma StepEndsLine(pending: seq<byte>, chunk: seq<byte>, tail: seq<byte>)
    requires NEWLINE !in pending && |pending| + |chunk| <= MAX_PENDING
    requires LineEnd(chunk) < |chunk| && tail == chunk[LineEnd(chunk) + 1..]
    ensures
      var short := pending + chunk[..LineEnd(chunk) + 1];
      FilterStep(pending, chunk) ==
      HoldOrFlush(Shown(short) + Kept(CompleteLines(tail)), Partial(tail))
  {
    NoNewlineIsPartial(pending);
    var short, _ := CompletedLine(pending, chunk);
    EmptyLeft([short]);
    KeptCons(short, CompleteLines(tail));
  }

  /** What was let out, put in order with what the whole stream shows. */
  lemma ShownInOrder(
      out: seq<byte>, shown: seq<byte>, kept: seq<byte>, part: seq<byte>, visible: seq<byte>, line: seq<byte>)
    requires out + shown == visible + line
    ensures out + (shown + kept) + part == visible + line + kept + part
  {
    Associative(out, shown, kept);
  }

  function Shown(line: seq<byte>): seq<byte> {
    if HasMarker(line) then [] else line
  }

  lemma HeldLineLetOut(out: seq<byte>, pending: seq<byte>, kept: seq<byte>, part: seq<byte>, head: seq<byte>)
    requires out + pending == kept + part
    requires |pending| <= |part| && pending == part[|part| - |pending|..]
    requires LeadsWithMarker(part) ==> pending == part
    requires MarkerOnlyLeads(part + head)
    ensures out + Shown(pending + head) == kept + Shown(part + head)
  {
    HeldLineDecides(part, pending, head);
    LineLetOut(out, pending, kept, part, head);
  }

  lemma StepWithNewline(out: seq<byte>, pending: seq<byte>, s: seq<byte>, chunk: seq<byte>)
    requires Follows(out, pending, s) && |pending| + |chunk| <= MAX_PENDING && NEWLINE in chunk
    requires NEWLINE !in pending && LinesWellFormed(s + chunk)
    ensures var (more, pending') := FilterStep(pending, chunk); Follows(out + more, pending', s + chunk)
  {
    var line, tail := CompletedLine(s, chunk);
    var shown := Shown(pending + chunk[..LineEnd(chunk) + 1]);
    var kept := Kept(CompleteLines(tail));
    EndedLineWellFormed(s, chunk, line, tail);
    HeldLineLetOut(out, pending, Kept(CompleteLines(s)), Partial(s), chunk[..LineEnd(chunk) + 1]);
    VisibleAfterLine(s, chunk, line, tail);
    StepEndsLine(pending, chunk, tail);
    ShownInOrder(out, shown, kept, Partial(tail), Kept(CompleteLines(s)), Shown(line));
    WholePartialFollows(out, shown + kept, s + chunk);
  }

  lemma WholePartialFollows(before: seq<byte>, out: seq<byte>, s: seq<byte>)
    requires before + out + Partial(s) == Visible(s)
    ensures var (more, pending) := HoldOrFlush(out, Partial(s)); Follows(before + more, pending, s)
  {
    HoldOrFlushFollows(before, out, Partial(s), s);
  }

  lemma EarlierWellFormed(s: seq<byte>, more: seq<byte>)
    requires LinesWellFormed(s + more)
    ensures LinesWellFormed(s)
  {
    SplitStream(s, more);
    assert forall i :: 0 <= i < |CompleteLines(s)| ==> CompleteLines(s)[i] == CompleteLines(s + more)[i];
  }

  /** For every stream whose complete lines begin with the marker or do not contain it, and
      every way of reading it in chunks within the cap: what was let out, followed by what is
      held, is the stream with exactly its complete marker lines deleted. */
  lemma {:induction false} FilterAgreesWithWholeStream(chunks: seq<seq<byte>>)
    requires WithinCap(chunks) && LinesWellFormed(Flatten(chunks))
    ensures Follows(Feed(chunks).0, Feed(chunks).1, Flatten(chunks))
  {
    if chunks != [] {
      var before, last := chunks[..|chunks| - 1], chunks[|chunks| - 1];
      var s := Flatten(before);
      EarlierWellFormed(s, last);
      FilterAgreesWithWholeStream(before);
      var (out, pending) := Feed(before);
      if NEWLINE in last {
        HeldHasNoNewline(Partial(s), pending);
        StepWithNewline(out, pending, s, last);
      } else {
        StepWithoutNewline(out, pending, s, last);
      }
    }
  }

  lemma HeldHasMarkerByte(line: seq<byte>)
    ensures CouldBecomeUsageLine(line) ==> MARKER[0] in line
  {
    if CouldBecomeUsageLine(line) {
      var k := ControlLength(line);
      CouldBecomeExactly(line, k);
      if HasMarker(line) {
        var j :| 0 <= j <= |line| && MarkerAt(line, j);
        MarkerStarts(line, j);
      } else {
        assert line[k] == line[k..][0];
      }
    }
  }

  lemma ControlLength(s: seq<byte>) returns (k: nat)
    ensures ControlUpTo(s, k)
  {
    k := 0;
    while k < |s| && IsControl(s[k])
      invariant k <= |s| && forall j :: 0 <= j < k ==> IsControl(s[j])
    {
      k := k + 1;
    }
  }

  /** A prompt never waits: under the same conditions, all there is to see has been shown as
      soon as it was read, unless the unfinished line holds the marker's first byte. */
  lemma PromptIsShown(chunks: seq<seq<byte>>)
    requires WithinCap(chunks) && LinesWellFormed(Flatten(chunks))
    requires MARKER[0] !in Partial(Flatten(chunks))
    ensures Feed(chunks) == (Visible(Flatten(chunks)), [])
  {
    FilterAgreesWithWholeStream(chunks);
    var (out, pending) := Feed(chunks);
    if chunks != [] {
      var before := chunks[..|chunks| - 1];
      HeldOrNothing(Feed(before).1, chunks[|chunks| - 1]);
      HeldHasMarkerByte(pending);
      EmptyRight(out);
    }
  }

  lemma HeldOrNothing(pending: seq<byte>, chunk: seq<byte>)
    ensures FilterStep(pending, chunk).1 == [] || CouldBecomeUsageLine(FilterStep(pending, chunk).1)
  {
  }

  // ----- The condition is exact

  lemma NothingShortHasMarker(s: seq<byte>)
    requires HasMarker(s)
    ensures |s| >= |MARKER| && (|s| == |MARKER| ==> s == MARKER)
  {
    var k :| 0 <= k <= |s| && MarkerAt(s, k);
    if |s| == |MARKER| {
      assert s[0..|MARKER|] == s;
    }
  }

  lemma FirstMismatch(line: seq<byte>, agreed: nat) returns (j: nat)
    requires agreed < |MARKER| < |line| && line[..agreed] <= MARKER && !(MARKER <= line)
    ensures agreed < j <= |MARKER| && !(line[..j] <= MARKER)
    decreases |MARKER| - agreed
  {
    j := agreed + 1;
    if line[..j] <= MARKER {
      assert j < |MARKER|;
      j := FirstMismatch(line, j);
    }
  }

  lemma LeakPoint(line: seq<byte>) returns (j: nat)
    requires IsLine(line) && HasMarker(line) && !(MARKER <= line)
    ensures 0 < j < |line| && !CouldBecomeUsageLine(line[..j])
  {
    NothingShortHasMarker(line);
    if IsControl(line[0]) {
      j := 1;
      assert TrimControlStart(line[..1]) == [];
    } else {
      j := FirstMismatch(line, 0);
      assert TrimControlStart(line[..j]) == line[..j];
      if HasMarker(line[..j]) {
        NothingShortHasMarker(line[..j]);
      }
    }
  }

  /** Where to cut a line with text before its marker so that the cut-off head is flushed. */
  lemma LeakyCut(line: seq<byte>) returns (head: seq<byte>, tail: seq<byte>)
    requires IsLine(line) && HasMarker(line) && !(MARKER <= line)
    ensures head + tail == line && head != [] && IsLine(tail) && NEWLINE !in head
    ensures !CouldBecomeUsageLine(head)
  {
    var j := LeakPoint(line);
    head, tail := line[..j], line[j..];
    assert head == line[..|line| - 1][..j];
    assert tail[..|tail| - 1] == line[..|line| - 1][j..];
  }

  /** A marker stands at the start, or right after a control byte, so that the filter could
      come to hold it with all that follows. */
  predicate Headed(line: seq<byte>) {
    exists k :: 0 <= k <= |line| && HeadAt(line, k)
  }

  predicate HeadAt(line: seq<byte>, k: nat) {
    MarkerAt(line, k) && (k == 0 || IsControl(line[k - 1]))
  }

  /** What the filter may have to hold of the line fits. */
  predicate Fits(line: seq<byte>) {
    |line| <= MAX_PENDING || !Headed(line)
  }

  /** So it does for every line, the unfinished one included. */
  predicate LinesFit(s: seq<byte>) {
    AllFit(CompleteLines(s)) && Fits(Partial(s))
  }

  predicate AllFit(lines: seq<seq<byte>>) {
    forall i :: 0 <= i < |lines| ==> Fits(lines[i])
  }

  predicate AllLines(lines: seq<seq<byte>>) {
    forall i :: 0 <= i < |lines| ==> IsLine(lines[i])
  }

  /** Read within the cap, and nothing is pending. */
  predicate Clean(chunks: seq<seq<byte>>) {
    WithinCap(chunks) && Feed(chunks).1 == []
  }

  lemma FeedOneMore(chunks: seq<seq<byte>>, chunk: seq<byte>)
    requires WithinCap(chunks) && |Feed(chunks).1| + |chunk| <= MAX_PENDING
    ensures WithinCap(chunks + [chunk]) && Flatten(chunks + [chunk]) == Flatten(chunks) + chunk
    ensures
      var (more, pending) := FilterStep(Feed(chunks).1, chunk);
      Feed(chunks + [chunk]) == (Feed(chunks).0 + more, pending)
  {
    assert (chunks + [chunk])[..|chunks|] == chunks;
    FlattenSnoc(chunks, chunk);
  }

  /** A call that finds nothing pending and gets one whole line lets it out or drops it. */
  lemma LineStep(line: seq<byte>)
    requires IsLine(line) && |line| <= MAX_PENDING
    ensures FilterStep([], line) == (Kept([line]), [])
  {
    EmptyLeft(line);
    EmptyRight(line);
    ConsLine(line, []);
    NoNewlineIsPartial([]);
    EmptyRight([line]);
  }

  /** A call that finds nothing pending and gets no newline lets out or holds what it gets. */
  lemma PieceStep(piece: seq<byte>)
    requires NEWLINE !in piece && |piece| <= MAX_PENDING
    ensures FilterStep([], piece) == HoldOrFlush([], piece)
  {
    EmptyLeft(piece);
    NoNewlineIsPartial(piece);
  }

  /** A cut-off head that no report begins with goes out at once. */
  lemma FeedHead(chunks: seq<seq<byte>>, head: seq<byte>)
    requires Clean(chunks)
    requires NEWLINE !in head && head != [] && !CouldBecomeUsageLine(head) && |head| <= MAX_PENDING
    ensures Clean(chunks + [head]) && Feed(chunks + [head]) == (Feed(chunks).0 + head, [])
    ensures Flatten(chunks + [head]) == Flatten(chunks) + head
  {
    FeedOneMore(chunks, head);
    PieceStep(head);
    EmptyLeft(head);
  }

  lemma FeedPartial(chunks: seq<seq<byte>>, part: seq<byte>)
    requires Clean(chunks) && NEWLINE !in part && |part| <= MAX_PENDING
    ensures WithinCap(chunks + [part]) && Flatten(chunks + [part]) == Flatten(chunks) + part
    ensures |Feed(chunks + [part]).0| + |Feed(chunks + [part]).1| == |Feed(chunks).0| + |part|
  {
    FeedOneMore(chunks, part);
    PieceStep(part);
  }

  lemma FeedWhole(chunks: seq<seq<byte>>, line: seq<byte>)
    requires Clean(chunks) && IsLine(line) && |line| <= MAX_PENDING
    ensures Clean(chunks + [line]) && Feed(chunks + [line]) == (Feed(chunks).0 + Kept([line]), [])
    ensures Flatten(chunks + [line]) == Flatten(chunks) + line
  {
    FeedOneMore(chunks, line);
    LineStep(line);
  }

  lemma HeadBehind(rest: seq<byte>, j: nat)
    requires 0 < j <= |rest| && !Headed(rest)
    requires !(MARKER <= rest[j..]) || IsControl(rest[j - 1])
    ensures !Headed(rest[j..])
  {
    var next := rest[j..];
    if k :| 0 <= k <= |next| && HeadAt(next, k) {
      assert rest[j + k..j + k + |MARKER|] == next[k..k + |MARKER|];
      if k == 0 {
        assert next[..|MARKER|] == next[0..|MARKER|];
      } else {
        assert next[k - 1] == rest[j + k - 1];
      }
      assert !HeadAt(rest, j + k);
    }
  }

  /** The shortest piece no report begins with, and one byte more where the next would begin one. */
  lemma TextPiece(rest: seq<byte>) returns (j: nat)
    requires !Headed(rest) && |rest| > |MARKER| + 1 && !IsControl(rest[0])
    ensures 0 < j <= |MARKER| + 1 && !CouldBecomeUsageLine(rest[..j]) && !(MARKER <= rest[j..])
  {
    NotLeading(rest);
    j := FirstMismatch(rest, 0);
    assert TrimControlStart(rest[..j]) == rest[..j];
    if HasMarker(rest[..j]) {
      NothingShortHasMarker(rest[..j]);
    }
    if MARKER <= rest[j..] {
      assert rest[j] == MARKER[0] && rest[j + 1] == MARKER[1];
      OneByteMore(rest, j);
      j := j + 1;
    }
  }

  lemma NotLeading(rest: seq<byte>)
    requires !Headed(rest)
    ensures !(MARKER <= rest)
  {
    if MARKER <= rest {
      assert rest[0..|MARKER|] == MARKER;
      assert HeadAt(rest, 0);
    }
  }

  lemma OneByteMore(rest: seq<byte>, j: nat)
    requires 0 < j <= |MARKER| && j < |rest| && !IsControl(rest[0])
    requires !(MARKER <= rest) && !(rest[..j] <= MARKER) && rest[j] == MARKER[0]
    ensures !CouldBecomeUsageLine(rest[..j + 1])
  {
    var piece := rest[..j + 1];
    assert TrimControlStart(piece) == piece;
    if k :| 0 <= k <= |piece| && MarkerAt(piece, k) {
      MarkerEnds(piece, k);
    }
  }

  lemma MarkerEnds(piece: seq<byte>, k: nat)
    requires MarkerAt(piece, k) && |piece| <= |MARKER| + 1
    ensures k == 0 || (k == 1 && |piece| == |MARKER| + 1 && piece[|MARKER|] == MARKER[|MARKER| - 1])
  {
    if k == 1 {
      assert piece[1..1 + |MARKER|][|MARKER| - 1] == piece[|MARKER|];
    }
  }

  lemma NextPiece(rest: seq<byte>) returns (j: nat)
    requires !Headed(rest) && |rest| > |MARKER| + 1
    ensures 0 < j <= |MARKER| + 1 && !CouldBecomeUsageLine(rest[..j]) && !Headed(rest[j..])
  {
    if IsControl(rest[0]) {
      j := 1;
      assert TrimControlStart(rest[..1]) == [];
    } else {
      j := TextPiece(rest);
    }
    HeadBehind(rest, j);
  }

  lemma ShortLineKept(line: seq<byte>)
    requires IsLine(line) && !Headed(line) && |line| <= |MARKER| + 1
    ensures Kept([line]) == line
  {
    KeptOne(line);
    assert !HeadAt(line, 0);
    if k :| 0 <= k <= |line| && MarkerAt(line, k) {
      MarkerEnds(line, k);
    }
  }

  /** A line that cannot be held, however long, can be read so that all of it is shown. */
  lemma {:induction false} FeedInPieces(chunks: seq<seq<byte>>, rest: seq<byte>) returns (all: seq<seq<byte>>)
    requires Clean(chunks) && IsLine(rest) && !Headed(rest)
    ensures Clean(all) && Flatten(all) == Flatten(chunks) + rest
    ensures |Feed(all).0| == |Feed(chunks).0| + |rest|
    decreases |rest|
  {
    if |rest| <= |MARKER| + 1 {
      FeedWhole(chunks, rest);
      ShortLineKept(rest);
      all := chunks + [rest];
    } else {
      var j := NextPiece(rest);
      var head, tail := rest[..j], rest[j..];
      LineTail(rest, j);
      FeedHead(chunks, head);
      all := FeedInPieces(chunks + [head], tail);
      CutJoins(Flatten(chunks), rest, j);
    }
  }

  lemma CutJoins(before: seq<byte>, rest: seq<byte>, j: nat)
    requires j <= |rest|
    ensures before + rest[..j] + rest[j..] == before + rest
  {
    assert rest[..j] + rest[j..] == rest;
    Associative(before, rest[..j], rest[j..]);
  }

  lemma LineTail(line: seq<byte>, j: nat)
    requires IsLine(line) && 0 < j < |line|
    ensures NEWLINE !in line[..j] && IsLine(line[j..])
  {
    assert line[..j] == line[..|line| - 1][..j];
    assert line[j..][..|line[j..]| - 1] == line[..|line| - 1][j..];
  }

  lemma {:induction false} FeedPartialInPieces(chunks: seq<seq<byte>>, rest: seq<byte>) returns (all: seq<seq<byte>>)
    requires Clean(chunks) && NEWLINE !in rest && !Headed(rest)
    ensures WithinCap(all) && Flatten(all) == Flatten(chunks) + rest
    ensures |Feed(all).0| + |Feed(all).1| == |Feed(chunks).0| + |rest|
    decreases |rest|
  {
    if |rest| <= |MARKER| + 1 {
      FeedPartial(chunks, rest);
      all := chunks + [rest];
    } else {
      var j := NextPiece(rest);
      var head, tail := rest[..j], rest[j..];
      FeedHead(chunks, head);
      all := FeedPartialInPieces(chunks + [head], tail);
      CutJoins(Flatten(chunks), rest, j);
    }
  }

  /** Reading on by a line shows at least what the line should show. */
  lemma FeedLine(chunks: seq<seq<byte>>, line: seq<byte>) returns (all: seq<seq<byte>>)
    requires Clean(chunks) && IsLine(line) && Fits(line)
    ensures Clean(all) && Flatten(all) == Flatten(chunks) + line
    ensures |Feed(all).0| >= |Feed(chunks).0| + |Kept([line])|
  {
    if |line| <= MAX_PENDING {
      FeedWhole(chunks, line);
      all := chunks + [line];
    } else {
      all := FeedInPieces(chunks, line);
      KeptOne(line);
    }
  }

  /** And by a line with text before its marker can be made to show more. */
  lemma FeedLeaking(chunks: seq<seq<byte>>, line: seq<byte>) returns (all: seq<seq<byte>>)
    requires Clean(chunks) && IsLine(line) && Fits(line) && HasMarker(line) && !(MARKER <= line)
    ensures Clean(all) && Flatten(all) == Flatten(chunks) + line
    ensures |Feed(all).0| > |Feed(chunks).0|
  {
    if |line| <= MAX_PENDING {
      var head, tail := LeakyCut(line);
      assert |head| + |tail| == |line|;
      FeedHead(chunks, head);
      FeedWhole(chunks + [head], tail);
      all := chunks + [head] + [tail];
      Associative(Flatten(chunks), head, tail);
    } else {
      all := FeedInPieces(chunks, line);
    }
  }

  lemma {:induction false} FeedLines(chunks: seq<seq<byte>>, lines: seq<seq<byte>>) returns (all: seq<seq<byte>>)
    requires Clean(chunks) && AllLines(lines) && AllFit(lines)
    ensures Clean(all) && Flatten(all) == Flatten(chunks) + Flatten(lines)
    ensures |Feed(all).0| >= |Feed(chunks).0| + |Kept(lines)|
    decreases |lines|
  {
    if lines == [] {
      all := chunks;
      EmptyRight(Flatten(chunks));
    } else {
      var init, last := lines[..|lines| - 1], lines[|lines| - 1];
      Snoc(lines);
      var before := FeedLines(chunks, init);
      all := FeedLine(before, last);
      FlattenSnoc(init, last);
      Associative(Flatten(chunks), Flatten(init), last);
      KeptAppend(init, [last]);
    }
  }

  lemma FeedEnd(chunks: seq<seq<byte>>, part: seq<byte>) returns (all: seq<seq<byte>>)
    requires Clean(chunks) && NEWLINE !in part && Fits(part)
    ensures WithinCap(all) && Flatten(all) == Flatten(chunks) + part
    ensures |Feed(all).0| + |Feed(all).1| == |Feed(chunks).0| + |part|
  {
    if |part| <= MAX_PENDING {
      FeedPartial(chunks, part);
      all := chunks + [part];
    } else {
      all := FeedPartialInPieces(chunks, part);
    }
  }

  /** The lines before, the one that shows too much, the lines after and what is left. */
  lemma FeedAround(before: seq<seq<byte>>, line: seq<byte>, after: seq<seq<byte>>, part: seq<byte>)
    returns (chunks: seq<seq<byte>>)
    requires AllLines(before) && AllFit(before) && AllLines(after) && AllFit(after)
    requires IsLine(line) && Fits(line) && HasMarker(line) && !(MARKER <= line)
    requires NEWLINE !in part && Fits(part)
    ensures WithinCap(chunks) && Flatten(chunks) == Flatten(before) + line + Flatten(after) + part
    ensures |Feed(chunks).0| + |Feed(chunks).1| > |Kept(before)| + |Kept(after)| + |part|
  {
    chunks := FeedLines([], before);
    EmptyLeft(Flatten(before));
    chunks := FeedLeaking(chunks, line);
    chunks := FeedLines(chunks, after);
    chunks := FeedEnd(chunks, part);
  }

  /** A complete line with anything before its marker can be cut so that part of it stays. */
  lemma StrayMarkerLeaks(s: seq<byte>, i: nat) returns (chunks: seq<seq<byte>>)
    requires LinesFit(s) && i < |CompleteLines(s)| && !MarkerOnlyLeads(CompleteLines(s)[i])
    ensures Flatten(chunks) == s && WithinCap(chunks)
    ensures |Feed(chunks).0| + |Feed(chunks).1| > |Visible(s)|
  {
    var before, line, after := LineInContext(s, i);
    LinesOf(before);
    LinesOf(after);
    EarlierAndLaterFit(CompleteLines(s), i);
    chunks := FeedAround(CompleteLines(before), line, CompleteLines(after), Partial(after));
    EmptyRight(Flatten(CompleteLines(before)));
    Associative(before + line, Flatten(CompleteLines(after)), Partial(after));
    LinesAround(CompleteLines(s), i);
    VisibleSize(s, before, line, after);
  }

  lemma EarlierAndLaterFit(lines: seq<seq<byte>>, i: nat)
    requires i < |lines| && AllFit(lines)
    ensures AllFit(lines[..i]) && AllFit(lines[i + 1..])
  {
  }

  lemma LinesAround<T>(lines: seq<T>, i: nat)
    requires i < |lines|
    ensures lines == lines[..i] + [lines[i]] + lines[i + 1..]
  {
  }

  lemma VisibleSize(s: seq<byte>, before: seq<byte>, line: seq<byte>, after: seq<byte>)
    requires CompleteLines(s) == CompleteLines(before) + [line] + CompleteLines(after)
    requires Partial(s) == Partial(after) && HasMarker(line)
    ensures |Visible(s)| == |Kept(CompleteLines(before))| + |Kept(CompleteLines(after))| + |Partial(after)|
  {
    KeptAround(CompleteLines(before), line, CompleteLines(after));
  }

  /** For a stream of any length, and lines of any length but those the filter could come to
      hold: every way of cutting it up within the cap gives the whole-stream result exactly when
      no complete line has anything before its marker. */
  lemma SplitIndependentExactly(s: seq<byte>)
    requires LinesFit(s)
    ensures LinesWellFormed(s) <==>
            forall chunks :: Flatten(chunks) == s && WithinCap(chunks) ==>
              Feed(chunks).0 + Feed(chunks).1 == Visible(s)
  {
    if LinesWellFormed(s) {
      forall chunks | Flatten(chunks) == s && WithinCap(chunks)
        ensures Feed(chunks).0 + Feed(chunks).1 == Visible(s)
      {
        FilterAgreesWithWholeStream(chunks);
      }
    } else {
      var i :| 0 <= i < |CompleteLines(s)| && !MarkerOnlyLeads(CompleteLines(s)[i]);
      var chunks := StrayMarkerLeaks(s, i);
      assert |Feed(chunks).0 + Feed(chunks).1| > |Visible(s)|;
    }
  }

  // ----- The broker

  /** The state behind the broker's lock. `sent` is every message put on the broadcast
      channel; a receiver that does not lag gets the messages from its position on. */
  class ConsoleBroker {
    var backlog: seq<byte>
    var sent: seq<seq<byte>>
    var lineFilter: seq<byte>

    /** The scrollback is the tail of everything sent. */
    ghost predicate Valid()
      reads this
    {
      backlog == LastN(Flatten(sent), MAX_BACKLOG_BYTES)
    }

    constructor ()
      ensures Valid() && sent == [] && lineFilter == []
    {
      backlog, sent, lineFilter := [], [], [];
    }

    method PushOutput(chunk: seq<byte>)
      requires Valid()
      modifies this
      ensures Valid()
      ensures
        var (visible, pending) := FilterStep(old(lineFilter), chunk);
        && lineFilter == pending
        && sent == old(sent) + if visible == [] then [] else [visible]
    {
      var visible, pending := FilterGuestUsageForTerminal(lineFilter, chunk);
      lineFilter := pending;
      if visible != [] {
        Send(visible);
      }
    }

    /** Into the backlog, oldest bytes dropped, and onto the channel. */
    method Send(visible: seq<byte>)
      requires Valid()
      modifies this`backlog, this`sent
      ensures Valid() && sent == old(sent) + [visible]
    {
      BacklogGrows(sent, visible, MAX_BACKLOG_BYTES);
      backlog := backlog + visible;
      if |backlog| > MAX_BACKLOG_BYTES {
        backlog := backlog[|backlog| - MAX_BACKLOG_BYTES..];
      }
      sent := sent + [visible];
    }

    method Subscribe() returns (snapshot: seq<byte>, position: nat)
      requires Valid()
      ensures position == |sent| && snapshot == LastN(Flatten(sent), MAX_BACKLOG_BYTES)
    {
      snapshot, position := backlog, |sent|;
    }
  }

  lemma BacklogGrows(sent: seq<seq<byte>>, visible: seq<byte>, n: nat)
    ensures LastN(LastN(Flatten(sent), n) + visible, n) == LastN(Flatten(sent + [visible]), n)
  {
    LastNAppend(Flatten(sent), visible, n);
    FlattenSnoc(sent, visible);
  }

  /** What the channel has carried after each chunk, a message per non-empty visible piece. */
  function Messages(chunks: seq<seq<byte>>): seq<seq<byte>> {
    if chunks == [] then []
    else Messages(chunks[..|chunks| - 1]) + Message(chunks[..|chunks| - 1], chunks[|chunks| - 1])
  }

  function Message(before: seq<seq<byte>>, chunk: seq<byte>): seq<seq<byte>> {
    var visible := FilterStep(Feed(before).1, chunk).0;
    if visible == [] then [] else [visible]
  }

  lemma MessagesSnoc(before: seq<seq<byte>>, chunk: seq<byte>)
    ensures Messages(before + [chunk]) == Messages(before) + Message(before, chunk)
  {
    assert (before + [chunk])[..|before|] == before;
  }

  lemma {:induction false} MessagesCarryFeed(chunks: seq<seq<byte>>)
    ensures Flatten(Messages(chunks)) == Feed(chunks).0
  {
    if chunks != [] {
      var before := chunks[..|chunks| - 1];
      MessagesCarryFeed(before);
      var visible := FilterStep(Feed(before).1, chunks[|chunks| - 1]).0;
      if visible == [] {
        EmptyRight(Messages(before));
        EmptyRight(Feed(before).0);
      } else {
        FlattenSnoc(Messages(before), visible);
      }
    }
  }

  lemma {:induction false} MessagesGrow(before: seq<seq<byte>>, after: seq<seq<byte>>)
    ensures Messages(before) <= Messages(before + after)
    decreases |after|
  {
    if after == [] {
      EmptyRight(before);
    } else {
      var init, last := after[..|after| - 1], after[|after| - 1];
      Snoc(after);
      Associative(before, init, [last]);
      MessagesGrow(before, init);
      MessagesSnoc(before + init, last);
      PrefixGrows(Messages(before), Messages(before + init), Message(before + init, last));
    }
  }

  /** A viewer that subscribes after `before` and does not lag: its snapshot is the last
      bytes of what was visible so far, and the snapshot followed by the later messages is
      a suffix of all visible output, so no byte is lost or repeated. */
  lemma SubscriberSeesSuffix(before: seq<seq<byte>>, after: seq<seq<byte>>)
    ensures SeesSuffix(Messages(before), Messages(before + after), Feed(before).0, Feed(before + after).0)
  {
    MessagesGrow(before, after);
    MessagesCarryFeed(before);
    MessagesCarryFeed(before + after);
    ReceiverSeesSuffix(Messages(before), Messages(before + after), Feed(before).0, Feed(before + after).0);
  }

  predicate SeesSuffix(sofar: seq<seq<byte>>, all: seq<seq<byte>>, visibleSofar: seq<byte>, visible: seq<byte>) {
    && sofar <= all
    && var snapshot, later := LastN(Flatten(sofar), MAX_BACKLOG_BYTES), Flatten(all[|sofar|..]);
    && snapshot == LastN(visibleSofar, MAX_BACKLOG_BYTES)
    && snapshot + later == LastN(visible, |snapshot| + |later|)
  }

  lemma ReceiverSeesSuffix(
      sofar: seq<seq<byte>>, all: seq<seq<byte>>, visibleSofar: seq<byte>, visible: seq<byte>)
    requires sofar <= all && Flatten(sofar) == visibleSofar && Flatten(all) == visible
    ensures SeesSuffix(sofar, all, visibleSofar, visible)
  {
    PrefixSplits(sofar, all);
    FlattenAppend(sofar, all[|sofar|..]);
    TailThenMore(Flatten(sofar), Flatten(all[|sofar|..]), MAX_BACKLOG_BYTES);
  }

  lemma TailThenMore<T>(a: seq<T>, b: seq<T>, n: nat)
    ensures LastN(a, n) + b == LastN(a + b, |LastN(a, n)| + |b|)
  {
  }

  /** Once the agent's lines are well formed, viewers see the stream without them. */
  lemma ViewersNeverSeeReports(chunks: seq<seq<byte>>)
    requires WithinCap(chunks) && LinesWellFormed(Flatten(chunks))
    ensures Flatten(Messages(chunks)) <= Visible(Flatten(chunks))
    ensures Flatten(Messages(chunks)) + Feed(chunks).1 == Visible(Flatten(chunks))
  {
    MessagesCarryFeed(chunks);
    FilterAgreesWithWholeStream(chunks);
  }
}
