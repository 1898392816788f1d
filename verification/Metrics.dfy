/** The guest-usage tracker of `process_metrics.rs`. */
module Metrics {
  import opened Wrappers
  import opened Lines
  import opened Sequences

  const HISTORY_CAP: nat := 60
  const MAX_PARTIAL: nat := 8 * 1024
  const CARRIAGE_RETURN: byte := 13

  datatype Sample = Sample(cpuPercent: Option<real>, memoryUsedMib: Option<nat>,
                           memoryTotalMib: Option<nat>, memoryUsedPercent: Option<real>)

  datatype Point = Point(atMs: nat, sample: Sample)

  /** `parse_usage_line`, and UTF-8 decoding with replacement of one chunk. */
  type LineParser = seq<byte> -> Option<Sample>
  type LossyDecoder = seq<byte> -> seq<byte>

  /** Time of the n-th sample recorded by one call. */
  type Clock = nat -> nat

  /** What the tracker keeps for one VM. */
  datatype VmMetrics = VmMetrics(latest: Option<Sample>, history: seq<Point>, partial: seq<byte>)

  const EMPTY: VmMetrics := VmMetrics(None, [], [])

  /** A UTF-8 string may be cut before any byte that is not a continuation byte. */
  predicate IsCharBoundary(s: seq<byte>, i: nat) {
    i == 0 || i == |s| || (i < |s| && !(128 <= s[i] < 192))
  }

  function FloorBoundary(s: seq<byte>, i: nat): (r: nat)
    ensures r <= i && IsCharBoundary(s, r)
    ensures forall k :: r < k <= i ==> !IsCharBoundary(s, k)
  {
    if IsCharBoundary(s, i) then i else FloorBoundary(s, i - 1)
  }

  method FloorCharBoundary(s: seq<byte>, index: nat) returns (r: nat)
    ensures index >= |s| ==> r == |s|
    ensures index < |s| ==> r == FloorBoundary(s, index)
  {
    if index >= |s| {
      return |s|;
    }
    r := index;
    while r > 0 && !IsCharBoundary(s, r)
      invariant r <= index && FloorBoundary(s, r) == FloorBoundary(s, index)
    {
      r := r - 1;
    }
  }

  function Capped(buf: seq<byte>): seq<byte> {
    if |buf| > MAX_PARTIAL then buf[FloorBoundary(buf, |buf| - MAX_PARTIAL)..] else buf
  }

  /** A line without its terminator. */
  function Content(line: seq<byte>): seq<byte> {
    var chomped := if line != [] && line[|line| - 1] == NEWLINE then line[..|line| - 1] else line;
    if chomped != [] && chomped[|chomped| - 1] == CARRIAGE_RETURN then chomped[..|chomped| - 1] else chomped
  }

  /** The samples of those lines that parse, in order. */
  function Samples(parse: LineParser, lines: seq<seq<byte>>): seq<Sample> {
    if lines == [] then []
    else
      Samples(parse, lines[..|lines| - 1]) + SampleOf(parse, lines[|lines| - 1])
  }

  function Stamp(samples: seq<Sample>, clock: Clock): seq<Point> {
    seq(|samples|, (i: nat) requires i < |samples| => Point(clock(i), samples[i]))
  }

  function Record(v: VmMetrics, samples: seq<Sample>, clock: Clock): VmMetrics {
    if samples == [] then v
    else VmMetrics(Some(samples[|samples| - 1]), LastN(v.history + Stamp(samples, clock), HISTORY_CAP), v.partial)
  }

  function RecordOne(v: VmMetrics, sample: Sample, now: nat): VmMetrics {
    VmMetrics(Some(sample), LastN(v.history + [Point(now, sample)], HISTORY_CAP), v.partial)
  }

  /** One call of `ingest_console`, as it changes the VM it names. */
  function IngestStep(v: VmMetrics, parse: LineParser, lossy: LossyDecoder, chunk: seq<byte>, clock: Clock): VmMetrics {
    var buf := Capped(v.partial + lossy(chunk));
    Record(v, Samples(parse, CompleteLines(buf)), clock).(partial := Partial(buf))
  }

  class ProcessMetricsTracker {
    const parse: LineParser
    const lossy: LossyDecoder
    var latest: map<nat, Sample>
    var history: map<nat, seq<Point>>
    var lineBufs: map<nat, seq<byte>>

    constructor (parse: LineParser, lossy: LossyDecoder)
      ensures this.parse == parse && this.lossy == lossy
      ensures forall id :: View(id) == EMPTY
    {
      this.parse, this.lossy := parse, lossy;
      latest, history, lineBufs := map[], map[], map[];
    }

    function View(id: nat): VmMetrics
      reads this
    {
      VmMetrics(if id in latest then Some(latest[id]) else None,
                if id in history then history[id] else [],
                if id in lineBufs then lineBufs[id] else [])
    }

    method IngestConsole(id: nat, chunk: seq<byte>, clock: Clock)
      modifies this
      ensures View(id) == IngestStep(old(View(id)), parse, lossy, chunk, clock)
      ensures forall other :: other != id ==> View(other) == old(View(other))
    {
      var complete, buf := SplitLines((if id in lineBufs then lineBufs[id] else []) + lossy(chunk));
      lineBufs := lineBufs[id := buf];
      RecordAll(id, complete, clock);
    }

    /** The cap and the line loop of `ingest_console`. */
    static method SplitLines(received: seq<byte>) returns (complete: seq<seq<byte>>, buf: seq<byte>)
      ensures complete == CompleteLines(Capped(received)) && buf == Partial(Capped(received))
    {
      buf := received;
      if |buf| > MAX_PARTIAL {
        var cut := FloorCharBoundary(buf, |buf| - MAX_PARTIAL);
        if cut > 0 {
          buf := buf[cut..];
        }
      }
      ghost var whole := buf;
      assert whole == Capped(received);
      EmptyLeft(CompleteLines(whole));
      complete := [];
      var pos := LineEnd(buf);
      while pos < |buf|
        invariant pos == LineEnd(buf)
        invariant CompleteLines(whole) == complete + CompleteLines(buf) && Partial(whole) == Partial(buf)
        decreases |buf|
      {
        NextLine(complete, buf, pos);
        complete := complete + [buf[..pos + 1]];
        buf := buf[pos + 1..];
        pos := LineEnd(buf);
      }
      AllRead(complete, buf);
    }

    method RecordAll(id: nat, lines: seq<seq<byte>>, clock: Clock)
      modifies this`latest, this`history
      ensures View(id) == Record(old(View(id)), Samples(parse, lines), clock)
      ensures forall other :: other != id ==> View(other) == old(View(other))
    {
      var recorded := 0;
      ghost var v := View(id);
      for i := 0 to |lines|
        invariant recorded == |Samples(parse, lines[..i])|
        invariant View(id) == Record(v, Samples(parse, lines[..i]), clock)
        invariant forall other :: other != id ==> View(other) == old(View(other))
      {
        SamplesOneMore(parse, lines, i);
        var sample := parse(Content(lines[i]));
        if sample.Some? {
          RecordOneMore(v, Samples(parse, lines[..i]), sample.value, clock);
          RecordSample(id, sample.value, clock(recorded));
          recorded := recorded + 1;
        }
      }
      assert lines[..|lines|] == lines;
    }

    method RecordSample(id: nat, sample: Sample, now: nat)
      modifies this`latest, this`history
      ensures View(id) == RecordOne(old(View(id)), sample, now)
      ensures forall other :: other != id ==> View(other) == old(View(other))
    {
      latest := latest[id := sample];
      var ring := (if id in history then history[id] else []) + [Point(now, sample)];
      ghost var full := ring;
      while |ring| > HISTORY_CAP
        invariant LastN(ring, HISTORY_CAP) == LastN(full, HISTORY_CAP)
      {
        ring := ring[1..];
      }
      history := history[id := ring];
    }

    method Clear(id: nat)
      modifies this
      ensures View(id) == EMPTY
      ensures forall other :: other != id ==> View(other) == old(View(other))
    {
      latest := latest - {id};
      history := history - {id};
      lineBufs := lineBufs - {id};
    }
  }

  lemma NextLine(complete: seq<seq<byte>>, buf: seq<byte>, pos: nat)
    requires pos == LineEnd(buf) < |buf|
    ensures complete + CompleteLines(buf) == complete + [buf[..pos + 1]] + CompleteLines(buf[pos + 1..])
    ensures Partial(buf) == Partial(buf[pos + 1..])
  {
    var line, rest := FirstLine(buf);
    Associative(complete, [line], CompleteLines(rest));
  }

  lemma AllRead(complete: seq<seq<byte>>, buf: seq<byte>)
    requires LineEnd(buf) == |buf|
    ensures complete + CompleteLines(buf) == complete && Partial(buf) == buf
  {
    EmptyRight(complete);
  }

  lemma StampOneMore(samples: seq<Sample>, sample: Sample, clock: Clock)
    ensures Stamp(samples + [sample], clock) == Stamp(samples, clock) + [Point(clock(|samples|), sample)]
  {
  }

  lemma RecordOneMore(v: VmMetrics, samples: seq<Sample>, sample: Sample, clock: Clock)
    ensures RecordOne(Record(v, samples, clock), sample, clock(|samples|)) == Record(v, samples + [sample], clock)
  {
    var points, last := Stamp(samples, clock), [Point(clock(|samples|), sample)];
    StampOneMore(samples, sample, clock);
    Associative(v.history, points, last);
    LastNAppend(v.history + points, last, HISTORY_CAP);
    if samples == [] {
      EmptyRight(v.history);
      EmptyLeft(last);
    }
  }

  function SampleOf(parse: LineParser, line: seq<byte>): seq<Sample> {
    match parse(Content(line)) case Some(sample) => [sample] case None => []
  }

  lemma SamplesSnoc(parse: LineParser, lines: seq<seq<byte>>, line: seq<byte>)
    ensures Samples(parse, lines + [line]) == Samples(parse, lines) + SampleOf(parse, line)
  {
    assert (lines + [line])[..|lines|] == lines;
  }

  lemma SamplesOneMore(parse: LineParser, lines: seq<seq<byte>>, i: nat)
    requires i < |lines|
    ensures
      var sofar, next := Samples(parse, lines[..i]), Samples(parse, lines[..i + 1]);
      match parse(Content(lines[i])) { case Some(sample) => next == sofar + [sample] case None => next == sofar }
  {
    assert lines[..i + 1] == lines[..i] + [lines[i]];
    SamplesSnoc(parse, lines[..i], lines[i]);
    EmptyRight(Samples(parse, lines[..i]));
  }

  // ----- The whole stream

  /** A chunk and the times of the samples it completes. */
  datatype Read = Read(chunk: seq<byte>, clock: Clock)

  function Stream(inputs: seq<Read>): seq<byte> {
    if inputs == [] then [] else Stream(inputs[..|inputs| - 1]) + inputs[|inputs| - 1].chunk
  }

  function Ingest(parse: LineParser, lossy: LossyDecoder, inputs: seq<Read>): VmMetrics {
    if inputs == [] then EMPTY
    else
      var last := inputs[|inputs| - 1];
      IngestStep(Ingest(parse, lossy, inputs[..|inputs| - 1]), parse, lossy, last.chunk, last.clock)
  }

  predicate WithinCap(parse: LineParser, lossy: LossyDecoder, inputs: seq<Read>) {
    inputs == [] ||
    var before, last := inputs[..|inputs| - 1], inputs[|inputs| - 1];
    WithinCap(parse, lossy, before) && |Ingest(parse, lossy, before).partial| + |last.chunk| <= MAX_PARTIAL
  }

  function SamplesOf(points: seq<Point>): seq<Sample> {
    seq(|points|, (i: nat) requires i < |points| => points[i].sample)
  }

  lemma {:induction false} SamplesAppend(parse: LineParser, a: seq<seq<byte>>, b: seq<seq<byte>>)
    ensures Samples(parse, a + b) == Samples(parse, a) + Samples(parse, b)
    decreases |b|
  {
    if b == [] {
      EmptyRight(a);
      EmptyRight(Samples(parse, a));
    } else {
      var init, last := b[..|b| - 1], b[|b| - 1];
      Snoc(b);
      Associative(a, init, [last]);
      SamplesAppend(parse, a, init);
      SamplesSnoc(parse, a + init, last);
      Associative(Samples(parse, a), Samples(parse, init), SampleOf(parse, last));
    }
  }

  lemma RecordedHistory(v: VmMetrics, samples: seq<Sample>, clock: Clock, earlier: seq<Sample>)
    requires SamplesOf(v.history) == LastN(earlier, HISTORY_CAP)
    requires v.latest == if earlier == [] then None else Some(earlier[|earlier| - 1])
    ensures
      var v', all := Record(v, samples, clock), earlier + samples;
      && SamplesOf(v'.history) == LastN(all, HISTORY_CAP)
      && v'.latest == if all == [] then None else Some(all[|all| - 1])
  {
    if samples == [] {
      EmptyRight(earlier);
    } else {
      var points := v.history + Stamp(samples, clock);
      assert SamplesOf(points) == SamplesOf(v.history) + samples;
      assert SamplesOf(LastN(points, HISTORY_CAP)) == LastN(SamplesOf(points), HISTORY_CAP);
      LastNAppend(earlier, samples, HISTORY_CAP);
    }
  }

  /** A line's terminator is a newline, with one carriage return before it if there is one. */
  lemma ContentExactly(body: seq<byte>)
    ensures Content(body + [CARRIAGE_RETURN, NEWLINE]) == body
    ensures body == [] || body[|body| - 1] != CARRIAGE_RETURN ==> Content(body + [NEWLINE]) == body
  {
    var line := body + [CARRIAGE_RETURN, NEWLINE];
    assert line[..|line| - 1] == body + [CARRIAGE_RETURN];
    assert (body + [NEWLINE])[..|body|] == body;
  }

  /** The newest points are the call's samples, each with the time it was recorded at, and the
      points before them are the newest of those already there. */
  lemma RecordedPoints(v: VmMetrics, samples: seq<Sample>, clock: Clock, k: nat)
    requires |v.history| <= HISTORY_CAP && k < |Record(v, samples, clock).history|
    ensures
      var points, n := Record(v, samples, clock).history, |samples|;
      && |points| == (if |v.history| + n < HISTORY_CAP then |v.history| + n else HISTORY_CAP)
      && points[|points| - 1 - k] ==
         if k < n then Point(clock(n - 1 - k), samples[n - 1 - k]) else v.history[|v.history| - 1 - (k - n)]
  {
  }

  /** A buffer over the cap loses its beginning, up to the last character that starts early enough. */
  lemma CappedExactly(buf: seq<byte>, cut: nat)
    requires |buf| > MAX_PARTIAL && cut <= |buf| - MAX_PARTIAL && IsCharBoundary(buf, cut)
    requires forall k :: cut < k <= |buf| - MAX_PARTIAL ==> !IsCharBoundary(buf, k)
    ensures Capped(buf) == buf[cut..] && |Capped(buf)| >= MAX_PARTIAL
  {
    var found := FloorBoundary(buf, |buf| - MAX_PARTIAL);
    assert !(cut < found) && !(found < cut);
  }

  /** What the tracker holds for a VM that has reported stream `s`. */
  predicate Agrees(v: VmMetrics, parse: LineParser, s: seq<byte>) {
    && v.partial == Partial(s)
    && var samples := Samples(parse, CompleteLines(s));
    && SamplesOf(v.history) == LastN(samples, HISTORY_CAP)
    && v.latest == if samples == [] then None else Some(samples[|samples| - 1])
  }

  lemma IngestStepAgrees(
      v: VmMetrics, parse: LineParser, lossy: LossyDecoder, s: seq<byte>, chunk: seq<byte>, clock: Clock)
    requires Agrees(v, parse, s) && lossy(chunk) == chunk && |v.partial| + |chunk| <= MAX_PARTIAL
    ensures Agrees(IngestStep(v, parse, lossy, chunk, clock), parse, s + chunk)
  {
    var lines := CompleteLines(v.partial + chunk);
    SplitStream(s, chunk);
    SamplesAppend(parse, CompleteLines(s), lines);
    RecordedHistory(v, Samples(parse, lines), clock, Samples(parse, CompleteLines(s)));
  }

  /** The decoder changes none of the chunks: so it is when each is valid UTF-8 by itself, as
      every chunk of an ASCII stream is, and every stream cut between characters. */
  predicate DecodesUnchanged(lossy: LossyDecoder, inputs: seq<Read>) {
    forall k :: 0 <= k < |inputs| ==> lossy(inputs[k].chunk) == inputs[k].chunk
  }

  /** For every stream and every way of reading it in chunks within the cap that cuts no
      character: the samples recorded are those of the complete lines of the whole stream, in
      order, of which the history keeps the last sixty and `latest` the last. */
  lemma {:induction false} IngestAgreesWithWholeStream(parse: LineParser, lossy: LossyDecoder, inputs: seq<Read>)
    requires DecodesUnchanged(lossy, inputs) && WithinCap(parse, lossy, inputs)
    ensures Agrees(Ingest(parse, lossy, inputs), parse, Stream(inputs))
  {
    if inputs != [] {
      var before, last := inputs[..|inputs| - 1], inputs[|inputs| - 1];
      IngestAgreesWithWholeStream(parse, lossy, before);
      IngestStepAgrees(Ingest(parse, lossy, before), parse, lossy, Stream(before), last.chunk, last.clock);
    }
  }

  predicate IsAscii(s: seq<byte>) {
    forall k :: 0 <= k < |s| ==> s[k] < 128
  }

  /** Every chunk of an ASCII stream is ASCII. */
  lemma {:induction false} AsciiDecodesUnchanged(lossy: LossyDecoder, inputs: seq<Read>)
    requires IsAscii(Stream(inputs)) && forall s :: IsAscii(s) ==> lossy(s) == s
    ensures DecodesUnchanged(lossy, inputs)
  {
    if inputs != [] {
      var before, last := inputs[..|inputs| - 1], inputs[|inputs| - 1];
      AsciiParts(Stream(before), last.chunk);
      AsciiDecodesUnchanged(lossy, before);
      assert forall k :: 0 <= k < |before| ==> before[k] == inputs[k];
    }
  }

  lemma AsciiParts(a: seq<byte>, b: seq<byte>)
    requires IsAscii(a + b)
    ensures IsAscii(a) && IsAscii(b)
  {
    assert forall k :: 0 <= k < |a| ==> a[k] == (a + b)[k];
    assert forall k :: 0 <= k < |b| ==> b[k] == (a + b)[|a| + k];
  }
}
