/** The append-only trace log: its committed lines, and the full scan that assigns trace IDs. */
module TraceLog {
  import opened Hashing
  import opened Options
  import Text

  const NEWLINE: nat := 0x0a

  /** A trace record, with the columns the index filters on. */
  datatype Trace = Trace(nodeId: Text.Units, modelId: Text.Units, protocolId: Text.Units, outcome: Text.Units,
      activityId: Text.Units, rest: Bytes)

  /** `parseTraceLine` for one run: none where it throws. */
  type Parser = Bytes -> Option<Trace>

  /** A non-empty committed line: where it starts, and its text without the newline. */
  datatype Line = Line(offset: nat, text: Bytes)

  // ----- Committed lines

  /** The length up to and including the last newline. */
  function CommittedLength(bytes: Bytes): (n: nat)
    ensures n <= |bytes|
    ensures n > 0 ==> bytes[n - 1] == NEWLINE
    ensures forall i :: n <= i < |bytes| ==> bytes[i] != NEWLINE
  {
    if bytes == [] then 0
    else if bytes[|bytes| - 1] == NEWLINE then |bytes|
    else CommittedLength(bytes[..|bytes| - 1])
  }

  /** A position at the start of the log or right after a newline. */
  predicate Boundary(log: Bytes, end: nat) {
    end <= |log| && (end > 0 ==> log[end - 1] == NEWLINE)
  }

  /** Where the line that ends at `end` starts. */
  function LineStart(log: Bytes, end: nat): (start: nat)
    requires 0 < end <= |log|
    ensures start < end && Boundary(log, start)
  {
    CommittedLength(log[..end - 1])
  }

  /** The line that ends right before the newline at `end - 1`; an empty line is none. */
  function LineBetween(log: Bytes, start: nat, end: nat): seq<Line>
    requires start < end <= |log|
  {
    if end - start > 1 then [Line(start, log[start..end - 1])] else []
  }

  /** The non-empty lines of `log[..end]`, in order. */
  function Lines(log: Bytes, end: nat): seq<Line>
    requires end <= |log|
    decreases end
  {
    if end == 0 then [] else Lines(log, LineStart(log, end)) + LineBetween(log, LineStart(log, end), end)
  }

  /** The line stands in the log: it starts on a boundary, ends with its newline and holds no other. */
  ghost predicate StandsIn(log: Bytes, line: Line, end: nat) {
    && line.text != [] && NEWLINE !in line.text
    && line.offset + |line.text| < end <= |log| && Boundary(log, line.offset)
    && log[line.offset..line.offset + |line.text| + 1] == line.text + [NEWLINE]
  }

  lemma LineStands(log: Bytes, end: nat)
    requires 0 < end && Boundary(log, end) && end > LineStart(log, end) + 1
    ensures StandsIn(log, LineBetween(log, LineStart(log, end), end)[0], end)
  {
    hide CommittedLength;
    var start := LineStart(log, end);
    var text := log[start..end - 1];
    assert log[start..end] == text + [NEWLINE];
    assert forall i :: 0 <= i < |text| ==> text[i] == log[..end - 1][start + i];
  }

  lemma {:induction false} LinesStand(log: Bytes, end: nat)
    requires Boundary(log, end)
    ensures forall i :: 0 <= i < |Lines(log, end)| ==> StandsIn(log, Lines(log, end)[i], end)
    decreases end
  {
    if end > 0 {
      var start := LineStart(log, end);
      LinesStand(log, start);
      forall i | 0 <= i < |Lines(log, end)| ensures StandsIn(log, Lines(log, end)[i], end) {
        if i < |Lines(log, start)| {
          assert StandsIn(log, Lines(log, start)[i], start);
        } else {
          LineStands(log, end);
        }
      }
    }
  }

  /** The lines of a prefix are the same in every log that starts with it. */
  lemma {:induction false} LinesOfPrefix(a: Bytes, b: Bytes, end: nat)
    requires end <= |a| && end <= |b| && a[..end] == b[..end]
    ensures Lines(a, end) == Lines(b, end)
    decreases end
  {
    if end > 0 {
      assert a[..end - 1] == a[..end][..end - 1] == b[..end][..end - 1] == b[..end - 1];
      var start := LineStart(a, end);
      assert a[..start] == a[..end][..start] == b[..end][..start] == b[..start];
      assert a[start..end - 1] == a[..end - 1][start..] == b[..end - 1][start..] == b[start..end - 1];
      LinesOfPrefix(a, b, start);
    }
  }

  /** The line that starts at `start` ends at `stop`, its newline included. */
  ghost predicate LineEnds(log: Bytes, start: nat, stop: nat) {
    && start < stop <= |log| && log[stop - 1] == NEWLINE
    && forall i :: start <= i < stop - 1 ==> log[i] != NEWLINE
  }

  /** One more line: from a boundary to the next newline. */
  lemma NextLine(log: Bytes, start: nat, stop: nat)
    requires Boundary(log, start) && LineEnds(log, start, stop)
    ensures Lines(log, stop) == Lines(log, start) + LineBetween(log, start, stop)
  {
    CommittedIs(log[..stop - 1], start);
  }

  lemma {:induction false} CommittedIs(bytes: Bytes, n: nat)
    requires n <= |bytes| && (n > 0 ==> bytes[n - 1] == NEWLINE) && forall i :: n <= i < |bytes| ==> bytes[i] != NEWLINE
    ensures CommittedLength(bytes) == n
  {
    if bytes != [] && bytes[|bytes| - 1] != NEWLINE {
      CommittedIs(bytes[..|bytes| - 1], n);
    }
  }

  // ----- The full scan

  /** `bytes.split("\n")`. */
  function Split(bytes: Bytes): (lines: seq<Bytes>)
    ensures |lines| >= 1
    decreases |bytes|
  {
    if bytes == [] then [[]]
    else
      var n := |bytes| - 1;
      var front := Split(bytes[..n]);
      if bytes[n] == NEWLINE then front + [[]]
      else front[..|front| - 1] + [front[|front| - 1] + [bytes[n]]]
  }

  /** `lines.filter(Boolean)`. */
  function NonEmpty(lines: seq<Bytes>): seq<Bytes> {
    if lines == [] then []
    else NonEmpty(lines[..|lines| - 1]) + if lines[|lines| - 1] == [] then [] else [lines[|lines| - 1]]
  }

  function TextsOf(lines: seq<Line>): seq<Bytes> {
    if lines == [] then [] else TextsOf(lines[..|lines| - 1]) + [lines[|lines| - 1].text]
  }

  /** The non-empty parts of the split of a prefix. */
  function PartsBefore(log: Bytes, end: nat): seq<Bytes>
    requires end <= |log|
  {
    NonEmpty(Split(log[..end]))
  }

  /** The committed, non-empty lines as the full scan finds them. */
  function ScannedLines(log: Bytes): seq<Bytes> {
    PartsBefore(log, CommittedLength(log))
  }

  lemma {:induction false} SplitLine(prefix: Bytes, whole: seq<Bytes>, line: Bytes)
    requires Split(prefix) == whole + [[]] && NEWLINE !in line
    ensures Split(prefix + line) == whole + [line]
  {
    if line == [] {
      assert prefix + line == prefix;
    } else {
      var n := |line| - 1;
      SplitLine(prefix, whole, line[..n]);
      assert (prefix + line)[..|prefix + line| - 1] == prefix + line[..n];
      assert (prefix + line)[|prefix + line| - 1] == line[n];
      assert line[..n] + [line[n]] == line;
    }
  }

  lemma SplitEnd(bytes: Bytes)
    ensures Split(bytes + [NEWLINE]) == Split(bytes) + [[]]
  {
    assert (bytes + [NEWLINE])[..|bytes|] == bytes;
  }

  lemma NonEmptyAppend(lines: seq<Bytes>, last: Bytes)
    ensures NonEmpty(lines + [last]) == NonEmpty(lines) + if last == [] then [] else [last]
  {
    assert (lines + [last])[..|lines|] == lines;
  }

  lemma EndsEmpty(bytes: Bytes)
    requires Boundary(bytes, |bytes|)
    ensures Split(bytes) == Split(bytes)[..|Split(bytes)| - 1] + [[]]
  {
  }

  /** One more committed line is one more part of the split, kept unless it is empty. */
  lemma SplitStep(prefix: Bytes, line: Bytes)
    requires Boundary(prefix, |prefix|) && NEWLINE !in line
    ensures NonEmpty(Split(prefix + line + [NEWLINE])) == NonEmpty(Split(prefix)) + if line == [] then [] else [line]
  {
    var whole := Split(prefix)[..|Split(prefix)| - 1];
    EndsEmpty(prefix);
    SplitLine(prefix, whole, line);
    SplitEnd(prefix + line);
    NonEmptyAppend(whole, []);
    NonEmptyAppend(whole, line);
    NonEmptyAppend(whole + [line], []);
  }

  lemma LastLine(log: Bytes, end: nat)
    requires 0 < end <= |log| && log[end - 1] == NEWLINE
    ensures var start := LineStart(log, end);
            && log[..end] == log[..start] + log[start..end - 1] + [NEWLINE]
            && NEWLINE !in log[start..end - 1] && Boundary(log[..start], start)
  {
    var start := LineStart(log, end);
    var text := log[start..end - 1];
    assert forall i :: 0 <= i < |text| ==> text[i] == log[..end - 1][start + i];
  }

  /** The lines of a prefix that ends in a newline are exactly the non-empty parts of its split. */
  lemma {:induction false} LinesAreTheSplit(log: Bytes, end: nat)
    requires Boundary(log, end)
    ensures PartsBefore(log, end) == TextsOf(Lines(log, end))
    decreases end
  {
    if end == 0 {
      assert log[..0] == [];
      assert NonEmpty([[]]) == NonEmpty([]);
    } else {
      var start := LineStart(log, end);
      LinesAreTheSplit(log, start);
      LastLine(log, end);
      SplitStep(log[..start], log[start..end - 1]);
      TextsAppend(Lines(log, start), LineBetween(log, start, end));
    }
  }

  lemma TextsAppend(lines: seq<Line>, last: seq<Line>)
    requires |last| <= 1
    ensures TextsOf(lines + last) == TextsOf(lines) + if last == [] then [] else [last[0].text]
  {
    if last == [] {
      assert lines + last == lines;
    } else {
      assert (lines + last)[..|lines|] == lines;
    }
  }

  /** The index's notion of a committed line agrees with the full scan's on every log. */
  lemma LinesMatchTheScan(log: Bytes)
    ensures ScannedLines(log) == TextsOf(Lines(log, CommittedLength(log)))
  {
    LinesAreTheSplit(log, CommittedLength(log));
  }

  // ----- How the log changes

  /** `recover`: a torn tail is cut back to the last newline. */
  function Recovered(log: Bytes): Bytes { log[..CommittedLength(log)] }

  /** A change that keeps what is committed: an append of any bytes, or the recovery of a torn tail. */
  ghost predicate KeepsCommitted(before: Bytes, after: Bytes) {
    CommittedLength(before) <= |after| && after[..CommittedLength(before)] == before[..CommittedLength(before)]
  }

  lemma AppendAndRecoveryKeepCommitted(log: Bytes, bytes: Bytes)
    ensures KeepsCommitted(log, log + bytes) && KeepsCommitted(log, Recovered(log))
  {
  }

  lemma CommittedAtLeast(bytes: Bytes, n: nat)
    requires Boundary(bytes, n)
    ensures CommittedLength(bytes) >= n
  {
  }

  /** What is committed once stays at its place, under its ID, whatever is appended or recovered later. */
  lemma CommittedLinesAreStable(before: Bytes, after: Bytes, end: nat)
    requires KeepsCommitted(before, after) && Boundary(before, end)
    ensures Boundary(after, end) && end <= CommittedLength(before) && Lines(after, end) == Lines(before, end)
    ensures after[..end] == before[..end]
  {
    CommittedAtLeast(before, end);
    assert after[..end] == after[..CommittedLength(before)][..end] == before[..CommittedLength(before)][..end]
        == before[..end];
    assert end > 0 ==> after[end - 1] == after[..end][end - 1];
    LinesOfPrefix(before, after, end);
  }

  /** A longer committed prefix holds the lines of a shorter one first. */
  lemma {:induction false} MoreLines(log: Bytes, a: nat, b: nat)
    requires Boundary(log, a) && Boundary(log, b) && a <= b
    ensures Lines(log, a) <= Lines(log, b)
    decreases b
  {
    if a < b {
      assert a > 0 ==> log[..b - 1][a - 1] == log[a - 1];
      CommittedAtLeast(log[..b - 1], a);
      MoreLines(log, a, LineStart(log, b));
    }
  }
}
