/** Greedy maximal line windows with bounded overlap, for a file that fits no scope. */
module LineWindows {

  /** An inclusive range of original line numbers, counted from one. */
  datatype Window = Window(startLine: nat, endLine: nat)

  type Fits = (nat, nat) -> bool

  /** What the source asks of `fits`: monotonic in the window end. */
  ghost predicate MonotonicInEnd(fits: Fits) {
    forall s, e, e' :: s <= e' <= e && fits(s, e) ==> fits(s, e')
  }

  /** `fits` accepts every window inside one it accepts. */
  ghost predicate ClosedUnderNarrowing(fits: Fits) {
    forall s, e, s', e' :: s <= s' <= e' <= e && fits(s, e) ==> fits(s', e')
  }

  function Min(a: nat, b: nat): nat { if a < b then a else b }

  /** The lines a window shares with the next: the overlap, or half the window when that is fewer. */
  function Shared(w: Window, overlap: nat): nat
    requires w.startLine <= w.endLine
  {
    Min(overlap, (w.endLine - w.startLine + 1) / 2)
  }

  predicate Covers(windows: seq<Window>, line: nat) {
    exists i :: 0 <= i < |windows| && windows[i].startLine <= line <= windows[i].endLine
  }

  /** Every window lies in the file, passed `fits`, and starts after the one before it. */
  ghost predicate WellPlaced(windows: seq<Window>, lineCount: nat, fits: Fits) {
    && (forall i :: 0 <= i < |windows| ==> 1 <= windows[i].startLine <= windows[i].endLine <= lineCount)
    && (forall i :: 0 <= i < |windows| ==> fits(windows[i].startLine, windows[i].endLine))
    && (forall i, j :: 0 <= i < j < |windows| ==> windows[i].startLine < windows[j].startLine)
  }

  /** `to` follows `from` with no gap and exactly the shared lines, or after lines that are all reported. */
  ghost predicate Follows(from: Window, to: Window, unexamined: seq<nat>, overlap: nat)
    requires from.startLine <= from.endLine
  {
    || to.startLine == from.endLine + 1 - Shared(from, overlap)
    || (from.endLine + 1 < to.startLine && forall line :: from.endLine < line < to.startLine ==> line in unexamined)
  }

  ghost predicate Maximal(w: Window, lineCount: nat, fits: Fits) {
    forall e :: w.endLine < e <= lineCount ==> !fits(w.startLine, e)
  }

  /** The binary search for the last line that still fits with `start`. */
  method LongestFrom(start: nat, lineCount: nat, fits: Fits) returns (low: nat)
    requires 1 <= start <= lineCount && fits(start, start)
    ensures start <= low <= lineCount && fits(start, low)
    ensures MonotonicInEnd(fits) ==> Maximal(Window(start, low), lineCount, fits)
  {
    low := start;
    var high := lineCount;
    while low < high
      invariant start <= low <= high <= lineCount && fits(start, low)
      invariant MonotonicInEnd(fits) ==> forall e :: high < e <= lineCount ==> !fits(start, e)
    {
      var middle := (low + high + 1) / 2;
      if fits(start, middle) {
        low := middle;
      } else {
        high := middle - 1;
      }
    }
  }

  // ----- The state of the scan at `start`

  /** Every line before `start` is in a window or reported, whatever `fits` answers. */
  ghost predicate Accounted(windows: seq<Window>, unexamined: seq<nat>, start: nat, lineCount: nat, fits: Fits) {
    && WellPlaced(windows, lineCount, fits)
    && (windows != [] ==> windows[|windows| - 1].startLine < start)
    && (forall line :: 1 <= line < start && line <= lineCount ==> Covers(windows, line) || line in unexamined)
    && (forall line :: line in unexamined ==> 1 <= line < start && line <= lineCount && !fits(line, line))
    && (forall i, j :: 0 <= i < j < |unexamined| ==> unexamined[i] < unexamined[j])
  }

  ghost predicate AllMaximal(windows: seq<Window>, lineCount: nat, fits: Fits) {
    forall i :: 0 <= i < |windows| ==> Maximal(windows[i], lineCount, fits)
  }

  /** Ends never decrease and each window follows the one before it. */
  ghost predicate Chained(windows: seq<Window>, unexamined: seq<nat>, overlap: nat) {
    && (forall i :: 0 <= i < |windows| ==> windows[i].startLine <= windows[i].endLine)
    && (forall i :: 0 < i < |windows| ==> windows[i - 1].endLine <= windows[i].endLine)
    && (forall i :: 0 < i < |windows| ==> Follows(windows[i - 1], windows[i], unexamined, overlap))
  }

  ghost predicate NextFollows(windows: seq<Window>, unexamined: seq<nat>, start: nat, overlap: nat) {
    windows != [] ==>
      var last := windows[|windows| - 1];
      last.startLine <= last.endLine && Follows(last, Window(start, start), unexamined, overlap)
  }

  lemma CoversMore(windows: seq<Window>, w: Window, line: nat)
    ensures Covers(windows + [w], line) <==> Covers(windows, line) || w.startLine <= line <= w.endLine
  {
    var more := windows + [w];
    if Covers(windows, line) {
      var i :| 0 <= i < |windows| && windows[i].startLine <= line <= windows[i].endLine;
      assert more[i] == windows[i];
    }
    if w.startLine <= line <= w.endLine {
      assert more[|windows|] == w;
    }
  }

  lemma WindowKeepsAccount(windows: seq<Window>, unexamined: seq<nat>, start: nat, w: Window, next: nat, lineCount: nat,
      fits: Fits)
    requires Accounted(windows, unexamined, start, lineCount, fits)
    requires 1 <= start == w.startLine <= w.endLine <= lineCount && fits(w.startLine, w.endLine)
    requires start < next <= w.endLine + 1
    ensures Accounted(windows + [w], unexamined, next, lineCount, fits)
  {
    forall line | 1 <= line < next ensures Covers(windows + [w], line) || line in unexamined {
      CoversMore(windows, w, line);
    }
  }

  lemma ReportKeepsAccount(windows: seq<Window>, unexamined: seq<nat>, start: nat, lineCount: nat, fits: Fits)
    requires Accounted(windows, unexamined, start, lineCount, fits) && 1 <= start <= lineCount && !fits(start, start)
    ensures Accounted(windows, unexamined + [start], start + 1, lineCount, fits)
  {
    forall i | 0 <= i < |unexamined| ensures unexamined[i] < start {
      assert unexamined[i] in unexamined;
    }
  }

  lemma ReportKeepsChain(windows: seq<Window>, unexamined: seq<nat>, start: nat, lineCount: nat, fits: Fits,
      overlap: nat)
    requires ClosedUnderNarrowing(fits) && 1 <= start && !fits(start, start)
    requires WellPlaced(windows, lineCount, fits) && (windows != [] ==> windows[|windows| - 1].startLine < start)
    requires Chained(windows, unexamined, overlap) && NextFollows(windows, unexamined, start, overlap)
    ensures Chained(windows, unexamined + [start], overlap)
            && NextFollows(windows, unexamined + [start], start + 1, overlap)
  {
    if windows != [] {
      var last := windows[|windows| - 1];
      assert fits(last.startLine, last.endLine);
      assert last.endLine < start;
    }
  }

  lemma WindowKeepsChain(windows: seq<Window>, unexamined: seq<nat>, w: Window, lineCount: nat, fits: Fits,
      overlap: nat)
    requires ClosedUnderNarrowing(fits) && w.startLine <= w.endLine <= lineCount && Maximal(w, lineCount, fits)
    requires WellPlaced(windows, lineCount, fits) && (windows != [] ==> windows[|windows| - 1].startLine < w.startLine)
    requires Chained(windows, unexamined, overlap) && NextFollows(windows, unexamined, w.startLine, overlap)
    ensures Chained(windows + [w], unexamined, overlap)
  {
    if windows != [] {
      var last := windows[|windows| - 1];
      if w.startLine <= last.endLine {
        assert fits(last.startLine, last.endLine);
        assert fits(w.startLine, last.endLine);
      }
    }
  }

  lemma CoveredLinesFitAlone(windows: seq<Window>, lineCount: nat, fits: Fits, line: nat)
    requires ClosedUnderNarrowing(fits) && WellPlaced(windows, lineCount, fits) && Covers(windows, line)
    ensures fits(line, line)
  {
    var i :| 0 <= i < |windows| && windows[i].startLine <= line <= windows[i].endLine;
    assert fits(windows[i].startLine, windows[i].endLine);
  }

  function NextStart(w: Window, overlap: nat): nat
    requires w.startLine <= w.endLine
  {
    var step := w.endLine + 1 - Min(overlap, (w.endLine - w.startLine + 1) / 2);
    if w.startLine + 1 < step then step else w.startLine + 1
  }

  ghost predicate Tight(windows: seq<Window>, unexamined: seq<nat>, start: nat, lineCount: nat, fits: Fits,
      overlap: nat) {
    && (MonotonicInEnd(fits) ==> AllMaximal(windows, lineCount, fits))
    && (ClosedUnderNarrowing(fits) ==>
        Chained(windows, unexamined, overlap) && NextFollows(windows, unexamined, start, overlap))
  }

  lemma ReportKeepsTight(windows: seq<Window>, unexamined: seq<nat>, start: nat, lineCount: nat, fits: Fits,
      overlap: nat)
    requires Accounted(windows, unexamined, start, lineCount, fits) && 1 <= start <= lineCount && !fits(start, start)
    requires Tight(windows, unexamined, start, lineCount, fits, overlap)
    ensures Tight(windows, unexamined + [start], start + 1, lineCount, fits, overlap)
  {
    if ClosedUnderNarrowing(fits) {
      ReportKeepsChain(windows, unexamined, start, lineCount, fits, overlap);
    }
  }

  lemma WindowKeepsTight(windows: seq<Window>, unexamined: seq<nat>, w: Window, lineCount: nat, fits: Fits,
      overlap: nat)
    requires Accounted(windows, unexamined, w.startLine, lineCount, fits)
    requires 1 <= w.startLine <= w.endLine <= lineCount
    requires MonotonicInEnd(fits) ==> Maximal(w, lineCount, fits)
    requires Tight(windows, unexamined, w.startLine, lineCount, fits, overlap)
    ensures Tight(windows + [w], unexamined, NextStart(w, overlap), lineCount, fits, overlap)
  {
    if ClosedUnderNarrowing(fits) {
      assert MonotonicInEnd(fits);
      WindowKeepsChain(windows, unexamined, w, lineCount, fits, overlap);
      assert NextStart(w, overlap) == w.endLine + 1 - Shared(w, overlap);
    }
  }

  ghost predicate ExactlyReported(windows: seq<Window>, unexamined: seq<nat>, lineCount: nat, fits: Fits) {
    forall line :: 1 <= line <= lineCount ==>
      && (line in unexamined <==> !fits(line, line))
      && (line in unexamined <==> !Covers(windows, line))
  }

  lemma NarrowingReportsExactly(windows: seq<Window>, unexamined: seq<nat>, start: nat, lineCount: nat, fits: Fits)
    requires ClosedUnderNarrowing(fits) && Accounted(windows, unexamined, start, lineCount, fits) && lineCount < start
    ensures ExactlyReported(windows, unexamined, lineCount, fits)
  {
    forall line | 1 <= line <= lineCount && Covers(windows, line) ensures fits(line, line) {
      CoveredLinesFitAlone(windows, lineCount, fits, line);
    }
  }

  /** `allocateLineWindows`. Whatever `fits` answers, each line is in a window that fits or is reported;
      when `fits` is closed under narrowing, exactly the lines that do not fit alone are reported. */
  method AllocateLineWindows(lineCount: nat, fits: Fits, overlap: nat)
    returns (windows: seq<Window>, unexamined: seq<nat>)
    ensures Accounted(windows, unexamined, lineCount + 1, lineCount, fits)
    ensures MonotonicInEnd(fits) ==> AllMaximal(windows, lineCount, fits)
    ensures ClosedUnderNarrowing(fits) ==> Chained(windows, unexamined, overlap)
    ensures ClosedUnderNarrowing(fits) ==> ExactlyReported(windows, unexamined, lineCount, fits)
  {
    hide MonotonicInEnd, ClosedUnderNarrowing;
    windows, unexamined := [], [];
    var start := 1;
    while start <= lineCount
      invariant 1 <= start <= lineCount + 1
      invariant Accounted(windows, unexamined, start, lineCount, fits)
      invariant Tight(windows, unexamined, start, lineCount, fits, overlap)
    {
      if !fits(start, start) {
        ReportKeepsTight(windows, unexamined, start, lineCount, fits, overlap);
        ReportKeepsAccount(windows, unexamined, start, lineCount, fits);
        unexamined := unexamined + [start];
        start := start + 1;
        continue;
      }
      var low := LongestFrom(start, lineCount, fits);
      var window := Window(start, low);
      WindowKeepsTight(windows, unexamined, window, lineCount, fits, overlap);
      var next := NextStart(window, overlap);
      WindowKeepsAccount(windows, unexamined, start, window, next, lineCount, fits);
      WindowKeepsAccount(windows, unexamined, start, window, low + 1, lineCount, fits);
      windows := windows + [window];
      if low >= lineCount {
        start := low + 1;
        break;
      }
      start := next;
    }
    if ClosedUnderNarrowing(fits) {
      NarrowingReportsExactly(windows, unexamined, lineCount + 1, lineCount, fits);
    }
  }
}
