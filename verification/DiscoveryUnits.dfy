/** Discovery units and how one is replaced by smaller units that cover the same source. */
module DiscoveryUnits {
  import opened Options
  import Text
  import opened Sequences
  import opened ScopePacking
  import opened LineWindows

  /** What one call of a finder is to read: some files whole or, where `window` is given, those lines of one file. */
  datatype Unit = Unit(files: seq<SourceFile>, splitModules: seq<Text.Units>, window: Option<Window>,
      afterTimeLimit: bool)

  const DISCOVERY_WINDOW_OVERLAP_LINES := 20

  /** The modules of a list of files, as the import heuristics group them. */
  type Grouping = seq<SourceFile> -> seq<BundledGroup>

  /** The modules of a list of distinct paths hold each of its files once, and no other. */
  ghost predicate Partitions(grouping: Grouping) {
    forall files, f {:trigger Count(AllFiles(grouping(files)), f)} ::
      DistinctPaths(files) ==> Count(AllFiles(grouping(files)), f) == Count(files, f)
  }

  predicate WellFormed(u: Unit) {
    u.window.Some? ==> |u.files| == 1 && 1 <= u.window.value.startLine <= u.window.value.endLine <= u.files[0].lineCount
  }

  /** A unit of a snapshot: its window, if any, lies in its file, and it lists no path twice. */
  predicate Proper(u: Unit) { WellFormed(u) && DistinctPaths(u.files) }

  /** Whether the unit's call reads line `line` of `file`. */
  predicate Reads(u: Unit, file: SourceFile, line: nat) {
    && file in u.files
    && 1 <= line <= file.lineCount
    && (u.window.Some? ==> u.window.value.startLine <= line <= u.window.value.endLine)
  }

  /** The lines a single-file unit reads; a unit of several files is smaller by its files. */
  function LineSpan(u: Unit): nat
    requires WellFormed(u)
  {
    match u.window
    case Some(w) => w.endLine - w.startLine + 1
    case None => if |u.files| == 1 then u.files[0].lineCount else 0
  }

  /** Fewer files, or as many and fewer lines: the measure the split and retry recursion descends on. */
  predicate Below(part: Unit, files: nat, span: nat)
    requires WellFormed(part)
  {
    |part.files| < files || (|part.files| == files && LineSpan(part) < span)
  }

  predicate Smaller(part: Unit, u: Unit)
    requires WellFormed(part) && WellFormed(u)
  {
    Below(part, |u.files|, LineSpan(u))
  }

  function ByteSum(files: seq<SourceFile>): nat {
    if files == [] then 0 else ByteSum(files[..|files| - 1]) + files[|files| - 1].byteLength
  }

  function ScopeUnits(scopes: seq<Scope>, u: Unit): (units: seq<Unit>)
    ensures |units| == |scopes|
    ensures forall i :: 0 <= i < |scopes| ==>
              units[i] == Unit(scopes[i].files, Distinct(u.splitModules + scopes[i].splitModules), None,
                  u.afterTimeLimit)
  {
    seq(|scopes|, i requires 0 <= i < |scopes| =>
      Unit(scopes[i].files, Distinct(u.splitModules + scopes[i].splitModules), None, u.afterTimeLimit))
  }

  /** What fits one part of a split unit: a single file whatever its size, several up to `half` bytes. */
  function HalfFits(half: nat): ScopePacking.Fits {
    (files: seq<SourceFile>) => |files| == 1 || ByteSum(files) <= half
  }

  /** The unit's files, packed again with half their bytes as the limit. */
  function HalfPacked(grouping: Grouping, u: Unit): seq<Scope> {
    Allocation(grouping(u.files), HalfFits((ByteSum(u.files) + 1) / 2)).scopes
  }

  /** `splitOutputLimitedUnit`: several files packed again under half the limit, or cut in the middle of the
      list when that packing makes one scope; one file or window as two overlapping halves of its lines. */
  function SplitUnit(grouping: Grouping, u: Unit): Option<seq<Unit>> {
    if u.window.None? && |u.files| > 1 then
      var scopes := HalfPacked(grouping, u);
      if |scopes| > 1 then
        Some(ScopeUnits(scopes, u))
      else
        var middle := (|u.files| + 1) / 2;
        Some([u.(files := u.files[..middle]), u.(files := u.files[middle..])])
    else if u.files == [] then
      None
    else
      var window := if u.window.Some? then u.window.value else Window(1, u.files[0].lineCount);
      if window.endLine < window.startLine + 1 then
        None
      else
        SplitLines(u, window)
  }

  function SplitLines(u: Unit, window: Window): Option<seq<Unit>>
    requires u.files != [] && window.startLine + 1 <= window.endLine
  {
    var count := window.endLine - window.startLine + 1;
    var middle := window.startLine + (count + 1) / 2 - 1;
    var overlap := Min(DISCOVERY_WINDOW_OVERLAP_LINES, (middle - window.startLine + 1) / 2);
    Some([
      Unit([u.files[0]], u.splitModules, Some(Window(window.startLine, middle)), u.afterTimeLimit),
      Unit([u.files[0]], u.splitModules, Some(Window(middle + 1 - overlap, window.endLine)), u.afterTimeLimit)
    ])
  }

  /** The parts read exactly the lines the unit does. */
  ghost predicate SameLines(parts: seq<Unit>, u: Unit) {
    forall file, line {:trigger Reads(u, file, line)} :: Reads(u, file, line) <==> ReadByAny(parts, file, line)
  }

  predicate ReadByAny(parts: seq<Unit>, file: SourceFile, line: nat) {
    exists i :: 0 <= i < |parts| && Reads(parts[i], file, line)
  }

  /** The bytes of some files are those of each of them. */
  lemma {:induction false} ByteSumAdds(files: seq<SourceFile>, more: seq<SourceFile>)
    ensures ByteSum(files + more) == ByteSum(files) + ByteSum(more)
    ensures forall f :: ByteSum([f]) == f.byteLength
  {
    forall f ensures ByteSum([f]) == f.byteLength {
      assert [f][..0] == [];
    }
    if more == [] {
      assert files + more == files;
    } else {
      var n := |more| - 1;
      ByteSumAdds(files, more[..n]);
      assert (files + more)[..|files + more| - 1] == files + more[..n];
    }
  }

  /** A unit of one file reads as many lines of it as it spans, one after another. */
  lemma ReadsItsSpan(u: Unit)
    requires WellFormed(u) && |u.files| == 1
    ensures var first := if u.window.Some? then u.window.value.startLine else 1;
            forall line: nat :: Reads(u, u.files[0], line) <==> first <= line < first + LineSpan(u)
  {
  }

  // ----- Splitting loses no line and makes progress

  lemma {:induction false} PlacedMembers(scopes: seq<Scope>, file: SourceFile)
    ensures file in Placed(scopes) <==> exists i :: 0 <= i < |scopes| && file in scopes[i].files
  {
    if scopes != [] {
      var n := |scopes| - 1;
      PlacedMembers(scopes[..n], file);
      assert forall i :: 0 <= i < n ==> scopes[..n][i] == scopes[i];
    }
  }

  lemma {:induction false} PlacedLength(scopes: seq<Scope>, i: nat)
    requires i < |scopes| && forall k :: 0 <= k < |scopes| ==> scopes[k].files != []
    ensures |scopes[i].files| + |scopes| - 1 <= |Placed(scopes)|
  {
    var n := |scopes| - 1;
    var front := scopes[..n];
    assert forall k :: 0 <= k < n ==> front[k] == scopes[k];
    if i < n {
      PlacedLength(front, i);
    } else if n > 0 {
      PlacedLength(front, 0);
      assert |front[0].files| >= 1;
    }
  }

  lemma SameCountsSameLength(a: seq<SourceFile>, b: seq<SourceFile>)
    requires forall f :: Count(a, f) == Count(b, f)
    ensures |a| == |b|
  {
    assert multiset(a) == multiset(b) by {
      forall f ensures multiset(a)[f] == multiset(b)[f] {
        assert Count(a, f) == Count(b, f);
      }
    }
    assert |a| == |multiset(a)| == |multiset(b)| == |b|;
  }

  lemma SameCountSameMembers(a: seq<SourceFile>, b: seq<SourceFile>, f: SourceFile)
    requires Count(a, f) == Count(b, f)
    ensures f in a <==> f in b
  {
  }

  lemma HalfFitsAlone(half: nat)
    ensures FitsAloneIfTogether(HalfFits(half))
  {
  }

  /** Packing by half the bytes places every file, in fewer files a scope once there are two scopes. */
  lemma HalfPackingConserves(grouping: Grouping, files: seq<SourceFile>, half: nat)
    requires Partitions(grouping) && DistinctPaths(files)
    ensures var scopes := Allocation(grouping(files), HalfFits(half)).scopes;
            && (forall f :: f in files <==> exists i :: 0 <= i < |scopes| && f in scopes[i].files)
            && (forall i :: 0 <= i < |scopes| ==> scopes[i].files != [] && DistinctPaths(scopes[i].files))
            && (|scopes| > 1 ==> forall i :: 0 <= i < |scopes| ==> |scopes[i].files| < |files|)
  {
    hide Count, Allocation, Placed, AllFiles, FitsAloneIfTogether, DistinctPaths;
    var groups, fits := grouping(files), HalfFits(half);
    HalfFitsAlone(half);
    var a := Allocation(groups, fits);
    AllocationKeepsOrder(groups, fits);
    AllFitAlone(AllFiles(groups), fits);
    assert a.skipped == [];
    forall f ensures Count(Placed(a.scopes), f) == Count(files, f) {
      AllocationConserves(groups, fits, f);
      assert Count(AllFiles(grouping(files)), f) == Count(files, f);
    }
    SameCountsSameLength(Placed(a.scopes), files);
    ScopesStayDistinct(a.scopes, files);
    forall f ensures f in files <==> exists i :: 0 <= i < |a.scopes| && f in a.scopes[i].files {
      PlacedMembers(a.scopes, f);
      SameCountSameMembers(Placed(a.scopes), files, f);
    }
    AllocationConserves(groups, fits, SourceFile([], 0, 0));
    forall i | 0 <= i < |a.scopes| && |a.scopes| > 1 ensures |a.scopes[i].files| < |files| {
      PlacedLength(a.scopes, i);
    }
  }

  lemma ScopeUnitsCover(scopes: seq<Scope>, u: Unit)
    requires u.window.None? && forall f :: f in u.files <==> exists i :: 0 <= i < |scopes| && f in scopes[i].files
    ensures SameLines(ScopeUnits(scopes, u), u)
  {
    var parts := ScopeUnits(scopes, u);
    forall file, line ensures Reads(u, file, line) <==> ReadByAny(parts, file, line) {
      if Reads(u, file, line) {
        var i :| 0 <= i < |scopes| && file in scopes[i].files;
        assert Reads(parts[i], file, line);
      }
      if ReadByAny(parts, file, line) {
        var i :| 0 <= i < |parts| && Reads(parts[i], file, line);
        assert file in scopes[i].files;
      }
    }
  }

  lemma HalvesCover(u: Unit, middle: nat)
    requires u.window.None? && middle <= |u.files|
    ensures SameLines([u.(files := u.files[..middle]), u.(files := u.files[middle..])], u)
  {
    var parts := [u.(files := u.files[..middle]), u.(files := u.files[middle..])];
    forall file, line ensures Reads(u, file, line) <==> ReadByAny(parts, file, line) {
      assert u.files == u.files[..middle] + u.files[middle..];
      assert ReadByAny(parts, file, line) <==> Reads(parts[0], file, line) || Reads(parts[1], file, line);
    }
  }

  lemma LinesCover(u: Unit, window: Window)
    requires |u.files| == 1 && 1 <= window.startLine < window.endLine <= u.files[0].lineCount
    requires WellFormed(u) && window == if u.window.Some? then u.window.value else Window(1, u.files[0].lineCount)
    ensures var parts := SplitLines(u, window).value;
            SameLines(parts, u) && forall i :: 0 <= i < |parts| ==> WellFormed(parts[i]) && Smaller(parts[i], u)
  {
    var parts := SplitLines(u, window).value;
    assert u.files == [u.files[0]];
    forall file, line ensures Reads(u, file, line) <==> ReadByAny(parts, file, line) {
      assert ReadByAny(parts, file, line) <==> Reads(parts[0], file, line) || Reads(parts[1], file, line);
    }
  }

  ghost predicate GoodParts(parts: seq<Unit>, u: Unit)
    requires WellFormed(u)
  {
    && |parts| >= 2 && SameLines(parts, u)
    && forall i :: 0 <= i < |parts| ==> Proper(parts[i]) && Smaller(parts[i], u)
  }

  lemma ScopesAreGoodParts(scopes: seq<Scope>, u: Unit)
    requires u.window.None? && |scopes| > 1
    requires forall f :: f in u.files <==> exists i :: 0 <= i < |scopes| && f in scopes[i].files
    requires forall i :: 0 <= i < |scopes| ==> |scopes[i].files| < |u.files| && DistinctPaths(scopes[i].files)
    ensures GoodParts(ScopeUnits(scopes, u), u)
  {
    ScopeUnitsCover(scopes, u);
  }

  lemma HalvesAreGoodParts(u: Unit, middle: nat)
    requires Proper(u) && u.window.None? && 0 < middle < |u.files|
    ensures GoodParts([u.(files := u.files[..middle]), u.(files := u.files[middle..])], u)
  {
    HalvesCover(u, middle);
  }

  lemma PackedFilesCover(grouping: Grouping, u: Unit)
    requires Partitions(grouping) && Proper(u) && u.window.None? && |u.files| > 1 && |HalfPacked(grouping, u)| > 1
    ensures GoodParts(ScopeUnits(HalfPacked(grouping, u), u), u)
  {
    HalfPackingConserves(grouping, u.files, (ByteSum(u.files) + 1) / 2);
    ScopesAreGoodParts(HalfPacked(grouping, u), u);
  }

  /** The parts of a unit read exactly its lines, and each is smaller than the unit. */
  lemma SplitCovers(grouping: Grouping, u: Unit)
    requires Partitions(grouping) && Proper(u) && SplitUnit(grouping, u).Some?
    ensures GoodParts(SplitUnit(grouping, u).value, u)
  {
    if u.window.None? && |u.files| > 1 {
      if |HalfPacked(grouping, u)| > 1 {
        PackedFilesCover(grouping, u);
      } else {
        HalvesAreGoodParts(u, (|u.files| + 1) / 2);
      }
    } else {
      LinesCover(u, if u.window.Some? then u.window.value else Window(1, u.files[0].lineCount));
    }
  }

  /** Two windows of the unit's lines: the first half of them, and the rest with a few lines before it. */
  predicate Halved(u: Unit, parts: seq<Unit>)
    requires WellFormed(u) && u.files != []
  {
    var first := if u.window.Some? then u.window.value.startLine else 1;
    var last := if u.window.Some? then u.window.value.endLine else u.files[0].lineCount;
    && |parts| == 2 && parts[0].window.Some? && parts[1].window.Some?
    && parts[0].files == parts[1].files == [u.files[0]]
    && var (a, b) := (parts[0].window.value, parts[1].window.value);
       && a.startLine == first && b.endLine == last
       && 0 <= (a.endLine - first + 1) - (last - a.endLine) <= 1
       && var shared := a.endLine + 1 - b.startLine;
          && 0 <= shared <= DISCOVERY_WINDOW_OVERLAP_LINES && 2 * shared <= a.endLine - first + 1
          && (shared == DISCOVERY_WINDOW_OVERLAP_LINES || 2 * (shared + 1) > a.endLine - first + 1)
  }

  /** The parts keep the unit's mark and the modules it lists as split. Several files are packed again into scopes
      that hold one file or at most half the bytes, or cut in the middle of their list; one file's lines are halved. */
  lemma PartsAreHalves(grouping: Grouping, u: Unit)
    requires Proper(u) && SplitUnit(grouping, u).Some?
    ensures var parts := SplitUnit(grouping, u).value;
            && (forall i :: 0 <= i < |parts| ==>
                 parts[i].afterTimeLimit == u.afterTimeLimit
                 && forall id :: id in u.splitModules ==> id in parts[i].splitModules)
            && if |u.files| == 1 then Halved(u, parts)
               else
                 || (|parts| == |HalfPacked(grouping, u)| > 1
                     && forall i :: 0 <= i < |parts| ==>
                          |parts[i].files| == 1 || 2 * ByteSum(parts[i].files) <= ByteSum(u.files) + 1)
                 || (|HalfPacked(grouping, u)| <= 1 && |parts| == 2 && parts[0].files + parts[1].files == u.files
                     && 0 <= |parts[0].files| - |parts[1].files| <= 1)
  {
    hide DistinctPaths, Allocation, AllFiles, Placed;
    if |u.files| > 1 {
      var half := (ByteSum(u.files) + 1) / 2;
      AllocationConserves(grouping(u.files), HalfFits(half), u.files[0]);
      var scopes := HalfPacked(grouping, u);
      forall i | 0 <= i < |scopes|
        ensures |scopes[i].files| == 1 || 2 * ByteSum(scopes[i].files) <= ByteSum(u.files) + 1
      {
        assert HalfFits(half)(scopes[i].files);
      }
      forall i | 0 <= i < |scopes|
        ensures forall id :: id in u.splitModules ==> id in Distinct(u.splitModules + scopes[i].splitModules)
      {
        DistinctMembers(u.splitModules + scopes[i].splitModules);
      }
    }
  }

  /** Marking a unit as past its time limit changes neither its lines nor its size. */
  lemma MarkKeeps(parts: seq<Unit>, u: Unit, mark: bool)
    requires WellFormed(u) && GoodParts(parts, u.(afterTimeLimit := mark))
    ensures GoodParts(parts, u)
  {
    var late := u.(afterTimeLimit := mark);
    forall file, line ensures Reads(u, file, line) <==> ReadByAny(parts, file, line) {
      assert Reads(late, file, line) <==> Reads(u, file, line);
    }
  }

  /** A unit cannot be split only when it holds no file, or one file of which it reads less than two lines. */
  lemma UnsplittableIsOneLine(grouping: Grouping, u: Unit)
    requires WellFormed(u)
    ensures SplitUnit(grouping, u).None? <==> u.files == [] || (|u.files| == 1 && LineSpan(u) < 2)
  {
  }
}
