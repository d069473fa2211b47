/** Moving each test file beside the source it tests, before the modules are packed. */
module TestPlacement {
  import opened Options
  import Text
  import opened Sequences
  import opened ScopePacking

  datatype Group = Group(id: Text.Units, files: seq<SourceFile>)

  /** What the repository's naming and import heuristics answer for a path. */
  datatype Heuristics = Heuristics(isTest: Text.Units -> bool, imports: Text.Units -> seq<Text.Units>,
      stem: Text.Units -> Text.Units, testedStem: Text.Units -> Text.Units)

  function GroupFiles(groups: seq<Group>): seq<SourceFile> {
    if groups == [] then [] else GroupFiles(groups[..|groups| - 1]) + groups[|groups| - 1].files
  }

  /** The position of a path among the grouped files, or their number when it is absent. */
  function Position(files: seq<SourceFile>, path: Text.Units): nat {
    if files == [] then 0
    else if files[0].path == path then 0
    else 1 + Position(files[1..], path)
  }

  predicate Has(files: seq<SourceFile>, path: Text.Units) {
    exists i :: 0 <= i < |files| && files[i].path == path
  }

  /** The position is that of the first file with the path. */
  lemma {:induction false} PositionIsFirst(files: seq<SourceFile>, path: Text.Units)
    ensures Position(files, path) <= |files| && (Position(files, path) < |files| <==> Has(files, path))
    ensures Has(files, path) ==> files[Position(files, path)].path == path
    ensures forall i :: 0 <= i < Position(files, path) ==> files[i].path != path
  {
    if files != [] && files[0].path != path {
      PositionIsFirst(files[1..], path);
      assert forall i :: 0 < i < |files| ==> files[i] == files[1..][i - 1];
    }
  }

  /** The imported non-test files of the snapshot. */
  function Targets(flat: seq<SourceFile>, h: Heuristics, path: Text.Units): seq<Text.Units> {
    Filter(h.imports(path), target => !h.isTest(target) && Has(flat, target))
  }

  /** The target placed last. */
  function LastTarget(flat: seq<SourceFile>, targets: seq<Text.Units>): (last: Text.Units)
    requires targets != []
    ensures last in targets
    ensures forall t :: t in targets ==> Position(flat, t) <= Position(flat, last)
  {
    if |targets| == 1 then
      targets[0]
    else
      var rest := LastTarget(flat, targets[1..]);
      if Position(flat, rest) < Position(flat, targets[0]) then targets[0] else rest
  }

  /** The first target whose name the test carries. */
  function Named(h: Heuristics, path: Text.Units, targets: seq<Text.Units>): (named: Option<Text.Units>)
    ensures named.Some? ==> named.value in targets && h.stem(named.value) == h.testedStem(path)
    ensures named.None? ==> forall t :: t in targets ==> h.stem(t) != h.testedStem(path)
    ensures named.Some? ==> exists k :: 0 <= k < |targets| && targets[k] == named.value
                                        && forall j :: 0 <= j < k ==> h.stem(targets[j]) != h.testedStem(path)
  {
    if targets == [] then None
    else if h.stem(targets[0]) == h.testedStem(path) then Some(targets[0])
    else Named(h, path, targets[1..])
  }

  /** The file a test is placed after, if it imports one. */
  function Anchor(flat: seq<SourceFile>, h: Heuristics, path: Text.Units): Option<Text.Units> {
    var targets := Targets(flat, h, path);
    if !h.isTest(path) || targets == [] then None
    else if Named(h, path, targets).Some? then Named(h, path, targets)
    else Some(LastTarget(flat, targets))
  }

  /** A file that a test can be placed after. */
  predicate Eligible(flat: seq<SourceFile>, h: Heuristics, path: Text.Units, target: Text.Units) {
    target in h.imports(path) && !h.isTest(target) && Has(flat, target)
  }

  /** A test is moved if and only if it imports a file of the snapshot that is no test:
      after one whose name it carries if there is one, else after the one placed last. */
  lemma AnchorIff(flat: seq<SourceFile>, h: Heuristics, path: Text.Units)
    ensures var anchor := Anchor(flat, h, path);
            && (anchor.Some? <==> h.isTest(path) && exists t :: Eligible(flat, h, path, t))
            && (anchor.Some? ==>
                && Eligible(flat, h, path, anchor.value)
                && if exists t :: Eligible(flat, h, path, t) && h.stem(t) == h.testedStem(path)
                   then h.stem(anchor.value) == h.testedStem(path)
                   else forall t :: Eligible(flat, h, path, t) ==> Position(flat, t) <= Position(flat, anchor.value))
  {
    hide Has, Position;
    FilterMembers(h.imports(path), target => !h.isTest(target) && Has(flat, target));
    var targets := Targets(flat, h, path);
    assert forall t :: t in targets <==> Eligible(flat, h, path, t);
    if targets != [] {
      assert Eligible(flat, h, path, targets[0]);
    }
  }

  /** An anchor is a non-test file of some module, so it is never moved itself. */
  lemma AnchorStays(flat: seq<SourceFile>, h: Heuristics, path: Text.Units)
    requires Anchor(flat, h, path).Some?
    ensures Has(flat, Anchor(flat, h, path).value) && Anchor(flat, h, Anchor(flat, h, path).value).None?
  {
    FilterMembers(h.imports(path), target => !h.isTest(target) && Has(flat, target));
  }

  /** The tests anchored at `path`, in module order. */
  function Following(files: seq<SourceFile>, flat: seq<SourceFile>, h: Heuristics, path: Text.Units): seq<SourceFile> {
    if files == [] then []
    else
      var last := files[|files| - 1];
      Following(files[..|files| - 1], flat, h, path) + if Anchor(flat, h, last.path) == Some(path) then [last] else []
  }

  /** Each file that stays, followed by the tests anchored at it. */
  function Bundles(files: seq<SourceFile>, flat: seq<SourceFile>, h: Heuristics): seq<seq<SourceFile>> {
    if files == [] then []
    else
      var last := files[|files| - 1];
      Bundles(files[..|files| - 1], flat, h)
      + if Anchor(flat, h, last.path).None? then [[last] + Following(flat, flat, h, last.path)] else []
  }

  /** `besideTheirSource`: the modules with their tests moved, without those left empty. */
  function BesideTheirSource(groups: seq<Group>, flat: seq<SourceFile>, h: Heuristics): seq<BundledGroup> {
    if groups == [] then []
    else
      var last := groups[|groups| - 1];
      var bundles := Bundles(last.files, flat, h);
      BesideTheirSource(groups[..|groups| - 1], flat, h)
      + if bundles == [] then [] else [BundledGroup(last.id, bundles)]
  }

  /** No module is left without a file. */
  lemma {:induction false} ModulesAreNotEmpty(groups: seq<Group>, flat: seq<SourceFile>, h: Heuristics)
    ensures forall i :: 0 <= i < |BesideTheirSource(groups, flat, h)| ==>
              BesideTheirSource(groups, flat, h)[i].bundles != []
              && exists g :: g in groups && g.id == BesideTheirSource(groups, flat, h)[i].id
  {
    hide Bundles;
    if groups != [] {
      var n := |groups| - 1;
      ModulesAreNotEmpty(groups[..n], flat, h);
      assert groups == groups[..n] + [groups[n]] && groups[n] in groups;
    }
  }

  // ----- Moving tests is a permutation

  lemma {:induction false} FollowingCount(files: seq<SourceFile>, flat: seq<SourceFile>, h: Heuristics,
      path: Text.Units, f: SourceFile)
    ensures Count(Following(files, flat, h, path), f)
            == if Anchor(flat, h, f.path) == Some(path) then Count(files, f) else 0
  {
    if files != [] {
      var n := |files| - 1;
      FollowingCount(files[..n], flat, h, path, f);
      assert files == files[..n] + [files[n]];
      CountConcat(files[..n], [files[n]], f);
      CountConcat(Following(files[..n], flat, h, path), [files[n]], f);
    }
  }

  /** How often a file appears in the bundles of `files`: a file that stays, as often as it
      is there; a moved test, as often as it is in the snapshot when its anchor is there. */
  ghost function Expected(files: seq<SourceFile>, flat: seq<SourceFile>, h: Heuristics, f: SourceFile): nat {
    match Anchor(flat, h, f.path)
    case None => Count(files, f)
    case Some(anchor) => if Has(files, anchor) then Count(flat, f) else 0
  }

  lemma BundleCount(head: SourceFile, flat: seq<SourceFile>, h: Heuristics, f: SourceFile)
    ensures Count([head] + Following(flat, flat, h, head.path), f)
            == Count([head], f) + if Anchor(flat, h, f.path) == Some(head.path) then Count(flat, f) else 0
  {
    FollowingCount(flat, flat, h, head.path, f);
    CountConcat([head], Following(flat, flat, h, head.path), f);
  }

  lemma HasAppend(files: seq<SourceFile>, last: SourceFile, path: Text.Units)
    ensures Has(files + [last], path) <==> Has(files, path) || last.path == path
  {
    var more := files + [last];
    if Has(files, path) {
      var i :| 0 <= i < |files| && files[i].path == path;
      assert more[i].path == path;
    }
    if last.path == path {
      assert more[|files|].path == path;
    }
  }

  lemma ExpectedAppend(front: seq<SourceFile>, last: SourceFile, flat: seq<SourceFile>, h: Heuristics, f: SourceFile)
    requires DistinctPaths(front + [last])
    ensures Expected(front + [last], flat, h, f) == Expected(front, flat, h, f)
            + if Anchor(flat, h, last.path).Some? then 0
              else Count([last], f) + if Anchor(flat, h, f.path) == Some(last.path) then Count(flat, f) else 0
  {
    CountConcat(front, [last], f);
    if Anchor(flat, h, f.path).Some? {
      var anchor := Anchor(flat, h, f.path).value;
      HasAppend(front, last, anchor);
      AnchorStays(flat, h, f.path);
      if Has(front, anchor) {
        var i :| 0 <= i < |front| && front[i].path == anchor;
        assert (front + [last])[i].path != (front + [last])[|front|].path;
      }
    }
  }

  lemma {:induction false} BundlesCount(files: seq<SourceFile>, flat: seq<SourceFile>, h: Heuristics, f: SourceFile)
    requires DistinctPaths(files)
    ensures Count(Flatten(Bundles(files, flat, h)), f) == Expected(files, flat, h, f)
  {
    if files != [] {
      var n := |files| - 1;
      var front, last := files[..n], files[n];
      assert files == front + [last];
      BundlesCount(front, flat, h, f);
      ExpectedAppend(front, last, flat, h, f);
      if Anchor(flat, h, last.path).None? {
        var bundle := [last] + Following(flat, flat, h, last.path);
        BundleCount(last, flat, h, f);
        FlattenAppend(Bundles(front, flat, h), bundle);
        CountConcat(Flatten(Bundles(front, flat, h)), bundle, f);
      } else {
        assert Bundles(files, flat, h) == Bundles(front, flat, h);
      }
    }
  }

  lemma {:induction false} BundlesConcat(a: seq<SourceFile>, b: seq<SourceFile>, flat: seq<SourceFile>, h: Heuristics)
    ensures Bundles(a + b, flat, h) == Bundles(a, flat, h) + Bundles(b, flat, h)
  {
    hide Anchor, Following;
    if b == [] {
      assert a + b == a;
    } else {
      BundlesConcat(a, b[..|b| - 1], flat, h);
      assert (a + b)[..|a + b| - 1] == a + b[..|b| - 1];
    }
  }

  lemma {:induction false} GroupsFlatten(groups: seq<Group>, flat: seq<SourceFile>, h: Heuristics)
    ensures AllFiles(BesideTheirSource(groups, flat, h)) == Flatten(Bundles(GroupFiles(groups), flat, h))
  {
    if groups != [] {
      var n := |groups| - 1;
      GroupsFlatten(groups[..n], flat, h);
      var before, bundles := BesideTheirSource(groups[..n], flat, h), Bundles(groups[n].files, flat, h);
      BundlesConcat(GroupFiles(groups[..n]), groups[n].files, flat, h);
      FlattenConcat(Bundles(GroupFiles(groups[..n]), flat, h), bundles);
      if bundles != [] {
        var moved := BundledGroup(groups[n].id, bundles);
        assert (before + [moved])[..|before|] == before;
        assert AllFiles(before + [moved]) == AllFiles(before) + Flatten(bundles);
      } else {
        assert before + [] == before;
      }
    }
  }

  /** Given modules that partition the snapshot, moving tests beside their source loses and repeats no file. */
  lemma MovingTestsIsAPermutation(groups: seq<Group>, h: Heuristics, f: SourceFile)
    requires DistinctPaths(GroupFiles(groups))
    ensures Count(AllFiles(BesideTheirSource(groups, GroupFiles(groups), h)), f) == Count(GroupFiles(groups), f)
  {
    var flat := GroupFiles(groups);
    GroupsFlatten(groups, flat, h);
    BundlesCount(flat, flat, h, f);
    if Anchor(flat, h, f.path).Some? {
      AnchorStays(flat, h, f.path);
    }
  }

  /** Every bundle is one file that stays, followed only by the tests anchored at it. */
  lemma {:induction false} TestsStandBesideTheirSource(files: seq<SourceFile>, flat: seq<SourceFile>, h: Heuristics)
    ensures forall b: seq<SourceFile> :: b in Bundles(files, flat, h) ==>
              && b != [] && Anchor(flat, h, b[0].path).None?
              && forall i :: 0 < i < |b| ==> Anchor(flat, h, b[i].path) == Some(b[0].path)
  {
    if files != [] {
      var n := |files| - 1;
      TestsStandBesideTheirSource(files[..n], flat, h);
      FollowingAnchored(flat, flat, h, files[n].path);
    }
  }

  lemma {:induction false} FollowingAnchored(files: seq<SourceFile>, flat: seq<SourceFile>, h: Heuristics,
      path: Text.Units)
    ensures forall i :: 0 <= i < |Following(files, flat, h, path)| ==>
            Anchor(flat, h, Following(files, flat, h, path)[i].path) == Some(path)
  {
    if files != [] {
      FollowingAnchored(files[..|files| - 1], flat, h, path);
    }
  }

  /** The whole of discovery packing: every file of the snapshot ends in exactly one scope or unallocated. */
  lemma PackingConservesTheSnapshot(groups: seq<Group>, h: Heuristics, fits: Fits, f: SourceFile)
    requires DistinctPaths(GroupFiles(groups))
    ensures var a := Allocation(BesideTheirSource(groups, GroupFiles(groups), h), fits);
            Count(Placed(a.scopes), f) + Count(a.skipped, f) == Count(GroupFiles(groups), f)
  {
    MovingTestsIsAPermutation(groups, h, f);
    AllocationConserves(BesideTheirSource(groups, GroupFiles(groups), h), fits, f);
  }

  // ----- The loops

  lemma {:induction false} GroupFilesContain(groups: seq<Group>, g: nat)
    requires g < |groups|
    ensures forall f :: f in groups[g].files ==> f in GroupFiles(groups)
  {
    var n := |groups| - 1;
    if g < n {
      GroupFilesContain(groups[..n], g);
      assert groups[..n][g] == groups[g];
    }
  }

  ghost predicate AnchorsOf(anchors: map<Text.Units, Text.Units>, files: seq<SourceFile>, flat: seq<SourceFile>,
      h: Heuristics) {
    && (forall path :: path in anchors ==> Anchor(flat, h, path) == Some(anchors[path]))
    && (forall k :: 0 <= k < |files| && Anchor(flat, h, files[k].path).Some? ==> files[k].path in anchors)
  }

  /** The anchor of each test of the snapshot that has one. */
  method FindAnchors(snapshot: seq<SourceFile>, flat: seq<SourceFile>, h: Heuristics)
    returns (anchors: map<Text.Units, Text.Units>)
    ensures AnchorsOf(anchors, snapshot, flat, h)
  {
    hide Anchor;
    anchors := map[];
    for i := 0 to |snapshot|
      invariant forall path :: path in anchors ==> Anchor(flat, h, path) == Some(anchors[path])
      invariant forall k :: 0 <= k < i && Anchor(flat, h, snapshot[k].path).Some? ==> snapshot[k].path in anchors
    {
      var anchor := FindAnchor(flat, h, snapshot[i].path);
      if anchor.Some? {
        anchors := anchors[snapshot[i].path := anchor.value];
      }
    }
  }

  method FindAnchor(flat: seq<SourceFile>, h: Heuristics, path: Text.Units) returns (anchor: Option<Text.Units>)
    ensures anchor == Anchor(flat, h, path)
  {
    if !h.isTest(path) {
      return None;
    }
    var targets := Targets(flat, h, path);
    if targets == [] {
      return None;
    }
    var named := Named(h, path, targets);
    anchor := if named.Some? then named else Some(LastTarget(flat, targets));
  }

  function Lookup(following: map<Text.Units, seq<SourceFile>>, path: Text.Units): seq<SourceFile> {
    if path in following then following[path] else []
  }

  lemma NothingFollows(flat: seq<SourceFile>, h: Heuristics)
    ensures forall path :: Lookup(map[], path) == Following(flat[..0], flat, h, path)
  {
  }

  lemma AddsOneFollower(following: map<Text.Units, seq<SourceFile>>, anchor: Text.Units, file: SourceFile)
    ensures forall path {:trigger Lookup(following, path)} ::
              Lookup(following[anchor := Lookup(following, anchor) + [file]], path)
              == Lookup(following, path) + if path == anchor then [file] else []
  {
    forall path
      ensures Lookup(following[anchor := Lookup(following, anchor) + [file]], path)
              == Lookup(following, path) + if path == anchor then [file] else []
    {
      assert Lookup(following, path) + [] == Lookup(following, path);
    }
  }

  /** The tests that follow each anchor, in module order. */
  method FindFollowing(flat: seq<SourceFile>, anchors: map<Text.Units, Text.Units>, h: Heuristics)
    returns (following: map<Text.Units, seq<SourceFile>>)
    requires AnchorsOf(anchors, flat, flat, h)
    ensures forall path :: Lookup(following, path) == Following(flat, flat, h, path)
  {
    hide Anchor, Lookup;
    NothingFollows(flat, h);
    following := map[];
    for i := 0 to |flat|
      invariant forall path :: Lookup(following, path) == Following(flat[..i], flat, h, path)
    {
      PrefixStep(flat, i);
      ghost var before := following;
      if flat[i].path in anchors {
        var anchor := anchors[flat[i].path];
        AddsOneFollower(following, anchor, flat[i]);
        following := following[anchor := Lookup(following, anchor) + [flat[i]]];
      }
      forall path ensures Lookup(following, path) == Following(flat[..i + 1], flat, h, path) {
        assert Lookup(before, path) == Following(flat[..i], flat, h, path);
      }
    }
    assert flat[..|flat|] == flat;
  }

  /** `besideTheirSource` as the source runs it: a map of anchors, then a
      map from each anchor to the tests that follow it, then the bundles. */
  method PlaceTests(snapshot: seq<SourceFile>, groups: seq<Group>, h: Heuristics) returns (result: seq<BundledGroup>)
    requires forall f :: f in GroupFiles(groups) ==> f in snapshot
    ensures result == BesideTheirSource(groups, GroupFiles(groups), h)
  {
    var flat := GroupFiles(groups);
    var anchors := FindAnchors(snapshot, flat, h);
    assert AnchorsOf(anchors, flat, flat, h) by {
      forall k | 0 <= k < |flat| && Anchor(flat, h, flat[k].path).Some? ensures flat[k].path in anchors {
        assert flat[k] in snapshot;
      }
    }
    var following := FindFollowing(flat, anchors, h);
    result := [];
    for g := 0 to |groups|
      invariant result == BesideTheirSource(groups[..g], flat, h)
    {
      PrefixStep(groups, g);
      GroupFilesContain(groups, g);
      var bundles := BundleFiles(groups[g].files, flat, anchors, following, h);
      if bundles != [] {
        result := result + [BundledGroup(groups[g].id, bundles)];
      }
    }
    assert groups[..|groups|] == groups;
  }

  method BundleFiles(files: seq<SourceFile>, flat: seq<SourceFile>, anchors: map<Text.Units, Text.Units>,
      following: map<Text.Units, seq<SourceFile>>, h: Heuristics)
    returns (bundles: seq<seq<SourceFile>>)
    requires AnchorsOf(anchors, flat, flat, h) && forall f :: f in files ==> f in flat
    requires forall path :: Lookup(following, path) == Following(flat, flat, h, path)
    ensures bundles == Bundles(files, flat, h)
  {
    bundles := [];
    for i := 0 to |files|
      invariant bundles == Bundles(files[..i], flat, h)
    {
      PrefixStep(files, i);
      assert files[i] in flat;
      if files[i].path !in anchors {
        bundles := bundles + [[files[i]] + Lookup(following, files[i].path)];
      }
    }
    assert files[..|files|] == files;
  }
}
