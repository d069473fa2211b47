/** Module-first packing of source files into discovery scopes. */
module ScopePacking {
  import opened Sequences
  import Text

  datatype SourceFile = SourceFile(path: Text.Units, byteLength: nat, lineCount: nat)

  /** A module as it is packed: a list of bundles, each a file that stays and the tests moved behind it. */
  datatype BundledGroup = BundledGroup(id: Text.Units, bundles: seq<seq<SourceFile>>)

  datatype Scope = Scope(files: seq<SourceFile>, splitModules: seq<Text.Units>)

  type Fits = seq<SourceFile> -> bool

  function Files(group: BundledGroup): seq<SourceFile> { Flatten(group.bundles) }

  function AllFiles(groups: seq<BundledGroup>): seq<SourceFile> {
    if groups == [] then [] else AllFiles(groups[..|groups| - 1]) + Files(groups[|groups| - 1])
  }

  function Placed(scopes: seq<Scope>): seq<SourceFile> {
    if scopes == [] then [] else Placed(scopes[..|scopes| - 1]) + scopes[|scopes| - 1].files
  }

  /** The files that fit alone, in order. */
  function FitAlone(files: seq<SourceFile>, fits: Fits): seq<SourceFile> {
    if files == [] then []
    else FitAlone(files[..|files| - 1], fits) + if fits([files[|files| - 1]]) then [files[|files| - 1]] else []
  }

  /** The files that do not fit alone, in order. */
  function TooLarge(files: seq<SourceFile>, fits: Fits): seq<SourceFile> {
    if files == [] then []
    else TooLarge(files[..|files| - 1], fits) + if fits([files[|files| - 1]]) then [] else [files[|files| - 1]]
  }

  // ----- One step of the packing

  /** The variables of `allocateDiscoveryScopes`; `skipped` holds the files whose paths are unallocated. */
  datatype Packing = Packing(scopes: seq<Scope>, pending: seq<SourceFile>, split: seq<Text.Units>,
      skipped: seq<SourceFile>) {
    function Flush(): Packing {
      if pending == [] then Packing(scopes, [], [], skipped)
      else Packing(scopes + [Scope(pending, Distinct(split))], [], [], skipped)
    }

    function Add(files: seq<SourceFile>): Packing { this.(pending := pending + files) }

    function AddPart(files: seq<SourceFile>, id: Text.Units): Packing {
      this.(pending := pending + files, split := split + [id])
    }
  }

  const EMPTY := Packing([], [], [], [])

  function PackFile(p: Packing, id: Text.Units, file: SourceFile, fits: Fits): Packing {
    if !fits([file]) then p.(skipped := p.skipped + [file])
    else (if fits(p.pending + [file]) then p else p.Flush()).AddPart([file], id)
  }

  function PackFiles(p: Packing, id: Text.Units, files: seq<SourceFile>, fits: Fits): Packing {
    if files == [] then p
    else PackFile(PackFiles(p, id, files[..|files| - 1], fits), id, files[|files| - 1], fits)
  }

  function PackBundle(p: Packing, id: Text.Units, bundle: seq<SourceFile>, fits: Fits): Packing {
    if fits(p.pending + bundle) then p.AddPart(bundle, id)
    else if fits(bundle) then p.Flush().AddPart(bundle, id)
    else PackFiles(p, id, bundle, fits)
  }

  function PackBundles(p: Packing, id: Text.Units, bundles: seq<seq<SourceFile>>, fits: Fits): Packing {
    if bundles == [] then p
    else PackBundle(PackBundles(p, id, bundles[..|bundles| - 1], fits), id, bundles[|bundles| - 1], fits)
  }

  function PackGroup(p: Packing, group: BundledGroup, fits: Fits): Packing {
    if fits(p.pending + Files(group)) then p.Add(Files(group))
    else if fits(Files(group)) then p.Flush().Add(Files(group))
    else PackBundles(p.Flush(), group.id, group.bundles, fits).Flush()
  }

  function PackGroups(p: Packing, groups: seq<BundledGroup>, fits: Fits): Packing {
    if groups == [] then p
    else PackGroup(PackGroups(p, groups[..|groups| - 1], fits), groups[|groups| - 1], fits)
  }

  /** The packing `allocateDiscoveryScopes` ends with. */
  function Allocation(groups: seq<BundledGroup>, fits: Fits): Packing {
    PackGroups(EMPTY, groups, fits).Flush()
  }

  // ----- Conservation, order and fit

  /** Every scope fits and holds a file, what is pending fits, and each skipped file does not fit alone. */
  ghost predicate Sound(p: Packing, fits: Fits) {
    && (forall i :: 0 <= i < |p.scopes| ==> p.scopes[i].files != [] && fits(p.scopes[i].files))
    && (p.pending == [] || fits(p.pending))
    && (forall i :: 0 <= i < |p.skipped| ==> !fits([p.skipped[i]]))
  }

  /** How often a file occurs in a list. */
  ghost function Count(files: seq<SourceFile>, f: SourceFile): nat { multiset(files)[f] }

  /** A snapshot lists each path once. */
  predicate DistinctPaths(files: seq<SourceFile>) {
    forall i, j :: 0 <= i < j < |files| ==> files[i].path != files[j].path
  }

  /** How often a file is placed, pending or skipped. */
  ghost function Mass(p: Packing, f: SourceFile): nat {
    Count(Placed(p.scopes), f) + Count(p.pending, f) + Count(p.skipped, f)
  }

  function PlacedSoFar(p: Packing): seq<SourceFile> { Placed(p.scopes) + p.pending }

  lemma CountConcat(a: seq<SourceFile>, b: seq<SourceFile>, f: SourceFile)
    ensures Count(a + b, f) == Count(a, f) + Count(b, f)
  {
  }

  lemma RepeatedCount(files: seq<SourceFile>, i: nat, j: nat)
    requires i < j < |files| && files[i] == files[j]
    ensures Count(files, files[i]) >= 2
  {
    assert files == files[..j] + files[j..] && files[..j][i] == files[i] && files[j..][0] == files[j];
  }

  lemma {:induction false} DistinctCount(files: seq<SourceFile>, f: SourceFile)
    requires DistinctPaths(files)
    ensures Count(files, f) <= 1
  {
    if files != [] {
      var n := |files| - 1;
      assert files == files[..n] + [files[n]];
      DistinctCount(files[..n], f);
      CountConcat(files[..n], [files[n]], f);
    }
  }

  /** A list that repeats no file more often than one of distinct paths has distinct paths itself. */
  lemma FewerStayDistinct(part: seq<SourceFile>, files: seq<SourceFile>)
    requires DistinctPaths(files) && forall f :: Count(part, f) <= Count(files, f)
    ensures DistinctPaths(part)
  {
    forall i, j | 0 <= i < j < |part| ensures part[i].path != part[j].path {
      assert Count(part, part[i]) <= Count(files, part[i]) && Count(part, part[j]) <= Count(files, part[j]);
      var p :| 0 <= p < |files| && files[p] == part[i];
      var q :| 0 <= q < |files| && files[q] == part[j];
      if part[i] == part[j] {
        RepeatedCount(part, i, j);
        DistinctCount(files, part[i]);
      }
    }
  }

  lemma {:induction false} PlacedCount(scopes: seq<Scope>, i: nat, f: SourceFile)
    requires i < |scopes|
    ensures Count(scopes[i].files, f) <= Count(Placed(scopes), f)
  {
    hide Count;
    var n := |scopes| - 1;
    CountConcat(Placed(scopes[..n]), scopes[n].files, f);
    if i < n {
      PlacedCount(scopes[..n], i, f);
    }
  }

  lemma ScopesStayDistinct(scopes: seq<Scope>, files: seq<SourceFile>)
    requires DistinctPaths(files) && forall f :: Count(Placed(scopes), f) <= Count(files, f)
    ensures forall i :: 0 <= i < |scopes| ==> DistinctPaths(scopes[i].files)
  {
    hide Count, DistinctPaths;
    forall i | 0 <= i < |scopes| ensures DistinctPaths(scopes[i].files) {
      forall f ensures Count(scopes[i].files, f) <= Count(files, f) {
        PlacedCount(scopes, i, f);
      }
      FewerStayDistinct(scopes[i].files, files);
    }
  }

  lemma FlushKeeps(p: Packing)
    ensures forall f :: Mass(p.Flush(), f) == Mass(p, f)
    ensures PlacedSoFar(p.Flush()) == PlacedSoFar(p)
  {
    if p.pending != [] {
      assert p.Flush().scopes[..|p.scopes|] == p.scopes;
      assert Placed(p.Flush().scopes) == Placed(p.scopes) + p.pending;
    }
  }

  lemma FlushSound(p: Packing, fits: Fits)
    requires Sound(p, fits)
    ensures Sound(p.Flush(), fits)
  {
  }

  lemma AddPartSound(p: Packing, files: seq<SourceFile>, id: Text.Units, fits: Fits, f: SourceFile)
    requires Sound(p, fits) && fits(p.pending + files)
    ensures Sound(p.AddPart(files, id), fits)
    ensures Mass(p.AddPart(files, id), f) == Mass(p, f) + Count(files, f)
  {
    CountConcat(p.pending, files, f);
  }

  lemma FileSound(p: Packing, id: Text.Units, file: SourceFile, fits: Fits, f: SourceFile)
    requires Sound(p, fits)
    ensures Sound(PackFile(p, id, file, fits), fits)
    ensures Mass(PackFile(p, id, file, fits), f) == Mass(p, f) + Count([file], f)
  {
    hide Count;
    if !fits([file]) {
      CountConcat(p.skipped, [file], f);
    } else if fits(p.pending + [file]) {
      AddPartSound(p, [file], id, fits, f);
    } else {
      FlushKeeps(p);
      FlushSound(p, fits);
      assert p.Flush().pending + [file] == [file];
      AddPartSound(p.Flush(), [file], id, fits, f);
    }
  }

  lemma {:induction false} FilesSound(p: Packing, id: Text.Units, files: seq<SourceFile>, fits: Fits, f: SourceFile)
    requires Sound(p, fits)
    ensures Sound(PackFiles(p, id, files, fits), fits)
    ensures Mass(PackFiles(p, id, files, fits), f) == Mass(p, f) + Count(files, f)
  {
    if files != [] {
      var n := |files| - 1;
      assert files == files[..n] + [files[n]];
      CountConcat(files[..n], [files[n]], f);
      FilesSound(p, id, files[..n], fits, f);
      FileSound(PackFiles(p, id, files[..n], fits), id, files[n], fits, f);
    }
  }

  lemma BundleSound(p: Packing, id: Text.Units, bundle: seq<SourceFile>, fits: Fits, f: SourceFile)
    requires Sound(p, fits)
    ensures Sound(PackBundle(p, id, bundle, fits), fits)
    ensures Mass(PackBundle(p, id, bundle, fits), f) == Mass(p, f) + Count(bundle, f)
  {
    if fits(p.pending + bundle) {
      AddPartSound(p, bundle, id, fits, f);
    } else if fits(bundle) {
      FlushKeeps(p);
      FlushSound(p, fits);
      assert p.Flush().pending + bundle == bundle;
      AddPartSound(p.Flush(), bundle, id, fits, f);
    } else {
      FilesSound(p, id, bundle, fits, f);
    }
  }

  lemma {:induction false} BundlesSound(p: Packing, id: Text.Units, bundles: seq<seq<SourceFile>>, fits: Fits,
      f: SourceFile)
    requires Sound(p, fits)
    ensures Sound(PackBundles(p, id, bundles, fits), fits)
    ensures Mass(PackBundles(p, id, bundles, fits), f) == Mass(p, f) + Count(Flatten(bundles), f)
  {
    if bundles != [] {
      var n := |bundles| - 1;
      BundlesSound(p, id, bundles[..n], fits, f);
      BundleSound(PackBundles(p, id, bundles[..n], fits), id, bundles[n], fits, f);
    }
  }

  lemma AddSound(p: Packing, files: seq<SourceFile>, fits: Fits, f: SourceFile)
    requires Sound(p, fits) && fits(p.pending + files)
    ensures Sound(p.Add(files), fits)
    ensures Mass(p.Add(files), f) == Mass(p, f) + Count(files, f)
  {
    CountConcat(p.pending, files, f);
  }

  lemma GroupSound(p: Packing, group: BundledGroup, fits: Fits, f: SourceFile)
    requires Sound(p, fits)
    ensures Sound(PackGroup(p, group, fits), fits)
    ensures Mass(PackGroup(p, group, fits), f) == Mass(p, f) + Count(Files(group), f)
  {
    var files := Files(group);
    FlushKeeps(p);
    FlushSound(p, fits);
    if fits(p.pending + files) {
      AddSound(p, files, fits, f);
    } else if fits(files) {
      assert p.Flush().pending + files == files;
      AddSound(p.Flush(), files, fits, f);
    } else {
      var q := PackBundles(p.Flush(), group.id, group.bundles, fits);
      BundlesSound(p.Flush(), group.id, group.bundles, fits, f);
      FlushKeeps(q);
      FlushSound(q, fits);
    }
  }

  lemma {:induction false} GroupsSound(p: Packing, groups: seq<BundledGroup>, fits: Fits, f: SourceFile)
    requires Sound(p, fits)
    ensures Sound(PackGroups(p, groups, fits), fits)
    ensures Mass(PackGroups(p, groups, fits), f) == Mass(p, f) + Count(AllFiles(groups), f)
  {
    if groups != [] {
      var n := |groups| - 1;
      GroupsSound(p, groups[..n], fits, f);
      GroupSound(PackGroups(p, groups[..n], fits), groups[n], fits, f);
    }
  }

  lemma EmptyWeighsNothing(f: SourceFile)
    ensures Mass(EMPTY, f) == 0
  {
  }

  lemma FlushedConserves(p: Packing, f: SourceFile)
    ensures Count(Placed(p.Flush().scopes), f) + Count(p.Flush().skipped, f) == Mass(p, f)
  {
    FlushKeeps(p);
  }

  /** Packing conserves files: each is in exactly one scope or skipped, every scope
      holds a file and fits, and a file is skipped only if it does not fit alone. */
  lemma AllocationConserves(groups: seq<BundledGroup>, fits: Fits, f: SourceFile)
    ensures var a := Allocation(groups, fits);
            && Count(Placed(a.scopes), f) + Count(a.skipped, f) == Count(AllFiles(groups), f)
            && (forall i :: 0 <= i < |a.scopes| ==> a.scopes[i].files != [] && fits(a.scopes[i].files))
            && (forall i :: 0 <= i < |a.skipped| ==> !fits([a.skipped[i]]))
  {
    hide Count, PackGroups, AllFiles;
    var p := PackGroups(EMPTY, groups, fits);
    GroupsSound(EMPTY, groups, fits, f);
    EmptyWeighsNothing(f);
    FlushedConserves(p, f);
    FlushSound(p, fits);
  }

  // ----- Order

  /** Files that fit in company fit alone: what packing needs to skip only files too large by themselves. */
  ghost predicate FitsAloneIfTogether(fits: Fits) {
    forall files, f :: f in files && fits(files) ==> fits([f])
  }

  /** `after` placed the files that fit alone, in their order, and skipped the others, in theirs. */
  ghost predicate InOrder(before: Packing, after: Packing, files: seq<SourceFile>, fits: Fits) {
    && PlacedSoFar(after) == PlacedSoFar(before) + FitAlone(files, fits)
    && after.skipped == before.skipped + TooLarge(files, fits)
  }

  lemma {:induction false} AllFitAlone(files: seq<SourceFile>, fits: Fits)
    requires forall f :: f in files ==> fits([f])
    ensures FitAlone(files, fits) == files && TooLarge(files, fits) == []
  {
    if files != [] {
      AllFitAlone(files[..|files| - 1], fits);
      assert files == files[..|files| - 1] + [files[|files| - 1]];
    }
  }

  lemma {:induction false} FitAloneConcat(a: seq<SourceFile>, b: seq<SourceFile>, fits: Fits)
    ensures FitAlone(a + b, fits) == FitAlone(a, fits) + FitAlone(b, fits)
    ensures TooLarge(a + b, fits) == TooLarge(a, fits) + TooLarge(b, fits)
  {
    if b == [] {
      assert a + b == a;
    } else {
      FitAloneConcat(a, b[..|b| - 1], fits);
      assert (a + b)[..|a + b| - 1] == a + b[..|b| - 1];
    }
  }

  lemma TogetherInOrder(p: Packing, pending: seq<SourceFile>, files: seq<SourceFile>, after: Packing, fits: Fits)
    requires FitsAloneIfTogether(fits) && fits(pending + files)
    requires PlacedSoFar(after) == PlacedSoFar(p) + files && after.skipped == p.skipped
    ensures InOrder(p, after, files, fits)
  {
    forall f | f in files ensures fits([f]) {
      assert f in pending + files;
    }
    AllFitAlone(files, fits);
  }

  lemma InOrderTransitive(p: Packing, q: Packing, r: Packing, xs: seq<SourceFile>, ys: seq<SourceFile>, fits: Fits)
    requires InOrder(p, q, xs, fits) && InOrder(q, r, ys, fits)
    ensures InOrder(p, r, xs + ys, fits)
  {
    FitAloneConcat(xs, ys, fits);
  }

  lemma FlushInOrder(p: Packing, q: Packing, files: seq<SourceFile>, fits: Fits)
    ensures InOrder(p, q.Flush(), files, fits) <==> InOrder(p, q, files, fits)
    ensures InOrder(p.Flush(), q, files, fits) <==> InOrder(p, q, files, fits)
  {
    FlushKeeps(p);
    FlushKeeps(q);
  }

  lemma FileInOrder(p: Packing, id: Text.Units, file: SourceFile, fits: Fits)
    ensures InOrder(p, PackFile(p, id, file, fits), [file], fits)
  {
    FlushKeeps(p);
    assert FitAlone([file], fits) == if fits([file]) then [file] else [];
    assert TooLarge([file], fits) == if fits([file]) then [] else [file];
  }

  lemma {:induction false} FilesInOrder(p: Packing, id: Text.Units, files: seq<SourceFile>, fits: Fits)
    ensures InOrder(p, PackFiles(p, id, files, fits), files, fits)
  {
    if files != [] {
      var n := |files| - 1;
      var q := PackFiles(p, id, files[..n], fits);
      FilesInOrder(p, id, files[..n], fits);
      FileInOrder(q, id, files[n], fits);
      InOrderTransitive(p, q, PackFile(q, id, files[n], fits), files[..n], [files[n]], fits);
      assert files == files[..n] + [files[n]];
    }
  }

  lemma BundleInOrder(p: Packing, id: Text.Units, bundle: seq<SourceFile>, fits: Fits)
    requires FitsAloneIfTogether(fits)
    ensures InOrder(p, PackBundle(p, id, bundle, fits), bundle, fits)
  {
    if fits(p.pending + bundle) {
      TogetherInOrder(p, p.pending, bundle, p.AddPart(bundle, id), fits);
    } else if fits(bundle) {
      FlushKeeps(p);
      assert [] + bundle == bundle;
      TogetherInOrder(p, [], bundle, p.Flush().AddPart(bundle, id), fits);
    } else {
      FilesInOrder(p, id, bundle, fits);
    }
  }

  lemma {:induction false} BundlesInOrder(p: Packing, id: Text.Units, bundles: seq<seq<SourceFile>>, fits: Fits)
    requires FitsAloneIfTogether(fits)
    ensures InOrder(p, PackBundles(p, id, bundles, fits), Flatten(bundles), fits)
  {
    if bundles != [] {
      var n := |bundles| - 1;
      var q := PackBundles(p, id, bundles[..n], fits);
      BundlesInOrder(p, id, bundles[..n], fits);
      BundleInOrder(q, id, bundles[n], fits);
      InOrderTransitive(p, q, PackBundle(q, id, bundles[n], fits), Flatten(bundles[..n]), bundles[n], fits);
    }
  }

  lemma GroupInOrder(p: Packing, group: BundledGroup, fits: Fits)
    requires FitsAloneIfTogether(fits)
    ensures InOrder(p, PackGroup(p, group, fits), Files(group), fits)
  {
    var files := Files(group);
    FlushKeeps(p);
    if fits(p.pending + files) {
      TogetherInOrder(p, p.pending, files, p.Add(files), fits);
    } else if fits(files) {
      assert [] + files == files;
      TogetherInOrder(p, [], files, p.Flush().Add(files), fits);
    } else {
      var q := PackBundles(p.Flush(), group.id, group.bundles, fits);
      BundlesInOrder(p.Flush(), group.id, group.bundles, fits);
      FlushInOrder(p, q, files, fits);
      FlushInOrder(p, q.Flush(), files, fits);
    }
  }

  lemma {:induction false} GroupsInOrder(p: Packing, groups: seq<BundledGroup>, fits: Fits)
    requires FitsAloneIfTogether(fits)
    ensures InOrder(p, PackGroups(p, groups, fits), AllFiles(groups), fits)
  {
    if groups != [] {
      var n := |groups| - 1;
      var q := PackGroups(p, groups[..n], fits);
      GroupsInOrder(p, groups[..n], fits);
      GroupInOrder(q, groups[n], fits);
      InOrderTransitive(p, q, PackGroup(q, groups[n], fits), AllFiles(groups[..n]), Files(groups[n]), fits);
    }
  }

  /** When files that fit together fit alone, the scopes hold exactly the files that fit alone, in module order. */
  lemma AllocationKeepsOrder(groups: seq<BundledGroup>, fits: Fits)
    requires FitsAloneIfTogether(fits)
    ensures Placed(Allocation(groups, fits).scopes) == FitAlone(AllFiles(groups), fits)
    ensures Allocation(groups, fits).skipped == TooLarge(AllFiles(groups), fits)
  {
    GroupsInOrder(EMPTY, groups, fits);
    FlushKeeps(PackGroups(EMPTY, groups, fits));
    assert PlacedSoFar(Allocation(groups, fits)) == FitAlone(AllFiles(groups), fits);
  }

  // ----- Split modules

  ghost predicate HoldsPart(files: seq<SourceFile>, group: BundledGroup) {
    exists f :: f in Files(group) && f in files
  }

  ghost predicate HoldsAll(files: seq<SourceFile>, group: BundledGroup) {
    forall f :: f in Files(group) ==> f in files
  }

  /** A scope that holds some files of a module holds them all or says that it lost the others. */
  ghost predicate Listed(files: seq<SourceFile>, split: seq<Text.Units>, group: BundledGroup) {
    HoldsPart(files, group) ==> HoldsAll(files, group) || group.id in split
  }

  ghost predicate AllListed(p: Packing, group: BundledGroup) {
    && (forall i :: 0 <= i < |p.scopes| ==> Listed(p.scopes[i].files, p.scopes[i].splitModules, group))
    && Listed(p.pending, p.split, group)
  }

  ghost predicate Disjoint(a: BundledGroup, b: BundledGroup) {
    forall f :: f in Files(a) ==> f !in Files(b)
  }

  ghost predicate HoldsNone(p: Packing, group: BundledGroup) {
    forall f :: f in Files(group) ==> f !in p.pending && forall i :: 0 <= i < |p.scopes| ==> f !in p.scopes[i].files
  }

  /** Beyond the scopes of `earlier`, everything holds files of one module only and lists it. */
  ghost predicate Parts(earlier: seq<Scope>, p: Packing, id: Text.Units, from: seq<SourceFile>) {
    && earlier <= p.scopes
    && (forall i :: |earlier| <= i < |p.scopes| ==>
        id in p.scopes[i].splitModules && forall f :: f in p.scopes[i].files ==> f in from)
    && (forall f :: f in p.pending ==> f in from)
    && (p.pending != [] ==> id in p.split)
  }

  lemma FlushParts(earlier: seq<Scope>, p: Packing, id: Text.Units, from: seq<SourceFile>)
    requires Parts(earlier, p, id, from)
    ensures Parts(earlier, p.Flush(), id, from)
  {
    DistinctMembers(p.split);
  }

  lemma {:induction false} FilesParts(earlier: seq<Scope>, p: Packing, id: Text.Units, files: seq<SourceFile>,
      fits: Fits, from: seq<SourceFile>)
    requires Parts(earlier, p, id, from) && forall f :: f in files ==> f in from
    ensures Parts(earlier, PackFiles(p, id, files, fits), id, from)
  {
    if files != [] {
      var n := |files| - 1;
      FilesParts(earlier, p, id, files[..n], fits, from);
      FlushParts(earlier, PackFiles(p, id, files[..n], fits), id, from);
    }
  }

  lemma {:induction false} BundlesParts(earlier: seq<Scope>, p: Packing, id: Text.Units, bundles: seq<seq<SourceFile>>,
      fits: Fits, from: seq<SourceFile>)
    requires Parts(earlier, p, id, from) && forall f :: f in Flatten(bundles) ==> f in from
    ensures Parts(earlier, PackBundles(p, id, bundles, fits), id, from)
  {
    if bundles != [] {
      var n := |bundles| - 1;
      BundlesParts(earlier, p, id, bundles[..n], fits, from);
      var q := PackBundles(p, id, bundles[..n], fits);
      assert forall f :: f in bundles[n] ==> f in Flatten(bundles);
      FlushParts(earlier, q, id, from);
      FilesParts(earlier, q, id, bundles[n], fits, from);
    }
  }

  lemma FlushListed(p: Packing, group: BundledGroup)
    requires AllListed(p, group)
    ensures AllListed(p.Flush(), group)
    ensures HoldsNone(p, group) ==> HoldsNone(p.Flush(), group)
  {
    DistinctMembers(p.split);
  }

  /** Packing a module keeps the listing of every module packed before it. */
  lemma GroupKeepsListed(p: Packing, group: BundledGroup, fits: Fits, other: BundledGroup)
    requires AllListed(p, other) && Disjoint(group, other)
    ensures AllListed(PackGroup(p, group, fits), other)
    ensures HoldsNone(p, other) ==> HoldsNone(PackGroup(p, group, fits), other)
  {
    var files, q := Files(group), p.Flush();
    FlushListed(p, other);
    if !fits(p.pending + files) && !fits(files) {
      BundlesParts(q.scopes, q, group.id, group.bundles, fits, files);
      FlushParts(q.scopes, PackBundles(q, group.id, group.bundles, fits), group.id, files);
    }
  }

  /** Packing a module lists it in every scope that holds part of it. */
  lemma GroupIsListed(p: Packing, group: BundledGroup, fits: Fits)
    requires HoldsNone(p, group)
    ensures AllListed(PackGroup(p, group, fits), group)
  {
    var files, q := Files(group), p.Flush();
    FlushListed(p, group);
    if !fits(p.pending + files) && !fits(files) {
      BundlesParts(q.scopes, q, group.id, group.bundles, fits, files);
      FlushParts(q.scopes, PackBundles(q, group.id, group.bundles, fits), group.id, files);
    }
  }

  lemma {:induction false} GroupsAreListed(groups: seq<BundledGroup>, fits: Fits, group: BundledGroup)
    requires forall i, j :: 0 <= i < j < |groups| ==> Disjoint(groups[i], groups[j]) && Disjoint(groups[j], groups[i])
    requires group !in groups ==> forall i :: 0 <= i < |groups| ==> Disjoint(groups[i], group)
    ensures AllListed(PackGroups(EMPTY, groups, fits), group)
    ensures group !in groups ==> HoldsNone(PackGroups(EMPTY, groups, fits), group)
  {
    if groups != [] {
      var n := |groups| - 1;
      var front := groups[..n];
      assert groups == front + [groups[n]];
      if group in front {
        GroupsAreListed(front, fits, group);
        var i :| 0 <= i < |front| && front[i] == group;
        GroupKeepsListed(PackGroups(EMPTY, front, fits), groups[n], fits, group);
      } else {
        GroupsAreListed(front, fits, group);
        if group == groups[n] {
          GroupIsListed(PackGroups(EMPTY, front, fits), group, fits);
        } else {
          GroupKeepsListed(PackGroups(EMPTY, front, fits), groups[n], fits, group);
        }
      }
    }
  }

  lemma {:induction false} GroupCount(groups: seq<BundledGroup>, i: nat, f: SourceFile)
    requires i < |groups|
    ensures Count(Files(groups[i]), f) <= Count(AllFiles(groups), f)
    ensures forall j :: 0 <= j < |groups| && j != i ==>
              Count(Files(groups[i]), f) + Count(Files(groups[j]), f) <= Count(AllFiles(groups), f)
  {
    hide Count, Files;
    var n := |groups| - 1;
    var front := groups[..n];
    CountConcat(AllFiles(front), Files(groups[n]), f);
    forall j | 0 <= j < n ensures Count(Files(groups[j]), f) <= Count(AllFiles(front), f) {
      GroupCount(front, j, f);
    }
    if i < n {
      GroupCount(front, i, f);
      assert forall j :: 0 <= j < n ==> groups[j] == front[j];
    }
  }

  /** Modules that hold each file at most once between them are disjoint. */
  lemma OnceIsDisjoint(groups: seq<BundledGroup>)
    requires forall f :: Count(AllFiles(groups), f) <= 1
    ensures forall i, j :: 0 <= i < |groups| && 0 <= j < |groups| && i != j ==> Disjoint(groups[i], groups[j])
  {
    hide AllFiles, Files;
    forall i, j | 0 <= i < |groups| && 0 <= j < |groups| && i != j ensures Disjoint(groups[i], groups[j]) {
      forall f | f in Files(groups[i]) ensures f !in Files(groups[j]) {
        GroupCount(groups, i, f);
      }
    }
  }

  /** No joint context is lost silently: a scope that holds part of a module lists it. */
  lemma SplitModulesAreListed(groups: seq<BundledGroup>, fits: Fits, group: BundledGroup)
    requires forall i, j :: 0 <= i < j < |groups| ==> Disjoint(groups[i], groups[j]) && Disjoint(groups[j], groups[i])
    requires group in groups
    ensures forall i :: 0 <= i < |Allocation(groups, fits).scopes| ==>
              Listed(Allocation(groups, fits).scopes[i].files, Allocation(groups, fits).scopes[i].splitModules, group)
  {
    GroupsAreListed(groups, fits, group);
    FlushListed(PackGroups(EMPTY, groups, fits), group);
  }

  // ----- What stays together

  /** `part` stands in the list, its files one after another. */
  ghost predicate Holds(files: seq<SourceFile>, part: seq<SourceFile>) {
    exists i :: StandsAt(files, part, i)
  }

  predicate StandsAt(files: seq<SourceFile>, part: seq<SourceFile>, i: int) {
    0 <= i <= |files| - |part| && files[i..i + |part|] == part
  }

  ghost predicate InAScope(scopes: seq<Scope>, part: seq<SourceFile>) {
    exists i :: 0 <= i < |scopes| && Holds(scopes[i].files, part)
  }

  ghost predicate HoldsWhole(p: Packing, part: seq<SourceFile>) {
    InAScope(p.scopes, part) || Holds(p.pending, part)
  }

  /** `later` goes on from `p`: its scopes stay, and what was pending begins a scope or is still pending. */
  ghost predicate GoesOn(p: Packing, later: Packing) {
    && p.scopes <= later.scopes
    && (|| p.pending == []
        || (|later.scopes| == |p.scopes| && p.pending <= later.pending)
        || (|later.scopes| > |p.scopes| && p.pending <= later.scopes[|p.scopes|].files))
  }

  lemma GoesOnOn(p: Packing, q: Packing, r: Packing)
    requires GoesOn(p, q) && GoesOn(q, r)
    ensures GoesOn(p, r)
  {
    if p.pending != [] {
      if |q.scopes| > |p.scopes| {
        assert r.scopes[|p.scopes|] == q.scopes[|p.scopes|];
      } else {
        assert p.scopes == q.scopes;
      }
    }
  }

  lemma StepsGoOn(p: Packing, files: seq<SourceFile>, id: Text.Units)
    ensures GoesOn(p, p.Flush()) && GoesOn(p, p.Add(files)) && GoesOn(p, p.AddPart(files, id))
    ensures GoesOn(p, p.Flush().Add(files)) && GoesOn(p, p.Flush().AddPart(files, id))
  {
  }

  lemma {:induction false} FilesGoOn(p: Packing, id: Text.Units, files: seq<SourceFile>, fits: Fits)
    ensures GoesOn(p, PackFiles(p, id, files, fits))
  {
    if files != [] {
      var n := |files| - 1;
      var q := PackFiles(p, id, files[..n], fits);
      FilesGoOn(p, id, files[..n], fits);
      StepsGoOn(q, [files[n]], id);
      GoesOnOn(p, q, PackFile(q, id, files[n], fits));
    }
  }

  lemma {:induction false} BundlesGoOn(p: Packing, id: Text.Units, bundles: seq<seq<SourceFile>>, fits: Fits)
    ensures GoesOn(p, PackBundles(p, id, bundles, fits))
  {
    if bundles != [] {
      var n := |bundles| - 1;
      var q := PackBundles(p, id, bundles[..n], fits);
      BundlesGoOn(p, id, bundles[..n], fits);
      StepsGoOn(q, bundles[n], id);
      FilesGoOn(q, id, bundles[n], fits);
      GoesOnOn(p, q, PackBundle(q, id, bundles[n], fits));
    }
  }

  lemma GroupGoesOn(p: Packing, group: BundledGroup, fits: Fits)
    ensures GoesOn(p, PackGroup(p, group, fits))
  {
    StepsGoOn(p, Files(group), group.id);
    if !fits(p.pending + Files(group)) && !fits(Files(group)) {
      var q := PackBundles(p.Flush(), group.id, group.bundles, fits);
      BundlesGoOn(p.Flush(), group.id, group.bundles, fits);
      GoesOnOn(p, p.Flush(), q);
      StepsGoOn(q, [], group.id);
      GoesOnOn(p, q, q.Flush());
    }
  }

  /** The packing of the first modules goes on to the allocation of them all. */
  lemma {:induction false} AllocationGoesOn(groups: seq<BundledGroup>, fits: Fits, k: nat)
    requires k <= |groups|
    ensures GoesOn(PackGroups(EMPTY, groups[..k], fits), Allocation(groups, fits))
    decreases |groups| - k
  {
    hide PackGroup, GoesOn;
    var p := PackGroups(EMPTY, groups[..k], fits);
    if k == |groups| {
      assert groups[..k] == groups;
      StepsGoOn(p, [], []);
    } else {
      assert groups[..k + 1][..k] == groups[..k];
      GroupGoesOn(p, groups[k], fits);
      AllocationGoesOn(groups, fits, k + 1);
      GoesOnOn(p, PackGroups(EMPTY, groups[..k + 1], fits), Allocation(groups, fits));
    }
  }

  lemma HoldsInPrefix(files: seq<SourceFile>, more: seq<SourceFile>, part: seq<SourceFile>)
    requires Holds(files, part) && files <= more
    ensures Holds(more, part)
  {
    var i :| StandsAt(files, part, i);
    assert StandsAt(more, part, i);
  }

  lemma WholeStays(p: Packing, later: Packing, part: seq<SourceFile>)
    requires GoesOn(p, later) && HoldsWhole(p, part) && part != []
    ensures HoldsWhole(later, part)
  {
    if InAScope(p.scopes, part) {
      var i :| 0 <= i < |p.scopes| && Holds(p.scopes[i].files, part);
      assert later.scopes[i] == p.scopes[i];
    } else {
      assert p.pending != [];
      if |later.scopes| == |p.scopes| {
        HoldsInPrefix(p.pending, later.pending, part);
      } else {
        HoldsInPrefix(p.pending, later.scopes[|p.scopes|].files, part);
      }
    }
  }

  lemma HoldsItsEnd(files: seq<SourceFile>, part: seq<SourceFile>)
    ensures Holds(files + part, part)
  {
    assert StandsAt(files + part, part, |files|);
  }

  lemma AllocatedWhole(groups: seq<BundledGroup>, fits: Fits, k: nat, part: seq<SourceFile>)
    requires k <= |groups| && part != [] && HoldsWhole(PackGroups(EMPTY, groups[..k], fits), part)
    ensures InAScope(Allocation(groups, fits).scopes, part)
  {
    hide Holds, PackGroups;
    AllocationGoesOn(groups, fits, k);
    WholeStays(PackGroups(EMPTY, groups[..k], fits), Allocation(groups, fits), part);
    assert !Holds([], part) by { NothingHeld(part); }
  }

  lemma NothingHeld(part: seq<SourceFile>)
    requires part != []
    ensures !Holds([], part)
  {
  }

  /** A module that fits one scope is never split. */
  lemma FittingModulesStayWhole(groups: seq<BundledGroup>, fits: Fits, k: nat)
    requires k < |groups| && Files(groups[k]) != [] && fits(Files(groups[k]))
    ensures InAScope(Allocation(groups, fits).scopes, Files(groups[k]))
  {
    hide Holds, Files;
    var p := PackGroups(EMPTY, groups[..k], fits);
    assert groups[..k + 1][..k] == groups[..k];
    HoldsItsEnd(p.pending, Files(groups[k]));
    HoldsItsEnd([], Files(groups[k]));
    AllocatedWhole(groups, fits, k + 1, Files(groups[k]));
  }

  /** In a module that does not fit one scope, a bundle that does is not split: a file keeps its tests. */
  lemma FittingBundlesStayWhole(groups: seq<BundledGroup>, fits: Fits, k: nat, b: nat)
    requires k < |groups| && b < |groups[k].bundles| && groups[k].bundles[b] != [] && fits(groups[k].bundles[b])
    ensures InAScope(Allocation(groups, fits).scopes, groups[k].bundles[b])
  {
    hide Holds, GoesOn;
    var p, group := PackGroups(EMPTY, groups[..k], fits), groups[k];
    var bundle := group.bundles[b];
    assert groups[..k + 1][..k] == groups[..k];
    BundleInFiles(group.bundles, b);
    if fits(p.pending + Files(group)) {
      HoldsInside(p.pending, Files(group), bundle);
    } else if fits(Files(group)) {
      HoldsInside([], Files(group), bundle);
    } else {
      var q := PackBundles(p.Flush(), group.id, group.bundles, fits);
      BundleStaysWhole(p.Flush(), group.id, group.bundles, fits, b);
      StepsGoOn(q, [], group.id);
      WholeStays(q, q.Flush(), bundle);
    }
    AllocatedWhole(groups, fits, k + 1, bundle);
  }

  lemma {:induction false} BundleInFiles(bundles: seq<seq<SourceFile>>, b: nat)
    requires b < |bundles|
    ensures Holds(Flatten(bundles), bundles[b])
  {
    var n := |bundles| - 1;
    if b == n {
      HoldsItsEnd(Flatten(bundles[..n]), bundles[n]);
    } else {
      BundleInFiles(bundles[..n], b);
      HoldsInPrefix(Flatten(bundles[..n]), Flatten(bundles), bundles[b]);
    }
  }

  lemma HoldsInside(before: seq<SourceFile>, files: seq<SourceFile>, part: seq<SourceFile>)
    requires Holds(files, part)
    ensures Holds(before + files, part)
  {
    var i :| StandsAt(files, part, i);
    assert StandsAt(before + files, part, |before| + i);
  }

  lemma {:induction false} BundleStaysWhole(p: Packing, id: Text.Units, bundles: seq<seq<SourceFile>>, fits: Fits,
      b: nat)
    requires b < |bundles| && bundles[b] != [] && fits(bundles[b])
    ensures HoldsWhole(PackBundles(p, id, bundles, fits), bundles[b])
  {
    hide Holds, GoesOn, PackFile;
    var n := |bundles| - 1;
    var q := PackBundles(p, id, bundles[..n], fits);
    if b == n {
      HoldsItsEnd(q.pending, bundles[n]);
      HoldsItsEnd([], bundles[n]);
    } else {
      BundleStaysWhole(p, id, bundles[..n], fits, b);
      StepsGoOn(q, bundles[n], id);
      FilesGoOn(q, id, bundles[n], fits);
      WholeStays(q, PackBundle(q, id, bundles[n], fits), bundles[b]);
    }
  }

  /** A module is listed as split only if it does not fit one scope. */
  lemma {:induction false} OnlyOversizedAreListed(groups: seq<BundledGroup>, fits: Fits, id: Text.Units)
    requires forall k :: 0 <= k < |groups| && groups[k].id == id ==> fits(Files(groups[k]))
    ensures forall i :: 0 <= i < |Allocation(groups, fits).scopes| ==>
              id !in Allocation(groups, fits).scopes[i].splitModules
  {
    NeverListed(groups, fits, id);
    FlushLists(PackGroups(EMPTY, groups, fits), id);
  }

  ghost predicate Unlisted(p: Packing, id: Text.Units) {
    id !in p.split && forall i :: 0 <= i < |p.scopes| ==> id !in p.scopes[i].splitModules
  }

  lemma FlushLists(p: Packing, id: Text.Units)
    requires Unlisted(p, id)
    ensures Unlisted(p.Flush(), id)
  {
    DistinctMembers(p.split);
  }

  lemma {:induction false} FilesList(p: Packing, part: Text.Units, files: seq<SourceFile>, fits: Fits, id: Text.Units)
    requires Unlisted(p, id) && part != id
    ensures Unlisted(PackFiles(p, part, files, fits), id)
  {
    if files != [] {
      FilesList(p, part, files[..|files| - 1], fits, id);
      FlushLists(PackFiles(p, part, files[..|files| - 1], fits), id);
    }
  }

  lemma {:induction false} BundlesList(p: Packing, part: Text.Units, bundles: seq<seq<SourceFile>>, fits: Fits,
      id: Text.Units)
    requires Unlisted(p, id) && part != id
    ensures Unlisted(PackBundles(p, part, bundles, fits), id)
  {
    if bundles != [] {
      var q := PackBundles(p, part, bundles[..|bundles| - 1], fits);
      BundlesList(p, part, bundles[..|bundles| - 1], fits, id);
      FlushLists(q, id);
      FilesList(q, part, bundles[|bundles| - 1], fits, id);
    }
  }

  lemma {:induction false} NeverListed(groups: seq<BundledGroup>, fits: Fits, id: Text.Units)
    requires forall k :: 0 <= k < |groups| && groups[k].id == id ==> fits(Files(groups[k]))
    ensures Unlisted(PackGroups(EMPTY, groups, fits), id)
  {
    hide Unlisted;
    if groups == [] {
      assert Unlisted(EMPTY, id) by { EmptyIsUnlisted(id); }
    } else {
      var n := |groups| - 1;
      var p, group := PackGroups(EMPTY, groups[..n], fits), groups[n];
      NeverListed(groups[..n], fits, id);
      FlushLists(p, id);
      AddingListsNothing(p, Files(group), id);
      AddingListsNothing(p.Flush(), Files(group), id);
      if !fits(p.pending + Files(group)) && !fits(Files(group)) {
        BundlesList(p.Flush(), group.id, group.bundles, fits, id);
        FlushLists(PackBundles(p.Flush(), group.id, group.bundles, fits), id);
      }
    }
  }

  lemma EmptyIsUnlisted(id: Text.Units)
    ensures Unlisted(EMPTY, id)
  {
  }

  lemma AddingListsNothing(p: Packing, files: seq<SourceFile>, id: Text.Units)
    requires Unlisted(p, id)
    ensures Unlisted(p.Add(files), id)
  {
  }

  // ----- No scope is closed before it has to be

  /** A scope that ends with `part` has no room for `next`. */
  ghost predicate IsFull(scopes: seq<Scope>, part: seq<SourceFile>, next: seq<SourceFile>, fits: Fits) {
    exists i :: 0 <= i < |scopes| && EndsWith(scopes[i].files, part) && !fits(scopes[i].files + next)
  }

  predicate EndsWith(files: seq<SourceFile>, part: seq<SourceFile>) {
    |part| <= |files| && files[|files| - |part|..] == part
  }

  /** Two modules, one after the other, that fit a scope each: they share one, or the first one's has no room. */
  lemma NeighboursShareAScope(groups: seq<BundledGroup>, fits: Fits, k: nat)
    requires k + 1 < |groups| && Files(groups[k]) != [] && fits(Files(groups[k]))
    ensures var scopes := Allocation(groups, fits).scopes;
            || InAScope(scopes, Files(groups[k]) + Files(groups[k + 1]))
            || IsFull(scopes, Files(groups[k]), Files(groups[k + 1]), fits)
  {
    hide Holds, Files, EndsWith, GoesOn;
    var a, b := Files(groups[k]), Files(groups[k + 1]);
    var p := PackGroups(EMPTY, groups[..k], fits);
    var q := PackGroups(EMPTY, groups[..k + 1], fits);
    var r := PackGroups(EMPTY, groups[..k + 2], fits);
    assert groups[..k + 1][..k] == groups[..k] && groups[..k + 2][..k + 1] == groups[..k + 1];
    assert q.pending == p.pending + a || q.pending == a;
    EndsWithEnd(p.pending, a);
    EndsWithEnd([], a);
    assert [] + a == a;
    assert EndsWith(q.pending, a);
    if fits(q.pending + b) {
      HoldsBoth(q.pending, a, b);
      AllocatedWhole(groups, fits, k + 2, a + b);
    } else {
      assert q.pending != [] by { EndsWithSome(q.pending, a); }
      FlushedIsFull(q, a, b, fits);
      GroupScopes(q, groups[k + 1], fits);
      AllocationGoesOn(groups, fits, k + 2);
      FullStays(r, Allocation(groups, fits), a, b, fits);
    }
  }

  lemma EndsWithEnd(files: seq<SourceFile>, part: seq<SourceFile>)
    ensures EndsWith(files + part, part)
  {
  }

  lemma EndsWithSome(files: seq<SourceFile>, part: seq<SourceFile>)
    requires EndsWith(files, part) && part != []
    ensures files != []
  {
  }

  lemma HoldsBoth(files: seq<SourceFile>, a: seq<SourceFile>, b: seq<SourceFile>)
    requires EndsWith(files, a)
    ensures Holds(files + b, a + b)
  {
    assert StandsAt(files + b, a + b, |files| - |a|);
  }

  lemma FlushedIsFull(q: Packing, a: seq<SourceFile>, b: seq<SourceFile>, fits: Fits)
    requires q.pending != [] && EndsWith(q.pending, a) && !fits(q.pending + b)
    ensures IsFull(q.Flush().scopes, a, b, fits)
  {
    hide EndsWith;
    assert q.Flush().scopes[|q.scopes|].files == q.pending;
  }

  /** A module that does not fit what is pending closes the scope. */
  lemma GroupScopes(q: Packing, group: BundledGroup, fits: Fits)
    requires !fits(q.pending + Files(group))
    ensures q.Flush().scopes <= PackGroup(q, group, fits).scopes
  {
    if !fits(Files(group)) {
      var r := PackBundles(q.Flush(), group.id, group.bundles, fits);
      BundlesGoOn(q.Flush(), group.id, group.bundles, fits);
      StepsGoOn(r, [], group.id);
    }
  }

  lemma FullStays(p: Packing, later: Packing, a: seq<SourceFile>, b: seq<SourceFile>, fits: Fits)
    requires p.scopes <= later.scopes || GoesOn(p, later)
    requires exists scopes :: scopes <= p.scopes && IsFull(scopes, a, b, fits)
    ensures IsFull(later.scopes, a, b, fits)
  {
    hide EndsWith;
    var scopes :| scopes <= p.scopes && IsFull(scopes, a, b, fits);
    var i :| 0 <= i < |scopes| && EndsWith(scopes[i].files, a) && !fits(scopes[i].files + b);
    assert later.scopes[i] == scopes[i];
  }

  /** The list is in one scope or pending, or the scope that ends with `part` had no room for `next`. */
  ghost predicate Together(p: Packing, part: seq<SourceFile>, next: seq<SourceFile>, fits: Fits) {
    HoldsWhole(p, part + next) || IsFull(p.scopes, part, next, fits)
  }

  lemma TogetherStays(p: Packing, later: Packing, part: seq<SourceFile>, next: seq<SourceFile>, fits: Fits)
    requires GoesOn(p, later) && Together(p, part, next, fits) && part != []
    ensures Together(later, part, next, fits)
  {
    hide Holds, EndsWith;
    if HoldsWhole(p, part + next) {
      WholeStays(p, later, part + next);
    } else {
      FullStays(p, later, part, next, fits);
    }
  }

  /** What is pending ends with `part`; the next list joins it, or closes its scope. */
  lemma NextJoinsOrCloses(p: Packing, part: seq<SourceFile>, next: seq<SourceFile>, fits: Fits, id: Text.Units)
    requires EndsWith(p.pending, part) && part != []
    ensures var joined := if fits(p.pending + next) then p.AddPart(next, id) else p.Flush().AddPart(next, id);
            Together(joined, part, next, fits)
  {
    hide Holds, EndsWith;
    if fits(p.pending + next) {
      HoldsBoth(p.pending, part, next);
    } else {
      EndsWithSome(p.pending, part);
      FlushedIsFull(p, part, next, fits);
    }
  }

  lemma {:induction false} FilesTogether(p: Packing, id: Text.Units, files: seq<SourceFile>, fits: Fits, i: nat)
    requires i + 1 < |files| && fits([files[i]]) && fits([files[i + 1]])
    ensures Together(PackFiles(p, id, files, fits), [files[i]], [files[i + 1]], fits)
  {
    hide Together, EndsWith, GoesOn;
    var n := |files| - 1;
    var q := PackFiles(p, id, files[..n], fits);
    if i + 1 == n {
      assert files[..n][..i] == files[..i];
      var r := PackFiles(p, id, files[..i], fits);
      EndsWithEnd(r.pending, [files[i]]);
      EndsWithEnd([], [files[i]]);
      assert EndsWith(q.pending, [files[i]]);
      NextJoinsOrCloses(q, [files[i]], [files[n]], fits, id);
    } else {
      FilesTogether(p, id, files[..n], fits, i);
      StepsGoOn(q, [files[n]], id);
      GoesOnItself(q);
      TogetherStays(q, PackFile(q, id, files[n], fits), [files[i]], [files[i + 1]], fits);
    }
  }

  lemma GoesOnItself(p: Packing)
    ensures forall skipped :: GoesOn(p, p.(skipped := skipped))
  {
  }

  lemma FittingBundle(p: Packing, id: Text.Units, bundle: seq<SourceFile>, fits: Fits)
    requires fits(bundle)
    ensures PackBundle(p, id, bundle, fits)
            == if fits(p.pending + bundle) then p.AddPart(bundle, id) else p.Flush().AddPart(bundle, id)
    ensures EndsWith(PackBundle(p, id, bundle, fits).pending, bundle)
  {
    hide EndsWith, PackFiles;
    EndsWithEnd(p.pending, bundle);
    EndsWithEnd([], bundle);
  }

  lemma BundleGoesOn(p: Packing, id: Text.Units, bundle: seq<SourceFile>, fits: Fits)
    ensures GoesOn(p, PackBundle(p, id, bundle, fits))
  {
    hide GoesOn;
    StepsGoOn(p, bundle, id);
    FilesGoOn(p, id, bundle, fits);
  }

  lemma {:induction false} BundlesTogether(p: Packing, id: Text.Units, bundles: seq<seq<SourceFile>>, fits: Fits,
      b: nat)
    requires b + 1 < |bundles| && bundles[b] != [] && fits(bundles[b]) && fits(bundles[b + 1])
    ensures Together(PackBundles(p, id, bundles, fits), bundles[b], bundles[b + 1], fits)
  {
    hide Together, EndsWith, GoesOn, PackFiles, PackBundle;
    var n := |bundles| - 1;
    var q := PackBundles(p, id, bundles[..n], fits);
    if b + 1 == n {
      assert bundles[..n][..b] == bundles[..b];
      FittingBundle(PackBundles(p, id, bundles[..b], fits), id, bundles[b], fits);
      FittingBundle(q, id, bundles[n], fits);
      NextJoinsOrCloses(q, bundles[b], bundles[n], fits, id);
    } else {
      BundleGoesOn(q, id, bundles[n], fits);
      BundlesTogether(p, id, bundles[..n], fits, b);
      TogetherStays(q, PackBundle(q, id, bundles[n], fits), bundles[b], bundles[b + 1], fits);
    }
  }

  lemma {:induction false} BundlesHoldFiles(p: Packing, id: Text.Units, bundles: seq<seq<SourceFile>>, fits: Fits,
      b: nat, i: nat)
    requires b < |bundles| && i + 1 < |bundles[b]| && fits([bundles[b][i]]) && fits([bundles[b][i + 1]])
    ensures Together(PackBundles(p, id, bundles, fits), [bundles[b][i]], [bundles[b][i + 1]], fits)
  {
    hide Together, GoesOn, PackFile;
    var n := |bundles| - 1;
    var q := PackBundles(p, id, bundles[..n], fits);
    var x, y := [bundles[b][i]], [bundles[b][i + 1]];
    if b == n {
      PairInBundle(bundles[n], i);
      FilesTogether(q, id, bundles[n], fits, i);
      WholeIsTogether(q.AddPart(bundles[n], id), q.pending, bundles[n], x, y, fits);
      WholeIsTogether(q.Flush().AddPart(bundles[n], id), [], bundles[n], x, y, fits);
    } else {
      BundlesHoldFiles(p, id, bundles[..n], fits, b, i);
      StepsGoOn(q, bundles[n], id);
      FilesGoOn(q, id, bundles[n], fits);
      TogetherStays(q, PackBundle(q, id, bundles[n], fits), x, y, fits);
    }
  }

  lemma PairInBundle(bundle: seq<SourceFile>, i: nat)
    requires i + 1 < |bundle|
    ensures Holds(bundle, [bundle[i]] + [bundle[i + 1]])
  {
    assert StandsAt(bundle, [bundle[i]] + [bundle[i + 1]], i);
  }

  lemma WholeIsTogether(p: Packing, before: seq<SourceFile>, files: seq<SourceFile>, part: seq<SourceFile>,
      next: seq<SourceFile>, fits: Fits)
    requires p.pending == before + files && Holds(files, part + next)
    ensures Together(p, part, next, fits)
  {
    hide Holds;
    HoldsInside(before, files, part + next);
  }

  ghost predicate SharedOrFull(scopes: seq<Scope>, part: seq<SourceFile>, next: seq<SourceFile>, fits: Fits) {
    InAScope(scopes, part + next) || IsFull(scopes, part, next, fits)
  }

  lemma TogetherAtTheEnd(groups: seq<BundledGroup>, fits: Fits, k: nat, part: seq<SourceFile>, next: seq<SourceFile>)
    requires k <= |groups| && part != [] && Together(PackGroups(EMPTY, groups[..k], fits), part, next, fits)
    ensures SharedOrFull(Allocation(groups, fits).scopes, part, next, fits)
  {
    hide Holds, IsFull, PackGroups;
    AllocationGoesOn(groups, fits, k);
    TogetherStays(PackGroups(EMPTY, groups[..k], fits), Allocation(groups, fits), part, next, fits);
    NothingHeld(part + next);
  }

  lemma GroupTogether(p: Packing, group: BundledGroup, part: seq<SourceFile>, next: seq<SourceFile>, fits: Fits)
    requires part != [] && Holds(Files(group), part + next)
    requires Together(PackBundles(p.Flush(), group.id, group.bundles, fits), part, next, fits)
    ensures Together(PackGroup(p, group, fits), part, next, fits)
  {
    hide Holds, Together, GoesOn;
    WholeIsTogether(p.Add(Files(group)), p.pending, Files(group), part, next, fits);
    WholeIsTogether(p.Flush().Add(Files(group)), [], Files(group), part, next, fits);
    var q := PackBundles(p.Flush(), group.id, group.bundles, fits);
    StepsGoOn(q, [], group.id);
    TogetherStays(q, q.Flush(), part, next, fits);
  }

  lemma {:induction false} PairInBundles(bundles: seq<seq<SourceFile>>, b: nat)
    requires b + 1 < |bundles|
    ensures Holds(Flatten(bundles), bundles[b] + bundles[b + 1])
  {
    hide Holds;
    var n := |bundles| - 1;
    if b + 1 == n {
      var front := Flatten(bundles[..n][..b]);
      assert bundles[..n][..b] == bundles[..b] && Flatten(bundles[..n]) == front + bundles[b];
      assert Flatten(bundles) == front + (bundles[b] + bundles[n]);
      HoldsItsEnd(front, bundles[b] + bundles[n]);
    } else {
      PairInBundles(bundles[..n], b);
      HoldsInPrefix(Flatten(bundles[..n]), Flatten(bundles), bundles[b] + bundles[b + 1]);
    }
  }

  lemma HoldsWithin(files: seq<SourceFile>, middle: seq<SourceFile>, part: seq<SourceFile>)
    requires Holds(files, middle) && Holds(middle, part)
    ensures Holds(files, part)
  {
    var i :| StandsAt(files, middle, i);
    var j :| StandsAt(middle, part, j);
    SliceOfSlice(files, i, i + |middle|, j, j + |part|);
    assert StandsAt(files, part, i + j);
  }

  /** The same of two bundles of a module, one after the other: a module too large for a scope is cut no finer. */
  lemma BundlesShareAScope(groups: seq<BundledGroup>, fits: Fits, k: nat, b: nat)
    requires k < |groups| && b + 1 < |groups[k].bundles| && groups[k].bundles[b] != []
    requires fits(groups[k].bundles[b]) && fits(groups[k].bundles[b + 1])
    ensures SharedOrFull(Allocation(groups, fits).scopes, groups[k].bundles[b], groups[k].bundles[b + 1], fits)
  {
    hide SharedOrFull, Together, Holds;
    var p, bundles := PackGroups(EMPTY, groups[..k], fits), groups[k].bundles;
    assert groups[..k + 1][..k] == groups[..k];
    PairInBundles(bundles, b);
    BundlesTogether(p.Flush(), groups[k].id, bundles, fits, b);
    GroupTogether(p, groups[k], bundles[b], bundles[b + 1], fits);
    TogetherAtTheEnd(groups, fits, k + 1, bundles[b], bundles[b + 1]);
  }

  /** And of two files of a bundle. */
  lemma FilesShareAScope(groups: seq<BundledGroup>, fits: Fits, k: nat, b: nat, i: nat)
    requires k < |groups| && b < |groups[k].bundles| && i + 1 < |groups[k].bundles[b]|
    requires fits([groups[k].bundles[b][i]]) && fits([groups[k].bundles[b][i + 1]])
    ensures var bundle := groups[k].bundles[b];
            SharedOrFull(Allocation(groups, fits).scopes, [bundle[i]], [bundle[i + 1]], fits)
  {
    hide SharedOrFull, Together, Holds;
    var p, bundles := PackGroups(EMPTY, groups[..k], fits), groups[k].bundles;
    var x, y := [bundles[b][i]], [bundles[b][i + 1]];
    assert groups[..k + 1][..k] == groups[..k];
    BundleInFiles(bundles, b);
    PairInBundle(bundles[b], i);
    HoldsWithin(Files(groups[k]), bundles[b], x + y);
    BundlesHoldFiles(p.Flush(), groups[k].id, bundles, fits, b, i);
    GroupTogether(p, groups[k], x, y, fits);
    TogetherAtTheEnd(groups, fits, k + 1, x, y);
  }

  // ----- The loops

  function Paths(files: seq<SourceFile>): seq<Text.Units> {
    Map(files, (f: SourceFile) => f.path)
  }

  /** `allocateDiscoveryScopes` over the modules of a snapshot. */
  method AllocateDiscoveryScopes(groups: seq<BundledGroup>, fits: Fits)
    returns (scopes: seq<Scope>, unallocatedPaths: seq<Text.Units>)
    ensures scopes == Allocation(groups, fits).scopes
    ensures unallocatedPaths == Text.Sort(Paths(Allocation(groups, fits).skipped))
  {
    var p := EMPTY;
    for g := 0 to |groups|
      invariant p == PackGroups(EMPTY, groups[..g], fits)
    {
      PrefixStep(groups, g);
      var group := groups[g];
      var groupFiles := Flatten(group.bundles);
      if fits(p.pending + groupFiles) {
        p := p.Add(groupFiles);
        continue;
      }
      p := p.Flush();
      if fits(groupFiles) {
        p := p.Add(groupFiles);
        continue;
      }
      ghost var start := p;
      for b := 0 to |group.bundles|
        invariant p == PackBundles(start, group.id, group.bundles[..b], fits)
      {
        PrefixStep(group.bundles, b);
        var bundle := group.bundles[b];
        if fits(p.pending + bundle) {
          p := p.AddPart(bundle, group.id);
          continue;
        }
        if fits(bundle) {
          p := p.Flush().AddPart(bundle, group.id);
          continue;
        }
        ghost var before := p;
        for i := 0 to |bundle|
          invariant p == PackFiles(before, group.id, bundle[..i], fits)
        {
          PrefixStep(bundle, i);
          if !fits([bundle[i]]) {
            p := p.(skipped := p.skipped + [bundle[i]]);
            continue;
          }
          if !fits(p.pending + [bundle[i]]) {
            p := p.Flush();
          }
          p := p.AddPart([bundle[i]], group.id);
        }
        assert bundle[..|bundle|] == bundle;
      }
      assert group.bundles[..|group.bundles|] == group.bundles;
      p := p.Flush();
    }
    assert groups[..|groups|] == groups;
    p := p.Flush();
    scopes, unallocatedPaths := p.scopes, Text.Sort(Paths(p.skipped));
  }
}
