/** The modules discovery packs: import-connected files, every other file alone, and tests beside their source. */
module ModuleGroups {
  import opened Options
  import opened Sequences
  import opened ScopePacking
  import opened DiscoveryUnits
  import opened TestPlacement
  import Discovery
  import LineWindows
  import Text

  /** A module: its ID and the paths of its files. */
  datatype Module = Module(id: Text.Units, paths: seq<Text.Units>)

  /**
   * What the heuristics answer. `isSource` says which paths can be in a module; `root` names the set that the imports
   * found in some files put a path in; `name` is the common name of some paths; `atMost` orders paths and IDs.
   */
  datatype Rules = Rules(
    isSource: Text.Units -> bool,
    root: seq<SourceFile> -> (Text.Units -> Text.Units),
    name: seq<Text.Units> -> Text.Units,
    imports: seq<SourceFile> -> Heuristics,
    atMost: (Text.Units, Text.Units) -> bool)

  function AllPaths(modules: seq<Module>): seq<Text.Units> {
    if modules == [] then [] else AllPaths(modules[..|modules| - 1]) + modules[|modules| - 1].paths
  }

  function InsertPath(path: Text.Units, paths: seq<Text.Units>, rules: Rules): seq<Text.Units> {
    if paths == [] || rules.atMost(path, paths[0]) then [path] + paths
    else [paths[0]] + InsertPath(path, paths[1..], rules)
  }

  function SortPaths(paths: seq<Text.Units>, rules: Rules): seq<Text.Units> {
    if paths == [] then [] else InsertPath(paths[0], SortPaths(paths[1..], rules), rules)
  }

  predicate InOrder(paths: seq<Text.Units>, rules: Rules) {
    forall i, j :: 0 <= i < j < |paths| ==> rules.atMost(paths[i], paths[j])
  }

  /** `atMost` orders paths and IDs. */
  ghost predicate Orders(rules: Rules) {
    && (forall a, b :: rules.atMost(a, b) || rules.atMost(b, a))
    && (forall a, b, c :: rules.atMost(a, b) && rules.atMost(b, c) ==> rules.atMost(a, c))
  }

  lemma {:induction false} InsertKeepsOrder(path: Text.Units, paths: seq<Text.Units>, rules: Rules)
    requires Orders(rules) && InOrder(paths, rules)
    ensures InOrder(InsertPath(path, paths, rules), rules)
    ensures forall x :: x in InsertPath(path, paths, rules) ==> x == path || x in paths
  {
    if paths != [] && !rules.atMost(path, paths[0]) {
      InsertKeepsOrder(path, paths[1..], rules);
      var rest := InsertPath(path, paths[1..], rules);
      forall j | 0 <= j < |rest| ensures rules.atMost(paths[0], rest[j]) {
        assert rest[j] in rest;
        if rest[j] != path {
          var k :| 0 <= k < |paths[1..]| && paths[1..][k] == rest[j];
          assert paths[k + 1] == rest[j];
        }
      }
    }
  }

  /** The paths sets are built from are sorted by the order given. */
  lemma {:induction false} SortedInOrder(paths: seq<Text.Units>, rules: Rules)
    requires Orders(rules)
    ensures InOrder(SortPaths(paths, rules), rules)
  {
    if paths != [] {
      SortedInOrder(paths[1..], rules);
      InsertKeepsOrder(paths[0], SortPaths(paths[1..], rules), rules);
    }
  }

  /** The paths that can be in a module, in order. */
  function SourcePaths(files: seq<SourceFile>, rules: Rules): seq<Text.Units> {
    SortPaths(Filter(Paths(files), rules.isSource), rules)
  }

  /** Adds a path to the set its root names, at its end; a new set comes last. The IDs are the roots. */
  function AddPath(sets: seq<Module>, root: Text.Units, path: Text.Units): seq<Module> {
    if sets == [] then [Module(root, [path])]
    else if sets[0].id == root then [Module(root, sets[0].paths + [path])] + sets[1..]
    else [sets[0]] + AddPath(sets[1..], root, path)
  }

  function ByRoot(paths: seq<Text.Units>, root: Text.Units -> Text.Units): seq<Module> {
    if paths == [] then []
    else AddPath(ByRoot(paths[..|paths| - 1], root), root(paths[|paths| - 1]), paths[|paths| - 1])
  }

  /** `approximateModules`: the sets of paths the imports connect, each sorted and named. */
  function Modules(files: seq<SourceFile>, rules: Rules): seq<Module> {
    Map(ByRoot(SourcePaths(files, rules), rules.root(files)),
        (m: Module) => Module(rules.name(Text.Sort(m.paths)), Text.Sort(m.paths)))
  }

  /** What a map from paths to files holds for a path: the last file listed under it. */
  function FileAt(files: seq<SourceFile>, path: Text.Units): Option<SourceFile> {
    if files == [] then None
    else if files[|files| - 1].path == path then Some(files[|files| - 1])
    else FileAt(files[..|files| - 1], path)
  }

  /** The files of the paths that have one. */
  function FilesAt(files: seq<SourceFile>, paths: seq<Text.Units>): seq<SourceFile> {
    if paths == [] then []
    else
      var file := FileAt(files, paths[|paths| - 1]);
      FilesAt(files, paths[..|paths| - 1]) + if file.Some? then [file.value] else []
  }

  function ModulesAsGroups(files: seq<SourceFile>, modules: seq<Module>): seq<Group> {
    if modules == [] then []
    else
      var last := modules[|modules| - 1];
      ModulesAsGroups(files, modules[..|modules| - 1]) + [Group(last.id, FilesAt(files, last.paths))]
  }

  /** A module of its own for each file that is in none. */
  function LoneFiles(files: seq<SourceFile>, grouped: seq<Text.Units>): seq<Group> {
    if files == [] then []
    else
      var last := files[|files| - 1];
      LoneFiles(files[..|files| - 1], grouped) + if last.path in grouped then [] else [Group(last.path, [last])]
  }

  function InsertGroup(g: Group, groups: seq<Group>, rules: Rules): seq<Group> {
    if groups == [] || rules.atMost(g.id, groups[0].id) then [g] + groups
    else [groups[0]] + InsertGroup(g, groups[1..], rules)
  }

  /** `sort` by module ID. */
  function SortGroups(groups: seq<Group>, rules: Rules): seq<Group> {
    if groups == [] then [] else InsertGroup(groups[0], SortGroups(groups[1..], rules), rules)
  }

  function UnplacedGroups(files: seq<SourceFile>, rules: Rules): seq<Group> {
    var modules := Modules(files, rules);
    SortGroups(ModulesAsGroups(files, modules) + LoneFiles(files, AllPaths(modules)), rules)
  }

  /** `moduleGroups`. */
  function ModuleGrouping(rules: Rules): Grouping {
    files =>
      var groups := UnplacedGroups(files, rules);
      BesideTheirSource(groups, GroupFiles(groups), rules.imports(files))
  }

  // ----- A path is in one module

  lemma {:induction false} InsertPathSame(path: Text.Units, paths: seq<Text.Units>, rules: Rules)
    ensures multiset(InsertPath(path, paths, rules)) == multiset{path} + multiset(paths)
  {
    if !(paths == [] || rules.atMost(path, paths[0])) {
      InsertPathSame(path, paths[1..], rules);
      assert paths == [paths[0]] + paths[1..];
    }
  }

  lemma {:induction false} SortPathsSame(paths: seq<Text.Units>, rules: Rules)
    ensures multiset(SortPaths(paths, rules)) == multiset(paths)
  {
    if paths != [] {
      SortPathsSame(paths[1..], rules);
      InsertPathSame(paths[0], SortPaths(paths[1..], rules), rules);
      assert paths == [paths[0]] + paths[1..];
    }
  }

  lemma {:induction false} AllPathsConcat(a: seq<Module>, b: seq<Module>)
    ensures AllPaths(a + b) == AllPaths(a) + AllPaths(b)
  {
    hide AllPaths;
    if b == [] {
      assert a + b == a;
      NoPaths();
    } else {
      var n := |b| - 1;
      AllPathsConcat(a, b[..n]);
      AppendModule(a + b[..n], b[n]);
      AppendModule(b[..n], b[n]);
      assert a + b == (a + b[..n]) + [b[n]] && b == b[..n] + [b[n]];
    }
  }

  lemma AppendModule(modules: seq<Module>, last: Module)
    ensures AllPaths(modules + [last]) == AllPaths(modules) + last.paths
  {
    assert (modules + [last])[..|modules|] == modules;
  }

  lemma OneModule(m: Module)
    ensures AllPaths([m]) == m.paths
  {
    assert [m][..0] == [];
  }

  lemma {:induction false} AddPathAdds(sets: seq<Module>, root: Text.Units, path: Text.Units)
    ensures multiset(AllPaths(AddPath(sets, root, path))) == multiset(AllPaths(sets)) + multiset{path}
  {
    hide AllPaths;
    if sets == [] {
      OneModule(Module(root, [path]));
      NoPaths();
    } else {
      var head := if sets[0].id == root then Module(root, sets[0].paths + [path]) else sets[0];
      var tail := if sets[0].id == root then sets[1..] else AddPath(sets[1..], root, path);
      assert AddPath(sets, root, path) == [head] + tail && sets == [sets[0]] + sets[1..];
      AllPathsConcat([head], tail);
      AllPathsConcat([sets[0]], sets[1..]);
      OneModule(head);
      OneModule(sets[0]);
      if sets[0].id != root {
        AddPathAdds(sets[1..], root, path);
      }
    }
  }

  lemma NoPaths()
    ensures AllPaths([]) == []
  {
  }

  lemma {:induction false} ByRootSame(paths: seq<Text.Units>, root: Text.Units -> Text.Units)
    ensures multiset(AllPaths(ByRoot(paths, root))) == multiset(paths)
  {
    hide AllPaths, AddPath;
    if paths == [] {
      NoPaths();
    } else {
      var n := |paths| - 1;
      ByRootSame(paths[..n], root);
      AddPathAdds(ByRoot(paths[..n], root), root(paths[n]), paths[n]);
      assert paths == paths[..n] + [paths[n]];
    }
  }

  lemma {:induction false} SameInEach(a: seq<Module>, b: seq<Module>)
    requires |a| == |b| && forall i :: 0 <= i < |a| ==> multiset(a[i].paths) == multiset(b[i].paths)
    ensures multiset(AllPaths(a)) == multiset(AllPaths(b))
  {
    if a != [] {
      var n := |a| - 1;
      SameInEach(a[..n], b[..n]);
    }
  }

  lemma {:induction false} FilterCount(items: seq<Text.Units>, keep: Text.Units -> bool, x: Text.Units)
    ensures multiset(Filter(items, keep))[x] <= multiset(items)[x]
  {
    if items != [] {
      var n := |items| - 1;
      FilterCount(items[..n], keep, x);
      assert items == items[..n] + [items[n]];
    }
  }

  lemma OnceEach(items: seq<Text.Units>)
    ensures NoDuplicates(items) <==> forall x :: multiset(items)[x] <= 1
  {
    if NoDuplicates(items) {
      forall x ensures multiset(items)[x] <= 1 {
        DistinctOnce(items, x);
      }
    }
    if !NoDuplicates(items) {
      var i, j :| 0 <= i < j < |items| && items[i] == items[j];
      assert items == items[..j] + items[j..] && items[..j][i] == items[i] && items[j..][0] == items[j];
      assert multiset(items)[items[i]] >= 2;
    }
  }

  lemma {:induction false} DistinctOnce(items: seq<Text.Units>, x: Text.Units)
    requires NoDuplicates(items)
    ensures multiset(items)[x] <= 1
  {
    if items != [] {
      var n := |items| - 1;
      DistinctOnce(items[..n], x);
      assert items == items[..n] + [items[n]];
    }
  }

  /** The modules are apart: no path is in two of them, or twice in one. */
  lemma ModulesAreApart(files: seq<SourceFile>, rules: Rules)
    requires DistinctPaths(files)
    ensures NoDuplicates(AllPaths(Modules(files, rules)))
  {
    hide AllPaths, ByRoot, SortPaths, Text.Sort;
    var kept := Filter(Paths(files), rules.isSource);
    var sets := ByRoot(SourcePaths(files, rules), rules.root(files));
    SortPathsSame(kept, rules);
    ByRootSame(SourcePaths(files, rules), rules.root(files));
    forall i | 0 <= i < |sets| ensures multiset(Modules(files, rules)[i].paths) == multiset(sets[i].paths) {
      Text.SortSorts(sets[i].paths);
    }
    SameInEach(Modules(files, rules), sets);
    OnceEach(Paths(files));
    forall x ensures multiset(AllPaths(Modules(files, rules)))[x] <= 1 {
      FilterCount(Paths(files), rules.isSource, x);
    }
    OnceEach(AllPaths(Modules(files, rules)));
  }

  // ----- The modules hold each file once

  lemma {:induction false} FileAtIs(files: seq<SourceFile>, f: SourceFile)
    requires DistinctPaths(files) && f in files
    ensures FileAt(files, f.path) == Some(f)
  {
    var n := |files| - 1;
    var k :| 0 <= k <= n && files[k] == f;
    if k < n {
      FileAtIs(files[..n], f);
    }
  }

  lemma {:induction false} FileAtIsOfPath(files: seq<SourceFile>, path: Text.Units)
    ensures FileAt(files, path).Some? ==> FileAt(files, path).value in files && FileAt(files, path).value.path == path
  {
    if files != [] {
      FileAtIsOfPath(files[..|files| - 1], path);
    }
  }

  lemma {:induction false} FilesAtCount(files: seq<SourceFile>, paths: seq<Text.Units>, f: SourceFile)
    requires DistinctPaths(files) && NoDuplicates(paths)
    ensures Count(FilesAt(files, paths), f) == if f in files && f.path in paths then 1 else 0
  {
    hide DistinctPaths;
    if paths != [] {
      var n := |paths| - 1;
      FilesAtCount(files, paths[..n], f);
      FileAtIsOfPath(files, paths[n]);
      if f in files { FileAtIs(files, f); }
      assert paths == paths[..n] + [paths[n]];
    }
  }

  lemma {:induction false} FilesAtConcat(files: seq<SourceFile>, a: seq<Text.Units>, b: seq<Text.Units>)
    ensures FilesAt(files, a + b) == FilesAt(files, a) + FilesAt(files, b)
  {
    if b == [] {
      assert a + b == a;
    } else {
      FilesAtConcat(files, a, b[..|b| - 1]);
      assert (a + b)[..|a + b| - 1] == a + b[..|b| - 1];
    }
  }

  lemma {:induction false} ModulesFlatten(files: seq<SourceFile>, modules: seq<Module>)
    ensures GroupFiles(ModulesAsGroups(files, modules)) == FilesAt(files, AllPaths(modules))
  {
    if modules != [] {
      var n := |modules| - 1;
      var front, last := ModulesAsGroups(files, modules[..n]), Group(modules[n].id, FilesAt(files, modules[n].paths));
      ModulesFlatten(files, modules[..n]);
      FilesAtConcat(files, AllPaths(modules[..n]), modules[n].paths);
      assert (front + [last])[..|front|] == front;
    }
  }

  lemma CountAppend(files: seq<SourceFile>, last: SourceFile, f: SourceFile)
    ensures Count(files + [last], f) == Count(files, f) + if last == f then 1 else 0
  {
  }

  lemma AppendGroup(groups: seq<Group>, last: Group)
    ensures GroupFiles(groups + [last]) == GroupFiles(groups) + last.files
  {
    assert (groups + [last])[..|groups|] == groups;
  }

  lemma {:induction false} LoneCount(files: seq<SourceFile>, grouped: seq<Text.Units>, f: SourceFile)
    ensures Count(GroupFiles(LoneFiles(files, grouped)), f) == if f.path in grouped then 0 else Count(files, f)
  {
    hide Count, GroupFiles;
    if files == [] {
      NoGroups();
      CountNothing(f);
    } else {
      var n := |files| - 1;
      var front := LoneFiles(files[..n], grouped);
      LoneCount(files[..n], grouped, f);
      assert files == files[..n] + [files[n]];
      CountAppend(files[..n], files[n], f);
      if files[n].path in grouped {
        assert front + [] == front;
      } else {
        AppendGroup(front, Group(files[n].path, [files[n]]));
        CountAppend(GroupFiles(front), files[n], f);
      }
    }
  }

  lemma CountNothing(f: SourceFile)
    ensures Count([], f) == 0
  {
  }

  lemma NoGroups()
    ensures GroupFiles([]) == []
  {
  }

  lemma {:induction false} GroupFilesConcat(a: seq<Group>, b: seq<Group>)
    ensures GroupFiles(a + b) == GroupFiles(a) + GroupFiles(b)
  {
    hide GroupFiles;
    if b == [] {
      assert a + b == a;
      NoGroups();
    } else {
      var n := |b| - 1;
      GroupFilesConcat(a, b[..n]);
      AppendGroup(a + b[..n], b[n]);
      AppendGroup(b[..n], b[n]);
      assert a + b == (a + b[..n]) + [b[n]] && b == b[..n] + [b[n]];
    }
  }

  lemma OneGroup(g: Group)
    ensures GroupFiles([g]) == g.files
  {
    assert [g][..0] == [];
  }

  lemma {:induction false} InsertKeepsCount(g: Group, groups: seq<Group>, rules: Rules, f: SourceFile)
    ensures Count(GroupFiles(InsertGroup(g, groups, rules)), f) == Count(g.files, f) + Count(GroupFiles(groups), f)
  {
    hide Count, GroupFiles;
    OneGroup(g);
    if groups == [] || rules.atMost(g.id, groups[0].id) {
      GroupFilesConcat([g], groups);
      CountConcat(g.files, GroupFiles(groups), f);
    } else {
      var rest := InsertGroup(g, groups[1..], rules);
      InsertKeepsCount(g, groups[1..], rules, f);
      OneGroup(groups[0]);
      GroupFilesConcat([groups[0]], rest);
      CountConcat(groups[0].files, GroupFiles(rest), f);
      SplitHead(groups, f);
    }
  }

  lemma SplitHead(groups: seq<Group>, f: SourceFile)
    requires groups != []
    ensures Count(GroupFiles(groups), f) == Count(groups[0].files, f) + Count(GroupFiles(groups[1..]), f)
  {
    hide Count;
    assert groups == [groups[0]] + groups[1..];
    GroupFilesConcat([groups[0]], groups[1..]);
    OneGroup(groups[0]);
    CountConcat(groups[0].files, GroupFiles(groups[1..]), f);
  }

  lemma {:induction false} SortKeepsCount(groups: seq<Group>, rules: Rules, f: SourceFile)
    ensures Count(GroupFiles(SortGroups(groups, rules)), f) == Count(GroupFiles(groups), f)
  {
    hide Count, GroupFiles;
    if groups != [] {
      SortKeepsCount(groups[1..], rules, f);
      InsertKeepsCount(groups[0], SortGroups(groups[1..], rules), rules, f);
      SplitHead(groups, f);
    }
  }

  /** Before the tests are moved, the modules hold each file of a list of distinct paths once, and no other. */
  lemma UnplacedCount(files: seq<SourceFile>, rules: Rules, f: SourceFile)
    requires DistinctPaths(files)
    ensures Count(GroupFiles(UnplacedGroups(files, rules)), f) == Count(files, f)
  {
    hide Count, GroupFiles, SortGroups, AllPaths, LoneFiles, ModulesAsGroups, FilesAt, DistinctPaths;
    var modules := Modules(files, rules);
    ModulesAreApart(files, rules);
    var grouped, lone := ModulesAsGroups(files, modules), LoneFiles(files, AllPaths(modules));
    SortKeepsCount(grouped + lone, rules, f);
    GroupFilesConcat(grouped, lone);
    CountConcat(GroupFiles(grouped), GroupFiles(lone), f);
    ModulesFlatten(files, modules);
    FilesAtCount(files, AllPaths(modules), f);
    LoneCount(files, AllPaths(modules), f);
    OnceOrNever(files, f);
  }

  lemma OnceOrNever(files: seq<SourceFile>, f: SourceFile)
    requires DistinctPaths(files)
    ensures Count(files, f) == if f in files then 1 else 0
  {
    DistinctCount(files, f);
  }

  /** The grouping discovery packs and splits with meets what conservation needs of a grouping. */
  lemma ModuleGroupingPartitions(rules: Rules)
    ensures Partitions(ModuleGrouping(rules))
  {
    hide Count, AllFiles, GroupFiles, BesideTheirSource, UnplacedGroups, DistinctPaths;
    forall files, f | DistinctPaths(files)
      ensures Count(AllFiles(ModuleGrouping(rules)(files)), f) == Count(files, f)
    {
      UnplacedAreDistinct(files, rules);
      UnplacedCount(files, rules, f);
      MovingTestsIsAPermutation(UnplacedGroups(files, rules), rules.imports(files), f);
    }
  }

  lemma UnplacedAreDistinct(files: seq<SourceFile>, rules: Rules)
    requires DistinctPaths(files)
    ensures DistinctPaths(GroupFiles(UnplacedGroups(files, rules)))
  {
    hide Count, GroupFiles, UnplacedGroups, DistinctPaths;
    forall f ensures Count(GroupFiles(UnplacedGroups(files, rules)), f) <= Count(files, f) {
      UnplacedCount(files, rules, f);
    }
    FewerStayDistinct(GroupFiles(UnplacedGroups(files, rules)), files);
  }

  /** The modules of a snapshot share no file, so a scope that holds part of one lists it. */
  lemma SnapshotModulesAreListed(snapshot: seq<SourceFile>, rules: Rules, fits: ScopePacking.Fits, group: BundledGroup)
    requires DistinctPaths(snapshot) && group in ModuleGrouping(rules)(snapshot)
    ensures var groups := ModuleGrouping(rules)(snapshot);
            && (forall i, j :: 0 <= i < |groups| && 0 <= j < |groups| && i != j ==> Disjoint(groups[i], groups[j]))
            && forall i :: 0 <= i < |Allocation(groups, fits).scopes| ==>
                 Listed(Allocation(groups, fits).scopes[i].files, Allocation(groups, fits).scopes[i].splitModules,
                     group)
  {
    hide Count, AllFiles, ModuleGrouping, DistinctPaths, Disjoint, Listed, Allocation;
    var groups := ModuleGrouping(rules)(snapshot);
    ModuleGroupingPartitions(rules);
    forall f ensures Count(AllFiles(groups), f) <= 1 {
      DistinctCount(snapshot, f);
    }
    OnceIsDisjoint(groups);
    SplitModulesAreListed(groups, fits, group);
  }

  /** Primary discovery over the repository's own modules loses no line, for every pattern of replies. */
  method DiscoverSnapshot(snapshot: seq<SourceFile>, rules: Rules, replies: (nat, Unit) -> Discovery.Reply,
      wholeFits: bool, fits: ScopePacking.Fits, fitsWindow: SourceFile -> LineWindows.Fits)
    returns (r: Discovery.Result<Discovery.Coverage>)
    requires DistinctPaths(snapshot)
    ensures r.Ok? ==> forall file, line :: file in snapshot && 1 <= line <= file.lineCount ==>
              Discovery.InEntries(r.value.entries, file, line) || (file, line) in r.value.unexamined
    ensures r.Ok? ==> forall file, line :: (file, line) in r.value.unexamined ==>
              !wholeFits && !fitsWindow(file)(line, line)
  {
    hide ModuleGrouping;
    ModuleGroupingPartitions(rules);
    var finder := new Discovery.Finder(ModuleGrouping(rules), replies);
    r := finder.DiscoverPrimary(snapshot, wholeFits, fits, fitsWindow);
  }
}
