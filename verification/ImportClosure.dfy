/** What a discovery unit depends on beyond its own files: the imports it can reach and the manifests above it. */
module ImportClosure {
  import Text

  type Path = Text.Units

  /** For each file the files of the repository that it imports. */
  type Imports = map<Path, seq<Path>>

  function ImportsOf(imports: Imports, path: Path): seq<Path> { if path in imports then imports[path] else [] }

  function SetOf(paths: seq<Path>): set<Path> { set path | path in paths }

  // ----- Reachability

  /** `path` is reached from the unit's files in `n` imports. */
  ghost predicate ReachedIn(imports: Imports, own: set<Path>, path: Path, n: nat)
    decreases n
  {
    if n == 0 then path in own
    else exists from :: ReachedIn(imports, own, from, n - 1) && path in ImportsOf(imports, from)
  }

  ghost predicate Reachable(imports: Imports, own: set<Path>, path: Path) {
    exists n: nat :: ReachedIn(imports, own, path, n)
  }

  ghost predicate ClosedUnderImports(imports: Imports, paths: set<Path>) {
    forall from, path :: from in paths && path in ImportsOf(imports, from) ==> path in paths
  }

  lemma {:induction false} ClosedHoldsReached(imports: Imports, own: set<Path>, paths: set<Path>, path: Path, n: nat)
    requires ClosedUnderImports(imports, paths) && own <= paths && ReachedIn(imports, own, path, n)
    ensures path in paths
    decreases n
  {
    if n > 0 {
      var from :| ReachedIn(imports, own, from, n - 1) && path in ImportsOf(imports, from);
      ClosedHoldsReached(imports, own, paths, from, n - 1);
    }
  }

  lemma ImportIsReachable(imports: Imports, own: set<Path>, from: Path, path: Path)
    requires Reachable(imports, own, from) && path in ImportsOf(imports, from)
    ensures Reachable(imports, own, path)
  {
    var n: nat :| ReachedIn(imports, own, from, n);
    assert ReachedIn(imports, own, path, n + 1);
  }

  lemma OwnIsReachable(imports: Imports, own: set<Path>, path: Path)
    requires path in own
    ensures Reachable(imports, own, path)
  {
    assert ReachedIn(imports, own, path, 0);
  }

  /** A list of files in which each imports the next. */
  predicate IsChain(imports: Imports, chain: seq<Path>) {
    forall i :: 0 <= i < |chain| - 1 ==> chain[i] in imports && chain[i + 1] in imports[chain[i]]
  }

  ghost predicate ChainTo(imports: Imports, own: set<Path>, path: Path, chain: seq<Path>) {
    chain != [] && chain[0] in own && chain[|chain| - 1] == path && IsChain(imports, chain)
  }

  lemma {:induction false} ReachedByChain(imports: Imports, own: set<Path>, path: Path, n: nat)
    returns (chain: seq<Path>)
    requires ReachedIn(imports, own, path, n)
    ensures ChainTo(imports, own, path, chain)
    decreases n
  {
    if n == 0 {
      chain := [path];
    } else {
      var from :| ReachedIn(imports, own, from, n - 1) && path in ImportsOf(imports, from);
      chain := ReachedByChain(imports, own, from, n - 1);
      chain := chain + [path];
    }
  }

  lemma {:induction false} ChainReaches(imports: Imports, own: set<Path>, path: Path, chain: seq<Path>)
    requires ChainTo(imports, own, path, chain)
    ensures ReachedIn(imports, own, path, |chain| - 1)
    decreases |chain|
  {
    if |chain| > 1 {
      var n := |chain| - 1;
      assert chain[..n][n - 1] == chain[n - 1] && chain[(n - 1) + 1] == path;
      ChainReaches(imports, own, chain[n - 1], chain[..n]);
      assert ReachedIn(imports, own, chain[n - 1], n - 1) && path in ImportsOf(imports, chain[n - 1]);
    }
  }

  /** A file is reachable exactly when a chain of imports leads to it from a file of the unit. */
  lemma ReachableIffChain(imports: Imports, own: set<Path>, path: Path)
    ensures Reachable(imports, own, path) <==> exists chain :: ChainTo(imports, own, path, chain)
  {
    if Reachable(imports, own, path) {
      var n: nat :| ReachedIn(imports, own, path, n);
      var chain := ReachedByChain(imports, own, path, n);
    }
    if exists chain :: ChainTo(imports, own, path, chain) {
      var chain :| ChainTo(imports, own, path, chain);
      ChainReaches(imports, own, path, chain);
      var n: nat := |chain| - 1;
      assert ReachedIn(imports, own, path, n);
    }
  }

  /** The closure holds the files reachable from the unit that are not its own. */
  ghost predicate IsClosure(imports: Imports, own: set<Path>, closure: set<Path>) {
    forall path :: path in closure <==> Reachable(imports, own, path) && path !in own
  }

  function AllTargets(imports: Imports): set<Path> { set from, path | from in imports && path in imports[from] :: path }

  /** Reached so far, and every import of a file not on the worklist is reached. */
  ghost predicate WorklistFits(imports: Imports, own: set<Path>, closure: set<Path>, pending: seq<Path>) {
    && closure !! own
    && (forall path :: path in closure ==> Reachable(imports, own, path))
    && (forall path :: path in pending ==> path in own + closure)
    && (forall from, path :: from in own + closure && from !in pending && path in ImportsOf(imports, from) ==>
        path in own + closure)
  }

  lemma EmptyWorklistIsClosure(imports: Imports, own: set<Path>, closure: set<Path>)
    requires WorklistFits(imports, own, closure, [])
    ensures IsClosure(imports, own, closure)
  {
    assert ClosedUnderImports(imports, own + closure);
    forall path | Reachable(imports, own, path) ensures path in own + closure {
      var n: nat :| ReachedIn(imports, own, path, n);
      ClosedHoldsReached(imports, own, own + closure, path, n);
    }
  }

  lemma TargetLeft(imports: Imports, closure: set<Path>, from: Path, target: Path)
    requires target in ImportsOf(imports, from) && target !in closure
    ensures |AllTargets(imports) - (closure + {target})| < |AllTargets(imports) - closure|
  {
    assert AllTargets(imports) - (closure + {target}) == (AllTargets(imports) - closure) - {target};
    assert target in AllTargets(imports);
  }

  /** While the imports of `from` are visited: those before `i` are reached, the others still may not be. */
  ghost predicate VisitFits(imports: Imports, own: set<Path>, closure: set<Path>, pending: seq<Path>, from: Path,
      i: nat)
    requires i <= |ImportsOf(imports, from)|
  {
    && closure !! own
    && (forall path :: path in closure ==> Reachable(imports, own, path))
    && (forall path :: path in pending ==> path in own + closure)
    && (forall k :: 0 <= k < i ==> ImportsOf(imports, from)[k] in own + closure)
    && (forall other, path ::
          other in own + closure && other != from && other !in pending && path in ImportsOf(imports, other)
          ==> path in own + closure)
  }

  lemma VisitStarts(imports: Imports, own: set<Path>, closure: set<Path>, pending: seq<Path>)
    requires WorklistFits(imports, own, closure, pending) && pending != []
    ensures VisitFits(imports, own, closure, pending[..|pending| - 1], pending[|pending| - 1], 0)
  {
    assert pending == pending[..|pending| - 1] + [pending[|pending| - 1]];
  }

  lemma VisitAdds(imports: Imports, own: set<Path>, closure: set<Path>, pending: seq<Path>, from: Path, i: nat)
    requires i < |ImportsOf(imports, from)| && VisitFits(imports, own, closure, pending, from, i)
             && Reachable(imports, own, from)
    ensures var target := ImportsOf(imports, from)[i];
            if target in own || target in closure then VisitFits(imports, own, closure, pending, from, i + 1)
            else VisitFits(imports, own, closure + {target}, pending + [target], from, i + 1)
  {
    hide Reachable;
    var target := ImportsOf(imports, from)[i];
    ImportIsReachable(imports, own, from, target);
  }

  lemma VisitEnds(imports: Imports, own: set<Path>, closure: set<Path>, pending: seq<Path>, from: Path)
    requires VisitFits(imports, own, closure, pending, from, |ImportsOf(imports, from)|)
    ensures WorklistFits(imports, own, closure, pending)
  {
    hide Reachable;
  }

  lemma FromIsReachable(imports: Imports, own: set<Path>, closure: set<Path>, pending: seq<Path>, from: Path)
    requires WorklistFits(imports, own, closure, pending) && from in pending
    ensures Reachable(imports, own, from)
  {
    if from in own { OwnIsReachable(imports, own, from); }
  }

  /** The import worklist of a unit. */
  method Closure(paths: seq<Path>, imports: Imports) returns (closure: set<Path>)
    ensures IsClosure(imports, SetOf(paths), closure)
  {
    hide WorklistFits, VisitFits, Reachable, IsClosure;
    var own := SetOf(paths);
    var pending := paths;
    closure := {};
    WorklistStarts(imports, paths);
    while pending != []
      invariant WorklistFits(imports, own, closure, pending)
      decreases |AllTargets(imports) - closure|, |pending|
    {
      var from := pending[|pending| - 1];
      FromIsReachable(imports, own, closure, pending, from);
      VisitStarts(imports, own, closure, pending);
      ghost var left, length := |AllTargets(imports) - closure|, |pending|;
      pending := pending[..|pending| - 1];
      var targets := ImportsOf(imports, from);
      for i := 0 to |targets|
        invariant VisitFits(imports, own, closure, pending, from, i)
        invariant |AllTargets(imports) - closure| < left
                  || (|AllTargets(imports) - closure| == left && |pending| < length)
      {
        VisitAdds(imports, own, closure, pending, from, i);
        var target := targets[i];
        if target !in own && target !in closure {
          TargetLeft(imports, closure, from, target);
          closure := closure + {target};
          pending := pending + [target];
        }
      }
      VisitEnds(imports, own, closure, pending, from);
    }
    EmptyWorklistIsClosure(imports, own, closure);
  }

  lemma WorklistStarts(imports: Imports, paths: seq<Path>)
    ensures WorklistFits(imports, SetOf(paths), {}, paths)
  {
  }

  /** A unit has one closure. */
  lemma ClosureIsUnique(imports: Imports, own: set<Path>, a: set<Path>, b: set<Path>)
    requires IsClosure(imports, own, a) && IsClosure(imports, own, b)
    ensures a == b
  {
    hide Reachable;
    forall path ensures path in a <==> path in b {}
  }

  // ----- Directories

  const SLASH := 0x2f

  /** `posix.dirname` of a relative path, with the root as the empty path. */
  function DirectoryOf(path: Path): (directory: Path)
    ensures |directory| < |path| || path == [] == directory
  {
    if path == [] then []
    else if path[|path| - 1] == SLASH then path[..|path| - 1]
    else DirectoryOf(path[..|path| - 1])
  }

  /** Every directory a path lies in, the root included. */
  function Ancestors(path: Path): set<Path>
    decreases |path|
  {
    if DirectoryOf(path) == [] then {[]} else {DirectoryOf(path)} + Ancestors(DirectoryOf(path))
  }

  predicate LiesIn(path: Path, directory: Path) {
    directory == [] || (|directory| < |path| && path[|directory|] == SLASH && path[..|directory|] == directory)
  }

  lemma {:induction false} DirectoryIsLast(path: Path, n: nat)
    requires 0 < n < |path| && path[n] == SLASH
    ensures DirectoryOf(path) == path[..|DirectoryOf(path)|] && n <= |DirectoryOf(path)| < |path|
            && path[|DirectoryOf(path)|] == SLASH
  {
    var front := path[..|path| - 1];
    if path[|path| - 1] != SLASH {
      DirectoryIsLast(front, n);
      assert front[..|DirectoryOf(front)|] == path[..|DirectoryOf(front)|];
    }
  }

  lemma {:induction false} DirectoryLiesAbove(path: Path)
    ensures DirectoryOf(path) != [] ==> LiesIn(path, DirectoryOf(path))
  {
    if path != [] && path[|path| - 1] != SLASH {
      var front := path[..|path| - 1];
      DirectoryLiesAbove(front);
      assert DirectoryOf(front) != [] ==> front[..|DirectoryOf(front)|] == path[..|DirectoryOf(front)|];
    }
  }

  /** The ancestors of a path are exactly the directories it lies in. */
  lemma {:induction false} AncestorsAreAbove(path: Path, directory: Path)
    ensures directory in Ancestors(path) <==> LiesIn(path, directory)
    decreases |path|
  {
    var up := DirectoryOf(path);
    DirectoryLiesAbove(path);
    if directory != [] && LiesIn(path, directory) {
      DirectoryIsLast(path, |directory|);
      if directory != up {
        assert up[..|directory|] == path[..|directory|] && |directory| < |up|;
      }
    }
    if up != [] {
      AncestorsAreAbove(up, directory);
      if directory != [] && LiesIn(up, directory) {
        assert path[..|directory|] == up[..|directory|];
      }
    }
  }

  /** The directories above any of the unit's files. */
  method AncestorDirectories(paths: seq<Path>) returns (ancestors: set<Path>)
    ensures forall d :: d in ancestors <==> d == [] || exists i :: 0 <= i < |paths| && d in Ancestors(paths[i])
  {
    ancestors := {[]};
    hide DirectoryOf;
    for i := 0 to |paths|
      invariant forall d :: d in ancestors <==> d == [] || exists k :: 0 <= k < i && d in Ancestors(paths[k])
    {
      ghost var before := ancestors;
      var directory := DirectoryOf(paths[i]);
      while directory != []
        invariant [] in ancestors
        invariant forall d :: d in ancestors || (directory != [] && (d == directory || d in Ancestors(directory))) <==>
                  d in before || d in Ancestors(paths[i])
        decreases |directory|
      {
        ancestors := ancestors + {directory};
        directory := DirectoryOf(directory);
      }
    }
  }
}
