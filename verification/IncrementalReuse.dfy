/** Whether a discovery unit of a later run may reuse the base
    run's work: only if everything it depended on is as it was. */
module IncrementalReuse {
  import opened Hashing
  import opened Options
  import opened ImportClosure

  datatype FileHash = Absent | Hash(digest: Digest)
  datatype ManifestHash = Unreadable | Readable(digest: Digest)

  /** The files and manifests of a repository, by their bytes. */
  datatype Snapshot = Snapshot(files: map<Path, Digest>, manifests: map<Path, ManifestHash>)

  /** The parts of a unit's identity that do not come from the repository: each the digest of its own inputs. */
  datatype Settings = Settings(scope: Digest, protocol: Digest, model: Digest, harness: Digest, policy: Digest)

  datatype Unit = Unit(paths: seq<Path>, settings: Settings)

  datatype Environment = Environment(snapshot: Snapshot, imports: Imports)

  datatype Identity = Identity(files: map<Path, FileHash>, imports: map<Path, FileHash>,
      manifests: map<Path, ManifestHash>, settings: Settings)

  datatype CitedRange = CitedRange(path: Path, startLine: nat, endLine: nat, digest: Digest)

  /** What a run records of a unit it finished. */
  datatype UnitRecord = UnitRecord(paths: seq<Path>, identity: Identity, citedRanges: seq<CitedRange>,
      footprintRecorded: bool, readPaths: seq<Path>)

  function FileIn(s: Snapshot, path: Path): FileHash { if path in s.files then Hash(s.files[path]) else Absent }

  /** Two snapshots give a path one hash exactly when both lack it or both hold it with one content. */
  lemma SameFileIff(s: Snapshot, t: Snapshot, path: Path)
    ensures FileIn(s, path) == FileIn(t, path) <==>
            (path in s.files <==> path in t.files) && (path in s.files ==> s.files[path] == t.files[path])
  {
  }

  function HashesOf(s: Snapshot, paths: set<Path>): map<Path, FileHash> { map path | path in paths :: FileIn(s, path) }

  function ManifestsUnder(s: Snapshot, directories: set<Path>): map<Path, ManifestHash> {
    map path | path in s.manifests && DirectoryOf(path) in directories :: s.manifests[path]
  }

  /** The directories above a unit's files, the root included. */
  ghost predicate Above(paths: seq<Path>, directories: set<Path>) {
    forall d :: d in directories <==> d == [] || exists i :: 0 <= i < |paths| && d in Ancestors(paths[i])
  }

  /** The identity of a unit in an environment. */
  ghost predicate IsIdentity(id: Identity, unit: Unit, env: Environment) {
    && id.files == HashesOf(env.snapshot, SetOf(unit.paths))
    && (exists closure ::
          IsClosure(env.imports, SetOf(unit.paths), closure) && id.imports == HashesOf(env.snapshot, closure))
    && (exists directories ::
          Above(unit.paths, directories) && id.manifests == ManifestsUnder(env.snapshot, directories))
    && id.settings == unit.settings
  }

  /** `discoveryUnitIdentity`. */
  method DiscoveryUnitIdentity(unit: Unit, env: Environment) returns (id: Identity)
    ensures IsIdentity(id, unit, env)
  {
    var closure := Closure(unit.paths, env.imports);
    var directories := AncestorDirectories(unit.paths);
    id := Identity(HashesOf(env.snapshot, SetOf(unit.paths)), HashesOf(env.snapshot, closure),
        ManifestsUnder(env.snapshot, directories), unit.settings);
  }

  // ----- The decision

  datatype Component = Scope | Protocol | Model | Harness | Policy

  datatype Reason =
    | BaseUnitAbsent
    | FootprintUnavailable
    | FootprintOutsideUnit(path: Path)
    | ReadBeyondUnitChanged(path: Path)
    | FootprintChanged(path: Path)
    | ImportsChanged(path: Path)
    | CitedLinesChanged(range: CitedRange)
    | ManifestsChanged(path: Path)
    | ManifestUnverifiable(path: Path)
    | SettingChanged(component: Component)

  /** The files of both snapshots, where the base kept its own. */
  datatype Files = Files(base: map<Path, Digest>, current: map<Path, Digest>)

  /** What the decision may look at: the current files' lines,
      the current imports, and both snapshots if there are two. */
  datatype Context = Context(lines: map<Path, seq<Bytes>>, imports: Imports, snapshots: Option<Files>)

  function Join(lines: seq<Bytes>): Bytes {
    if lines == [] then [] else if |lines| == 1 then lines[0]
    else Join(lines[..|lines| - 1]) + [0x0a] + lines[|lines| - 1]
  }

  /** The hash of lines `startLine` to `endLine`; none if the file does not reach that far. */
  function RangeHash(lines: map<Path, seq<Bytes>>, r: CitedRange): Option<Digest> {
    if r.path !in lines || r.endLine > |lines[r.path]| then None
    else if r.startLine >= 1 && r.startLine - 1 <= r.endLine then
      Some(Sha256(Join(lines[r.path][r.startLine - 1..r.endLine])))
    else Some(Sha256([]))
  }

  /** What a run records for a cited range: the hash of those of its lines that the file has. */
  function CitedHash(lines: map<Path, seq<Bytes>>, r: CitedRange): Option<Digest> {
    if r.path !in lines then None
    else
      var end := if r.endLine <= |lines[r.path]| then r.endLine else |lines[r.path]|;
      if r.startLine >= 1 && r.startLine - 1 <= end then Some(Sha256(Join(lines[r.path][r.startLine - 1..end])))
      else Some(Sha256([]))
  }

  /** Lines as a file is split into them: none holds a newline. */
  predicate AreLines(lines: seq<Bytes>) { forall i :: 0 <= i < |lines| ==> 0x0a !in lines[i] }

  lemma SplitAtLast(a: Bytes, b: Bytes, x: Bytes, y: Bytes)
    requires a + [0x0a] + x == b + [0x0a] + y && 0x0a !in x && 0x0a !in y
    ensures a == b && x == y
  {
    var whole, other := a + [0x0a] + x, b + [0x0a] + y;
    forall i | |a| < i < |whole| ensures whole[i] != 0x0a {
      assert whole[i] == x[i - |a| - 1];
    }
    forall i | |b| < i < |other| ensures other[i] != 0x0a {
      assert other[i] == y[i - |b| - 1];
    }
    assert whole[|a|] == other[|b|] == 0x0a;
    assert |a| == |b|;
    assert whole[..|a|] == a && other[..|a|] == b;
    assert whole[|a| + 1..] == x && other[|a| + 1..] == y;
  }

  /** As many lines that join to one text are the same lines. */
  lemma {:induction false} JoinIsInjective(a: seq<Bytes>, b: seq<Bytes>)
    requires |a| == |b| && AreLines(a) && AreLines(b)
    ensures Join(a) == Join(b) <==> a == b
  {
    var n := |a| - 1;
    if n >= 0 && Join(a) == Join(b) {
      assert a == a[..n] + [a[n]] && b == b[..n] + [b[n]];
      if n > 0 {
        SplitAtLast(Join(a[..n]), Join(b[..n]), a[n], b[n]);
        JoinIsInjective(a[..n], b[..n]);
      }
    }
  }

  /** A range has a hash exactly where the file reaches that far;
      and one hash in two files exactly if it reads the same. */
  lemma SameHashIffSameLines(lines: map<Path, seq<Bytes>>, later: map<Path, seq<Bytes>>, r: CitedRange)
    requires 1 <= r.startLine <= r.endLine
    ensures RangeHash(lines, r).Some? <==> r.path in lines && r.endLine <= |lines[r.path]|
    ensures RangeHash(lines, r).Some? && RangeHash(later, r).Some?
            && AreLines(lines[r.path]) && AreLines(later[r.path]) ==>
              (RangeHash(lines, r) == RangeHash(later, r) <==>
               lines[r.path][r.startLine - 1..r.endLine] == later[r.path][r.startLine - 1..r.endLine])
  {
    hide Join;
    if RangeHash(lines, r).Some? && RangeHash(later, r).Some? && AreLines(lines[r.path]) && AreLines(later[r.path]) {
      JoinIsInjective(lines[r.path][r.startLine - 1..r.endLine], later[r.path][r.startLine - 1..r.endLine]);
    }
  }

  /** The paths whose values differ, or that only one side has. */
  function ChangedKeys<V(==)>(before: map<Path, V>, after: map<Path, V>): set<Path> {
    set path | path in before.Keys + after.Keys && (path !in before || path !in after || before[path] != after[path])
  }

  lemma NothingChangedIffEqual<V>(before: map<Path, V>, after: map<Path, V>)
    ensures ChangedKeys(before, after) == {} <==> before == after
  {
    if ChangedKeys(before, after) == {} {
      forall path ensures path in before <==> path in after {
        assert path in before.Keys + after.Keys ==> path !in ChangedKeys(before, after);
      }
      forall path | path in before && path in after ensures before[path] == after[path] {
        assert path !in ChangedKeys(before, after);
      }
    }
  }

  /** A file read beyond the unit is still as it was. */
  predicate ReadStill(context: Context, path: Path) {
    && context.snapshots.Some?
    && path in context.snapshots.value.base && path in context.snapshots.value.current
    && context.snapshots.value.base[path] == context.snapshots.value.current[path]
  }

  function SettingOf(s: Settings, c: Component): Digest {
    match c
    case Scope => s.scope
    case Protocol => s.protocol
    case Model => s.model
    case Harness => s.harness
    case Policy => s.policy
  }

  const COMPONENTS: seq<Component> := [Scope, Protocol, Model, Harness, Policy]

  predicate UnreadableIn(manifests: map<Path, ManifestHash>, path: Path) {
    path in manifests && manifests[path].Unreadable?
  }

  /** Some file of the unit imports the path directly. */
  ghost predicate IsTarget(files: set<Path>, imports: Imports, path: Path) {
    exists from :: from in files && path in ImportsOf(imports, from)
  }

  /** A reason stands exactly for the change it names. */
  ghost predicate Justified(reason: Reason, current: Identity, base: UnitRecord, context: Context) {
    match reason
    case BaseUnitAbsent => false
    case FootprintUnavailable => !base.footprintRecorded
    case FootprintOutsideUnit(path) => path in base.readPaths && path !in base.paths && context.snapshots.None?
    case ReadBeyondUnitChanged(path) =>
      path in base.readPaths && path !in base.paths && context.snapshots.Some? && !ReadStill(context, path)
    case FootprintChanged(path) => path in ChangedKeys(base.identity.files, current.files)
    case ImportsChanged(path) =>
      || path in ChangedKeys(base.identity.imports, current.imports)
      || (path in ChangedKeys(base.identity.files, current.files)
          && IsTarget(current.files.Keys, context.imports, path))
    case CitedLinesChanged(range) => range in base.citedRanges && RangeHash(context.lines, range) != Some(range.digest)
    case ManifestsChanged(path) => path in ChangedKeys(base.identity.manifests, current.manifests)
    case ManifestUnverifiable(path) => UnreadableIn(current.manifests, path)
    case SettingChanged(c) => SettingOf(base.identity.settings, c) != SettingOf(current.settings, c)
  }

  /** Whether some file of the unit imports the path directly. */
  method IsImportTarget(files: set<Path>, imports: Imports, path: Path) returns (found: bool)
    ensures found <==> IsTarget(files, imports, path)
  {
    found := exists from :: from in files && path in ImportsOf(imports, from);
  }

  /** A read beyond the unit that is a reason to regenerate. */
  predicate FootprintReason(r: Reason, readPaths: seq<Path>, paths: seq<Path>, context: Context) {
    && (r.FootprintOutsideUnit? || r.ReadBeyondUnitChanged?) && r.path in readPaths && r.path !in paths
    && (if r.FootprintOutsideUnit? then context.snapshots.None?
        else context.snapshots.Some? && !ReadStill(context, r.path))
  }

  method FootprintReasons(base: UnitRecord, context: Context) returns (reasons: set<Reason>)
    ensures forall r :: r in reasons <==> FootprintReason(r, base.readPaths, base.paths, context)
  {
    reasons := {};
    for i := 0 to |base.readPaths|
      invariant forall r :: r in reasons <==> FootprintReason(r, base.readPaths[..i], base.paths, context)
    {
      var path := base.readPaths[i];
      assert base.readPaths[..i + 1] == base.readPaths[..i] + [path];
      if path !in base.paths {
        if context.snapshots.None? {
          reasons := reasons + {FootprintOutsideUnit(path)};
        } else if !ReadStill(context, path) {
          reasons := reasons + {ReadBeyondUnitChanged(path)};
        }
      }
    }
    assert base.readPaths[..|base.readPaths|] == base.readPaths;
  }

  method CitedReasons(base: UnitRecord, context: Context) returns (reasons: set<Reason>)
    ensures forall r :: r in reasons <==>
            r.CitedLinesChanged? && r.range in base.citedRanges
            && RangeHash(context.lines, r.range) != Some(r.range.digest)
  {
    hide RangeHash;
    reasons := {};
    for i := 0 to |base.citedRanges|
      invariant forall r :: r in reasons <==>
                r.CitedLinesChanged? && r.range in base.citedRanges[..i]
                && RangeHash(context.lines, r.range) != Some(r.range.digest)
    {
      var range := base.citedRanges[i];
      assert base.citedRanges[..i + 1] == base.citedRanges[..i] + [range];
      if RangeHash(context.lines, range) != Some(range.digest) {
        reasons := reasons + {CitedLinesChanged(range)};
      }
    }
    assert base.citedRanges[..|base.citedRanges|] == base.citedRanges;
  }

  /** A changed file of the unit is a reason, and another one where the unit imports it. */
  ghost predicate FileReason(r: Reason, changed: set<Path>, current: Identity, context: Context) {
    || (r.FootprintChanged? && r.path in changed)
    || (r.ImportsChanged? && r.path in changed && IsTarget(current.files.Keys, context.imports, r.path))
  }

  method FileReasons(current: Identity, base: UnitRecord, context: Context) returns (reasons: set<Reason>)
    ensures forall r :: r in reasons <==>
            (r.FootprintChanged? || r.ImportsChanged?) && Justified(r, current, base, context)
  {
    hide ChangedKeys;
    var left := ChangedKeys(base.identity.files, current.files);
    ghost var all := left;
    reasons := {};
    while left != {}
      invariant left <= all
      invariant forall r :: r in reasons <==> FileReason(r, all - left, current, context)
    {
      var path :| path in left;
      left := left - {path};
      reasons := reasons + {FootprintChanged(path)};
      var target := IsImportTarget(current.files.Keys, context.imports, path);
      if target {
        reasons := reasons + {ImportsChanged(path)};
      }
    }
    var imports := ChangedKeys(base.identity.imports, current.imports);
    reasons := reasons + set path | path in imports :: ImportsChanged(path);
  }

  method SettingReasons(current: Identity, base: UnitRecord) returns (reasons: set<Reason>)
    ensures forall r :: r in reasons <==>
              && r.SettingChanged?
              && SettingOf(base.identity.settings, r.component) != SettingOf(current.settings, r.component)
  {
    reasons := {};
    for i := 0 to 5
      invariant forall r :: r in reasons <==>
                r.SettingChanged? && r.component in COMPONENTS[..i]
                && SettingOf(base.identity.settings, r.component) != SettingOf(current.settings, r.component)
    {
      var c := COMPONENTS[i];
      assert COMPONENTS[..i + 1] == COMPONENTS[..i] + [c];
      if SettingOf(base.identity.settings, c) != SettingOf(current.settings, c) {
        reasons := reasons + {SettingChanged(c)};
      }
    }
    EveryComponent();
  }

  lemma EveryComponent()
    ensures forall c: Component :: c in COMPONENTS[..5]
  {
    forall c: Component ensures c in COMPONENTS[..5] {
      assert COMPONENTS[..5] == COMPONENTS;
      match c
      case Scope => assert COMPONENTS[0] == c;
      case Protocol => assert COMPONENTS[1] == c;
      case Model => assert COMPONENTS[2] == c;
      case Harness => assert COMPONENTS[3] == c;
      case Policy => assert COMPONENTS[4] == c;
    }
  }

  /** `decideUnit`: the reasons to regenerate; none of them means reuse. */
  method DecideUnit(current: Identity, base: Option<UnitRecord>, context: Context) returns (reasons: set<Reason>)
    ensures base.None? ==> reasons == {BaseUnitAbsent}
    ensures base.Some? ==> forall r :: r in reasons <==> Justified(r, current, base.value, context)
  {
    hide ChangedKeys, RangeHash, SettingOf;
    if base.None? {
      return {BaseUnitAbsent};
    }
    var b := base.value;
    reasons := if b.footprintRecorded then {} else {FootprintUnavailable};
    var footprint := FootprintReasons(b, context);
    var files := FileReasons(current, b, context);
    var cited := CitedReasons(b, context);
    var manifests := set path | path in ChangedKeys(b.identity.manifests, current.manifests) :: ManifestsChanged(path);
    var unverifiable := set path | path in current.manifests
        && UnreadableIn(current.manifests, path) :: ManifestUnverifiable(path);
    var settings := SettingReasons(current, b);
    reasons := reasons + footprint + files + cited + manifests + unverifiable + settings;
  }

  // ----- What reuse means

  /** No reason at all: the decision is to reuse. */
  ghost predicate Reused(current: Identity, base: UnitRecord, context: Context) {
    forall r :: !Justified(r, current, base, context)
  }

  /** The whole identity, and everything read and cited beyond the unit, is as it was. */
  ghost predicate AsItWas(current: Identity, base: UnitRecord, context: Context) {
    && base.footprintRecorded && base.identity == current
    && (forall path {:trigger path in base.readPaths} :: path in base.readPaths && path !in base.paths ==>
        ReadStill(context, path))
    && (forall range {:trigger range in base.citedRanges} :: range in base.citedRanges ==>
        RangeHash(context.lines, range) == Some(range.digest))
    && (forall path {:trigger path in current.manifests} :: path in current.manifests ==>
        !current.manifests[path].Unreadable?)
  }

  /** The unit is reused exactly when everything it depended on is as it was. */
  lemma ReusedIffUnchanged(current: Identity, base: UnitRecord, context: Context)
    ensures Reused(current, base, context) <==> AsItWas(current, base, context)
  {
    hide ChangedKeys, RangeHash;
    NothingChangedIffEqual(base.identity.files, current.files);
    NothingChangedIffEqual(base.identity.imports, current.imports);
    NothingChangedIffEqual(base.identity.manifests, current.manifests);
    if AsItWas(current, base, context) {
      forall r ensures !Justified(r, current, base, context) {}
    }
    if Reused(current, base, context) {
      ReusedIsUnchanged(current, base, context);
    }
  }

  lemma ReusedIsUnchanged(current: Identity, base: UnitRecord, context: Context)
    requires Reused(current, base, context)
    ensures AsItWas(current, base, context)
  {
    hide ChangedKeys, RangeHash, ReadStill;
    NothingChangedIffEqual(base.identity.files, current.files);
    NothingChangedIffEqual(base.identity.imports, current.imports);
    NothingChangedIffEqual(base.identity.manifests, current.manifests);
    assert !Justified(FootprintUnavailable, current, base, context);
    ReusedSettings(current, base, context);
    forall path ensures path !in ChangedKeys(base.identity.files, current.files)
        && path !in ChangedKeys(base.identity.imports, current.imports)
                        && path !in ChangedKeys(base.identity.manifests, current.manifests) {
      assert !Justified(FootprintChanged(path), current, base, context)
          && !Justified(ImportsChanged(path), current, base, context)
          && !Justified(ManifestsChanged(path), current, base, context);
    }
    assert ChangedKeys(base.identity.files, current.files) == {}
        && ChangedKeys(base.identity.imports, current.imports) == {}
        && ChangedKeys(base.identity.manifests, current.manifests) == {};
    forall path | path in base.readPaths && path !in base.paths ensures ReadStill(context, path) {
      assert !Justified(FootprintOutsideUnit(path), current, base, context)
          && !Justified(ReadBeyondUnitChanged(path), current, base, context);
    }
    forall range | range in base.citedRanges ensures RangeHash(context.lines, range) == Some(range.digest) {
      assert !Justified(CitedLinesChanged(range), current, base, context);
    }
    forall path | path in current.manifests ensures !current.manifests[path].Unreadable? {
      assert !Justified(ManifestUnverifiable(path), current, base, context);
    }
  }

  lemma ReusedSettings(current: Identity, base: UnitRecord, context: Context)
    requires Reused(current, base, context)
    ensures base.identity.settings == current.settings
  {
    assert !Justified(SettingChanged(Scope), current, base, context)
        && !Justified(SettingChanged(Protocol), current, base, context)
        && !Justified(SettingChanged(Model), current, base, context)
        && !Justified(SettingChanged(Harness), current, base, context)
        && !Justified(SettingChanged(Policy), current, base, context);
  }

  // ----- A base read back from storage

  /** What storing makes of a path: a record is stored with its text, names of keys included, in NFC. */
  type Stored = Path -> Path

  ghost function ImageOf(keys: set<Path>, stored: Stored): set<Path> { set path | path in keys :: stored(path) }

  /** A key that is stored as `path`. */
  ghost function SourceOf(keys: set<Path>, stored: Stored, path: Path): (source: Path)
    requires path in ImageOf(keys, stored)
    ensures source in keys && stored(source) == path
  {
    var source :| source in keys && stored(source) == path;
    source
  }

  ghost function StoredKeys<V>(m: map<Path, V>, stored: Stored): map<Path, V> {
    map path | path in ImageOf(m.Keys, stored) :: m[SourceOf(m.Keys, stored, path)]
  }

  /** The record as a later run reads it. */
  ghost function ReadBack(r: UnitRecord, stored: Stored): UnitRecord {
    UnitRecord(
      seq(|r.paths|, i requires 0 <= i < |r.paths| => stored(r.paths[i])),
      Identity(StoredKeys(r.identity.files, stored), StoredKeys(r.identity.imports, stored),
               StoredKeys(r.identity.manifests, stored), r.identity.settings),
      seq(|r.citedRanges|, i requires 0 <= i < |r.citedRanges| =>
        r.citedRanges[i].(path := stored(r.citedRanges[i].path))),
      r.footprintRecorded,
      seq(|r.readPaths|, i requires 0 <= i < |r.readPaths| => stored(r.readPaths[i])))
  }

  ghost predicate KeysKept(keys: set<Path>, stored: Stored) {
    forall path {:trigger stored(path)} :: path in keys ==> stored(path) == path
  }

  /** The paths the identity names are stored as they are. */
  ghost predicate NamesKept(id: Identity, stored: Stored) {
    KeysKept(id.files.Keys, stored) && KeysKept(id.imports.Keys, stored) && KeysKept(id.manifests.Keys, stored)
  }

  /** So are the other paths of the record. */
  ghost predicate ListsKept(r: UnitRecord, stored: Stored) {
    && (forall i {:trigger r.paths[i]} :: 0 <= i < |r.paths| ==> stored(r.paths[i]) == r.paths[i])
    && (forall i {:trigger r.citedRanges[i]} :: 0 <= i < |r.citedRanges| ==>
          stored(r.citedRanges[i].path) == r.citedRanges[i].path)
    && (forall i {:trigger r.readPaths[i]} :: 0 <= i < |r.readPaths| ==> stored(r.readPaths[i]) == r.readPaths[i])
  }

  lemma StoredKeysAreKept<V>(m: map<Path, V>, stored: Stored)
    requires forall path {:trigger stored(path)} :: stored(stored(path)) == stored(path)
    ensures StoredKeys(m, stored) == m <==> KeysKept(m.Keys, stored)
  {
    if KeysKept(m.Keys, stored) {
      forall path ensures path in ImageOf(m.Keys, stored) <==> path in m {
        if path in m { assert stored(path) == path; }
      }
      forall path | path in m ensures StoredKeys(m, stored)[path] == m[path] {
        assert stored(SourceOf(m.Keys, stored, path)) == SourceOf(m.Keys, stored, path);
      }
    }
    if StoredKeys(m, stored) == m {
      forall path | path in m.Keys ensures stored(path) == path {
        assert path in StoredKeys(m, stored).Keys;
        assert stored(SourceOf(m.Keys, stored, path)) == path;
      }
    }
  }

  /**
   * A unit on which everything is as it was is reused exactly when storage keeps every path its identity names:
   * one that is not in NFC comes back as another, and reads as a file that is gone and a file that is new.
   */
  lemma UnchangedIsReusedIffNamesKept(current: Identity, base: UnitRecord, context: Context, stored: Stored)
    requires forall path {:trigger stored(path)} :: stored(stored(path)) == stored(path)
    requires AsItWas(current, base, context) && ListsKept(base, stored)
    ensures Reused(current, ReadBack(base, stored), context) <==> NamesKept(base.identity, stored)
  {
    hide RangeHash, ReadStill, Justified, ChangedKeys, StoredKeys, KeysKept;
    var back := ReadBack(base, stored);
    ReusedIffUnchanged(current, back, context);
    StoredKeysAreKept(base.identity.files, stored);
    StoredKeysAreKept(base.identity.imports, stored);
    StoredKeysAreKept(base.identity.manifests, stored);
    assert back.paths == base.paths && back.citedRanges == base.citedRanges && back.readPaths == base.readPaths;
  }

  // ----- Along a chain of bases

  /** One run's unit: where it ran, the lines it saw, and the record it left. */
  datatype Run = Run(unit: Unit, env: Environment, lines: map<Path, seq<Bytes>>, record: UnitRecord)

  /** What a finished unit records: its paths, its identity, and the hash of each range its findings cite. */
  ghost predicate GoodRun(r: Run) {
    && r.record.paths == r.unit.paths && IsIdentity(r.record.identity, r.unit, r.env)
    && (forall range {:trigger range in r.record.citedRanges} :: range in r.record.citedRanges ==>
          CitedHash(r.lines, range) == Some(range.digest))
  }

  /** What the decision of `next` looks at, with `base` as its base. */
  function ContextOf(base: Run, next: Run): Context {
    Context(next.lines, next.env.imports, Some(Files(base.env.snapshot.files, next.env.snapshot.files)))
  }

  /** The ranges are of the same lines of the same files, whatever the lines were. */
  ghost predicate SamePlaces(a: seq<CitedRange>, b: seq<CitedRange>) {
    |a| == |b| && forall i {:trigger a[i]} {:trigger b[i]} :: 0 <= i < |a| ==> b[i] == a[i].(digest := b[i].digest)
  }

  /** `next` reused the work of `base`: its decision gave no reason, and the
      answer it replayed reads the same files and cites the same places. */
  ghost predicate ReusedFrom(base: Run, next: Run) {
    && Reused(next.record.identity, base.record, ContextOf(base, next))
    && next.record.readPaths == base.record.readPaths
    && SamePlaces(base.record.citedRanges, next.record.citedRanges)
  }

  /** Everything the unit depended on, and every line its findings cite, is the same in both runs. */
  ghost predicate Unchanged(a: Run, b: Run) {
    && a.record.citedRanges == b.record.citedRanges
    && (forall range {:trigger range in a.record.citedRanges} :: range in a.record.citedRanges ==>
          CitedHash(a.lines, range) == CitedHash(b.lines, range))
    && a.unit.settings == b.unit.settings && SetOf(a.unit.paths) == SetOf(b.unit.paths)
    && (forall path {:trigger FileIn(a.env.snapshot, path)} :: path in SetOf(a.unit.paths) ==>
        FileIn(a.env.snapshot, path) == FileIn(b.env.snapshot, path))
    && (forall path {:trigger Outside(a, path)} :: Outside(a, path) <==> Outside(b, path))
    && (forall path {:trigger Outside(a, path)} :: Outside(a, path) ==>
        FileIn(a.env.snapshot, path) == FileIn(b.env.snapshot, path))
    && (forall path {:trigger ManifestAbove(a, path)} :: ManifestAbove(a, path) == ManifestAbove(b, path))
    && a.record.readPaths == b.record.readPaths
    && (forall path {:trigger path in a.record.readPaths} :: path in a.record.readPaths && path !in a.unit.paths ==>
        FileIn(a.env.snapshot, path) == FileIn(b.env.snapshot, path))
  }

  /** Reachable from the unit through imports, and not its own. */
  ghost predicate Outside(r: Run, path: Path) {
    Reachable(r.env.imports, SetOf(r.unit.paths), path) && path !in SetOf(r.unit.paths)
  }

  ghost predicate HoldsOne(paths: seq<Path>, directory: Path) {
    exists i :: 0 <= i < |paths| && LiesIn(paths[i], directory)
  }

  /** The manifest at a path in a directory some file of the unit lies in: none if there is none. */
  ghost function ManifestAbove(r: Run, path: Path): Option<ManifestHash> {
    if path in r.env.snapshot.manifests && (DirectoryOf(path) == [] || HoldsOne(r.unit.paths, DirectoryOf(path)))
    then Some(r.env.snapshot.manifests[path]) else None
  }

  lemma SameHashes(a: Snapshot, b: Snapshot, x: set<Path>, y: set<Path>)
    requires HashesOf(a, x) == HashesOf(b, y)
    ensures x == y && forall path :: path in x ==> FileIn(a, path) == FileIn(b, path)
  {
    assert HashesOf(a, x).Keys == x && HashesOf(b, y).Keys == y;
    forall path | path in x ensures FileIn(a, path) == FileIn(b, path) {
      assert HashesOf(a, x)[path] == HashesOf(b, y)[path];
    }
  }

  /** The identity names the manifests above the unit, each by its bytes. */
  lemma IdentityManifests(r: Run, path: Path)
    requires GoodRun(r)
    ensures ManifestAbove(r, path)
            == if path in r.record.identity.manifests then Some(r.record.identity.manifests[path]) else None
  {
    hide DirectoryOf, Ancestors, LiesIn, HashesOf, IsClosure;
    var directories :| Above(r.unit.paths, directories)
        && r.record.identity.manifests == ManifestsUnder(r.env.snapshot, directories);
    forall i | 0 <= i < |r.unit.paths|
      ensures DirectoryOf(path) in Ancestors(r.unit.paths[i]) <==> LiesIn(r.unit.paths[i], DirectoryOf(path))
    {
      AncestorsAreAbove(r.unit.paths[i], DirectoryOf(path));
    }
  }

  lemma IdentityImports(r: Run) returns (closure: set<Path>)
    requires GoodRun(r)
    ensures r.record.identity.imports == HashesOf(r.env.snapshot, closure)
    ensures forall path :: path in closure <==> Outside(r, path)
  {
    hide HashesOf, Above, ManifestsUnder, Reachable;
    closure :| IsClosure(r.env.imports, SetOf(r.unit.paths), closure)
        && r.record.identity.imports == HashesOf(r.env.snapshot, closure);
  }

  /** Where the file reaches to the end of the range, deciding hashes what recording does; the digest plays no part. */
  lemma RangeHashIsCited(lines: map<Path, seq<Bytes>>, range: CitedRange, digest: Digest)
    requires RangeHash(lines, range).Some?
    ensures CitedHash(lines, range.(digest := digest)) == RangeHash(lines, range) == CitedHash(lines, range)
  {
  }

  /** A decision to reuse means that the places cited read as the base recorded them: the digests are the base's. */
  lemma CitedAsBefore(base: Run, next: Run)
    requires GoodRun(base) && GoodRun(next) && ReusedFrom(base, next)
    ensures next.record.citedRanges == base.record.citedRanges
    ensures forall range {:trigger range in base.record.citedRanges} :: range in base.record.citedRanges ==>
              CitedHash(base.lines, range) == CitedHash(next.lines, range) == RangeHash(next.lines, range)
  {
    hide RangeHash, CitedHash, IsIdentity, ChangedKeys, Justified;
    ReusedIffUnchanged(next.record.identity, base.record, ContextOf(base, next));
    var was, now := base.record.citedRanges, next.record.citedRanges;
    forall i | 0 <= i < |was| ensures now[i] == was[i] {
      assert was[i] in was && now[i] in now;
      assert RangeHash(next.lines, was[i]) == Some(was[i].digest);
      RangeHashIsCited(next.lines, was[i], now[i].digest);
      assert CitedHash(next.lines, now[i]) == Some(now[i].digest);
    }
    forall range | range in was
      ensures CitedHash(base.lines, range) == CitedHash(next.lines, range) == RangeHash(next.lines, range)
    {
      RangeHashIsCited(next.lines, range, range.digest);
    }
  }

  /** Reusing a base's work means nothing the unit depended on changed since the base. */
  lemma ReuseIsSound(base: Run, next: Run)
    requires GoodRun(base) && GoodRun(next) && ReusedFrom(base, next)
    ensures Unchanged(base, next)
  {
    hide HashesOf, ManifestsUnder, Reachable, RangeHash, CitedHash, Outside, ManifestAbove, IsClosure, Above;
    CitedAsBefore(base, next);
    var context := ContextOf(base, next);
    ReusedIffUnchanged(next.record.identity, base.record, context);
    SameHashes(base.env.snapshot, next.env.snapshot, SetOf(base.unit.paths), SetOf(next.unit.paths));
    var x := IdentityImports(base);
    var y := IdentityImports(next);
    SameHashes(base.env.snapshot, next.env.snapshot, x, y);
    forall path ensures ManifestAbove(base, path) == ManifestAbove(next, path) {
      IdentityManifests(base, path);
      IdentityManifests(next, path);
    }
    forall path | path in base.record.readPaths && path !in base.unit.paths
      ensures FileIn(base.env.snapshot, path) == FileIn(next.env.snapshot, path)
    {
      assert ReadStill(context, path);
    }
  }

  lemma UnchangedTransitive(a: Run, b: Run, c: Run)
    requires Unchanged(a, b) && Unchanged(b, c)
    ensures Unchanged(a, c)
  {
    hide FileIn, Outside, ManifestAbove, CitedHash;
    forall range | range in a.record.citedRanges ensures CitedHash(a.lines, range) == CitedHash(c.lines, range) {
      assert range in b.record.citedRanges;
    }
    forall path ensures Outside(a, path) <==> Outside(c, path) {
      assert Outside(a, path) <==> Outside(b, path);
      assert Outside(b, path) <==> Outside(c, path);
    }
    forall path ensures ManifestAbove(a, path) == ManifestAbove(c, path) {
      assert ManifestAbove(a, path) == ManifestAbove(b, path);
      assert ManifestAbove(b, path) == ManifestAbove(c, path);
    }
    forall path | Outside(a, path) ensures FileIn(a.env.snapshot, path) == FileIn(c.env.snapshot, path) {
      assert Outside(b, path);
    }
    forall path | path in a.record.readPaths && path !in a.unit.paths
      ensures FileIn(a.env.snapshot, path) == FileIn(c.env.snapshot, path)
    {
      assert path in SetOf(a.unit.paths) <==> path in SetOf(b.unit.paths);
      assert path in b.record.readPaths && path !in b.unit.paths;
    }
    forall path | path in SetOf(a.unit.paths) ensures FileIn(a.env.snapshot, path) == FileIn(c.env.snapshot, path) {
      assert path in SetOf(b.unit.paths);
      assert FileIn(b.env.snapshot, path) == FileIn(c.env.snapshot, path);
    }
  }

  ghost predicate Chain(runs: seq<Run>) {
    && (forall i {:trigger runs[i]} :: 0 <= i < |runs| ==> GoodRun(runs[i]))
    && (forall i {:trigger runs[i]} :: 0 < i < |runs| ==> ReusedFrom(runs[i - 1], runs[i]))
  }

  /** However many runs reused one another's work, the last runs on exactly what the first depended on. */
  lemma {:induction false} ReuseIsSoundAlongChains(runs: seq<Run>)
    requires |runs| > 0 && Chain(runs)
    ensures Unchanged(runs[0], runs[|runs| - 1])
  {
    hide GoodRun, ReusedFrom, Unchanged;
    if |runs| == 1 {
      UnchangedReflexive(runs[0]);
    } else {
      var n := |runs| - 1;
      var front := runs[..n];
      assert forall i {:trigger front[i]} :: 0 <= i < n ==> front[i] == runs[i];
      assert Chain(front) by {
        forall i {:trigger front[i]} | 0 < i < n ensures ReusedFrom(front[i - 1], front[i]) {
          assert ReusedFrom(runs[i - 1], runs[i]);
        }
      }
      ReuseIsSoundAlongChains(front);
      assert GoodRun(runs[n - 1]) && ReusedFrom(runs[n - 1], runs[n]);
      ReuseIsSound(runs[n - 1], runs[n]);
      UnchangedTransitive(runs[0], runs[n - 1], runs[n]);
    }
  }

  lemma UnchangedReflexive(a: Run)
    ensures Unchanged(a, a)
  {
  }

  /** The lines the first run's findings cite are all there in the last, and read as the first run recorded them. */
  lemma CitedLinesStay(runs: seq<Run>, range: CitedRange)
    requires |runs| > 1 && Chain(runs) && range in runs[0].record.citedRanges
    ensures CitedHash(runs[0].lines, range) == Some(range.digest) == RangeHash(runs[|runs| - 1].lines, range)
    ensures CitedHash(runs[|runs| - 1].lines, range) == Some(range.digest)
            && range in runs[|runs| - 1].record.citedRanges
  {
    hide RangeHash, CitedHash, ChangedKeys, IsIdentity;
    var n := |runs| - 1;
    ReuseIsSoundAlongChains(runs);
    assert GoodRun(runs[0]) && GoodRun(runs[n - 1]) && GoodRun(runs[n]) && ReusedFrom(runs[n - 1], runs[n]);
    assert range in runs[n].record.citedRanges;
    CitedAsBefore(runs[n - 1], runs[n]);
  }

  /** So a range that the first run's file held whole reads the same, line by line, in the last run's. */
  lemma CitedLinesReadTheSame(runs: seq<Run>, range: CitedRange)
    requires |runs| > 1 && Chain(runs) && range in runs[0].record.citedRanges && 1 <= range.startLine <= range.endLine
    requires range.path in runs[0].lines && range.endLine <= |runs[0].lines[range.path]|
    requires forall run, path :: run in runs && path in run.lines ==> AreLines(run.lines[path])
    ensures var last := runs[|runs| - 1].lines;
            && range.path in last && range.endLine <= |last[range.path]|
            && last[range.path][range.startLine - 1..range.endLine]
               == runs[0].lines[range.path][range.startLine - 1..range.endLine]
  {
    hide Join, Chain, AreLines;
    CitedLinesStay(runs, range);
    assert CitedHash(runs[0].lines, range) == RangeHash(runs[0].lines, range);
    assert runs[0] in runs && runs[|runs| - 1] in runs;
    SameHashIffSameLines(runs[0].lines, runs[|runs| - 1].lines, range);
  }

  // ----- One identity

  /** A unit has one identity in an environment: what a run records does not depend on how it walked the imports. */
  lemma IdentityIsUnique(a: Identity, b: Identity, unit: Unit, env: Environment)
    requires IsIdentity(a, unit, env) && IsIdentity(b, unit, env)
    ensures a == b
  {
    hide HashesOf, ManifestsUnder, IsClosure, Ancestors;
    var own := SetOf(unit.paths);
    var x :| IsClosure(env.imports, own, x) && a.imports == HashesOf(env.snapshot, x);
    var y :| IsClosure(env.imports, own, y) && b.imports == HashesOf(env.snapshot, y);
    ClosureIsUnique(env.imports, own, x, y);
    var d :| Above(unit.paths, d) && a.manifests == ManifestsUnder(env.snapshot, d);
    var e :| Above(unit.paths, e) && b.manifests == ManifestsUnder(env.snapshot, e);
    assert d == e;
  }
}
