/**
 The codemod around the renaming: what a transformation reads, the cache of its
 results, the manifest that lists the files and the two-phase write.
 */
module Codemod {
  import opened DottedNames
  import opened ManifestPaths
  import opened Replacements

  /** A JSON object as Python holds it: keys in insertion order. */
  type Dict = seq<(string, string)>

  function AsMap(d: Dict): map<string, string> {
    if d == [] then map[] else AsMap(d[..|d| - 1])[d[|d| - 1].0 := d[|d| - 1].1]
  }

  function KeysOf(d: Dict): seq<string> {
    if d == [] then [] else KeysOf(d[..|d| - 1]) + [d[|d| - 1].0]
  }

  /** A later entry replaces an earlier one of the same key: a file's own options win over the
      manifest's. */
  lemma {:induction false} LastWins(d: Dict, k: string)
    ensures k in AsMap(d) <==> exists i :: 0 <= i < |d| && d[i].0 == k
    ensures forall i :: 0 <= i < |d| && d[i].0 == k && (forall j :: i < j < |d| ==> d[j].0 != k) ==>
              k in AsMap(d) && AsMap(d)[k] == d[i].1
    decreases |d|
  {
    if d != [] {
      var n := |d| - 1;
      LastWins(d[..n], k);
      assert forall i :: 0 <= i < n ==> d[..n][i] == d[i];
      if d[n].0 == k { assert d[n].0 == k; }
    }
  }

  datatype Options = Options(sourceHash: Option<string>, moduleMap: Dict, literalMap: Dict,
                             replacements: seq<Replacement>)

  datatype Entry = Entry(oldPath: string, newPath: string, oldModule: string, newModule: string, isPackage: bool,
                         options: Options)

  datatype Manifest = Manifest(files: seq<Entry>, moduleMap: Dict, literalMap: Dict)

  // ----- the parts not modelled here: parsing, the tree rewrite, digests -----

  /** The syntax engine: the names a source looks up, the text it emits for the answers,
      and whether a text parses. Digests are injective, so a text stands for its digest. */
  datatype Engine = Engine(
    lookups: (nat, string, string, bool) -> seq<string>,
    emit: (nat, string, string, bool, seq<(Option<string>, string)>, map<string, string>) -> Result<string>,
    parses: string -> bool
  )

  function Answers(m: map<string, string>, prefixes: seq<string>, names: seq<string>): seq<(Option<string>, string)> {
    if names == [] then []
    else [(Match(prefixes, names[0]), Rename(m, prefixes, names[0]))] + Answers(m, prefixes, names[1..])
  }

  /** The whole transformation of one file, reading the mappings in their written order. */
  function TransformSource(g: Engine, tool: nat, source: string, e: Entry, mf: Manifest): Result<string> {
    if e.options.sourceHash.Some? && e.options.sourceHash.value != source then Err
    else
      var names := mf.moduleMap + e.options.moduleMap;
      var answers := Answers(AsMap(names), Sorted(KeysOf(names)), g.lookups(tool, source, e.oldModule, e.isPackage));
      Finish(g, g.emit(tool, source, e.oldModule, e.isPackage, answers, AsMap(mf.literalMap + e.options.literalMap)),
             e.options.replacements)
  }

  function Finish(g: Engine, emitted: Result<string>, rs: seq<Replacement>): Result<string> {
    if emitted.Err? then Err
    else
      var out := ApplyReplacements(emitted.value, rs);
      if out.Err? || !g.parses(out.value) then Err else out
  }

  // ----- the cache key -----

  /** The digest's preimage. Objects are written with sorted keys, so only their contents count. */
  datatype Inputs = Inputs(
    tool: nat, source: string, oldModule: string, newModule: string, isPackage: bool,
    sourceHash: Option<string>, replacements: seq<Replacement>,
    ownModules: map<string, string>, ownLiterals: map<string, string>,
    moduleMap: map<string, string>, literalMap: map<string, string>)

  function InputsOf(tool: nat, source: string, e: Entry, mf: Manifest): Inputs {
    Inputs(tool, source, e.oldModule, e.newModule, e.isPackage, e.options.sourceHash, e.options.replacements,
           AsMap(e.options.moduleMap), AsMap(e.options.literalMap),
           AsMap(mf.moduleMap + e.options.moduleMap), AsMap(mf.literalMap + e.options.literalMap))
  }

  /** The component-wise answers, which know no order. */
  ghost function PlainAnswers(m: map<string, string>, names: seq<string>): seq<(Option<string>, string)> {
    if names == [] then []
    else
      var n := Split(names[0]);
      var k := LongestKey(Components(m), n, |n|);
      [(if k.Some? then Some(Join(n[..k.value])) else None, Join(RenameName(Components(m), n)))]
      + PlainAnswers(m, names[1..])
  }

  /** The result, from the key's preimage alone. */
  ghost function FromInputs(g: Engine, k: Inputs): Result<string> {
    if k.sourceHash.Some? && k.sourceHash.value != k.source then Err
    else
      var answers := PlainAnswers(k.moduleMap, g.lookups(k.tool, k.source, k.oldModule, k.isPackage));
      Finish(g, g.emit(k.tool, k.source, k.oldModule, k.isPackage, answers, k.literalMap), k.replacements)
  }

  lemma {:induction false} KeysListed(d: Dict)
    ensures Lists(KeysOf(d), AsMap(d))
    decreases |d|
  {
    if d != [] { KeysListed(d[..|d| - 1]); }
  }

  lemma {:induction false} AnswersIgnoreOrder(m: map<string, string>, prefixes: seq<string>, names: seq<string>)
    requires LongestFirst(prefixes) && Lists(prefixes, m)
    ensures Answers(m, prefixes, names) == PlainAnswers(m, names)
    decreases |names|
  {
    if names != [] {
      hide Split, Join, Rename, RenameName, Components, Match, LongestKey;
      RenameIsComponentwise(m, prefixes, names[0]);
      LongestKeyAgrees(m, prefixes, names[0]);
      JoinSplit(Rename(m, prefixes, names[0]));
      var matched := Match(prefixes, names[0]);
      if matched.Some? { JoinSplit(matched.value); }
      AnswersIgnoreOrder(m, prefixes, names[1..]);
    }
  }

  /** The key covers everything the transformation reads: its result is a function of the
      key, so neither the order of a mapping nor anything outside the key can change it. */
  lemma KeyCoversInputs(g: Engine, tool: nat, source: string, e: Entry, mf: Manifest)
    ensures TransformSource(g, tool, source, e, mf) == FromInputs(g, InputsOf(tool, source, e, mf))
  {
    var names := mf.moduleMap + e.options.moduleMap;
    KeysListed(names);
    assert Lists(Sorted(KeysOf(names)), AsMap(names));
    AnswersIgnoreOrder(AsMap(names), Sorted(KeysOf(names)), g.lookups(tool, source, e.oldModule, e.isPackage));
  }

  /** `out` is what the engine emits for the component-wise answers, edited by the reviewed
      replacements one after the other, from a source that is the frozen one, if one is frozen. */
  ghost predicate Transformed(g: Engine, tool: nat, source: string, e: Entry, mf: Manifest, out: string) {
    && (e.options.sourceHash.Some? ==> e.options.sourceHash.value == source)
    && g.parses(out)
    && exists texts :: Edits(texts, e.options.replacements) && texts[|e.options.replacements|] == out
                       && Ok(texts[0]) == Emitted(g, tool, source, e, mf)
  }

  ghost function Emitted(g: Engine, tool: nat, source: string, e: Entry, mf: Manifest): Result<string> {
    var renames := AsMap(mf.moduleMap + e.options.moduleMap);
    var literals := AsMap(mf.literalMap + e.options.literalMap);
    g.emit(tool, source, e.oldModule, e.isPackage,
           PlainAnswers(renames, g.lookups(tool, source, e.oldModule, e.isPackage)), literals)
  }

  lemma TransformIff(g: Engine, tool: nat, source: string, e: Entry, mf: Manifest, out: string)
    ensures TransformSource(g, tool, source, e, mf) == Ok(out) <==> Transformed(g, tool, source, e, mf, out)
  {
    hide ApplyReplacements, Edits, TransformSource, PlainAnswers, AsMap;
    KeyCoversInputs(g, tool, source, e, mf);
    var emitted := Emitted(g, tool, source, e, mf);
    if emitted.Ok? { ApplyIff(emitted.value, e.options.replacements, out); }
  }

  // ----- the cache -----

  /** What a cache file holds; the digest is that of some text. */
  datatype Record = Record(key: Inputs, output: string, digest: string)

  predicate Accepts(r: Record, key: Inputs) {
    r.key == key && r.digest == r.output
  }

  type Directory = map<Inputs, Record>

  /** Every record that would be accepted holds the transformation's result. */
  ghost predicate Sound(g: Engine, d: Directory) {
    forall k :: k in d && Accepts(d[k], k) ==> FromInputs(g, k) == Ok(d[k].output)
  }

  datatype CacheEvent =
    | Transform(tool: nat, source: string, entry: Entry, manifest: Manifest)
    | Delete(key: Inputs)
    | Corrupt(key: Inputs, record: Record)

  function Lookup(d: Directory, key: Inputs): Option<string> {
    if key in d && Accepts(d[key], key) then Some(d[key].output) else None
  }

  function CachedTransform(g: Engine, d: Directory, tool: nat, source: string, e: Entry,
                           mf: Manifest): (Directory, Result<string>) {
    var key := InputsOf(tool, source, e, mf);
    match Lookup(d, key)
    case Some(out) => (d, Ok(out))
    case None =>
      var r := TransformSource(g, tool, source, e, mf);
      (if r.Ok? then d[key := Record(key, r.value, r.value)] else d, r)
  }

  /** A directory after one event, with the text returned if it was a transformation.
      A corrupted record is any record that validation rejects. */
  function CacheStep(g: Engine, d: Directory, ev: CacheEvent): (Directory, Option<Result<string>>) {
    match ev
    case Transform(tool, source, e, mf) =>
      var (d', r) := CachedTransform(g, d, tool, source, e, mf);
      (d', Some(r))
    case Delete(key) => (d - {key}, None)
    case Corrupt(key, record) => (if Accepts(record, key) then d else d[key := record], None)
  }

  function CacheRun(g: Engine, d: Directory, evs: seq<CacheEvent>): seq<Option<Result<string>>>
    decreases |evs|
  {
    if evs == [] then []
    else
      var (d', r) := CacheStep(g, d, evs[0]);
      [r] + CacheRun(g, d', evs[1..])
  }

  /** What the run would return without a cache. */
  function Recompute(g: Engine, evs: seq<CacheEvent>): seq<Option<Result<string>>>
    decreases |evs|
  {
    if evs == [] then []
    else
      [if evs[0].Transform?
       then Some(TransformSource(g, evs[0].tool, evs[0].source, evs[0].entry, evs[0].manifest)) else None]
      + Recompute(g, evs[1..])
  }

  lemma CacheStepSound(g: Engine, d: Directory, ev: CacheEvent)
    requires Sound(g, d)
    ensures Sound(g, CacheStep(g, d, ev).0)
    ensures ev.Transform? ==>
              CacheStep(g, d, ev).1 == Some(TransformSource(g, ev.tool, ev.source, ev.entry, ev.manifest))
  {
    hide FromInputs, TransformSource, InputsOf;
    if ev.Transform? { KeyCoversInputs(g, ev.tool, ev.source, ev.entry, ev.manifest); }
  }

  /** The cache refines recomputation: over any sequence of transformations — of any sources,
      manifests and tool versions — deletions and corruptions, every answer is the one a
      fresh transformation gives. */
  lemma {:induction false} CacheRefinesRecomputation(g: Engine, d: Directory, evs: seq<CacheEvent>)
    requires Sound(g, d)
    ensures CacheRun(g, d, evs) == Recompute(g, evs)
    decreases |evs|
  {
    if evs != [] {
      hide Sound, TransformSource;
      CacheStepSound(g, d, evs[0]);
      CacheRefinesRecomputation(g, CacheStep(g, d, evs[0]).0, evs[1..]);
    }
  }

  /** The directory holds an intact record of the transformation. */
  predicate Remembered(d: Directory, key: Inputs) {
    key in d && d[key].key == key && d[key].digest == d[key].output
  }

  /** A transformation that yields a text is remembered: repeated by itself, in any sequence that leaves
      its record alone, it is answered from the cache. */
  lemma RepeatIsAHit(g: Engine, d: Directory, tool: nat, source: string, e: Entry, mf: Manifest,
                     evs: seq<CacheEvent>)
    requires Sound(g, d) && TransformSource(g, tool, source, e, mf).Ok?
    requires forall ev :: ev in evs ==> ev.Transform? || ev.key != InputsOf(tool, source, e, mf)
    ensures Remembered(After(g, CachedTransform(g, d, tool, source, e, mf).0, evs), InputsOf(tool, source, e, mf))
  {
    hide TransformSource, InputsOf, After;
    var d' := CachedTransform(g, d, tool, source, e, mf).0;
    CacheStepSound(g, d, Transform(tool, source, e, mf));
    StaysRemembered(g, d', InputsOf(tool, source, e, mf), evs);
  }

  /** The directory after some events. */
  function After(g: Engine, d: Directory, evs: seq<CacheEvent>): Directory
    decreases |evs|
  {
    if evs == [] then d else After(g, CacheStep(g, d, evs[0]).0, evs[1..])
  }

  lemma {:induction false} StaysRemembered(g: Engine, d: Directory, key: Inputs, evs: seq<CacheEvent>)
    requires Remembered(d, key) && forall ev :: ev in evs ==> ev.Transform? || ev.key != key
    ensures Remembered(After(g, d, evs), key)
    decreases |evs|
  {
    hide TransformSource, InputsOf;
    if evs != [] {
      assert evs[0] in evs;
      StaysRemembered(g, CacheStep(g, d, evs[0]).0, key, evs[1..]);
    }
  }

  class TransformCache {
    const g: Engine
    var directory: Directory
    var hits: nat

    constructor (g: Engine, directory: Directory)
      ensures this.g == g && this.directory == directory && hits == 0
    {
      this.g, this.directory, hits := g, directory, 0;
    }

    method TransformFile(tool: nat, source: string, e: Entry, mf: Manifest) returns (r: Result<string>)
      requires Sound(g, directory)
      modifies this
      ensures Sound(g, directory) && r == TransformSource(g, tool, source, e, mf)
      ensures forall out :: r == Ok(out) <==> Transformed(g, tool, source, e, mf, out)
      ensures directory == CachedTransform(g, old(directory), tool, source, e, mf).0
      ensures hits == old(hits) + if Remembered(old(directory), InputsOf(tool, source, e, mf)) then 1 else 0
    {
      hide Transformed, TransformSource;
      forall out ensures TransformSource(g, tool, source, e, mf) == Ok(out)
                    <==> Transformed(g, tool, source, e, mf, out)
      {
        TransformIff(g, tool, source, e, mf, out);
      }
      CacheStepSound(g, directory, Transform(tool, source, e, mf));
      var key := InputsOf(tool, source, e, mf);
      var cached := Lookup(directory, key);
      if cached.Some? {
        hits := hits + 1;
        return Ok(cached.value);
      }
      r := TransformSource(g, tool, source, e, mf);
      if r.Ok? {
        directory := directory[key := Record(key, r.value, r.value)];
      }
    }
  }

  // ----- the manifest -----

  ghost predicate DistinctPaths(files: seq<Entry>) {
    forall i, j :: 0 <= i < j < |files| ==> files[i].oldPath != files[j].oldPath && files[i].newPath != files[j].newPath
  }

  /** The files' own module mappings contradict neither the given map nor each other. */
  ghost predicate Compatible(m: map<string, string>, files: seq<Entry>) {
    && (forall i :: 0 <= i < |files| && files[i].oldModule in m ==> m[files[i].oldModule] == files[i].newModule)
    && forall i, j :: 0 <= i < j < |files| && files[i].oldModule == files[j].oldModule ==>
         files[i].newModule == files[j].newModule
  }

  /** `modules` is `m` and the files' own mappings, and nothing else. */
  ghost predicate Merged(m: map<string, string>, files: seq<Entry>, modules: map<string, string>) {
    && m.Keys <= modules.Keys
    && (forall k :: k in m ==> modules[k] == m[k])
    && (forall i :: 0 <= i < |files| ==>
          files[i].oldModule in modules && modules[files[i].oldModule] == files[i].newModule)
    && forall k :: k in modules ==> k in m || exists i :: 0 <= i < |files| && files[i].oldModule == k
  }

  lemma NoFiles(m: map<string, string>)
    ensures DistinctPaths([]) && Compatible(m, []) && Merged(m, [], m)
  {
  }

  /** Dotted identifiers. */
  predicate IsDotted(s: string) {
    forall part :: part in Split(s) ==> IsIdentifier(part)
  }

  predicate AllDotted(m: map<string, string>) {
    forall k :: k in m ==> IsDotted(k) && IsDotted(m[k])
  }

  /** The entries with their paths as they are stored. */
  function Stored(raws: seq<Entry>): (files: seq<Entry>)
    ensures |files| == |raws|
    ensures forall i :: 0 <= i < |raws| ==>
              files[i] == raws[i].(oldPath := Normal(raws[i].oldPath), newPath := Normal(raws[i].newPath))
  {
    if raws == [] then []
    else
      var e := raws[|raws| - 1];
      Stored(raws[..|raws| - 1]) + [e.(oldPath := Normal(e.oldPath), newPath := Normal(e.newPath))]
  }

  ghost predicate SafePaths(raws: seq<Entry>) {
    forall i :: 0 <= i < |raws| ==> SafePath(raws[i].oldPath) && SafePath(raws[i].newPath)
  }

  ghost predicate DottedModules(m: map<string, string>, files: seq<Entry>) {
    AllDotted(m) && forall i :: 0 <= i < |files| ==> IsDotted(files[i].oldModule) && IsDotted(files[i].newModule)
  }

  lemma MergedIsDottedIff(m: map<string, string>, files: seq<Entry>, modules: map<string, string>)
    requires Merged(m, files, modules)
    ensures AllDotted(modules) <==> DottedModules(m, files)
  {
    hide IsDotted;
  }

  /** Load the manifest: version one, at least one file, paths inside the repository, each
      path once as a source and once as a destination, one mapping for every module, and
      dotted names throughout. */
  method LoadFiles(version: Option<int>, m: map<string, string>, raws: seq<Entry>)
    returns (ok: bool, files: seq<Entry>, modules: map<string, string>)
    ensures ok <==> version == Some(1) && raws != [] && SafePaths(raws) && DistinctPaths(Stored(raws))
                    && Compatible(m, Stored(raws)) && DottedModules(m, Stored(raws))
    ensures ok ==> files == Stored(raws) && Merged(m, files, modules)
  {
    hide DistinctPaths, Compatible, Merged, AllDotted, DottedModules, SafePath, Normal, Stored;
    ghost var all := Stored(raws);
    NoFiles(m);
    assert all[..0] == [];
    var sources: set<string>, destinations: set<string> := {}, {};
    files, modules := [], m;
    if version != Some(1) { return false, files, modules; }
    for n := 0 to |raws|
      invariant files == all[..n] && SafePaths(raws[..n])
      invariant sources == set i | 0 <= i < n :: all[i].oldPath
      invariant destinations == set i | 0 <= i < n :: all[i].newPath
      invariant DistinctPaths(all[..n]) && Compatible(m, all[..n])
      invariant Merged(m, all[..n], modules)
    {
      var raw := raws[n];
      if !SafePath(raw.oldPath) || !SafePath(raw.newPath) {
        return false, files, modules;
      }
      var e := raw.(oldPath := Normal(raw.oldPath), newPath := Normal(raw.newPath));
      assert all[..n + 1] == all[..n] + [e];
      AddFile(m, all, n, modules);
      if e.oldPath in sources || e.newPath in destinations {
        return false, files, modules;
      }
      if e.oldModule in modules && modules[e.oldModule] != e.newModule {
        return false, files, modules;
      }
      sources, destinations := sources + {e.oldPath}, destinations + {e.newPath};
      files, modules := files + [e], modules[e.oldModule := e.newModule];
    }
    assert all[..|raws|] == all && raws[..|raws|] == raws;
    MergedIsDottedIff(m, files, modules);
    ok := files != [] && AllDotted(modules);
  }

  /** One more file: what the two checks of the loop decide. */
  lemma AddFile(m: map<string, string>, files: seq<Entry>, n: nat, modules: map<string, string>)
    requires n < |files| && DistinctPaths(files[..n]) && Compatible(m, files[..n]) && Merged(m, files[..n], modules)
    ensures var e := files[n];
            && (DistinctPaths(files[..n + 1]) <==>
                  forall i :: 0 <= i < n ==> files[i].oldPath != e.oldPath && files[i].newPath != e.newPath)
            && (Compatible(m, files[..n + 1]) <==> e.oldModule !in modules || modules[e.oldModule] == e.newModule)
            && (Compatible(m, files[..n + 1]) ==> Merged(m, files[..n + 1], modules[e.oldModule := e.newModule]))
            && (!DistinctPaths(files[..n + 1]) ==> !DistinctPaths(files))
            && (!Compatible(m, files[..n + 1]) ==> !Compatible(m, files))
  {
    hide *;
    var a, b, e := files[..n], files[..n + 1], files[n];
    assert b == a + [e];
    AddPath(a, e);
    AddModule(m, a, e, modules);
    if e.oldModule !in modules || modules[e.oldModule] == e.newModule { AddMerged(m, a, e, modules); }
    Prefixes(m, files, n + 1);
    assert forall i :: 0 <= i < n ==> a[i] == files[i];
  }

  lemma AddPath(a: seq<Entry>, e: Entry)
    requires DistinctPaths(a)
    ensures DistinctPaths(a + [e])
      <==> forall i :: 0 <= i < |a| ==> a[i].oldPath != e.oldPath && a[i].newPath != e.newPath
  {
    var b := a + [e];
    assert b[|a|] == e && forall i :: 0 <= i < |a| ==> b[i] == a[i];
  }

  lemma AddModule(m: map<string, string>, a: seq<Entry>, e: Entry, modules: map<string, string>)
    requires Compatible(m, a) && Merged(m, a, modules)
    ensures Compatible(m, a + [e]) <==> e.oldModule !in modules || modules[e.oldModule] == e.newModule
  {
    var b := a + [e];
    assert b[|a|] == e && forall i :: 0 <= i < |a| ==> b[i] == a[i];
    if e.oldModule in modules && e.oldModule !in m {
      var i :| 0 <= i < |a| && a[i].oldModule == e.oldModule;
      assert b[i].oldModule == b[|a|].oldModule;
    }
  }

  lemma AddMerged(m: map<string, string>, a: seq<Entry>, e: Entry, modules: map<string, string>)
    requires Merged(m, a, modules) && (e.oldModule !in modules || modules[e.oldModule] == e.newModule)
    ensures Merged(m, a + [e], modules[e.oldModule := e.newModule])
  {
    var b := a + [e];
    assert b[|a|] == e && forall i :: 0 <= i < |a| ==> b[i] == a[i];
  }

  lemma Prefixes(m: map<string, string>, files: seq<Entry>, n: nat)
    requires n <= |files|
    ensures DistinctPaths(files) ==> DistinctPaths(files[..n])
    ensures Compatible(m, files) ==> Compatible(m, files[..n])
  {
  }

  // ----- the write -----

  type Files = map<string, string>

  /** The transform of each listed file, as read from `fs`. */
  function Output(g: Engine, tool: nat, mf: Manifest, fs: Files, i: nat): Result<string>
    requires i < |mf.files|
  {
    var e := mf.files[i];
    if e.oldPath !in fs then Err else TransformSource(g, tool, fs[e.oldPath], e, mf)
  }

  /** The file is there and its transformation yields a text. */
  ghost predicate Transformable(g: Engine, tool: nat, mf: Manifest, fs: Files, i: nat)
    requires i < |mf.files|
  {
    mf.files[i].oldPath in fs
    && exists out :: Transformed(g, tool, fs[mf.files[i].oldPath], mf.files[i], mf, out)
  }

  lemma OutputIff(g: Engine, tool: nat, mf: Manifest, fs: Files, i: nat)
    requires i < |mf.files|
    ensures Output(g, tool, mf, fs, i).Ok? <==> Transformable(g, tool, mf, fs, i)
    ensures Output(g, tool, mf, fs, i).Ok? ==>
              && mf.files[i].oldPath in fs
              && Transformed(g, tool, fs[mf.files[i].oldPath], mf.files[i], mf, Output(g, tool, mf, fs, i).value)
  {
    hide Transformed, TransformSource;
    var e := mf.files[i];
    if e.oldPath in fs {
      forall out ensures TransformSource(g, tool, fs[e.oldPath], e, mf) == Ok(out)
                    <==> Transformed(g, tool, fs[e.oldPath], e, mf, out)
      {
        TransformIff(g, tool, fs[e.oldPath], e, mf, out);
      }
    }
  }

  class Repository {
    var fs: Files

    constructor (fs: Files)
      ensures this.fs == fs
    {
      this.fs := fs;
    }

    /** Compute every result first, then write. With distinct destinations the write is a
        simultaneous substitution: each output is the transform of the original source, even
        where destinations are sources of other files; on any failure nothing is written. */
    method Apply(g: Engine, tool: nat, mf: Manifest, write: bool) returns (ok: bool)
      requires DistinctPaths(mf.files)
      modifies this
      ensures ok <==> forall i :: 0 <= i < |mf.files| ==> Transformable(g, tool, mf, old(fs), i)
      ensures !(ok && write) ==> fs == old(fs)
      ensures ok && write ==>
                && (forall i :: 0 <= i < |mf.files| ==>
                      var e := mf.files[i];
                      && e.oldPath in old(fs) && e.newPath in fs
                      && Transformed(g, tool, old(fs)[e.oldPath], e, mf, fs[e.newPath]))
                && (forall p :: (forall i :: 0 <= i < |mf.files| ==> mf.files[i].newPath != p) ==>
                      (p in fs <==> p in old(fs)) && (p in old(fs) ==> fs[p] == old(fs)[p]))
    {
      hide Transformed, TransformSource, Output;
      var outputs := Prepare(g, tool, mf);
      forall i | 0 <= i < |mf.files|
        ensures Output(g, tool, mf, fs, i).Ok? <==> Transformable(g, tool, mf, fs, i)
        ensures Output(g, tool, mf, fs, i).Ok? ==>
                  && mf.files[i].oldPath in fs
                  && Transformed(g, tool, fs[mf.files[i].oldPath], mf.files[i], mf, Output(g, tool, mf, fs, i).value)
      {
        OutputIff(g, tool, mf, fs, i);
      }
      if outputs.Err? {
        return false;
      }
      if write {
        WriteOutputs(mf, outputs.value);
      }
      ok := true;
    }

    method Prepare(g: Engine, tool: nat, mf: Manifest) returns (r: Result<seq<string>>)
      ensures r.Ok? <==> forall i :: 0 <= i < |mf.files| ==> Output(g, tool, mf, fs, i).Ok?
      ensures r.Ok? ==> |r.value| == |mf.files|
                        && forall i :: 0 <= i < |mf.files| ==> Output(g, tool, mf, fs, i) == Ok(r.value[i])
    {
      hide Output;
      var outputs: seq<string> := [];
      var failed := false;
      for i := 0 to |mf.files|
        invariant failed <==> exists k :: 0 <= k < i && Output(g, tool, mf, fs, k).Err?
        invariant !failed ==> |outputs| == i && forall k :: 0 <= k < i ==> Output(g, tool, mf, fs, k) == Ok(outputs[k])
      {
        var r := Output(g, tool, mf, fs, i);
        if r.Ok? {
          outputs := outputs + [r.value];
        } else {
          failed := true;
        }
      }
      if failed {
        return Err;
      }
      return Ok(outputs);
    }

    method WriteOutputs(mf: Manifest, outputs: seq<string>)
      requires DistinctPaths(mf.files) && |outputs| == |mf.files|
      modifies this
      ensures forall i :: 0 <= i < |mf.files| ==> mf.files[i].newPath in fs && fs[mf.files[i].newPath] == outputs[i]
      ensures forall p :: (forall i :: 0 <= i < |mf.files| ==> mf.files[i].newPath != p) ==>
                (p in fs <==> p in old(fs)) && (p in old(fs) ==> fs[p] == old(fs)[p])
    {
      for i := 0 to |mf.files|
        invariant forall k :: 0 <= k < i ==> mf.files[k].newPath in fs && fs[mf.files[k].newPath] == outputs[k]
        invariant forall p :: (forall k :: 0 <= k < i ==> mf.files[k].newPath != p) ==>
                    (p in fs <==> p in old(fs)) && (p in old(fs) ==> fs[p] == old(fs)[p])
      {
        fs := fs[mf.files[i].newPath := outputs[i]];
      }
    }
  }
}
