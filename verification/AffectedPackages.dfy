/** Selecting the packages whose tests a set of changed files can break. */
module AffectedPackages {
  import opened Results

  /** A workspace manifest; an absent name is "". */
  datatype Manifest = Manifest(dir: string, name: string, dependencies: set<string>, devDependencies: set<string>)

  datatype WorkspaceGraph = WorkspaceGraph(
    nameToDir: map<string, string>,
    deps: map<string, set<string>>,
    dependents: map<string, set<string>>)

  const GLOBAL_FILE_PATTERNS: seq<string> := [
    "bunfig.toml", "package.json", "bun.lock", "bun.lockb", "tsconfig.json", "tsconfig.base.json",
    "scripts/test-preload.ts"]

  const PACKAGES := "packages/"
  const MANIFEST := "/package.json"
  const SCOPE := "@bound/"

  // ----- paths -----

  function Slashed(path: string): string {
    if path == [] then [] else [if path[0] == '\\' then '/' else path[0]] + Slashed(path[1..])
  }

  predicate EndsWith(s: string, suffix: string) {
    |suffix| <= |s| && s[|s| - |suffix|..] == suffix
  }

  function PkgDirFromGlobMatch(path: string): string {
    var slashed := Slashed(path);
    if EndsWith(slashed, MANIFEST) then slashed[..|slashed| - |MANIFEST|] else slashed
  }

  predicate IsGlobalFile(file: string) {
    file in GLOBAL_FILE_PATTERNS
  }

  function SlashAt(s: string, from: nat): nat
    requires from <= |s|
    decreases |s| - from
  {
    if from == |s| || s[from] == '/' then from else SlashAt(s, from + 1)
  }

  function PackageDirForFile(file: string): Option<string> {
    if !(PACKAGES <= file) then None
    else
      SlashInRange(file, |PACKAGES|);
      var end := SlashAt(file, |PACKAGES|);
      if |PACKAGES| < end < |file| then Some(file[..end]) else None
  }

  lemma {:induction false} SlashInRange(s: string, from: nat)
    requires from <= |s|
    ensures var end := SlashAt(s, from);
      from <= end <= |s| && (end < |s| ==> s[end] == '/') && forall k :: from <= k < end ==> s[k] != '/'
    decreases |s| - from
  {
    if from < |s| && s[from] != '/' {
      SlashInRange(s, from + 1);
    }
  }

  predicate IsSegment(segment: string) {
    segment != [] && forall k :: 0 <= k < |segment| ==> segment[k] != '/'
  }

  /** A file belongs to `packages/<segment>` exactly when it lies below that directory. */
  lemma PackageDirExact(file: string, segment: string, rest: string)
    requires IsSegment(segment)
    ensures PackageDirForFile(PACKAGES + segment + "/" + rest) == Some(PACKAGES + segment)
    ensures PackageDirForFile(file).Some? ==>
      var dir := PackageDirForFile(file).value;
      dir + "/" <= file && PACKAGES <= dir && IsSegment(dir[|PACKAGES|..])
  {
    var inside := PACKAGES + segment + "/" + rest;
    var end := |PACKAGES| + |segment|;
    assert inside[end] == '/' && inside[..end] == PACKAGES + segment;
    assert forall k :: |PACKAGES| <= k < end ==> inside[k] == segment[k - |PACKAGES|];
    SlashInRange(inside, |PACKAGES|);
    if PackageDirForFile(file).Some? {
      SlashInRange(file, |PACKAGES|);
      var dir := PackageDirForFile(file).value;
      assert file[..|dir| + 1] == dir + "/";
    }
  }

  lemma {:induction false} SlashedAppend(a: string, b: string)
    ensures Slashed(a + b) == Slashed(a) + Slashed(b)
  {
    if a == [] {
      assert a + b == b;
    } else {
      SlashedAppend(a[1..], b);
      assert (a + b)[1..] == a[1..] + b;
    }
  }

  lemma {:induction false} SlashedKeeps(s: string)
    requires '\\' !in s
    ensures Slashed(s) == s
  {
    if s != [] {
      SlashedKeeps(s[1..]);
    }
  }

  lemma SlashedJoin(a: string, segment: string, b: string, separator: char)
    requires '\\' !in a && '\\' !in segment && '\\' !in b && (separator == '/' || separator == '\\')
    ensures Slashed(a + [separator] + segment + [separator] + b) == a + "/" + segment + "/" + b
  {
    SlashedAppend(a + [separator] + segment + [separator], b);
    SlashedAppend(a + [separator] + segment, [separator]);
    SlashedAppend(a + [separator], segment);
    SlashedAppend(a, [separator]);
    SlashedKeeps(a);
    SlashedKeeps(b);
    SlashedKeeps(segment);
    assert Slashed([separator]) == "/" by { assert [separator][1..] == []; }
  }

  lemma KeysMatch(segment: string, rest: string, separator: char, a: string, b: string)
    requires IsSegment(segment) && '\\' !in segment && (separator == '/' || separator == '\\')
    requires a + "/" == PACKAGES && "/" + b == MANIFEST
    ensures Some(PkgDirFromGlobMatch(a + [separator] + segment + [separator] + b))
         == PackageDirForFile(PACKAGES + segment + "/" + rest)
  {
    assert '\\' !in a by { assert forall c :: c in a ==> c in PACKAGES; }
    assert '\\' !in b by { assert forall c :: c in b ==> c in "/" + b; }
    SlashedJoin(a, segment, b, separator);
    var slashed := a + "/" + segment + "/" + b;
    assert slashed == PACKAGES + segment + MANIFEST;
    assert slashed[|slashed| - |MANIFEST|..] == MANIFEST;
    assert slashed[..|slashed| - |MANIFEST|] == PACKAGES + segment;
    PackageDirExact("", segment, rest);
  }

  /** With either separator, the directory of a manifest is the one that files of the package
      are mapped to. */
  lemma GraphKeysMatchFiles(segment: string, rest: string, separator: char)
    requires IsSegment(segment) && '\\' !in segment && (separator == '/' || separator == '\\')
    ensures Some(PkgDirFromGlobMatch("packages" + [separator] + segment + [separator] + "package.json"))
         == PackageDirForFile("packages/" + segment + "/" + rest)
  {
    assert "packages" + "/" == PACKAGES && "/" + "package.json" == MANIFEST;
    KeysMatch(segment, rest, separator, "packages", "package.json");
  }

  // ----- the graph -----

  function BoundDeps(m: Manifest): set<string> {
    set d <- m.dependencies + m.devDependencies | SCOPE <= d && d != m.name
  }

  /** The last manifest of a name, and of a directory, counts. */
  function NamesOf(ms: seq<Manifest>): map<string, string> {
    if ms == [] then map[]
    else
      var m := ms[|ms| - 1];
      if m.name == "" then NamesOf(ms[..|ms| - 1]) else NamesOf(ms[..|ms| - 1])[m.name := m.dir]
  }

  function DepsOf(ms: seq<Manifest>): map<string, set<string>> {
    if ms == [] then map[]
    else
      var m := ms[|ms| - 1];
      if m.name == "" then DepsOf(ms[..|ms| - 1]) else DepsOf(ms[..|ms| - 1])[m.dir := BoundDeps(m)]
  }

  /** `user` is a dependent of `dir`. */
  predicate Edge(g: WorkspaceGraph, dir: string, user: string) {
    dir != "" && dir in g.dependents && user in g.dependents[dir]
  }

  /** `user` names a package in `dir` among its dependencies. */
  predicate Requires(g: WorkspaceGraph, user: string, dir: string) {
    user in g.deps && Named(g.nameToDir, g.deps[user], dir)
  }

  /** The dependents are the dependencies read backwards. */
  ghost predicate Inverted(g: WorkspaceGraph) {
    && g.dependents.Keys == g.deps.Keys
    && (forall dir, user :: Edge(g, dir, user) <==> dir != "" && dir in g.deps && Requires(g, user, dir))
    && (forall dir, user :: dir in g.dependents && user in g.dependents[dir] ==> user in g.deps)
  }

  method BuildWorkspaceGraph(ms: seq<Manifest>) returns (g: WorkspaceGraph)
    ensures g.nameToDir == NamesOf(ms) && g.deps == DepsOf(ms)
    ensures Inverted(g)
  {
    var nameToDir: map<string, string>, deps: map<string, set<string>> := map[], map[];
    for i := 0 to |ms|
      invariant nameToDir == NamesOf(ms[..i]) && deps == DepsOf(ms[..i])
    {
      var m := ms[i];
      assert ms[..i + 1][..i] == ms[..i];
      if m.name == "" { continue; }
      nameToDir := nameToDir[m.name := m.dir];
      deps := deps[m.dir := BoundDeps(m)];
    }
    assert ms[..|ms|] == ms;

    var dependents: map<string, set<string>> := map d | d in deps :: {};
    var dirs := deps.Keys;
    while dirs != {}
      invariant dirs <= deps.Keys && dependents.Keys == deps.Keys
      invariant forall d, u :: d in deps ==> (u in dependents[d] <==> u in deps.Keys - dirs && Users(nameToDir, deps[u], d))
      decreases dirs
    {
      var dir :| dir in dirs;
      dirs := dirs - {dir};
      dependents := AddUser(nameToDir, dependents, dir, deps[dir]);
    }
    g := WorkspaceGraph(nameToDir, deps, dependents);
  }

  /** The inner loop: `dir` becomes a dependent of every package it names. */
  method AddUser(nameToDir: map<string, string>, dependents: map<string, set<string>>, dir: string, depNames: set<string>)
    returns (updated: map<string, set<string>>)
    ensures updated.Keys == dependents.Keys
    ensures forall d, u :: d in updated ==>
      (u in updated[d] <==> u in dependents[d] || (u == dir && Users(nameToDir, depNames, d)))
  {
    updated := dependents;
    var names := depNames;
    while names != {}
      invariant names <= depNames && updated.Keys == dependents.Keys
      invariant forall d, u :: d in updated ==>
        (u in updated[d] <==> u in dependents[d] || (u == dir && Users(nameToDir, depNames - names, d)))
      decreases names
    {
      var name :| name in names;
      ghost var done := depNames - names;
      names := names - {name};
      assert depNames - names == done + {name};
      if name in nameToDir && nameToDir[name] != "" && nameToDir[name] in updated {
        var depDir := nameToDir[name];
        updated := updated[depDir := updated[depDir] + {dir}];
      }
    }
    assert depNames - names == depNames;
  }

  /** One of the names belongs to a package in `dir`, a path that is not empty. */
  predicate Users(nameToDir: map<string, string>, names: set<string>, dir: string) {
    dir != "" && Named(nameToDir, names, dir)
  }

  /** One of the names belongs to a package in `dir`. */
  predicate Named(nameToDir: map<string, string>, names: set<string>, dir: string) {
    exists name :: name in names && name in nameToDir && nameToDir[name] == dir
  }

  // ----- what has to be tested -----

  ghost predicate IsChain(g: WorkspaceGraph, chain: seq<string>) {
    |chain| > 0 && forall k :: 0 <= k < |chain| - 1 ==> Edge(g, chain[k], chain[k + 1])
  }

  ghost predicate Reachable(g: WorkspaceGraph, from: set<string>, dir: string) {
    exists chain :: IsChain(g, chain) && chain[0] in from && chain[|chain| - 1] == dir
  }

  function Direct(g: WorkspaceGraph, changed: seq<string>): set<string> {
    set k | 0 <= k < |changed| && PackageDirForFile(changed[k]).Some? && PackageDirForFile(changed[k]).value in g.deps
      :: PackageDirForFile(changed[k]).value
  }

  predicate AnyGlobal(changed: seq<string>) {
    exists k :: 0 <= k < |changed| && IsGlobalFile(changed[k])
  }

  ghost predicate IsAffected(g: WorkspaceGraph, changed: seq<string>, dir: string) {
    if AnyGlobal(changed) then dir in g.deps else Reachable(g, Direct(g, changed), dir)
  }

  method DetermineAffectedPackages(changed: seq<string>, g: WorkspaceGraph) returns (affected: set<string>)
    ensures forall dir :: dir in affected <==> IsAffected(g, changed, dir)
  {
    if AnyGlobal(changed) { return g.deps.Keys; }
    var direct: set<string> := {};
    for k := 0 to |changed|
      invariant direct == Direct(g, changed[..k])
    {
      var dir := PackageDirForFile(changed[k]);
      if dir.Some? && dir.value in g.deps { direct := direct + {dir.value}; }
      DirectStep(g, changed, k);
    }
    assert changed[..|changed|] == changed;
    affected := Closure(g, direct);
  }

  lemma DirectStep(g: WorkspaceGraph, changed: seq<string>, k: nat)
    requires k < |changed|
    ensures var dir := PackageDirForFile(changed[k]);
      Direct(g, changed[..k + 1])
      == Direct(g, changed[..k]) + if dir.Some? && dir.value in g.deps then {dir.value} else {}
  {
    var now, before := changed[..k + 1], changed[..k];
    assert forall i :: 0 <= i < k ==> now[i] == before[i];
    forall d | d in Direct(g, before) ensures d in Direct(g, now) {
      var i :| 0 <= i < |before| && PackageDirForFile(before[i]).Some? && PackageDirForFile(before[i]).value == d;
      assert now[i] == before[i];
    }
    assert now[k] == changed[k];
  }

  ghost predicate Closed(g: WorkspaceGraph, affected: set<string>, d: string) {
    forall e :: Edge(g, d, e) ==> e in affected
  }

  method Elements(s: set<string>) returns (items: seq<string>)
    ensures forall d :: d in items <==> d in s
  {
    items := [];
    var rest := s;
    while rest != {}
      invariant rest <= s && forall d :: d in items <==> d in s && d !in rest
      decreases rest
    {
      var d :| d in rest;
      items := items + [d];
      rest := rest - {d};
    }
  }

  /** Affected directories are reachable, and those no longer waiting have their dependents in. */
  ghost predicate Progress(g: WorkspaceGraph, direct: set<string>, affected: set<string>, queue: seq<string>) {
    && direct <= affected
    && (forall d :: d in queue ==> d in affected)
    && (forall d :: d in affected ==> Reachable(g, direct, d))
    && (forall d :: d in affected && d !in queue ==> Closed(g, affected, d))
  }

  /** The worklist loop. */
  method Closure(g: WorkspaceGraph, direct: set<string>) returns (affected: set<string>)
    ensures forall dir :: dir in affected <==> Reachable(g, direct, dir)
  {
    affected := direct;
    var queue := Elements(direct);
    forall d | d in direct ensures Reachable(g, direct, d) { assert IsChain(g, [d]); }
    ghost var all := Everything(g, direct);
    while queue != []
      invariant affected <= all && Progress(g, direct, affected, queue)
      decreases all - affected, |queue|
    {
      var dir := queue[|queue| - 1];
      ghost var before := queue;
      queue := queue[..|queue| - 1];
      assert before == queue + [dir];
      if dir == "" || dir !in g.dependents {
        Expanded(g, direct, affected, queue, dir, {}, affected, queue);
        continue;
      }
      ghost var known, waiting := affected, queue;
      affected, queue := AddDependents(g.dependents[dir], affected, queue);
      Expanded(g, direct, known, waiting, dir, g.dependents[dir], affected, queue);
      assert forall e :: e in g.dependents[dir] ==> Edge(g, dir, e);
    }
    ClosedCovers(g, direct, affected);
  }

  /** One round keeps the progress made. */
  lemma {:induction false} Expanded(g: WorkspaceGraph, direct: set<string>, known: set<string>, waiting: seq<string>, dir: string,
                 dependents: set<string>, affected: set<string>, queue: seq<string>)
    requires Progress(g, direct, known, waiting + [dir])
    requires forall e :: e in dependents <==> Edge(g, dir, e)
    requires affected == known + dependents
    requires forall d :: d in queue <==> d in waiting || (d in dependents && d !in known)
    ensures Progress(g, direct, affected, queue)
  {
    assert dir in waiting + [dir];
    forall e | e in dependents ensures Reachable(g, direct, e) { ReachableStep(g, direct, dir, e); }
    forall d | d in queue ensures d in affected {
      assert d in waiting ==> d in waiting + [dir];
    }
    forall d | d in affected && d !in queue ensures Closed(g, affected, d) {
      if d != dir {
        assert d in known && d !in waiting + [dir];
        assert Closed(g, known, d);
      }
    }
  }

  /** The inner loop: dependents not met before become affected and are queued. */
  method AddDependents(dependents: set<string>, known: set<string>, waiting: seq<string>)
    returns (affected: set<string>, queue: seq<string>)
    ensures affected == known + dependents
    ensures forall d :: d in queue <==> d in waiting || (d in dependents && d !in known)
    ensures affected == known ==> queue == waiting
  {
    affected, queue := known, waiting;
    var pending := dependents;
    while pending != {}
      invariant pending <= dependents && affected == known + (dependents - pending)
      invariant forall d :: d in queue <==> d in waiting || (d in affected && d !in known)
      invariant affected == known ==> queue == waiting
      decreases pending
    {
      var dependent :| dependent in pending;
      pending := pending - {dependent};
      if dependent !in affected {
        affected := affected + {dependent};
        queue := queue + [dependent];
      }
    }
  }

  /** Everything the walk could ever meet. */
  lemma Everything(g: WorkspaceGraph, direct: set<string>) returns (all: set<string>)
    ensures direct <= all && forall d, e :: Edge(g, d, e) ==> e in all
  {
    all := direct + set d <- g.dependents, e <- g.dependents[d] :: e;
  }

  lemma ClosedCovers(g: WorkspaceGraph, direct: set<string>, affected: set<string>)
    requires direct <= affected
    requires forall d :: d in affected ==> Closed(g, affected, d)
    ensures forall d :: Reachable(g, direct, d) ==> d in affected
  {
    forall d | Reachable(g, direct, d) ensures d in affected {
      var chain :| IsChain(g, chain) && chain[0] in direct && chain[|chain| - 1] == d;
      ChainStays(g, affected, chain);
    }
  }

  lemma ReachableStep(g: WorkspaceGraph, direct: set<string>, dir: string, next: string)
    requires Reachable(g, direct, dir) && Edge(g, dir, next)
    ensures Reachable(g, direct, next)
  {
    var chain :| IsChain(g, chain) && chain[0] in direct && chain[|chain| - 1] == dir;
    assert IsChain(g, chain + [next]);
  }

  lemma {:induction false} ChainStays(g: WorkspaceGraph, affected: set<string>, chain: seq<string>)
    requires IsChain(g, chain) && chain[0] in affected
    requires forall d :: d in affected ==> Closed(g, affected, d)
    ensures chain[|chain| - 1] in affected
  {
    if |chain| > 1 {
      assert Edge(g, chain[0], chain[1]);
      assert forall k :: 0 <= k < |chain[1..]| ==> chain[1..][k] == chain[k + 1];
      ChainStays(g, affected, chain[1..]);
    }
  }

  // ----- the selection as a whole -----

  /** The selector's run over the manifests and the staged files: the packages of the
      workspace that reach a directly changed package through declared dependencies, or all of
      them after a global change. */
  method SelectPackages(ms: seq<Manifest>, changed: seq<string>) returns (affected: set<string>)
    ensures forall dir :: dir in affected <==> MustTest(ms, changed, dir)
  {
    var g := BuildWorkspaceGraph(ms);
    affected := DetermineAffectedPackages(changed, g);
    forall dir ensures dir in affected <==> MustTest(ms, changed, dir) {
      AffectedIsMustTest(ms, g, changed, dir);
    }
  }

  predicate NeedsOf(ms: seq<Manifest>, user: string, dir: string) {
    user in DepsOf(ms) && dir in DepsOf(ms) && dir != "" && Named(NamesOf(ms), DepsOf(ms)[user], dir)
  }

  /** Each package on the chain declares the one before it. */
  ghost predicate IsNeedChain(ms: seq<Manifest>, chain: seq<string>) {
    |chain| > 0 && forall k :: 0 <= k < |chain| - 1 ==> NeedsOf(ms, chain[k + 1], chain[k])
  }

  predicate DirectlyChanged(ms: seq<Manifest>, changed: seq<string>, dir: string) {
    dir in DepsOf(ms) && exists k :: 0 <= k < |changed| && PackageDirForFile(changed[k]) == Some(dir)
  }

  ghost predicate MustTest(ms: seq<Manifest>, changed: seq<string>, dir: string) {
    if AnyGlobal(changed) then dir in DepsOf(ms)
    else exists chain :: IsNeedChain(ms, chain) && DirectlyChanged(ms, changed, chain[0]) && chain[|chain| - 1] == dir
  }

  lemma EdgeIsNeed(ms: seq<Manifest>, g: WorkspaceGraph, dir: string, user: string)
    requires g.nameToDir == NamesOf(ms) && g.deps == DepsOf(ms) && Inverted(g)
    ensures Edge(g, dir, user) <==> NeedsOf(ms, user, dir)
  {
  }

  lemma AffectedIsMustTest(ms: seq<Manifest>, g: WorkspaceGraph, changed: seq<string>, dir: string)
    requires g.nameToDir == NamesOf(ms) && g.deps == DepsOf(ms) && Inverted(g)
    ensures IsAffected(g, changed, dir) <==> MustTest(ms, changed, dir)
  {
    forall a, b ensures Edge(g, a, b) <==> NeedsOf(ms, b, a) { EdgeIsNeed(ms, g, a, b); }
    forall chain: seq<string> ensures IsChain(g, chain) <==> IsNeedChain(ms, chain) { }
    forall d ensures d in Direct(g, changed) <==> DirectlyChanged(ms, changed, d) { }
  }

  /** Every selected directory is a package of the workspace. */
  lemma {:induction false} SelectionIsWithinWorkspace(ms: seq<Manifest>, changed: seq<string>, dir: string)
    requires MustTest(ms, changed, dir)
    ensures dir in DepsOf(ms)
  {
    if !AnyGlobal(changed) {
      var chain :| IsNeedChain(ms, chain) && DirectlyChanged(ms, changed, chain[0]) && chain[|chain| - 1] == dir;
      if |chain| > 1 { assert NeedsOf(ms, chain[|chain| - 2 + 1], chain[|chain| - 2]); }
    }
  }

  /** More changed files never select fewer packages. */
  lemma {:induction false} SelectionIsMonotone(ms: seq<Manifest>, fewer: seq<string>, more: seq<string>, dir: string)
    requires forall f :: f in fewer ==> f in more
    requires MustTest(ms, fewer, dir)
    ensures MustTest(ms, more, dir)
  {
    SelectionIsWithinWorkspace(ms, fewer, dir);
    if AnyGlobal(fewer) {
      var k :| 0 <= k < |fewer| && IsGlobalFile(fewer[k]);
      assert fewer[k] in more;
    } else if !AnyGlobal(more) {
      var chain :| IsNeedChain(ms, chain) && DirectlyChanged(ms, fewer, chain[0]) && chain[|chain| - 1] == dir;
      var k :| 0 <= k < |fewer| && PackageDirForFile(fewer[k]) == Some(chain[0]);
      assert fewer[k] in more;
    }
  }

  /** The files of the test setup select every package, and none of them lies in a package. */
  lemma GlobalFilesSelectAll(ms: seq<Manifest>, changed: seq<string>, file: string, dir: string)
    requires file in changed
    requires file in {"bunfig.toml", "package.json", "bun.lock", "bun.lockb", "tsconfig.json", "tsconfig.base.json",
                      "scripts/test-preload.ts"}
    ensures MustTest(ms, changed, dir) <==> dir in DepsOf(ms)
    ensures PackageDirForFile(file) == None
  {
    assert IsGlobalFile(file);
    OutsidePackages(file);
  }

  lemma OutsidePackages(file: string)
    requires |file| > 7 && (file[0] != 'p' || file[7] != 's')
    ensures PackageDirForFile(file) == None
  {
  }

  /** A package that depends on a selected one is selected. */
  lemma {:induction false} SelectionIsClosed(ms: seq<Manifest>, changed: seq<string>, dir: string, user: string)
    requires MustTest(ms, changed, dir) && NeedsOf(ms, user, dir)
    ensures MustTest(ms, changed, user)
  {
    if !AnyGlobal(changed) {
      var chain :| IsNeedChain(ms, chain) && DirectlyChanged(ms, changed, chain[0]) && chain[|chain| - 1] == dir;
      assert IsNeedChain(ms, chain + [user]);
    }
  }

  /** Distinct names and directories, as in a real workspace. */
  ghost predicate Orderly(ms: seq<Manifest>) {
    && (forall i :: 0 <= i < |ms| ==> ms[i].dir != "")
    && (forall i, j :: 0 <= i < j < |ms| ==> ms[i].dir != ms[j].dir && (ms[i].name == ms[j].name ==> ms[i].name == ""))
  }

  /** In an orderly workspace a package needs another exactly when its manifest lists the
      other's scoped name. */
  lemma NeedsAreDeclared(ms: seq<Manifest>, i: nat, j: nat)
    requires Orderly(ms) && i < |ms| && j < |ms| && ms[j].name != ""
    ensures NeedsOf(ms, ms[i].dir, ms[j].dir) <==>
      (ms[i].name != "" && "@bound/" <= ms[j].name && ms[j].name != ms[i].name
       && ms[j].name in ms[i].dependencies + ms[i].devDependencies)
  {
    TableHolds(ms, j);
    if ms[i].name == "" {
      UnnamedHasNoRow(ms, i);
    } else {
      TableHolds(ms, i);
    }
    if NeedsOf(ms, ms[i].dir, ms[j].dir) {
      var name :| name in DepsOf(ms)[ms[i].dir] && name in NamesOf(ms) && NamesOf(ms)[name] == ms[j].dir;
      NameHasOwner(ms, name, j);
    }
  }

  lemma {:induction false} TableHolds(ms: seq<Manifest>, i: nat)
    requires Orderly(ms) && i < |ms| && ms[i].name != ""
    ensures ms[i].dir in DepsOf(ms) && DepsOf(ms)[ms[i].dir] == BoundDeps(ms[i])
    ensures ms[i].name in NamesOf(ms) && NamesOf(ms)[ms[i].name] == ms[i].dir
  {
    var front, last := ms[..|ms| - 1], ms[|ms| - 1];
    if i < |front| {
      TableHolds(front, i);
      assert front[i] == ms[i];
      assert ms[i].dir != last.dir && ms[i].name != last.name;
    }
  }

  lemma {:induction false} UnnamedHasNoRow(ms: seq<Manifest>, i: nat)
    requires Orderly(ms) && i < |ms| && ms[i].name == ""
    ensures ms[i].dir !in DepsOf(ms)
  {
    var front := ms[..|ms| - 1];
    if i < |front| {
      UnnamedHasNoRow(front, i);
    } else {
      NoRow(front, ms[i].dir);
    }
  }

  lemma {:induction false} NoRow(ms: seq<Manifest>, dir: string)
    requires forall i :: 0 <= i < |ms| ==> ms[i].dir != dir
    ensures dir !in DepsOf(ms)
  {
    if ms != [] {
      NoRow(ms[..|ms| - 1], dir);
    }
  }

  /** A name is resolved to the directory of the manifest that bears it. */
  lemma {:induction false} NameHasOwner(ms: seq<Manifest>, name: string, j: nat)
    requires Orderly(ms) && j < |ms| && name in NamesOf(ms) && NamesOf(ms)[name] == ms[j].dir
    ensures ms[j].name == name
  {
    var i := OwnerOf(ms, name);
    assert ms[i].dir == ms[j].dir;
  }

  lemma {:induction false} OwnerOf(ms: seq<Manifest>, name: string) returns (i: nat)
    requires name in NamesOf(ms)
    ensures i < |ms| && ms[i].name == name && ms[i].dir == NamesOf(ms)[name]
  {
    if ms[|ms| - 1].name == name && name != "" {
      i := |ms| - 1;
    } else {
      i := OwnerOf(ms[..|ms| - 1], name);
    }
  }
}
