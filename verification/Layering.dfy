/** The layering gate over dependency edges and features (`xtask/src/layering.rs`: `ROWS`,
    `edge_problems` and the rules it runs), and what a silent gate says about every chain. */
module Layering {
  import opened Options

  datatype Dependency = Dependency(name: string, kind: string, rename: Option<string>, features: seq<string>)

  /** `features` holds each feature of the table once, with what it enables. */
  datatype Package = Package(name: string, dependencies: seq<Dependency>, features: map<string, seq<string>>)

  datatype Row = Row(name: string, workspace: set<string>, external: set<string>, devExternal: set<string>)

  const RUN_PREFIX := "nexus-run-"
  const CONTRACTS := "nexus-run-contracts"
  const ENGINE := "nexus-run-engine"
  const STORE := "nexus-run-store-sqlite"
  const SESSION := "nexus-run-session-claude"
  const HOST := "nexus-run-host"
  const TEST_SUPPORT := "test-support"

  const ROWS: seq<Row> := [
    Row(CONTRACTS, {}, {"serde", "serde_json", "time", "sha2", "ulid"}, {}),
    Row(ENGINE, {CONTRACTS}, {"serde", "serde_json", "sha2"}, {"serde_yaml"}),
    Row(STORE, {CONTRACTS}, {"rusqlite", "serde", "serde_json", "time"}, {"tempfile"}),
    Row(SESSION, {CONTRACTS}, {"libc", "serde", "serde_json", "time"}, {"tempfile"}),
    Row(HOST, {CONTRACTS, ENGINE, STORE, SESSION}, {"serde", "serde_json", "time", "ulid"}, {"rusqlite", "tempfile"})
  ]

  const HOST_IMPORTERS: set<string> := {"nexus-chat", "nxs"}

  datatype Problem =
    | NoRow(package: string)
    | OutsideTable(package: string, dep: string)
    | OutsideList(package: string, dep: string)
    | DeclaresFeature(package: string, feature: string)
    | BadImporter(package: string, dep: string)
    | EdgeEnables(package: string)
    | FeatureEnables(package: string, feature: string)

  predicate IsRun(name: string) { RUN_PREFIX <= name }

  predicate IsDev(d: Dependency) { d.kind == "dev" }

  function LocalName(d: Dependency): string {
    if d.rename.Some? then d.rename.value else d.name
  }

  function FindRow(name: string, n: nat): Option<Row>
    requires n <= |ROWS|
    decreases |ROWS| - n
  {
    if n == |ROWS| then None else if ROWS[n].name == name then Some(ROWS[n]) else FindRow(name, n + 1)
  }

  // ---- the rules -------------------------------------------------------------------------

  predicate HostOwnDev(p: Package, d: Dependency) { p.name == HOST && d.name == HOST && IsDev(d) }

  /** What is wrong with one edge of a new crate, against its row. */
  function EdgeProblem(p: Package, row: Row, d: Dependency, workspace: set<string>): Option<Problem> {
    if HostOwnDev(p, d) then None
    else if d.name in workspace then
      if d.name in row.workspace then None else Some(OutsideTable(p.name, d.name))
    else if d.name in row.external || (IsDev(d) && d.name in row.devExternal) then None
    else Some(OutsideList(p.name, d.name))
  }

  method OwnEdges(p: Package, workspace: set<string>, problems: seq<Problem>) returns (out: seq<Problem>)
    ensures problems <= out
    ensures out == problems <==>
              FindRow(p.name, 0).Some?
              && forall d | d in p.dependencies :: EdgeProblem(p, FindRow(p.name, 0).value, d, workspace).None?
  {
    out := problems;
    var row := FindRow(p.name, 0);
    if row.None? { return out + [NoRow(p.name)]; }
    for i := 0 to |p.dependencies|
      invariant problems <= out
      invariant out == problems <==>
                  forall k | 0 <= k < i :: EdgeProblem(p, row.value, p.dependencies[k], workspace).None?
    {
      var e := EdgeProblem(p, row.value, p.dependencies[i], workspace);
      if e.Some? { out := out + [e.value]; }
    }
  }

  method OwnFeatures(p: Package, problems: seq<Problem>) returns (out: seq<Problem>)
    ensures problems <= out
    ensures out == problems <==> forall f | f in p.features :: p.name == HOST && f == TEST_SUPPORT
  {
    out := problems;
    var left := p.features.Keys;
    while left != {}
      invariant left <= p.features.Keys && problems <= out
      invariant out == problems <==> forall f | f in p.features && f !in left :: p.name == HOST && f == TEST_SUPPORT
      decreases left
    {
      var f :| f in left;
      if !(p.name == HOST && f == TEST_SUPPORT) { out := out + [DeclaresFeature(p.name, f)]; }
      left := left - {f};
    }
  }

  predicate ImporterOk(p: Package, d: Dependency) {
    IsRun(d.name) && d.name != CONTRACTS && !IsRun(p.name) ==> d.name == HOST && p.name in HOST_IMPORTERS
  }

  predicate EdgeEnablesOk(d: Dependency) {
    !(d.name == HOST && !IsDev(d) && TEST_SUPPORT in d.features)
  }

  method EdgeRules(p: Package, problems: seq<Problem>) returns (out: seq<Problem>)
    ensures problems <= out
    ensures out == problems <==> forall d | d in p.dependencies :: ImporterOk(p, d) && EdgeEnablesOk(d)
  {
    out := problems;
    for i := 0 to |p.dependencies|
      invariant problems <= out
      invariant out == problems <==>
                  forall k | 0 <= k < i :: ImporterOk(p, p.dependencies[k]) && EdgeEnablesOk(p.dependencies[k])
    {
      var d := p.dependencies[i];
      if !ImporterOk(p, d) { out := out + [BadImporter(p.name, d.name)]; }
      if !EdgeEnablesOk(d) { out := out + [EdgeEnables(p.name)]; }
    }
  }

  /** A feature-table entry that turns the host's `test-support` on. */
  predicate Enables(p: Package, entry: string) {
    || (exists d | d in p.dependencies :: d.name == HOST && EntryNames(entry, LocalName(d)))
    || EntryNames(entry, HOST)
    || (p.name == HOST && entry == TEST_SUPPORT)
  }

  predicate EntryNames(entry: string, alias: string) {
    entry == alias + "/" + TEST_SUPPORT || entry == alias + "?/" + TEST_SUPPORT
  }

  predicate FeatureOk(p: Package, f: string)
    requires f in p.features
  {
    forall entry | entry in p.features[f] :: !Enables(p, entry)
  }

  method FeatureRules(p: Package, problems: seq<Problem>) returns (out: seq<Problem>)
    ensures problems <= out
    ensures out == problems <==> forall f | f in p.features :: FeatureOk(p, f)
  {
    out := problems;
    var left := p.features.Keys;
    while left != {}
      invariant left <= p.features.Keys && problems <= out
      invariant out == problems <==> forall f | f in p.features && f !in left :: FeatureOk(p, f)
      decreases left
    {
      var f :| f in left;
      var entries := p.features[f];
      ghost var before := out;
      for i := 0 to |entries|
        invariant before <= out
        invariant out == before <==> forall k | 0 <= k < i :: !Enables(p, entries[k])
      {
        if Enables(p, entries[i]) { out := out + [FeatureEnables(p.name, f)]; }
      }
      assert out == before <==> FeatureOk(p, f);
      left := left - {f};
    }
  }

  function Names(packages: seq<Package>): set<string> {
    set p | p in packages :: p.name
  }

  predicate PackageOk(p: Package, workspace: set<string>) {
    && (IsRun(p.name) ==>
          && FindRow(p.name, 0).Some?
          && (forall d | d in p.dependencies :: EdgeProblem(p, FindRow(p.name, 0).value, d, workspace).None?)
          && (forall f | f in p.features :: p.name == HOST && f == TEST_SUPPORT))
    && (forall d | d in p.dependencies :: ImporterOk(p, d) && EdgeEnablesOk(d))
    && (forall f | f in p.features :: FeatureOk(p, f))
  }

  /** The gate is silent exactly when every package keeps every rule. */
  method EdgeProblems(packages: seq<Package>) returns (problems: seq<Problem>)
    ensures problems == [] <==> forall p | p in packages :: PackageOk(p, Names(packages))
    ensures problems == [] <==> forall p | p in packages :: KeepsRules(p, Names(packages))
  {
    forall p | p in packages ensures PackageOk(p, Names(packages)) <==> KeepsRules(p, Names(packages)) {
      RulesWrittenOut(p, Names(packages));
    }
    var workspace := Names(packages);
    problems := [];
    for i := 0 to |packages|
      invariant problems == [] <==> forall k | 0 <= k < i :: PackageOk(packages[k], workspace)
    {
      var p := packages[i];
      ghost var before := problems;
      problems := PackageProblems(p, workspace, problems);
      assert problems == before <==> PackageOk(p, workspace);
    }
  }

  method PackageProblems(p: Package, workspace: set<string>, problems: seq<Problem>) returns (out: seq<Problem>)
    ensures problems <= out
    ensures out == problems <==> PackageOk(p, workspace)
  {
    out := problems;
    if IsRun(p.name) {
      out := OwnEdges(p, workspace, out);
      out := OwnFeatures(p, out);
    }
    out := EdgeRules(p, out);
    out := FeatureRules(p, out);
  }

  // ---- the rules written out -------------------------------------------------------------

  /** The crates of the workspace a new crate may depend on. */
  ghost function Lower(name: string): set<string> {
    if name == "nexus-run-host" then
      {"nexus-run-contracts", "nexus-run-engine", "nexus-run-store-sqlite", "nexus-run-session-claude"}
    else if name == "nexus-run-engine" || name == "nexus-run-store-sqlite" || name == "nexus-run-session-claude" then
      {"nexus-run-contracts"}
    else {}
  }

  /** The other crates it may, always or for its tests only. */
  ghost function Outside(name: string, dev: bool): set<string> {
    if name == "nexus-run-contracts" then {"serde", "serde_json", "time", "sha2", "ulid"}
    else if name == "nexus-run-engine" then {"serde", "serde_json", "sha2"} + (if dev then {"serde_yaml"} else {})
    else if name == "nexus-run-store-sqlite" then {"rusqlite", "serde", "serde_json", "time"} + (if dev then {"tempfile"} else {})
    else if name == "nexus-run-session-claude" then {"libc", "serde", "serde_json", "time"} + (if dev then {"tempfile"} else {})
    else if name == "nexus-run-host" then {"serde", "serde_json", "time", "ulid"} + (if dev then {"rusqlite", "tempfile"} else {})
    else {}
  }

  ghost predicate MayDepend(name: string, d: Dependency, workspace: set<string>) {
    || (name == "nexus-run-host" && d.name == "nexus-run-host" && d.kind == "dev")
    || d.name in (if d.name in workspace then Lower(name) else Outside(name, d.kind == "dev"))
  }

  ghost predicate IsNewCrate(name: string) {
    || name == "nexus-run-contracts" || name == "nexus-run-engine" || name == "nexus-run-store-sqlite"
    || name == "nexus-run-session-claude" || name == "nexus-run-host"
  }

  /** A new crate is one of the five, depends on what it may, and declares no feature but the host's
      `test-support`. Any other crate imports the contracts, or the host if it is `nexus-chat` or
      `nxs`, and no other new crate. Nobody turns the host's `test-support` on but for tests. */
  ghost predicate KeepsRules(p: Package, workspace: set<string>) {
    && ("nexus-run-" <= p.name ==>
          && IsNewCrate(p.name)
          && (forall d | d in p.dependencies :: MayDepend(p.name, d, workspace))
          && (forall f | f in p.features :: p.name == "nexus-run-host" && f == "test-support"))
    && (forall d | d in p.dependencies :: MayImport(p.name, d.name) && !(d.name == "nexus-run-host" && d.kind != "dev" && "test-support" in d.features))
    && (forall f, entry | f in p.features && entry in p.features[f] :: !TurnsOn(p, entry))
  }

  ghost predicate MayImport(importer: string, imported: string) {
    || "nexus-run-" <= importer || !("nexus-run-" <= imported) || imported == "nexus-run-contracts"
    || (imported == "nexus-run-host" && (importer == "nexus-chat" || importer == "nxs"))
  }

  ghost predicate TurnsOn(p: Package, entry: string) {
    || (p.name == "nexus-run-host" && entry == "test-support")
    || entry == "nexus-run-host/test-support" || entry == "nexus-run-host?/test-support"
    || (exists d | d in p.dependencies :: d.name == "nexus-run-host" && IsEntryOf(entry, if d.rename.Some? then d.rename.value else d.name))
  }

  ghost predicate IsEntryOf(entry: string, alias: string) {
    entry == alias + "/test-support" || entry == alias + "?/test-support"
  }

  lemma RowWrittenOut(name: string)
    ensures FindRow(name, 0).Some? <==> IsNewCrate(name)
    ensures FindRow(name, 0).Some? ==>
            && FindRow(name, 0).value.workspace == Lower(name) && FindRow(name, 0).value.external == Outside(name, false)
            && FindRow(name, 0).value.external + FindRow(name, 0).value.devExternal == Outside(name, true)
  {
    assert FindRow(name, 5) == None;
    assert FindRow(name, 4) == if name == HOST then Some(ROWS[4]) else None;
    assert FindRow(name, 3) == if name == SESSION then Some(ROWS[3]) else FindRow(name, 4);
    assert FindRow(name, 2) == if name == STORE then Some(ROWS[2]) else FindRow(name, 3);
    assert FindRow(name, 1) == if name == ENGINE then Some(ROWS[1]) else FindRow(name, 2);
  }

  lemma EdgeWrittenOut(p: Package, d: Dependency, workspace: set<string>)
    requires FindRow(p.name, 0).Some?
    ensures EdgeProblem(p, FindRow(p.name, 0).value, d, workspace).None? <==> MayDepend(p.name, d, workspace)
  {
    RowWrittenOut(p.name);
  }

  lemma EntryWrittenOut(p: Package, entry: string)
    ensures Enables(p, entry) <==> TurnsOn(p, entry)
  {
    assert HOST + "/" + TEST_SUPPORT == "nexus-run-host/test-support" && HOST + "?/" + TEST_SUPPORT == "nexus-run-host?/test-support";
    forall d ensures EntryNames(entry, LocalName(d)) <==> IsEntryOf(entry, if d.rename.Some? then d.rename.value else d.name) {
      var alias := LocalName(d);
      assert alias + "/" + TEST_SUPPORT == alias + "/test-support" && alias + "?/" + TEST_SUPPORT == alias + "?/test-support";
    }
  }

  /** The rules as the gate keeps them are these. */
  lemma RulesWrittenOut(p: Package, workspace: set<string>)
    ensures PackageOk(p, workspace) <==> KeepsRules(p, workspace)
  {
    RowWrittenOut(p.name);
    forall d | FindRow(p.name, 0).Some?
      ensures EdgeProblem(p, FindRow(p.name, 0).value, d, workspace).None? <==> MayDepend(p.name, d, workspace) {
      EdgeWrittenOut(p, d, workspace);
    }
    forall entry ensures Enables(p, entry) <==> TurnsOn(p, entry) { EntryWrittenOut(p, entry); }
    forall f | f in p.features ensures FeatureOk(p, f) <==> forall entry | entry in p.features[f] :: !TurnsOn(p, entry) {}
  }

  // ---- what silence says about chains ----------------------------------------------------

  predicate Silent(packages: seq<Package>) {
    forall p | p in packages :: PackageOk(p, Names(packages))
  }

  /** A dependency edge between two crates of the workspace, of any kind. */
  datatype Edge = Edge(from: Package, dep: Dependency)

  predicate IsEdge(e: Edge, packages: seq<Package>) {
    e.from in packages && e.dep in e.from.dependencies && e.dep.name in Names(packages)
  }

  predicate IsPath(es: seq<Edge>, packages: seq<Package>) {
    && (forall i | 0 <= i < |es| :: IsEdge(es[i], packages))
    && (forall i | 0 <= i < |es| - 1 :: es[i].dep.name == es[i + 1].from.name)
  }

  /** The layers of the crate table. */
  function Layer(name: string): int {
    if name == HOST then 2 else if name in {ENGINE, STORE, SESSION} then 1 else 0
  }

  lemma RowsAreLayered(name: string, dep: string)
    requires FindRow(name, 0).Some? && dep in FindRow(name, 0).value.workspace
    ensures IsRun(dep) && Layer(dep) < Layer(name)
  {
    var row := FindRow(name, 0).value;
    RowFound(name, 0);
    assert dep in {CONTRACTS, ENGINE, STORE, SESSION};
  }

  lemma {:induction false} RowFound(name: string, n: nat)
    requires n <= |ROWS| && FindRow(name, n).Some?
    ensures FindRow(name, n).value in ROWS && FindRow(name, n).value.name == name
    decreases |ROWS| - n
  {
    if ROWS[n].name != name { RowFound(name, n + 1); }
  }

  /** One edge out of a new crate stays among the new crates and goes down, but for the host's own
      dev edge. */
  lemma EdgeGoesDown(e: Edge, packages: seq<Package>)
    requires Silent(packages) && IsEdge(e, packages) && IsRun(e.from.name)
    ensures IsRun(e.dep.name)
    ensures HostOwnDev(e.from, e.dep) || Layer(e.dep.name) < Layer(e.from.name)
  {
    assert PackageOk(e.from, Names(packages));
    assert EdgeProblem(e.from, FindRow(e.from.name, 0).value, e.dep, Names(packages)).None?;
    if !HostOwnDev(e.from, e.dep) { RowsAreLayered(e.from.name, e.dep.name); }
  }

  /** Only the host's own dev edge, over and over. */
  predicate OnlyHostDev(es: seq<Edge>) { forall e | e in es :: HostOwnDev(e.from, e.dep) }

  /** One more edge from layer `mid` to layer `end` of a chain that came down from `start`. */
  lemma OneMore(init: seq<Edge>, last: Edge, start: int, mid: int, end: int)
    requires mid <= start && (mid == start ==> OnlyHostDev(init))
    requires (HostOwnDev(last.from, last.dep) && end == mid) || end < mid
    ensures end <= start && (end == start ==> OnlyHostDev(init + [last]))
  {
  }

  lemma OwnDevStays(e: Edge)
    ensures HostOwnDev(e.from, e.dep) ==> Layer(e.dep.name) == Layer(e.from.name)
  {
  }

  /** Whatever a new crate reaches, by any chain of dependencies, is a new crate. */
  lemma {:induction false} NewReachesOnlyNew(es: seq<Edge>, packages: seq<Package>)
    requires Silent(packages) && es != [] && IsPath(es, packages) && IsRun(es[0].from.name)
    ensures IsRun(es[|es| - 1].dep.name)
    ensures Layer(es[|es| - 1].dep.name) <= Layer(es[0].from.name)
    ensures Layer(es[|es| - 1].dep.name) == Layer(es[0].from.name) ==> OnlyHostDev(es)
  {
    var init, last := es[..|es| - 1], es[|es| - 1];
    var mid := last.from.name;
    assert IsEdge(last, packages);
    if init != [] {
      InitIsPath(es, packages);
      NewReachesOnlyNew(init, packages);
      assert init[|init| - 1] == es[|es| - 2] && init[0] == es[0];
    }
    EdgeGoesDown(last, packages);
    OwnDevStays(last);
    OneMore(init, last, Layer(es[0].from.name), Layer(mid), Layer(last.dep.name));
    assert es == init + [last];
  }

  lemma InitIsPath(es: seq<Edge>, packages: seq<Package>)
    requires es != [] && IsPath(es, packages)
    ensures IsPath(es[..|es| - 1], packages)
  {
  }

  /** The only cycle among the new crates is the host's own dev edge. */
  lemma OnlyTheHostsCycle(es: seq<Edge>, packages: seq<Package>)
    requires Silent(packages) && es != [] && IsPath(es, packages) && IsRun(es[0].from.name)
    requires es[|es| - 1].dep.name == es[0].from.name
    ensures OnlyHostDev(es)
  {
    NewReachesOnlyNew(es, packages);
  }

  /** The edge of a named importer to the host. */
  predicate ImportsHost(e: Edge) { e.from.name in HOST_IMPORTERS && e.dep.name == HOST }

  /** The one way in, edge by edge. */
  lemma CrossingEdge(e: Edge, packages: seq<Package>)
    requires Silent(packages) && IsEdge(e, packages) && !IsRun(e.from.name) && Guarded(e.dep.name)
    ensures ImportsHost(e)
  {
    assert ImporterOk(e.from, e.dep);
  }

  /** A new crate other than the contracts. */
  predicate Guarded(name: string) { IsRun(name) && name != CONTRACTS }

  /** The contracts depend on no other crate. */
  lemma InnerEdge(e: Edge, packages: seq<Package>)
    requires Silent(packages) && IsEdge(e, packages) && IsRun(e.from.name)
    ensures Guarded(e.from.name)
  {
    EdgeGoesDown(e, packages);
  }

  /** Every chain from outside to a new crate other than the contracts goes in by a named importer's
      edge to the host, and stays among the new crates from there. */
  lemma {:induction false} EntersThroughHost(es: seq<Edge>, packages: seq<Package>)
    requires Silent(packages) && es != [] && IsPath(es, packages) && !IsRun(es[0].from.name) && Guarded(es[|es| - 1].dep.name)
    ensures exists k :: Enters(es, k)
  {
    var n := |es| - 1;
    assert IsEdge(es[n], packages);
    if IsRun(es[n].from.name) {
      var init := es[..n];
      InnerEdge(es[n], packages);
      assert n > 0 && init[n - 1] == es[n - 1];
      InitIsPath(es, packages);
      EntersThroughHost(init, packages);
      var k :| Enters(init, k);
      assert Enters(es, k) by {
        assert es[k] == init[k];
        forall j | k < j < |es| ensures IsRun(es[j].from.name) { if j < n { assert es[j] == init[j]; } }
      }
    } else {
      CrossingEdge(es[n], packages);
      assert Enters(es, n);
    }
  }

  /** Edge `k` goes in, and nothing after it comes out again. */
  predicate Enters(es: seq<Edge>, k: int) {
    0 <= k < |es| && ImportsHost(es[k]) && forall j | k < j < |es| :: IsRun(es[j].from.name)
  }

  // ---- features --------------------------------------------------------------------------

  /** How a feature gets switched on in a build without dev-dependencies: it is asked for, an edge
      lists it or takes the defaults, or an enabled feature's table entry names it. */
  datatype Activation =
    | Asked(package: string, feature: string)
    | ByEdge(from: Package, dep: Dependency, feature: string)
    | ByTable(cause: Activation, owner: Package, entry: string, package: string, feature: string)

  function Enabled(a: Activation): (string, string) {
    match a
    case Asked(p, f) => (p, f)
    case ByEdge(_, d, f) => (d.name, f)
    case ByTable(_, _, _, p, f) => (p, f)
  }

  /** What a table entry of `owner` names: a feature of its own, or one of a dependency by its local
      name, strongly or weakly. */
  predicate EntryMeans(owner: Package, entry: string, package: string, feature: string) {
    || (package == owner.name && entry == feature)
    || (exists d | d in owner.dependencies ::
          d.name == package && (entry == LocalName(d) + "/" + feature || entry == LocalName(d) + "?/" + feature))
  }

  predicate IsActivation(a: Activation, packages: seq<Package>) {
    match a
    case Asked(p, f) => (p, f) != (HOST, TEST_SUPPORT)
    case ByEdge(p, d, f) => p in packages && d in p.dependencies && !IsDev(d) && (f in d.features || f == "default")
    case ByTable(cause, owner, entry, p, f) =>
      && IsActivation(cause, packages)
      && owner in packages && Enabled(cause).0 == owner.name && Enabled(cause).1 in owner.features
      && entry in owner.features[Enabled(cause).1]
      && EntryMeans(owner, entry, p, f)
  }

  /** No chain of non-dev edges and feature tables switches the host's `test-support` on, unless it
      is asked for by name. */
  lemma TestSupportStaysOff(a: Activation, packages: seq<Package>)
    requires Silent(packages) && IsActivation(a, packages)
    ensures Enabled(a) != (HOST, TEST_SUPPORT)
  {
    match a
    case Asked(_, _) =>
    case ByEdge(p, d, f) =>
      assert EdgeEnablesOk(d);
    case ByTable(cause, owner, entry, p, f) =>
      assert FeatureOk(owner, Enabled(cause).1);
      assert !Enables(owner, entry);
  }
}
