/**
 The scan that comes before the expansion of plugins: it collects the names of all plugins that the
 registered sources bring in, and rejects two different plugins of one name.
 */
module PluginScan {
  import opened Wrappers
  import opened Plugins

  /** Names by plugin; a plugin without a name is not in the map. */
  type Names = map<Id, string>

  datatype Scan = Scan(scanned: set<Id>, pluginsByName: map<string, Id>)

  /** Duplicate carries the plugin whose name was taken. */
  datatype ScanOutcome = Scanned(scan: Scan) | Duplicate(plugin: Id)

  /** The plugins that a plugin brings in itself: dependencies given directly, then nested ones. */
  function Brought(plugin: Plugin): seq<Id> {
    DirectOnes(plugin.dependsOn) + NestedOnes(Flatten(plugin.entries))
  }

  function DirectOnes(dependencies: seq<Dependency>): seq<Id> {
    if dependencies == [] then []
    else (match dependencies[0] case Direct(p) => [p] case ByName(_) => []) + DirectOnes(dependencies[1..])
  }

  function NestedOnes(items: seq<Item>): seq<Id> {
    if items == [] then []
    else (match items[0] case Visit(p) => [p] case _ => []) + NestedOnes(items[1..])
  }

  /** Every plugin that is referred to exists. */
  ghost predicate Closed(plugins: map<Id, Plugin>) {
    forall p, q :: p in plugins && q in Brought(plugins[p]) ==> q in plugins
  }

  function Unscanned(plugins: map<Id, Plugin>, scanned: set<Id>): set<Id> {
    set p | p in plugins && p !in scanned
  }

  function ScanPlugin(plugins: map<Id, Plugin>, names: Names, p: Id, st: Scan): (r: ScanOutcome)
    ensures r.Scanned? ==> st.scanned <= r.scan.scanned
    decreases |Unscanned(plugins, st.scanned)|, 0, 0
  {
    if p in names && names[p] in st.pluginsByName && st.pluginsByName[names[p]] != p then Duplicate(p)
    else
      var named := if p in names then st.pluginsByName[names[p] := p] else st.pluginsByName;
      if p in st.scanned || p !in plugins then Scanned(st.(pluginsByName := named))
      else
        FewerUnscanned(plugins, st.scanned, p);
        ScanAll(plugins, names, Brought(plugins[p]), Scan(st.scanned + {p}, named))
  }

  function ScanAll(plugins: map<Id, Plugin>, names: Names, ps: seq<Id>, st: Scan): (r: ScanOutcome)
    ensures r.Scanned? ==> st.scanned <= r.scan.scanned
    decreases |Unscanned(plugins, st.scanned)|, 1, |ps|
  {
    if ps == [] then Scanned(st)
    else match ScanPlugin(plugins, names, ps[0], st)
      case Duplicate(q) => Duplicate(q)
      case Scanned(after) =>
        NoMoreUnscanned(plugins, st.scanned, after.scanned);
        ScanAll(plugins, names, ps[1..], after)
  }

  lemma FewerUnscanned(plugins: map<Id, Plugin>, scanned: set<Id>, p: Id)
    requires p in plugins && p !in scanned
    ensures |Unscanned(plugins, scanned + {p})| < |Unscanned(plugins, scanned)|
  {
    assert Unscanned(plugins, scanned) == Unscanned(plugins, scanned + {p}) + {p};
  }

  lemma NoMoreUnscanned(plugins: map<Id, Plugin>, scanned: set<Id>, more: set<Id>)
    requires scanned <= more
    ensures |Unscanned(plugins, more)| <= |Unscanned(plugins, scanned)|
  {
    var left := Unscanned(plugins, more);
    assert Unscanned(plugins, scanned) == left + (Unscanned(plugins, scanned) - left);
  }

  // ----- the names are exactly those of the plugins brought in -----

  ghost predicate BroughtBy(plugins: map<Id, Plugin>, p: Id, q: Id) {
    p in plugins && q in Brought(plugins[p])
  }

  /** A chain of plugins, each brought in by the one before. */
  ghost predicate Chain(plugins: map<Id, Plugin>, path: seq<Id>) {
    path != [] && forall i :: 0 < i < |path| ==> BroughtBy(plugins, path[i - 1], path[i])
  }

  ghost predicate BringsIn(plugins: map<Id, Plugin>, p: Id, q: Id) {
    exists path :: Chain(plugins, path) && path[0] == p && path[|path| - 1] == q
  }

  /** The names seen so far are those of the plugins seen so far, and each is the name of one plugin only. */
  ghost predicate NamesFit(names: Names, st: Scan) {
    && (forall p :: p in st.scanned && p in names ==> names[p] in st.pluginsByName && st.pluginsByName[names[p]] == p)
    && (forall name :: name in st.pluginsByName ==>
         var p := st.pluginsByName[name]; p in st.scanned && p in names && names[p] == name)
  }

  /** Plugins seen, but for those still in progress, have brought in theirs. */
  ghost predicate Through(plugins: map<Id, Plugin>, st: Scan, inProgress: set<Id>) {
    forall p, q :: p in st.scanned && p !in inProgress && BroughtBy(plugins, p, q) ==> q in st.scanned
  }

  lemma {:induction false} ScanPluginKeeps(plugins: map<Id, Plugin>, names: Names, p: Id, st: Scan, inProgress: set<Id>)
    requires Closed(plugins) && p in plugins && NamesFit(names, st) && Through(plugins, st, inProgress)
    requires ScanPlugin(plugins, names, p, st).Scanned?
    ensures var after := ScanPlugin(plugins, names, p, st).scan;
      NamesFit(names, after) && Through(plugins, after, inProgress) && p in after.scanned
    decreases |Unscanned(plugins, st.scanned)|, 0, 0
  {
    var named := if p in names then st.pluginsByName[names[p] := p] else st.pluginsByName;
    if p !in st.scanned {
      FewerUnscanned(plugins, st.scanned, p);
      ScanAllKeeps(plugins, names, Brought(plugins[p]), Scan(st.scanned + {p}, named), inProgress + {p});
    }
  }

  lemma {:induction false} ScanAllKeeps(
    plugins: map<Id, Plugin>, names: Names, ps: seq<Id>, st: Scan, inProgress: set<Id>)
    requires Closed(plugins) && (forall q :: q in ps ==> q in plugins)
    requires NamesFit(names, st) && Through(plugins, st, inProgress) && ScanAll(plugins, names, ps, st).Scanned?
    ensures var after := ScanAll(plugins, names, ps, st).scan;
      NamesFit(names, after) && Through(plugins, after, inProgress) && forall q :: q in ps ==> q in after.scanned
    decreases |Unscanned(plugins, st.scanned)|, 1, |ps|
  {
    if ps != [] {
      assert ps[0] in ps;
      var after := ScanPlugin(plugins, names, ps[0], st).scan;
      NoMoreUnscanned(plugins, st.scanned, after.scanned);
      ScanPluginKeeps(plugins, names, ps[0], st, inProgress);
      ScanAllKeeps(plugins, names, ps[1..], after, inProgress);
    }
  }

  lemma BringsItself(plugins: map<Id, Plugin>, p: Id)
    ensures BringsIn(plugins, p, p)
  {
    assert Chain(plugins, [p]);
  }

  lemma BringsOn(plugins: map<Id, Plugin>, p: Id, q: Id, t: Id)
    requires BringsIn(plugins, p, q) && BroughtBy(plugins, q, t)
    ensures BringsIn(plugins, p, t)
  {
    var path :| Chain(plugins, path) && path[0] == p && path[|path| - 1] == q;
    assert Chain(plugins, path + [t]);
  }

  /** All plugins seen so far are brought in by the root. */
  ghost predicate FromRoot(plugins: map<Id, Plugin>, root: Id, ps: set<Id>) {
    forall p :: p in ps ==> BringsIn(plugins, root, p)
  }

  /** Two different plugins of one name. */
  ghost predicate Clash(plugins: map<Id, Plugin>, names: Names, root: Id, p: Id, q: Id) {
    && p != q && BringsIn(plugins, root, p) && BringsIn(plugins, root, q)
    && p in names && q in names && names[p] == names[q]
  }

  ghost predicate Clashes(plugins: map<Id, Plugin>, names: Names, root: Id, p: Id) {
    exists q :: Clash(plugins, names, root, p, q)
  }

  /** The scan sees only what the root brings in, and a duplicate is one. */
  lemma {:induction false} ScanPluginSees(plugins: map<Id, Plugin>, names: Names, root: Id, p: Id, st: Scan)
    requires NamesFit(names, st) && FromRoot(plugins, root, st.scanned) && BringsIn(plugins, root, p) && Closed(plugins)
    requires p in plugins
    ensures var r := ScanPlugin(plugins, names, p, st);
      && (r.Scanned? ==> FromRoot(plugins, root, r.scan.scanned))
      && (r.Duplicate? ==> Clashes(plugins, names, root, r.plugin))
    decreases |Unscanned(plugins, st.scanned)|, 0, 0
  {
    if p in names && names[p] in st.pluginsByName && st.pluginsByName[names[p]] != p {
      assert Clash(plugins, names, root, p, st.pluginsByName[names[p]]);
    } else if p !in st.scanned {
      var named := if p in names then st.pluginsByName[names[p] := p] else st.pluginsByName;
      FewerUnscanned(plugins, st.scanned, p);
      forall q | q in Brought(plugins[p]) ensures BringsIn(plugins, root, q) {
        assert BroughtBy(plugins, p, q);
        BringsOn(plugins, root, p, q);
      }
      ScanAllSees(plugins, names, root, Brought(plugins[p]), Scan(st.scanned + {p}, named));
    }
  }

  lemma {:induction false} ScanAllSees(
    plugins: map<Id, Plugin>, names: Names, root: Id, ps: seq<Id>, st: Scan)
    requires NamesFit(names, st) && FromRoot(plugins, root, st.scanned) && Closed(plugins)
    requires forall q :: q in ps ==> q in plugins && BringsIn(plugins, root, q)
    ensures var r := ScanAll(plugins, names, ps, st);
      && (r.Scanned? ==> FromRoot(plugins, root, r.scan.scanned))
      && (r.Duplicate? ==> Clashes(plugins, names, root, r.plugin))
    decreases |Unscanned(plugins, st.scanned)|, 1, |ps|
  {
    if ps != [] {
      assert ps[0] in ps;
      ScanPluginSees(plugins, names, root, ps[0], st);
      var first := ScanPlugin(plugins, names, ps[0], st);
      if first.Scanned? {
        NoMoreUnscanned(plugins, st.scanned, first.scan.scanned);
        assert Through(plugins, st, st.scanned);
        ScanPluginKeeps(plugins, names, ps[0], st, st.scanned);
        ScanAllSees(plugins, names, root, ps[1..], first.scan);
      }
    }
  }

  lemma {:induction false} ThroughReaches(plugins: map<Id, Plugin>, st: Scan, path: seq<Id>)
    requires Through(plugins, st, {}) && Chain(plugins, path) && path[0] in st.scanned
    ensures path[|path| - 1] in st.scanned
    decreases |path|
  {
    if |path| > 1 {
      assert BroughtBy(plugins, path[0], path[1]);
      ThroughReaches(plugins, st, path[1..]);
    }
  }

  const EMPTY := Scan({}, map[])

  /**
   The scan fails exactly if two different plugins brought in have one name. Otherwise it has seen
   exactly the plugins brought in, and the names it hands on are theirs.
   */
  lemma ScanExactly(plugins: map<Id, Plugin>, names: Names, root: Id)
    requires Closed(plugins) && root in plugins
    ensures var r := ScanPlugin(plugins, names, root, EMPTY);
      && (r.Duplicate? ==> Clashes(plugins, names, root, r.plugin))
      && (r.Scanned? ==> forall p :: !Clashes(plugins, names, root, p))
      && (r.Scanned? ==> forall p :: p in r.scan.scanned <==> BringsIn(plugins, root, p))
      && (r.Scanned? ==> forall p, name :: BringsIn(plugins, root, p) && p in names && names[p] == name
                                      <==> name in r.scan.pluginsByName && r.scan.pluginsByName[name] == p)
  {
    BringsItself(plugins, root);
    ScanPluginSees(plugins, names, root, root, EMPTY);
    if ScanPlugin(plugins, names, root, EMPTY).Scanned? {
      var after := ScanPlugin(plugins, names, root, EMPTY).scan;
      ScanPluginKeeps(plugins, names, root, EMPTY, {});
      forall p | BringsIn(plugins, root, p) ensures p in after.scanned {
        var path :| Chain(plugins, path) && path[0] == root && path[|path| - 1] == p;
        ThroughReaches(plugins, after, path);
      }
    }
  }

  // ----- the scan and the expansion together -----

  /** The scanning half of the resolution state. */
  class Scanner {
    const plugins: map<Id, Plugin>
    const names: Names
    var scanned: set<Id>
    var pluginsByName: map<string, Id>

    constructor (plugins: map<Id, Plugin>, names: Names)
      ensures this.plugins == plugins && this.names == names && scanned == {} && pluginsByName == map[]
    {
      this.plugins, this.names := plugins, names;
      scanned, pluginsByName := {}, map[];
    }

    /** Some(p) is the duplicate-name error for `p`. */
    method ScanRegistration(p: Id) returns (failure: Option<Id>)
      modifies this
      ensures var r := ScanPlugin(plugins, names, p, Scan(old(scanned), old(pluginsByName)));
        if failure.None? then r == Scanned(Scan(scanned, pluginsByName)) else r == Duplicate(failure.value)
      decreases |Unscanned(plugins, scanned)|
    {
      if p in names && names[p] in pluginsByName && pluginsByName[names[p]] != p { return Some(p); }
      if p in names { pluginsByName := pluginsByName[names[p] := p]; }
      if p in scanned || p !in plugins { return None; }
      FewerUnscanned(plugins, scanned, p);
      ghost var outer := |Unscanned(plugins, scanned)|;
      scanned := scanned + {p};
      ghost var start := Scan(scanned, pluginsByName);
      var brought := Brought(plugins[p]);
      for i := 0 to |brought|
        invariant |Unscanned(plugins, scanned)| < outer
        invariant ScanAll(plugins, names, brought[i..], Scan(scanned, pluginsByName))
               == ScanAll(plugins, names, brought, start)
      {
        ghost var before := Scan(scanned, pluginsByName);
        assert brought[i..][0] == brought[i] && brought[i..][1..] == brought[i + 1..];
        failure := ScanRegistration(brought[i]);
        if failure.Some? { return; }
        NoMoreUnscanned(plugins, before.scanned, scanned);
      }
      failure := None;
    }
  }

  datatype Resolution =
    | Entries(expanded: seq<Emit>)
    | DuplicateName(plugin: Id)
    | CircularDependency(cycle: seq<Id>)
    | MissingDependency

  function Resolve(plugins: map<Id, Plugin>, names: Names, root: Id): Resolution {
    match ScanPlugin(plugins, names, root, EMPTY)
    case Duplicate(p) => DuplicateName(p)
    case Scanned(scan) =>
      match ExpandPlugin(GraphOf(plugins, scan.pluginsByName), root, [], NOTHING)
      case Done(after) => Entries(after.expanded)
      case Circular(cycle) => CircularDependency(cycle)
      case Missing => MissingDependency
  }

  /** `root` stands for the list that is registered: its entries are the sources, and nothing refers to it. */
  method ResolveChimpbaseEntries(plugins: map<Id, Plugin>, names: Names, root: Id) returns (r: Resolution)
    requires root in plugins
    ensures r == Resolve(plugins, names, root)
  {
    var scanner := new Scanner(plugins, names);
    var duplicate := scanner.ScanRegistration(root);
    if duplicate.Some? { return DuplicateName(duplicate.value); }
    var resolver := new Resolver(GraphOf(plugins, scanner.pluginsByName));
    var failure := resolver.Expand(root);
    CyclesAreLong(resolver.g, root);
    match failure {
      case None => return Entries(resolver.expanded);
      case Some(cycle) => return if cycle == [] then MissingDependency else CircularDependency(cycle);
    }
  }

  lemma CyclesAreLong(g: Graph, root: Id)
    ensures ExpandPlugin(g, root, [], NOTHING).Circular? ==> ExpandPlugin(g, root, [], NOTHING).cycle != []
  {
    if ExpandPlugin(g, root, [], NOTHING).Circular? {
      assert [] + [root] == [root];
      PluginCycle(g, root, [], NOTHING);
    }
  }

  lemma {:induction false} DirectListed(dependencies: seq<Dependency>, p: Id)
    requires Direct(p) in dependencies
    ensures p in DirectOnes(dependencies)
  {
    if dependencies[0] != Direct(p) { DirectListed(dependencies[1..], p); }
  }

  lemma {:induction false} NestedListed(items: seq<Item>, p: Id)
    requires Visit(p) in items
    ensures p in NestedOnes(items)
  {
    if items[0] != Visit(p) { NestedListed(items[1..], p); }
  }

  lemma ItemGrounded(plugin: Plugin, pluginsByName: map<string, Id>, i: nat)
    requires i < |ItemsOf(plugin, pluginsByName)| && ItemsOf(plugin, pluginsByName)[i].Visit?
    ensures var q := ItemsOf(plugin, pluginsByName)[i].plugin; q in Brought(plugin) || q in pluginsByName.Values
  {
    var n := |plugin.dependsOn|;
    var items := Flatten(plugin.entries);
    hide Flatten;
    hide NestedOnes;
    hide DirectOnes;
    if i < n {
      var dependency := plugin.dependsOn[i];
      if dependency.Direct? { DirectListed(plugin.dependsOn, dependency.plugin); }
    } else {
      assert ItemsOf(plugin, pluginsByName)[i] == items[i - n];
      NestedListed(items, items[i - n].plugin);
    }
  }

  lemma GraphGrounded(plugins: map<Id, Plugin>, pluginsByName: map<string, Id>)
    requires Closed(plugins) && forall p :: p in pluginsByName.Values ==> p in plugins
    ensures Grounded(GraphOf(plugins, pluginsByName))
  {
    hide ItemsOf;
    hide Brought;
    var g := GraphOf(plugins, pluginsByName);
    forall p, q | Edge(g, p, q) ensures q in g {
      var i :| 0 <= i < |g[p]| && g[p][i] == Visit(q);
      ItemGrounded(plugins[p], pluginsByName, i);
    }
  }

  lemma {:induction false} ChainStays(plugins: map<Id, Plugin>, path: seq<Id>)
    requires Closed(plugins) && Chain(plugins, path) && path[0] in plugins
    ensures path[|path| - 1] in plugins
    decreases |path|
  {
    if |path| > 1 {
      assert BroughtBy(plugins, path[0], path[1]);
      ChainStays(plugins, path[1..]);
    }
  }

  /** What is registered, as a graph, once its names are known to be unique. */
  function RegisteredGraph(plugins: map<Id, Plugin>, names: Names, root: Id): Graph
    requires ScanPlugin(plugins, names, root, EMPTY).Scanned?
  {
    GraphOf(plugins, ScanPlugin(plugins, names, root, EMPTY).scan.pluginsByName)
  }

  lemma BroughtExists(plugins: map<Id, Plugin>, root: Id, p: Id)
    requires Closed(plugins) && root in plugins && BringsIn(plugins, root, p)
    ensures p in plugins
  {
    var path :| Chain(plugins, path) && path[0] == root && path[|path| - 1] == p;
    ChainStays(plugins, path);
  }

  lemma RegisteredGrounded(plugins: map<Id, Plugin>, names: Names, root: Id)
    requires Closed(plugins) && root in plugins && ScanPlugin(plugins, names, root, EMPTY).Scanned?
    ensures Grounded(RegisteredGraph(plugins, names, root)) && root in RegisteredGraph(plugins, names, root)
  {
    hide ScanPlugin;
    hide Brought;
    hide Chain;
    hide Closed;
    ScanExactly(plugins, names, root);
    var pluginsByName := ScanPlugin(plugins, names, root, EMPTY).scan.pluginsByName;
    forall p | p in pluginsByName.Values ensures p in plugins {
      var name :| name in pluginsByName && pluginsByName[name] == p;
      BroughtExists(plugins, root, p);
    }
    GraphGrounded(plugins, pluginsByName);
  }

  /**
   Registration succeeds exactly if names are unique, nothing that can be reached is part of a cycle,
   and every name that something reachable depends on is registered.
   */
  lemma RegistrationSucceedsExactly(plugins: map<Id, Plugin>, names: Names, root: Id)
    requires Closed(plugins) && root in plugins
    ensures Resolve(plugins, names, root).DuplicateName?
      <==> exists p :: Clashes(plugins, names, root, p)
    ensures Resolve(plugins, names, root).Entries? <==>
      && ScanPlugin(plugins, names, root, EMPTY).Scanned?
      && AcyclicFrom(RegisteredGraph(plugins, names, root), root)
      && AllNamedFrom(RegisteredGraph(plugins, names, root), root)
  {
    ScanExactly(plugins, names, root);
    hide ScanPlugin;
    hide ExpandPlugin;
    hide AcyclicFrom;
    hide AllNamedFrom;
    if ScanPlugin(plugins, names, root, EMPTY).Scanned? {
      RegisteredGrounded(plugins, names, root);
      SucceedsExactly(RegisteredGraph(plugins, names, root), root);
    }
  }
}
