/**
 Resolving registrations: plugins pull in what they depend on before their own entries, each plugin
 is expanded once, and a cycle is an error.
 */
module Plugins {
  import opened Wrappers

  /** Plugins are objects; an id stands for the identity of one. */
  type Id = nat

  datatype Dependency = ByName(name: string) | Direct(plugin: Id)

  /** An entry of its own, a nested plugin, or an array or map of those. */
  datatype Source = Registration | Nested(plugin: Id) | Group(sources: seq<Source>)

  datatype Plugin = Plugin(dependsOn: seq<Dependency>, entries: seq<Source>)

  /** What expanding a plugin comes across, in order. */
  datatype Item = Own | Visit(plugin: Id) | Unresolved(name: string)

  type Graph = map<Id, seq<Item>>

  function Flatten(sources: seq<Source>): seq<Item>
    decreases sources
  {
    if sources == [] then []
    else
      var first := match sources[0]
        case Registration => [Own]
        case Nested(plugin) => [Visit(plugin)]
        case Group(inner) => Flatten(inner);
      first + Flatten(sources[1..])
  }

  function ResolveDependency(dependency: Dependency, pluginsByName: map<string, Id>): Item {
    match dependency
    case Direct(plugin) => Visit(plugin)
    case ByName(name) => if name in pluginsByName then Visit(pluginsByName[name]) else Unresolved(name)
  }

  /** Dependencies come first, then the entries. */
  function ItemsOf(plugin: Plugin, pluginsByName: map<string, Id>): seq<Item> {
    var n := |plugin.dependsOn|;
    seq(n, i requires 0 <= i < n => ResolveDependency(plugin.dependsOn[i], pluginsByName)) + Flatten(plugin.entries)
  }

  function GraphOf(plugins: map<Id, Plugin>, pluginsByName: map<string, Id>): Graph {
    map p | p in plugins :: ItemsOf(plugins[p], pluginsByName)
  }

  // ----- the expansion -----

  /** One emitted entry: the item at `slot` of `owner`. */
  datatype Emit = Emit(owner: Id, slot: nat)

  datatype State = State(visited: seq<Id>, expanded: seq<Emit>)

  datatype Outcome = Done(state: State) | Circular(cycle: seq<Id>) | Missing

  function Free(g: Graph, stack: seq<Id>): set<Id> {
    set p | p in g && p !in stack
  }

  function IndexOf(stack: seq<Id>, p: Id): (i: nat)
    requires p in stack
    ensures i < |stack| && stack[i] == p
  {
    if stack[0] == p then 0 else 1 + IndexOf(stack[1..], p)
  }

  function ExpandPlugin(g: Graph, p: Id, stack: seq<Id>, st: State): Outcome
    decreases |Free(g, stack)|, 0, 0
  {
    if p !in g then Missing
    else if p in st.visited then Done(st)
    else if p in stack then Circular(stack[IndexOf(stack, p)..] + [p])
    else
      FewerFree(g, stack, p);
      match ExpandItems(g, p, 0, stack + [p], st)
      case Done(after) => Done(after.(visited := after.visited + [p]))
      case failure => failure
  }

  lemma FewerFree(g: Graph, stack: seq<Id>, p: Id)
    requires p in g && p !in stack
    ensures |Free(g, stack + [p])| < |Free(g, stack)|
  {
    assert Free(g, stack) == Free(g, stack + [p]) + {p};
  }

  function ExpandItems(g: Graph, owner: Id, from: nat, stack: seq<Id>, st: State): Outcome
    requires owner in g && from <= |g[owner]|
    decreases |Free(g, stack)|, 1, |g[owner]| - from
  {
    if from == |g[owner]| then Done(st)
    else match g[owner][from]
      case Own => ExpandItems(g, owner, from + 1, stack, st.(expanded := st.expanded + [Emit(owner, from)]))
      case Unresolved(_) => Missing
      case Visit(q) =>
        match ExpandPlugin(g, q, stack, st)
        case Done(after) => ExpandItems(g, owner, from + 1, stack, after)
        case failure => failure
  }

  /** The resolution state of the runtime and its recursive expansion. */
  class Resolver {
    const g: Graph
    var expanded: seq<Emit>
    var pluginStack: seq<Id>
    var visited: seq<Id>

    constructor (g: Graph)
      ensures this.g == g && expanded == [] && pluginStack == [] && visited == []
    {
      this.g := g;
      expanded, pluginStack, visited := [], [], [];
    }

    /** Some(cycle) is the error with that cycle, and an empty cycle a missing dependency. */
    method Expand(p: Id) returns (failure: Option<seq<Id>>)
      modifies this
      ensures match ExpandPlugin(g, p, old(pluginStack), State(old(visited), old(expanded)))
        case Done(after) => failure.None? && State(visited, expanded) == after && pluginStack == old(pluginStack)
        case Circular(cycle) => failure == Some(cycle)
        case Missing => failure == Some([])
      decreases |Free(g, pluginStack)|
    {
      if p !in g { return Some([]); }
      if p in visited { return None; }
      if p in pluginStack {
        return Some(pluginStack[IndexOf(pluginStack, p)..] + [p]);
      }
      ghost var start := State(visited, expanded);
      FewerFree(g, pluginStack, p);
      pluginStack := pluginStack + [p];
      for i := 0 to |g[p]|
        invariant pluginStack == old(pluginStack) + [p]
        invariant ExpandItems(g, p, i, pluginStack, State(visited, expanded))
               == ExpandItems(g, p, 0, pluginStack, start)
      {
        match g[p][i] {
          case Own => expanded := expanded + [Emit(p, i)];
          case Unresolved(_) => return Some([]);
          case Visit(q) =>
            failure := Expand(q);
            if failure.Some? { return; }
        }
      }
      pluginStack := pluginStack[..|pluginStack| - 1];
      visited := visited + [p];
      failure := None;
    }
  }

  // ----- what "depends on" means -----

  ghost predicate Edge(g: Graph, p: Id, q: Id) {
    p in g && Visit(q) in g[p]
  }

  ghost predicate Path(g: Graph, path: seq<Id>) {
    path != [] && forall i :: 0 < i < |path| ==> Edge(g, path[i - 1], path[i])
  }

  /** Through dependencies and nesting, in any number of steps. */
  ghost predicate Reaches(g: Graph, p: Id, q: Id) {
    exists path :: Path(g, path) && path[0] == p && path[|path| - 1] == q
  }

  ghost predicate IsCycle(g: Graph, cycle: seq<Id>) {
    |cycle| > 1 && Path(g, cycle) && cycle[0] == cycle[|cycle| - 1]
  }

  // ----- what the expansion keeps -----

  ghost predicate IsOwn(g: Graph, e: Emit) {
    e.owner in g && e.slot < |g[e.owner]| && g[e.owner][e.slot].Own?
  }

  /** All own entries of a plugin are on the list. */
  ghost predicate Complete(g: Graph, p: Id, log: seq<Emit>) {
    p in g && forall slot :: IsOwn(g, Emit(p, slot)) ==> Emit(p, slot) in log
  }

  /** An entry comes after its plugin's earlier ones, and after all of what its plugin visits earlier, however indirectly. */
  ghost predicate Supported(g: Graph, e: Emit, before: seq<Emit>) {
    && IsOwn(g, e)
    && (forall i :: 0 <= i < e.slot && g[e.owner][i].Own? ==> Emit(e.owner, i) in before)
    && (forall i, t :: 0 <= i < e.slot && g[e.owner][i].Visit? && Reaches(g, g[e.owner][i].plugin, t) ==>
         Complete(g, t, before))
  }

  ghost predicate Ordered(g: Graph, log: seq<Emit>) {
    && (forall k :: 0 <= k < |log| ==> Supported(g, log[k], log[..k]))
    && (forall j, k :: 0 <= j < k < |log| ==> log[j] != log[k])
  }

  /** A finished plugin comes after all it visits, and is complete. */
  ghost predicate Finished(g: Graph, st: State) {
    && (forall i, q :: 0 <= i < |st.visited| && Edge(g, st.visited[i], q) ==> q in st.visited[..i])
    && (forall i, j :: 0 <= i < j < |st.visited| ==> st.visited[i] != st.visited[j])
    && (forall p :: p in st.visited ==> Complete(g, p, st.expanded))
  }

  /** Every emitted entry belongs to a plugin that is finished or being expanded. */
  ghost predicate Inv(g: Graph, stack: seq<Id>, st: State) {
    && Ordered(g, st.expanded) && Finished(g, st)
    && (forall e :: e in st.expanded ==> e.owner in st.visited || e.owner in stack)
    && (forall p :: p in stack ==> p !in st.visited)
  }

  lemma {:induction false} FinishedReach(g: Graph, st: State, path: seq<Id>)
    requires Finished(g, st) && Path(g, path) && path[0] in st.visited
    ensures path[|path| - 1] in st.visited
    decreases |path|
  {
    if |path| > 1 {
      assert Edge(g, path[0], path[1]);
      var i :| 0 <= i < |st.visited| && st.visited[i] == path[0];
      assert path[1] in st.visited[..i];
      FinishedReach(g, st, path[1..]);
    }
  }

  /** The state of one plugin in the middle of its items. */
  ghost predicate UpTo(g: Graph, owner: Id, from: nat, st: State)
    requires owner in g && from <= |g[owner]|
  {
    && (forall i :: 0 <= i < from && g[owner][i].Visit? ==> g[owner][i].plugin in st.visited)
    && (forall i :: 0 <= i < from && g[owner][i].Own? ==> Emit(owner, i) in st.expanded)
    && (forall e :: e in st.expanded && e.owner == owner ==> e.slot < from)
  }

  lemma EmitKeeps(g: Graph, owner: Id, from: nat, stack: seq<Id>, st: State)
    requires owner in g && from < |g[owner]| && g[owner][from].Own? && owner in stack
    requires Inv(g, stack, st) && UpTo(g, owner, from, st)
    ensures var after := st.(expanded := st.expanded + [Emit(owner, from)]);
      Inv(g, stack, after) && UpTo(g, owner, from + 1, after)
  {
    var e := Emit(owner, from);
    var log := st.expanded + [e];
    forall i, t | 0 <= i < from && g[owner][i].Visit? && Reaches(g, g[owner][i].plugin, t)
      ensures Complete(g, t, st.expanded)
    {
      var path :| Path(g, path) && path[0] == g[owner][i].plugin && path[|path| - 1] == t;
      FinishedReach(g, st, path);
    }
    assert Supported(g, e, st.expanded);
    forall k | 0 <= k < |log| ensures Supported(g, log[k], log[..k]) {
      assert log[..k] == st.expanded[..k];
      assert k == |st.expanded| ==> st.expanded[..k] == st.expanded;
    }
  }

  lemma {:induction false} PluginKeeps(g: Graph, p: Id, stack: seq<Id>, st: State)
    requires Inv(g, stack, st) && ExpandPlugin(g, p, stack, st).Done?
    ensures var after := ExpandPlugin(g, p, stack, st).state;
      && Inv(g, stack, after) && p in after.visited
      && st.visited <= after.visited && st.expanded <= after.expanded
      && (forall e :: e in after.expanded && e !in st.expanded ==> e.owner in after.visited)
    decreases |Free(g, stack)|, 0, 0
  {
    if p !in st.visited {
      FewerFree(g, stack, p);
      var inner := stack + [p];
      assert forall x :: x in inner <==> x in stack || x == p;
      ItemsKeep(g, p, 0, inner, st);
      var last := ExpandItems(g, p, 0, inner, st).state;
      var after := last.(visited := last.visited + [p]);
      FinishPlugin(g, p, stack, last);
    }
  }

  lemma FinishPlugin(g: Graph, p: Id, stack: seq<Id>, last: State)
    requires p in g && p !in stack && Inv(g, stack + [p], last) && UpTo(g, p, |g[p]|, last)
    ensures Inv(g, stack, last.(visited := last.visited + [p]))
  {
    var after := last.(visited := last.visited + [p]);
    assert p in stack + [p];
    forall i, q | 0 <= i < |after.visited| && Edge(g, after.visited[i], q) ensures q in after.visited[..i] {
      assert after.visited[..i] == last.visited[..i];
      assert i == |last.visited| ==> last.visited[..i] == last.visited;
    }
    forall x | x in after.visited ensures Complete(g, x, after.expanded) {
      assert x in last.visited || x == p;
    }
    forall e | e in after.expanded ensures e.owner in after.visited || e.owner in stack {
      assert e.owner in last.visited || e.owner in stack + [p];
    }
    forall x | x in stack ensures x !in after.visited { assert x in stack + [p]; }
  }

  lemma VisitKeeps(g: Graph, owner: Id, from: nat, stack: seq<Id>, st: State, after: State)
    requires owner in g && from < |g[owner]| && g[owner][from].Visit? && owner in stack
    requires UpTo(g, owner, from, st) && Inv(g, stack, after) && g[owner][from].plugin in after.visited
    requires st.visited <= after.visited && st.expanded <= after.expanded
    requires forall e :: e in after.expanded && e !in st.expanded ==> e.owner in after.visited
    ensures UpTo(g, owner, from + 1, after)
  {
    hide Ordered;
    hide Finished;
    assert owner !in after.visited;
  }

  lemma {:induction false} ItemsKeep(g: Graph, owner: Id, from: nat, stack: seq<Id>, st: State)
    requires owner in g && from <= |g[owner]| && owner in stack
    requires Inv(g, stack, st) && UpTo(g, owner, from, st) && ExpandItems(g, owner, from, stack, st).Done?
    ensures var after := ExpandItems(g, owner, from, stack, st).state;
      && Inv(g, stack, after) && UpTo(g, owner, |g[owner]|, after)
      && st.visited <= after.visited && st.expanded <= after.expanded
      && (forall e :: e in after.expanded && e !in st.expanded ==> e.owner in after.visited || e.owner == owner)
    decreases |Free(g, stack)|, 1, |g[owner]| - from
  {
    hide Inv;
    hide UpTo;
    if from < |g[owner]| {
      match g[owner][from]
      case Own =>
        EmitKeeps(g, owner, from, stack, st);
        ItemsKeep(g, owner, from + 1, stack, st.(expanded := st.expanded + [Emit(owner, from)]));
      case Visit(q) =>
        var after := ExpandPlugin(g, q, stack, st).state;
        PluginKeeps(g, q, stack, st);
        VisitKeeps(g, owner, from, stack, st, after);
        ItemsKeep(g, owner, from + 1, stack, after);
      case Unresolved(_) =>
    }
  }

  // ----- topological order -----

  lemma ReachesItself(g: Graph, p: Id)
    ensures Reaches(g, p, p)
  {
    assert Path(g, [p]);
  }

  lemma ReachesVia(g: Graph, p: Id, q: Id, t: Id)
    requires Edge(g, p, q) && Reaches(g, q, t)
    ensures Reaches(g, p, t)
  {
    var path :| Path(g, path) && path[0] == q && path[|path| - 1] == t;
    assert Path(g, [p] + path);
  }

  lemma {:induction false} PluginReaches(g: Graph, p: Id, stack: seq<Id>, st: State, x: Id)
    requires ExpandPlugin(g, p, stack, st).Done? && x in ExpandPlugin(g, p, stack, st).state.visited
    ensures x in st.visited || Reaches(g, p, x)
    decreases |Free(g, stack)|, 0, 0
  {
    if p !in st.visited {
      FewerFree(g, stack, p);
      ReachesItself(g, p);
      if x != p { ItemsReach(g, p, 0, stack + [p], st, x); }
    }
  }

  lemma {:induction false} ItemsReach(g: Graph, owner: Id, from: nat, stack: seq<Id>, st: State, x: Id)
    requires owner in g && from <= |g[owner]| && ExpandItems(g, owner, from, stack, st).Done?
    requires x in ExpandItems(g, owner, from, stack, st).state.visited
    ensures x in st.visited || Reaches(g, owner, x)
    decreases |Free(g, stack)|, 1, |g[owner]| - from
  {
    if from < |g[owner]| {
      match g[owner][from]
      case Own => ItemsReach(g, owner, from + 1, stack, st.(expanded := st.expanded + [Emit(owner, from)]), x);
      case Visit(q) =>
        var after := ExpandPlugin(g, q, stack, st).state;
        ItemsReach(g, owner, from + 1, stack, after, x);
        if x in after.visited {
          PluginReaches(g, q, stack, st, x);
          if Reaches(g, q, x) { ReachesVia(g, owner, q, x); }
        }
      case Unresolved(_) =>
    }
  }

  const NOTHING := State([], [])

  /**
   When the expansion of the registered sources succeeds, it has expanded exactly the plugins that can be
   reached, emitted each of their own entries exactly once and nothing else, and each entry after those of
   everything its plugin visits before it, directly or not.
   */
  lemma ExpansionIsTopological(g: Graph, root: Id)
    requires ExpandPlugin(g, root, [], NOTHING).Done?
    ensures var after := ExpandPlugin(g, root, [], NOTHING).state;
      && (forall p :: p in after.visited <==> Reaches(g, root, p))
      && (forall e :: e in after.expanded <==> IsOwn(g, e) && Reaches(g, root, e.owner))
      && Ordered(g, after.expanded)
  {
    var after := ExpandPlugin(g, root, [], NOTHING).state;
    PluginKeeps(g, root, [], NOTHING);
    forall p ensures p in after.visited <==> Reaches(g, root, p) {
      if p in after.visited { PluginReaches(g, root, [], NOTHING, p); }
      if Reaches(g, root, p) {
        var path :| Path(g, path) && path[0] == root && path[|path| - 1] == p;
        FinishedReach(g, after, path);
      }
    }
    forall e ensures e in after.expanded <==> IsOwn(g, e) && Reaches(g, root, e.owner) {
      if e in after.expanded {
        var k :| 0 <= k < |after.expanded| && after.expanded[k] == e;
        assert Supported(g, after.expanded[k], after.expanded[..k]);
      }
      if IsOwn(g, e) && Reaches(g, root, e.owner) {
        assert Complete(g, e.owner, after.expanded);
        assert e == Emit(e.owner, e.slot);
      }
    }
  }

  /** In particular: all that a dependency brings in comes before any own entry of the plugin that named it. */
  lemma DependenciesComeFirst(
    plugins: map<Id, Plugin>, pluginsByName: map<string, Id>, root: Id, p: Id, i: nat, k: nat, t: Id)
    requires var g := GraphOf(plugins, pluginsByName);
      ExpandPlugin(g, root, [], NOTHING).Done? && p in plugins && i < |plugins[p].dependsOn|
    requires var g := GraphOf(plugins, pluginsByName);
      var expanded := ExpandPlugin(g, root, [], NOTHING).state.expanded;
      var dependency := ResolveDependency(plugins[p].dependsOn[i], pluginsByName);
      k < |expanded| && expanded[k].owner == p && dependency.Visit? && Reaches(g, dependency.plugin, t)
    ensures var g := GraphOf(plugins, pluginsByName);
      Complete(g, t, ExpandPlugin(g, root, [], NOTHING).state.expanded[..k])
  {
    var g := GraphOf(plugins, pluginsByName);
    var expanded := ExpandPlugin(g, root, [], NOTHING).state.expanded;
    ExpansionIsTopological(g, root);
    assert Supported(g, expanded[k], expanded[..k]);
    assert g[p][i] == ResolveDependency(plugins[p].dependsOn[i], pluginsByName);
    assert expanded[k].slot < |plugins[p].dependsOn| ==>
      g[p][expanded[k].slot] == ResolveDependency(plugins[p].dependsOn[expanded[k].slot], pluginsByName);
  }

  // ----- cycles -----

  /** Along a path, finished plugins were finished earlier and earlier. */
  lemma {:induction false} FinishedEarlier(g: Graph, st: State, path: seq<Id>, i: nat, j: nat)
    requires Finished(g, st) && Path(g, path) && i < |st.visited| && j < |st.visited|
    requires st.visited[i] == path[0] && st.visited[j] == path[|path| - 1]
    ensures j + |path| <= i + 1
    decreases |path|
  {
    if |path| > 1 {
      assert Edge(g, path[0], path[1]);
      var k :| 0 <= k < i && st.visited[k] == path[1];
      FinishedEarlier(g, st, path[1..], k, j);
    }
  }

  lemma NoCycleWhenDone(g: Graph, root: Id, cycle: seq<Id>)
    requires ExpandPlugin(g, root, [], NOTHING).Done? && IsCycle(g, cycle)
    ensures !Reaches(g, root, cycle[0])
  {
    if Reaches(g, root, cycle[0]) {
      var after := ExpandPlugin(g, root, [], NOTHING).state;
      PluginKeeps(g, root, [], NOTHING);
      ExpansionIsTopological(g, root);
      var i :| 0 <= i < |after.visited| && after.visited[i] == cycle[0];
      FinishedEarlier(g, after, cycle, i, i);
    }
  }

  lemma SuffixIsCycle(g: Graph, stack: seq<Id>, p: Id)
    requires Path(g, stack + [p]) && p in stack
    ensures var cycle := stack[IndexOf(stack, p)..] + [p];
      IsCycle(g, cycle) && Reaches(g, stack[0], cycle[0])
  {
    var i := IndexOf(stack, p);
    var whole := stack + [p];
    assert stack[i..] + [p] == whole[i..];
    assert Path(g, whole[i..]);
    assert Path(g, whole[..i + 1]);
  }

  /** The cycle in the error is one, and can be reached. */
  lemma {:induction false} PluginCycle(g: Graph, p: Id, stack: seq<Id>, st: State)
    requires Path(g, stack + [p]) && ExpandPlugin(g, p, stack, st).Circular?
    ensures var cycle := ExpandPlugin(g, p, stack, st).cycle;
      IsCycle(g, cycle) && Reaches(g, (stack + [p])[0], cycle[0])
    decreases |Free(g, stack)|, 0, 0
  {
    if p in stack {
      SuffixIsCycle(g, stack, p);
    } else {
      FewerFree(g, stack, p);
      ItemsCycle(g, p, 0, stack + [p], st);
    }
  }

  lemma {:induction false} ItemsCycle(g: Graph, owner: Id, from: nat, stack: seq<Id>, st: State)
    requires owner in g && from <= |g[owner]| && Path(g, stack) && stack[|stack| - 1] == owner
    requires ExpandItems(g, owner, from, stack, st).Circular?
    ensures var cycle := ExpandItems(g, owner, from, stack, st).cycle;
      IsCycle(g, cycle) && Reaches(g, stack[0], cycle[0])
    decreases |Free(g, stack)|, 1, |g[owner]| - from
  {
    match g[owner][from]
    case Own => ItemsCycle(g, owner, from + 1, stack, st.(expanded := st.expanded + [Emit(owner, from)]));
    case Unresolved(_) =>
    case Visit(q) =>
      assert Edge(g, owner, q);
      if ExpandPlugin(g, q, stack, st).Circular? {
        PluginCycle(g, q, stack, st);
      } else {
        ItemsCycle(g, owner, from + 1, stack, ExpandPlugin(g, q, stack, st).state);
      }
  }

  /** All names resolve. */
  ghost predicate Resolved(g: Graph) {
    forall p, i :: p in g && 0 <= i < |g[p]| ==> !g[p][i].Unresolved? && (g[p][i].Visit? ==> g[p][i].plugin in g)
  }

  lemma {:induction false} PluginNotMissing(g: Graph, p: Id, stack: seq<Id>, st: State)
    requires Resolved(g) && p in g
    ensures !ExpandPlugin(g, p, stack, st).Missing?
    decreases |Free(g, stack)|, 0, 0
  {
    if p !in stack {
      FewerFree(g, stack, p);
      ItemsNotMissing(g, p, 0, stack + [p], st);
    }
  }

  lemma {:induction false} ItemsNotMissing(g: Graph, owner: Id, from: nat, stack: seq<Id>, st: State)
    requires Resolved(g) && owner in g && from <= |g[owner]|
    ensures !ExpandItems(g, owner, from, stack, st).Missing?
    decreases |Free(g, stack)|, 1, |g[owner]| - from
  {
    if from < |g[owner]| {
      match g[owner][from]
      case Own => ItemsNotMissing(g, owner, from + 1, stack, st.(expanded := st.expanded + [Emit(owner, from)]));
      case Unresolved(_) =>
      case Visit(q) =>
        PluginNotMissing(g, q, stack, st);
        if ExpandPlugin(g, q, stack, st).Done? {
          ItemsNotMissing(g, owner, from + 1, stack, ExpandPlugin(g, q, stack, st).state);
        }
    }
  }

  /** The circular error is raised exactly when a cycle of dependencies and nesting can be reached. */
  lemma CircularExactly(g: Graph, root: Id)
    requires Resolved(g) && root in g
    ensures ExpandPlugin(g, root, [], NOTHING).Circular?
       <==> exists cycle :: IsCycle(g, cycle) && Reaches(g, root, cycle[0])
  {
    PluginNotMissing(g, root, [], NOTHING);
    if ExpandPlugin(g, root, [], NOTHING).Circular? {
      assert [] + [root] == [root];
      PluginCycle(g, root, [], NOTHING);
    } else {
      forall cycle | IsCycle(g, cycle) ensures !Reaches(g, root, cycle[0]) { NoCycleWhenDone(g, root, cycle); }
    }
  }

  // ----- missing names -----

  ghost predicate LacksName(g: Graph, p: Id) {
    p in g && exists i :: 0 <= i < |g[p]| && g[p][i].Unresolved?
  }

  /** Whatever is referred to exists. */
  ghost predicate Grounded(g: Graph) {
    forall p, q :: Edge(g, p, q) ==> q in g
  }

  lemma {:induction false} PluginMissing(g: Graph, p: Id, stack: seq<Id>, st: State)
    requires Grounded(g) && p in g && ExpandPlugin(g, p, stack, st).Missing?
    ensures exists q :: Reaches(g, p, q) && LacksName(g, q)
    decreases |Free(g, stack)|, 0, 0
  {
    FewerFree(g, stack, p);
    ItemsMissing(g, p, 0, stack + [p], st);
  }

  lemma {:induction false} ItemsMissing(g: Graph, owner: Id, from: nat, stack: seq<Id>, st: State)
    requires Grounded(g) && owner in g && from <= |g[owner]| && ExpandItems(g, owner, from, stack, st).Missing?
    ensures exists q :: Reaches(g, owner, q) && LacksName(g, q)
    decreases |Free(g, stack)|, 1, |g[owner]| - from
  {
    ReachesItself(g, owner);
    match g[owner][from]
    case Own => ItemsMissing(g, owner, from + 1, stack, st.(expanded := st.expanded + [Emit(owner, from)]));
    case Unresolved(_) => assert LacksName(g, owner);
    case Visit(q) =>
      assert Edge(g, owner, q);
      if ExpandPlugin(g, q, stack, st).Missing? {
        PluginMissing(g, q, stack, st);
        var x :| Reaches(g, q, x) && LacksName(g, x);
        ReachesVia(g, owner, q, x);
      } else {
        ItemsMissing(g, owner, from + 1, stack, ExpandPlugin(g, q, stack, st).state);
      }
  }

  lemma {:induction false} PluginNamed(g: Graph, p: Id, stack: seq<Id>, st: State, x: Id)
    requires ExpandPlugin(g, p, stack, st).Done? && x in ExpandPlugin(g, p, stack, st).state.visited
    ensures x in st.visited || !LacksName(g, x)
    decreases |Free(g, stack)|, 0, 0
  {
    if p !in st.visited {
      FewerFree(g, stack, p);
      ItemsNamed(g, p, 0, stack + [p], st, x);
    }
  }

  lemma {:induction false} ItemsNamed(g: Graph, owner: Id, from: nat, stack: seq<Id>, st: State, x: Id)
    requires owner in g && from <= |g[owner]| && ExpandItems(g, owner, from, stack, st).Done?
    ensures x in ExpandItems(g, owner, from, stack, st).state.visited ==> x in st.visited || !LacksName(g, x)
    ensures forall i :: from <= i < |g[owner]| ==> !g[owner][i].Unresolved?
    decreases |Free(g, stack)|, 1, |g[owner]| - from
  {
    if from < |g[owner]| {
      match g[owner][from]
      case Own => ItemsNamed(g, owner, from + 1, stack, st.(expanded := st.expanded + [Emit(owner, from)]), x);
      case Unresolved(_) =>
      case Visit(q) =>
        var after := ExpandPlugin(g, q, stack, st).state;
        if x in after.visited { PluginNamed(g, q, stack, st, x); }
        ItemsNamed(g, owner, from + 1, stack, after, x);
    }
  }

  ghost predicate AcyclicFrom(g: Graph, root: Id) {
    forall cycle :: IsCycle(g, cycle) ==> !Reaches(g, root, cycle[0])
  }

  ghost predicate AllNamedFrom(g: Graph, root: Id) {
    forall p :: Reaches(g, root, p) ==> !LacksName(g, p)
  }

  /** Expansion succeeds exactly if nothing that can be reached is part of a cycle or names a plugin that is not there. */
  lemma SucceedsExactly(g: Graph, root: Id)
    requires Grounded(g) && root in g
    ensures ExpandPlugin(g, root, [], NOTHING).Done? <==> AcyclicFrom(g, root) && AllNamedFrom(g, root)
  {
    match ExpandPlugin(g, root, [], NOTHING)
    case Done(after) =>
      forall cycle | IsCycle(g, cycle) ensures !Reaches(g, root, cycle[0]) { NoCycleWhenDone(g, root, cycle); }
      ExpansionIsTopological(g, root);
      forall p | Reaches(g, root, p) ensures !LacksName(g, p) { PluginNamed(g, root, [], NOTHING, p); }
    case Circular(cycle) =>
      assert [] + [root] == [root];
      PluginCycle(g, root, [], NOTHING);
    case Missing =>
      PluginMissing(g, root, [], NOTHING);
  }
}

