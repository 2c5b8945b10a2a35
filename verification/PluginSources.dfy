/**
 From the sources of a plugin, as they were written, to what the resolution emits: the leaves of the source tree,
 in document order, and nothing else.
 */
module PluginSources {
  import opened Wrappers
  import opened Plugins
  import opened PluginScan

  // ----- the leaves of a source tree -----

  /** The leaf at a path of positions, from the outermost group inwards; None if there is no leaf there. */
  function LeafAt(sources: seq<Source>, path: seq<nat>): Option<Item>
    decreases |path|, 0
  {
    if path == [] || path[0] >= |sources| then None else LeafIn(sources[path[0]], path[1..])
  }

  function LeafIn(source: Source, path: seq<nat>): Option<Item>
    decreases |path|, 1
  {
    match source
    case Registration => if path == [] then Some(Own) else None
    case Nested(plugin) => if path == [] then Some(Visit(plugin)) else None
    case Group(inner) => LeafAt(inner, path)
  }

  /** Document order: at the first position where the paths differ, the smaller one comes first. */
  predicate Before(a: seq<nat>, b: seq<nat>) {
    a != [] && b != [] && (a[0] < b[0] || (a[0] == b[0] && Before(a[1..], b[1..])))
  }

  /** The items are the leaves at these paths, in document order, and there is no other leaf. */
  ghost predicate LeavesInOrder(sources: seq<Source>, items: seq<Item>, paths: seq<seq<nat>>) {
    && |paths| == |items|
    && (forall k :: 0 <= k < |paths| ==> LeafAt(sources, paths[k]) == Some(items[k]))
    && (forall i, j :: 0 <= i < j < |paths| ==> Before(paths[i], paths[j]))
    && (forall path :: LeafAt(sources, path).Some? ==> path in paths)
  }

  /** A path into the first source, a group, as a path into the list; and one into the tail of the list. */
  function Deepen(path: seq<nat>): seq<nat> {
    [0] + path
  }

  function Shift(path: seq<nat>): seq<nat> {
    if path == [] then [] else [path[0] + 1] + path[1..]
  }

  function Under(paths: seq<seq<nat>>): seq<seq<nat>> {
    seq(|paths|, k requires 0 <= k < |paths| => Deepen(paths[k]))
  }

  function Beside(paths: seq<seq<nat>>): seq<seq<nat>> {
    seq(|paths|, k requires 0 <= k < |paths| => Shift(paths[k]))
  }

  lemma LeafStep(sources: seq<Source>, path: seq<nat>)
    requires path != []
    ensures LeafAt(sources, path) == if path[0] >= |sources| then None else LeafIn(sources[path[0]], path[1..])
  {
  }

  lemma LeafUnder(sources: seq<Source>, path: seq<nat>)
    requires sources != [] && sources[0].Group?
    ensures LeafAt(sources, Deepen(path)) == LeafAt(sources[0].sources, path)
  {
    hide LeafAt;
    LeafStep(sources, Deepen(path));
    assert Deepen(path)[1..] == path;
  }

  lemma LeafBeside(sources: seq<Source>, path: seq<nat>)
    requires sources != []
    ensures LeafAt(sources, Shift(path)) == LeafAt(sources[1..], path)
  {
    if path != [] {
      LeafStep(sources[1..], path);
      LeafStep(sources, Shift(path));
      hide LeafAt;
      hide LeafIn;
      assert Shift(path)[1..] == path[1..];
    }
  }

  lemma BeforeBoth(a: seq<nat>, b: seq<nat>)
    requires Before(a, b)
    ensures Before(Shift(a), Shift(b)) && Before(Deepen(a), Deepen(b))
  {
    assert Shift(a)[1..] == a[1..] && Shift(b)[1..] == b[1..];
    assert Deepen(a)[1..] == a && Deepen(b)[1..] == b;
  }

  /** Every path with a leaf starts somewhere: in the first source, or as one into the tail. */
  lemma PathOrigin(sources: seq<Source>, path: seq<nat>)
    requires LeafAt(sources, path).Some?
    ensures path != []
    ensures path[0] == 0 ==> path == Deepen(path[1..])
    ensures path[0] > 0 ==> path == Shift([path[0] - 1] + path[1..])
  {
    if path[0] > 0 {
      var moved := [path[0] - 1] + path[1..];
      assert moved[1..] == path[1..];
    }
  }

  /** The paths have their leaves here, and are in document order; all begin with 0 or all with more. */
  ghost predicate PartLeaves(sources: seq<Source>, items: seq<Item>, paths: seq<seq<nat>>, first: bool) {
    && |paths| == |items|
    && (forall k :: 0 <= k < |paths| ==> LeafAt(sources, paths[k]) == Some(items[k]) && StartsIn(paths[k], first))
    && (forall i, j :: 0 <= i < j < |paths| ==> Before(paths[i], paths[j]))
    && (forall path :: LeafAt(sources, path).Some? && StartsIn(path, first) ==> path in paths)
  }

  predicate StartsIn(path: seq<nat>, first: bool) {
    path != [] && (path[0] == 0 <==> first)
  }

  lemma HeadLeaves(sources: seq<Source>, items: seq<Item>, inner: seq<seq<nat>>)
    requires sources != [] && sources[0].Group? && LeavesInOrder(sources[0].sources, items, inner)
    ensures PartLeaves(sources, items, Under(inner), true)
  {
    hide LeafAt;
    hide Before;
    var paths := Under(inner);
    forall k | 0 <= k < |paths| ensures LeafAt(sources, paths[k]) == Some(items[k]) && StartsIn(paths[k], true) {
      LeafUnder(sources, inner[k]);
    }
    forall path | LeafAt(sources, path).Some? && StartsIn(path, true) ensures path in paths {
      PathOrigin(sources, path);
      LeafUnder(sources, path[1..]);
      assert path[1..] in inner;
      var k :| 0 <= k < |inner| && inner[k] == path[1..];
      assert path == paths[k];
    }
    hide Deepen;
    forall i, j | 0 <= i < j < |paths| ensures Before(paths[i], paths[j]) { BeforeBoth(inner[i], inner[j]); }
  }

  lemma TailLeaves(sources: seq<Source>, items: seq<Item>, rest: seq<seq<nat>>)
    requires sources != [] && LeavesInOrder(sources[1..], items, rest)
    ensures PartLeaves(sources, items, Beside(rest), false)
  {
    hide LeafAt;
    hide Before;
    hide Shift;
    var paths := Beside(rest);
    forall k | 0 <= k < |paths| ensures LeafAt(sources, paths[k]) == Some(items[k]) && StartsIn(paths[k], false) {
      LeafBeside(sources, rest[k]);
      LeafHasPath(sources[1..], rest[k]);
      ShiftStarts(rest[k]);
    }
    forall i, j | 0 <= i < j < |paths| ensures Before(paths[i], paths[j]) { BeforeBoth(rest[i], rest[j]); }
    forall path | LeafAt(sources, path).Some? && StartsIn(path, false) ensures path in paths {
      PathOrigin(sources, path);
      var moved := [path[0] - 1] + path[1..];
      LeafBeside(sources, moved);
      assert moved in rest;
      var k :| 0 <= k < |rest| && rest[k] == moved;
      assert path == paths[k];
    }
  }

  lemma ShiftStarts(path: seq<nat>)
    requires path != []
    ensures StartsIn(Shift(path), false)
  {
  }

  lemma LeafHasPath(sources: seq<Source>, path: seq<nat>)
    ensures LeafAt(sources, path).Some? ==> path != []
  {
  }

  lemma SingleLeaf(sources: seq<Source>)
    requires sources != [] && !sources[0].Group?
    ensures PartLeaves(sources, [if sources[0].Registration? then Own else Visit(sources[0].plugin)], [[0]], true)
  {
    LeafStep(sources, [0]);
    assert [0][1..] == [];
    forall path | LeafAt(sources, path).Some? && StartsIn(path, true) ensures path in [[0]] {
      LeafStep(sources, path);
      assert path[1..] == [] && path == [path[0]] + path[1..];
      assert [[0]][0] == path;
    }
  }

  /** Flattening keeps exactly the leaves, registrations and nested plugins alike, groups in place, in document order. */
  lemma {:induction false} FlattenInOrder(sources: seq<Source>) returns (paths: seq<seq<nat>>)
    ensures LeavesInOrder(sources, Flatten(sources), paths)
    decreases sources
  {
    if sources == [] {
      paths := [];
    } else {
      var rest := FlattenInOrder(sources[1..]);
      var tail := Flatten(sources[1..]);
      TailLeaves(sources, tail, rest);
      if sources[0].Group? {
        var inner := FlattenInOrder(sources[0].sources);
        HeadLeaves(sources, Flatten(sources[0].sources), inner);
        paths := Under(inner) + Beside(rest);
        JoinLeaves(sources, Flatten(sources[0].sources), tail, Under(inner), Beside(rest));
      } else {
        SingleLeaf(sources);
        var item := if sources[0].Registration? then Own else Visit(sources[0].plugin);
        paths := [[0]] + Beside(rest);
        JoinLeaves(sources, [item], tail, [[0]], Beside(rest));
      }
    }
  }

  lemma JoinLeaves(sources: seq<Source>, head: seq<Item>, tail: seq<Item>, a: seq<seq<nat>>, b: seq<seq<nat>>)
    requires PartLeaves(sources, head, a, true) && PartLeaves(sources, tail, b, false)
    ensures LeavesInOrder(sources, head + tail, a + b)
  {
    hide LeafAt;
    forall path | LeafAt(sources, path).Some? ensures path in a + b {
      LeafHasPath(sources, path);
      assert path[0] == 0 || path[0] > 0;
    }
    forall k | 0 <= k < |a + b| ensures LeafAt(sources, (a + b)[k]) == Some((head + tail)[k]) {
      if k >= |a| { assert (a + b)[k] == b[k - |a|] && (head + tail)[k] == tail[k - |a|]; }
    }
    forall i, j | 0 <= i < j < |a + b| ensures Before((a + b)[i], (a + b)[j]) {
      if j < |a| {
        assert (a + b)[i] == a[i] && (a + b)[j] == a[j];
      } else if i >= |a| {
        assert (a + b)[i] == b[i - |a|] && (a + b)[j] == b[j - |a|];
      } else {
        assert (a + b)[i] == a[i] && (a + b)[j] == b[j - |a|];
      }
    }
  }

  // ----- the items of a plugin -----

  /** First its dependencies, in order: the plugin given or named, and a name that nobody has is unresolved. */
  lemma DependenciesInOrder(plugin: Plugin, pluginsByName: map<string, Id>, i: nat)
    requires i < |plugin.dependsOn|
    ensures var item := ItemsOf(plugin, pluginsByName)[i];
      match plugin.dependsOn[i]
      case Direct(p) => item == Visit(p)
      case ByName(name) =>
        item == if name in pluginsByName then Visit(pluginsByName[name]) else Unresolved(name)
  {
  }

  /** A plugin brings in exactly the plugins it depends on directly and those nested anywhere in its entries. */
  lemma BroughtExactly(plugin: Plugin, q: Id)
    ensures q in Brought(plugin)
      <==> Direct(q) in plugin.dependsOn || exists path :: LeafAt(plugin.entries, path) == Some(Visit(q))
  {
    var paths := FlattenInOrder(plugin.entries);
    var items := Flatten(plugin.entries);
    DirectMembers(plugin.dependsOn, q);
    NestedMembers(items, q);
    if path :| LeafAt(plugin.entries, path) == Some(Visit(q)) {
      var k :| 0 <= k < |paths| && paths[k] == path;
      assert items[k] == Visit(q);
    }
    if Visit(q) in items {
      var k :| 0 <= k < |items| && items[k] == Visit(q);
      assert LeafAt(plugin.entries, paths[k]) == Some(Visit(q));
    }
  }

  lemma {:induction false} DirectMembers(dependencies: seq<Dependency>, q: Id)
    ensures q in DirectOnes(dependencies) <==> Direct(q) in dependencies
  {
    if dependencies != [] {
      DirectMembers(dependencies[1..], q);
      assert dependencies == [dependencies[0]] + dependencies[1..];
    }
  }

  lemma {:induction false} NestedMembers(items: seq<Item>, q: Id)
    ensures q in NestedOnes(items) <==> Visit(q) in items
  {
    if items != [] {
      NestedMembers(items[1..], q);
      assert items == [items[0]] + items[1..];
    }
  }

  // ----- what a resolution emits -----

  /** The entries of one plugin in the result. */
  function EntriesOf(log: seq<Emit>, p: Id): seq<Emit> {
    if log == [] then []
    else
      var n := |log| - 1;
      EntriesOf(log[..n], p) + if log[n].owner == p then [log[n]] else []
  }

  lemma {:induction false} EntriesMembers(log: seq<Emit>, p: Id, e: Emit)
    ensures e in EntriesOf(log, p) <==> e in log && e.owner == p
  {
    if log != [] {
      var n := |log| - 1;
      EntriesMembers(log[..n], p, e);
      assert log == log[..n] + [log[n]];
    }
  }

  ghost predicate SlotsAscend(own: seq<Emit>) {
    forall i, j :: 0 <= i < j < |own| ==> own[i].slot < own[j].slot
  }

  /** They come in the order of their slots. */
  lemma {:induction false} EntriesAscend(g: Graph, log: seq<Emit>, p: Id)
    requires Ordered(g, log)
    ensures SlotsAscend(EntriesOf(log, p))
  {
    if log != [] {
      var n := |log| - 1;
      var before := log[..n];
      forall k | 0 <= k < n ensures Supported(g, before[k], before[..k]) { assert before[..k] == log[..k]; }
      EntriesAscend(g, before, p);
      var earlier := EntriesOf(before, p);
      var own := EntriesOf(log, p);
      if log[n].owner == p {
        assert own == earlier + [log[n]];
        forall i | 0 <= i < |earlier| ensures earlier[i].slot < log[n].slot {
          assert earlier[i] in earlier;
          EntriesMembers(before, p, earlier[i]);
          EarlierSlot(g, log, earlier[i]);
        }
      } else {
        assert own == earlier;
      }
    }
  }

  lemma EarlierSlot(g: Graph, log: seq<Emit>, e: Emit)
    requires Ordered(g, log) && log != []
    requires var n := |log| - 1; e in log[..n] && e.owner == log[n].owner
    ensures e.slot < log[|log| - 1].slot
  {
    var n := |log| - 1;
    var j :| 0 <= j < n && log[..n][j] == e;
    assert Supported(g, log[j], log[..j]) && Supported(g, log[n], log[..n]);
    assert forall i :: 0 <= i < j ==> log[..j][i] != log[n];
    assert log[n] == Emit(e.owner, log[n].slot);
  }

  /** The entry is of plugin `p` and comes from a leaf that is a registration. */
  predicate IsEntry(plugin: Plugin, p: Id, e: Emit, paths: seq<seq<nat>>) {
    && e.owner == p && 0 <= e.slot - |plugin.dependsOn| < |paths|
    && LeafAt(plugin.entries, paths[e.slot - |plugin.dependsOn|]) == Some(Own)
  }

  /**
   The entries emitted for plugin `p` are those of its leaves that are registrations: one for each, in document
   order. `paths` says where its leaves are, `leaves` which of them each entry comes from.
   */
  ghost predicate EmitsLeaves(plugin: Plugin, p: Id, own: seq<Emit>, paths: seq<seq<nat>>, leaves: seq<seq<nat>>) {
    && |leaves| == |own|
    && (forall j: nat :: j < |own| ==>
          IsEntry(plugin, p, own[j], paths) && leaves[j] == paths[own[j].slot - |plugin.dependsOn|])
    && (forall i, j :: 0 <= i < j < |leaves| ==> Before(leaves[i], leaves[j]))
    && (forall path :: LeafAt(plugin.entries, path) == Some(Own) ==> path in leaves)
  }

  /** When a resolution succeeds, that is so of every plugin that can be reached. */
  lemma EntriesAreRegistrations(plugins: map<Id, Plugin>, pluginsByName: map<string, Id>, root: Id, p: Id)
    returns (paths: seq<seq<nat>>, leaves: seq<seq<nat>>)
    requires var g := GraphOf(plugins, pluginsByName);
      ExpandPlugin(g, root, [], NOTHING).Done? && Reaches(g, root, p) && p in plugins
    ensures LeavesInOrder(plugins[p].entries, Flatten(plugins[p].entries), paths)
    ensures var g := GraphOf(plugins, pluginsByName);
      EmitsLeaves(plugins[p], p, EntriesOf(ExpandPlugin(g, root, [], NOTHING).state.expanded, p), paths, leaves)
  {
    hide ExpandPlugin;
    hide Reaches;
    hide IsOwn;
    hide EntriesOf;
    hide LeavesInOrder;
    hide EmitsLeaves;
    hide ItemsOf;
    hide SlotsAscend;
    var g := GraphOf(plugins, pluginsByName);
    assert p in g && g[p] == ItemsOf(plugins[p], pluginsByName);
    var own := EntriesOf(ExpandPlugin(g, root, [], NOTHING).state.expanded, p);
    EntriesOfReached(g, root, p);
    paths := FlattenInOrder(plugins[p].entries);
    leaves := SlotLeaves(plugins[p], pluginsByName, g, p, own, paths);
  }

  /** So it is of a whole registration: of every plugin reached from what was registered, its registrations and nothing else. */
  lemma ResolutionEmits(plugins: map<Id, Plugin>, names: Names, root: Id, p: Id)
    returns (paths: seq<seq<nat>>, leaves: seq<seq<nat>>)
    requires Resolve(plugins, names, root).Entries? && p in plugins
    requires ScanPlugin(plugins, names, root, EMPTY).Scanned? && Reaches(RegisteredGraph(plugins, names, root), root, p)
    ensures LeavesInOrder(plugins[p].entries, Flatten(plugins[p].entries), paths)
    ensures EmitsLeaves(plugins[p], p, EntriesOf(Resolve(plugins, names, root).expanded, p), paths, leaves)
  {
    hide ExpandPlugin;
    hide ScanPlugin;
    hide Reaches;
    hide LeavesInOrder;
    hide EmitsLeaves;
    hide EntriesOf;
    paths, leaves := EntriesAreRegistrations(plugins, ScanPlugin(plugins, names, root, EMPTY).scan.pluginsByName, root, p);
  }

  lemma EntriesOfReached(g: Graph, root: Id, p: Id)
    requires ExpandPlugin(g, root, [], NOTHING).Done? && Reaches(g, root, p)
    ensures var own := EntriesOf(ExpandPlugin(g, root, [], NOTHING).state.expanded, p);
      && (forall e :: e in own <==> IsOwn(g, e) && e.owner == p)
      && SlotsAscend(own)
  {
    hide ExpandPlugin;
    hide Reaches;
    ExpansionIsTopological(g, root);
    var log := ExpandPlugin(g, root, [], NOTHING).state.expanded;
    EntriesAscend(g, log, p);
    hide Ordered;
    forall e ensures e in EntriesOf(log, p) <==> IsOwn(g, e) && e.owner == p { EntriesMembers(log, p, e); }
  }

  lemma SlotLeaves(plugin: Plugin, pluginsByName: map<string, Id>, g: Graph, p: Id, own: seq<Emit>, paths: seq<seq<nat>>)
    returns (leaves: seq<seq<nat>>)
    requires p in g && g[p] == ItemsOf(plugin, pluginsByName)
    requires LeavesInOrder(plugin.entries, Flatten(plugin.entries), paths)
    requires forall e :: e in own <==> IsOwn(g, e) && e.owner == p
    requires SlotsAscend(own)
    ensures EmitsLeaves(plugin, p, own, paths, leaves)
  {
    hide LeavesInOrder;
    hide ItemsOf;
    hide IsOwn;
    hide LeafAt;
    hide Before;
    hide SlotsAscend;
    hide EmitsLeaves;
    OrderOfPaths(plugin.entries, Flatten(plugin.entries), paths);
    forall j: nat | j < |own| ensures IsEntry(plugin, p, own[j], paths) {
      EntryIsLeaf(plugin, pluginsByName, g, p, own, paths, j);
    }
    leaves := LeavesOf(plugin, p, own, paths);
    forall path | LeafAt(plugin.entries, path) == Some(Own) ensures path in leaves {
      AllEmitted(plugin, pluginsByName, g, p, own, paths, leaves, path);
    }
    LeavesAscend(plugin, own, paths, leaves);
    EmitsFrom(plugin, p, own, paths, leaves);
  }

  lemma LeavesOf(plugin: Plugin, p: Id, own: seq<Emit>, paths: seq<seq<nat>>) returns (leaves: seq<seq<nat>>)
    requires forall j: nat :: j < |own| ==> IsEntry(plugin, p, own[j], paths)
    ensures |leaves| == |own|
    ensures forall j: nat :: j < |own| ==> 0 <= own[j].slot - |plugin.dependsOn| < |paths|
    ensures forall j: nat :: j < |own| ==> leaves[j] == paths[own[j].slot - |plugin.dependsOn|]
  {
    leaves := seq(|own|, j requires 0 <= j < |own| => paths[own[j].slot - |plugin.dependsOn|]);
  }

  lemma EmitsFrom(plugin: Plugin, p: Id, own: seq<Emit>, paths: seq<seq<nat>>, leaves: seq<seq<nat>>)
    requires |leaves| == |own|
    requires forall j: nat :: j < |own| ==>
      IsEntry(plugin, p, own[j], paths) && leaves[j] == paths[own[j].slot - |plugin.dependsOn|]
    requires forall i, j :: 0 <= i < j < |leaves| ==> Before(leaves[i], leaves[j])
    requires forall path :: LeafAt(plugin.entries, path) == Some(Own) ==> path in leaves
    ensures EmitsLeaves(plugin, p, own, paths, leaves)
  {
    hide LeafAt;
    hide Before;
  }

  lemma LeavesAscend(plugin: Plugin, own: seq<Emit>, paths: seq<seq<nat>>, leaves: seq<seq<nat>>)
    requires SlotsAscend(own) && |leaves| == |own|
    requires forall i, j :: 0 <= i < j < |paths| ==> Before(paths[i], paths[j])
    requires forall j: nat :: j < |own| ==> 0 <= own[j].slot - |plugin.dependsOn| < |paths|
    requires forall j: nat :: j < |own| ==> leaves[j] == paths[own[j].slot - |plugin.dependsOn|]
    ensures forall i, j :: 0 <= i < j < |leaves| ==> Before(leaves[i], leaves[j])
  {
    hide Before;
    forall i, j | 0 <= i < j < |leaves| ensures Before(leaves[i], leaves[j]) { assert own[i].slot < own[j].slot; }
  }

  lemma EntryIsLeaf(
    plugin: Plugin, pluginsByName: map<string, Id>, g: Graph, p: Id, own: seq<Emit>, paths: seq<seq<nat>>, j: nat)
    requires p in g && g[p] == ItemsOf(plugin, pluginsByName)
    requires LeavesInOrder(plugin.entries, Flatten(plugin.entries), paths)
    requires j < |own| && forall e :: e in own ==> IsOwn(g, e) && e.owner == p
    ensures IsEntry(plugin, p, own[j], paths)
  {
    hide ItemsOf;
    hide IsOwn;
    hide LeafAt;
    hide Flatten;
    assert own[j] in own;
    assert own[j] == Emit(p, own[j].slot);
    OwnSlots(plugin, pluginsByName, g, p, own[j].slot);
    EmittedLeaf(plugin, pluginsByName, g, p, paths, own[j].slot - |plugin.dependsOn|);
  }

  lemma AllEmitted(plugin: Plugin, pluginsByName: map<string, Id>, g: Graph, p: Id, own: seq<Emit>,
                   paths: seq<seq<nat>>, leaves: seq<seq<nat>>, path: seq<nat>)
    requires p in g && g[p] == ItemsOf(plugin, pluginsByName)
    requires LeavesInOrder(plugin.entries, Flatten(plugin.entries), paths)
    requires forall e :: IsOwn(g, e) && e.owner == p ==> e in own
    requires |leaves| == |own|
    requires forall j: nat :: j < |own| ==> 0 <= own[j].slot - |plugin.dependsOn| < |paths|
    requires forall j: nat :: j < |own| ==> leaves[j] == paths[own[j].slot - |plugin.dependsOn|]
    requires LeafAt(plugin.entries, path) == Some(Own)
    ensures path in leaves
  {
    hide IsOwn;
    hide ItemsOf;
    var n := |plugin.dependsOn|;
    var k := PlaceOf(plugin.entries, paths, path);
    EmittedLeaf(plugin, pluginsByName, g, p, paths, k);
    hide LeavesInOrder;
    hide LeafAt;
    assert Emit(p, n + k) in own;
    var j :| 0 <= j < |own| && own[j] == Emit(p, n + k);
    assert leaves[j] == path;
  }

  lemma OrderOfPaths(sources: seq<Source>, items: seq<Item>, paths: seq<seq<nat>>)
    requires LeavesInOrder(sources, items, paths)
    ensures |paths| == |items| && forall i, j :: 0 <= i < j < |paths| ==> Before(paths[i], paths[j])
  {
  }

  lemma PlaceOf(sources: seq<Source>, paths: seq<seq<nat>>, path: seq<nat>) returns (k: nat)
    requires LeavesInOrder(sources, Flatten(sources), paths) && LeafAt(sources, path).Some?
    ensures k < |paths| && paths[k] == path
  {
    k :| 0 <= k < |paths| && paths[k] == path;
  }

  /** The item that comes from a leaf is emitted exactly if the leaf is a registration. */
  lemma EmittedLeaf(
    plugin: Plugin, pluginsByName: map<string, Id>, g: Graph, p: Id, paths: seq<seq<nat>>, k: nat)
    requires p in g && g[p] == ItemsOf(plugin, pluginsByName) && k < |paths|
    requires LeavesInOrder(plugin.entries, Flatten(plugin.entries), paths)
    ensures IsOwn(g, Emit(p, |plugin.dependsOn| + k)) <==> LeafAt(plugin.entries, paths[k]) == Some(Own)
  {
    hide Flatten;
    hide LeafAt;
    OwnSlots(plugin, pluginsByName, g, p, |plugin.dependsOn| + k);
  }

  /** The own items of a plugin are those of its entries; dependencies come before. */
  lemma OwnSlots(plugin: Plugin, pluginsByName: map<string, Id>, g: Graph, p: Id, slot: nat)
    requires p in g && g[p] == ItemsOf(plugin, pluginsByName)
    ensures var (n, items) := (|plugin.dependsOn|, Flatten(plugin.entries));
      IsOwn(g, Emit(p, slot)) <==> n <= slot < n + |items| && items[slot - n].Own?
  {
    hide Flatten;
  }
}
