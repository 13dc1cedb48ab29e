/**
 Which manifests have a plan, and what the plan says: stated of the lists in the manifest and in the
 plan, one by one, and of cycles in the dependencies they declare.
*/
module PlanContents {
  import opened Basics
  import opened Patterns
  import opened StringOrder
  import opened Graphs
  import opened Sorting
  import opened StackModel
  import opened StackTheory
  import opened Planner
  import opened PlanBuilder
  import opened ApprovalExceptions

  // ---------------------------------------------------------------- which manifests are built

  /** At most 64 values, all valid, none twice. */
  predicate ListFits(xs: seq<string>, valid: string -> bool) {
    && |xs| <= 64 && (forall i | 0 <= i < |xs| :: valid(xs[i]))
    && forall i, j | 0 <= i < j < |xs| :: xs[i] != xs[j]
  }

  predicate ComponentFits(lib: Library, c: Component) {
    && ValidID(c.id) && ValidAdapter(c.adapter)
    && lib.validSource(c.artifact.source) && ValidDigest(c.artifact.digest) && ValidDigest(c.configuration)
    && ListFits(c.dependsOn, ValidID) && ListFits(c.capabilities, ValidCapability) && ListFits(c.secretSlots, ValidID)
  }

  /** The component `id` names `dependency` among its dependencies. */
  predicate DependsOn(components: seq<Component>, id: string, dependency: string) {
    exists i | 0 <= i < |components| :: components[i].id == id && dependency in components[i].dependsOn
  }

  predicate Named(components: seq<Component>, id: string) {
    exists i | 0 <= i < |components| :: components[i].id == id
  }

  /** Some component depends on itself through others. */
  ghost predicate DependencyCycle(components: seq<Component>) {
    exists path: seq<string> :: |path| >= 2 && path[0] == path[|path| - 1] && FollowsDependencies(components, path)
  }

  predicate FollowsDependencies(components: seq<Component>, path: seq<string>) {
    forall i | 0 <= i < |path| - 1 :: DependsOn(components, path[i], path[i + 1])
  }

  /** Every dependency is the identity of another component. */
  predicate NamesOthers(components: seq<Component>) {
    forall i | 0 <= i < |components| ::
      forall d | d in components[i].dependsOn :: d != components[i].id && Named(components, d)
  }

  ghost predicate ManifestFits(lib: Library, m: Manifest) {
    && m.schemaVersion == 1 && ValidID(m.name) && 1 <= |m.components| <= 64
    && (forall i | 0 <= i < |m.components| :: ComponentFits(lib, m.components[i]))
    && (forall i, j | 0 <= i < j < |m.components| :: m.components[i].id != m.components[j].id)
    && NamesOthers(m.components)
    && !DependencyCycle(m.components)
  }

  lemma FitsMeansValid(lib: Library, c: Component)
    ensures ComponentFits(lib, c) <==> ValidComponent(lib, c)
  {
    hide ValidID, ValidAdapter, ValidDigest, ValidCapability, ListFits, ValidSet;
    ListMeansSet(c.dependsOn, ValidID);
    ListMeansSet(c.capabilities, ValidCapability);
    ListMeansSet(c.secretSlots, ValidID);
  }

  lemma ListMeansSet(xs: seq<string>, valid: string -> bool)
    ensures ListFits(xs, valid) <==> ValidSet(xs, valid)
  {
    if ListFits(xs, valid) { forall v | v in xs ensures valid(v) { } }
    if ValidSet(xs, valid) { forall i | 0 <= i < |xs| ensures valid(xs[i]) { assert xs[i] in xs; } }
  }

  lemma NamedMeans(components: seq<Component>, id: string)
    ensures Named(components, id) <==> id in IDs(components)
  {
    hide IDs;
    if Named(components, id) {
      var i :| 0 <= i < |components| && components[i].id == id;
      assert IDs(components)[i] == id;
    }
    if id in IDs(components) {
      var i :| 0 <= i < |IDs(components)| && IDs(components)[i] == id;
      assert components[i].id == id;
    }
  }

  lemma DependsMeans(components: seq<Component>, id: string, d: string)
    ensures DependsOn(components, id, d) <==> id in GraphOf(components) && d in GraphOf(components)[id]
  {
    hide IDs;
    if DependsOn(components, id, d) {
      var i :| 0 <= i < |components| && components[i].id == id && d in components[i].dependsOn;
      assert components[i] in components;
      assert IDs(components)[i] in IDs(components);
      assert d in DependenciesOf(components, id);
    }
    if id in GraphOf(components) && d in GraphOf(components)[id] {
      assert d in DependenciesOf(components, id);
    }
  }

  lemma PathMeans(components: seq<Component>, path: seq<string>)
    requires |path| >= 2 && path[0] == path[|path| - 1]
    ensures FollowsDependencies(components, path) <==> Path(GraphOf(components), path)
  {
    hide GraphOf, DependsOn;
    forall i | 0 <= i < |path| - 1
      ensures DependsOn(components, path[i], path[i + 1])
        <==> path[i] in GraphOf(components) && path[i + 1] in GraphOf(components)[path[i]]
    {
      DependsMeans(components, path[i], path[i + 1]);
    }
    if FollowsDependencies(components, path) {
      forall i | 0 <= i < |path| ensures path[i] in GraphOf(components) {
        if i < |path| - 1 { assert DependsOn(components, path[i], path[i + 1]); } else { assert DependsOn(components, path[0], path[1]); }
      }
    }
  }

  lemma CycleMeans(components: seq<Component>)
    ensures DependencyCycle(components) <==> Cyclic(GraphOf(components))
  {
    hide GraphOf, FollowsDependencies, Path;
    if path: seq<string> :| |path| >= 2 && path[0] == path[|path| - 1] && FollowsDependencies(components, path) {
      PathMeans(components, path);
    }
    if Cyclic(GraphOf(components)) {
      var path :| |path| >= 2 && Path(GraphOf(components), path) && path[0] == path[|path| - 1];
      PathMeans(components, path);
    }
  }

  lemma DeclaredMeans(components: seq<Component>)
    ensures DependenciesDeclared(components) <==> NamesOthers(components)
  {
    hide IDs, Named;
    forall id ensures Named(components, id) <==> id in IDs(components) { NamedMeans(components, id); }
    if DependenciesDeclared(components) {
      forall i | 0 <= i < |components|
        ensures forall d | d in components[i].dependsOn :: d != components[i].id && Named(components, d)
      {
        assert components[i] in components;
      }
    }
  }

  lemma DistinctMeans(components: seq<Component>)
    ensures Distinct(IDs(components)) <==> forall i, j | 0 <= i < j < |components| :: components[i].id != components[j].id
  {
    hide IDs;
    if Distinct(IDs(components)) {
      forall i, j | 0 <= i < j < |components| ensures components[i].id != components[j].id {
        assert IDs(components)[i] != IDs(components)[j];
      }
    }
  }

  lemma AllFitMeans(lib: Library, components: seq<Component>)
    ensures (forall i | 0 <= i < |components| :: ComponentFits(lib, components[i]))
      <==> forall c | c in components :: ValidComponent(lib, c)
  {
    hide ComponentFits, ValidComponent;
    forall c ensures ComponentFits(lib, c) <==> ValidComponent(lib, c) { FitsMeansValid(lib, c); }
    if forall c | c in components :: ValidComponent(lib, c) {
      forall i | 0 <= i < |components| ensures ComponentFits(lib, components[i]) { assert components[i] in components; }
    }
  }

  lemma FitsExactly(lib: Library, m: Manifest)
    ensures ManifestFits(lib, m) <==> ValidManifest(lib, m)
  {
    hide ComponentFits, ValidComponent, Distinct, IDs, DependenciesDeclared, Orderable, DependencyCycle, Cyclic, GraphOf, ValidID, NamesOthers;
    AllFitMeans(lib, m.components);
    DistinctMeans(m.components);
    DeclaredMeans(m.components);
    CycleMeans(m.components);
    if DependenciesDeclared(m.components) {
      DeclaredAll(m.components);
      OrderableExactly(m.components);
    }
  }

  /** A plan is built exactly of the manifests that fit. */
  lemma BuildsExactly(lib: Library, m: Manifest)
    ensures Build(lib, m).Ok? <==> ManifestFits(lib, m)
  {
    hide ManifestFits, ValidManifest, Orderable, OrderOf, GraphOf, IsOrder, Normalize;
    FitsExactly(lib, m);
    if ValidManifest(lib, m) { BuildSucceeds(lib, m); }
  }

  // ---------------------------------------------------------------- every acyclic graph has a manifest

  ghost function Listed(ids: set<string>): (r: seq<string>)
    ensures ToSet(r) == ids && |r| == |ids| && Distinct(r)
    decreases |ids|
  {
    if ids == {} then [] else
    var id :| id in ids;
    var rest := Listed(ids - {id});
    assert ToSet([id] + rest) == {id} + ToSet(rest);
    assert id !in rest by { assert id !in ToSet(rest); }
    [id] + rest
  }

  /** A component for this node of the graph. */
  ghost function Realise(g: Graph, source: string, id: string): Component
    requires id in g
  {
    Modest(source).(id := id, dependsOn := Listed(g[id]))
  }

  ghost function Realised(g: Graph, source: string, ids: seq<string>): (r: seq<Component>)
    requires forall id | id in ids :: id in g
    ensures |r| == |ids|
    ensures forall i | 0 <= i < |r| :: r[i] == Realise(g, source, ids[i])
  {
    seq(|ids|, i requires 0 <= i < |ids| => Realise(g, source, ids[i]))
  }

  lemma RealisedFits(lib: Library, g: Graph, source: string, id: string)
    requires lib.validSource(source) && id in g && |g[id]| <= 64 && Closed(g) && forall x | x in g :: ValidID(x)
    ensures ComponentFits(lib, Realise(g, source, id))
  {
    hide ValidID, ValidDigest, ValidAdapter, ValidCapability, Listed;
    NamesAreValid();
    AdapterIsValid();
    var xs := Listed(g[id]);
    forall i | 0 <= i < |xs| ensures ValidID(xs[i]) {
      assert xs[i] in ToSet(xs);
      assert xs[i] in g.Keys;
    }
  }

  lemma RealisedGraph(g: Graph, source: string)
    ensures forall id | id in Listed(g.Keys) :: id in g
    ensures var components := Realised(g, source, Listed(g.Keys));
      && GraphOf(components) == g && IDs(components) == Listed(g.Keys)
  {
    hide Listed, Realised, Realise, IDs, DependenciesOf;
    ListedIn(g);
    var components := Realised(g, source, Listed(g.Keys));
    RealisedIDs(g, source);
    forall id | id in g ensures DependenciesOf(components, id) == g[id] { RealisedEdges(g, source, id); }
    assert GraphOf(components).Keys == g.Keys;
  }

  lemma ListedIn(g: Graph)
    ensures forall id :: id in Listed(g.Keys) <==> id in g
  {
    hide Listed;
    forall id ensures id in Listed(g.Keys) <==> id in g { assert id in ToSet(Listed(g.Keys)) <==> id in g.Keys; }
  }

  lemma RealisedIDs(g: Graph, source: string)
    requires forall id | id in Listed(g.Keys) :: id in g
    ensures IDs(Realised(g, source, Listed(g.Keys))) == Listed(g.Keys)
  {
    hide Listed, Realised, IDs;
    var ids, components := Listed(g.Keys), Realised(g, source, Listed(g.Keys));
    forall i | 0 <= i < |ids| ensures IDs(components)[i] == ids[i] { assert components[i] == Realise(g, source, ids[i]); }
  }

  lemma RealisedEdges(g: Graph, source: string, id: string)
    requires id in g && forall x | x in Listed(g.Keys) :: x in g
    ensures DependenciesOf(Realised(g, source, Listed(g.Keys)), id) == g[id]
  {
    hide Listed, Realised, Modest;
    var ids := Listed(g.Keys);
    var components := Realised(g, source, ids);
    assert id in ToSet(ids);
    var k :| 0 <= k < |ids| && ids[k] == id;
    assert components[k] in components;
    forall d ensures d in DependenciesOf(components, id) <==> d in g[id] {
      assert d in g[id] <==> d in ToSet(Listed(g[id]));
      if d in DependenciesOf(components, id) {
        var c :| c in components && c.id == id && d in c.dependsOn;
        var j :| 0 <= j < |components| && components[j] == c;
        assert ids[j] == ids[k];
      }
    }
  }

  /** Every acyclic graph over at most 64 identities, each with at most 64 dependencies, has a plan. */
  lemma EveryGraphIsBuilt(lib: Library, name: string, source: string, g: Graph) returns (m: Manifest)
    requires ValidID(name) && lib.validSource(source) && Closed(g) && !Cyclic(g) && 1 <= |g.Keys| <= 64
    requires forall id | id in g :: ValidID(id) && |g[id]| <= 64
    ensures Build(lib, m).Ok? && GraphOf(m.components) == g && m.name == name
  {
    hide ValidID, Listed, Realised, Modest, Build, ComponentFits, Cyclic, DependencyCycle, GraphOf, NamesOthers, IDs, Distinct;
    RealisedGraph(g, source);
    var ids := Listed(g.Keys);
    var components := Realised(g, source, ids);
    m := Manifest(1, name, components);
    RealisedFit(lib, g, source);
    RealisedDeclared(g, components);
    CycleMeans(components);
    DistinctMeans(components);
    BuildsExactly(lib, m);
  }

  lemma RealisedDeclared(g: Graph, components: seq<Component>)
    requires GraphOf(components) == g && Closed(g) && !Cyclic(g)
    ensures NamesOthers(components)
  {
    hide IDs, Named, Cyclic;
    forall i | 0 <= i < |components|
      ensures forall d | d in components[i].dependsOn :: d != components[i].id && Named(components, d)
    {
      forall d | d in components[i].dependsOn ensures d != components[i].id && Named(components, d) {
        NamesOther(g, components, i, d);
      }
    }
  }

  lemma RealisedFit(lib: Library, g: Graph, source: string)
    requires lib.validSource(source) && Closed(g) && forall id | id in g :: ValidID(id) && |g[id]| <= 64
    requires forall id | id in Listed(g.Keys) :: id in g
    ensures var components := Realised(g, source, Listed(g.Keys));
      forall i | 0 <= i < |components| :: ComponentFits(lib, components[i])
  {
    hide ValidID, Listed, Realised, Modest, ComponentFits;
    var ids := Listed(g.Keys);
    var components := Realised(g, source, ids);
    forall i | 0 <= i < |components| ensures ComponentFits(lib, components[i]) {
      assert ids[i] in ids;
      RealisedFits(lib, g, source, ids[i]);
    }
  }

  lemma NamesOther(g: Graph, components: seq<Component>, i: int, d: string)
    requires GraphOf(components) == g && Closed(g) && !Cyclic(g)
    requires 0 <= i < |components| && d in components[i].dependsOn
    ensures d != components[i].id && Named(components, d)
  {
    hide IDs, Cyclic;
    var id := components[i].id;
    assert DependsOn(components, id, d);
    DependsMeans(components, id, d);
    assert d in g.Keys;
    NamedMeans(components, d);
    if d == id { SelfCycle(g, id); }
  }

  lemma SelfCycle(g: Graph, id: string)
    requires id in g && id in g[id]
    ensures Cyclic(g)
  {
    assert Path(g, [id, id]);
  }

  // ---------------------------------------------------------------- what the plan says

  /** The values, sorted. */
  predicate Lists(xs: Slice<string>, values: seq<string>) {
    xs.Items? && Sorted(xs.items) && multiset(xs.items) == multiset(values)
  }

  /** The step is the component, field by field, its lists sorted. */
  predicate StepShows(step: PlanStep, c: Component) {
    && step.componentID == c.id && step.adapter == c.adapter
    && step.artifact == c.artifact && step.configuration == c.configuration
    && Lists(step.dependsOn, c.dependsOn) && Lists(step.capabilities, c.capabilities) && Lists(step.secretSlots, c.secretSlots)
  }

  /** `n` is `c` with sorted lists. */
  predicate ComponentShows(n: Component, c: Component) {
    && n.id == c.id && n.adapter == c.adapter && n.artifact == c.artifact && n.configuration == c.configuration
    && Lists(Items(n.dependsOn), c.dependsOn) && Lists(Items(n.capabilities), c.capabilities)
    && Lists(Items(n.secretSlots), c.secretSlots)
  }

  /** The same manifest, components in order of identity and lists sorted. */
  predicate NormalFormOf(n: Manifest, m: Manifest) {
    && n.schemaVersion == m.schemaVersion && n.name == m.name && |n.components| == |m.components|
    && (forall i, j | 0 <= i < j < |n.components| :: Less(n.components[i].id, n.components[j].id))
    && forall c | c in m.components :: exists k | 0 <= k < |n.components| :: ComponentShows(n.components[k], c)
  }

  /** One of the first `i` steps is for this component. */
  predicate Before(steps: seq<PlanStep>, i: nat, id: string) {
    exists j | 0 <= j < i && j < |steps| :: steps[j].componentID == id
  }

  /** Dependencies come first, and of the steps that could come next the least identity does. */
  predicate LeastOrder(steps: seq<PlanStep>) {
    && (forall i | 0 <= i < |steps| ::
          steps[i].dependsOn.Items? && forall d | d in steps[i].dependsOn.items :: Before(steps, i, d))
    && forall i, j | 0 <= i < j < |steps| ::
         (steps[j].dependsOn.Items? && forall d | d in steps[j].dependsOn.items :: Before(steps, i, d)) ==>
         Less(steps[i].componentID, steps[j].componentID)
  }

  ghost predicate PlanShows(lib: Library, m: Manifest, p: Plan) {
    && p.schemaVersion == 1 && p.stack == m.name && |p.steps| == |m.components|
    && (forall i | 0 <= i < |p.steps| :: p.steps[i].index == i + 1)
    && (forall c | c in m.components :: exists i | 0 <= i < |p.steps| :: StepShows(p.steps[i], c))
    && LeastOrder(p.steps)
    && p.digest == lib.planDigest(p.(digest := ""))
    && exists n :: NormalFormOf(n, m) && p.manifestDigest == lib.manifestDigest(n)
  }

  lemma NormalShows(c: Component)
    ensures ComponentShows(NormalComponent(c), c)
  {
    hide Sort;
    SortSorts(c.dependsOn);
    SortSorts(c.capabilities);
    SortSorts(c.secretSlots);
  }

  /** The normal form of a component stands somewhere in the normal form of the manifest. */
  lemma NormalPlace(m: Manifest, c: Component) returns (k: int)
    requires c in m.components
    ensures 0 <= k < |Normalize(m).components| && Normalize(m).components[k] == NormalComponent(c)
  {
    hide NormalComponent, SortByID, NormalComponents;
    var i :| 0 <= i < |m.components| && m.components[i] == c;
    var listed := NormalComponents(m.components);
    assert listed[i] in listed;
    SameMembers(Normalize(m).components, listed);
    k :| 0 <= k < |Normalize(m).components| && Normalize(m).components[k] == NormalComponent(c);
  }

  lemma NormalizeShows(lib: Library, m: Manifest)
    requires ValidManifest(lib, m)
    ensures NormalFormOf(Normalize(m), m)
  {
    hide ValidManifest, Normalize, NormalComponent, ComponentShows, Less, IDs, Distinct, Sorted;
    NormalizedComponents(lib, m);
    NormalizeKeeps(m);
    NormalSortedIDs(lib, m);
    forall c | c in m.components
      ensures exists k | 0 <= k < |Normalize(m).components| :: ComponentShows(Normalize(m).components[k], c)
    {
      var k := NormalPlace(m, c);
      NormalShows(c);
    }
  }

  lemma NormalSortedIDs(lib: Library, m: Manifest)
    requires ValidManifest(lib, m)
    ensures var components := Normalize(m).components;
      forall i, j | 0 <= i < j < |components| :: Less(components[i].id, components[j].id)
  {
    hide ValidManifest, SortByID, NormalComponents, Less, IDs, Distinct, Sorted, Sort;
    NormalizedComponents(lib, m);
    var listed := NormalComponents(m.components);
    var components := SortByID(listed);
    SortIDs(listed);
    SortSorts(IDs(listed));
    SortedStrictly(IDs(components));
    var ids := IDs(components);
    forall i, j | 0 <= i < j < |components| ensures Less(components[i].id, components[j].id) {
      assert Less(ids[i], ids[j]);
    }
  }

  /** The order in a plan, read from its steps. */
  lemma StepsInLeastOrder(components: seq<Component>, order: seq<string>)
    requires Distinct(IDs(components)) && IsOrder(GraphOf(components), order)
    requires forall id | id in order :: id in IDs(components)
    ensures LeastOrder(StepsOf(components, order))
  {
    hide IDs, GraphOf, IsOrder, Lookup, Less, Before;
    var g := GraphOf(components);
    var steps := StepsOf(components, order);
    OrderIsTopological(g, order);
    forall i | 0 <= i < |order|
      ensures steps[i].dependsOn.Items? && forall d | d in steps[i].dependsOn.items :: Before(steps, i, d)
    {
      DependenciesFirst(components, order, i);
    }
    forall i, j | 0 <= i < j < |order| && forall d | d in steps[j].dependsOn.items :: Before(steps, i, d)
      ensures Less(steps[i].componentID, steps[j].componentID)
    {
      LeastFirst(components, order, i, j);
    }
  }

  lemma BeforeMeans(components: seq<Component>, order: seq<string>, i: nat, id: string)
    requires i <= |order| && forall x | x in order :: x in IDs(components)
    ensures Before(StepsOf(components, order), i, id) <==> id in ToSet(order[..i])
  {
    hide IDs, Lookup;
    var steps := StepsOf(components, order);
    if Before(steps, i, id) {
      var j :| 0 <= j < i && j < |steps| && steps[j].componentID == id;
      assert order[..i][j] == id;
    }
    if id in order[..i] {
      var j :| 0 <= j < i && order[..i][j] == id;
      assert steps[j].componentID == id;
    }
  }

  lemma StepDependsOn(components: seq<Component>, order: seq<string>, i: nat)
    requires Distinct(IDs(components)) && i < |order| && forall x | x in order :: x in IDs(components)
    ensures order[i] in GraphOf(components)
    ensures ToSet(Lookup(components, order[i]).dependsOn) == GraphOf(components)[order[i]]
  {
    hide IDs, Distinct, Lookup, GraphOf;
    assert order[i] in order;
    GraphEntry(components, Lookup(components, order[i]));
  }

  lemma DependenciesFirst(components: seq<Component>, order: seq<string>, i: nat)
    requires Distinct(IDs(components)) && Topological(GraphOf(components), order) && i < |order|
    requires forall x | x in order :: x in IDs(components)
    ensures forall d | d in StepsOf(components, order)[i].dependsOn.items :: Before(StepsOf(components, order), i, d)
  {
    hide IDs, Distinct, Lookup, GraphOf, Before;
    StepDependsOn(components, order, i);
    forall d | d in StepsOf(components, order)[i].dependsOn.items ensures Before(StepsOf(components, order), i, d) {
      assert d in ToSet(Lookup(components, order[i]).dependsOn);
      BeforeMeans(components, order, i, d);
    }
  }

  lemma LeastFirst(components: seq<Component>, order: seq<string>, i: nat, j: nat)
    requires Distinct(IDs(components)) && IsOrder(GraphOf(components), order) && i < j < |order|
    requires forall x | x in order :: x in IDs(components)
    requires forall d | d in StepsOf(components, order)[j].dependsOn.items :: Before(StepsOf(components, order), i, d)
    ensures Less(order[i], order[j])
  {
    hide IDs, Lookup, GraphOf, Before, Less;
    var g := GraphOf(components);
    StepDependsOn(components, order, j);
    OrderIsTopological(g, order);
    forall d | d in g[order[j]] ensures d in ToSet(order[..i]) {
      assert d in Lookup(components, order[j]).dependsOn;
      assert d in StepsOf(components, order)[j].dependsOn.items;
      BeforeMeans(components, order, i, d);
    }
    assert order[j] !in order[..i];
    assert Ready(g, order[..i], order[j]);
    LeastReady(g, order, i, order[j]);
  }

  /** Every component of the manifest has its step. */
  lemma StepShown(lib: Library, m: Manifest, order: seq<string>, c: Component) returns (i: int)
    requires ValidManifest(lib, m) && c in m.components && IsOrder(GraphOf(Normalize(m).components), order)
    requires forall x | x in order :: x in IDs(Normalize(m).components)
    ensures 0 <= i < |order| && StepShows(StepsOf(Normalize(m).components, order)[i], c)
  {
    hide ValidManifest, IDs, Distinct, Lookup, GraphOf, Normalize, NormalComponent, Greedy, Sorted;
    NormalizedComponents(lib, m);
    var components := Normalize(m).components;
    var k := NormalPlace(m, c);
    NormalShows(c);
    GraphKeys(components);
    assert IDs(components)[k] in ToSet(IDs(components));
    assert c.id in ToSet(order);
    i :| 0 <= i < |order| && order[i] == c.id;
    var found := Lookup(components, order[i]);
    var j :| 0 <= j < |components| && components[j] == found;
    SameEntry(components, j, k);
    assert StepsOf(components, order)[i] == StepOf(i + 1, NormalComponent(c));
  }

  /** What is built shows the manifest, completely and in the least order. */
  lemma BuiltShows(lib: Library, m: Manifest, p: Plan)
    requires Build(lib, m) == Ok(p)
    ensures PlanShows(lib, m, p)
  {
    hide ValidManifest, IDs, Distinct, Lookup, GraphOf, Normalize, IsOrder, StepShows, LeastOrder, NormalFormOf, OrderOf, Orderable;
    BuildSucceeds(lib, m);
    NormalizedComponents(lib, m);
    NormalizeKeeps(m);
    NormalizeShows(lib, m);
    var components := Normalize(m).components;
    var order := OrderOf(components);
    OrderListed(components, order);
    StepsInLeastOrder(components, order);
    OrderSize(components, order);
    VersionKept(lib, m);
    forall c | c in m.components ensures exists i | 0 <= i < |p.steps| :: StepShows(p.steps[i], c) {
      var i := StepShown(lib, m, order, c);
    }
  }

  lemma VersionKept(lib: Library, m: Manifest)
    requires ValidManifest(lib, m)
    ensures m.schemaVersion == 1
  {
    hide IDs, Distinct, DependenciesDeclared, Orderable, ValidComponent, ValidID;
  }
}
