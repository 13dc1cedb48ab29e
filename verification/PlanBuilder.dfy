/** Building and validating plans: the source's loops, against `Build` and `ValidPlan`. */
module PlanBuilder {
  import opened Basics
  import opened Patterns
  import opened Graphs
  import opened Sorting
  import opened StackModel
  import opened StackTheory
  import opened Planner

  method ValidateComponent(lib: Library, c: Component) returns (ok: bool)
    ensures ok == ValidComponent(lib, c)
  {
    if !ValidID(c.id) || !ValidAdapter(c.adapter) { return false; }
    if !lib.validSource(c.artifact.source) || !ValidDigest(c.artifact.digest) || !ValidDigest(c.configuration) {
      return false;
    }
    var dependsOn := ValidateUnique(c.dependsOn, ValidID);
    if !dependsOn { return false; }
    var capabilities := ValidateUnique(c.capabilities, ValidCapability);
    if !capabilities { return false; }
    ok := ValidateUnique(c.secretSlots, ValidID);
  }

  predicate AllValid(lib: Library, components: seq<Component>) {
    forall c | c in components :: ValidComponent(lib, c)
  }

  lemma MoreIDs(components: seq<Component>, i: nat)
    requires i < |components|
    ensures IDs(components[..i + 1]) == IDs(components[..i]) + [components[i].id]
    ensures IDs(components[..i]) == IDs(components)[..i]
  {
    hide IDs;
    IDsOfPrefix(components, i);
    IDsOfPrefix(components, i + 1);
    assert IDs(components)[..i + 1] == IDs(components)[..i] + [IDs(components)[i]];
  }

  lemma IDsOfPrefix(components: seq<Component>, i: nat)
    requires i <= |components|
    ensures IDs(components[..i]) == IDs(components)[..i]
  {
    hide IDs;
    var a, b := components[..i], components[i..];
    assert components == a + b;
    IDsSplit(a, b);
    assert |IDs(a)| == i;
  }

  lemma PrefixDistinct(ids: seq<string>, i: nat)
    requires i < |ids| && Distinct(ids)
    ensures ids[i] !in ToSet(ids[..i])
  {
  }

  /** Every component is valid and no identity repeats. */
  method CollectComponents(lib: Library, components: seq<Component>) returns (seen: set<string>, ok: bool)
    ensures ok <==> AllValid(lib, components) && Distinct(IDs(components))
    ensures ok ==> seen == ToSet(IDs(components))
  {
    hide IDs, ValidComponent, Distinct;
    seen := {};
    assert IDs([]) == [] && Distinct([]) by { NoIDs(); }
    for i := 0 to |components|
      invariant forall k | 0 <= k < i :: ValidComponent(lib, components[k])
      invariant Distinct(IDs(components[..i])) && seen == ToSet(IDs(components[..i]))
    {
      MoreIDs(components, i);
      var valid := ValidateComponent(lib, components[i]);
      if !valid {
        assert components[i] in components;
        return seen, false;
      }
      if components[i].id in seen {
        assert !Distinct(IDs(components)) by {
          if Distinct(IDs(components)) { PrefixDistinct(IDs(components), i); }
        }
        return seen, false;
      }
      AppendDistinct(IDs(components[..i]), components[i].id);
      ToSetMore(IDs(components[..i]), components[i].id);
      seen := seen + {components[i].id};
    }
    assert components[..|components|] == components;
    ok := true;
  }

  lemma NoIDs()
    ensures IDs([]) == [] && Distinct([])
  {
  }

  /** Every dependency names another component. */
  method CheckDeclared(components: seq<Component>, declared: set<string>) returns (ok: bool)
    requires declared == ToSet(IDs(components))
    ensures ok <==> DependenciesDeclared(components)
  {
    hide IDs;
    for i := 0 to |components|
      invariant forall k | 0 <= k < i :: forall d | d in components[k].dependsOn :: d != components[k].id && d in declared
    {
      var c := components[i];
      for j := 0 to |c.dependsOn|
        invariant forall k | 0 <= k < j :: c.dependsOn[k] != c.id && c.dependsOn[k] in declared
      {
        assert c in components && c.dependsOn[j] in c.dependsOn;
        if c.dependsOn[j] == c.id || c.dependsOn[j] !in declared {
          Undeclared(components, c, c.dependsOn[j]);
          return false;
        }
      }
      assert forall d | d in c.dependsOn :: d != c.id && d in declared;
    }
    forall c, d | c in components && d in c.dependsOn ensures d != c.id && d in IDs(components) {
      var k :| 0 <= k < |components| && components[k] == c;
      assert d in declared;
    }
    ok := true;
  }

  lemma Undeclared(components: seq<Component>, c: Component, d: string)
    requires c in components && d in c.dependsOn && (d == c.id || d !in IDs(components))
    ensures !DependenciesDeclared(components)
  {
    hide IDs;
  }

  lemma ReadyForOrder(lib: Library, components: seq<Component>)
    requires AllValid(lib, components) && (DependenciesDeclared(components) || DependenciesEarlier(components))
    ensures SetsDistinct(components) && AllDeclared(components)
  {
    hide IDs, ValidID, ValidAdapter, ValidCapability, ValidDigest;
    forall c | c in components ensures Distinct(c.dependsOn) { assert ValidComponent(lib, c); }
    if DependenciesEarlier(components) {
      forall c, d | c in components && d in c.dependsOn ensures d in IDs(components) {
        var i :| 0 <= i < |components| && components[i] == c;
        assert d in IDs(components)[..i];
      }
    }
  }

  method ValidateManifest(lib: Library, m: Manifest) returns (ok: bool)
    ensures ok == ValidManifest(lib, m)
  {
    hide IDs, ValidComponent, Distinct, DependenciesDeclared, Orderable, ValidID, IsOrder, GraphOf;
    if m.schemaVersion != SCHEMA_VERSION || !ValidID(m.name) { return false; }
    if |m.components| < 1 || |m.components| > MAX_COMPONENTS { return false; }
    var seen, valid := CollectComponents(lib, m.components);
    if !valid { return false; }
    var declared := CheckDeclared(m.components, seen);
    if !declared { return false; }
    ReadyForOrder(lib, m.components);
    var order := DependencyOrder(m.components);
    if order.Some? { OrderIs(m.components, order.value); }
    ok := order.Some?;
  }

  method NormalizeManifest(m: Manifest) returns (normal: Manifest)
    ensures normal == Normalize(m)
  {
    hide NormalComponent, SortByID;
    var components: seq<Component> := [];
    for i := 0 to |m.components|
      invariant |components| == i && forall k | 0 <= k < i :: components[k] == NormalComponent(m.components[k])
    {
      components := components + [NormalComponent(m.components[i])];
    }
    assert components == NormalComponents(m.components);
    normal := Manifest(m.schemaVersion, m.name, SortByID(components));
  }

  /** The map from identity to component that the builder fills. */
  method IndexComponents(components: seq<Component>) returns (byID: map<string, Component>)
    requires Distinct(IDs(components))
    ensures byID.Keys == ToSet(IDs(components))
    ensures forall id | id in byID :: id in IDs(components) && byID[id] == Lookup(components, id)
  {
    hide IDs, Lookup, Distinct;
    byID := map[];
    assert IDs([]) == [] by { NoIDs(); }
    for i := 0 to |components|
      invariant byID.Keys == ToSet(IDs(components[..i]))
      invariant forall id | id in byID :: id in IDs(components) && byID[id] == Lookup(components, id)
    {
      MoreIDs(components, i);
      ToSetMore(IDs(components[..i]), components[i].id);
      assert IDs(components)[i] in IDs(components);
      LookupAt(components, i);
      byID := byID[components[i].id := components[i]];
    }
    assert components[..|components|] == components;
  }

  lemma LookupAt(components: seq<Component>, i: nat)
    requires Distinct(IDs(components)) && i < |components| && components[i].id in IDs(components)
    ensures Lookup(components, components[i].id) == components[i]
  {
    hide IDs, Lookup, Distinct;
    var found := Lookup(components, components[i].id);
    var j :| 0 <= j < |components| && components[j] == found;
    SameEntry(components, i, j);
  }

  method BuildPlan(lib: Library, m: Manifest) returns (r: Result<Plan, Error>)
    ensures r == Build(lib, m)
  {
    hide ValidManifest, IDs, Lookup, Distinct, Normalize, Orderable, IsOrder, GraphOf, ValidComponent, Sorted, AllDeclared, SetsDistinct;
    var valid := ValidateManifest(lib, m);
    if !valid { return Err(InvalidManifest); }
    BuildSucceeds(lib, m);
    NormalizedComponents(lib, m);
    var normal := NormalizeManifest(m);
    NormalReady(lib, m);
    var order := DependencyOrder(normal.components);
    if order.None? { return Err(InvalidManifest); }
    OrderIs(normal.components, order.value);
    OrderListed(normal.components, order.value);
    var byID := IndexComponents(normal.components);
    var steps: seq<PlanStep> := [];
    for index := 0 to |order.value|
      invariant |steps| == index
      invariant forall k | 0 <= k < index :: steps[k] == StepOf(k + 1, Lookup(normal.components, order.value[k]))
    {
      assert order.value[index] in order.value;
      steps := steps + [StepOf(index + 1, byID[order.value[index]])];
    }
    assert steps == StepsOf(normal.components, order.value);
    var plan := Plan(SCHEMA_VERSION, normal.name, lib.manifestDigest(normal), steps, "");
    plan := plan.(digest := lib.planDigest(plan));
    r := Ok(plan);
  }

  lemma NormalReady(lib: Library, m: Manifest)
    requires ValidManifest(lib, m)
    ensures var components := Normalize(m).components;
      Distinct(IDs(components)) && SetsDistinct(components) && AllDeclared(components)
  {
    hide IDs, ValidComponent, Distinct, Normalize, Orderable, Sorted, ValidID, NormalComponents, GraphOf, DependenciesDeclared;
    var components := Normalize(m).components;
    NormalizedComponents(lib, m);
    forall c | c in components ensures Distinct(c.dependsOn) { SetOfValid(lib, c); }
    GraphDeclared(lib, m);
  }

  lemma SetOfValid(lib: Library, c: Component)
    requires ValidComponent(lib, c)
    ensures Distinct(c.dependsOn)
  {
    hide ValidID, ValidAdapter, ValidCapability, ValidDigest;
  }

  lemma GraphDeclared(lib: Library, m: Manifest)
    requires ValidManifest(lib, m)
    ensures AllDeclared(Normalize(m).components)
  {
    hide IDs, ValidComponent, Distinct, Normalize, Orderable, Sorted, ValidID, NormalComponents;
    var components := Normalize(m).components;
    NormalizedGraph(m);
    GraphKeys(components);
    GraphKeys(m.components);
    DeclaredAll(m.components);
    GraphClosed(m.components);
    forall c, d | c in components && d in c.dependsOn ensures d in IDs(components) {
      InGraph(components, c, d);
    }
  }

  lemma DeclaredAll(components: seq<Component>)
    requires DependenciesDeclared(components)
    ensures AllDeclared(components)
  {
    hide IDs;
  }

  lemma InGraph(components: seq<Component>, c: Component, d: string)
    requires c in components && d in c.dependsOn && Closed(GraphOf(components))
    ensures d in IDs(components)
  {
    hide IDs;
    var k :| 0 <= k < |components| && components[k] == c;
    assert IDs(components)[k] in IDs(components);
    assert d in DependenciesOf(components, c.id);
    assert d in GraphOf(components)[c.id];
  }

  // ---------------------------------------------------------------- validation

  predicate AllSteps(lib: Library, steps: seq<PlanStep>) {
    forall i | 0 <= i < |steps| :: ValidStep(lib, steps[i], i + 1)
  }

  lemma PrefixMore(components: seq<Component>, i: nat)
    requires i < |components|
    ensures components[..i + 1] == components[..i] + [components[i]]
  {
  }

  /** The map from identity to index that the validator fills. */
  ghost predicate PositionsOf(components: seq<Component>, positions: map<string, int>) {
    && positions.Keys == ToSet(IDs(components))
    && forall k | 0 <= k < |components| :: components[k].id in positions && positions[components[k].id] == k
  }

  lemma PositionsMore(components: seq<Component>, positions: map<string, int>, c: Component)
    requires PositionsOf(components, positions) && Distinct(IDs(components)) && c.id !in positions
    ensures PositionsOf(components + [c], positions[c.id := |components|]) && Distinct(IDs(components + [c]))
  {
    hide IDs, Distinct, ToSet;
    var more := components + [c];
    assert IDs(more) == IDs(components) + [c.id] by {
      IDsSplit(components, [c]);
      IDsOfOne(c);
    }
    AppendDistinct(IDs(components), c.id);
    ToSetMore(IDs(components), c.id);
    var next := positions[c.id := |components|];
    forall k | 0 <= k < |more| ensures more[k].id in next && next[more[k].id] == k {
      if k < |components| { assert more[k] == components[k]; }
    }
  }

  lemma Repeated(components: seq<Component>, positions: map<string, int>, i: nat)
    requires i < |components| && PositionsOf(components[..i], positions) && components[i].id in positions
    ensures !Distinct(IDs(components))
  {
    hide IDs, Distinct;
    MoreIDs(components, i);
    if Distinct(IDs(components)) { PrefixDistinct(IDs(components), i); }
  }

  method CheckStep(lib: Library, step: PlanStep, index: int) returns (ok: bool)
    ensures ok == ValidStep(lib, step, index)
  {
    hide ValidComponent, Sorted;
    if step.index != index { return false; }
    if step.dependsOn.Nil? || step.capabilities.Nil? || step.secretSlots.Nil? { return false; }
    if !Sorted(step.dependsOn.items) || !Sorted(step.capabilities.items) || !Sorted(step.secretSlots.items) {
      return false;
    }
    ok := ValidateComponent(lib, ComponentOf(step));
  }

  /** The first loop: each step in its place and valid, no identity twice. */
  method CollectSteps(lib: Library, steps: seq<PlanStep>)
    returns (positions: map<string, int>, components: seq<Component>, ok: bool)
    ensures ok <==> AllSteps(lib, steps) && Distinct(IDs(ComponentsOf(steps)))
    ensures ok ==> components == ComponentsOf(steps) && PositionsOf(components, positions)
  {
    hide IDs, ValidStep, Distinct, ComponentsOf, PositionsOf;
    positions, components := map[], [];
    ghost var all := ComponentsOf(steps);
    NoPositions();
    for i := 0 to |steps|
      invariant forall k | 0 <= k < i :: ValidStep(lib, steps[k], k + 1)
      invariant components == all[..i] && Distinct(IDs(components)) && PositionsOf(components, positions)
    {
      var valid := CheckStep(lib, steps[i], i + 1);
      if !valid { return positions, components, false; }
      var component := ComponentOf(steps[i]);
      assert all[i] == component;
      if steps[i].componentID in positions {
        Repeated(all, positions, i);
        return positions, components, false;
      }
      PositionsMore(components, positions, component);
      PrefixMore(all, i);
      positions := positions[steps[i].componentID := i];
      components := components + [component];
    }
    assert all[..|steps|] == all;
    ok := true;
  }

  lemma NoPositions()
    ensures PositionsOf([], map[]) && Distinct(IDs([]))
  {
  }

  lemma EarlierMeansPosition(components: seq<Component>, positions: map<string, int>, i: nat, d: string)
    requires i < |components| && PositionsOf(components, positions)
    ensures d in IDs(components)[..i] <==> d in positions && positions[d] < i
  {
    hide IDs, Distinct;
    if d in positions {
      var k :| 0 <= k < |IDs(components)| && IDs(components)[k] == d;
      assert components[k].id == d && positions[d] == k;
      if k < i { assert IDs(components)[..i][k] == d; }
    }
    if d in IDs(components)[..i] {
      var k :| 0 <= k < i && IDs(components)[..i][k] == d;
      assert IDs(components)[k] == components[k].id;
    }
  }

  /** The second loop: dependencies name earlier steps. */
  method CheckEarlier(components: seq<Component>, positions: map<string, int>) returns (ok: bool)
    requires PositionsOf(components, positions)
    ensures ok <==> DependenciesEarlier(components)
  {
    hide IDs, PositionsOf;
    for i := 0 to |components|
      invariant forall k, d | 0 <= k < i && d in components[k].dependsOn :: d in IDs(components)[..k]
    {
      var c := components[i];
      for j := 0 to |c.dependsOn|
        invariant forall k | 0 <= k < j :: c.dependsOn[k] in IDs(components)[..i]
      {
        var d := c.dependsOn[j];
        EarlierMeansPosition(components, positions, i, d);
        if d !in positions || positions[d] >= i {
          assert d in components[i].dependsOn;
          return false;
        }
      }
    }
    ok := true;
  }

  method SameOrder(steps: seq<PlanStep>, order: seq<string>) returns (ok: bool)
    requires |steps| == |order|
    ensures ok <==> order == IDs(ComponentsOf(steps))
  {
    hide IDs, ComponentsOf;
    ghost var ids := IDs(ComponentsOf(steps));
    for index := 0 to |order|
      invariant forall k | 0 <= k < index :: order[k] == ids[k]
    {
      assert ids[index] == ComponentsOf(steps)[index].id == steps[index].componentID;
      if steps[index].componentID != order[index] { return false; }
    }
    assert order == ids;
    ok := true;
  }

  method ValidatePlan(lib: Library, p: Plan) returns (ok: bool)
    ensures ok == ValidPlan(lib, p)
  {
    hide IDs, ComponentsOf, Distinct, ValidStep, ValidID, ValidDigest, Normalize, Orderable, OrderOf, IsOrder, GraphOf,
         DependenciesEarlier, ValidComponent, AllDeclared, SetsDistinct;
    if p.schemaVersion != SCHEMA_VERSION || !ValidID(p.stack) || !ValidDigest(p.manifestDigest) || !ValidDigest(p.digest) {
      return false;
    }
    if |p.steps| < 1 || |p.steps| > MAX_COMPONENTS { return false; }
    var positions, components, valid := CollectSteps(lib, p.steps);
    if !valid { return false; }
    var earlier := CheckEarlier(components, positions);
    if !earlier { return false; }
    StepsGiveComponents(lib, p.steps);
    ReadyForOrder(lib, components);
    var expected := DependencyOrder(components);
    if expected.None? { return false; }
    OrderIs(components, expected.value);
    OrderSize(components, expected.value);
    var same := SameOrder(p.steps, expected.value);
    if !same { return false; }
    var normal := NormalizeManifest(Manifest(p.schemaVersion, p.stack, components));
    if lib.manifestDigest(normal) != p.manifestDigest { return false; }
    var unsigned := p.(digest := "");
    ok := lib.planDigest(unsigned) == p.digest;
  }

  lemma StepsGiveComponents(lib: Library, steps: seq<PlanStep>)
    requires AllSteps(lib, steps)
    ensures AllValid(lib, ComponentsOf(steps))
  {
    hide ComponentsOf, ValidComponent, Sorted;
    forall c | c in ComponentsOf(steps) ensures ValidComponent(lib, c) {
      var i :| 0 <= i < |steps| && ComponentsOf(steps)[i] == c;
      assert ValidStep(lib, steps[i], i + 1);
    }
  }

  lemma OrderSize(components: seq<Component>, order: seq<string>)
    requires Distinct(IDs(components)) && IsOrder(GraphOf(components), order)
    ensures |order| == |components|
  {
    hide IDs, GraphOf, Distinct, Greedy;
    SizeOfGraph(components);
    GreedyDistinct(GraphOf(components), order);
    DistinctSize(order);
  }
}
