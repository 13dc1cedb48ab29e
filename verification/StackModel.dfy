/** Manifests, plans, and what it means to build and to accept a plan. */
module StackModel {
  import opened Basics
  import opened Patterns
  import opened StringOrder
  import opened Graphs
  import opened Sorting

  const SCHEMA_VERSION := 1
  const MAX_COMPONENTS := 64
  const MAX_SET_VALUES := 64

  datatype Error = InvalidManifest | InvalidPlan

  datatype Artifact = Artifact(source: string, digest: string)

  datatype Component = Component(
    id: string, adapter: string, artifact: Artifact, configuration: string,
    dependsOn: seq<string>, capabilities: seq<string>, secretSlots: seq<string>)

  datatype Manifest = Manifest(schemaVersion: int, name: string, components: seq<Component>)

  datatype PlanStep = PlanStep(
    index: int, componentID: string, adapter: string, artifact: Artifact, configuration: string,
    dependsOn: Slice<string>, capabilities: Slice<string>, secretSlots: Slice<string>)

  datatype Plan = Plan(
    schemaVersion: int, stack: string, manifestDigest: string, steps: seq<PlanStep>, digest: string)

  /** Library functions: the artifact URL check, and the digests of the canonical encodings. */
  datatype Library = Library(validSource: string -> bool, manifestDigest: Manifest -> string, planDigest: Plan -> string)

  ghost predicate ValidLibrary(lib: Library) {
    && (forall m :: ValidDigest(lib.manifestDigest(m)))
    && (forall p :: ValidDigest(lib.planDigest(p)))
  }

  // ---------------------------------------------------------------- validity

  predicate ValidSet(values: seq<string>, valid: string -> bool) {
    |values| <= MAX_SET_VALUES && Distinct(values) && forall v | v in values :: valid(v)
  }

  predicate ValidComponent(lib: Library, c: Component) {
    && ValidID(c.id) && ValidAdapter(c.adapter)
    && lib.validSource(c.artifact.source) && ValidDigest(c.artifact.digest) && ValidDigest(c.configuration)
    && ValidSet(c.dependsOn, ValidID) && ValidSet(c.capabilities, ValidCapability) && ValidSet(c.secretSlots, ValidID)
  }

  function IDs(components: seq<Component>): (r: seq<string>)
    ensures |r| == |components|
    ensures forall i | 0 <= i < |r| :: r[i] == components[i].id
  {
    if components == [] then [] else [components[0].id] + IDs(components[1..])
  }

  function DependenciesOf(components: seq<Component>, id: string): set<string> {
    set c, d | c in components && c.id == id && d in c.dependsOn :: d
  }

  function GraphOf(components: seq<Component>): Graph {
    map id | id in IDs(components) :: DependenciesOf(components, id)
  }

  predicate DependenciesDeclared(components: seq<Component>) {
    forall c | c in components :: forall d | d in c.dependsOn :: d != c.id && d in IDs(components)
  }

  ghost predicate Orderable(components: seq<Component>) {
    exists order :: IsOrder(GraphOf(components), order)
  }

  ghost function OrderOf(components: seq<Component>): (r: seq<string>)
    requires Orderable(components)
    ensures IsOrder(GraphOf(components), r)
  {
    var order :| IsOrder(GraphOf(components), order);
    order
  }

  ghost predicate ValidManifest(lib: Library, m: Manifest) {
    && m.schemaVersion == SCHEMA_VERSION && ValidID(m.name)
    && 1 <= |m.components| <= MAX_COMPONENTS
    && (forall c | c in m.components :: ValidComponent(lib, c))
    && Distinct(IDs(m.components))
    && DependenciesDeclared(m.components)
    && Orderable(m.components)
  }

  // ---------------------------------------------------------------- normal form

  function NormalComponent(c: Component): Component {
    c.(dependsOn := Sort(c.dependsOn), capabilities := Sort(c.capabilities), secretSlots := Sort(c.secretSlots))
  }

  function NormalComponents(components: seq<Component>): (r: seq<Component>)
    ensures |r| == |components|
    ensures forall i | 0 <= i < |r| :: r[i] == NormalComponent(components[i])
  {
    if components == [] then [] else [NormalComponent(components[0])] + NormalComponents(components[1..])
  }

  function InsertByID(components: seq<Component>, c: Component): (r: seq<Component>)
    ensures multiset(r) == multiset(components) + multiset{c}
    ensures |r| == |components| + 1
  {
    if components == [] || !Less(components[0].id, c.id) then
      assert multiset([c] + components) == multiset{c} + multiset(components);
      [c] + components
    else
      assert components == [components[0]] + components[1..];
      [components[0]] + InsertByID(components[1..], c)
  }

  function SortByID(components: seq<Component>): (r: seq<Component>)
    ensures multiset(r) == multiset(components) && |r| == |components|
  {
    if components == [] then [] else
    assert components == [components[0]] + components[1..];
    InsertByID(SortByID(components[1..]), components[0])
  }

  function Normalize(m: Manifest): Manifest {
    m.(components := SortByID(NormalComponents(m.components)))
  }

  // ---------------------------------------------------------------- plans

  function Lookup(components: seq<Component>, id: string): (c: Component)
    requires id in IDs(components)
    ensures c in components && c.id == id
  {
    if components[0].id == id then components[0] else Lookup(components[1..], id)
  }

  function StepOf(index: int, c: Component): PlanStep {
    PlanStep(index, c.id, c.adapter, c.artifact, c.configuration,
             Items(c.dependsOn), Items(c.capabilities), Items(c.secretSlots))
  }

  function StepsOf(components: seq<Component>, order: seq<string>): (r: seq<PlanStep>)
    requires forall id | id in order :: id in IDs(components)
    ensures |r| == |order|
    ensures forall i | 0 <= i < |r| :: r[i] == StepOf(i + 1, Lookup(components, order[i]))
  {
    seq(|order|, i requires 0 <= i < |order| => StepOf(i + 1, Lookup(components, order[i])))
  }

  function Signed(lib: Library, p: Plan): Plan {
    p.(digest := lib.planDigest(p.(digest := "")))
  }

  /** The plan of a manifest in normal form, given the order of its components. */
  function PlanOf(lib: Library, normal: Manifest, order: seq<string>): Plan
    requires forall id | id in order :: id in IDs(normal.components)
  {
    Signed(lib, Plan(SCHEMA_VERSION, normal.name, lib.manifestDigest(normal), StepsOf(normal.components, order), ""))
  }

  lemma OrderListed(components: seq<Component>, order: seq<string>)
    requires IsOrder(GraphOf(components), order)
    ensures forall id | id in order :: id in IDs(components)
  {
    forall id | id in order ensures id in IDs(components) { assert id in ToSet(order); }
  }

  ghost function Build(lib: Library, m: Manifest): Result<Plan, Error> {
    if !ValidManifest(lib, m) then Err(InvalidManifest) else
    var normal := Normalize(m);
    if !Orderable(normal.components) then Err(InvalidManifest) else
    OrderListed(normal.components, OrderOf(normal.components));
    Ok(PlanOf(lib, normal, OrderOf(normal.components)))
  }

  /** The component a step was made from. */
  function ComponentOf(step: PlanStep): Component {
    Component(step.componentID, step.adapter, step.artifact, step.configuration,
              if step.dependsOn.Items? then step.dependsOn.items else [],
              if step.capabilities.Items? then step.capabilities.items else [],
              if step.secretSlots.Items? then step.secretSlots.items else [])
  }

  function ComponentsOf(steps: seq<PlanStep>): (r: seq<Component>)
    ensures |r| == |steps|
    ensures forall i | 0 <= i < |r| :: r[i] == ComponentOf(steps[i])
  {
    if steps == [] then [] else [ComponentOf(steps[0])] + ComponentsOf(steps[1..])
  }

  predicate CanonicalList(xs: Slice<string>) {
    xs.Items? && Sorted(xs.items)
  }

  predicate ValidStep(lib: Library, step: PlanStep, index: int) {
    && step.index == index
    && CanonicalList(step.dependsOn) && CanonicalList(step.capabilities) && CanonicalList(step.secretSlots)
    && ValidComponent(lib, ComponentOf(step))
  }

  /** Dependencies name earlier steps. */
  predicate DependenciesEarlier(components: seq<Component>) {
    forall i, d | 0 <= i < |components| && d in components[i].dependsOn :: d in IDs(components)[..i]
  }

  ghost predicate ValidPlan(lib: Library, p: Plan) {
    && p.schemaVersion == SCHEMA_VERSION && ValidID(p.stack)
    && ValidDigest(p.manifestDigest) && ValidDigest(p.digest)
    && 1 <= |p.steps| <= MAX_COMPONENTS
    && (forall i | 0 <= i < |p.steps| :: ValidStep(lib, p.steps[i], i + 1))
    && var components := ComponentsOf(p.steps);
       && Distinct(IDs(components)) && DependenciesEarlier(components)
       && Orderable(components) && OrderOf(components) == IDs(components)
       && lib.manifestDigest(Normalize(Manifest(p.schemaVersion, p.stack, components))) == p.manifestDigest
       && lib.planDigest(p.(digest := "")) == p.digest
  }
}
