/** A valid plan that no request can have approved. */
module ApprovalExceptions {
  import opened Basics
  import opened Patterns
  import opened Graphs
  import opened JournalModel
  import opened JournalMachine
  import opened Approvals
  import opened StackTheory

  const NAME := "app"
  const ADAPTER := "gotth-stack-adapter-app.v1"

  function ZeroDigest(): string {
    "sha256:" + seq(64, _ => '0')
  }

  /** A component that depends on nothing, needs no secrets, and asks for no capability. */
  function Modest(source: string): Plans.Component {
    Plans.Component(NAME, ADAPTER, Plans.Artifact(source, ZeroDigest()), ZeroDigest(), [], [], [])
  }

  function ModestManifest(source: string): Plans.Manifest {
    Plans.Manifest(Plans.SCHEMA_VERSION, NAME, [Modest(source)])
  }

  lemma NamesAreValid()
    ensures ValidID(NAME) && ValidDigest(ZeroDigest())
  {
  }

  lemma AdapterIsValid()
    ensures ValidAdapter(ADAPTER)
  {
    hide SlugText, VersionText;
    var rest := ADAPTER[|ADAPTER_PREFIX|..];
    assert ADAPTER[..|ADAPTER_PREFIX|] == ADAPTER_PREFIX && rest == "app.v1";
    DotAfterName();
    assert rest[..3] == "app" && rest[4..] == "v1";
    PartsAreValid();
  }

  lemma DotAfterName()
    ensures FirstDot("app.v1") == 3
  {
    assert "app.v1"[3] == '.';
  }

  lemma PartsAreValid()
    ensures SlugText("app") && VersionText("v1")
  {
  }

  lemma ModestIsValid(lib: Plans.Library, source: string)
    requires lib.validSource(source)
    ensures Plans.ValidComponent(lib, Modest(source))
  {
    hide ValidID, ValidDigest, ValidAdapter, ValidCapability;
    NamesAreValid();
    AdapterIsValid();
  }

  lemma ModestOrder(source: string)
    ensures IsOrder(Plans.GraphOf([Modest(source)]), [NAME])
  {
    hide ZeroDigest;
    var components := [Modest(source)];
    var g := Plans.GraphOf(components);
    assert Plans.IDs(components) == [NAME];
    assert Plans.DependenciesOf(components, NAME) == {};
    assert g.Keys == {NAME} && g[NAME] == {};
    assert ToSet([NAME]) == {NAME};
    assert [NAME][..0] == [];
    assert Ready(g, [], NAME);
  }

  lemma ModestManifestIsValid(lib: Plans.Library, source: string)
    requires lib.validSource(source)
    ensures Plans.ValidManifest(lib, ModestManifest(source))
  {
    hide ValidID, ValidDigest, IsOrder, Plans.GraphOf, Plans.ValidComponent, Modest;
    NamesAreValid();
    ModestIsValid(lib, source);
    ModestOrder(source);
    ModestStands(source);
  }

  lemma ModestStands(source: string)
    ensures Distinct(Plans.IDs([Modest(source)])) && Plans.DependenciesDeclared([Modest(source)])
  {
  }

  /** Every step of a plan is made from a component of its normal form. */
  lemma StepsFromComponents(lib: Plans.Library, m: Plans.Manifest, i: nat)
    requires Plans.Build(lib, m).Ok? && i < |Plans.Build(lib, m).value.steps|
    ensures exists c | c in Plans.NormalComponents(m.components) ::
      Plans.Build(lib, m).value.steps[i].capabilities == Items(c.capabilities)
  {
    hide Plans.ValidManifest, Plans.Orderable, Plans.OrderOf, IsOrder, Plans.GraphOf, Plans.Lookup, Plans.NormalComponents, Plans.SortByID;
    var normal := Plans.Normalize(m);
    Plans.OrderListed(normal.components, Plans.OrderOf(normal.components));
    var order := Plans.OrderOf(normal.components);
    var c := Plans.Lookup(normal.components, order[i]);
    SameMembers(normal.components, Plans.NormalComponents(m.components));
    assert Plans.Build(lib, m).value.steps[i] == Plans.StepOf(i + 1, c);
  }

  /** Whatever is requested, the projection of a plan with such a step is refused. */
  lemma NoneStored(installation: string, p: Plans.Plan, input: ApprovalInput, now: Time, i: nat)
    requires i < |p.steps| && p.steps[i].capabilities == Items([])
    ensures !ValidStoredApproval(Project(installation, p, input, now), installation)
  {
    hide ValidID, ValidDigest, ValidAdapter, ValidCapability, ValidSecrets, Distinct;
    assert ProjectSteps(p.steps)[i] == ProjectStep(p.steps[i]);
    assert !ValidApprovedComponent(ProjectSteps(p.steps)[i], i + 1);
  }

  /** There is a valid plan, built from a valid manifest, that cannot be approved. */
  lemma UnapprovablePlan(lib: Plans.Library, source: string) returns (p: Plans.Plan)
    requires Plans.ValidLibrary(lib) && lib.validSource(source)
    ensures Plans.Build(lib, ModestManifest(source)) == Ok(p) && Plans.ValidPlan(lib, p)
    ensures forall installation, input, now :: !ValidStoredApproval(Project(installation, p, input, now), installation)
  {
    hide Plans.Build, Plans.ValidPlan, Plans.ValidManifest, ValidStoredApproval, Project, Modest, Plans.NormalComponents;
    var m := ModestManifest(source);
    ModestManifestIsValid(lib, source);
    BuildSucceeds(lib, m);
    BuiltIsValid(lib, m);
    p := Plans.Build(lib, m).value;
    PlanIDs(lib, p);
    StepsFromComponents(lib, m, 0);
    ModestNormal(source);
    forall installation, input, now ensures !ValidStoredApproval(Project(installation, p, input, now), installation) {
      NoneStored(installation, p, input, now, 0);
    }
  }

  lemma ModestNormal(source: string)
    ensures forall c | c in Plans.NormalComponents(ModestManifest(source).components) :: c.capabilities == []
  {
    hide ZeroDigest;
    var components := ModestManifest(source).components;
    assert Plans.NormalComponents(components) == [Plans.NormalComponent(Modest(source))];
  }
}
