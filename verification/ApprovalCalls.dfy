/** The public approval call: request checks, plan validation, secret binding, projection, append. */
module ApprovalCalls {
  import opened Basics
  import opened JournalModel
  import opened JournalMachine
  import opened JournalCalls
  import opened JournalObject
  import opened LogFrames
  import opened LogCrash
  import opened Approvals
  import PlanBuilder

  /** Everything that is checked before the journal is consulted. */
  ghost predicate Acceptable(lib: Plans.Library, p: Plans.Plan, input: ApprovalInput) {
    ValidInput(input) && Plans.ValidPlan(lib, p) && SecretsMatch(p, input.secrets.items)
  }

  /** Fill the projection by index. */
  method ProjectComponents(steps: seq<Plans.PlanStep>) returns (components: seq<ApprovedComponent>)
    ensures components == ProjectSteps(steps)
  {
    hide ProjectStep;
    components := [];
    for index := 0 to |steps|
      invariant |components| == index && forall k | 0 <= k < index :: components[k] == ProjectStep(steps[k])
    {
      components := components + [ProjectStep(steps[index])];
    }
  }

  method CheckRequest(lib: Plans.Library, p: Plans.Plan, input: ApprovalInput) returns (ok: bool)
    ensures ok == Acceptable(lib, p, input)
    ensures ok ==> input.secrets.Items?
  {
    hide Plans.ValidPlan, ValidInput, SecretsMatch;
    var valid := ValidateApprovalInput(input);
    if !valid { return false; }
    InputHasSecrets(input);
    var accepted := PlanBuilder.ValidatePlan(lib, p);
    if !accepted { return false; }
    ok := SecretRevisionsMatchPlan(p, input.secrets.items);
  }

  /** The reply to an approval request: the checks, then the reply of the journal to the projection. */
  ghost function ReplyToRequest(s: State, installation: string, lib: Plans.Library, p: Plans.Plan, input: ApprovalInput, now: Time): Reply {
    if Acceptable(lib, p, input) then ApproveReply(s, Project(installation, p, input, now), now)
    else Answer(Some(InvalidInput))
  }

  /** The values of a list, whether nil or empty. */
  function ListOf(xs: Slice<string>): seq<string> {
    if xs.Items? then xs.items else []
  }

  /** The component names this step of the plan, with its artifact, its configuration and its capabilities. */
  predicate ApprovesStep(c: ApprovedComponent, step: Plans.PlanStep) {
    && c.index == step.index && c.componentID == step.componentID && c.adapter == step.adapter
    && c.artifact == step.artifact.digest && c.configuration == step.configuration
    && ListOf(c.capabilities) == ListOf(step.capabilities)
  }

  /** The stored authority says of the plan and of the request just what they say. */
  predicate Authorises(a: Approval, installation: string, p: Plans.Plan, input: ApprovalInput) {
    && a.id == input.id && a.installationID == installation
    && a.planDigest == p.digest && a.manifestDigest == p.manifestDigest
    && a.actorID == input.actorID && a.authority == input.authority && a.expiresAt == input.expiresAt
    && a.secrets == input.secrets
    && |a.components| == |p.steps| && forall i | 0 <= i < |p.steps| :: ApprovesStep(a.components[i], p.steps[i])
  }

  lemma ProjectAuthorises(installation: string, p: Plans.Plan, input: ApprovalInput, now: Time)
    requires input.secrets.Items?
    ensures Authorises(Project(installation, p, input, now), installation, p, input)
  {
    var a := Project(installation, p, input, now);
    forall i | 0 <= i < |p.steps| ensures ApprovesStep(a.components[i], p.steps[i]) {
      assert a.components[i] == ProjectStep(p.steps[i]);
    }
  }

  lemma CloneAuthorises(a: Approval, installation: string, p: Plans.Plan, input: ApprovalInput)
    requires Authorises(a, installation, p, input) && a.secrets.Items?
    ensures Authorises(CloneApproval(a), installation, p, input) && CloneApproval(a).issuedAt == a.issuedAt
  {
    var copy := CloneApproval(a);
    forall i | 0 <= i < |p.steps| ensures ApprovesStep(copy.components[i], p.steps[i]) {
      assert ApprovesStep(a.components[i], p.steps[i]);
    }
  }

  /** An accepted approval record is stored as a copy. */
  lemma StoredCopy(s: State, installation: string, a: Approval, now: Time)
    requires a.id !in s.approvals && Accepts(s, installation, Event(now, ApprovalRecorded(a)))
    ensures After(s, installation, Event(now, ApprovalRecorded(a))).approvals == s.approvals[a.id := CloneApproval(a)]
  {
    hide ValidStoredApproval, CloneApproval;
  }

  lemma ReplyCases(s: State, a: Approval, now: Time)
    requires a.issuedAt == now
    ensures ApproveReply(s, a, now).Submission? ==>
      a.id !in s.approvals && ApproveReply(s, a, now).e == Event(now, ApprovalRecorded(a))
    ensures ApproveReply(s, a, now) == Answer(None) ==>
      a.id in s.approvals && s.approvals[a.id] == a.(issuedAt := s.approvals[a.id].issuedAt)
  {
  }

  lemma ProjectsApprovals(journal: Journal)
    ensures journal.Projection().approvals == journal.approvals
  {
  }

  lemma LaterIssue(a: Approval, issuedAt: Time, installation: string, p: Plans.Plan, input: ApprovalInput)
    ensures Authorises(a.(issuedAt := issuedAt), installation, p, input) == Authorises(a, installation, p, input)
  {
    hide ApprovesStep;
  }

  method RecordApproval(journal: Journal, lib: Plans.Library, p: Plans.Plan, input: ApprovalInput, now: Time, fault: Fault)
    returns (error: Option<Error>, ghost submitted: Option<Event>)
    requires journal.Valid() && ValidCodec(journal.codec)
    modifies journal`approvals, journal`operations, journal.operations.Values, journal`log, journal`headFile,
             journal`head, journal`recordCount, journal`poisoned
    ensures journal.Valid()
    ensures journal.Served(old(ReplyToRequest(journal.Projection(), journal.installation, lib, p, input, now)), error, submitted, fault)
    ensures error.None? ==>
      && input.id in journal.approvals && Authorises(journal.approvals[input.id], journal.installation, p, input)
      && (submitted.Some? ==> journal.approvals[input.id].issuedAt == now)
  {
    hide Accepts, After, CloneApproval, Acceptable, Authorises, Journal.Valid, Journal.Projection, Act, SubmitAnswer, ActionTaken, ApproveReply;
    submitted := None;
    if journal.poisoned { error := Some(RecoveryRequired); return; }
    var acceptable := CheckRequest(lib, p, input);
    if !acceptable { error := Some(InvalidInput); return; }
    var components := ProjectComponents(p.steps);
    var approval := Approval(input.id, journal.installation, p.digest, p.manifestDigest, input.actorID, input.authority,
                             now, input.expiresAt, components, input.secrets);
    ghost var state := journal.Projection();
    error, submitted := journal.RecordApproval(approval, now, fault);
    if error.None? {
      ReplyCases(state, approval, now);
      ProjectsApprovals(journal);
      if submitted.Some? {
        StoredCopy(state, journal.installation, approval, now);
      }
      ProjectAuthorises(journal.installation, p, input, now);
      CloneAuthorises(approval, journal.installation, p, input);
      LaterIssue(approval, journal.approvals[input.id].issuedAt, journal.installation, p, input);
    }
  }

  lemma InputHasSecrets(input: ApprovalInput)
    requires ValidInput(input)
    ensures input.secrets.Items?
  {
  }
}
