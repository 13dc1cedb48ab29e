/** From a plan and an approval request to the stored authority: secret bindings and the projection. */
module Approvals {
  import opened Basics
  import opened Patterns
  import opened StringOrder
  import opened Sorting
  import opened JournalModel
  import opened JournalMachine
  import Plans = StackModel

  const MAX_SECRETS := 4096

  datatype ApprovalInput = ApprovalInput(
    id: string, actorID: string, authority: string, expiresAt: Time, secrets: Slice<SecretRevision>)

  predicate ValidFields(secret: SecretRevision) {
    ValidID(secret.componentID) && ValidID(secret.slot) && ValidDigest(secret.revision)
  }

  predicate ValidInput(input: ApprovalInput) {
    && ValidID(input.id) && ValidID(input.actorID) && ValidDigest(input.authority) && input.expiresAt != UNSET
    && input.secrets.Items? && |input.secrets.items| <= MAX_SECRETS && ValidSecrets(input.secrets.items)
  }

  // ---------------------------------------------------------------- keys

  predicate NoNul(s: string) {
    forall i | 0 <= i < |s| :: s[i] > '\0'
  }

  lemma SlugNoNul(s: string)
    requires ValidID(s)
    ensures NoNul(s)
  {
  }

  /** Keys are ordered as the pairs they join: by component, then by slot. */
  lemma {:induction false} KeyOrder(a: string, b: string, c: string, d: string)
    requires NoNul(a) && NoNul(c)
    ensures Less(Key(a, b), Key(c, d)) <==> Less(a, c) || (a == c && Less(b, d))
    decreases |a|
  {
    if a == [] {
      assert Key(a, b) == ['\0'] + b;
      if c == [] { assert Key(c, d) == ['\0'] + d; }
    } else if c != [] {
      assert Key(a, b)[1..] == Key(a[1..], b) && Key(c, d)[1..] == Key(c[1..], d);
      assert a == [a[0]] + a[1..] && c == [c[0]] + c[1..];
      KeyOrder(a[1..], b, c[1..], d);
    }
  }

  lemma KeyInjective(a: string, b: string, c: string, d: string)
    requires NoNul(a) && NoNul(c) && Key(a, b) == Key(c, d)
    ensures a == c && b == d
  {
    hide Key, Less;
    LessIrreflexive(Key(a, b));
    KeyOrder(a, b, c, d);
    KeyOrder(c, d, a, b);
    LessTotal(a, c);
    LessTotal(b, d);
  }

  function Keys(secrets: seq<SecretRevision>): (r: seq<string>)
    ensures |r| == |secrets|
    ensures forall i | 0 <= i < |r| :: r[i] == Key(secrets[i].componentID, secrets[i].slot)
  {
    seq(|secrets|, i requires 0 <= i < |secrets| => Key(secrets[i].componentID, secrets[i].slot))
  }

  function SlotsOf(step: Plans.PlanStep): seq<string> {
    if step.secretSlots.Items? then step.secretSlots.items else []
  }

  function SlotKeys(component: string, slots: seq<string>): (r: seq<string>)
    ensures |r| == |slots|
    ensures forall i | 0 <= i < |r| :: r[i] == Key(component, slots[i])
  {
    seq(|slots|, i requires 0 <= i < |slots| => Key(component, slots[i]))
  }

  /** One key for each slot of each step. */
  function PlanKeys(steps: seq<Plans.PlanStep>): seq<string> {
    if steps == [] then [] else
    var last := steps[|steps| - 1];
    PlanKeys(steps[..|steps| - 1]) + SlotKeys(last.componentID, SlotsOf(last))
  }

  /** The canonical check on secret bindings. */
  predicate SecretsMatch(p: Plans.Plan, secrets: seq<SecretRevision>) {
    Keys(secrets) == Sort(PlanKeys(p.steps))
  }

  method CollectKeys(steps: seq<Plans.PlanStep>) returns (expected: seq<string>)
    ensures expected == PlanKeys(steps)
  {
    expected := [];
    for i := 0 to |steps|
      invariant expected == PlanKeys(steps[..i])
    {
      var slots := SlotsOf(steps[i]);
      ghost var before := expected;
      for j := 0 to |slots|
        invariant expected == before + SlotKeys(steps[i].componentID, slots)[..j]
      {
        expected := expected + [Key(steps[i].componentID, slots[j])];
      }
      assert steps[..i + 1][..i] == steps[..i];
    }
    assert steps[..|steps|] == steps;
  }

  method SecretRevisionsMatchPlan(p: Plans.Plan, secrets: seq<SecretRevision>) returns (ok: bool)
    ensures ok == SecretsMatch(p, secrets)
  {
    hide PlanKeys, Sort, Key;
    var expected := CollectKeys(p.steps);
    expected := Sort(expected);
    if |expected| != |secrets| { return false; }
    for i := 0 to |secrets|
      invariant forall k | 0 <= k < i :: Keys(secrets)[k] == expected[k]
    {
      if Key(secrets[i].componentID, secrets[i].slot) != expected[i] {
        assert Keys(secrets)[i] != expected[i];
        return false;
      }
    }
    assert Keys(secrets) == expected;
    ok := true;
  }

  method ValidateApprovalInput(input: ApprovalInput) returns (ok: bool)
    ensures ok == ValidInput(input)
  {
    hide ValidID, ValidDigest, SecretKey, Less;
    if !ValidID(input.id) || !ValidID(input.actorID) || !ValidDigest(input.authority) || input.expiresAt == UNSET {
      return false;
    }
    if input.secrets.Nil? || |input.secrets.items| > MAX_SECRETS { return false; }
    var secrets := input.secrets.items;
    for i := 0 to |secrets|
      invariant forall k | 0 <= k < i :: ValidFields(secrets[k])
      invariant forall k | 0 < k < i :: Less(SecretKey(secrets[k - 1]), SecretKey(secrets[k]))
    {
      if !ValidFields(secrets[i]) {
        assert secrets[i] in secrets;
        return false;
      }
      if i > 0 && !Less(SecretKey(secrets[i - 1]), SecretKey(secrets[i])) { return false; }
    }
    ok := true;
  }

  // ---------------------------------------------------------------- secret binding

  /** The plan asks for this slot of this component. */
  predicate Declares(p: Plans.Plan, component: string, slot: string) {
    exists i | 0 <= i < |p.steps| :: p.steps[i].componentID == component && slot in SlotsOf(p.steps[i])
  }

  predicate Binds(secrets: seq<SecretRevision>, component: string, slot: string) {
    exists i | 0 <= i < |secrets| :: secrets[i].componentID == component && secrets[i].slot == slot
  }

  predicate PairLess(a: SecretRevision, b: SecretRevision) {
    Less(a.componentID, b.componentID) || (a.componentID == b.componentID && Less(a.slot, b.slot))
  }

  /** Well-formed bindings in strictly increasing order of component and slot. */
  predicate InPairOrder(secrets: seq<SecretRevision>) {
    && (forall s | s in secrets :: ValidFields(s))
    && forall i | 0 < i < |secrets| :: PairLess(secrets[i - 1], secrets[i])
  }

  lemma SecretOrder(a: SecretRevision, b: SecretRevision)
    requires ValidFields(a) && ValidFields(b)
    ensures Less(SecretKey(a), SecretKey(b)) <==> PairLess(a, b)
  {
    hide Less, ValidID, ValidDigest;
    SlugNoNul(a.componentID);
    SlugNoNul(b.componentID);
    KeyOrder(a.componentID, a.slot, b.componentID, b.slot);
  }

  lemma ValidMeansOrder(secrets: seq<SecretRevision>)
    ensures ValidSecrets(secrets) <==> InPairOrder(secrets)
  {
    hide Less, ValidID, ValidDigest, SecretKey, PairLess;
    if forall s | s in secrets :: ValidFields(s) {
      forall i | 0 < i < |secrets|
        ensures Less(SecretKey(secrets[i - 1]), SecretKey(secrets[i])) <==> PairLess(secrets[i - 1], secrets[i])
      {
        SecretOrder(secrets[i - 1], secrets[i]);
      }
    }
  }

  lemma {:induction false} AdjacentSorted(xs: seq<string>, i: nat, j: nat)
    requires forall k | 0 < k < |xs| :: Less(xs[k - 1], xs[k])
    requires i < j < |xs|
    ensures Less(xs[i], xs[j])
    decreases j
  {
    hide Less;
    assert Less(xs[j - 1], xs[j]);
    if i < j - 1 {
      AdjacentSorted(xs, i, j - 1);
      LessTransitive(xs[i], xs[j - 1], xs[j]);
    }
  }

  lemma KeysSorted(secrets: seq<SecretRevision>)
    requires ValidSecrets(secrets)
    ensures StrictlySorted(Keys(secrets))
  {
    hide Less, ValidID, ValidDigest;
    var keys := Keys(secrets);
    forall k | 0 < k < |keys| ensures Less(keys[k - 1], keys[k]) {
      assert Less(SecretKey(secrets[k - 1]), SecretKey(secrets[k]));
    }
    forall i, j | 0 <= i < j < |keys| ensures Less(keys[i], keys[j]) { AdjacentSorted(keys, i, j); }
  }

  /** The steps name distinct components, and their slots are distinct; all of them are slugs. */
  predicate SlotsClean(steps: seq<Plans.PlanStep>) {
    && (forall i | 0 <= i < |steps| ::
          && ValidID(steps[i].componentID) && Distinct(SlotsOf(steps[i]))
          && forall slot | slot in SlotsOf(steps[i]) :: ValidID(slot))
    && forall i, j | 0 <= i < j < |steps| :: steps[i].componentID != steps[j].componentID
  }

  predicate HasKey(steps: seq<Plans.PlanStep>, key: string) {
    exists i, slot | 0 <= i < |steps| && slot in SlotsOf(steps[i]) :: key == Key(steps[i].componentID, slot)
  }

  lemma SlotKeyMembers(component: string, slots: seq<string>, key: string)
    ensures key in SlotKeys(component, slots) <==> exists slot | slot in slots :: key == Key(component, slot)
  {
    hide Key;
    var keys := SlotKeys(component, slots);
    if key in keys {
      var i :| 0 <= i < |keys| && keys[i] == key;
      assert slots[i] in slots;
    }
    if slot :| slot in slots && key == Key(component, slot) {
      var i :| 0 <= i < |slots| && slots[i] == slot;
      assert keys[i] == key;
    }
  }

  lemma {:induction false} PlanKeyMembers(steps: seq<Plans.PlanStep>, key: string)
    ensures key in PlanKeys(steps) <==> HasKey(steps, key)
  {
    hide HasKey, Key, SlotKeys, SlotsOf;
    if steps == [] {
      NoKey(key);
    } else {
      var n := |steps| - 1;
      PlanKeyMembers(steps[..n], key);
      SlotKeyMembers(steps[n].componentID, SlotsOf(steps[n]), key);
      HasKeySplit(steps, key);
    }
  }

  lemma NoKey(key: string)
    ensures !HasKey([], key)
  {
  }

  lemma HasKeySplit(steps: seq<Plans.PlanStep>, key: string)
    requires steps != []
    ensures var n := |steps| - 1;
      HasKey(steps, key) <==>
        (HasKey(steps[..n], key) || exists slot | slot in SlotsOf(steps[n]) :: key == Key(steps[n].componentID, slot))
  {
    hide Key, SlotsOf;
    var n := |steps| - 1;
    var rest := steps[..n];
    if HasKey(rest, key) {
      var i, slot :| 0 <= i < |rest| && slot in SlotsOf(rest[i]) && key == Key(rest[i].componentID, slot);
      assert steps[i] == rest[i];
    }
    if HasKey(steps, key) {
      var i, slot :| 0 <= i < |steps| && slot in SlotsOf(steps[i]) && key == Key(steps[i].componentID, slot);
      if i < n { assert rest[i] == steps[i]; }
    }
  }

  lemma SlotKeysDistinct(component: string, slots: seq<string>)
    requires ValidID(component) && Distinct(slots)
    ensures Distinct(SlotKeys(component, slots))
  {
    hide ValidID, Key;
    SlugNoNul(component);
    var keys := SlotKeys(component, slots);
    forall i, j | 0 <= i < j < |keys| ensures keys[i] != keys[j] {
      if keys[i] == keys[j] { KeyInjective(component, slots[i], component, slots[j]); }
    }
  }

  lemma ConcatDistinct(xs: seq<string>, ys: seq<string>)
    requires Distinct(xs) && Distinct(ys) && forall x | x in xs :: x !in ys
    ensures Distinct(xs + ys)
  {
    forall i, j | 0 <= i < j < |xs + ys| ensures (xs + ys)[i] != (xs + ys)[j] {
      if i < |xs| <= j { assert xs[i] in xs && ys[j - |xs|] in ys; }
    }
  }

  lemma {:induction false} PlanKeysDistinct(steps: seq<Plans.PlanStep>)
    requires SlotsClean(steps)
    ensures Distinct(PlanKeys(steps))
  {
    hide Key, SlotKeys, SlotsOf, ValidID, Distinct;
    if steps == [] {
      assert Distinct([]) by { NothingRepeats(); }
    } else {
      var n := |steps| - 1;
      var rest, last := steps[..n], steps[n];
      PlanKeysDistinct(rest);
      var earlier, later := PlanKeys(rest), SlotKeys(last.componentID, SlotsOf(last));
      SlotKeysDistinct(last.componentID, SlotsOf(last));
      forall key | key in earlier ensures key !in later { KeyElsewhere(steps, key); }
      ConcatDistinct(earlier, later);
    }
  }

  lemma NothingRepeats()
    ensures Distinct([])
  {
  }

  lemma KeyElsewhere(steps: seq<Plans.PlanStep>, key: string)
    requires SlotsClean(steps) && steps != []
    requires key in PlanKeys(steps[..|steps| - 1])
    ensures key !in SlotKeys(steps[|steps| - 1].componentID, SlotsOf(steps[|steps| - 1]))
  {
    hide Key, SlotKeys, SlotsOf, ValidID, Distinct, PlanKeys;
    var n := |steps| - 1;
    PlanKeyMembers(steps[..n], key);
    var i, slot :| 0 <= i < n && slot in SlotsOf(steps[..n][i]) && key == Key(steps[..n][i].componentID, slot);
    SlugNoNul(steps[i].componentID);
    SlugNoNul(steps[n].componentID);
    forall other ensures key != Key(steps[n].componentID, other) {
      if key == Key(steps[n].componentID, other) {
        KeyInjective(steps[i].componentID, slot, steps[n].componentID, other);
      }
    }
    SlotKeyMembers(steps[n].componentID, SlotsOf(steps[n]), key);
  }

  lemma ValidStepClean(lib: Plans.Library, step: Plans.PlanStep, index: int)
    requires Plans.ValidStep(lib, step, index)
    ensures ValidID(step.componentID) && Distinct(SlotsOf(step))
    ensures forall slot | slot in SlotsOf(step) :: ValidID(slot)
  {
    hide ValidID, ValidAdapter, ValidDigest, ValidCapability, Sorted;
  }

  lemma PlanIDs(lib: Plans.Library, p: Plans.Plan)
    requires Plans.ValidPlan(lib, p)
    ensures 0 < |p.steps| <= 64 && forall i | 0 <= i < |p.steps| :: Plans.ValidStep(lib, p.steps[i], i + 1)
    ensures forall i, j | 0 <= i < j < |p.steps| :: p.steps[i].componentID != p.steps[j].componentID
    ensures ValidDigest(p.digest) && ValidDigest(p.manifestDigest)
  {
    hide Plans.ValidStep, ValidID, ValidDigest, Plans.Orderable, Plans.OrderOf, Plans.DependenciesEarlier, Plans.Normalize;
    var components := Plans.ComponentsOf(p.steps);
    forall i, j | 0 <= i < j < |p.steps| ensures p.steps[i].componentID != p.steps[j].componentID {
      assert Plans.IDs(components)[i] != Plans.IDs(components)[j];
    }
  }

  lemma PlanClean(lib: Plans.Library, p: Plans.Plan)
    requires Plans.ValidPlan(lib, p)
    ensures SlotsClean(p.steps)
  {
    hide Plans.ValidPlan, ValidID, SlotsOf, Distinct, Plans.ValidStep;
    PlanIDs(lib, p);
    forall i | 0 <= i < |p.steps|
      ensures ValidID(p.steps[i].componentID) && Distinct(SlotsOf(p.steps[i]))
      ensures forall slot | slot in SlotsOf(p.steps[i]) :: ValidID(slot)
    {
      ValidStepClean(lib, p.steps[i], i + 1);
    }
  }

  /** A key of the plan and a key of the bindings are equal only for the same pair. */
  lemma KeyBound(p: Plans.Plan, secrets: seq<SecretRevision>, component: string, slot: string)
    requires SlotsClean(p.steps) && (forall s | s in secrets :: ValidFields(s))
    ensures NoNul(component) ==> (Key(component, slot) in PlanKeys(p.steps) <==> Declares(p, component, slot))
    ensures NoNul(component) ==> (Key(component, slot) in Keys(secrets) <==> Binds(secrets, component, slot))
  {
    if NoNul(component) {
      KeyDeclared(p, component, slot);
      KeyListed(secrets, component, slot);
    }
  }

  lemma KeyDeclared(p: Plans.Plan, component: string, slot: string)
    requires SlotsClean(p.steps) && NoNul(component)
    ensures Key(component, slot) in PlanKeys(p.steps) <==> Declares(p, component, slot)
  {
    hide Key, SlotsOf, ValidID, Distinct, PlanKeys;
    PlanKeyMembers(p.steps, Key(component, slot));
    if HasKey(p.steps, Key(component, slot)) {
      var i, other :| 0 <= i < |p.steps| && other in SlotsOf(p.steps[i])
                      && Key(component, slot) == Key(p.steps[i].componentID, other);
      SlugNoNul(p.steps[i].componentID);
      KeyInjective(component, slot, p.steps[i].componentID, other);
    }
  }

  lemma KeyListed(secrets: seq<SecretRevision>, component: string, slot: string)
    requires (forall s | s in secrets :: ValidFields(s)) && NoNul(component)
    ensures Key(component, slot) in Keys(secrets) <==> Binds(secrets, component, slot)
  {
    hide Key, ValidID, ValidDigest;
    var keys := Keys(secrets);
    if Key(component, slot) in keys {
      var i :| 0 <= i < |keys| && keys[i] == Key(component, slot);
      assert secrets[i] in secrets;
      SlugNoNul(secrets[i].componentID);
      KeyInjective(component, slot, secrets[i].componentID, secrets[i].slot);
    }
    if Binds(secrets, component, slot) {
      var i :| 0 <= i < |secrets| && secrets[i].componentID == component && secrets[i].slot == slot;
      assert keys[i] == Key(component, slot);
    }
  }

  lemma BindsClean(secrets: seq<SecretRevision>, component: string, slot: string)
    requires (forall s | s in secrets :: ValidFields(s)) && Binds(secrets, component, slot)
    ensures NoNul(component)
  {
    hide ValidID, ValidDigest;
    var i :| 0 <= i < |secrets| && secrets[i].componentID == component && secrets[i].slot == slot;
    assert secrets[i] in secrets;
    SlugNoNul(component);
  }

  lemma DeclaresClean(p: Plans.Plan, component: string, slot: string)
    requires SlotsClean(p.steps) && Declares(p, component, slot)
    ensures NoNul(component)
  {
    hide ValidID, SlotsOf, Distinct;
    var i :| 0 <= i < |p.steps| && p.steps[i].componentID == component && slot in SlotsOf(p.steps[i]);
    SlugNoNul(component);
  }

  predicate SamePairs(p: Plans.Plan, secrets: seq<SecretRevision>, component: string, slot: string) {
    Binds(secrets, component, slot) <==> Declares(p, component, slot)
  }

  /** Bindings and plan have the same keys exactly when they have the same pairs. */
  lemma SameKeysSamePairs(p: Plans.Plan, secrets: seq<SecretRevision>)
    requires SlotsClean(p.steps) && (forall s | s in secrets :: ValidFields(s))
    ensures (forall key :: key in Keys(secrets) <==> key in PlanKeys(p.steps))
            <==> forall component, slot :: SamePairs(p, secrets, component, slot)
  {
    hide ValidID, ValidFields, Key, Keys, PlanKeys, SlotsClean, Binds, Declares, NoNul;
    if forall key :: key in Keys(secrets) <==> key in PlanKeys(p.steps) {
      forall component, slot ensures SamePairs(p, secrets, component, slot) {
        KeyBound(p, secrets, component, slot);
        if Binds(secrets, component, slot) { BindsClean(secrets, component, slot); }
        if Declares(p, component, slot) { DeclaresClean(p, component, slot); }
      }
    }
    if forall component, slot :: SamePairs(p, secrets, component, slot) {
      forall key ensures key in Keys(secrets) <==> key in PlanKeys(p.steps) {
        if key in Keys(secrets) {
          var component, slot := ListedPair(secrets, key);
          assert SamePairs(p, secrets, component, slot);
          DeclaresClean(p, component, slot);
          KeyBound(p, secrets, component, slot);
        }
        if key in PlanKeys(p.steps) {
          var component, slot := DeclaredPair(p, key);
          assert SamePairs(p, secrets, component, slot);
          DeclaresClean(p, component, slot);
          KeyBound(p, secrets, component, slot);
        }
      }
    }
  }

  lemma ListedPair(secrets: seq<SecretRevision>, key: string) returns (component: string, slot: string)
    requires key in Keys(secrets)
    ensures Binds(secrets, component, slot) && key == Key(component, slot)
  {
    hide Key;
    var i :| 0 <= i < |Keys(secrets)| && Keys(secrets)[i] == key;
    component, slot := secrets[i].componentID, secrets[i].slot;
  }

  lemma DeclaredPair(p: Plans.Plan, key: string) returns (component: string, slot: string)
    requires key in PlanKeys(p.steps)
    ensures Declares(p, component, slot) && key == Key(component, slot)
  {
    hide Key, PlanKeys, SlotsOf;
    PlanKeyMembers(p.steps, key);
    var i, s :| 0 <= i < |p.steps| && s in SlotsOf(p.steps[i]) && key == Key(p.steps[i].componentID, s);
    component, slot := p.steps[i].componentID, s;
  }

  /**
   Revisions pass both checks exactly when they are well formed, in strictly increasing order of
   component and slot, and bind just the pairs that the plan declares.
  */
  lemma BindingExact(lib: Plans.Library, p: Plans.Plan, secrets: seq<SecretRevision>)
    requires Plans.ValidPlan(lib, p)
    ensures ValidSecrets(secrets) && SecretsMatch(p, secrets)
      <==> InPairOrder(secrets) && forall component, slot :: SamePairs(p, secrets, component, slot)
  {
    hide Plans.ValidPlan, ValidFields, ValidSecrets, PairLess, SamePairs, Keys, PlanKeys, Sort, Sorted, SlotsClean,
         StrictlySorted, Distinct;
    ValidMeansOrder(secrets);
    if ValidSecrets(secrets) {
      PlanClean(lib, p);
      SameKeysSamePairs(p, secrets);
      SameKeys(p, secrets);
    }
  }

  /** Sorted keys are equal to the sorted keys of the plan when they have the same members. */
  lemma SameKeys(p: Plans.Plan, secrets: seq<SecretRevision>)
    requires SlotsClean(p.steps) && ValidSecrets(secrets)
    ensures SecretsMatch(p, secrets) <==> forall key :: key in Keys(secrets) <==> key in PlanKeys(p.steps)
  {
    hide ValidSecrets, Keys, PlanKeys, Sort, Sorted, SlotsClean, StrictlySorted, Distinct;
    var expected := PlanKeys(p.steps);
    PlanKeysDistinct(p.steps);
    SortSorts(expected);
    DistinctByMultiset(expected, Sort(expected));
    SortedStrictly(Sort(expected));
    InMultiset(Sort(expected), expected);
    KeysSorted(secrets);
    if forall key :: key in Keys(secrets) <==> key in expected {
      StrictlySortedUnique(Keys(secrets), Sort(expected));
    }
  }

  // ---------------------------------------------------------------- the projection

  function ProjectStep(step: Plans.PlanStep): ApprovedComponent {
    ApprovedComponent(step.index, step.componentID, step.adapter, step.artifact.digest, step.configuration,
                      CopySlice(step.capabilities))
  }

  function ProjectSteps(steps: seq<Plans.PlanStep>): (r: seq<ApprovedComponent>)
    ensures |r| == |steps|
    ensures forall i | 0 <= i < |r| :: r[i] == ProjectStep(steps[i])
  {
    seq(|steps|, i requires 0 <= i < |steps| => ProjectStep(steps[i]))
  }

  /** Every execution-relevant field of the plan, and every secret revision. */
  function Project(installation: string, p: Plans.Plan, input: ApprovalInput, now: Time): Approval {
    Approval(input.id, installation, p.digest, p.manifestDigest, input.actorID, input.authority, now, input.expiresAt,
             ProjectSteps(p.steps), if input.secrets.Nil? then Items([]) else input.secrets)
  }

  predicate NamesCapability(step: Plans.PlanStep) {
    step.capabilities.Items? && step.capabilities.items != []
  }

  /** A valid step projects to a valid component exactly when it names a capability. */
  lemma StepProjects(lib: Plans.Library, step: Plans.PlanStep, index: int)
    requires Plans.ValidStep(lib, step, index)
    ensures ValidApprovedComponent(ProjectStep(step), index) <==> NamesCapability(step)
  {
    hide ValidID, ValidAdapter, ValidDigest, ValidCapability, Sorted, Distinct, Less;
    var capabilities := step.capabilities.items;
    if capabilities != [] {
      SortedStrictly(capabilities);
      assert forall i | 0 < i < |capabilities| :: Less(capabilities[i - 1], capabilities[i]);
    }
  }

  lemma BoundComponents(p: Plans.Plan, secrets: seq<SecretRevision>)
    requires forall component, slot :: SamePairs(p, secrets, component, slot)
    ensures forall s | s in secrets :: s.componentID in ComponentIDs(ProjectSteps(p.steps))
  {
    hide SlotsOf, ProjectStep;
    var ids := ComponentIDs(ProjectSteps(p.steps));
    forall s | s in secrets ensures s.componentID in ids {
      assert Binds(secrets, s.componentID, s.slot);
      assert SamePairs(p, secrets, s.componentID, s.slot);
      var i :| 0 <= i < |p.steps| && p.steps[i].componentID == s.componentID && s.slot in SlotsOf(p.steps[i]);
      ProjectedID(p.steps[i]);
      assert ids[i] == s.componentID;
    }
  }

  lemma ProjectedID(step: Plans.PlanStep)
    ensures ProjectStep(step).componentID == step.componentID
  {
  }

  lemma ProjectedDistinct(steps: seq<Plans.PlanStep>)
    requires forall i, j | 0 <= i < j < |steps| :: steps[i].componentID != steps[j].componentID
    ensures Distinct(ComponentIDs(ProjectSteps(steps)))
  {
    var ids := ComponentIDs(ProjectSteps(steps));
    assert forall i | 0 <= i < |ids| :: ids[i] == steps[i].componentID;
  }

  /**
   What is projected from a valid plan with matching secrets passes the check on stored approvals
   exactly when every step names a capability: a step without one is projected to the nil list.
  */
  lemma ProjectionExact(lib: Plans.Library, installation: string, p: Plans.Plan, input: ApprovalInput, now: Time)
    requires Plans.ValidPlan(lib, p) && ValidInput(input) && SecretsMatch(p, input.secrets.items)
    requires now != UNSET && now < input.expiresAt
    ensures ValidStoredApproval(Project(installation, p, input, now), installation)
      <==> forall i | 0 <= i < |p.steps| :: NamesCapability(p.steps[i])
  {
    hide Plans.ValidPlan, Plans.ValidStep, ValidID, ValidDigest, ValidSecrets, ValidApprovedComponent, Distinct,
         ProjectSteps, ProjectStep, SecretsMatch, SamePairs, NamesCapability;
    PlanIDs(lib, p);
    BindingExact(lib, p, input.secrets.items);
    BoundComponents(p, input.secrets.items);
    ProjectedDistinct(p.steps);
    forall i | 0 <= i < |p.steps|
      ensures ValidApprovedComponent(ProjectSteps(p.steps)[i], i + 1) <==> NamesCapability(p.steps[i])
    {
      StepProjects(lib, p.steps[i], i + 1);
    }
  }

  // ---------------------------------------------------------------- which requests are acceptable

  lemma {:induction false} KeysBounded(steps: seq<Plans.PlanStep>)
    requires forall i | 0 <= i < |steps| :: |SlotsOf(steps[i])| <= 64
    ensures |PlanKeys(steps)| <= 64 * |steps|
  {
    hide SlotsOf, Key;
    if steps != [] { KeysBounded(steps[..|steps| - 1]); }
  }

  lemma FewSlots(lib: Plans.Library, step: Plans.PlanStep, index: int)
    requires Plans.ValidStep(lib, step, index)
    ensures |SlotsOf(step)| <= 64
  {
    hide ValidID, ValidAdapter, ValidDigest, ValidCapability, Sorted, Distinct;
  }

  /** Bindings that match a valid plan are never too many. */
  lemma NeverTooMany(lib: Plans.Library, p: Plans.Plan, secrets: seq<SecretRevision>)
    requires Plans.ValidPlan(lib, p) && SecretsMatch(p, secrets)
    ensures |secrets| <= 4096
  {
    hide Plans.ValidPlan, Plans.ValidStep, SlotsOf, PlanKeys, Sort;
    PlanIDs(lib, p);
    forall i | 0 <= i < |p.steps| ensures |SlotsOf(p.steps[i])| <= 64 { FewSlots(lib, p.steps[i], i + 1); }
    KeysBounded(p.steps);
  }

  /**
   For a valid plan, a request is acceptable exactly when it names itself, its actor, its authority
   and its end, and binds just the declared slots in order.
  */
  lemma RequestExactly(lib: Plans.Library, p: Plans.Plan, input: ApprovalInput)
    requires Plans.ValidPlan(lib, p)
    ensures (ValidInput(input) && SecretsMatch(p, input.secrets.items)) <==>
      && ValidID(input.id) && ValidID(input.actorID) && ValidDigest(input.authority) && input.expiresAt != UNSET
      && input.secrets.Items? && InPairOrder(input.secrets.items)
      && forall component, slot :: SamePairs(p, input.secrets.items, component, slot)
  {
    hide Plans.ValidPlan, ValidID, ValidDigest, ValidSecrets, InPairOrder, SamePairs, SecretsMatch;
    if input.secrets.Items? {
      BindingExact(lib, p, input.secrets.items);
      if SecretsMatch(p, input.secrets.items) { NeverTooMany(lib, p, input.secrets.items); }
    }
  }
}
