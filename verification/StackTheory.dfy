/**
 Plans do not depend on the order in which a manifest lists things, and the plan validator accepts
 exactly the plans that the builder makes.
*/
module StackTheory {
  import opened Basics
  import opened Patterns
  import opened StringOrder
  import opened Graphs
  import opened Sorting
  import opened StackModel

  // ---------------------------------------------------------------- normal form of one component

  lemma SortMembers(xs: seq<string>)
    ensures forall x :: x in Sort(xs) <==> x in xs
  {
    InMultiset(Sort(xs), xs);
  }

  lemma NormalSet(values: seq<string>, valid: string -> bool)
    ensures ValidSet(Sort(values), valid) == ValidSet(values, valid)
  {
    SortMembers(values);
    if Distinct(values) { DistinctByMultiset(values, Sort(values)); }
    if Distinct(Sort(values)) { DistinctByMultiset(Sort(values), values); }
  }

  lemma NormalValid(lib: Library, c: Component)
    ensures ValidComponent(lib, NormalComponent(c)) == ValidComponent(lib, c)
  {
    hide ValidID, ValidAdapter, ValidDigest, ValidCapability, ValidSet;
    NormalSet(c.dependsOn, ValidID);
    NormalSet(c.capabilities, ValidCapability);
    NormalSet(c.secretSlots, ValidID);
  }

  /** A component whose lists are sorted is its own normal form. */
  lemma NormalOfSorted(lib: Library, c: Component)
    requires ValidComponent(lib, c) && Sorted(c.dependsOn) && Sorted(c.capabilities) && Sorted(c.secretSlots)
    ensures NormalComponent(c) == c
  {
    hide ValidID, ValidAdapter, ValidDigest, ValidCapability;
    SortOfSorted(c.dependsOn);
    SortOfSorted(c.capabilities);
    SortOfSorted(c.secretSlots);
  }

  lemma NormalSorted(c: Component)
    ensures Sorted(NormalComponent(c).dependsOn) && Sorted(NormalComponent(c).capabilities)
            && Sorted(NormalComponent(c).secretSlots)
  {
    SortSorts(c.dependsOn);
    SortSorts(c.capabilities);
    SortSorts(c.secretSlots);
  }

  lemma NormalIDs(components: seq<Component>)
    ensures IDs(NormalComponents(components)) == IDs(components)
  {
  }

  // ---------------------------------------------------------------- lists of components

  lemma SameMembers(xs: seq<Component>, ys: seq<Component>)
    requires multiset(xs) == multiset(ys)
    ensures forall c :: c in xs <==> c in ys
    ensures |xs| == |ys|
  {
    assert forall c :: c in xs <==> c in multiset(xs);
    assert forall c :: c in ys <==> c in multiset(ys);
    assert |multiset(xs)| == |xs| && |multiset(ys)| == |ys|;
  }

  /** Taking one occurrence of an element out of a list. */
  lemma Without(ys: seq<Component>, k: nat)
    requires k < |ys|
    ensures multiset(ys) == multiset(ys[..k] + ys[k + 1..]) + multiset{ys[k]}
    ensures multiset(IDs(ys)) == multiset(IDs(ys[..k] + ys[k + 1..])) + multiset{ys[k].id}
  {
    hide *;
    Cut(ys, k);
    MultisetParts(ys[..k], ys[k], ys[k + 1..]);
    IDsWithout(ys[..k], ys[k], ys[k + 1..]);
  }

  lemma Cut(ys: seq<Component>, k: nat)
    requires k < |ys|
    ensures ys == ys[..k] + ([ys[k]] + ys[k + 1..])
  {
  }

  lemma IDsWithout(a: seq<Component>, y: Component, b: seq<Component>)
    ensures multiset(IDs(a + ([y] + b))) == multiset(IDs(a + b)) + multiset{y.id}
  {
    hide *;
    IDsParts(a, y, b);
    IDsSplit(a, b);
    MultisetParts(IDs(a), y.id, IDs(b));
  }

  lemma IDsParts(a: seq<Component>, y: Component, b: seq<Component>)
    ensures IDs(a + ([y] + b)) == IDs(a) + ([y.id] + IDs(b))
  {
    hide IDs;
    IDsSplit(a, [y] + b);
    IDsSplit([y], b);
    IDsOfOne(y);
  }

  lemma MultisetParts<T>(a: seq<T>, y: T, b: seq<T>)
    ensures multiset(a + ([y] + b)) == multiset(a + b) + multiset{y}
  {
    assert multiset(a + ([y] + b)) == multiset(a) + (multiset{y} + multiset(b));
  }

  lemma IDsOfOne(c: Component)
    ensures IDs([c]) == [c.id]
  {
  }

  lemma IDsSplit(a: seq<Component>, b: seq<Component>)
    ensures IDs(a + b) == IDs(a) + IDs(b)
  {
    hide IDs;
    assert |IDs(a + b)| == |IDs(a) + IDs(b)|;
    forall i | 0 <= i < |a + b| ensures IDs(a + b)[i] == (IDs(a) + IDs(b))[i] { }
  }

  lemma {:induction false} SameIDs(xs: seq<Component>, ys: seq<Component>)
    requires multiset(xs) == multiset(ys)
    ensures multiset(IDs(xs)) == multiset(IDs(ys))
    decreases |xs|
  {
    hide IDs;
    SameMembers(xs, ys);
    if xs == [] {
      assert ys == [];
    } else {
      var first, rest := xs[0], xs[1..];
      assert xs == [first] + rest;
      assert first in ys;
      var k :| 0 <= k < |ys| && ys[k] == first;
      Without(ys, k);
      IDsSplit([first], rest);
      IDsOfOne(first);
      var others := ys[..k] + ys[k + 1..];
      assert multiset(xs) == multiset([first]) + multiset(rest);
      Cancel(multiset(rest), multiset(others), first);
      SameIDs(rest, others);
    }
  }

  lemma Cancel(a: multiset<Component>, b: multiset<Component>, c: Component)
    requires a + multiset{c} == b + multiset{c}
    ensures a == b
  {
    assert a == (a + multiset{c}) - multiset{c};
    assert b == (b + multiset{c}) - multiset{c};
  }

  lemma SameGraph(xs: seq<Component>, ys: seq<Component>)
    requires multiset(xs) == multiset(ys)
    ensures GraphOf(xs) == GraphOf(ys)
  {
    hide IDs, DependenciesOf;
    SameMembers(xs, ys);
    SameIDs(xs, ys);
    InMultiset(IDs(xs), IDs(ys));
    forall id ensures DependenciesOf(xs, id) == DependenciesOf(ys, id) { SameDependenciesOf(xs, ys, id); }
    GraphByParts(xs, ys);
  }

  lemma SameDependenciesOf(xs: seq<Component>, ys: seq<Component>, id: string)
    requires forall c :: c in xs <==> c in ys
    ensures DependenciesOf(xs, id) == DependenciesOf(ys, id)
  {
    hide IDs;
    assert DependenciesOf(xs, id) <= DependenciesOf(ys, id);
    assert DependenciesOf(ys, id) <= DependenciesOf(xs, id);
  }

  lemma GraphByParts(xs: seq<Component>, ys: seq<Component>)
    requires forall id :: id in IDs(xs) <==> id in IDs(ys)
    requires forall id :: DependenciesOf(xs, id) == DependenciesOf(ys, id)
    ensures GraphOf(xs) == GraphOf(ys)
  {
    hide IDs, DependenciesOf;
  }

  lemma NormalHas(components: seq<Component>, id: string, d: string)
    requires d in DependenciesOf(components, id)
    ensures d in DependenciesOf(NormalComponents(components), id)
  {
    hide IDs, NormalComponents, Sort;
    var normal := NormalComponents(components);
    var c :| c in components && c.id == id && d in c.dependsOn;
    var i :| 0 <= i < |components| && components[i] == c;
    SortMembers(c.dependsOn);
    assert normal[i] in normal;
  }

  lemma NormalHasOnly(components: seq<Component>, id: string, d: string)
    requires d in DependenciesOf(NormalComponents(components), id)
    ensures d in DependenciesOf(components, id)
  {
    hide IDs, NormalComponents, Sort;
    var normal := NormalComponents(components);
    var c :| c in normal && c.id == id && d in c.dependsOn;
    var i :| 0 <= i < |normal| && normal[i] == c;
    SortMembers(components[i].dependsOn);
    assert components[i] in components;
  }

  lemma NormalGraph(components: seq<Component>)
    ensures GraphOf(NormalComponents(components)) == GraphOf(components)
  {
    hide IDs, NormalComponents, DependenciesOf;
    NormalIDs(components);
    var normal := NormalComponents(components);
    forall id ensures DependenciesOf(normal, id) == DependenciesOf(components, id) {
      forall d | d in DependenciesOf(components, id) ensures d in DependenciesOf(normal, id) {
        NormalHas(components, id, d);
      }
      forall d | d in DependenciesOf(normal, id) ensures d in DependenciesOf(components, id) {
        NormalHasOnly(components, id, d);
      }
    }
  }

  lemma IDsOfMore(c: Component, components: seq<Component>)
    ensures IDs([c] + components) == [c.id] + IDs(components)
  {
    hide IDs;
    IDsSplit([c], components);
    IDsOfOne(c);
  }

  lemma {:induction false} InsertIDs(components: seq<Component>, c: Component)
    ensures IDs(InsertByID(components, c)) == Insert(IDs(components), c.id)
  {
    hide Less, IDs;
    if components == [] || !Less(components[0].id, c.id) {
      IDsOfMore(c, components);
    } else {
      var first, rest := components[0], components[1..];
      assert components == [first] + rest;
      InsertIDs(rest, c);
      IDsOfMore(first, rest);
      assert IDs(components)[1..] == IDs(rest);
      IDsOfMore(first, InsertByID(rest, c));
    }
  }

  lemma SortIDs(components: seq<Component>)
    ensures IDs(SortByID(components)) == Sort(IDs(components))
  {
    if components != [] {
      SortIDs(components[1..]);
      InsertIDs(SortByID(components[1..]), components[0]);
    }
  }

  /** With distinct identities, an identity names one component. */
  lemma SameEntry(xs: seq<Component>, i: int, j: int)
    requires Distinct(IDs(xs)) && 0 <= i < |xs| && 0 <= j < |xs| && xs[i].id == xs[j].id
    ensures i == j
  {
    hide IDs;
    assert IDs(xs)[i] == IDs(xs)[j];
  }

  lemma SameSortedIDs(xs: seq<Component>, ys: seq<Component>)
    requires multiset(xs) == multiset(ys) && Distinct(IDs(xs))
    ensures IDs(SortByID(xs)) == IDs(SortByID(ys)) && Distinct(IDs(SortByID(xs)))
  {
    hide *;
    SameIDs(xs, ys);
    SortIDs(xs);
    SortIDs(ys);
    SortSorts(IDs(xs));
    SortSorts(IDs(ys));
    DistinctByMultiset(IDs(xs), Sort(IDs(xs)));
    SortedUnique(Sort(IDs(xs)), Sort(IDs(ys)));
  }

  /** Lists with the same elements and the same distinct identities in the same places are equal. */
  lemma SameByIDs(a: seq<Component>, b: seq<Component>)
    requires multiset(a) == multiset(b) && IDs(a) == IDs(b) && Distinct(IDs(a))
    ensures a == b
  {
    hide IDs, Distinct;
    SameMembers(a, b);
    forall i | 0 <= i < |a| ensures a[i] == b[i] {
      assert IDs(a)[i] == IDs(b)[i];
      assert a[i] in b;
      var j :| 0 <= j < |b| && b[j] == a[i];
      SameEntry(b, i, j);
    }
  }

  lemma SortByIDUnique(xs: seq<Component>, ys: seq<Component>)
    requires multiset(xs) == multiset(ys) && Distinct(IDs(xs))
    ensures SortByID(xs) == SortByID(ys)
  {
    hide *;
    SameSortedIDs(xs, ys);
    SameByIDs(SortByID(xs), SortByID(ys));
  }

  // ---------------------------------------------------------------- independence of list order

  /** The same manifest up to the order of its components and of their lists. */
  predicate SameUpToOrder(m: Manifest, n: Manifest) {
    && m.schemaVersion == n.schemaVersion && m.name == n.name
    && multiset(NormalComponents(m.components)) == multiset(NormalComponents(n.components))
  }

  /** Every component of one list has a counterpart with the same normal form in the other. */
  lemma Counterpart(xs: seq<Component>, ys: seq<Component>, c: Component) returns (other: Component)
    requires multiset(NormalComponents(xs)) == multiset(NormalComponents(ys)) && c in xs
    ensures other in ys && NormalComponent(other) == NormalComponent(c)
  {
    hide NormalComponent, NormalComponents;
    var i :| 0 <= i < |xs| && xs[i] == c;
    assert NormalComponents(xs)[i] in NormalComponents(xs);
    SameMembers(NormalComponents(xs), NormalComponents(ys));
    var j :| 0 <= j < |ys| && NormalComponents(ys)[j] == NormalComponent(c);
    other := ys[j];
  }

  lemma SameDeclared(xs: seq<Component>, ys: seq<Component>)
    requires multiset(NormalComponents(xs)) == multiset(NormalComponents(ys)) && DependenciesDeclared(xs)
    requires forall id :: id in IDs(xs) <==> id in IDs(ys)
    ensures DependenciesDeclared(ys)
  {
    hide IDs, NormalComponents, Sort;
    forall c, d | c in ys && d in c.dependsOn ensures d != c.id && d in IDs(ys) {
      var other := Counterpart(ys, xs, c);
      SameDependencies(c, other);
      assert other in xs && d in other.dependsOn;
      assert d != other.id && d in IDs(xs);
    }
  }

  lemma SameDependencies(c: Component, other: Component)
    requires NormalComponent(other) == NormalComponent(c)
    ensures c.id == other.id && forall d :: d in c.dependsOn <==> d in other.dependsOn
  {
    hide Sort;
    SortMembers(c.dependsOn);
    SortMembers(other.dependsOn);
    assert NormalComponent(c).id == c.id && NormalComponent(other).id == other.id;
    assert NormalComponent(c).dependsOn == Sort(c.dependsOn);
    assert NormalComponent(other).dependsOn == Sort(other.dependsOn);
  }

  lemma SameShape(xs: seq<Component>, ys: seq<Component>)
    requires multiset(NormalComponents(xs)) == multiset(NormalComponents(ys))
    ensures multiset(IDs(xs)) == multiset(IDs(ys)) && GraphOf(xs) == GraphOf(ys) && |xs| == |ys|
  {
    hide *;
    SameMembers(NormalComponents(xs), NormalComponents(ys));
    NormalIDs(xs);
    NormalIDs(ys);
    SameIDs(NormalComponents(xs), NormalComponents(ys));
    NormalGraph(xs);
    NormalGraph(ys);
    SameGraph(NormalComponents(xs), NormalComponents(ys));
    assert |IDs(xs)| == |xs| && |IDs(ys)| == |ys|;
    InMultiset(IDs(xs), IDs(ys));
  }

  lemma SameComponents(lib: Library, xs: seq<Component>, ys: seq<Component>)
    requires multiset(NormalComponents(xs)) == multiset(NormalComponents(ys))
    requires forall c | c in xs :: ValidComponent(lib, c)
    ensures forall c | c in ys :: ValidComponent(lib, c)
  {
    hide *;
    forall c | c in ys ensures ValidComponent(lib, c) {
      var other := Counterpart(ys, xs, c);
      NormalValid(lib, c);
      NormalValid(lib, other);
    }
  }

  lemma SameOrderable(xs: seq<Component>, ys: seq<Component>)
    requires GraphOf(xs) == GraphOf(ys) && Orderable(xs)
    ensures Orderable(ys)
  {
    hide IsOrder, GraphOf;
  }

  lemma SameValidity(lib: Library, m: Manifest, n: Manifest)
    requires SameUpToOrder(m, n) && ValidManifest(lib, m)
    ensures ValidManifest(lib, n)
  {
    hide ValidComponent, ValidID, Orderable, Distinct, DependenciesDeclared, GraphOf, IDs, NormalComponents;
    var xs, ys := m.components, n.components;
    SameShape(xs, ys);
    InMultiset(IDs(xs), IDs(ys));
    DistinctByMultiset(IDs(xs), IDs(ys));
    SameDeclared(xs, ys);
    SameComponents(lib, xs, ys);
    SameOrderable(xs, ys);
  }

  /** Two manifests that differ only in list order are both refused, or give the same plan. */
  lemma BuildIgnoresOrder(lib: Library, m: Manifest, n: Manifest)
    requires SameUpToOrder(m, n)
    ensures Build(lib, m) == Build(lib, n)
  {
    hide ValidComponent, Orderable, GraphOf, DependenciesDeclared;
    if ValidManifest(lib, m) { SameValidity(lib, m, n); }
    if ValidManifest(lib, n) { SameValidity(lib, n, m); }
    if ValidManifest(lib, m) {
      NormalIDs(m.components);
      SortByIDUnique(NormalComponents(m.components), NormalComponents(n.components));
      assert Normalize(m) == Normalize(n);
    }
  }

  // ---------------------------------------------------------------- what a built plan looks like

  lemma NormalizedGraph(m: Manifest)
    ensures GraphOf(Normalize(m).components) == GraphOf(m.components)
  {
    NormalGraph(m.components);
    SameGraph(Normalize(m).components, NormalComponents(m.components));
  }

  /** A valid manifest has a plan. */
  lemma BuildSucceeds(lib: Library, m: Manifest)
    requires ValidManifest(lib, m)
    ensures Build(lib, m).Ok? && Orderable(Normalize(m).components)
  {
    hide ValidComponent, GraphOf, IsOrder, Normalize;
    NormalizedGraph(m);
  }

  lemma OrderIs(components: seq<Component>, order: seq<string>)
    requires IsOrder(GraphOf(components), order)
    ensures Orderable(components) && OrderOf(components) == order
  {
    hide GraphOf, IsOrder;
    OrderUnique(GraphOf(components), OrderOf(components), order);
  }

  function Arranged(components: seq<Component>, order: seq<string>): (r: seq<Component>)
    requires forall id | id in order :: id in IDs(components)
    ensures |r| == |order|
    ensures forall i | 0 <= i < |r| :: r[i] == Lookup(components, order[i])
  {
    seq(|order|, i requires 0 <= i < |order| => Lookup(components, order[i]))
  }

  /** Reading the components back from the steps of a plan. */
  lemma ReadBack(components: seq<Component>, order: seq<string>)
    requires forall id | id in order :: id in IDs(components)
    ensures ComponentsOf(StepsOf(components, order)) == Arranged(components, order)
    ensures IDs(Arranged(components, order)) == order
  {
    var steps, arranged := StepsOf(components, order), Arranged(components, order);
    forall i | 0 <= i < |order| ensures ComponentsOf(steps)[i] == arranged[i] && IDs(arranged)[i] == order[i] {
      assert steps[i] == StepOf(i + 1, Lookup(components, order[i]));
    }
  }

  /** Arranging all components in a complete order only permutes them. */
  lemma ArrangedPermutes(components: seq<Component>, order: seq<string>)
    requires Distinct(IDs(components)) && Topological(GraphOf(components), order)
    requires forall id | id in order :: id in IDs(components)
    ensures multiset(Arranged(components, order)) == multiset(components)
  {
    hide *;
    ReadBack(components, order);
    OrderListsAll(components, order);
    OnceEach(components);
    OnceEach(Arranged(components, order));
    ArrangedMembers(components, order);
    SameOnce(Arranged(components, order), components);
  }

  lemma ArrangedMembers(components: seq<Component>, order: seq<string>)
    requires Distinct(IDs(components))
    requires forall id | id in order :: id in IDs(components)
    requires forall id | id in IDs(components) :: id in order
    ensures forall c :: c in Arranged(components, order) <==> c in components
  {
    hide Arranged, Lookup, IDs, Distinct;
    var arranged := Arranged(components, order);
    forall c ensures c in arranged <==> c in components {
      if c in components { Arrives(components, order, c); }
      if c in arranged {
        var i :| 0 <= i < |arranged| && arranged[i] == c;
        assert arranged[i] == Lookup(components, order[i]);
      }
    }
  }

  lemma OrderListsAll(components: seq<Component>, order: seq<string>)
    requires Topological(GraphOf(components), order)
    ensures Distinct(order) && forall id | id in IDs(components) :: id in order
  {
    hide IDs, DependenciesOf;
    forall id | id in IDs(components) ensures id in order {
      assert id in GraphOf(components);
      assert id in ToSet(order);
    }
  }

  lemma Arrives(components: seq<Component>, order: seq<string>, c: Component)
    requires Distinct(IDs(components)) && c in components
    requires forall id | id in order :: id in IDs(components)
    requires forall id | id in IDs(components) :: id in order
    ensures c in Arranged(components, order)
  {
    hide Arranged, Lookup, IDs, Distinct;
    var k :| 0 <= k < |components| && components[k] == c;
    assert IDs(components)[k] in IDs(components);
    var i :| 0 <= i < |order| && order[i] == c.id;
    var found := Lookup(components, order[i]);
    var j :| 0 <= j < |components| && components[j] == found;
    SameEntry(components, j, k);
    assert Arranged(components, order)[i] == c;
  }

  predicate OnceIn(xs: seq<Component>, c: Component) {
    multiset(xs)[c] == if c in xs then 1 else 0
  }

  lemma SameOnce(xs: seq<Component>, ys: seq<Component>)
    requires forall c :: c in xs <==> c in ys
    requires forall c :: OnceIn(xs, c) && OnceIn(ys, c)
    ensures multiset(xs) == multiset(ys)
  {
    forall c ensures multiset(xs)[c] == multiset(ys)[c] {
      assert OnceIn(xs, c) && OnceIn(ys, c);
    }
  }

  lemma {:induction false} OnceEach(components: seq<Component>)
    requires Distinct(IDs(components))
    ensures forall c :: OnceIn(components, c)
  {
    hide IDs;
    if components != [] {
      var first, rest := components[0], components[1..];
      assert components == [first] + rest;
      IDsSplit([first], rest);
      IDsOfOne(first);
      TailDistinct(IDs(components));
      assert IDs(rest) == IDs(components)[1..];
      OnceEach(rest);
      assert first !in rest by {
        assert forall j | 0 <= j < |rest| :: rest[j].id == IDs(rest)[j];
      }
      OnceMore(first, rest);
    }
  }

  lemma TailDistinct(ids: seq<string>)
    requires Distinct(ids) && ids != []
    ensures Distinct(ids[1..]) && ids[0] !in ids[1..]
  {
  }

  lemma OnceMore(first: Component, rest: seq<Component>)
    requires first !in rest && forall c :: OnceIn(rest, c)
    ensures forall c :: OnceIn([first] + rest, c)
  {
    forall c ensures OnceIn([first] + rest, c) { assert OnceIn(rest, c); }
  }

  /** Normalizing sorted, valid components again changes nothing but their order. */
  lemma {:induction false} NormalAgain(lib: Library, components: seq<Component>)
    requires forall c | c in components ::
      ValidComponent(lib, c) && Sorted(c.dependsOn) && Sorted(c.capabilities) && Sorted(c.secretSlots)
    ensures NormalComponents(components) == components
  {
    hide ValidComponent, Sorted, NormalComponent;
    forall i | 0 <= i < |components| ensures NormalComponents(components)[i] == components[i] {
      assert components[i] in components;
      NormalOfSorted(lib, components[i]);
    }
  }

  /** The components of a manifest in normal form are valid and sorted. */
  lemma NormalizedComponents(lib: Library, m: Manifest)
    requires ValidManifest(lib, m)
    ensures var components := Normalize(m).components;
      && Distinct(IDs(components)) && |components| == |m.components|
      && forall c | c in components ::
           ValidComponent(lib, c) && Sorted(c.dependsOn) && Sorted(c.capabilities) && Sorted(c.secretSlots)
  {
    hide ValidComponent, Orderable, DependenciesDeclared, Sorted;
    var normal := NormalComponents(m.components);
    SameMembers(Normalize(m).components, normal);
    SameIDs(Normalize(m).components, normal);
    NormalIDs(m.components);
    DistinctByMultiset(IDs(normal), IDs(Normalize(m).components));
    forall c | c in Normalize(m).components
      ensures ValidComponent(lib, c) && Sorted(c.dependsOn) && Sorted(c.capabilities) && Sorted(c.secretSlots)
    {
      assert c in normal;
      var i :| 0 <= i < |normal| && normal[i] == c;
      assert m.components[i] in m.components;
      NormalValid(lib, m.components[i]);
      NormalSorted(m.components[i]);
    }
  }

  // ---------------------------------------------------------------- the validator and the builder

  /** In a topological order, dependencies name earlier steps. */
  lemma EarlierInOrder(components: seq<Component>, order: seq<string>)
    requires Topological(GraphOf(components), order) && IDs(components) == order
    ensures DependenciesEarlier(components)
  {
    var g := GraphOf(components);
    forall i, d | 0 <= i < |components| && d in components[i].dependsOn ensures d in IDs(components)[..i] {
      assert components[i] in components && components[i].id == order[i];
      assert d in DependenciesOf(components, order[i]);
      assert g[order[i]] <= ToSet(order[..i]);
    }
  }

  lemma StepsValid(lib: Library, components: seq<Component>, order: seq<string>)
    requires forall id | id in order :: id in IDs(components)
    requires forall c | c in components ::
      ValidComponent(lib, c) && Sorted(c.dependsOn) && Sorted(c.capabilities) && Sorted(c.secretSlots)
    ensures forall i | 0 <= i < |order| :: ValidStep(lib, StepsOf(components, order)[i], i + 1)
  {
    hide ValidComponent, Sorted;
    forall i | 0 <= i < |order| ensures ValidStep(lib, StepsOf(components, order)[i], i + 1) {
      assert ComponentOf(StepsOf(components, order)[i]) == Lookup(components, order[i]);
    }
  }

  /** Every plan that the builder makes is accepted. */
  lemma BuiltIsValid(lib: Library, m: Manifest)
    requires ValidLibrary(lib) && Build(lib, m).Ok?
    ensures ValidPlan(lib, Build(lib, m).value)
  {
    hide ValidComponent, GraphOf, IsOrder, ValidID, ValidDigest, Distinct, DependenciesEarlier, Orderable,
         DependenciesDeclared, ValidStep, Normalize;
    BuildSucceeds(lib, m);
    NormalizedComponents(lib, m);
    var normal := Normalize(m);
    var order := OrderOf(normal.components);
    OrderListed(normal.components, order);
    OrderIsTopological(GraphOf(normal.components), order);
    var plan := PlanOf(lib, normal, order);
    var arranged := ComponentsOf(plan.steps);
    ReadBack(normal.components, order);
    ArrangedPermutes(normal.components, order);
    SameGraph(arranged, normal.components);
    OrderIs(arranged, order);
    EarlierInOrder(arranged, order);
    StepsValid(lib, normal.components, order);
    SameSize(normal.components, arranged);
    Renormalizes(lib, m, arranged);
    DistinctOrder(GraphOf(normal.components), order);
    NormalizeKeeps(m);
  }

  lemma DistinctOrder(g: Graph, order: seq<string>)
    requires Topological(g, order)
    ensures Distinct(order)
  {
  }

  lemma SameSize(xs: seq<Component>, ys: seq<Component>)
    requires multiset(xs) == multiset(ys)
    ensures |xs| == |ys|
  {
    SameMembers(xs, ys);
  }

  lemma NormalizeKeeps(m: Manifest)
    ensures Normalize(m).schemaVersion == m.schemaVersion && Normalize(m).name == m.name
    ensures |Normalize(m).components| == |m.components|
  {
  }

  /** A permutation of normal components normalizes to the same manifest. */
  lemma Renormalizes(lib: Library, m: Manifest, arranged: seq<Component>)
    requires ValidManifest(lib, m) && multiset(arranged) == multiset(Normalize(m).components)
    ensures Normalize(Manifest(m.schemaVersion, m.name, arranged)) == Normalize(m)
  {
    hide ValidComponent, Orderable, DependenciesDeclared;
    NormalizedComponents(lib, m);
    SameMembers(arranged, Normalize(m).components);
    NormalAgain(lib, arranged);
    SameIDs(arranged, Normalize(m).components);
    DistinctByMultiset(IDs(Normalize(m).components), IDs(arranged));
    SortByIDUnique(arranged, NormalComponents(m.components));
  }

  /** The manifest that an accepted plan stands for. */
  function ManifestOf(p: Plan): Manifest {
    Manifest(p.schemaVersion, p.stack, ComponentsOf(p.steps))
  }

  lemma PlanComponents(lib: Library, p: Plan)
    requires ValidPlan(lib, p)
    ensures forall c | c in ComponentsOf(p.steps) ::
      ValidComponent(lib, c) && Sorted(c.dependsOn) && Sorted(c.capabilities) && Sorted(c.secretSlots)
  {
    hide ValidComponent, Orderable, ValidDigest, ValidID, Sorted, Normalize, OrderOf, Distinct, DependenciesEarlier, ComponentsOf, IDs;
    var components := ComponentsOf(p.steps);
    forall c | c in components
      ensures ValidComponent(lib, c) && Sorted(c.dependsOn) && Sorted(c.capabilities) && Sorted(c.secretSlots)
    {
      var i :| 0 <= i < |components| && components[i] == c;
      assert ValidStep(lib, p.steps[i], i + 1);
    }
  }

  lemma EarlierDeclared(components: seq<Component>)
    requires Distinct(IDs(components)) && DependenciesEarlier(components)
    ensures DependenciesDeclared(components)
  {
    hide IDs;
    forall c, d | c in components && d in c.dependsOn ensures d != c.id && d in IDs(components) {
      var i :| 0 <= i < |components| && components[i] == c;
      assert d in IDs(components)[..i];
      var j :| 0 <= j < i && IDs(components)[..i][j] == d;
      assert IDs(components)[j] != IDs(components)[i];
    }
  }

  lemma ManifestOfValid(lib: Library, p: Plan)
    requires ValidPlan(lib, p)
    ensures ValidManifest(lib, ManifestOf(p))
    ensures forall c | c in ComponentsOf(p.steps) ::
      ValidComponent(lib, c) && Sorted(c.dependsOn) && Sorted(c.capabilities) && Sorted(c.secretSlots)
  {
    hide ValidComponent, Orderable, ValidDigest, ValidID, ValidStep, Sorted, Normalize, OrderOf, Distinct,
         DependenciesEarlier, DependenciesDeclared, ComponentsOf, IDs;
    PlanComponents(lib, p);
    EarlierDeclared(ComponentsOf(p.steps));
  }

  /** Steps rebuilt from the components they were read from. */
  lemma Rebuilt(lib: Library, p: Plan, normal: seq<Component>)
    requires ValidPlan(lib, p) && multiset(normal) == multiset(ComponentsOf(p.steps))
    requires forall id | id in IDs(ComponentsOf(p.steps)) :: id in IDs(normal)
    ensures StepsOf(normal, IDs(ComponentsOf(p.steps))) == p.steps
  {
    hide ValidComponent, Orderable, ValidDigest, Sorted, Normalize, DependenciesEarlier, ValidID, OrderOf,
         ComponentsOf, IDs, Lookup, Distinct;
    var components := ComponentsOf(p.steps);
    var order := IDs(components);
    SameMembers(normal, components);
    forall i | 0 <= i < |order| ensures StepsOf(normal, order)[i] == p.steps[i] {
      assert ValidStep(lib, p.steps[i], i + 1);
      var c := Lookup(normal, order[i]);
      assert c in components;
      var j :| 0 <= j < |components| && components[j] == c;
      SameEntry(components, i, j);
      assert c == ComponentOf(p.steps[i]);
    }
  }

  /** Every accepted plan is what the builder makes of the manifest it stands for. */
  lemma ValidIsBuilt(lib: Library, p: Plan)
    requires ValidPlan(lib, p)
    ensures Build(lib, ManifestOf(p)) == Ok(p)
  {
    hide ValidComponent, GraphOf, IsOrder, ValidID, ValidDigest, DependenciesEarlier, Orderable,
         DependenciesDeclared, ValidStep, Sorted;
    var m := ManifestOf(p);
    var components := m.components;
    ManifestOfValid(lib, p);
    BuildSucceeds(lib, m);
    NormalAgain(lib, components);
    var normal := Normalize(m);
    assert multiset(normal.components) == multiset(components);
    SameGraph(normal.components, components);
    OrderIs(normal.components, OrderOf(components));
    OrderListed(normal.components, OrderOf(components));
    Rebuilt(lib, p, normal.components);
    assert Build(lib, m).value.(digest := "") == p.(digest := "");
  }

  /** The validator characterises the image of the builder. */
  lemma ValidatorIsExact(lib: Library, p: Plan)
    requires ValidLibrary(lib)
    ensures ValidPlan(lib, p) <==> exists m :: Build(lib, m) == Ok(p)
  {
    hide ValidPlan, Build;
    if ValidPlan(lib, p) { ValidIsBuilt(lib, p); }
    if m :| Build(lib, m) == Ok(p) { BuiltIsValid(lib, m); }
  }
}
