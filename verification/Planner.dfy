/** The planner's loops: sorted insertion, the dependency order, building and validating a plan. */
module Planner {
  import opened Basics
  import opened StringOrder
  import opened Graphs
  import opened Sorting
  import opened StackModel
  import opened StackTheory

  method InsertSorted(values: seq<string>, value: string) returns (r: seq<string>)
    ensures r == Insert(values, value)
  {
    hide Insert, Less;
    var index := 0;
    while index < |values| && Less(values[index], value)
      invariant 0 <= index <= |values|
      invariant Insert(values, value) == values[..index] + Insert(values[index..], value)
    {
      InsertStep(values, index, value);
      index := index + 1;
    }
    InsertEnd(values[index..], value);
    r := values[..index] + [value] + values[index..];
    assert r == values[..index] + ([value] + values[index..]);
  }

  lemma InsertStep(values: seq<string>, index: nat, value: string)
    requires index < |values| && Less(values[index], value)
    ensures values[..index] + Insert(values[index..], value)
      == values[..index + 1] + Insert(values[index + 1..], value)
  {
    hide Less;
    assert values[index..][1..] == values[index + 1..] && values[index..][0] == values[index];
    assert values[..index + 1] == values[..index] + [values[index]];
  }

  lemma InsertEnd(values: seq<string>, value: string)
    requires values == [] || !Less(values[0], value)
    ensures Insert(values, value) == [value] + values
  {
    hide Less;
  }

  method ValidateUnique(values: seq<string>, valid: string -> bool) returns (ok: bool)
    ensures ok == ValidSet(values, valid)
  {
    if |values| > MAX_SET_VALUES { return false; }
    var seen: set<string> := {};
    for i := 0 to |values|
      invariant seen == ToSet(values[..i])
      invariant Distinct(values[..i]) && forall k | 0 <= k < i :: valid(values[k])
    {
      assert values[..i + 1] == values[..i] + [values[i]];
      if !valid(values[i]) {
        assert values[i] in values;
        return false;
      }
      if values[i] in seen {
        var k :| 0 <= k < i && values[..i][k] == values[i];
        return false;
      }
      seen := seen + {values[i]};
    }
    assert values[..|values|] == values;
    ok := true;
  }

  // ---------------------------------------------------------------- dependency order

  predicate SetsDistinct(components: seq<Component>) {
    forall c | c in components :: Distinct(c.dependsOn)
  }

  predicate AllDeclared(components: seq<Component>) {
    forall c, d | c in components && d in c.dependsOn :: d in IDs(components)
  }

  function Kids(children: map<string, seq<string>>, id: string): seq<string> {
    if id in children then children[id] else []
  }

  /** `child` is the identity of one of the components and depends on `id`. */
  predicate ChildOf(components: seq<Component>, id: string, child: string) {
    exists k | 0 <= k < |components| :: components[k].id == child && id in components[k].dependsOn
  }

  ghost predicate ChildrenOf(components: seq<Component>, children: map<string, seq<string>>) {
    forall id :: Distinct(Kids(children, id)) && forall child :: child in Kids(children, id) <==> ChildOf(components, id, child)
  }

  /** `AddChildren` has handled the first `j` dependencies of `c`. */
  ghost predicate ChildrenPartly(components: seq<Component>, c: Component, j: nat, children: map<string, seq<string>>)
    requires j <= |c.dependsOn|
  {
    forall id :: Distinct(Kids(children, id)) && forall child ::
      child in Kids(children, id) <==> ChildOf(components, id, child) || (child == c.id && id in c.dependsOn[..j])
  }

  lemma ChildOfMore(components: seq<Component>, c: Component, id: string, child: string)
    ensures ChildOf(components + [c], id, child) <==>
      ChildOf(components, id, child) || (child == c.id && id in c.dependsOn)
  {
    var more := components + [c];
    if ChildOf(components, id, child) {
      var k :| 0 <= k < |components| && components[k].id == child && id in components[k].dependsOn;
      assert more[k] == components[k];
    }
    if child == c.id && id in c.dependsOn { assert more[|components|] == c; }
  }

  lemma NotYetChild(components: seq<Component>, c: Component, id: string)
    requires c.id !in IDs(components)
    ensures !ChildOf(components, id, c.id)
  {
    hide IDs;
    forall k | 0 <= k < |components| ensures components[k].id != c.id { assert IDs(components)[k] in IDs(components); }
  }

  method AddChildren(ghost before: seq<Component>, c: Component, children0: map<string, seq<string>>)
    returns (children: map<string, seq<string>>)
    requires c.id !in IDs(before) && Distinct(c.dependsOn) && ChildrenOf(before, children0)
    ensures ChildrenOf(before + [c], children)
  {
    hide IDs, ChildOf;
    children := children0;
    for j := 0 to |c.dependsOn|
      invariant ChildrenPartly(before, c, j, children)
    {
      var d := c.dependsOn[j];
      AddedChild(before, c, j, children);
      children := children[d := Kids(children, d) + [c.id]];
    }
    assert c.dependsOn[..|c.dependsOn|] == c.dependsOn;
    forall id, child { ChildOfMore(before, c, id, child); }
  }

  lemma AddedChild(before: seq<Component>, c: Component, j: nat, children: map<string, seq<string>>)
    requires c.id !in IDs(before) && Distinct(c.dependsOn) && j < |c.dependsOn|
    requires ChildrenPartly(before, c, j, children)
    ensures ChildrenPartly(before, c, j + 1, children[c.dependsOn[j] := Kids(children, c.dependsOn[j]) + [c.id]])
  {
    hide IDs, ChildOf;
    var d := c.dependsOn[j];
    var next := children[d := Kids(children, d) + [c.id]];
    NotYetChild(before, c, d);
    FreshEntry(c.dependsOn, j);
    assert c.id !in Kids(children, d);
    assert c.dependsOn[..j + 1] == c.dependsOn[..j] + [d];
    AppendDistinct(Kids(children, d), c.id);
    forall id
      ensures Distinct(Kids(next, id))
      ensures forall child :: child in Kids(next, id) <==>
        ChildOf(before, id, child) || (child == c.id && id in c.dependsOn[..j + 1])
    {
      assert Distinct(Kids(children, id));
      assert forall child :: child in Kids(children, id) <==>
        ChildOf(before, id, child) || (child == c.id && id in c.dependsOn[..j]);
      if id == d {
        assert Kids(next, id) == Kids(children, d) + [c.id];
      } else {
        assert Kids(next, id) == Kids(children, id);
      }
    }
  }

  lemma AppendDistinct(xs: seq<string>, x: string)
    requires Distinct(xs) && x !in xs
    ensures Distinct(xs + [x])
  {
  }

  /** Counts the dependencies not yet taken. */
  ghost predicate Counts(g: Graph, order: seq<string>, indegree: map<string, int>) {
    indegree.Keys == g.Keys && forall id | id in g :: indegree[id] == |g[id] - ToSet(order)|
  }

  ghost predicate ReadyList(g: Graph, order: seq<string>, ready: seq<string>) {
    Sorted(ready) && Distinct(ready) && forall id :: id in ready <==> Ready(g, order, id)
  }

  ghost predicate Children(g: Graph, children: map<string, seq<string>>) {
    forall id :: Distinct(Kids(children, id)) &&
      forall child :: child in Kids(children, id) <==> child in g && id in g[child]
  }

  /** Between taking a node and having told all its children: those in `told` have been. */
  ghost predicate CountsPartly(g: Graph, before: seq<string>, after: seq<string>, told: seq<string>, indegree: map<string, int>) {
    && indegree.Keys == g.Keys
    && forall id | id in g :: indegree[id] == |g[id] - ToSet(if id in told then after else before)|
  }

  ghost predicate ReadyPartly(g: Graph, before: seq<string>, after: seq<string>, told: seq<string>, ready: seq<string>) {
    && Sorted(ready) && Distinct(ready)
    && forall id :: id in ready <==> Ready(g, after, id) && (id in told || Ready(g, before, id))
  }

  lemma InsertKeeps(ready: seq<string>, id: string)
    requires Sorted(ready) && Distinct(ready) && id !in ready
    ensures Sorted(Insert(ready, id)) && Distinct(Insert(ready, id))
    ensures forall x :: x in Insert(ready, id) <==> x in ready || x == id
  {
    hide Insert, Sorted;
    InsertSorts(ready, id);
    InsertMembers(ready, id);
    AppendDistinct(ready, id);
    DistinctByMultiset(ready + [id], Insert(ready, id));
  }

  lemma ToSetMore(order: seq<string>, id: string)
    ensures ToSet(order + [id]) == ToSet(order) + {id}
  {
  }

  /** Taking `id` lowers the count of exactly its children, by one. */
  lemma CountDrops(g: Graph, order: seq<string>, id: string, child: string)
    requires child in g && id !in order
    ensures |g[child] - ToSet(order + [id])| == |g[child] - ToSet(order)| - if id in g[child] then 1 else 0
  {
    ToSetMore(order, id);
    if id in g[child] {
      assert g[child] - ToSet(order + [id]) == (g[child] - ToSet(order)) - {id};
    } else {
      assert g[child] - ToSet(order + [id]) == g[child] - ToSet(order);
    }
  }

  lemma CountZero(g: Graph, order: seq<string>, id: string)
    requires id in g
    ensures |g[id] - ToSet(order)| == 0 <==> g[id] <= ToSet(order)
  {
    var rest := g[id] - ToSet(order);
    assert |rest| == 0 <==> rest == {};
    if rest == {} {
      forall x | x in g[id] ensures x in ToSet(order) { assert x in rest || x in ToSet(order); }
    }
  }

  /** A greedy order has taken nothing before its dependencies, so no child of a node it lacks. */
  lemma ChildNotTaken(g: Graph, order: seq<string>, id: string, child: string)
    requires Greedy(g, order) && id !in order && child in g && id in g[child]
    ensures child !in order
  {
    forall i | 0 <= i < |order| ensures order[i] != child {
      assert Ready(g, order[..i], order[i]);
      assert id !in order[..i];
    }
  }

  lemma ReadyAfter(g: Graph, order: seq<string>, id: string, other: string)
    requires Ready(g, order, id) && other in g && id !in g[other]
    ensures Ready(g, order + [id], other) <==> Ready(g, order, other) && other != id
  {
    ToSetMore(order, id);
  }

  lemma ReadyChild(g: Graph, order: seq<string>, id: string, child: string)
    requires Greedy(g, order) && Ready(g, order, id) && child in g && id in g[child]
    ensures Ready(g, order + [id], child) <==> g[child] <= ToSet(order + [id])
    ensures !Ready(g, order, child)
  {
    ChildNotTaken(g, order, id, child);
    ToSetMore(order, id);
  }

  /** The head of the ready list extends a greedy order. */
  lemma TakeFirst(g: Graph, order: seq<string>, ready: seq<string>)
    requires Greedy(g, order) && ReadyList(g, order, ready) && ready != []
    ensures Greedy(g, order + [ready[0]])
  {
    hide Ready, Greedy, Less;
    assert ready[0] in ready;
    forall other | other in g && Ready(g, order, other) ensures other == ready[0] || Less(ready[0], other) {
      assert other in ready;
      var k :| 0 <= k < |ready| && ready[k] == other;
      LessTotal(ready[0], other);
    }
    TakeLeast(g, order, ready[0]);
  }

  lemma Taken(g: Graph, order: seq<string>, ready: seq<string>)
    requires ReadyList(g, order, ready) && ready != []
    requires Greedy(g, order)
    ensures ReadyPartly(g, order, order + [ready[0]], [], ready[1..])
  {
    var id, rest := ready[0], ready[1..];
    assert ready == [id] + rest;
    assert Ready(g, order, id) by { assert id in ready; }
    assert forall i | 0 <= i < |rest| :: rest[i] == ready[i + 1];
    assert Sorted(rest) && Distinct(rest) && id !in rest;
    forall other ensures other in rest <==> Ready(g, order + [id], other) && Ready(g, order, other) {
      assert other in rest <==> other in ready && other != id;
      if other in g && id in g[other] {
        ReadyChild(g, order, id, other);
      } else if other in g {
        ReadyAfter(g, order, id, other);
      }
    }
  }

  lemma Told(g: Graph, order: seq<string>, id: string, told: seq<string>, ready: seq<string>)
    requires Greedy(g, order) && Ready(g, order, id)
    requires ReadyPartly(g, order, order + [id], told, ready)
    requires forall child :: child in told <==> child in g && id in g[child]
    ensures ReadyList(g, order + [id], ready)
  {
    hide Greedy, Sorted, Distinct;
    var next := order + [id];
    forall other ensures other in ready <==> Ready(g, next, other) {
      if other in g && id !in g[other] { ReadyAfter(g, order, id, other); }
    }
  }

  lemma ToldCounts(g: Graph, order: seq<string>, id: string, told: seq<string>, indegree: map<string, int>)
    requires id !in order && CountsPartly(g, order, order + [id], told, indegree)
    requires forall child :: child in told <==> child in g && id in g[child]
    ensures Counts(g, order + [id], indegree)
  {
    forall other | other in g ensures indegree[other] == |g[other] - ToSet(order + [id])| {
      CountDrops(g, order, id, other);
    }
  }

  /** Lower the counts of the children of `id`, which has just been taken, and collect those that became ready. */
  method TellChildren(ghost g: Graph, ghost order: seq<string>, ghost id: string, kids: seq<string>,
                      indegree0: map<string, int>, ready0: seq<string>)
    returns (indegree: map<string, int>, ready: seq<string>)
    requires Greedy(g, order) && Ready(g, order, id) && Distinct(kids)
    requires forall child :: child in kids <==> child in g && id in g[child]
    requires Counts(g, order, indegree0) && ReadyPartly(g, order, order + [id], [], ready0)
    ensures Counts(g, order + [id], indegree) && ReadyList(g, order + [id], ready)
  {
    hide Greedy, Sorted, Ready, Distinct, Insert, CountsPartly, ReadyPartly;
    indegree, ready := indegree0, ready0;
    ghost var next := order + [id];
    assert id !in order by { ReadyMeans(g, order, id); }
    assert kids[..0] == [];
    NothingTold(g, order, next, indegree);
    for k := 0 to |kids|
      invariant CountsPartly(g, order, next, kids[..k], indegree)
      invariant ReadyPartly(g, order, next, kids[..k], ready)
    {
      var child := kids[k];
      assert child in kids;
      FreshEntry(kids, k);
      TellCount(g, order, id, kids, k, indegree);
      TellReady(g, order, id, kids, k, ready);
      indegree := indegree[child := indegree[child] - 1];
      if indegree[child] == 0 { ready := InsertSorted(ready, child); }
    }
    assert kids[..|kids|] == kids;
    ToldCounts(g, order, id, kids, indegree);
    Told(g, order, id, kids, ready);
  }

  lemma NothingTold(g: Graph, before: seq<string>, after: seq<string>, indegree: map<string, int>)
    requires Counts(g, before, indegree)
    ensures CountsPartly(g, before, after, [], indegree)
  {
  }

  lemma TellCount(g: Graph, order: seq<string>, id: string, kids: seq<string>, k: nat, indegree: map<string, int>)
    requires k < |kids| && kids[k] in g && id in g[kids[k]] && kids[k] !in kids[..k] && id !in order
    requires CountsPartly(g, order, order + [id], kids[..k], indegree)
    ensures kids[k] in indegree
    ensures CountsPartly(g, order, order + [id], kids[..k + 1], indegree[kids[k] := indegree[kids[k]] - 1])
    ensures indegree[kids[k]] - 1 == 0 <==> g[kids[k]] <= ToSet(order + [id])
  {
    hide ToSet;
    var child := kids[k];
    assert kids[..k + 1] == kids[..k] + [child];
    CountDrops(g, order, id, child);
    CountZero(g, order + [id], child);
  }

  lemma TellReady(g: Graph, order: seq<string>, id: string, kids: seq<string>, k: nat, ready: seq<string>)
    requires Greedy(g, order) && Ready(g, order, id)
    requires k < |kids| && kids[k] in g && id in g[kids[k]] && kids[k] !in kids[..k]
    requires ReadyPartly(g, order, order + [id], kids[..k], ready)
    ensures ReadyPartly(g, order, order + [id], kids[..k + 1],
      if g[kids[k]] <= ToSet(order + [id]) then Insert(ready, kids[k]) else ready)
  {
    hide Greedy, Sorted, Ready, Distinct, Insert, ToSet;
    var child := kids[k];
    assert kids[..k + 1] == kids[..k] + [child];
    ReadyChild(g, order, id, child);
    assert child !in ready;
    InsertKeeps(ready, child);
  }

  lemma FreshEntry(xs: seq<string>, k: nat)
    requires Distinct(xs) && k < |xs|
    ensures xs[k] !in xs[..k]
  {
  }

  lemma ReadyMeans(g: Graph, order: seq<string>, id: string)
    requires Ready(g, order, id)
    ensures id in g && id !in order
  {
  }

  // ---------------------------------------------------------------- the order itself

  lemma GraphEntry(components: seq<Component>, c: Component)
    requires Distinct(IDs(components)) && c in components
    ensures c.id in GraphOf(components) && GraphOf(components)[c.id] == ToSet(c.dependsOn)
  {
    hide IDs;
    var k :| 0 <= k < |components| && components[k] == c;
    assert IDs(components)[k] in IDs(components);
    forall d ensures d in DependenciesOf(components, c.id) <==> d in ToSet(c.dependsOn) {
      if d in DependenciesOf(components, c.id) {
        var other :| other in components && other.id == c.id && d in other.dependsOn;
        var j :| 0 <= j < |components| && components[j] == other;
        SameEntry(components, j, k);
      }
    }
  }

  lemma GraphClosed(components: seq<Component>)
    requires AllDeclared(components)
    ensures Closed(GraphOf(components))
  {
    hide IDs;
    var g := GraphOf(components);
    forall id | id in g ensures g[id] <= g.Keys {
      forall d | d in g[id] ensures d in IDs(components) { assert d in DependenciesOf(components, id); }
    }
  }

  lemma ChildrenMeanGraph(components: seq<Component>, children: map<string, seq<string>>)
    requires ChildrenOf(components, children)
    ensures Children(GraphOf(components), children)
  {
    hide IDs;
    var g := GraphOf(components);
    forall id, child ensures ChildOf(components, id, child) <==> child in g && id in g[child] {
      if ChildOf(components, id, child) {
        var k :| 0 <= k < |components| && components[k].id == child && id in components[k].dependsOn;
        assert IDs(components)[k] in IDs(components);
        assert components[k] in components;
        assert id in DependenciesOf(components, child);
      }
      if child in g && id in g[child] {
        assert id in DependenciesOf(components, child);
      }
    }
  }

  lemma CountsAtFirst(components: seq<Component>, indegree: map<string, int>)
    requires Distinct(IDs(components)) && SetsDistinct(components)
    requires indegree.Keys == ToSet(IDs(components))
    requires forall k | 0 <= k < |components| :: components[k].id in indegree && indegree[components[k].id] == |components[k].dependsOn|
    ensures Counts(GraphOf(components), [], indegree)
  {
    hide IDs, GraphOf, Distinct;
    var g := GraphOf(components);
    GraphKeys(components);
    forall id | id in g ensures indegree[id] == |g[id] - ToSet([])| {
      var k :| 0 <= k < |IDs(components)| && IDs(components)[k] == id;
      assert components[k] in components;
      GraphEntry(components, components[k]);
      DistinctSize(components[k].dependsOn);
      assert g[id] - ToSet([]) == g[id];
    }
  }

  lemma GraphKeys(components: seq<Component>)
    ensures GraphOf(components).Keys == ToSet(IDs(components))
  {
    hide IDs;
  }

  /** The counts and the children lists of a list of components. */
  method CountDependencies(components: seq<Component>) returns (indegree: map<string, int>, children: map<string, seq<string>>)
    requires Distinct(IDs(components)) && SetsDistinct(components)
    ensures Counts(GraphOf(components), [], indegree)
    ensures Children(GraphOf(components), children)
  {
    hide IDs, GraphOf, ChildrenOf, Distinct, SetsDistinct, Counts, Children;
    indegree, children := map[], map[];
    NoChildren();
    for i := 0 to |components|
      invariant indegree.Keys == ToSet(IDs(components[..i]))
      invariant forall k | 0 <= k < i :: components[k].id in indegree && indegree[components[k].id] == |components[k].dependsOn|
      invariant ChildrenOf(components[..i], children)
    {
      NextComponent(components, i);
      assert components[..i + 1] == components[..i] + [components[i]];
      IDsSplit(components[..i], [components[i]]);
      IDsOfOne(components[i]);
      ToSetMore(IDs(components[..i]), components[i].id);
      indegree := indegree[components[i].id := |components[i].dependsOn|];
      children := AddChildren(components[..i], components[i], children);
    }
    assert components[..|components|] == components;
    CountsAtFirst(components, indegree);
    ChildrenMeanGraph(components, children);
  }

  lemma NoChildren()
    ensures ChildrenOf([], map[]) && IDs([]) == []
  {
  }

  lemma NextComponent(components: seq<Component>, i: nat)
    requires i < |components| && Distinct(IDs(components)) && SetsDistinct(components)
    ensures components[i].id !in IDs(components[..i]) && Distinct(components[i].dependsOn)
    ensures forall k | 0 <= k < i :: components[k].id != components[i].id
  {
    hide IDs;
    assert components[i] in components;
    forall k | 0 <= k < i ensures components[k].id != components[i].id {
      assert IDs(components)[k] != IDs(components)[i];
    }
    forall k | 0 <= k < |IDs(components[..i])| ensures IDs(components[..i])[k] != components[i].id {
      assert components[..i][k] == components[k];
    }
  }

  /** Collect the nodes without dependencies, in whatever order the map yields its keys. */
  method FirstReady(ghost g: Graph, indegree: map<string, int>) returns (ready: seq<string>)
    requires Counts(g, [], indegree)
    ensures ReadyList(g, [], ready)
  {
    hide Insert, Sorted, Distinct, Ready, Counts;
    ready := [];
    CountsKeys(g, indegree);
    NoneListed();
    var left := indegree.Keys;
    while left != {}
      invariant left <= indegree.Keys
      invariant Sorted(ready) && Distinct(ready)
      invariant forall id :: id in ready <==> id in indegree && id !in left && Ready(g, [], id)
      decreases |left|
    {
      var id :| id in left;
      left := left - {id};
      ReadyAtFirst(g, indegree, id);
      if indegree[id] == 0 {
        InsertKeeps(ready, id);
        ready := InsertSorted(ready, id);
      }
    }
    forall id ensures id in ready <==> Ready(g, [], id) { ReadyListed(g, indegree, id); }
  }

  lemma NoneListed()
    ensures Sorted([]) && Distinct([])
  {
  }

  lemma CountsKeys(g: Graph, indegree: map<string, int>)
    requires Counts(g, [], indegree)
    ensures indegree.Keys == g.Keys
  {
  }

  lemma ReadyListed(g: Graph, indegree: map<string, int>, id: string)
    requires Counts(g, [], indegree)
    ensures Ready(g, [], id) ==> id in indegree
  {
  }

  lemma ReadyAtFirst(g: Graph, indegree: map<string, int>, id: string)
    requires Counts(g, [], indegree) && id in indegree
    ensures indegree[id] == 0 <==> Ready(g, [], id)
  {
    CountZero(g, [], id);
  }

  /**
   The greedy order, or nothing when the dependencies are cyclic. The callers have checked that
   identities are distinct and that dependencies are declared and not repeated.
  */
  method DependencyOrder(components: seq<Component>) returns (r: Option<seq<string>>)
    requires Distinct(IDs(components)) && SetsDistinct(components) && AllDeclared(components)
    ensures r.Some? ==> IsOrder(GraphOf(components), r.value)
    ensures r.None? ==> Cyclic(GraphOf(components)) && !Orderable(components)
  {
    hide IDs, GraphOf, Greedy, Counts, Children, ReadyList, Distinct, SetsDistinct, AllDeclared, Cyclic, IsOrder, Ready, Closed;
    ghost var g := GraphOf(components);
    var indegree, children := CountDependencies(components);
    var ready := FirstReady(g, indegree);
    var order: seq<string> := [];
    NothingTaken(g);
    SizeOfGraph(components);
    while ready != []
      invariant Greedy(g, order) && |order| <= |components|
      invariant Counts(g, order, indegree) && ReadyList(g, order, ready)
      decreases |components| - |order|
    {
      var id := ready[0];
      TakeFirst(g, order, ready);
      HeadIsReady(g, order, ready);
      Taken(g, order, ready);
      ready := ready[1..];
      ChildrenKnown(g, children, id);
      NotTooMany(g, order + [id]);
      indegree, ready := TellChildren(g, order, id, Kids(children, id), indegree, ready);
      order := order + [id];
    }
    NothingReady(g, order);
    GraphClosed(components);
    if |order| != |components| {
      Incomplete(g, order);
      NoOrder(components);
      return None;
    }
    Complete(g, order);
    r := Some(order);
  }

  lemma SizeOfGraph(components: seq<Component>)
    requires Distinct(IDs(components))
    ensures |GraphOf(components).Keys| == |components|
  {
    hide IDs, GraphOf, Distinct;
    GraphKeys(components);
    DistinctSize(IDs(components));
  }

  lemma HeadIsReady(g: Graph, order: seq<string>, ready: seq<string>)
    requires ReadyList(g, order, ready) && ready != []
    ensures Ready(g, order, ready[0])
  {
    hide Ready;
    assert ready[0] in ready;
  }

  lemma ChildrenKnown(g: Graph, children: map<string, seq<string>>, id: string)
    requires Children(g, children)
    ensures Distinct(Kids(children, id))
    ensures forall child :: child in Kids(children, id) <==> child in g && id in g[child]
  {
    hide Distinct;
  }

  lemma NothingReady(g: Graph, order: seq<string>)
    requires ReadyList(g, order, [])
    ensures Stuck(g, order)
  {
    hide Ready;
    forall id | id in g ensures !Ready(g, order, id) { assert id !in []; }
  }

  lemma Incomplete(g: Graph, order: seq<string>)
    requires Greedy(g, order) && |order| != |g.Keys| && Stuck(g, order) && Closed(g)
    ensures Cyclic(g)
  {
    hide Greedy, Cyclic, Stuck, Closed;
    GreedyDistinct(g, order);
    DistinctSize(order);
    assert g.Keys <= ToSet(order) ==> g.Keys == ToSet(order);
    StuckIsCyclic(g, order);
  }

  lemma Complete(g: Graph, order: seq<string>)
    requires Greedy(g, order) && |order| == |g.Keys|
    ensures IsOrder(g, order)
  {
    hide Greedy;
    GreedyDistinct(g, order);
    DistinctSize(order);
    SubsetSize(ToSet(order), g.Keys);
  }

  lemma NoOrder(components: seq<Component>)
    requires Cyclic(GraphOf(components))
    ensures !Orderable(components)
  {
    hide Cyclic, IsOrder, GraphOf;
    if Orderable(components) {
      var order :| IsOrder(GraphOf(components), order);
      OrderIsTopological(GraphOf(components), order);
      CycleHasNoOrder(GraphOf(components), order);
    }
  }

  /** The order depends neither on the order of the components nor on the order of their dependencies. */
  lemma OrderIgnoresListing(xs: seq<Component>, ys: seq<Component>, a: seq<string>, b: seq<string>)
    requires multiset(NormalComponents(xs)) == multiset(NormalComponents(ys))
    requires IsOrder(GraphOf(xs), a) && IsOrder(GraphOf(ys), b)
    ensures a == b
  {
    hide *;
    NormalGraph(xs);
    NormalGraph(ys);
    SameGraph(NormalComponents(xs), NormalComponents(ys));
    OrderUnique(GraphOf(xs), a, b);
  }

  /** Components with declared dependencies can be ordered exactly when the dependencies have no cycle. */
  lemma OrderableExactly(components: seq<Component>)
    requires AllDeclared(components)
    ensures Orderable(components) <==> !Cyclic(GraphOf(components))
  {
    hide AllDeclared, GraphOf, Cyclic, IsOrder, Closed;
    GraphClosed(components);
    OrderOrCycle(GraphOf(components));
  }
}
