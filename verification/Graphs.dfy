/**
 Dependency graphs and their orders: the order that always takes the least ready node is the
 lexicographically least topological order, and it is complete exactly when there is no cycle.
*/
module Graphs {
  import opened Basics
  import opened StringOrder

  /** Each node with the set of nodes it depends on. */
  type Graph = map<string, set<string>>

  predicate Closed(g: Graph) {
    forall id | id in g :: g[id] <= g.Keys
  }

  function ToSet(xs: seq<string>): set<string> {
    set x | x in xs
  }

  predicate Ready(g: Graph, done: seq<string>, id: string) {
    id in g && id !in done && g[id] <= ToSet(done)
  }

  /** Every node once, after all its dependencies. */
  predicate Topological(g: Graph, order: seq<string>) {
    && ToSet(order) == g.Keys && Distinct(order)
    && forall i | 0 <= i < |order| :: g[order[i]] <= ToSet(order[..i])
  }

  /** Each entry is the least of the nodes that are ready at that point. */
  predicate Greedy(g: Graph, order: seq<string>) {
    forall i | 0 <= i < |order| ::
      && Ready(g, order[..i], order[i])
      && forall other | other in g && Ready(g, order[..i], other) :: other == order[i] || Less(order[i], other)
  }

  predicate Stuck(g: Graph, order: seq<string>) {
    forall id | id in g :: !Ready(g, order, id)
  }

  predicate IsOrder(g: Graph, order: seq<string>) {
    Greedy(g, order) && ToSet(order) == g.Keys
  }

  /** The first place where two lists differ has the smaller entry on the left. */
  ghost predicate LexBefore(a: seq<string>, b: seq<string>) {
    exists k | 0 <= k < |a| && k < |b| :: a[..k] == b[..k] && Less(a[k], b[k])
  }

  lemma GreedyDistinct(g: Graph, order: seq<string>)
    requires Greedy(g, order)
    ensures Distinct(order) && ToSet(order) <= g.Keys
  {
    forall i, j | 0 <= i < j < |order| ensures order[i] != order[j] {
      assert order[i] in order[..j];
      assert Ready(g, order[..j], order[j]);
    }
    forall x | x in order ensures x in g {
      var i :| 0 <= i < |order| && order[i] == x;
      assert Ready(g, order[..i], order[i]);
    }
  }

  lemma OrderIsTopological(g: Graph, order: seq<string>)
    requires IsOrder(g, order)
    ensures Topological(g, order)
  {
    GreedyDistinct(g, order);
    forall i | 0 <= i < |order| ensures g[order[i]] <= ToSet(order[..i]) {
      assert Ready(g, order[..i], order[i]);
    }
  }

  /** A topological order takes only ready nodes. */
  lemma TopologicalReady(g: Graph, order: seq<string>, k: nat)
    requires Topological(g, order) && k < |order|
    ensures Ready(g, order[..k], order[k])
  {
    assert order[k] in ToSet(order);
    assert forall i | 0 <= i < k :: order[..k][i] == order[i];
  }

  lemma DistinctSize(xs: seq<string>)
    requires Distinct(xs)
    ensures |ToSet(xs)| == |xs|
  {
    if xs == [] {
      assert ToSet(xs) == {};
    } else {
      var rest, last := xs[..|xs| - 1], xs[|xs| - 1];
      DistinctSize(rest);
      assert ToSet(xs) == ToSet(rest) + {last};
    }
  }

  /** No topological order comes before the greedy one. */
  lemma OrderIsLeast(g: Graph, order: seq<string>, other: seq<string>)
    requires IsOrder(g, order) && Topological(g, other)
    ensures other == order || LexBefore(order, other)
  {
    OrderIsTopological(g, order);
    DistinctSize(order);
    DistinctSize(other);
    if other != order {
      var k := FirstDifference(order, other);
      TopologicalReady(g, other, k);
      assert Less(order[k], other[k]);
    }
  }

  lemma FirstDifference(a: seq<string>, b: seq<string>) returns (k: nat)
    requires |a| == |b| && a != b
    decreases |a|
    ensures k < |a| && a[..k] == b[..k] && a[k] != b[k]
  {
    if a[0] != b[0] {
      k := 0;
    } else {
      assert a == [a[0]] + a[1..] && b == [b[0]] + b[1..];
      var rest := FirstDifference(a[1..], b[1..]);
      k := rest + 1;
      assert a[..k] == [a[0]] + a[1..][..rest] && b[..k] == [b[0]] + b[1..][..rest];
    }
  }

  lemma {:induction false} SamePrefix(g: Graph, left: seq<string>, right: seq<string>, k: nat)
    requires Greedy(g, left) && Greedy(g, right) && k <= |left| && k <= |right|
    ensures left[..k] == right[..k]
    decreases k
  {
    hide Greedy, Ready, Less;
    if k > 0 {
      SamePrefix(g, left, right, k - 1);
      LeastReady(g, left, k - 1, right[k - 1]);
      LeastReady(g, right, k - 1, left[k - 1]);
      if left[k - 1] != right[k - 1] { LessAsymmetric(left[k - 1], right[k - 1]); }
      assert left[..k] == left[..k - 1] + [left[k - 1]];
      assert right[..k] == right[..k - 1] + [right[k - 1]];
    }
  }

  /** The entry at `k` is ready there, and before anything else that is. */
  lemma LeastReady(g: Graph, order: seq<string>, k: nat, other: string)
    requires Greedy(g, order) && k < |order|
    ensures Ready(g, order[..k], order[k])
    ensures Ready(g, order[..k], other) ==> other == order[k] || Less(order[k], other)
  {
    hide Less;
    assert Ready(g, order[..k], order[k]);
  }

  lemma OrderUnique(g: Graph, left: seq<string>, right: seq<string>)
    requires IsOrder(g, left) && IsOrder(g, right)
    ensures left == right
  {
    OrderIsTopological(g, left);
    OrderIsTopological(g, right);
    DistinctSize(left);
    DistinctSize(right);
    SamePrefix(g, left, right, |left|);
    assert left[..|left|] == left && right[..|right|] == right;
  }

  // ---------------------------------------------------------------- cycles

  /** Each node of the path depends on the next. */
  predicate Path(g: Graph, path: seq<string>) {
    && (forall i | 0 <= i < |path| :: path[i] in g)
    && (forall i | 0 <= i < |path| - 1 :: path[i + 1] in g[path[i]])
  }

  ghost predicate Cyclic(g: Graph) {
    exists path :: |path| >= 2 && Path(g, path) && path[0] == path[|path| - 1]
  }

  function Position(order: seq<string>, id: string): (r: nat)
    requires id in order
    ensures r < |order| && order[r] == id
  {
    if order[0] == id then 0 else 1 + Position(order[1..], id)
  }

  /** Along a path, the dependencies stand earlier and earlier in any topological order. */
  lemma {:induction false} PathDescends(g: Graph, order: seq<string>, path: seq<string>, n: nat)
    requires Topological(g, order) && Path(g, path) && n < |path|
    ensures forall i | 0 <= i < |path| :: path[i] in order
    ensures n > 0 ==> Position(order, path[n]) < Position(order, path[0])
  {
    forall i | 0 <= i < |path| ensures path[i] in order { assert path[i] in ToSet(order); }
    if n > 0 {
      PathDescends(g, order, path, n - 1);
      var before := Position(order, path[n - 1]);
      assert path[n] in g[order[before]];
      assert path[n] in order[..before];
      var i :| 0 <= i < before && order[..before][i] == path[n];
      SamePosition(g, order, i, Position(order, path[n]));
    }
  }

  lemma SamePosition(g: Graph, order: seq<string>, i: int, j: int)
    requires Topological(g, order) && 0 <= i < |order| && 0 <= j < |order| && order[i] == order[j]
    ensures i == j
  {
  }

  lemma CycleHasNoOrder(g: Graph, order: seq<string>)
    requires Cyclic(g)
    ensures !Topological(g, order)
  {
    if Topological(g, order) {
      var path :| |path| >= 2 && Path(g, path) && path[0] == path[|path| - 1];
      PathDescends(g, order, path, |path| - 1);
    }
  }

  /** Follow dependencies that were never taken, for `n` steps. */
  ghost function Walk(g: Graph, order: seq<string>, id: string, n: nat): (path: seq<string>)
    requires Closed(g) && Stuck(g, order) && id in g && id !in order
    ensures |path| == n + 1 && path[0] == id && Path(g, path)
    ensures forall i | 0 <= i < |path| :: path[i] !in order
    decreases n
  {
    if n == 0 then [id] else
    assert !Ready(g, order, id);
    var next :| next in g[id] && next !in order;
    [id] + Walk(g, order, next, n - 1)
  }

  /** A list longer than the set its entries come from repeats an entry. */
  lemma {:induction false} Pigeonhole(xs: seq<string>, from: set<string>) returns (i: nat, j: nat)
    requires |xs| > |from| && forall x | x in xs :: x in from
    ensures i < j < |xs| && xs[i] == xs[j]
    decreases |xs|
  {
    var last := xs[|xs| - 1];
    var rest := xs[..|xs| - 1];
    if last in rest {
      i :| 0 <= i < |rest| && rest[i] == last;
      j := |xs| - 1;
    } else {
      assert last in xs;
      i, j := Pigeonhole(rest, from - {last});
    }
  }

  lemma StuckIsCyclic(g: Graph, order: seq<string>)
    requires Closed(g) && Stuck(g, order) && !(g.Keys <= ToSet(order))
    ensures Cyclic(g)
  {
    var id :| id in g && id !in order;
    var path := Walk(g, order, id, |g.Keys|);
    var i, j := Pigeonhole(path, g.Keys);
    var loop := path[i..j + 1];
    assert loop[0] == path[i] && loop[|loop| - 1] == path[j];
    assert Path(g, loop);
  }

  // ---------------------------------------------------------------- existence

  lemma SubsetSize(a: set<string>, b: set<string>)
    requires a <= b
    ensures |a| <= |b| && (|a| == |b| ==> a == b)
  {
    assert b == a + (b - a) && a !! (b - a);
    assert |b| == |a| + |b - a|;
  }

  lemma NotTooMany(g: Graph, order: seq<string>)
    requires Greedy(g, order)
    ensures |order| <= |g.Keys|
  {
    hide Greedy;
    GreedyDistinct(g, order);
    DistinctSize(order);
    SubsetSize(ToSet(order), g.Keys);
  }

  lemma Least(ids: set<string>) returns (least: string)
    requires ids != {}
    ensures least in ids && forall x | x in ids :: x == least || Less(least, x)
  {
    hide Less;
    var id :| id in ids;
    least := id;
    if ids != {id} {
      var rest := ids - {id};
      assert ids == rest + {id};
      var other := Least(rest);
      LessTotal(id, other);
      if Less(other, id) {
        least := other;
      } else {
        forall x | x in rest ensures Less(id, x) {
          if x != other { LessTransitive(id, other, x); }
        }
      }
    }
  }

  lemma TakeLeast(g: Graph, order: seq<string>, id: string)
    requires Greedy(g, order) && Ready(g, order, id)
    requires forall other | other in g && Ready(g, order, other) :: other == id || Less(id, other)
    ensures Greedy(g, order + [id])
  {
    hide Ready, Less;
    var next := order + [id];
    forall i | 0 <= i < |next|
      ensures Ready(g, next[..i], next[i])
      ensures forall other | other in g && Ready(g, next[..i], other) :: other == next[i] || Less(next[i], other)
    {
      if i < |order| {
        assert next[..i] == order[..i] && next[i] == order[i];
      } else {
        assert next[..i] == order;
      }
    }
  }

  /** Taking the least ready node again and again ends where no node is ready. */
  lemma GreedyEnd(g: Graph, order: seq<string>) returns (full: seq<string>)
    requires Greedy(g, order)
    ensures Greedy(g, full) && Stuck(g, full)
    decreases |g.Keys| - |order|
  {
    hide Greedy, Ready, Less;
    full := order;
    if !Stuck(g, order) {
      var some :| some in g && Ready(g, order, some);
      var ready := set id | id in g && Ready(g, order, id);
      assert some in ready;
      var id := Least(ready);
      TakeLeast(g, order, id);
      NotTooMany(g, order + [id]);
      full := GreedyEnd(g, order + [id]);
    }
  }

  /** A graph has a complete greedy order, or a cycle, and never both. */
  lemma OrderOrCycle(g: Graph)
    requires Closed(g)
    ensures (exists order :: IsOrder(g, order)) <==> !Cyclic(g)
  {
    hide Greedy, Cyclic, Stuck, Topological, Closed;
    if order :| IsOrder(g, order) {
      OrderIsTopological(g, order);
      if Cyclic(g) { CycleHasNoOrder(g, order); }
    }
    assert Greedy(g, []) by { NothingTaken(g); }
    var full := GreedyEnd(g, []);
    GreedyDistinct(g, full);
    if g.Keys <= ToSet(full) {
      assert IsOrder(g, full);
    } else {
      StuckIsCyclic(g, full);
    }
  }

  lemma NothingTaken(g: Graph)
    ensures Greedy(g, [])
  {
  }
}
