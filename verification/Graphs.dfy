/** Dependency graphs as finite maps from a node to the list of nodes it depends on.
    A node that is not a key has no dependencies. */
module Graphs {
  import opened Sequences

  type Node = string
  type Graph = map<Node, seq<Node>>

  function Deps(g: Graph, n: Node): seq<Node> {
    if n in g then g[n] else []
  }

  function Elements<T>(s: seq<T>): set<T> {
    set x | x in s
  }

  function DepSet(g: Graph, n: Node): set<Node> {
    Elements(Deps(g, n))
  }

  ghost predicate Closed(g: Graph, s: set<Node>) {
    forall n :: n in s ==> DepSet(g, n) <= s
  }

  /** Each node of a path depends directly on the next one. */
  ghost predicate IsPath(g: Graph, p: seq<Node>) {
    && |p| > 0
    && forall i, j :: 0 <= i < j < |p| && j == i + 1 ==> p[j] in Deps(g, p[i])
  }

  ghost predicate PathFrom(g: Graph, p: seq<Node>, a: Node) {
    IsPath(g, p) && p[0] == a
  }

  ghost predicate Reaches(g: Graph, a: Node, b: Node) {
    exists p :: PathFrom(g, p, a) && p[|p| - 1] == b
  }

  /** Following dependencies from `n` can come back to a node already visited. */
  ghost predicate ReachesCycle(g: Graph, n: Node) {
    exists p :: PathFrom(g, p, n) && !NoDuplicates(p)
  }

  lemma {:induction false} ReachesSelf(g: Graph, a: Node)
    ensures Reaches(g, a, a)
  {
    assert PathFrom(g, [a], a);
  }

  lemma {:induction false} ReachesStep(g: Graph, a: Node, b: Node, c: Node)
    requires Reaches(g, a, b) && c in Deps(g, b)
    ensures Reaches(g, a, c)
  {
    var p :| PathFrom(g, p, a) && p[|p| - 1] == b;
    var q := p + [c];
    assert PathFrom(g, q, a) && q[|q| - 1] == c;
  }

  lemma {:induction false} CycleViaDep(g: Graph, n: Node, d: Node)
    requires d in Deps(g, n) && ReachesCycle(g, d)
    ensures ReachesCycle(g, n)
  {
    var p :| PathFrom(g, p, d) && !NoDuplicates(p);
    var i, j :| 0 <= i < j < |p| && p[i] == p[j];
    var q := [n] + p;
    assert q[i + 1] == q[j + 1];
    assert PathFrom(g, q, n);
  }

  lemma {:induction false} CycleViaPath(g: Graph, p: seq<Node>)
    requires IsPath(g, p) && ReachesCycle(g, p[|p| - 1])
    ensures ReachesCycle(g, p[0])
    decreases |p|
  {
    if |p| > 1 {
      CycleViaPath(g, p[1..]);
      CycleViaDep(g, p[0], p[1]);
    }
  }

  /** Whatever is closed under dependencies and holds of the start holds along every path. */
  lemma {:induction false} ClosedAlongPath(g: Graph, p: seq<Node>, s: set<Node>)
    requires IsPath(g, p) && p[0] in s && Closed(g, s)
    ensures forall i :: 0 <= i < |p| ==> p[i] in s
  {
    if |p| > 1 {
      assert IsPath(g, p[..|p| - 1]);
      ClosedAlongPath(g, p[..|p| - 1], s);
      assert p[|p| - 2] in s;
      assert p[|p| - 1] in DepSet(g, p[|p| - 2]);
    }
  }

  lemma {:induction false} Pigeonhole(p: seq<Node>, s: set<Node>)
    requires forall i :: 0 <= i < |p| ==> p[i] in s
    requires |p| > |s|
    ensures !NoDuplicates(p)
  {
    var last := p[|p| - 1];
    var front := p[..|p| - 1];
    if last in front {
      var i :| 0 <= i < |front| && front[i] == last;
      assert p[i] == p[|p| - 1];
    } else {
      assert forall i :: 0 <= i < |front| ==> front[i] in s - {last};
      Pigeonhole(front, s - {last});
      var i, j :| 0 <= i < j < |front| && front[i] == front[j];
      assert p[i] == p[j];
    }
  }

  ghost predicate HasDepIn(g: Graph, n: Node, s: set<Node>) {
    exists d :: d in Deps(g, n) && d in s
  }

  ghost predicate NoneLeaves(g: Graph, s: set<Node>) {
    forall n {:trigger HasDepIn(g, n, s)} :: n in s ==> HasDepIn(g, n, s)
  }

  /** Inside a set where every node has a dependency in the set one can walk for ever. */
  lemma {:induction false} LongWalk(g: Graph, stuck: set<Node>, n: Node, len: nat) returns (p: seq<Node>)
    requires n in stuck && len > 0
    requires NoneLeaves(g, stuck)
    ensures PathFrom(g, p, n) && |p| == len
    ensures forall i :: 0 <= i < |p| ==> p[i] in stuck
    decreases len
  {
    if len == 1 {
      p := [n];
    } else {
      assert HasDepIn(g, n, stuck);
      var d :| d in Deps(g, n) && d in stuck;
      var q := LongWalk(g, stuck, d, len - 1);
      p := [n] + q;
    }
  }

  lemma {:induction false} StuckReachesCycle(g: Graph, stuck: set<Node>, n: Node)
    requires n in stuck
    requires NoneLeaves(g, stuck)
    ensures ReachesCycle(g, n)
  {
    var p := LongWalk(g, stuck, n, |stuck| + 1);
    Pigeonhole(p, stuck);
  }

  /** Every node of `order` comes after all of its dependencies. */
  ghost predicate DepsFirst(g: Graph, order: seq<Node>) {
    forall i, d :: 0 <= i < |order| && d in Deps(g, order[i]) ==> d in order[..i]
  }

  /** Along a path the position in a dependencies-first order strictly falls. */
  lemma {:induction false} PathDescends(g: Graph, order: seq<Node>, p: seq<Node>, i: nat, j: nat) returns (k: nat)
    requires NoDuplicates(order) && DepsFirst(g, order)
    requires IsPath(g, p) && i < |order| && p[0] == order[i]
    requires j < |p|
    ensures k < |order| && order[k] == p[j] && k + j <= i
    decreases j
  {
    if j == 0 {
      k := i;
    } else {
      var k' := PathDescends(g, order, p, i, j - 1);
      assert p[j] in Deps(g, order[k']);
      assert p[j] in order[..k'];
      k :| 0 <= k < k' && order[k] == p[j];
    }
  }

  lemma {:induction false} OrderedIsAcyclic(g: Graph, order: seq<Node>, n: Node)
    requires NoDuplicates(order) && DepsFirst(g, order) && n in order
    ensures !ReachesCycle(g, n)
  {
    var i :| 0 <= i < |order| && order[i] == n;
    forall p | PathFrom(g, p, n)
      ensures NoDuplicates(p)
    {
      forall a, b | 0 <= a < b < |p|
        ensures p[a] != p[b]
      {
        var ka := PathDescends(g, order, p, i, a);
        // restart the descent at position a of the path
        var tail := p[a..];
        assert IsPath(g, tail);
        var kb := PathDescends(g, order, tail, ka, b - a);
        assert tail[b - a] == p[b];
      }
    }
  }

  /** The longest dependency chain starting at `n` has `h` edges. */
  ghost predicate LongestChain(g: Graph, n: Node, h: nat) {
    && (exists p :: PathFrom(g, p, n) && |p| == h + 1)
    && (forall p :: PathFrom(g, p, n) ==> |p| <= h + 1)
  }

  /** A path that comes back to itself can be walked round again, past any bound. */
  lemma {:induction false} Pump(g: Graph, p: seq<Node>, i: nat, j: nat, bound: nat) returns (q: seq<Node>)
    requires IsPath(g, p) && i < j < |p| && p[i] == p[j]
    ensures PathFrom(g, q, p[0]) && |q| > bound
    decreases bound - |p|
  {
    if |p| > bound {
      q := p;
    } else {
      var longer := p[..j] + p[i..];
      assert IsPath(g, longer);
      q := Pump(g, longer, i, j, bound);
    }
  }

  lemma {:induction false} BoundedIsAcyclic(g: Graph, n: Node, h: nat)
    requires LongestChain(g, n, h)
    ensures !ReachesCycle(g, n)
  {
    if ReachesCycle(g, n) {
      var p :| PathFrom(g, p, n) && !NoDuplicates(p);
      var i, j :| 0 <= i < j < |p| && p[i] == p[j];
      var q := Pump(g, p, i, j, h + 1);
    }
  }
}
