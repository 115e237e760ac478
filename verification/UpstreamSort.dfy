/** Upstream cascade replay: the dependency graph of the executable tables and the
    order in which a target and everything it depends on are rebuilt. */
module UpstreamSort {
  import opened Graphs
  import opened Sequences

  datatype Table = Table(name: Node, inputs: seq<Node>)

  /** Everything listed as input by some table called `n`, in table order. */
  function InputsOf(tables: seq<Table>, n: Node): seq<Node> {
    if tables == [] then []
    else InputsOf(tables[..|tables| - 1], n) +
         if tables[|tables| - 1].name == n then tables[|tables| - 1].inputs else []
  }

  ghost predicate Mentioned(tables: seq<Table>, n: Node) {
    exists t :: t in tables && (t.name == n || n in t.inputs)
  }

  lemma {:induction false} MentionedSnoc(tables: seq<Table>, t: Table, n: Node)
    ensures Mentioned(tables + [t], n) <==> Mentioned(tables, n) || t.name == n || n in t.inputs
  {
    assert t in tables + [t];
    assert forall u :: u in tables + [t] ==> u in tables || u == t;
    assert forall u :: u in tables ==> u in tables + [t];
  }

  /** One table's contribution: its own node, its inputs' nodes, and its edges. */
  method AddTable(before: Graph, t: Table) returns (dag: Graph)
    ensures Extends(before, dag, t.name, t.inputs)
  {
    dag := before;
    if t.name !in dag { dag := dag[t.name := []]; }
    for j := 0 to |t.inputs|
      invariant Extends(before, dag, t.name, t.inputs[..j])
    {
      assert t.inputs[..j + 1] == t.inputs[..j] + [t.inputs[j]];
      ExtendOne(before, dag, t.name, t.inputs[..j], t.inputs[j]);
      if t.inputs[j] !in dag { dag := dag[t.inputs[j] := []]; }
      dag := dag[t.name := dag[t.name] + [t.inputs[j]]];
    }
    assert t.inputs[..|t.inputs|] == t.inputs;
  }

  /** `dag` is `before` with the node `name`, the nodes `inputs`, and an edge from `name` to each. */
  ghost predicate Extends(before: Graph, dag: Graph, name: Node, inputs: seq<Node>) {
    && dag.Keys == before.Keys + {name} + Elements(inputs)
    && forall n :: Deps(dag, n) == Deps(before, n) + if n == name then inputs else []
  }

  function WithNode(dag: Graph, n: Node): Graph {
    if n in dag then dag else dag[n := []]
  }

  lemma {:induction false} ExtendOne(before: Graph, dag: Graph, name: Node, inputs: seq<Node>, input: Node)
    requires Extends(before, dag, name, inputs)
    ensures var wider := WithNode(dag, input);
            name in wider && Extends(before, wider[name := wider[name] + [input]], name, inputs + [input])
  {
    assert Elements(inputs + [input]) == Elements(inputs) + {input};
    var wider := WithNode(dag, input);
    var longer := wider[name := wider[name] + [input]];
    assert name in dag.Keys;
    assert longer.Keys == dag.Keys + {input};
    forall n ensures Deps(longer, n) == Deps(before, n) + if n == name then inputs + [input] else [] {
      assert Deps(longer, n) == if n == name then Deps(dag, n) + [input] else Deps(dag, n);
      Associates(Deps(before, n), inputs, [input]);
    }
  }

  /** The graph has one node per table and per input, and the edges of all tables of one name. */
  method BuildDependencyDag(tables: seq<Table>) returns (dag: Graph)
    ensures forall n :: n in dag <==> Mentioned(tables, n)
    ensures forall n :: Deps(dag, n) == InputsOf(tables, n)
  {
    dag := map[];
    for i := 0 to |tables|
      invariant forall n :: n in dag.Keys <==> Mentioned(tables[..i], n)
      invariant forall n :: Deps(dag, n) == InputsOf(tables[..i], n)
    {
      assert tables[..i + 1] == tables[..i] + [tables[i]];
      forall n { MentionedSnoc(tables[..i], tables[i], n); }
      dag := AddTable(dag, tables[i]);
    }
    assert tables[..|tables|] == tables;
  }

  function Universe(g: Graph, target: Node): set<Node> {
    {target} + set n, d | n in g && d in g[n] :: d
  }

  /** Marks all dependencies of one node and queues those not seen before. */
  method Visit(deps: seq<Node>, seen: set<Node>, pending: seq<Node>) returns (upstream: set<Node>, queue: seq<Node>)
    ensures upstream == seen + Elements(deps)
    ensures Elements(queue) == Elements(pending) + (Elements(deps) - seen)
    ensures upstream == seen ==> queue == pending
  {
    upstream, queue := seen, pending;
    for i := 0 to |deps|
      invariant upstream == seen + Elements(deps[..i])
      invariant Elements(queue) == Elements(pending) + (Elements(deps[..i]) - seen)
      invariant upstream == seen ==> queue == pending
    {
      var dep := deps[i];
      assert Elements(deps[..i + 1]) == Elements(deps[..i]) + {dep} by {
        assert deps[..i + 1] == deps[..i] + [dep];
      }
      if dep !in upstream {
        assert Elements(queue + [dep]) == Elements(queue) + {dep};
        upstream := upstream + {dep};
        queue := queue + [dep];
      }
    }
    assert deps[..|deps|] == deps;
  }

  ghost predicate AllReached(g: Graph, target: Node, s: set<Node>) {
    forall n :: n in s ==> Reaches(g, target, n)
  }

  lemma {:induction false} VisitReached(g: Graph, target: Node, s: set<Node>, node: Node)
    requires AllReached(g, target, s) && node in s
    ensures AllReached(g, target, s + DepSet(g, node))
  {
    forall d | d in Deps(g, node)
      ensures Reaches(g, target, d)
    {
      ReachesStep(g, target, node, d);
    }
  }

  lemma {:induction false} ClosedHoldsReachable(g: Graph, target: Node, s: set<Node>)
    requires target in s && Closed(g, s)
    ensures forall n :: Reaches(g, target, n) ==> n in s
  {
    forall n | Reaches(g, target, n)
      ensures n in s
    {
      var p :| PathFrom(g, p, target) && p[|p| - 1] == n;
      ClosedAlongPath(g, p, s);
    }
  }

  /** Breadth-first collection of the target and its transitive dependencies. */
  method CollectUpstream(g: Graph, target: Node) returns (upstream: set<Node>)
    ensures forall n :: n in upstream <==> Reaches(g, target, n)
    ensures Closed(g, upstream)
  {
    ghost var universe := Universe(g, target);
    var queue := [target];
    upstream := {target};
    ReachesSelf(g, target);
    while queue != []
      invariant target in upstream && upstream <= universe
      invariant Elements(queue) <= upstream
      invariant AllReached(g, target, upstream)
      invariant forall n :: n in upstream - Elements(queue) ==> DepSet(g, n) <= upstream
      decreases universe - upstream, |queue|
    {
      var node := queue[0];
      assert Elements(queue) == {node} + Elements(queue[1..]) by {
        assert queue == [node] + queue[1..];
      }
      VisitReached(g, target, upstream, node);
      ghost var seen := upstream;
      upstream, queue := Visit(Deps(g, node), upstream, queue[1..]);
      assert DepSet(g, node) <= universe;
      assert upstream != seen ==> universe - upstream < universe - seen;
    }
    ClosedHoldsReachable(g, target, upstream);
  }

  function Dependents(reverse: Graph, d: Node): seq<Node> {
    if d in reverse then reverse[d] else []
  }

  /** How often `n` is listed as a dependent of `d`. */
  ghost function Listed(reverse: Graph, d: Node, n: Node): nat {
    multiset(Dependents(reverse, d))[n]
  }

  ghost function EdgeCount(g: Graph, n: Node, d: Node): nat {
    multiset(Deps(g, n))[d]
  }

  /** `reverse` extends `edges` by listing `node` once under each element of `deps`. */
  ghost predicate EdgesAdded(edges: Graph, reverse: Graph, node: Node, deps: seq<Node>) {
    forall d, n :: Listed(reverse, d, n) == Listed(edges, d, n) + if n == node then multiset(deps)[d] else 0
  }

  lemma {:induction false} EdgeAdded(edges: Graph, reverse: Graph, node: Node, deps: seq<Node>, dep: Node)
    requires EdgesAdded(edges, reverse, node, deps)
    ensures EdgesAdded(edges, reverse[dep := Dependents(reverse, dep) + [node]], node, deps + [dep])
  {
    var longer := reverse[dep := Dependents(reverse, dep) + [node]];
    forall d, n
      ensures Listed(longer, d, n) == Listed(edges, d, n) + if n == node then multiset(deps + [dep])[d] else 0
    {
      assert Listed(reverse, d, n) == Listed(edges, d, n) + if n == node then multiset(deps)[d] else 0;
      CountSnoc(deps, dep, d);
      ListOne(reverse, dep, node, d, n);
    }
  }

  lemma {:induction false} ListOne(reverse: Graph, dep: Node, node: Node, d: Node, n: Node)
    ensures Listed(reverse[dep := Dependents(reverse, dep) + [node]], d, n) ==
            Listed(reverse, d, n) + if d == dep && n == node then 1 else 0
  {
    CountSnoc(Dependents(reverse, dep), node, n);
  }

  lemma {:induction false} CountSnoc(s: seq<Node>, x: Node, y: Node)
    ensures multiset(s + [x])[y] == multiset(s)[y] + if x == y then 1 else 0
  {
  }

  /** Counts the edges of one node and lists the node under each of its dependencies. */
  method AddEdges(g: Graph, upstream: set<Node>, node: Node, degrees: map<Node, nat>, edges: Graph)
    returns (inDegree: map<Node, nat>, reverse: Graph)
    requires DepSet(g, node) <= upstream
    ensures inDegree == degrees[node := |Deps(g, node)|]
    ensures EdgesAdded(edges, reverse, node, Deps(g, node))
  {
    var deps := Deps(g, node);
    inDegree, reverse := degrees[node := 0], edges;
    for i := 0 to |deps|
      invariant inDegree == degrees[node := i]
      invariant EdgesAdded(edges, reverse, node, deps[..i])
    {
      assert deps[..i + 1] == deps[..i] + [deps[i]];
      assert deps[i] in DepSet(g, node);
      if deps[i] in upstream {
        EdgeAdded(edges, reverse, node, deps[..i], deps[i]);
        reverse := reverse[deps[i] := Dependents(reverse, deps[i]) + [node]];
        inDegree := inDegree[node := inDegree[node] + 1];
      }
    }
    assert deps[..|deps|] == deps;
  }

  /** The in-degree table and reversed edges of the collected part of the graph. The nodes are
      taken in an arbitrary order. */
  method CountEdges(g: Graph, upstream: set<Node>) returns (inDegree: map<Node, nat>, reverse: Graph)
    requires Closed(g, upstream)
    ensures inDegree.Keys == upstream
    ensures forall n :: n in upstream ==> inDegree[n] == |Deps(g, n)|
    ensures forall d, n :: Listed(reverse, d, n) == if n in upstream then EdgeCount(g, n, d) else 0
  {
    inDegree, reverse := map[], map[];
    var rest := upstream;
    while rest != {}
      invariant rest <= upstream && inDegree.Keys == upstream - rest
      invariant forall n :: n in upstream - rest ==> inDegree[n] == |Deps(g, n)|
      invariant forall d, n :: Listed(reverse, d, n) == if n in upstream - rest then EdgeCount(g, n, d) else 0
      decreases rest
    {
      var node :| node in rest;
      ghost var edges := reverse;
      inDegree, reverse := AddEdges(g, upstream, node, inDegree, reverse);
      assert EdgesAdded(edges, reverse, node, Deps(g, node));
      rest := rest - {node};
    }
  }

  /** The number of listed dependencies not done yet, counting repetitions. */
  ghost function Pending(deps: seq<Node>, done: set<Node>): nat {
    if deps == [] then 0
    else Pending(deps[1..], done) + if deps[0] in done then 0 else 1
  }

  lemma {:induction false} PendingAll(deps: seq<Node>)
    ensures Pending(deps, {}) == |deps|
  {
    if deps != [] { PendingAll(deps[1..]); }
  }

  lemma {:induction false} PendingNone(deps: seq<Node>, done: set<Node>)
    ensures Pending(deps, done) == 0 <==> Elements(deps) <= done
  {
    if deps != [] {
      PendingNone(deps[1..], done);
      assert deps == [deps[0]] + deps[1..];
      assert Elements(deps) == {deps[0]} + Elements(deps[1..]);
    }
  }

  lemma {:induction false} PendingStep(deps: seq<Node>, done: set<Node>, x: Node)
    requires x !in done
    ensures Pending(deps, done) == Pending(deps, done + {x}) + multiset(deps)[x]
  {
    if deps != [] {
      PendingStep(deps[1..], done, x);
      assert deps == [deps[0]] + deps[1..];
    }
  }

  /** The nodes with no dependency left to wait for, in an arbitrary order. */
  method InitialQueue(inDegree: map<Node, nat>) returns (q: seq<Node>)
    ensures NoDuplicates(q)
    ensures Elements(q) == ZeroDegree(inDegree)
  {
    q := [];
    var rest := inDegree.Keys;
    while rest != {}
      invariant rest <= inDegree.Keys && NoDuplicates(q)
      invariant Elements(q) == set n | n in inDegree.Keys - rest && inDegree[n] == 0
      decreases rest
    {
      var node :| node in rest;
      if inDegree[node] == 0 {
        assert Elements(q + [node]) == Elements(q) + {node};
        assert node !in Elements(q);
        q := q + [node];
      }
      rest := rest - {node};
    }
  }

  /** Takes one unit off each listed dependent; those that reach zero join the queue once. */
  method Release(dependents: seq<Node>, degrees: map<Node, nat>, waiting: seq<Node>)
    returns (inDegree: map<Node, nat>, q: seq<Node>)
    requires forall n :: n in degrees ==> multiset(dependents)[n] <= degrees[n]
    requires NoDuplicates(waiting)
    requires forall n :: n in waiting && n in degrees ==> degrees[n] == 0
    ensures inDegree.Keys == degrees.Keys
    ensures forall n :: n in degrees ==> inDegree[n] + multiset(dependents)[n] == degrees[n]
    ensures waiting <= q && NoDuplicates(q)
    ensures Elements(q) == Elements(waiting) + (ZeroDegree(inDegree) - ZeroDegree(degrees))
  {
    inDegree, q := degrees, waiting;
    for i := 0 to |dependents|
      invariant Lowered(degrees, inDegree, multiset(dependents[..i]))
      invariant Queued(degrees, inDegree, waiting, q)
    {
      var dep := dependents[i];
      MultisetPrefix(dependents, i);
      if dep in inDegree {
        assert multiset(dependents[..i + 1])[dep] <= degrees[dep];
        LowerOne(degrees, inDegree, multiset(dependents[..i]), dep);
        QueueOne(degrees, inDegree, waiting, q, dep);
        inDegree := inDegree[dep := inDegree[dep] - 1];
        if inDegree[dep] == 0 { q := q + [dep]; }
      }
    }
    assert dependents[..|dependents|] == dependents;
  }

  /** The degrees after taking off the listings `gone`. */
  ghost predicate Lowered(degrees: map<Node, nat>, inDegree: map<Node, nat>, gone: multiset<Node>) {
    inDegree.Keys == degrees.Keys && forall n :: n in degrees ==> inDegree[n] + gone[n] == degrees[n]
  }

  /** The queue after adding every node whose degree has come down to zero. */
  ghost predicate Queued(degrees: map<Node, nat>, inDegree: map<Node, nat>, waiting: seq<Node>, q: seq<Node>) {
    && waiting <= q && NoDuplicates(q)
    && Elements(q) == Elements(waiting) + (ZeroDegree(inDegree) - ZeroDegree(degrees))
  }

  lemma {:induction false} LowerOne(degrees: map<Node, nat>, inDegree: map<Node, nat>, gone: multiset<Node>, dep: Node)
    requires Lowered(degrees, inDegree, gone) && dep in degrees && gone[dep] < degrees[dep]
    ensures inDegree[dep] > 0 && Lowered(degrees, inDegree[dep := inDegree[dep] - 1], gone + multiset{dep})
  {
  }

  lemma {:induction false} QueueOne(degrees: map<Node, nat>, inDegree: map<Node, nat>, waiting: seq<Node>,
                                    q: seq<Node>, dep: Node)
    requires Queued(degrees, inDegree, waiting, q) && dep in inDegree && inDegree[dep] > 0
    requires dep in degrees && degrees[dep] > 0 && (dep in waiting ==> degrees[dep] == 0)
    ensures var lower := inDegree[dep := inDegree[dep] - 1];
            Queued(degrees, lower, waiting, if lower[dep] == 0 then q + [dep] else q)
  {
    var lower := inDegree[dep := inDegree[dep] - 1];
    assert dep !in Elements(q);
    assert Elements(q + [dep]) == Elements(q) + {dep};
    assert ZeroDegree(lower) == ZeroDegree(inDegree) + if lower[dep] == 0 then {dep} else {};
  }

  lemma {:induction false} MultisetPrefix(s: seq<Node>, i: nat)
    requires i < |s|
    ensures multiset(s[..i + 1]) == multiset(s[..i]) + multiset{s[i]}
    ensures multiset(s[..i + 1]) <= multiset(s)
  {
    assert s[..i + 1] == s[..i] + [s[i]];
    assert s == s[..i + 1] + s[i + 1..];
  }

  ghost function ZeroDegree(inDegree: map<Node, nat>): set<Node> {
    set n | n in inDegree && inDegree[n] == 0
  }

  /** The state between two rounds of Kahn's loop. */
  ghost predicate Draining(g: Graph, upstream: set<Node>, inDegree: map<Node, nat>, q: seq<Node>, result: seq<Node>) {
    && inDegree.Keys == upstream
    && (forall n :: n in upstream ==> inDegree[n] == Pending(Deps(g, n), Elements(result)))
    && NoDuplicates(result) && NoDuplicates(q)
    && Elements(result) !! Elements(q)
    && Elements(result) + Elements(q) == ZeroDegree(inDegree)
    && DepsFirst(g, result)
  }

  lemma {:induction false} DrainStart(g: Graph, upstream: set<Node>, inDegree: map<Node, nat>, q: seq<Node>)
    requires inDegree.Keys == upstream
    requires forall n :: n in upstream ==> inDegree[n] == |Deps(g, n)|
    requires NoDuplicates(q) && Elements(q) == ZeroDegree(inDegree)
    ensures Draining(g, upstream, inDegree, q, [])
  {
    assert Elements<Node>([]) == {};
    forall n { PendingAll(Deps(g, n)); }
  }

  lemma {:induction false} HeadTail(q: seq<Node>)
    requires q != []
    ensures Elements(q) == {q[0]} + Elements(q[1..])
    ensures NoDuplicates(q) ==> NoDuplicates(q[1..]) && q[0] !in Elements(q[1..])
  {
    assert q == [q[0]] + q[1..];
  }

  lemma {:induction false} Appended(s: seq<Node>, x: Node)
    ensures Elements(s + [x]) == Elements(s) + {x}
    ensures NoDuplicates(s) && x !in Elements(s) ==> NoDuplicates(s + [x])
  {
  }

  /** The preconditions of `Release` in the middle of a run. */
  lemma {:induction false} DrainReady(g: Graph, upstream: set<Node>, inDegree: map<Node, nat>, q: seq<Node>,
                                      done: seq<Node>)
    requires q != [] && Draining(g, upstream, inDegree, q, done)
    ensures forall n :: n in upstream ==> EdgeCount(g, n, q[0]) <= inDegree[n]
    ensures NoDuplicates(q[1..])
    ensures forall n :: n in q[1..] && n in inDegree ==> inDegree[n] == 0
    ensures q[0] in upstream - Elements(done)
  {
    HeadTail(q);
    assert q[0] in Elements(q);
    forall n | n in upstream
      ensures EdgeCount(g, n, q[0]) <= inDegree[n]
    {
      PendingStep(Deps(g, n), Elements(done), q[0]);
    }
    assert forall n :: n in q[1..] ==> n in Elements(q);
  }

  /** What one round keeps, given what `Release` promises. */
  lemma {:induction false} DrainRound(g: Graph, upstream: set<Node>, degrees: map<Node, nat>, waiting: seq<Node>,
                                      done: seq<Node>,
                   inDegree: map<Node, nat>, q: seq<Node>)
    requires waiting != [] && Draining(g, upstream, degrees, waiting, done)
    requires inDegree.Keys == upstream
    requires forall n :: n in upstream ==> inDegree[n] + EdgeCount(g, n, waiting[0]) == degrees[n]
    requires NoDuplicates(q)
    requires Elements(q) == Elements(waiting[1..]) + (ZeroDegree(inDegree) - ZeroDegree(degrees))
    ensures Draining(g, upstream, inDegree, q, done + [waiting[0]])
  {
    var node := waiting[0];
    HeadTail(waiting);
    Appended(done, node);
    assert node in ZeroDegree(degrees);
    forall n | n in upstream
      ensures inDegree[n] == Pending(Deps(g, n), Elements(done + [node]))
    {
      PendingStep(Deps(g, n), Elements(done), node);
    }
    assert ZeroDegree(degrees) <= ZeroDegree(inDegree);
    PendingNone(Deps(g, node), Elements(done));
    RoundDepsFirst(g, done, node);
  }

  lemma {:induction false} RoundDepsFirst(g: Graph, done: seq<Node>, node: Node)
    requires DepsFirst(g, done) && DepSet(g, node) <= Elements(done)
    ensures DepsFirst(g, done + [node])
  {
    var result := done + [node];
    forall i, d | 0 <= i < |result| && d in Deps(g, result[i])
      ensures d in result[..i]
    {
      if i < |done| {
        assert result[..i] == done[..i];
      } else {
        assert result[..i] == done;
        assert d in DepSet(g, node);
      }
    }
  }

  /** What the emitted order promises: exactly the dependencies of the target that can be built,
      each once and after everything it needs. */
  ghost predicate IsUpstreamOrder(g: Graph, target: Node, result: seq<Node>) {
    && NoDuplicates(result)
    && DepsFirst(g, result)
    && forall n :: n in result <==> Reaches(g, target, n) && !ReachesCycle(g, n)
  }

  /** When the queue runs dry, the nodes left over all wait for each other. */
  lemma {:induction false} DrainEnd(g: Graph, target: Node, upstream: set<Node>, inDegree: map<Node, nat>,
                                    result: seq<Node>)
    requires Draining(g, upstream, inDegree, [], result) && Closed(g, upstream)
    requires forall n :: n in upstream <==> Reaches(g, target, n)
    ensures IsUpstreamOrder(g, target, result)
  {
    assert Elements<Node>([]) == {};
    var left := upstream - Elements(result);
    forall n {:trigger HasDepIn(g, n, left)} | n in left
      ensures HasDepIn(g, n, left)
    {
      PendingNone(Deps(g, n), Elements(result));
      var d :| d in Elements(Deps(g, n)) && d !in Elements(result);
      assert d in DepSet(g, n);
    }
    forall n
      ensures n in result <==> Reaches(g, target, n) && !ReachesCycle(g, n)
    {
      if n in result {
        assert n in Elements(result);
        OrderedIsAcyclic(g, result, n);
      } else if n in upstream {
        StuckReachesCycle(g, left, n);
      }
    }
  }

  /** Kahn's algorithm over the collected nodes. Equal in-degrees come out in arbitrary order. */
  method TopologicalSortUpstream(g: Graph, target: Node) returns (result: seq<Node>)
    ensures IsUpstreamOrder(g, target, result)
  {
    var upstream := CollectUpstream(g, target);
    var inDegree, reverse := CountEdges(g, upstream);
    var q := InitialQueue(inDegree);
    result := [];
    DrainStart(g, upstream, inDegree, q);
    while q != []
      invariant Draining(g, upstream, inDegree, q, result)
      decreases upstream - Elements(result)
    {
      ghost var degrees, waiting, done := inDegree, q, result;
      var node := q[0];
      DrainReady(g, upstream, inDegree, q, result);
      Appended(result, node);
      result := result + [node];
      inDegree, q := Release(Dependents(reverse, node), inDegree, q[1..]);
      DrainRound(g, upstream, degrees, waiting, done, inDegree, q);
    }
    DrainEnd(g, target, upstream, inDegree, result);
  }

  /** The target itself comes out, and comes out last, exactly when it does not depend on a cycle;
      then nothing it depends on is missing either. */
  lemma {:induction false} TargetLastIffAcyclic(g: Graph, target: Node, result: seq<Node>)
    requires IsUpstreamOrder(g, target, result)
    ensures !ReachesCycle(g, target) <==> result != [] && result[|result| - 1] == target
    ensures !ReachesCycle(g, target) ==> forall n :: Reaches(g, target, n) ==> n in result
  {
    ReachesSelf(g, target);
    if !ReachesCycle(g, target) {
      forall n | Reaches(g, target, n)
        ensures n in result
      {
        var p :| PathFrom(g, p, target) && p[|p| - 1] == n;
        if ReachesCycle(g, n) { CycleViaPath(g, p); }
      }
      var i :| 0 <= i < |result| && result[i] == target;
      var last := result[|result| - 1];
      assert last in result;
      var p :| PathFrom(g, p, target) && p[|p| - 1] == last;
      var k := PathDescends(g, result, p, i, |p| - 1);
    } else if result != [] {
      assert result[|result| - 1] in result;
    }
  }
}
