/** Staging of notebook cells: which cells may run together and in which order the stages run. */
module NotebookPlan {
  import opened Graphs
  import opened Sequences

  datatype Cell = Cell(id: Node, cellType: string, dependsOn: seq<Node>)
  datatype Stage = Stage(stageId: nat, cellIds: seq<Node>, canParallelize: bool)

  const MARKDOWN := "markdown"
  const SQL := "sql"

  function Filter<T>(s: seq<T>, keep: T -> bool): seq<T> {
    if s == [] then []
    else (if keep(s[0]) then [s[0]] else []) + Filter(s[1..], keep)
  }

  lemma {:induction false} FilterMember<T>(s: seq<T>, keep: T -> bool, x: T)
    ensures x in Filter(s, keep) <==> x in s && keep(x)
  {
    if s != [] {
      FilterMember(s[1..], keep, x);
    }
  }

  lemma {:induction false} FilterTwice<T>(s: seq<T>, first: T -> bool, second: T -> bool, both: T -> bool)
    requires forall x :: x in s ==> both(x) == (first(x) && second(x))
    ensures Filter(Filter(s, first), second) == Filter(s, both)
  {
    if s != [] {
      FilterTwice(s[1..], first, second, both);
      assert s[0] in s && both(s[0]) == (first(s[0]) && second(s[0]));
      var rest := Filter(s[1..], first);
      if first(s[0]) {
        assert Filter(s, first) == [s[0]] + rest && ([s[0]] + rest)[1..] == rest;
      } else {
        assert Filter(s, first) == rest;
      }
    }
  }

  lemma {:induction false} FilterShrinks<T>(s: seq<T>, keep: T -> bool)
    ensures |Filter(s, keep)| <= |s|
    ensures (exists x :: x in s && !keep(x)) ==> |Filter(s, keep)| < |s|
  {
    if s != [] {
      FilterShrinks(s[1..], keep);
    }
  }

  function Ids(cells: seq<Cell>): seq<Node> {
    seq(|cells|, i requires 0 <= i < |cells| => cells[i].id)
  }

  function ExecutableIn(s: set<Node>): Cell -> bool {
    (c: Cell) => c.cellType != MARKDOWN && c.id in s
  }

  function ExecutableNotIn(s: set<Node>): Cell -> bool {
    (c: Cell) => c.cellType != MARKDOWN && c.id !in s
  }

  function IdNotIn(ids: seq<Node>): Cell -> bool {
    (c: Cell) => c.id !in ids
  }

  function DependsOnlyOn(executed: seq<Node>): Cell -> bool {
    (c: Cell) => forall d :: d in c.dependsOn ==> d in executed
  }

  /** The executable cells whose id is in `s`, in notebook order. */
  function Chosen(cells: seq<Cell>, s: set<Node>): seq<Cell> {
    Filter(cells, ExecutableIn(s))
  }

  /** The executable cells whose id is not in `s`, in notebook order. */
  function Others(cells: seq<Cell>, s: set<Node>): seq<Cell> {
    Filter(cells, ExecutableNotIn(s))
  }

  ghost predicate DistinctIds(cells: seq<Cell>) {
    forall i, j :: 0 <= i < j < |cells| ==> cells[i].id != cells[j].id
  }

  /** The dependency graph of the executable cells; markdown cells are not part of it. */
  ghost function CellGraph(cells: seq<Cell>): Graph {
    if cells == [] then map[]
    else
      var rest := CellGraph(cells[1..]);
      if cells[0].cellType == MARKDOWN then rest else rest[cells[0].id := cells[0].dependsOn]
  }

  lemma {:induction false} CellGraphEntries(cells: seq<Cell>)
    ensures forall n :: n in CellGraph(cells) <==> exists c :: c in cells && c.cellType != MARKDOWN && c.id == n
    ensures DistinctIds(cells) ==>
              forall c :: c in cells && c.cellType != MARKDOWN ==> CellGraph(cells)[c.id] == c.dependsOn
  {
    if cells != [] {
      CellGraphEntries(cells[1..]);
      assert forall c :: c in cells <==> c == cells[0] || c in cells[1..];
      if DistinctIds(cells) {
        assert DistinctIds(cells[1..]);
        assert forall c :: c in cells[1..] ==> c.id != cells[0].id;
      }
    }
  }

  /** A cell that can never be satisfied: following its dependencies meets a cycle, or an id that
      is missing from the notebook or belongs to a markdown cell. */
  ghost predicate Blocked(g: Graph, n: Node) {
    ReachesCycle(g, n) || exists d :: Reaches(g, n, d) && d !in g
  }

  ghost function BlockedIds(g: Graph): set<Node> {
    set n | n in g && Blocked(g, n)
  }

  ghost function Level(g: Graph, k: nat): set<Node> {
    set n | n in g && !Blocked(g, n) && LongestChain(g, n, k)
  }

  ghost function Below(g: Graph, k: nat): set<Node> {
    set n, h | n in g && 0 <= h < k && n in Level(g, h) :: n
  }

  lemma {:induction false} LongestExists(g: Graph, n: Node, bound: nat) returns (h: nat)
    requires forall p :: PathFrom(g, p, n) ==> |p| <= bound + 1
    ensures h <= bound && LongestChain(g, n, h)
  {
    if exists p :: PathFrom(g, p, n) && |p| == bound + 1 {
      h := bound;
    } else {
      assert PathFrom(g, [n], n);
      h := LongestExists(g, n, bound - 1);
    }
  }

  lemma {:induction false} BlockedViaDep(g: Graph, n: Node, d: Node)
    requires d in Deps(g, n) && (Blocked(g, d) || d !in g)
    ensures Blocked(g, n)
  {
    if ReachesCycle(g, d) {
      CycleViaDep(g, n, d);
    } else {
      ReachesSelf(g, d);
      var e :| Reaches(g, d, e) && e !in g;
      var p :| PathFrom(g, p, d) && p[|p| - 1] == e;
      assert PathFrom(g, [n] + p, n) && ([n] + p)[|p|] == e;
      assert Reaches(g, n, e);
    }
  }

  /** A cell whose dependencies are all on lower levels has a level of its own. */
  lemma {:induction false} SettledHasLevel(g: Graph, n: Node, k: nat) returns (h: nat)
    requires n in g && DepSet(g, n) <= Below(g, k)
    ensures h <= k && n in Level(g, h)
  {
    forall p | PathFrom(g, p, n)
      ensures |p| <= k + 1 && p[|p| - 1] in g
    {
      if |p| > 1 {
        assert p[1] in DepSet(g, n);
        assert PathFrom(g, p[1..], p[1]);
        assert Reaches(g, p[1], p[|p| - 1]);
      }
    }
    h := LongestExists(g, n, k);
    BoundedIsAcyclic(g, n, h);
  }

  lemma {:induction false} LevelDepsBelow(g: Graph, n: Node, k: nat)
    requires n in Level(g, k)
    ensures DepSet(g, n) <= Below(g, k)
    ensures n !in Below(g, k)
  {
    forall d | d in DepSet(g, n)
      ensures d in Below(g, k)
    {
      if d !in g || Blocked(g, d) { BlockedViaDep(g, n, d); }
      forall p | PathFrom(g, p, d)
        ensures |p| <= k
      {
        assert PathFrom(g, [n] + p, n);
      }
      assert PathFrom(g, [d], d);
      var h := LongestExists(g, d, k - 1);
      assert d in Level(g, h);
    }
    forall h | 0 <= h < k
      ensures n !in Level(g, h)
    {
      var p :| PathFrom(g, p, n) && |p| == k + 1;
    }
  }

  /** One round's ready cells are exactly the next level. */
  lemma {:induction false} ReadyIsLevel(g: Graph, k: nat, n: Node)
    requires n in g
    ensures n in Level(g, k) <==> n !in Below(g, k) && DepSet(g, n) <= Below(g, k)
  {
    if n in Level(g, k) {
      LevelDepsBelow(g, n, k);
    } else if n !in Below(g, k) && DepSet(g, n) <= Below(g, k) {
      var h := SettledHasLevel(g, n, k);
    }
  }

  /** When no cell is ready, the cells left over are exactly the blocked ones. */
  lemma {:induction false} LeftoverIsBlocked(g: Graph, k: nat)
    requires Level(g, k) == {}
    ensures g.Keys - Below(g, k) == BlockedIds(g)
  {
    var waiting := g.Keys - Below(g, k) - BlockedIds(g);
    forall n {:trigger HasDepIn(g, n, waiting)} | n in waiting
      ensures HasDepIn(g, n, waiting)
    {
      ReadyIsLevel(g, k, n);
      var d :| d in DepSet(g, n) && d !in Below(g, k);
      if d !in g || Blocked(g, d) { BlockedViaDep(g, n, d); }
    }
    if waiting != {} {
      var n :| n in waiting;
      StuckReachesCycle(g, waiting, n);
    }
    assert BlockedIds(g) <= g.Keys - Below(g, k);
    assert g.Keys - Below(g, k) <= BlockedIds(g) + waiting;
  }

  ghost predicate AllSql(cells: seq<Cell>) {
    forall c :: c in cells ==> c.cellType == "sql"
  }

  /** Stage `k` of a plan runs the executable cells of `s`, in notebook order. */
  ghost predicate Runs(stages: seq<Stage>, k: nat, cells: seq<Cell>, s: set<Node>) {
    k < |stages| && stages[k].stageId == k && stages[k].cellIds == Ids(Chosen(cells, s))
  }

  ghost predicate OrdinaryStage(stages: seq<Stage>, k: nat, cells: seq<Cell>, s: set<Node>) {
    && Runs(stages, k, cells, s)
    && (stages[k].canParallelize <==> |Chosen(cells, s)| > 1 && AllSql(Chosen(cells, s)))
  }

  ghost predicate StageAt(cells: seq<Cell>, stages: seq<Stage>, k: nat) {
    var level := Level(CellGraph(cells), k);
    level != {} && OrdinaryStage(stages, k, cells, level)
  }

  /** Stage by stage the levels of the graph, none empty. */
  ghost predicate Staged(cells: seq<Cell>, stages: seq<Stage>) {
    forall k {:trigger StageAt(cells, stages, k)} :: 0 <= k < |stages| ==> StageAt(cells, stages, k)
  }

  /** What the plan of a notebook with distinct ids promises: one stage per level, and a last
      sequential stage with the blocked cells exactly if there are any. */
  ghost predicate IsPlan(cells: seq<Cell>, stages: seq<Stage>) {
    var g := CellGraph(cells);
    if BlockedIds(g) == {} then
      && Staged(cells, stages)
      && g.Keys == Below(g, |stages|)
    else
      && stages != []
      && var last := |stages| - 1;
      && Staged(cells, stages[..last])
      && g.Keys - BlockedIds(g) == Below(g, last)
      && Runs(stages, last, cells, BlockedIds(g))
      && !stages[last].canParallelize
  }

  ghost function ReadySet(g: Graph, executed: set<Node>): set<Node> {
    set n | n in g && n !in executed && DepSet(g, n) <= executed
  }

  lemma {:induction false} ReadySetIsLevel(g: Graph, k: nat)
    ensures ReadySet(g, Below(g, k)) == Level(g, k)
    ensures Below(g, k + 1) == Below(g, k) + Level(g, k)
  {
    forall n | n in g { ReadyIsLevel(g, k, n); }
  }

  lemma {:induction false} ReadyCell(g: Graph, ready: set<Node>, executed: seq<Node>, c: Cell)
    requires c.id in g && g[c.id] == c.dependsOn
    requires ready == ReadySet(g, Elements(executed))
    ensures c.id in ready <==> c.id !in Elements(executed) && DependsOnlyOn(executed)(c)
  {
    assert DepSet(g, c.id) == Elements(c.dependsOn);
    assert forall d :: d in c.dependsOn <==> d in Elements(c.dependsOn);
    assert forall d :: d in executed <==> d in Elements(executed);
  }

  /** Filtering the remaining cells by their dependencies selects the next level. */
  lemma {:induction false} ReadyCells(cells: seq<Cell>, executed: seq<Node>, k: nat)
    requires DistinctIds(cells) && Elements(executed) == Below(CellGraph(cells), k)
    ensures Filter(Others(cells, Elements(executed)), DependsOnlyOn(executed)) ==
              Chosen(cells, Level(CellGraph(cells), k))
  {
    var g := CellGraph(cells);
    CellGraphEntries(cells);
    ReadySetIsLevel(g, k);
    forall c | c in cells
      ensures ExecutableIn(Level(g, k))(c) == (ExecutableNotIn(Elements(executed))(c) && DependsOnlyOn(executed)(c))
    {
      if c.cellType != MARKDOWN { ReadyCell(g, Level(g, k), executed, c); }
    }
    FilterTwice(cells, ExecutableNotIn(Elements(executed)), DependsOnlyOn(executed), ExecutableIn(Level(g, k)));
  }

  lemma {:induction false} ChosenIds(cells: seq<Cell>, s: set<Node>)
    requires s <= CellGraph(cells).Keys
    ensures Elements(Ids(Chosen(cells, s))) == s
  {
    CellGraphEntries(cells);
    var chosen := Chosen(cells, s);
    forall c { FilterMember(cells, ExecutableIn(s), c); }
    forall n | n in s
      ensures n in Ids(chosen)
    {
      var c :| c in cells && c.cellType != MARKDOWN && c.id == n;
      assert ExecutableIn(s)(c);
      var i :| 0 <= i < |chosen| && chosen[i] == c;
      assert Ids(chosen)[i] == n;
    }
    forall n | n in Ids(chosen)
      ensures n in s
    {
      var i :| 0 <= i < |Ids(chosen)| && Ids(chosen)[i] == n;
      assert chosen[i] in chosen;
      assert ExecutableIn(s)(chosen[i]);
    }
  }

  lemma {:induction false} RemainingCells(cells: seq<Cell>, executed: set<Node>, ids: seq<Node>)
    ensures Filter(Others(cells, executed), IdNotIn(ids)) == Others(cells, executed + Elements(ids))
  {
    FilterTwice(cells, ExecutableNotIn(executed), IdNotIn(ids), ExecutableNotIn(executed + Elements(ids)));
  }

  lemma {:induction false} StagedStep(cells: seq<Cell>, stages: seq<Stage>, stage: Stage)
    requires Staged(cells, stages)
    requires var g := CellGraph(cells);
             Level(g, |stages|) != {} && OrdinaryStage(stages + [stage], |stages|, cells, Level(g, |stages|))
    ensures Staged(cells, stages + [stage])
  {
    forall k | 0 <= k < |stages + [stage]|
      ensures StageAt(cells, stages + [stage], k)
    {
      if k < |stages| { assert StageAt(cells, stages, k); }
    }
  }

  /** The loop state before stage `|stages|`. */
  ghost predicate Staging(cells: seq<Cell>, stages: seq<Stage>, executed: seq<Node>, remaining: seq<Cell>) {
    && Staged(cells, stages)
    && Elements(executed) == Below(CellGraph(cells), |stages|)
    && remaining == Others(cells, Elements(executed))
  }

  lemma {:induction false} StageStep(cells: seq<Cell>, stages: seq<Stage>, executed: seq<Node>, remaining: seq<Cell>,
                                     ready: seq<Cell>, par: bool)
    requires DistinctIds(cells) && Staging(cells, stages, executed, remaining)
    requires ready != [] && ready == Chosen(cells, Level(CellGraph(cells), |stages|))
    requires par <==> |ready| > 1 && AllSql(ready)
    ensures Staging(cells, stages + [Stage(|stages|, Ids(ready), par)], executed + Ids(ready),
                    Filter(remaining, IdNotIn(Ids(ready))))
  {
    var g := CellGraph(cells);
    ReadySetIsLevel(g, |stages|);
    ChosenIds(cells, Level(g, |stages|));
    assert Ids(ready)[0] in Elements(Ids(ready));
    assert Elements(executed + Ids(ready)) == Elements(executed) + Elements(Ids(ready));
    RemainingCells(cells, Elements(executed), Ids(ready));
    StagedStep(cells, stages, Stage(|stages|, Ids(ready), par));
  }

  lemma {:induction false} StageEnd(cells: seq<Cell>, stages: seq<Stage>, executed: seq<Node>)
    requires DistinctIds(cells) && Staging(cells, stages, executed, [])
    ensures IsPlan(cells, stages)
  {
    var g := CellGraph(cells);
    CellGraphEntries(cells);
    forall n | n in g
      ensures n in Below(g, |stages|)
    {
      var c :| c in cells && c.cellType != MARKDOWN && c.id == n;
      FilterMember(cells, ExecutableNotIn(Elements(executed)), c);
    }
    assert BlockedIds(g) == {};
  }

  lemma {:induction false} StageFallback(cells: seq<Cell>, stages: seq<Stage>, executed: seq<Node>,
                                         remaining: seq<Cell>)
    requires DistinctIds(cells) && Staging(cells, stages, executed, remaining) && remaining != []
    requires Chosen(cells, Level(CellGraph(cells), |stages|)) == []
    ensures IsPlan(cells, stages + [Stage(|stages|, Ids(remaining), false)])
  {
    var g := CellGraph(cells);
    var k := |stages|;
    CellGraphEntries(cells);
    ChosenIds(cells, Level(g, k));
    assert Ids(Chosen(cells, Level(g, k))) == [];
    assert Level(g, k) == {};
    LeftoverIsBlocked(g, k);
    FilterSame(cells, ExecutableNotIn(Elements(executed)), ExecutableIn(BlockedIds(g)));
    assert remaining[0] in remaining;
    FilterMember(cells, ExecutableNotIn(Elements(executed)), remaining[0]);
    assert remaining[0].id in BlockedIds(g);
    assert (stages + [Stage(k, Ids(remaining), false)])[..k] == stages;
  }

  lemma {:induction false} FilterSame<T>(s: seq<T>, f: T -> bool, h: T -> bool)
    requires forall x :: x in s ==> f(x) == h(x)
    ensures Filter(s, f) == Filter(s, h)
  {
    if s != [] {
      assert s[0] in s;
      FilterSame(s[1..], f, h);
    }
  }

  lemma {:induction false} ReadyLeave(remaining: seq<Cell>, isReady: Cell -> bool)
    requires Filter(remaining, isReady) != []
    ensures |Filter(remaining, IdNotIn(Ids(Filter(remaining, isReady))))| < |remaining|
  {
    var ready := Filter(remaining, isReady);
    var c := ready[0];
    FilterMember(remaining, isReady, c);
    assert Ids(ready)[0] == c.id;
    assert !IdNotIn(Ids(ready))(c);
    FilterShrinks(remaining, IdNotIn(Ids(ready)));
  }

  /** The order in which the cells are run: stage after stage. */
  function DagOrder(stages: seq<Stage>): seq<Node> {
    if stages == [] then [] else DagOrder(stages[..|stages| - 1]) + stages[|stages| - 1].cellIds
  }

  // ---------- What holds for every notebook, whatever its ids ----------

  /** A cell that is run: not a markdown cell. */
  ghost predicate RunnableId(cells: seq<Cell>, id: Node) {
    exists c :: c in cells && c.cellType != "markdown" && c.id == id
  }

  /** A runnable cell of that id needs only what was run before. */
  ghost predicate HasWhatItNeeds(cells: seq<Cell>, id: Node, before: seq<Node>) {
    exists c :: c in cells && c.cellType != "markdown" && c.id == id && forall d :: d in c.dependsOn ==> d in before
  }

  ghost predicate RunsAfterNeeds(cells: seq<Cell>, stages: seq<Stage>, k: nat)
    requires k < |stages|
  {
    forall id :: id in stages[k].cellIds ==> HasWhatItNeeds(cells, id, DagOrder(stages[..k]))
  }

  /** No cell still waiting could run. */
  ghost predicate AllWait(cells: seq<Cell>, before: seq<Node>) {
    forall c :: c in cells && c.cellType != "markdown" && c.id !in before ==>
      exists d :: d in c.dependsOn && d !in before
  }

  /** Stages are numbered and not empty, and each cell of a stage has what it needs from earlier ones;
      only a last, sequential stage may hold the cells that wait for what never comes. */
  ghost predicate SoundStages(cells: seq<Cell>, stages: seq<Stage>) {
    && (forall k :: 0 <= k < |stages| ==> stages[k].stageId == k && stages[k].cellIds != [])
    && (forall k :: 0 <= k < |stages| - 1 ==> RunsAfterNeeds(cells, stages, k))
    && (stages != [] ==>
          var last := |stages| - 1;
          || RunsAfterNeeds(cells, stages, last)
          || (!stages[last].canParallelize && AllWait(cells, DagOrder(stages[..last]))))
  }

  ghost predicate AllStagesRun(cells: seq<Cell>, stages: seq<Stage>) {
    forall k :: 0 <= k < |stages| ==>
      stages[k].stageId == k && stages[k].cellIds != [] && RunsAfterNeeds(cells, stages, k)
  }

  /** The loop state: what was run, and what is left. */
  ghost predicate Progressing(cells: seq<Cell>, stages: seq<Stage>, executed: seq<Node>, remaining: seq<Cell>) {
    && executed == DagOrder(stages) && AllStagesRun(cells, stages)
    && (forall id :: id in executed ==> RunnableId(cells, id))
    && forall c :: c in remaining <==> c in cells && c.cellType != "markdown" && c.id !in executed
  }

  lemma {:induction false} IdsMember(cells: seq<Cell>, id: Node)
    ensures id in Ids(cells) <==> exists c :: c in cells && c.id == id
  {
    if id in Ids(cells) {
      var i :| 0 <= i < |cells| && Ids(cells)[i] == id;
      assert cells[i] in cells;
    }
    if exists c :: c in cells && c.id == id {
      var c :| c in cells && c.id == id;
      var i :| 0 <= i < |cells| && cells[i] == c;
      assert Ids(cells)[i] == id;
    }
  }

  lemma {:induction false} DagOrderSnoc(stages: seq<Stage>, s: Stage)
    ensures DagOrder(stages + [s]) == DagOrder(stages) + s.cellIds
    ensures forall k :: 0 <= k <= |stages| ==> (stages + [s])[..k] == stages[..k]
  {
    assert (stages + [s])[..|stages|] == stages;
  }

  lemma {:induction false} ProgressStart(cells: seq<Cell>)
    ensures Progressing(cells, [], [], Filter(cells, ExecutableNotIn({})))
  {
    forall c { FilterMember(cells, ExecutableNotIn({}), c); }
  }

  lemma {:induction false} ProgressNext(cells: seq<Cell>, stages: seq<Stage>, executed: seq<Node>, remaining: seq<Cell>,
                                        parallel: bool)
    requires Progressing(cells, stages, executed, remaining)
    requires Filter(remaining, DependsOnlyOn(executed)) != []
    ensures var ids := Ids(Filter(remaining, DependsOnlyOn(executed)));
            Progressing(cells, stages + [Stage(|stages|, ids, parallel)], executed + ids,
                        Filter(remaining, IdNotIn(ids)))
  {
    var ready := Filter(remaining, DependsOnlyOn(executed));
    var ids := Ids(ready);
    var stage := Stage(|stages|, ids, parallel);
    DagOrderSnoc(stages, stage);
    forall id | id in ids ensures HasWhatItNeeds(cells, id, executed) && RunnableId(cells, id) {
      IdsMember(ready, id);
      var c :| c in ready && c.id == id;
      FilterMember(remaining, DependsOnlyOn(executed), c);
    }
    assert (stages + [stage])[..|stages|] == stages && stages[..|stages|] == stages;
    forall k | 0 <= k < |stages| ensures RunsAfterNeeds(cells, stages + [stage], k) {
      assert RunsAfterNeeds(cells, stages, k);
    }
    forall c ensures c in Filter(remaining, IdNotIn(ids)) <==>
                     c in cells && c.cellType != "markdown" && c.id !in executed + ids
    {
      FilterMember(remaining, IdNotIn(ids), c);
    }
  }

  /** When no cell is ready the rest becomes one sequential stage. */
  lemma {:induction false} ProgressFallback(cells: seq<Cell>, stages: seq<Stage>, executed: seq<Node>,
                                            remaining: seq<Cell>)
    requires Progressing(cells, stages, executed, remaining) && remaining != []
    requires Filter(remaining, DependsOnlyOn(executed)) == []
    ensures var all := stages + [Stage(|stages|, Ids(remaining), false)];
            SoundStages(cells, all) && forall id :: id in DagOrder(all) <==> RunnableId(cells, id)
  {
    var stage := Stage(|stages|, Ids(remaining), false);
    var all := stages + [stage];
    DagOrderSnoc(stages, stage);
    forall id ensures id in DagOrder(all) <==> RunnableId(cells, id) {
      IdsMember(remaining, id);
      if RunnableId(cells, id) && id !in executed {
        var c :| c in cells && c.cellType != "markdown" && c.id == id;
        assert c in remaining;
      }
    }
    forall c | c in cells && c.cellType != "markdown" && c.id !in executed
      ensures exists d :: d in c.dependsOn && d !in executed
    {
      FilterMember(remaining, DependsOnlyOn(executed), c);
    }
    assert all[..|stages|] == stages;
    forall k | 0 <= k < |stages| ensures RunsAfterNeeds(cells, all, k) { assert RunsAfterNeeds(cells, stages, k); }
  }

  lemma {:induction false} ProgressEnd(cells: seq<Cell>, stages: seq<Stage>, executed: seq<Node>)
    requires Progressing(cells, stages, executed, [])
    ensures SoundStages(cells, stages) && forall id :: id in DagOrder(stages) <==> RunnableId(cells, id)
  {
  }

  /** Builds the stages round by round. It terminates on every notebook, whatever its ids, and then the
      stages run every id of an executable cell, and no other. */
  method BuildExecutionPlan(cells: seq<Cell>) returns (stages: seq<Stage>)
    ensures DistinctIds(cells) ==> IsPlan(cells, stages)
    ensures SoundStages(cells, stages) && forall id :: id in DagOrder(stages) <==> RunnableId(cells, id)
  {
    stages := [];
    var executed: seq<Node> := [];
    var remaining := Filter(cells, ExecutableNotIn({}));
    assert Elements(executed) == {};
    ProgressStart(cells);
    while remaining != []
      invariant Progressing(cells, stages, executed, remaining)
      invariant DistinctIds(cells) ==> Staging(cells, stages, executed, remaining)
      decreases |remaining|
    {
      var ready := Filter(remaining, DependsOnlyOn(executed));
      if DistinctIds(cells) { ReadyCells(cells, executed, |stages|); }
      if ready == [] {
        ProgressFallback(cells, stages, executed, remaining);
        if DistinctIds(cells) { StageFallback(cells, stages, executed, remaining); }
        stages := stages + [Stage(|stages|, Ids(remaining), false)];
        return;
      }
      var parallel := |ready| > 1 && forall c :: c in ready ==> c.cellType == SQL;
      if DistinctIds(cells) { StageStep(cells, stages, executed, remaining, ready, parallel); }
      ReadyLeave(remaining, DependsOnlyOn(executed));
      ProgressNext(cells, stages, executed, remaining, parallel);
      var ids := Ids(ready);
      stages := stages + [Stage(|stages|, ids, parallel)];
      executed := executed + ids;
      remaining := Filter(remaining, IdNotIn(ids));
    }
    ProgressEnd(cells, stages, executed);
    if DistinctIds(cells) { StageEnd(cells, stages, executed); }
  }

  lemma {:induction false} ChosenDistinct(cells: seq<Cell>, keep: Cell -> bool)
    requires DistinctIds(cells)
    ensures NoDuplicates(Ids(Filter(cells, keep)))
  {
    if cells != [] {
      ChosenDistinct(cells[1..], keep);
      var rest := Filter(cells[1..], keep);
      forall i | 0 <= i < |rest|
        ensures rest[i].id != cells[0].id
      {
        FilterMember(cells[1..], keep, rest[i]);
        assert rest[i] in rest;
        var j :| 0 <= j < |cells[1..]| && cells[1..][j] == rest[i];
        assert cells[j + 1] == rest[i];
      }
      if keep(cells[0]) {
        assert Ids(Filter(cells, keep)) == [cells[0].id] + Ids(rest);
      } else {
        assert Filter(cells, keep) == rest;
      }
    }
  }

  /** Appending a batch whose dependencies are all already there keeps dependencies first. */
  lemma {:induction false} AppendBatch(g: Graph, order: seq<Node>, batch: seq<Node>)
    requires NoDuplicates(order) && NoDuplicates(batch) && Elements(order) !! Elements(batch)
    ensures NoDuplicates(order + batch)
    ensures Elements(order + batch) == Elements(order) + Elements(batch)
    ensures DepsFirst(g, order) && (forall n :: n in batch ==> DepSet(g, n) <= Elements(order)) ==>
              DepsFirst(g, order + batch)
  {
    var all := order + batch;
    forall i, j | 0 <= i < j < |all|
      ensures all[i] != all[j]
    {
      if i < |order| <= j { assert all[i] in Elements(order) && all[j] in Elements(batch); }
    }
    if DepsFirst(g, order) && forall n :: n in batch ==> DepSet(g, n) <= Elements(order) {
      forall i, d | 0 <= i < |all| && d in Deps(g, all[i])
        ensures d in all[..i]
      {
        if i < |order| {
          assert all[..i] == order[..i];
        } else {
          assert all[i] in batch && d in DepSet(g, all[i]);
          assert all[..i][..|order|] == order;
        }
      }
    }
  }

  lemma {:induction false} LevelsApart(g: Graph, k: nat)
    ensures Below(g, k) !! Level(g, k)
  {
    forall n | n in Level(g, k) { LevelDepsBelow(g, n, k); }
  }

  lemma {:induction false} StagedOrder(cells: seq<Cell>, stages: seq<Stage>)
    requires DistinctIds(cells) && Staged(cells, stages)
    ensures var order := DagOrder(stages);
            && NoDuplicates(order) && Elements(order) == Below(CellGraph(cells), |stages|)
            && DepsFirst(CellGraph(cells), order)
  {
    var g := CellGraph(cells);
    if stages == [] {
      assert Elements<Node>([]) == {};
    } else {
      var k := |stages| - 1;
      assert StageAt(cells, stages, k);
      StagedPrefix(cells, stages, k);
      StagedOrder(cells, stages[..k]);
      ChosenIds(cells, Level(g, k));
      ChosenDistinct(cells, ExecutableIn(Level(g, k)));
      ReadySetIsLevel(g, k);
      LevelsApart(g, k);
      forall n | n in Level(g, k) { LevelDepsBelow(g, n, k); }
      assert forall n :: n in stages[k].cellIds ==> n in Elements(stages[k].cellIds);
      AppendBatch(g, DagOrder(stages[..k]), stages[k].cellIds);
    }
  }

  lemma {:induction false} StagedPrefix(cells: seq<Cell>, stages: seq<Stage>, k: nat)
    requires Staged(cells, stages) && k <= |stages|
    ensures Staged(cells, stages[..k])
  {
    forall j | 0 <= j < k
      ensures StageAt(cells, stages[..k], j)
    {
      assert StageAt(cells, stages, j);
    }
  }

  /** Every node that can be satisfied comes after everything it depends on. */
  ghost predicate SatisfiableInOrder(g: Graph, order: seq<Node>) {
    forall i :: 0 <= i < |order| && !Blocked(g, order[i]) ==> DepSet(g, order[i]) <= Elements(order[..i])
  }

  lemma {:induction false} BlockedLast(g: Graph, settled: seq<Node>, blocked: seq<Node>)
    requires DepsFirst(g, settled) && forall n :: n in blocked ==> Blocked(g, n)
    ensures SatisfiableInOrder(g, settled + blocked)
  {
    var order := settled + blocked;
    forall i | 0 <= i < |order| && !Blocked(g, order[i])
      ensures DepSet(g, order[i]) <= Elements(order[..i])
    {
      if i < |settled| { assert order[..i] == settled[..i]; }
    }
  }

  /** Every executable cell runs exactly once, and every cell that can be satisfied runs after
      everything it depends on. */
  lemma {:induction false} PlanRunsEachCellOnce(cells: seq<Cell>, stages: seq<Stage>)
    requires DistinctIds(cells) && IsPlan(cells, stages)
    ensures NoDuplicates(DagOrder(stages))
    ensures Elements(DagOrder(stages)) == CellGraph(cells).Keys
    ensures SatisfiableInOrder(CellGraph(cells), DagOrder(stages))
  {
    if BlockedIds(CellGraph(cells)) == {} {
      PlanWithoutFallback(cells, stages);
    } else {
      PlanWithFallback(cells, stages);
    }
  }

  lemma {:induction false} PlanWithoutFallback(cells: seq<Cell>, stages: seq<Stage>)
    requires DistinctIds(cells) && IsPlan(cells, stages) && BlockedIds(CellGraph(cells)) == {}
    ensures NoDuplicates(DagOrder(stages)) && Elements(DagOrder(stages)) == CellGraph(cells).Keys
    ensures SatisfiableInOrder(CellGraph(cells), DagOrder(stages))
  {
    StagedOrder(cells, stages);
    BlockedLast(CellGraph(cells), DagOrder(stages), []);
    assert DagOrder(stages) + [] == DagOrder(stages);
  }

  lemma {:induction false} PlanWithFallback(cells: seq<Cell>, stages: seq<Stage>)
    requires DistinctIds(cells) && IsPlan(cells, stages) && BlockedIds(CellGraph(cells)) != {}
    ensures NoDuplicates(DagOrder(stages)) && Elements(DagOrder(stages)) == CellGraph(cells).Keys
    ensures SatisfiableInOrder(CellGraph(cells), DagOrder(stages))
  {
    var g := CellGraph(cells);
    var last := |stages| - 1;
    StagedOrder(cells, stages[..last]);
    ChosenIds(cells, BlockedIds(g));
    ChosenDistinct(cells, ExecutableIn(BlockedIds(g)));
    AppendBatch(g, DagOrder(stages[..last]), stages[last].cellIds);
    assert forall n :: n in stages[last].cellIds ==> n in Elements(stages[last].cellIds);
    BlockedLast(g, DagOrder(stages[..last]), stages[last].cellIds);
  }

  /** The stage a satisfiable cell runs in is the length of its longest dependency chain; the
      others are all in the last stage, and nothing else is. */
  lemma {:induction false} StageIsLongestChain(cells: seq<Cell>, stages: seq<Stage>, k: nat, n: Node)
    requires DistinctIds(cells) && IsPlan(cells, stages)
    requires k < |stages| && n in stages[k].cellIds
    ensures var g := CellGraph(cells);
            && n in g
            && (if BlockedIds(g) != {} && k == |stages| - 1 then Blocked(g, n)
                else !Blocked(g, n) && LongestChain(g, n, k))
  {
    var g := CellGraph(cells);
    assert n in Elements(stages[k].cellIds);
    if BlockedIds(g) == {} {
      ChosenLevel(cells, stages, k);
    } else if k == |stages| - 1 {
      ChosenIds(cells, BlockedIds(g));
    } else {
      ChosenLevel(cells, stages[..|stages| - 1], k);
    }
  }

  lemma {:induction false} ChosenLevel(cells: seq<Cell>, stages: seq<Stage>, k: nat)
    requires Staged(cells, stages) && k < |stages|
    ensures Elements(stages[k].cellIds) == Level(CellGraph(cells), k)
  {
    assert StageAt(cells, stages, k);
    ChosenIds(cells, Level(CellGraph(cells), k));
  }
}
