/** One pass of the background scheduler over the executable tables: which jobs run, which are
    skipped because nothing upstream changed, and how fresh the tables are afterwards. */
module Scheduler {
  import opened Sequences
  import opened VersionHistory

  datatype Table = Table(
    name: string, kind: string, inputs: seq<string>, lastRefresh: Option<nat>,
    skipped: nat, health: string, history: History)

  datatype Job = Job(enabled: bool, jobType: string, nextRun: Option<nat>, target: string)

  /** How running a transform ends; gates count as passed when there are none. */
  datatype Outcome = Fails | GatesFail | Passes

  /** What a job meets: the clock when it is looked at, how its transform ends, and the clock when
      the result is stamped. */
  datatype Circumstances = Circumstances(checked: nat, outcome: Outcome, stamped: nat)

  const EXECUTABLE_TABLE := "executable_table"
  const SQL := "sql"
  const WARNING := "warning"
  const HEALTHY := "healthy"

  /** The position of the first table of that name, or the number of tables. */
  function IndexOf(tables: seq<Table>, name: string): (i: nat)
    ensures i <= |tables|
    ensures i < |tables| ==> tables[i].name == name
    ensures forall j :: 0 <= j < i ==> tables[j].name != name
  {
    if tables == [] || tables[0].name == name then 0 else 1 + IndexOf(tables[1..], name)
  }

  predicate Due(job: Job, now: nat) {
    job.enabled && job.jobType == EXECUTABLE_TABLE && (job.nextRun.Some? ==> job.nextRun.value <= now)
  }

  /** An input forces a run if it is a known table refreshed later, or either side has never been
      refreshed. Unknown inputs never do. */
  predicate Changed(tables: seq<Table>, t: Table, input: string) {
    var i := IndexOf(tables, input);
    i < |tables| &&
    (t.lastRefresh.Some? && tables[i].lastRefresh.Some? ==> tables[i].lastRefresh.value > t.lastRefresh.value)
  }

  predicate UpstreamChanged(tables: seq<Table>, t: Table) {
    exists input :: input in t.inputs && Changed(tables, t, input)
  }

  /** The table after its transform ran. */
  function AfterRun(t: Table, fallBack: Option<Version>, c: Circumstances): Table {
    match c.outcome
    case Fails => t
    case GatesFail =>
      if fallBack.None? then t
      else t.(history := Heal(t.history, fallBack.value, ""), health := WARNING)
    case Passes => t.(lastRefresh := Some(c.stamped), health := if t.health == WARNING then HEALTHY else t.health)
  }

  function AfterJob(tables: seq<Table>, job: Job, c: Circumstances): seq<Table> {
    var i := IndexOf(tables, job.target);
    if !Due(job, c.checked) || i == |tables| then tables
    else
      var t := tables[i];
      if t.inputs != [] && !UpstreamChanged(tables, t) then tables[i := t.(skipped := t.skipped + 1)]
      else if t.kind == SQL then tables[i := AfterRun(t, FallBack(t.history.versions), c)]
      else tables
  }

  function AfterJobs(tables: seq<Table>, jobs: seq<Job>, cs: seq<Circumstances>): seq<Table>
    requires |jobs| == |cs|
  {
    if jobs == [] then tables
    else
      var last := |jobs| - 1;
      AfterJob(AfterJobs(tables, jobs[..last], cs[..last]), jobs[last], cs[last])
  }

  /** The scheduler's shared list of executable tables. */
  class ExecutableTables {
    var tables: seq<Table>

    constructor (tables: seq<Table>)
      ensures this.tables == tables
    {
      this.tables := tables;
    }

    /** One pass over the jobs. Tables are looked up afresh for every read and every write. The
        tables stay the same tables. The target of a job that runs well, and of no later due job, ends
        up no older than any known input exactly if no later job overtakes it; in dependency order
        none does. */
    method Tick(jobs: seq<Job>, cs: seq<Circumstances>)
      requires |jobs| == |cs|
      modifies this
      ensures tables == AfterJobs(old(tables), jobs, cs)
      ensures SameTables(old(tables), tables)
      ensures ClockAdvances(old(tables), cs) ==>
                forall k :: 0 <= k < |jobs| && Settles(old(tables), jobs, cs, k) ==>
                  (Fresh(tables, jobs[k].target) <==>
                   NoneOvertakes(old(tables), jobs, cs, jobs[k].target, k + 1, |jobs|))
      ensures ClockAdvances(old(tables), cs) && InDependencyOrder(old(tables), jobs, cs) ==>
                forall k :: 0 <= k < |jobs| && RunsWell(jobs[k], cs[k]) ==> Fresh(tables, jobs[k].target)
    {
      for k := 0 to |jobs|
        invariant tables == AfterJobs(old(tables), jobs[..k], cs[..k])
      {
        assert jobs[..k + 1][..k] == jobs[..k] && cs[..k + 1][..k] == cs[..k];
        RunJob(jobs[k], cs[k]);
      }
      assert jobs[..|jobs|] == jobs && cs[..|cs|] == cs;
      TickKeepsTables(old(tables), jobs, cs);
      if ClockAdvances(old(tables), cs) {
        forall k | 0 <= k < |jobs| && Settles(old(tables), jobs, cs, k)
          ensures Fresh(tables, jobs[k].target) <==>
                  NoneOvertakes(old(tables), jobs, cs, jobs[k].target, k + 1, |jobs|)
        {
          TickFreshIff(old(tables), jobs, cs, k);
        }
      }
      if ClockAdvances(old(tables), cs) && InDependencyOrder(old(tables), jobs, cs) {
        forall k | 0 <= k < |jobs| && RunsWell(jobs[k], cs[k])
          ensures Fresh(tables, jobs[k].target)
        {
          TickLeavesTablesFresh(old(tables), jobs, cs, k);
        }
      }
    }

    /** One job. A job that is not due, or on an unknown table, does nothing. One whose target is no
        older than its inputs, all of them refreshed before, is skipped. An SQL transform that passes
        stamps its target; one whose gates fail restores the last but one deliberate version, if there
        are two, as the history's own round of read and commit does; one that fails changes nothing. No
        other table is touched, and no table is renamed or rewired. */
    method RunJob(job: Job, c: Circumstances)
      modifies this
      ensures tables == AfterJob(old(tables), job, c)
      ensures SameTables(old(tables), tables)
      ensures forall j :: 0 <= j < |tables| && j != IndexOf(old(tables), job.target) ==> tables[j] == old(tables)[j]
      ensures !job.enabled || job.jobType != "executable_table" ==> tables == old(tables)
      ensures job.nextRun.Some? && c.checked < job.nextRun.value ==> tables == old(tables)
      ensures job.enabled && job.jobType == "executable_table" ==>
                (job.nextRun.Some? ==> job.nextRun.value <= c.checked) ==>
                JobDoes(old(tables), IndexOf(old(tables), job.target), job.target, c, tables)
      ensures RunsWell(job, c) && RefreshedBy(old(tables), c.stamped) && TargetIsSql(old(tables), job) ==>
                Fresh(tables, job.target)
    {
      JobTouchesTarget(tables, job, c);
      if Due(job, c.checked) { DueJobDoes(tables, job, c); }
      if RunsWell(job, c) && RefreshedBy(tables, c.stamped) && TargetIsSql(tables, job) {
        JobLeavesTargetFresh(tables, job, c);
      }

      if !job.enabled || job.jobType != EXECUTABLE_TABLE { return; }
      if job.nextRun.Some? && c.checked < job.nextRun.value { return; }
      var i := IndexOf(tables, job.target);
      if i == |tables| { return; }
      var t := tables[i];
      var fallBack := FallBack(t.history.versions);
      var skip := t.inputs != [] && !UpstreamChanged(tables, t);
      if skip {
        tables := tables[i := t.(skipped := t.skipped + 1)];
      } else if t.kind == SQL {
        match c.outcome {
          case Fails =>
            assert tables[i := t] == tables;
          case GatesFail =>
            if fallBack.Some? {
              var source := Heal(t.history, fallBack.value, "");
              tables := tables[i := t.(history := source, health := WARNING)];
            } else {
              assert tables[i := t] == tables;
            }
          case Passes =>
            var health := if t.health == WARNING then HEALTHY else t.health;
            tables := tables[i := t.(lastRefresh := Some(c.stamped), health := health)];
        }
      }
    }
  }

  // ---------- Freshness ----------

  predicate NotLater(a: Option<nat>, b: Option<nat>) {
    b.Some? && (a.Some? ==> a.value <= b.value)
  }

  /** No known input of the table was refreshed after it. */
  ghost predicate Fresh(tables: seq<Table>, name: string) {
    var i := IndexOf(tables, name);
    i < |tables| ==> forall input :: input in tables[i].inputs ==> InputNotLater(tables, input, tables[i])
  }

  ghost predicate InputNotLater(tables: seq<Table>, input: string, t: Table) {
    var j := IndexOf(tables, input);
    j < |tables| ==> NotLater(tables[j].lastRefresh, t.lastRefresh)
  }

  ghost predicate SameTables(a: seq<Table>, b: seq<Table>) {
    |a| == |b| && forall i :: 0 <= i < |a| ==>
      a[i].name == b[i].name && a[i].inputs == b[i].inputs && a[i].kind == b[i].kind
  }

  ghost predicate RefreshedBy(tables: seq<Table>, clock: nat) {
    forall i :: 0 <= i < |tables| && tables[i].lastRefresh.Some? ==> tables[i].lastRefresh.value <= clock
  }

  lemma {:induction false} SameIndex(a: seq<Table>, b: seq<Table>, name: string)
    requires SameTables(a, b)
    ensures IndexOf(a, name) == IndexOf(b, name)
  {
    var i, j := IndexOf(a, name), IndexOf(b, name);
  }

  /** A due job whose transform passes if it is run. */
  predicate RunsWell(job: Job, c: Circumstances) {
    Due(job, c.checked) && c.outcome.Passes?
  }

  /** A job touches only its target, and stamps it with the clock or leaves its stamp alone. */
  lemma {:induction false} JobTouchesTarget(tables: seq<Table>, job: Job, c: Circumstances)
    ensures var after := AfterJob(tables, job, c);
            var i := IndexOf(tables, job.target);
            && SameTables(tables, after)
            && (forall j :: 0 <= j < |tables| && j != i ==> after[j] == tables[j])
            && (i < |tables| ==>
                  || after[i].lastRefresh == tables[i].lastRefresh
                  || (Due(job, c.checked) && after[i].lastRefresh == Some(c.stamped)))
  {
  }

  /** Both branches leave the target fresh: running stamps it now, and skipping is only chosen when
      no known input is newer. */
  lemma {:induction false} JobLeavesTargetFresh(tables: seq<Table>, job: Job, c: Circumstances)
    requires RunsWell(job, c) && RefreshedBy(tables, c.stamped) && TargetIsSql(tables, job)
    ensures Fresh(AfterJob(tables, job, c), job.target)
  {
    var after := AfterJob(tables, job, c);
    var i := IndexOf(tables, job.target);
    JobTouchesTarget(tables, job, c);
    SameIndex(tables, after, job.target);
    if i < |tables| {
      forall input | input in after[i].inputs
        ensures InputNotLater(after, input, after[i])
      {
        SameIndex(tables, after, input);
        if tables[i].inputs != [] && !UpstreamChanged(tables, tables[i]) {
          assert !Changed(tables, tables[i], input);
        }
      }
    }
  }

  /** A job on another table keeps a table fresh if that other table is not one of its inputs. */
  lemma {:induction false} JobKeepsOthersFresh(tables: seq<Table>, job: Job, c: Circumstances, name: string)
    requires Fresh(tables, name) && job.target != name
    requires var i := IndexOf(tables, name); i < |tables| && Due(job, c.checked) ==> job.target !in tables[i].inputs
    ensures Fresh(AfterJob(tables, job, c), name)
  {
    var after := AfterJob(tables, job, c);
    JobTouchesTarget(tables, job, c);
    SameIndex(tables, after, name);
    var i := IndexOf(tables, name);
    if i < |tables| {
      forall input | input in after[i].inputs
        ensures InputNotLater(after, input, after[i])
      {
        SameIndex(tables, after, input);
        assert InputNotLater(tables, input, tables[i]);
      }
    }
  }

  /** A job that is run and stamps its target. */
  predicate Restamps(tables: seq<Table>, job: Job, c: Circumstances) {
    var i := IndexOf(tables, job.target);
    && RunsWell(job, c) && i < |tables| && tables[i].kind == SQL
    && (tables[i].inputs == [] || UpstreamChanged(tables, tables[i]))
  }

  /** A job overtakes a table if it stamps one of the table's inputs later than the table itself. */
  ghost predicate Overtakes(tables: seq<Table>, job: Job, c: Circumstances, name: string) {
    && Restamps(tables, job, c) && ReadsFrom(tables, name, job.target)
    && !NotLater(Some(c.stamped), tables[IndexOf(tables, name)].lastRefresh)
  }

  /** All known inputs have been refreshed at some time. */
  ghost predicate KnownInputsStamped(tables: seq<Table>, t: Table) {
    forall input {:trigger IndexOf(tables, input)} :: input in t.inputs && IndexOf(tables, input) < |tables| ==>
      tables[IndexOf(tables, input)].lastRefresh.Some?
  }

  /** What a due job on the table at position `i` leaves behind. */
  ghost predicate JobDoes(before: seq<Table>, i: nat, name: string, c: Circumstances, after: seq<Table>) {
    if i >= |before| then after == before
    else
      var t := before[i];
      if t.inputs != [] && Fresh(before, name) && KnownInputsStamped(before, t) then
        after == before[i := t.(skipped := t.skipped + 1)]
      else if t.kind != "sql" || c.outcome.Fails? then after == before
      else if c.outcome.Passes? then
        var health := if t.health == "warning" then "healthy" else t.health;
        after == before[i := t.(lastRefresh := Some(c.stamped), health := health)]
      else
        && |after| == |before|
        && after[i].history == Act(Act(State(t.history, None), SchedulerRead), SchedulerCommit(true, "")).history
        && if TwoDeliberate(t.history.versions) then
             Healed(t.history, after[i].history) &&
             after == before[i := t.(history := after[i].history, health := "warning")]
           else after == before
  }

  /** A table with inputs is skipped exactly if it is no older than its known inputs and all of these
      have been refreshed. */
  lemma {:induction false} SkippedIff(tables: seq<Table>, name: string)
    ensures var i := IndexOf(tables, name);
            i < |tables| ==>
              (UpstreamChanged(tables, tables[i]) <==>
               !(Fresh(tables, name) && KnownInputsStamped(tables, tables[i])))
  {
    var i := IndexOf(tables, name);
    if i < |tables| {
      var t := tables[i];
      forall input ensures Changed(tables, t, input) <==>
                           !(InputNotLater(tables, input, t)
                             && (IndexOf(tables, input) < |tables| ==>
                                   tables[IndexOf(tables, input)].lastRefresh.Some?))
      {
      }
      if UpstreamChanged(tables, t) {
        var input :| input in t.inputs && Changed(tables, t, input);
        if Fresh(tables, name) { assert InputNotLater(tables, input, t); }
      }
      if !(Fresh(tables, name) && KnownInputsStamped(tables, t)) {
        var input :| input in t.inputs && (!InputNotLater(tables, input, t) ||
                       (IndexOf(tables, input) < |tables| && tables[IndexOf(tables, input)].lastRefresh.None?));
        assert Changed(tables, t, input);
      }
    }
  }

  lemma {:induction false} DueJobDoes(tables: seq<Table>, job: Job, c: Circumstances)
    requires Due(job, c.checked)
    ensures JobDoes(tables, IndexOf(tables, job.target), job.target, c, AfterJob(tables, job, c))
  {
    var i := IndexOf(tables, job.target);
    if i < |tables| {
      var t := tables[i];
      SkippedIff(tables, job.target);
      RoundHealsIff(t.history, None, true, "");
      FallBackIff(t.history.versions);
      assert tables[i := t] == tables;
    }
  }

  /** What a job does to its target's stamp. */
  lemma {:induction false} StampAfter(tables: seq<Table>, job: Job, c: Circumstances)
    ensures var i := IndexOf(tables, job.target);
            i < |tables| ==>
              AfterJob(tables, job, c)[i].lastRefresh ==
              if Restamps(tables, job, c) then Some(c.stamped) else tables[i].lastRefresh
  {
  }

  /** One job on another table: freshness survives exactly if that job does not overtake. */
  lemma {:induction false} OneJobFreshIff(tables: seq<Table>, job: Job, c: Circumstances, name: string)
    requires RefreshedBy(tables, c.stamped) && (Due(job, c.checked) ==> job.target != name)
    ensures Fresh(AfterJob(tables, job, c), name) <==> Fresh(tables, name) && !Overtakes(tables, job, c, name)
  {
    var after, i := AfterJob(tables, job, c), IndexOf(tables, name);
    JobTouchesTarget(tables, job, c);
    SameIndex(tables, after, name);
    if i < |tables| {
      assert after[i].lastRefresh == tables[i].lastRefresh;
      forall input ensures InputNotLater(after, input, after[i]) <==>
                           InputNotLater(tables, input, tables[i]) &&
                           !(input == job.target && Restamps(tables, job, c)
                             && !NotLater(Some(c.stamped), tables[i].lastRefresh))
      {
        InputAfterJob(tables, job, c, input, tables[i], after[i]);
      }
    }
  }

  /** An input that is stamped again is stamped no earlier than before. */
  lemma {:induction false} InputAfterJob(tables: seq<Table>, job: Job, c: Circumstances, input: string, t: Table,
                                         t': Table)
    requires RefreshedBy(tables, c.stamped) && t'.lastRefresh == t.lastRefresh
    ensures InputNotLater(AfterJob(tables, job, c), input, t') <==>
            InputNotLater(tables, input, t) &&
            !(input == job.target && Restamps(tables, job, c) && !NotLater(Some(c.stamped), t.lastRefresh))
  {
    JobTouchesTarget(tables, job, c);
    SameIndex(tables, AfterJob(tables, job, c), input);
    StampAfter(tables, job, c);
  }

  /** The tables after the first `n` jobs of a pass. */
  function Before(tables: seq<Table>, jobs: seq<Job>, cs: seq<Circumstances>, n: nat): seq<Table>
    requires |jobs| == |cs| && n <= |jobs|
  {
    AfterJobs(tables, jobs[..n], cs[..n])
  }

  lemma {:induction false} BeforeNext(tables: seq<Table>, jobs: seq<Job>, cs: seq<Circumstances>, n: nat)
    requires |jobs| == |cs| && n < |jobs|
    ensures Before(tables, jobs, cs, n + 1) == AfterJob(Before(tables, jobs, cs, n), jobs[n], cs[n])
    ensures Before(tables, jobs, cs, 0) == tables && Before(tables, jobs, cs, |jobs|) == AfterJobs(tables, jobs, cs)
  {
    assert jobs[..n + 1][..n] == jobs[..n] && cs[..n + 1][..n] == cs[..n];
    assert jobs[..|jobs|] == jobs && cs[..|cs|] == cs;
  }

  ghost predicate OvertakenBy(tables: seq<Table>, jobs: seq<Job>, cs: seq<Circumstances>, name: string, j: nat)
    requires |jobs| == |cs| && j < |jobs|
  {
    Overtakes(Before(tables, jobs, cs, j), jobs[j], cs[j], name)
  }

  ghost predicate NoneOvertakes(tables: seq<Table>, jobs: seq<Job>, cs: seq<Circumstances>, name: string, m: nat,
                                n: nat)
    requires |jobs| == |cs| && n <= |jobs|
  {
    forall j :: m <= j < n ==> !OvertakenBy(tables, jobs, cs, name, j)
  }

  /** No due job from position `m` on has the table as its target. */
  ghost predicate LeftAlone(jobs: seq<Job>, cs: seq<Circumstances>, name: string, m: nat)
    requires |jobs| == |cs|
  {
    forall j :: m <= j < |jobs| && Due(jobs[j], cs[j].checked) ==> jobs[j].target != name
  }

  /** Job `k` runs well on an SQL table, and is the last due job on it. */
  ghost predicate Settles(tables: seq<Table>, jobs: seq<Job>, cs: seq<Circumstances>, k: nat)
    requires |jobs| == |cs| && k < |jobs|
  {
    RunsWell(jobs[k], cs[k]) && TargetIsSql(tables, jobs[k]) && LeftAlone(jobs, cs, jobs[k].target, k + 1)
  }

  /** In any order of jobs, whatever their outcomes: a table that the jobs from `m` to `n` leave alone
      is fresh after them exactly if it was fresh before and none of them overtakes it. */
  lemma {:induction false} FreshBetweenIff(tables: seq<Table>, jobs: seq<Job>, cs: seq<Circumstances>, name: string,
                                           m: nat, n: nat)
    requires |jobs| == |cs| && m <= n <= |jobs| && ClockAdvances(tables, cs) && LeftAlone(jobs, cs, name, m)
    ensures Fresh(Before(tables, jobs, cs, n), name) <==>
            Fresh(Before(tables, jobs, cs, m), name) && NoneOvertakes(tables, jobs, cs, name, m, n)
    decreases n
  {
    if m < n {
      FreshBetweenIff(tables, jobs, cs, name, m, n - 1);
      FreshNextIff(tables, jobs, cs, name, n - 1);
      NoneOvertakesNext(tables, jobs, cs, name, m, n - 1);
    }
  }

  lemma {:induction false} FreshNextIff(tables: seq<Table>, jobs: seq<Job>, cs: seq<Circumstances>, name: string,
                                        n: nat)
    requires |jobs| == |cs| && n < |jobs| && ClockAdvances(tables, cs)
    requires Due(jobs[n], cs[n].checked) ==> jobs[n].target != name
    ensures Fresh(Before(tables, jobs, cs, n + 1), name) <==>
            Fresh(Before(tables, jobs, cs, n), name) && !OvertakenBy(tables, jobs, cs, name, n)
  {
    BeforeNext(tables, jobs, cs, n);
    StampsSoFar(tables, jobs[..n], cs[..n], cs[n].stamped);
    OneJobFreshIff(Before(tables, jobs, cs, n), jobs[n], cs[n], name);
  }

  lemma {:induction false} NoneOvertakesNext(tables: seq<Table>, jobs: seq<Job>, cs: seq<Circumstances>, name: string,
                                             m: nat, n: nat)
    requires |jobs| == |cs| && m <= n < |jobs|
    ensures NoneOvertakes(tables, jobs, cs, name, m, n + 1) <==>
            NoneOvertakes(tables, jobs, cs, name, m, n) && !OvertakenBy(tables, jobs, cs, name, n)
  {
  }

  /** The exact condition, in any order of jobs: the target of a job that runs well is fresh at the end
      of the pass exactly if no later job overtakes it. */
  lemma {:induction false} TickFreshIff(tables: seq<Table>, jobs: seq<Job>, cs: seq<Circumstances>, k: nat)
    requires |jobs| == |cs| && ClockAdvances(tables, cs) && k < |jobs| && Settles(tables, jobs, cs, k)
    ensures Fresh(AfterJobs(tables, jobs, cs), jobs[k].target) <==>
            NoneOvertakes(tables, jobs, cs, jobs[k].target, k + 1, |jobs|)
  {
    var before := Before(tables, jobs, cs, k);
    BeforeNext(tables, jobs, cs, k);
    TickKeepsTables(tables, jobs[..k], cs[..k]);
    SameIndex(tables, before, jobs[k].target);
    StampsSoFar(tables, jobs[..k], cs[..k], cs[k].stamped);
    JobLeavesTargetFresh(before, jobs[k], cs[k]);
    FreshBetweenIff(tables, jobs, cs, jobs[k].target, k + 1, |jobs|);
  }

  /** The schedule: due jobs name distinct SQL tables, each after the due jobs of its inputs. */
  ghost predicate InDependencyOrder(tables: seq<Table>, jobs: seq<Job>, cs: seq<Circumstances>)
    requires |jobs| == |cs|
  {
    && (forall j, k :: 0 <= j < k < |jobs| && Due(jobs[j], cs[j].checked) && Due(jobs[k], cs[k].checked) ==>
         jobs[j].target != jobs[k].target)
    && (forall k :: 0 <= k < |jobs| && Due(jobs[k], cs[k].checked) ==> TargetIsSql(tables, jobs[k]))
    && (forall j, k :: 0 <= j < |jobs| && 0 <= k < |jobs| &&
                       Due(jobs[j], cs[j].checked) && Due(jobs[k], cs[k].checked) ==>
          ReadsFrom(tables, jobs[k].target, jobs[j].target) ==> j < k)
  }

  ghost predicate TargetIsSql(tables: seq<Table>, job: Job) {
    var i := IndexOf(tables, job.target);
    i < |tables| ==> tables[i].kind == SQL
  }

  ghost predicate ReadsFrom(tables: seq<Table>, name: string, input: string) {
    var i := IndexOf(tables, name);
    i < |tables| && input in tables[i].inputs
  }

  /** No stamp lies ahead of the clock, and the clock does not go back during the pass. */
  ghost predicate ClockAdvances(tables: seq<Table>, cs: seq<Circumstances>) {
    && (forall k :: 0 <= k < |cs| ==> RefreshedBy(tables, cs[k].stamped))
    && (forall j, k :: 0 <= j < k < |cs| ==> cs[j].stamped <= cs[k].stamped)
  }

  lemma {:induction false} TickKeepsTables(tables: seq<Table>, jobs: seq<Job>, cs: seq<Circumstances>)
    requires |jobs| == |cs|
    ensures SameTables(tables, AfterJobs(tables, jobs, cs))
  {
    if jobs != [] {
      var last := |jobs| - 1;
      TickKeepsTables(tables, jobs[..last], cs[..last]);
      JobTouchesTarget(AfterJobs(tables, jobs[..last], cs[..last]), jobs[last], cs[last]);
    }
  }

  /** The stamps after a pass lie no further ahead than the clock at its end. */
  lemma {:induction false} StampsSoFar(tables: seq<Table>, jobs: seq<Job>, cs: seq<Circumstances>, clock: nat)
    requires |jobs| == |cs| && RefreshedBy(tables, clock) && forall k :: 0 <= k < |cs| ==> cs[k].stamped <= clock
    ensures RefreshedBy(AfterJobs(tables, jobs, cs), clock)
  {
    if jobs != [] {
      var last := |jobs| - 1;
      StampsSoFar(tables, jobs[..last], cs[..last], clock);
      JobTouchesTarget(AfterJobs(tables, jobs[..last], cs[..last]), jobs[last], cs[last]);
    }
  }

  /** One pass leaves no table whose job ran well with a known input refreshed later than itself,
      even if other jobs failed. */
  lemma {:induction false} TickLeavesTablesFresh(tables: seq<Table>, jobs: seq<Job>, cs: seq<Circumstances>, k: nat)
    requires |jobs| == |cs| && ClockAdvances(tables, cs) && InDependencyOrder(tables, jobs, cs)
    requires k < |jobs| && RunsWell(jobs[k], cs[k])
    ensures Fresh(AfterJobs(tables, jobs, cs), jobs[k].target)
  {
    assert TargetIsSql(tables, jobs[k]);
    forall j | k < j < |jobs| ensures !OvertakenBy(tables, jobs, cs, jobs[k].target, j) {
      TickKeepsTables(tables, jobs[..j], cs[..j]);
      SameIndex(tables, Before(tables, jobs, cs, j), jobs[k].target);
      if Due(jobs[j], cs[j].checked) { assert !ReadsFrom(tables, jobs[k].target, jobs[j].target); }
    }
    TickFreshIff(tables, jobs, cs, k);
  }

  /** Outside that order it depends on how the later job ends: where `down` is run before its input
      `up`, it is stale after the pass exactly if the job of `up` passes. */
  lemma {:induction false} WrongOrderLeavesStaleTable(clock: nat, later: Outcome)
    ensures var h := History([], "");
            var up := Table("up", SQL, [], None, 0, HEALTHY, h);
            var down := Table("down", SQL, ["up"], None, 0, HEALTHY, h);
            var tables := [up, down];
            var jobs := [Job(true, EXECUTABLE_TABLE, None, "down"), Job(true, EXECUTABLE_TABLE, None, "up")];
            var cs := [Circumstances(clock, Passes, clock), Circumstances(clock + 1, later, clock + 1)];
            && ClockAdvances(tables, cs) && !InDependencyOrder(tables, jobs, cs)
            && (Fresh(AfterJobs(tables, jobs, cs), "down") <==> !later.Passes?)
  {
    var h := History([], "");
    var up, down := Table("up", SQL, [], None, 0, HEALTHY, h), Table("down", SQL, ["up"], None, 0, HEALTHY, h);
    var tables := [up, down];
    var jobs := [Job(true, EXECUTABLE_TABLE, None, "down"), Job(true, EXECUTABLE_TABLE, None, "up")];
    var cs := [Circumstances(clock, Passes, clock), Circumstances(clock + 1, later, clock + 1)];
    TwoTables(up, down);
    assert ReadsFrom(tables, jobs[0].target, jobs[1].target);
    DownRuns(up, down, jobs[0], cs[0]);
    BeforeNext(tables, jobs, cs, 0);
    UpOvertakes(up, down.(lastRefresh := Some(clock)), jobs[1], cs[1]);
    TickFreshIff(tables, jobs, cs, 0);
    assert OvertakenBy(tables, jobs, cs, "down", 1) <==> later.Passes?;
  }

  lemma {:induction false} DownRuns(up: Table, down: Table, job: Job, c: Circumstances)
    requires up.name == "up" && down.name == "down" && down.kind == SQL && down.health == HEALTHY
    requires down.inputs == ["up"] && down.lastRefresh == None && RunsWell(job, c) && job.target == "down"
    ensures AfterJob([up, down], job, c) == [up, down.(lastRefresh := Some(c.stamped))]
  {
    TwoTables(up, down);
    assert "up" in down.inputs && Changed([up, down], down, "up");
  }

  lemma {:induction false} UpOvertakes(up: Table, down: Table, job: Job, c: Circumstances)
    requires up.name == "up" && down.name == "down" && up.kind == SQL && up.inputs == [] && down.inputs == ["up"]
    requires Due(job, c.checked) && job.target == "up" && down.lastRefresh.Some? && down.lastRefresh.value < c.stamped
    ensures Overtakes([up, down], job, c, "down") <==> c.outcome.Passes?
  {
    TwoTables(up, down);
  }

  lemma {:induction false} TwoTables(up: Table, down: Table)
    requires up.name == "up" && down.name == "down"
    ensures IndexOf([up, down], "up") == 0 && IndexOf([up, down], "down") == 1
  {
    assert [up, down][1..] == [down];
  }
}
