/** Reading a table as of an earlier moment: which snapshot a timestamp resolves to, and which files
    belong to a snapshot and its ancestors. */
module TimeTravel {
  import opened IcebergRuns
  import opened IcebergTable
  import opened Sequences

  datatype SnapshotRef = Latest | ById(id: nat) | ByTimestamp(timestamp: nat)

  /** The newest snapshot at or before a moment; among equal timestamps the last one listed. */
  function NewestUntil(snapshots: seq<Snapshot>, timestamp: nat): Option<Snapshot> {
    if snapshots == [] then None
    else
      var last := snapshots[|snapshots| - 1];
      var earlier := NewestUntil(snapshots[..|snapshots| - 1], timestamp);
      if last.timestamp <= timestamp && (earlier.None? || earlier.value.timestamp <= last.timestamp)
      then Some(last)
      else earlier
  }

  function Resolve(m: Metadata, ref: SnapshotRef): Option<Snapshot> {
    match ref
    case Latest => (match m.currentSnapshot case Some(id) => Find(m.snapshots, id) case None => None)
    case ById(id) => Find(m.snapshots, id)
    case ByTimestamp(ts) => NewestUntil(m.snapshots, ts)
  }

  lemma {:induction false} FindIsIn(snapshots: seq<Snapshot>, id: nat)
    ensures var r := Find(snapshots, id);
            if r.Some? then r.value in snapshots && r.value.id == id else forall s :: s in snapshots ==> s.id != id
  {
    if snapshots != [] { FindIsIn(snapshots[1..], id); }
  }

  /** In every healthy table asking for the latest snapshot gives the newest one, and asking for an id
      gives the one snapshot of that id, or none if none is listed. */
  lemma {:induction false} ResolvesLatestAndId(m: Metadata, id: nat)
    requires SnapshotsHealthy(m)
    ensures Resolve(m, Latest) == Some(Last(m)) && forall s :: s in m.snapshots ==> s.timestamp <= Last(m).timestamp
    ensures forall s :: s in m.snapshots && s.id == id ==> Resolve(m, ById(id)) == Some(s)
    ensures Resolve(m, ById(id)).None? <==> forall s :: s in m.snapshots ==> s.id != id
  {
    FindAt(m.snapshots, |m.snapshots| - 1);
    FindIsIn(m.snapshots, id);
    forall s | s in m.snapshots && s.id == id ensures Find(m.snapshots, id) == Some(s) {
      var i :| 0 <= i < |m.snapshots| && m.snapshots[i] == s;
      FindAt(m.snapshots, i);
    }
    forall s | s in m.snapshots ensures s.timestamp <= Last(m).timestamp {
      var i :| 0 <= i < |m.snapshots| && m.snapshots[i] == s;
    }
  }

  /** How many snapshots existed at a moment, when the list is in time order. */
  function CountUntil(snapshots: seq<Snapshot>, timestamp: nat): (n: nat)
    ensures n <= |snapshots|
  {
    if snapshots == [] then 0
    else if snapshots[|snapshots| - 1].timestamp <= timestamp then |snapshots|
    else CountUntil(snapshots[..|snapshots| - 1], timestamp)
  }

  lemma {:induction false} NewestIsLastUntil(snapshots: seq<Snapshot>, timestamp: nat)
    requires Ascending(snapshots)
    ensures var n := CountUntil(snapshots, timestamp);
            && NewestUntil(snapshots, timestamp) == (if n == 0 then None else Some(snapshots[n - 1]))
            && (n == 0 <==> snapshots == [] || timestamp < snapshots[0].timestamp)
  {
    if snapshots != [] { NewestIsLastUntil(snapshots[..|snapshots| - 1], timestamp); }
  }

  lemma {:induction false} CountInSuffix(snapshots: seq<Snapshot>, k: nat, timestamp: nat)
    requires Ascending(snapshots) && k < |snapshots| && snapshots[k].timestamp <= timestamp
    ensures CountUntil(snapshots[k..], timestamp) + k == CountUntil(snapshots, timestamp)
  {
    var last := |snapshots| - 1;
    if timestamp < snapshots[last].timestamp {
      CountInSuffix(snapshots[..last], k, timestamp);
      assert snapshots[..last][k..] == snapshots[k..][..last - k];
    }
  }

  lemma {:induction false} NewestInSuffix(snapshots: seq<Snapshot>, k: nat, timestamp: nat)
    requires Ascending(snapshots) && k < |snapshots| && snapshots[k].timestamp <= timestamp
    ensures NewestUntil(snapshots[k..], timestamp) == NewestUntil(snapshots, timestamp)
  {
    NewestIsLastUntil(snapshots, timestamp);
    NewestIsLastUntil(snapshots[k..], timestamp);
    CountInSuffix(snapshots, k, timestamp);
  }

  lemma {:induction false} NewestIsCurrent(m: Metadata, timestamp: nat)
    requires SnapshotsHealthy(m) && Last(m).timestamp <= timestamp
    ensures NewestUntil(m.snapshots, timestamp) == Some(Last(m))
  {
    NewestIsLastUntil(m.snapshots, timestamp);
  }

  function Reaches(t: Table, timestamp: nat): bool {
    t.meta.snapshots != [] && t.meta.snapshots[0].timestamp <= timestamp
  }

  /** A step at a later moment does not change what an earlier timestamp resolves to, unless the
      step expires that part of the history. */
  lemma {:induction false} StepKeepsPast(t: Table, ever: seq<DataFile>, call: Call, timestamp: nat)
    requires Healthy(t, ever) && Admissible(t, call) && timestamp < call.now
    requires Reaches(Step(t, call), timestamp)
    ensures NewestUntil(Step(t, call).meta.snapshots, timestamp) == NewestUntil(t.meta.snapshots, timestamp)
    ensures Reaches(t, timestamp)
  {
    var before, after := t.meta.snapshots, Step(t, call).meta.snapshots;
    if Step(t, call) == t || call.op.SchemaOp? || call.op.PartitionOp? {
      assert after == before;
    } else if call.op.AppendOp? {
      AppendKeepsSnapshots(t, ever, call.now, call.op.files, call.op.columns, call.op.operation);
      assert after[|after| - 1].timestamp == call.now && after[..|after| - 1] == before;
      assert after[0] == before[0];
    } else {
      ExpiryKeepsPast(t, ever, call, timestamp);
    }
  }

  lemma {:induction false} ExpiryKeepsPast(t: Table, ever: seq<DataFile>, call: Call, timestamp: nat)
    requires Healthy(t, ever) && Admissible(t, call) && call.op.ExpireOp? && call.stored
    requires Reaches(Step(t, call), timestamp)
    ensures NewestUntil(Step(t, call).meta.snapshots, timestamp) == NewestUntil(t.meta.snapshots, timestamp)
    ensures Reaches(t, timestamp)
  {
    var before := t.meta.snapshots;
    var k := ExpiredCount(t.meta, call.op.olderThan, call.op.retain);
    ExpiryDropsOldest(t, call.now, call.op.olderThan, call.op.retain);
    assert before[k..][0] == before[k];
    NewestInSuffix(before, k, timestamp);
    assert k > 0 ==> before[0].timestamp < before[k].timestamp;
  }

  /** How many of the calls had run by a moment. */
  function CallsUntil(calls: seq<Call>, timestamp: nat): (k: nat)
    ensures k <= |calls|
  {
    if calls == [] then 0
    else if calls[|calls| - 1].now <= timestamp then |calls|
    else CallsUntil(calls[..|calls| - 1], timestamp)
  }

  lemma {:induction false} LastStepKeepsPast(now: nat, columns: seq<Column>, files: seq<DataFile>, calls: seq<Call>,
                                             timestamp: nat)
    requires files != [] && calls != [] && Scheduled(now, calls) && timestamp < calls[|calls| - 1].now
    requires Reaches(Run(Create(now, columns, files).value, calls), timestamp)
    ensures var created := Create(now, columns, files).value;
            var before, after := Run(created, calls[..|calls| - 1]), Run(created, calls);
            Reaches(before, timestamp) &&
              NewestUntil(after.meta.snapshots, timestamp) == NewestUntil(before.meta.snapshots, timestamp)
  {
    var init := calls[..|calls| - 1];
    RunKeepsHealthy(now, columns, files, init);
    StepKeepsPast(Run(Create(now, columns, files).value, init), files + EverAppended(init), calls[|calls| - 1],
      timestamp);
  }

  /** Resolving a timestamp gives the snapshot that was current at that moment, whatever has
      happened since, as long as the history still reaches back that far; else it gives nothing. */
  lemma {:induction false} TimeTravelIsFaithful(now: nat, columns: seq<Column>, files: seq<DataFile>, calls: seq<Call>,
                                                timestamp: nat)
    requires files != [] && Scheduled(now, calls) && now <= timestamp
    ensures var created := Create(now, columns, files).value;
            var t := Run(created, calls);
            var then_ := Run(created, calls[..CallsUntil(calls, timestamp)]);
            && t.meta.snapshots != [] && then_.meta.snapshots != []
            && then_.meta.currentSnapshot == Some(Last(then_.meta).id)
            && Resolve(t.meta, ByTimestamp(timestamp)) ==
               if Reaches(t, timestamp) then Some(Last(then_.meta)) else None
  {
    var created := Create(now, columns, files).value;
    var t, then_ := Run(created, calls), Run(created, calls[..CallsUntil(calls, timestamp)]);
    RunKeepsHealthy(now, columns, files, calls);
    RunKeepsHealthy(now, columns, files, calls[..CallsUntil(calls, timestamp)]);
    if Reaches(t, timestamp) {
      NewestThen(now, columns, files, calls, timestamp, t, then_);
    } else {
      NewestIsLastUntil(t.meta.snapshots, timestamp);
    }
  }

  /** The same for the newest snapshot alone: going back call by call until the moment is reached. */
  lemma {:induction false} NewestThen(now: nat, columns: seq<Column>, files: seq<DataFile>, calls: seq<Call>,
                                      timestamp: nat, t: Table, then_: Table)
    requires files != [] && Scheduled(now, calls) && now <= timestamp
    requires t == Run(Create(now, columns, files).value, calls)
    requires then_ == Run(Create(now, columns, files).value, calls[..CallsUntil(calls, timestamp)])
    requires then_.meta.snapshots != [] && Reaches(t, timestamp)
    ensures NewestUntil(t.meta.snapshots, timestamp) == Some(Last(then_.meta))
    decreases calls
  {
    if CallsUntil(calls, timestamp) == |calls| {
      assert calls[..|calls|] == calls;
      RunKeepsHealthy(now, columns, files, calls);
      NewestIsCurrent(t.meta, timestamp);
    } else {
      var init := calls[..|calls| - 1];
      var before := Run(Create(now, columns, files).value, init);
      assert calls[..CallsUntil(calls, timestamp)] == init[..CallsUntil(init, timestamp)];
      LastStepKeepsPast(now, columns, files, calls, timestamp);
      NewestThen(now, columns, files, init, timestamp, before, then_);
    }
  }

  lemma {:induction false} CallsUntilPrefix(calls: seq<Call>, i: nat, timestamp: nat)
    requires i <= |calls| && forall j :: i <= j < |calls| ==> timestamp < calls[j].now
    ensures CallsUntil(calls, timestamp) == CallsUntil(calls[..i], timestamp)
  {
    if i < |calls| {
      CallsUntilPrefix(calls[..|calls| - 1], i, timestamp);
      assert calls[..|calls| - 1][..i] == calls[..i];
    } else {
      assert calls[..i] == calls;
    }
  }

  /** Later operations never change the answer for a timestamp the history still covers. */
  lemma {:induction false} AnswersAreStable(now: nat, columns: seq<Column>, files: seq<DataFile>, calls: seq<Call>,
                                            i: nat, timestamp: nat)
    requires files != [] && Scheduled(now, calls) && now <= timestamp && i <= |calls|
    requires forall j :: i <= j < |calls| ==> timestamp < calls[j].now
    requires Reaches(Run(Create(now, columns, files).value, calls), timestamp)
    ensures var created := Create(now, columns, files).value;
            Resolve(Run(created, calls).meta, ByTimestamp(timestamp)) ==
              Resolve(Run(created, calls[..i]).meta, ByTimestamp(timestamp))
  {
    TimeTravelIsFaithful(now, columns, files, calls, timestamp);
    TimeTravelIsFaithful(now, columns, files, calls[..i], timestamp);
    CallsUntilPrefix(calls, i, timestamp);
    var k := CallsUntil(calls, timestamp);
    assert calls[..i][..k] == calls[..k];
    OldestOnlyAdvances(now, columns, files, calls, i);
  }

  lemma {:induction false} OldestOnlyAdvances(now: nat, columns: seq<Column>, files: seq<DataFile>, calls: seq<Call>,
                                              i: nat)
    requires files != [] && Scheduled(now, calls) && i <= |calls|
    ensures var created := Create(now, columns, files).value;
            var early, late := Run(created, calls[..i]), Run(created, calls);
            early.meta.snapshots != [] && late.meta.snapshots != [] &&
            early.meta.snapshots[0].timestamp <= late.meta.snapshots[0].timestamp
  {
    if i == |calls| {
      RunKeepsHealthy(now, columns, files, calls);
      assert calls[..i] == calls;
    } else {
      var init := calls[..|calls| - 1];
      OldestOnlyAdvances(now, columns, files, init, i);
      assert init[..i] == calls[..i];
      LastStepAdvances(now, columns, files, calls);
    }
  }

  lemma {:induction false} LastStepAdvances(now: nat, columns: seq<Column>, files: seq<DataFile>, calls: seq<Call>)
    requires files != [] && calls != [] && Scheduled(now, calls)
    ensures var created := Create(now, columns, files).value;
            var before, after := Run(created, calls[..|calls| - 1]), Run(created, calls);
            before.meta.snapshots != [] && after.meta.snapshots != [] &&
            before.meta.snapshots[0].timestamp <= after.meta.snapshots[0].timestamp
  {
    var init := calls[..|calls| - 1];
    RunKeepsHealthy(now, columns, files, init);
    OldestStep(Run(Create(now, columns, files).value, init), files + EverAppended(init), calls[|calls| - 1]);
  }

  lemma {:induction false} OldestStep(t: Table, ever: seq<DataFile>, call: Call)
    requires Healthy(t, ever) && Admissible(t, call)
    ensures Step(t, call).meta.snapshots != []
    ensures t.meta.snapshots[0].timestamp <= Step(t, call).meta.snapshots[0].timestamp
  {
    StepKeeps(t, ever, call);
    if call.op.ExpireOp? {
      var k := ExpiredCount(t.meta, call.op.olderThan, call.op.retain);
      ExpiryDropsOldest(t, call.now, call.op.olderThan, call.op.retain);
      assert t.meta.snapshots[k..][0] == t.meta.snapshots[k];
    }
  }

  // ---------- The files of a snapshot and its ancestors ----------

  /** A snapshot with the data files known in memory. */
  datatype SnapshotInfo = SnapshotInfo(snapshot: Snapshot, dataFiles: seq<string>)

  function FindInfo(infos: seq<SnapshotInfo>, id: nat): Option<SnapshotInfo> {
    if infos == [] then None
    else if infos[0].snapshot.id == id then Some(infos[0])
    else FindInfo(infos[1..], id)
  }

  /** The walk along the parents from `id` ends, at a root or at a parent no longer listed, after at
      most `n` snapshots. */
  predicate EndsWithin(infos: seq<SnapshotInfo>, id: Option<nat>, n: nat)
    decreases n
  {
    id.None? || FindInfo(infos, id.value).None? ||
    (n > 0 && EndsWithin(infos, FindInfo(infos, id.value).value.snapshot.parent, n - 1))
  }

  /** The walk ends. */
  predicate Ends(infos: seq<SnapshotInfo>, id: Option<nat>) {
    EndsWithin(infos, id, |infos|)
  }

  lemma {:induction false} FoundInfo(infos: seq<SnapshotInfo>, id: nat)
    ensures var r := FindInfo(infos, id); r.Some? ==> r.value in infos && r.value.snapshot.id == id
  {
    if infos != [] && infos[0].snapshot.id != id { FoundInfo(infos[1..], id); }
  }

  /** The first `n` of the snapshot and its ancestors, newest first, as far as they are still listed. */
  function Chain(infos: seq<SnapshotInfo>, id: Option<nat>, n: nat): seq<SnapshotInfo>
    decreases n
  {
    if n == 0 || id.None? || FindInfo(infos, id.value).None? then []
    else
      var x := FindInfo(infos, id.value).value;
      [x] + Chain(infos, x.snapshot.parent, n - 1)
  }

  /** The ids met on the walk. */
  function Met(infos: seq<SnapshotInfo>, id: Option<nat>, n: nat): set<nat>
    decreases n
  {
    if n == 0 || id.None? || FindInfo(infos, id.value).None? then {}
    else {id.value} + Met(infos, FindInfo(infos, id.value).value.snapshot.parent, n - 1)
  }

  /** The walk ends after exactly `n` snapshots. */
  predicate EndsAfter(infos: seq<SnapshotInfo>, id: Option<nat>, n: nat) {
    EndsWithin(infos, id, n) && (n > 0 ==> !EndsWithin(infos, id, n - 1))
  }

  /** The rest of a walk is shorter, from each id it meets. */
  lemma {:induction false} MetEndsSooner(infos: seq<SnapshotInfo>, id: Option<nat>, n: nat, x: nat)
    requires EndsAfter(infos, id, n) && x in Met(infos, id, n)
    ensures exists m :: 0 < m <= n && EndsAfter(infos, Some(x), m)
    decreases n
  {
    if id.value == x {
      assert EndsAfter(infos, Some(x), n);
    } else {
      var parent := FindInfo(infos, id.value).value.snapshot.parent;
      assert EndsAfter(infos, parent, n - 1);
      MetEndsSooner(infos, parent, n - 1, x);
    }
  }

  lemma {:induction false} EndsWithinMore(infos: seq<SnapshotInfo>, id: Option<nat>, n: nat, m: nat)
    requires EndsWithin(infos, id, n) && n <= m
    ensures EndsWithin(infos, id, m)
    decreases n
  {
    if n > 0 && id.Some? && FindInfo(infos, id.value).Some? {
      EndsWithinMore(infos, FindInfo(infos, id.value).value.snapshot.parent, n - 1, m - 1);
    }
  }

  /** A walk that ends meets no id twice. */
  lemma {:induction false} MeetsOnce(infos: seq<SnapshotInfo>, id: Option<nat>, n: nat)
    requires EndsAfter(infos, id, n)
    ensures |Met(infos, id, n)| == n && Met(infos, id, n) <= Ids(infos)
    decreases n
  {
    if n > 0 {
      var parent := FindInfo(infos, id.value).value.snapshot.parent;
      FoundInfo(infos, id.value);
      MeetsOnce(infos, parent, n - 1);
      if id.value in Met(infos, parent, n - 1) {
        MetEndsSooner(infos, parent, n - 1, id.value);
        var m :| 0 < m <= n - 1 && EndsAfter(infos, id, m);
        EndsWithinMore(infos, id, m, n - 1);
        assert false;
      }
    }
  }

  function Ids(infos: seq<SnapshotInfo>): set<nat> {
    set x | x in infos :: x.snapshot.id
  }

  lemma {:induction false} FewIds(infos: seq<SnapshotInfo>)
    ensures |Ids(infos)| <= |infos|
  {
    if infos != [] {
      FewIds(infos[1..]);
      assert Ids(infos) == {infos[0].snapshot.id} + Ids(infos[1..]);
    }
  }

  lemma {:induction false} EndsExactly(infos: seq<SnapshotInfo>, id: Option<nat>, n: nat) returns (m: nat)
    requires EndsWithin(infos, id, n)
    ensures m <= n && EndsAfter(infos, id, m)
  {
    m := n;
    while m > 0 && EndsWithin(infos, id, m - 1)
      invariant m <= n && EndsWithin(infos, id, m)
    {
      m := m - 1;
    }
  }

  /** The walk ends after at most as many steps as there are snapshots, or never. */
  lemma {:induction false} EndsSoonOrNever(infos: seq<SnapshotInfo>, id: Option<nat>, n: nat)
    ensures EndsWithin(infos, id, n) ==> Ends(infos, id)
  {
    if EndsWithin(infos, id, n) {
      var m := EndsExactly(infos, id, n);
      MeetsOnce(infos, id, m);
      FewIds(infos);
      SubsetSmaller(Met(infos, id, m), Ids(infos));
      EndsWithinMore(infos, id, m, |infos|);
    }
  }

  /** A snapshot that is its own parent, which nothing in the source rules out, is walked for ever. */
  lemma {:induction false} OwnParentNeverEnds(x: SnapshotInfo, n: nat)
    requires x.snapshot.parent == Some(x.snapshot.id)
    ensures !EndsWithin([x], Some(x.snapshot.id), n)
    decreases n
  {
    if n > 0 { OwnParentNeverEnds(x, n - 1); }
  }

  lemma {:induction false} SubsetSmaller(a: set<nat>, b: set<nat>)
    requires a <= b
    ensures |a| <= |b|
  {
    assert b == a + (b - a);
  }

  /** Parents are older than their children; `HealthyParentsOlder` shows that every run makes them so. */
  ghost predicate ParentsOlder(infos: seq<SnapshotInfo>) {
    forall x :: x in infos && x.snapshot.parent.Some? ==> x.snapshot.parent.value < x.snapshot.id
  }

  /** Then every walk ends. */
  lemma {:induction false} OlderParentsEnd(infos: seq<SnapshotInfo>, id: Option<nat>)
    requires ParentsOlder(infos)
    ensures Ends(infos, id)
  {
    var bound := if id.Some? then id.value + 1 else 0;
    AgesBoundWalk(infos, id, bound);
    EndsSoonOrNever(infos, id, bound);
  }

  lemma {:induction false} AgesBoundWalk(infos: seq<SnapshotInfo>, id: Option<nat>, n: nat)
    requires ParentsOlder(infos) && (id.Some? ==> id.value < n)
    ensures EndsWithin(infos, id, n)
    decreases n
  {
    if id.Some? && FindInfo(infos, id.value).Some? {
      FoundInfo(infos, id.value);
      AgesBoundWalk(infos, FindInfo(infos, id.value).value.snapshot.parent, n - 1);
    }
  }

  function Flatten(infos: seq<SnapshotInfo>): seq<string> {
    if infos == [] then [] else infos[0].dataFiles + Flatten(infos[1..])
  }

  /** The walk along the parents, which the source follows without a bound: it is called here where
      it ends, and `EndsSoonOrNever` shows that this can be read off the list. */
  method GetDataFilesForSnapshot(infos: seq<SnapshotInfo>, snapshotId: nat) returns (files: seq<string>)
    requires Ends(infos, Some(snapshotId))
    ensures files == Flatten(Chain(infos, Some(snapshotId), |infos|))
  {
    files := [];
    var current := Some(snapshotId);
    ghost var left: nat := |infos|;
    while current.Some?
      invariant EndsWithin(infos, current, left)
      invariant files + Flatten(Chain(infos, current, left)) == Flatten(Chain(infos, Some(snapshotId), |infos|))
      decreases left
    {
      var found := FindInfo(infos, current.value);
      if found.None? { break; }
      left := left - 1;
      ghost var rest := Chain(infos, found.value.snapshot.parent, left);
      assert ([found.value] + rest)[1..] == rest;
      files := files + found.value.dataFiles;
      current := found.value.snapshot.parent;
    }
  }

  function Snapshots(infos: seq<SnapshotInfo>): seq<Snapshot> {
    seq(|infos|, i requires 0 <= i < |infos| => infos[i].snapshot)
  }

  /** In every table a run can produce the walk visits each kept ancestor once, newest first. */
  lemma {:induction false} ChainIsHistory(infos: seq<SnapshotInfo>, i: nat, n: nat)
    requires i < n && i < |infos| && Ascending(Snapshots(infos)) && Linked(Snapshots(infos)) && ParentsOlder(infos)
    ensures Chain(infos, Some(infos[i].snapshot.id), n) == seq(i + 1, j requires 0 <= j <= i => infos[i - j])
  {
    var all := Snapshots(infos);
    FindInfoAt(infos, i);
    if i > 0 {
      assert all[i].parent == Some(all[i - 1].id);
      ChainIsHistory(infos, i - 1, n - 1);
    } else if all[0].parent.Some? {
      assert forall x :: x in infos ==> exists j :: 0 <= j < |infos| && infos[j] == x && all[j] == x.snapshot;
      FoundInfo(infos, all[0].parent.value);
    }
  }

  lemma {:induction false} HealthyParentsOlder(m: Metadata, infos: seq<SnapshotInfo>)
    requires SnapshotsHealthy(m) && Snapshots(infos) == m.snapshots
    ensures ParentsOlder(infos)
  {
    forall x | x in infos && x.snapshot.parent.Some? ensures x.snapshot.parent.value < x.snapshot.id {
      var i :| 0 <= i < |infos| && infos[i] == x;
      assert m.snapshots[i] == x.snapshot;
      if i > 0 { assert m.snapshots[i].parent == Some(m.snapshots[i - 1].id); }
    }
  }

  /** So in every run the walk from any kept snapshot ends and visits exactly that snapshot and all
      older kept ones, newest first. */
  lemma {:induction false} RunWalksHistory(now: nat, columns: seq<Column>, files: seq<DataFile>, calls: seq<Call>,
                                           infos: seq<SnapshotInfo>, i: nat)
    requires files != [] && Scheduled(now, calls)
    requires Snapshots(infos) == Run(Create(now, columns, files).value, calls).meta.snapshots && i < |infos|
    ensures Ends(infos, Some(infos[i].snapshot.id))
    ensures Chain(infos, Some(infos[i].snapshot.id), |infos|) == seq(i + 1, j requires 0 <= j <= i => infos[i - j])
  {
    RunKeepsHealthy(now, columns, files, calls);
    HealthyParentsOlder(Run(Create(now, columns, files).value, calls).meta, infos);
    OlderParentsEnd(infos, Some(infos[i].snapshot.id));
    ChainIsHistory(infos, i, |infos|);
  }

  lemma {:induction false} FindInfoAt(infos: seq<SnapshotInfo>, i: nat)
    requires i < |infos| && Ascending(Snapshots(infos))
    ensures FindInfo(infos, infos[i].snapshot.id) == Some(infos[i])
  {
    if i > 0 {
      var all := Snapshots(infos);
      assert all[0].id < all[i].id;
      assert Snapshots(infos[1..]) == all[1..];
      FindInfoAt(infos[1..], i - 1);
    }
  }

  /** Snapshots listed later do not change what is found earlier in the list. */
  lemma {:induction false} FindInfoSnoc(infos: seq<SnapshotInfo>, x: SnapshotInfo, id: nat)
    ensures FindInfo(infos + [x], id) ==
            if FindInfo(infos, id).Some? then FindInfo(infos, id)
            else if x.snapshot.id == id then Some(x) else None
  {
    if infos == [] {
      assert [x][1..] == [];
    } else {
      assert (infos + [x])[1..] == infos[1..] + [x];
      FindInfoSnoc(infos[1..], x, id);
    }
  }

  lemma {:induction false} ChainSnoc(infos: seq<SnapshotInfo>, x: SnapshotInfo, id: Option<nat>, n: nat)
    requires ParentsOlder(infos) && (id.Some? ==> id.value < x.snapshot.id)
    ensures Chain(infos + [x], id, n) == Chain(infos, id, n)
    decreases n
  {
    if id.Some? { FindInfoSnoc(infos, x, id.value); }
    if n > 0 && id.Some? && FindInfo(infos, id.value).Some? {
      FoundInfo(infos, id.value);
      ChainSnoc(infos, x, FindInfo(infos, id.value).value.snapshot.parent, n - 1);
    }
  }

  /** The walk from a new newest snapshot: its own files, then those of its parent's walk. */
  lemma {:induction false} WalkFromNewest(infos: seq<SnapshotInfo>, x: SnapshotInfo, n: nat)
    requires ParentsOlder(infos) && forall y :: y in infos ==> y.snapshot.id < x.snapshot.id
    requires x.snapshot.parent.Some? ==> x.snapshot.parent.value < x.snapshot.id
    ensures Flatten(Chain(infos + [x], Some(x.snapshot.id), n + 1)) ==
            x.dataFiles + Flatten(Chain(infos, x.snapshot.parent, n))
  {
    FoundInfo(infos, x.snapshot.id);
    FindInfoSnoc(infos, x, x.snapshot.id);
    ChainSnoc(infos, x, x.snapshot.parent, n);
    var rest := Chain(infos, x.snapshot.parent, n);
    assert ([x] + rest)[1..] == rest;
  }

  /** Loading metadata restores no data files. */
  function Loaded(m: Metadata): seq<SnapshotInfo> {
    seq(|m.snapshots|, i requires 0 <= i < |m.snapshots| => SnapshotInfo(m.snapshots[i], []))
  }

  /** So on a freshly loaded table the walk finds no files, whichever snapshot is asked for. */
  lemma {:induction false} LoadedWalkIsEmpty(m: Metadata, id: Option<nat>, n: nat)
    ensures Flatten(Chain(Loaded(m), id, n)) == []
    decreases n
  {
    if n > 0 && id.Some? && FindInfo(Loaded(m), id.value).Some? {
      FoundInfo(Loaded(m), id.value);
      var x := FindInfo(Loaded(m), id.value).value;
      LoadedWalkIsEmpty(m, x.snapshot.parent, n - 1);
      var rest := Chain(Loaded(m), x.snapshot.parent, n - 1);
      assert ([x] + rest)[1..] == rest;
    }
  }
}
