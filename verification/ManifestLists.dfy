/** Expiry deletes the manifest lists of the expired snapshots before it writes the new metadata. */
module ManifestLists {
  import opened IcebergRuns
  import opened IcebergTable
  import opened Sequences

  /** The manifest lists left, by snapshot id: those of the expired ids are gone where the store lets
      them be deleted. */
  function LeftAfter(lists: set<nat>, expired: seq<nat>, undeletable: set<nat>): set<nat> {
    set id | id in lists && (id !in expired || id in undeletable)
  }

  lemma {:induction false} LeftSnoc(lists: set<nat>, expired: seq<nat>, id: nat, undeletable: set<nat>)
    ensures LeftAfter(lists, expired + [id], undeletable) ==
            LeftAfter(lists, expired, undeletable) - (if id in undeletable then {} else {id})
  {
  }

  /** The id of a snapshot that is old enough. */
  function OldId(s: Snapshot, olderThan: nat): seq<nat> {
    if s.timestamp < olderThan then [s.id] else []
  }

  lemma {:induction false} OldSnoc(snapshots: seq<Snapshot>, s: Snapshot, olderThan: nat)
    ensures OldIds(snapshots + [s], olderThan) == OldIds(snapshots, olderThan) + OldId(s, olderThan)
  {
    if snapshots == [] {
      assert [] + [s] == [s] && [s][1..] == [];
    } else {
      var rest := snapshots[1..];
      assert (snapshots + [s])[1..] == rest + [s];
      OldSnoc(rest, s, olderThan);
      Associates(OldId(snapshots[0], olderThan), OldIds(rest, olderThan), OldId(s, olderThan));
    }
  }

  /** The loop over all but the newest `retain` snapshots: deletes the manifest lists of the old ones
      and collects their ids. */
  method DeleteLists(oldest: seq<Snapshot>, olderThan: nat, lists: set<nat>, undeletable: set<nat>)
    returns (expired: seq<nat>, left: set<nat>)
    ensures expired == OldIds(oldest, olderThan) && left == LeftAfter(lists, expired, undeletable)
  {
    expired, left := [], lists;
    for i := 0 to |oldest|
      invariant expired == OldIds(oldest[..i], olderThan) && left == LeftAfter(lists, expired, undeletable)
    {
      assert oldest[..i + 1] == oldest[..i] + [oldest[i]];
      OldSnoc(oldest[..i], oldest[i], olderThan);
      if oldest[i].timestamp < olderThan {
        LeftSnoc(lists, expired, oldest[i].id, undeletable);
        expired := expired + [oldest[i].id];
        if oldest[i].id !in undeletable { left := left - {oldest[i].id}; }
      }
    }
    assert oldest[..|oldest|] == oldest;
  }

  /** The whole expiry: the table seen by the next load and the manifest lists left. */
  method ExpireSnapshots(t: Table, now: nat, olderThan: nat, retain: nat, lists: set<nat>, undeletable: set<nat>,
                         stored: bool)
    returns (next: Table, left: set<nat>)
    ensures next == Step(t, Call(now, ExpireOp(olderThan, retain), stored))
    ensures left == LeftAfter(lists, ExpiredIds(t.meta, olderThan, retain), undeletable)
  {
    if |t.meta.snapshots| <= retain { return t, lists; }
    var sorted := Sorted(t.meta.snapshots);
    var expired;
    expired, left := DeleteLists(sorted[..|sorted| - retain], olderThan, lists, undeletable);
    if expired == [] || !stored { return t, left; }
    next := Expire(t, now, olderThan, retain);
  }

  // ---------- Which tables stay readable ----------

  /** Every listed snapshot has its manifest list. */
  ghost predicate Complete(snapshots: seq<Snapshot>, lists: set<nat>) {
    forall s :: s in snapshots ==> s.id in lists
  }

  lemma {:induction false} InsertMembers(s: Snapshot, sorted: seq<Snapshot>)
    ensures forall x :: x in Insert(s, sorted) ==> x == s || x in sorted
  {
    if sorted != [] { InsertMembers(s, sorted[1..]); }
  }

  lemma {:induction false} SortedMembers(snapshots: seq<Snapshot>)
    ensures forall x :: x in Sorted(snapshots) ==> x in snapshots
  {
    if snapshots != [] {
      SortedMembers(snapshots[..|snapshots| - 1]);
      InsertMembers(snapshots[|snapshots| - 1], Sorted(snapshots[..|snapshots| - 1]));
    }
  }

  lemma {:induction false} OldIdsListed(snapshots: seq<Snapshot>, olderThan: nat)
    ensures forall id :: id in OldIds(snapshots, olderThan) ==> Holds(snapshots, id)
  {
    if snapshots != [] {
      OldIdsListed(snapshots[1..], olderThan);
      assert snapshots[0] in snapshots;
      forall id | id in OldIds(snapshots[1..], olderThan) ensures Holds(snapshots, id) {
        var s :| s in snapshots[1..] && s.id == id;
        assert s in snapshots;
      }
    }
  }

  lemma {:induction false} ExpiredAreListed(m: Metadata, olderThan: nat, retain: nat)
    ensures forall id :: id in ExpiredIds(m, olderThan, retain) ==> Holds(m.snapshots, id)
  {
    if |m.snapshots| > retain {
      var oldest := Sorted(m.snapshots)[..|m.snapshots| - retain];
      OldIdsListed(oldest, olderThan);
      SortedMembers(m.snapshots);
      forall id | id in OldIds(oldest, olderThan) ensures Holds(m.snapshots, id) {
        var s :| s in oldest && s.id == id;
        assert s in Sorted(m.snapshots);
      }
    }
  }

  lemma {:induction false} KeptIff(snapshots: seq<Snapshot>, expired: seq<nat>)
    ensures forall s :: s in KeptSnapshots(snapshots, expired) <==> s in snapshots && s.id !in expired
  {
    if snapshots != [] { KeptIff(snapshots[1..], expired); }
  }

  /** The table seen afterwards still has the manifest list of every snapshot it lists exactly if the
      metadata was written or none of the expired manifest lists could be deleted: a refused write
      leaves the old snapshots listed without theirs. */
  lemma {:induction false} CompleteAfterExpiryIff(t: Table, now: nat, olderThan: nat, retain: nat, lists: set<nat>,
                                                  undeletable: set<nat>, stored: bool)
    requires Complete(t.meta.snapshots, lists)
    ensures var expired := ExpiredIds(t.meta, olderThan, retain);
            var next := Step(t, Call(now, ExpireOp(olderThan, retain), stored));
            Complete(next.meta.snapshots, LeftAfter(lists, expired, undeletable)) <==>
            stored || forall id :: id in expired ==> id in undeletable
  {
    var expired := ExpiredIds(t.meta, olderThan, retain);
    var left := LeftAfter(lists, expired, undeletable);
    KeptIff(t.meta.snapshots, expired);
    ExpiredAreListed(t.meta, olderThan, retain);
    if !stored && Complete(t.meta.snapshots, left) {
      forall id | id in expired ensures id in undeletable {
        var s :| s in t.meta.snapshots && s.id == id;
        assert s.id in left;
      }
    }
  }
}
