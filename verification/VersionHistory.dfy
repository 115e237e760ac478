/** The version history of an executable table under user edits, user rollbacks and the scheduler's
    self-healing, whose read and commit may be far apart. */
module VersionHistory {
  import opened Sequences

  datatype Version = Version(number: nat, code: string, description: string)

  /** The recorded versions, oldest first, and the code that runs. */
  datatype History = History(versions: seq<Version>, source: string)

  const HEAL_PREFIX := "Auto-rollback"

  predicate IsHeal(v: Version) {
    HEAL_PREFIX <= v.description
  }

  function Max(versions: seq<Version>): nat {
    if versions == [] then 0
    else if versions[0].number > Max(versions[1..]) then versions[0].number else Max(versions[1..])
  }

  function NextNumber(versions: seq<Version>): nat {
    if versions == [] then 2 else Max(versions) + 1
  }

  /** The versions not written by self-healing. */
  function Deliberate(versions: seq<Version>): seq<Version> {
    if versions == [] then []
    else Deliberate(versions[..|versions| - 1]) +
         if IsHeal(versions[|versions| - 1]) then [] else [versions[|versions| - 1]]
  }

  /** The version a failing gate falls back to: the last but one deliberate one. */
  function FallBack(versions: seq<Version>): Option<Version> {
    var d := Deliberate(versions);
    if |d| < 2 then None else Some(d[|d| - 2])
  }

  function Push(h: History, code: string, description: string): History {
    History(h.versions + [Version(NextNumber(h.versions), code, description)], code)
  }

  /** A healing commit, with the fall-back chosen when the job read the table. */
  function Heal(h: History, fallBack: Version, suffix: string): History {
    Push(h, fallBack.code, HEAL_PREFIX + suffix)
  }

  /** A user edit; the first one also records the original code. */
  function Edit(h: History, code: string, description: string): History {
    var recorded := if h.versions == [] then History([Version(1, h.source, "Initial transform")], h.source) else h;
    Push(recorded, code, description)
  }

  function FindVersion(versions: seq<Version>, number: nat): Option<Version> {
    if versions == [] then None
    else if versions[0].number == number then Some(versions[0])
    else FindVersion(versions[1..], number)
  }

  function Rollback(h: History, number: nat): History {
    match FindVersion(h.versions, number)
    case Some(v) => Push(h, v.code, "Rollback to version")
    case None => h
  }

  // ---------- Interleavings ----------

  /** `pending` is what the scheduler read and has not committed yet. */
  datatype State = State(history: History, pending: Option<Option<Version>>)

  /** A user edit is dropped when the code hashes to the same value as the running code. */
  datatype Action =
    | UserEdit(code: string, description: string, sameHash: bool)
    | UserRollback(number: nat)
    | SchedulerRead
    | SchedulerCommit(gateFailed: bool, suffix: string)

  function Act(s: State, a: Action): State {
    match a
    case UserEdit(code, description, sameHash) =>
      if sameHash then s else s.(history := Edit(s.history, code, description))
    case UserRollback(number) => s.(history := Rollback(s.history, number))
    case SchedulerRead => s.(pending := Some(FallBack(s.history.versions)))
    case SchedulerCommit(failed, suffix) =>
      if s.pending.Some? && s.pending.value.Some? && failed then
        State(Heal(s.history, s.pending.value.value, suffix), None)
      else s.(pending := None)
  }

  function Run(s: State, actions: seq<Action>): State {
    if actions == [] then s else Act(Run(s, actions[..|actions| - 1]), actions[|actions| - 1])
  }

  // ---------- What every interleaving keeps ----------

  ghost predicate Increasing(versions: seq<Version>) {
    forall i, j :: 0 <= i < j < |versions| ==> versions[i].number < versions[j].number
  }

  /** Numbers strictly increase and the code that runs is the last version's. */
  ghost predicate Consistent(h: History) {
    Increasing(h.versions) && (h.versions != [] ==> h.source == h.versions[|h.versions| - 1].code)
  }

  /** Version `i` is a healing that restores the code of an earlier deliberate version. */
  ghost predicate HealRestores(versions: seq<Version>, i: nat)
    requires i < |versions|
  {
    exists j :: 0 <= j < i && !IsHeal(versions[j]) && versions[j].code == versions[i].code
  }

  function Range(lo: nat, hi: nat): (r: set<nat>)
    ensures forall i :: i in r <==> lo <= i < hi
    decreases hi - lo
  {
    if lo >= hi then {} else {lo} + Range(lo + 1, hi)
  }

  /** Everything self-healing has written since the history had `start` versions is restored code.
      Versions written by users may also carry the prefix; those are listed in `byUser`. */
  ghost predicate HealsRestore(versions: seq<Version>, start: nat, byUser: set<nat>) {
    forall i :: start <= i < |versions| && i !in byUser ==> IsHeal(versions[i]) && HealRestores(versions, i)
  }

  ghost predicate PendingKnown(s: State) {
    s.pending.Some? && s.pending.value.Some? ==>
      s.pending.value.value in s.history.versions && !IsHeal(s.pending.value.value)
  }

  lemma {:induction false} MaxBounds(versions: seq<Version>)
    ensures forall i :: 0 <= i < |versions| ==> versions[i].number <= Max(versions)
  {
    if versions != [] {
      MaxBounds(versions[1..]);
      assert forall i :: 1 <= i < |versions| ==> versions[i] == versions[1..][i - 1];
    }
  }

  lemma {:induction false} DeliberateMembers(versions: seq<Version>)
    ensures forall v :: v in Deliberate(versions) <==> v in versions && !IsHeal(v)
  {
    if versions != [] {
      DeliberateMembers(versions[..|versions| - 1]);
      assert versions == versions[..|versions| - 1] + [versions[|versions| - 1]];
    }
  }

  lemma {:induction false} PushConsistent(h: History, code: string, description: string)
    requires Increasing(h.versions)
    ensures Consistent(Push(h, code, description)) && h.versions <= Push(h, code, description).versions
  {
    MaxBounds(h.versions);
  }

  lemma {:induction false} HealsExtend(versions: seq<Version>, v: Version, start: nat, byUser: set<nat>)
    requires HealsRestore(versions, start, byUser)
    requires IsHeal(v) && exists u :: u in versions && !IsHeal(u) && u.code == v.code
    ensures HealsRestore(versions + [v], start, byUser)
  {
    var longer := versions + [v];
    var u :| u in versions && !IsHeal(u) && u.code == v.code;
    var j :| 0 <= j < |versions| && versions[j] == u;
    forall i | start <= i < |longer| && i !in byUser
      ensures IsHeal(longer[i]) && HealRestores(longer, i)
    {
      if i < |versions| {
        var k :| 0 <= k < i && !IsHeal(versions[k]) && versions[k].code == versions[i].code;
        assert longer[k] == versions[k];
      } else {
        assert longer[j] == u;
      }
    }
  }

  lemma {:induction false} UserExtends(versions: seq<Version>, more: seq<Version>, start: nat, byUser: set<nat>)
    requires HealsRestore(versions, start, byUser) && versions <= more
    ensures HealsRestore(more, start, byUser + Range(|versions|, |more|))
  {
    forall i | start <= i < |more| && i !in byUser + Range(|versions|, |more|)
      ensures IsHeal(more[i]) && HealRestores(more, i)
    {
      assert i < |versions|;
      var k :| 0 <= k < i && !IsHeal(versions[k]) && versions[k].code == versions[i].code;
      assert more[k] == versions[k];
    }
  }

  /** The positions of the versions an action by a user writes. */
  function UserWrites(s: State, a: Action): set<nat> {
    if a.UserEdit? || a.UserRollback? then Range(|s.history.versions|, |Act(s, a).history.versions|) else {}
  }

  function AllUserWrites(s: State, actions: seq<Action>): set<nat> {
    if actions == [] then {}
    else
      AllUserWrites(s, actions[..|actions| - 1]) +
      UserWrites(Run(s, actions[..|actions| - 1]), actions[|actions| - 1])
  }

  lemma {:induction false} ActKeeps(s: State, a: Action, start: nat, byUser: set<nat>)
    requires Consistent(s.history) && PendingKnown(s) && HealsRestore(s.history.versions, start, byUser)
    ensures var s' := Act(s, a);
            && Consistent(s'.history) && PendingKnown(s') && s.history.versions <= s'.history.versions
            && HealsRestore(s'.history.versions, start, byUser + UserWrites(s, a))
  {
    var h := s.history;
    var s' := Act(s, a);
    match a
    case UserEdit(code, description, sameHash) =>
      if !sameHash {
        var begun := if h.versions == [] then History([Version(1, h.source, "Initial transform")], h.source) else h;
        PushConsistent(begun, code, description);
      }
      UserExtends(h.versions, s'.history.versions, start, byUser);
    case UserRollback(number) =>
      var v := FindVersion(h.versions, number);
      if v.Some? { PushConsistent(h, v.value.code, "Rollback to version"); }
      UserExtends(h.versions, s'.history.versions, start, byUser);
    case SchedulerRead =>
      DeliberateMembers(h.versions);
    case SchedulerCommit(failed, suffix) =>
      if s.pending.Some? && s.pending.value.Some? && failed {
        var p := s.pending.value.value;
        PushConsistent(h, p.code, HEAL_PREFIX + suffix);
        HealsExtend(h.versions, Version(NextNumber(h.versions), p.code, HEAL_PREFIX + suffix), start, byUser);
      }
  }

  /** Every interleaving of reads, commits and user actions: numbers strictly increase, nothing is
      ever removed, the running code is the last version's, and everything self-healing wrote is the
      code of an earlier deliberate version. */
  lemma {:induction false} HistoryStaysSound(h: History, actions: seq<Action>)
    requires Consistent(h)
    ensures var s := Run(State(h, None), actions);
            && Consistent(s.history) && PendingKnown(s) && h.versions <= s.history.versions
            && HealsRestore(s.history.versions, |h.versions|, AllUserWrites(State(h, None), actions))
  {
    if actions != [] {
      var init := actions[..|actions| - 1];
      HistoryStaysSound(h, init);
      ActKeeps(Run(State(h, None), init), actions[|actions| - 1], |h.versions|, AllUserWrites(State(h, None), init));
    }
  }

  // ---------- What one round does ----------

  /** The versions from `i` on, except `j`, were written by self-healing. */
  ghost predicate HealsExcept(versions: seq<Version>, i: nat, j: int) {
    forall k :: i <= k < |versions| && k != j ==> IsHeal(versions[k])
  }

  /** Version `i` is the last but one deliberate version and version `j` the last. */
  ghost predicate LastButOne(versions: seq<Version>, i: int, j: int) {
    0 <= i < j < |versions| && !IsHeal(versions[i]) && !IsHeal(versions[j]) && HealsExcept(versions, i + 1, j)
  }

  /** There is a version to fall back to exactly if two versions were not written by self-healing; then
      it is the last but one of these. */
  lemma {:induction false} FallBackIff(versions: seq<Version>)
    ensures FallBack(versions).Some? <==> TwoDeliberate(versions)
    ensures forall i, j :: LastButOne(versions, i, j) ==> FallBack(versions) == Some(versions[i])
    ensures FallBack(versions).Some? ==>
              exists i, j :: LastButOne(versions, i, j) && FallBack(versions).value == versions[i]
  {
    if TwoDeliberate(versions) {
      var i, j := LastTwo(versions);
      LastButOneIsUnique(versions, i, j);
      FallsBackTo(versions, i, j);
    } else {
      FewDeliberate(versions);
      assert forall i, j :: !LastButOne(versions, i, j);
    }
  }

  ghost predicate TwoDeliberate(versions: seq<Version>) {
    exists i, j :: 0 <= i < j < |versions| && !IsHeal(versions[i]) && !IsHeal(versions[j])
  }

  lemma {:induction false} LastDeliberate(versions: seq<Version>) returns (j: nat)
    requires exists i :: 0 <= i < |versions| && !IsHeal(versions[i])
    ensures j < |versions| && !IsHeal(versions[j]) && HealsExcept(versions, j + 1, j)
  {
    j := |versions| - 1;
    while IsHeal(versions[j])
      invariant j < |versions| && HealsExcept(versions, j + 1, j)
      invariant exists i :: 0 <= i <= j && !IsHeal(versions[i])
      decreases j
    {
      j := j - 1;
    }
  }

  lemma {:induction false} LastTwo(versions: seq<Version>) returns (i: nat, j: nat)
    requires TwoDeliberate(versions)
    ensures LastButOne(versions, i, j)
  {
    var a, b :| 0 <= a < b < |versions| && !IsHeal(versions[a]) && !IsHeal(versions[b]);
    j := LastDeliberate(versions);
    assert b <= j;
    assert versions[..j][a] == versions[a];
    i := LastDeliberate(versions[..j]);
    assert forall k :: 0 <= k < j ==> versions[..j][k] == versions[k];
  }

  lemma {:induction false} LastButOneIsUnique(versions: seq<Version>, i: nat, j: nat)
    requires LastButOne(versions, i, j)
    ensures forall a, b :: LastButOne(versions, a, b) ==> a == i && b == j
  {
  }

  lemma {:induction false} DeliberateUpTo(versions: seq<Version>, j: nat, n: nat)
    requires j < n <= |versions| && !IsHeal(versions[j]) && HealsExcept(versions, j + 1, j)
    ensures Deliberate(versions[..n]) == Deliberate(versions[..j]) + [versions[j]]
    decreases n
  {
    assert versions[..n][..n - 1] == versions[..n - 1];
    if n > j + 1 {
      DeliberateUpTo(versions, j, n - 1);
      assert Deliberate(versions[..n]) == Deliberate(versions[..n - 1]) + [];
    }
  }

  lemma {:induction false} FallsBackTo(versions: seq<Version>, i: nat, j: nat)
    requires LastButOne(versions, i, j)
    ensures FallBack(versions) == Some(versions[i])
  {
    var front := versions[..j];
    DeliberateUpTo(versions, j, |versions|);
    assert versions[..|versions|] == versions;
    assert forall k :: 0 <= k < j ==> front[k] == versions[k];
    DeliberateUpTo(front, i, j);
    assert front[..j] == front;
  }

  lemma {:induction false} FewDeliberate(versions: seq<Version>)
    requires forall i, j :: 0 <= i < j < |versions| ==> IsHeal(versions[i]) || IsHeal(versions[j])
    ensures |Deliberate(versions)| <= 1
    ensures (forall i :: 0 <= i < |versions| ==> IsHeal(versions[i])) ==> Deliberate(versions) == []
  {
    if versions != [] {
      FewDeliberate(versions[..|versions| - 1]);
    }
  }

  /** One failing round with a version to fall back to: one version is added, marked as a healing and
      numbered above all others, and it and the live code are those of the version fallen back to. */
  ghost predicate Healed(before: History, after: History) {
    exists v, i, j ::
      && LastButOne(before.versions, i, j) && after == History(before.versions + [v], v.code)
      && IsHeal(v) && v.code == before.versions[i].code && (forall u :: u in before.versions ==> u.number < v.number)
  }

  /** The scheduler's read followed at once by its commit heals if the gates failed and there is a
      version to fall back to, and changes nothing otherwise, whatever an earlier read has left behind. */
  lemma {:induction false} RoundHealsIff(h: History, earlier: Option<Option<Version>>, failed: bool, suffix: string)
    ensures var after := Act(Act(State(h, earlier), SchedulerRead), SchedulerCommit(failed, suffix));
            && after.pending == None
            && if failed && FallBack(h.versions).Some? then Healed(h, after.history) else after.history == h
  {
    if failed && FallBack(h.versions).Some? {
      FallBackIff(h.versions);
      MaxBounds(h.versions);
      var i, j :| LastButOne(h.versions, i, j) && FallBack(h.versions).value == h.versions[i];
      var v := Version(NextNumber(h.versions), h.versions[i].code, HEAL_PREFIX + suffix);
      assert Heal(h, FallBack(h.versions).value, suffix) == History(h.versions + [v], v.code);
    }
  }

  /** A user edit runs at once and is recorded last, after everything there was; the first edit also
      records the code it replaces. An edit that hashes like the running code changes nothing. */
  lemma {:induction false} EditRecords(s: State, code: string, description: string, sameHash: bool)
    requires Increasing(s.history.versions)
    ensures var h, after := s.history, Act(s, UserEdit(code, description, sameHash));
            && after.pending == s.pending
            && if sameHash then after == s else
               && after.history.source == code
               && (exists n :: after.history.versions ==
                     (if h.versions == [] then [Version(1, h.source, "Initial transform")] else h.versions) +
                     [Version(n, code, description)])
               && Increasing(after.history.versions)
  {
    if !sameHash {
      var h := s.history;
      var begun := if h.versions == [] then [Version(1, h.source, "Initial transform")] else h.versions;
      PushConsistent(History(begun, h.source), code, description);
      assert Edit(s.history, code, description).versions == begun + [Version(NextNumber(begun), code, description)];
    }
  }

  /** A user rollback runs the code recorded under that number and records it last; a number that is
      not recorded changes nothing. */
  lemma {:induction false} RollbackRestores(s: State, number: nat)
    requires Increasing(s.history.versions)
    ensures var h, after := s.history, Act(s, UserRollback(number));
            && after.pending == s.pending
            && (forall i :: 0 <= i < |h.versions| && h.versions[i].number == number ==>
                  && after.history.source == h.versions[i].code
                  && exists n :: after.history.versions ==
                       h.versions + [Version(n, h.versions[i].code, "Rollback to version")])
            && ((forall i :: 0 <= i < |h.versions| ==> h.versions[i].number != number) ==> after == s)
            && Increasing(after.history.versions)
  {
    FindVersionIff(s.history.versions, number);
    var v := FindVersion(s.history.versions, number);
    if v.Some? {
      PushConsistent(s.history, v.value.code, "Rollback to version");
      assert Rollback(s.history, number).versions ==
             s.history.versions + [Version(NextNumber(s.history.versions), v.value.code, "Rollback to version")];
    }
  }

  lemma {:induction false} FindVersionIff(versions: seq<Version>, number: nat)
    ensures var v := FindVersion(versions, number);
            if v.Some? then v.value in versions && v.value.number == number
            else forall u :: u in versions ==> u.number != number
  {
    if versions != [] { FindVersionIff(versions[1..], number); }
  }

  // ---------- Edits between read and commit ----------

  lemma {:induction false} UsersLeavePending(s: State, actions: seq<Action>)
    requires forall a :: a in actions ==> a.UserEdit? || a.UserRollback?
    ensures Run(s, actions).pending == s.pending
  {
    if actions != [] { UsersLeavePending(s, actions[..|actions| - 1]); }
  }

  /** What users do between the scheduler's read and its commit runs on afterwards exactly if the
      gates pass, there was nothing to fall back to when the table was read, or the users ended with
      that very code. Otherwise the older code replaces theirs, which stays in the history only. */
  lemma {:induction false} LateEditSurvivesIff(h: History, actions: seq<Action>, failed: bool, suffix: string)
    requires forall a :: a in actions ==> a.UserEdit? || a.UserRollback?
    ensures var edited := Run(Act(State(h, None), SchedulerRead), actions);
            var done := Act(edited, SchedulerCommit(failed, suffix));
            var fallBack := FallBack(h.versions);
            && (done.history.source == edited.history.source <==>
                !failed || fallBack.None? || fallBack.value.code == edited.history.source)
            && (failed && fallBack.Some? ==> done.history.source == fallBack.value.code)
            && edited.history.versions <= done.history.versions
  {
    UsersLeavePending(Act(State(h, None), SchedulerRead), actions);
  }

  // ---------- Repeated failures ----------

  /** `n` rounds of reading, running and failing. */
  function FailingRounds(h: History, n: nat, suffix: string): History {
    if n == 0 then h
    else
      var before := FailingRounds(h, n - 1, suffix);
      Act(Act(State(before, None), SchedulerRead), SchedulerCommit(true, suffix)).history
  }

  lemma {:induction false} HealsDoNotCount(versions: seq<Version>, v: Version)
    requires IsHeal(v)
    ensures Deliberate(versions + [v]) == Deliberate(versions)
  {
    assert (versions + [v])[..|versions|] == versions;
  }

  /** One round of failure restores the fall-back and leaves the fall-back what it was. */
  lemma {:induction false} OneFailingRound(before: History, suffix: string)
    ensures var after := FailingRounds(before, 1, suffix);
      && FallBack(after.versions) == FallBack(before.versions)
      && match FallBack(before.versions) {
           case Some(v) => after.source == v.code && |after.versions| == |before.versions| + 1
           case None => after == before
         }
  {
    assert FailingRounds(before, 0, suffix) == before;
    var f := FallBack(before.versions);
    if f.Some? {
      HealsDoNotCount(before.versions, Version(NextNumber(before.versions), f.value.code, HEAL_PREFIX + suffix));
    }
  }

  /** With no edit in between, repeated failures restore the same code every time; they never step
      further back. */
  lemma {:induction false} FailuresRestoreSameCode(h: History, n: nat, suffix: string)
    requires n > 0
    ensures FallBack(FailingRounds(h, n, suffix).versions) == FallBack(h.versions)
    ensures match FallBack(h.versions)
            case Some(v) => FailingRounds(h, n, suffix).source == v.code &&
                              |FailingRounds(h, n, suffix).versions| == |h.versions| + n
            case None => FailingRounds(h, n, suffix) == h
  {
    var before := FailingRounds(h, n - 1, suffix);
    assert FailingRounds(before, 0, suffix) == before;
    assert FailingRounds(h, n, suffix) == FailingRounds(before, 1, suffix);
    OneFailingRound(before, suffix);
    if n > 1 { FailuresRestoreSameCode(h, n - 1, suffix); }
  }

  /** But one deliberate edit later the fall-back is the version whose failure caused the healing. */
  lemma {:induction false} NextFallBackIsFailedVersion(h: History, n: nat, suffix: string, code: string,
                                                       description: string)
    requires n > 0 && FallBack(h.versions).Some? && !(HEAL_PREFIX <= description)
    ensures var failed := Deliberate(h.versions)[|Deliberate(h.versions)| - 1];
            FallBack(Edit(FailingRounds(h, n, suffix), code, description).versions) == Some(failed)
  {
    FailuresRestoreSameCode(h, n, suffix);
    var healed := FailingRounds(h, n, suffix);
    DeliberateUnchanged(h, n, suffix);
    var edited := Edit(healed, code, description);
    assert edited.versions[..|healed.versions|] == healed.versions;
  }

  lemma {:induction false} DeliberateUnchanged(h: History, n: nat, suffix: string)
    ensures Deliberate(FailingRounds(h, n, suffix).versions) == Deliberate(h.versions)
    ensures h.versions <= FailingRounds(h, n, suffix).versions
  {
    if n > 0 {
      DeliberateUnchanged(h, n - 1, suffix);
      var before := FailingRounds(h, n - 1, suffix);
      var f := FallBack(before.versions);
      if f.Some? {
        HealsDoNotCount(before.versions, Version(NextNumber(before.versions), f.value.code, HEAL_PREFIX + suffix));
      }
    }
  }
}
