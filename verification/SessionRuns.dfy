/** Whole query sessions: what holds after any interleaving of the reader with the tasks, and what a
    cancellation stops. */
module SessionRuns {
  import opened Sequences
  import opened Sessions

  /** Whether the events can happen one after the other, in whatever order the tasks were run. */
  predicate Possible(s: State, es: seq<Event>)
    decreases es
  {
    es == [] || (Enabled(s, es[0]) && Possible(Do(s, es[0]), es[1..]))
  }

  function Run(s: State, es: seq<Event>): State
    requires Possible(s, es)
    decreases es
  {
    if es == [] then s else Run(Do(s, es[0]), es[1..])
  }

  lemma {:induction false} RunKeepsInv(s: State, es: seq<Event>)
    requires Inv(s) && Possible(s, es)
    ensures Inv(Run(s, es))
    decreases es
  {
    if es != [] {
      StepKeepsInv(s, es[0]);
      RunKeepsInv(Do(s, es[0]), es[1..]);
    }
  }

  /** In every interleaving of the reader with the tasks: no more than three queries are in flight,
      every running query that was not cancelled is among them, and each query is acknowledged as
      cancelled at most once and completed or failed at most once. */
  lemma {:induction false} SessionIsSafe(es: seq<Event>, q: QueryId)
    requires Possible(Init, es)
    ensures var s := Run(Init, es);
      && |s.inflight| <= 3
      && (q in s.tasks && !s.tasks[q].cancelled && s.tasks[q].phase != Gone <==> q in s.inflight)
      && Acks(s.sent, q) <= 1 && Endings(s.sent, q) <= 1
  {
    RunKeepsInv(Init, es);
    assert View(Run(Init, es), q);
  }

  /** In every interleaving, the chunks of a query are numbered 0, 1, 2, ... and their rows are a
      prefix of the query's result, a hundred for each chunk but the last; once its completion is sent,
      they are the whole result and the completion carries its length. */
  lemma {:induction false} StreamIsPrefix(es: seq<Event>, q: QueryId)
    requires Possible(Init, es) && q in Run(Init, es).tasks
    ensures var s := Run(Init, es);
      && Streamed(s.sent, q) <= s.tasks[q].result
      && Indices(s.sent, q) == UpTo(|Indices(s.sent, q)|)
      && (var n := 100 * |Indices(s.sent, q)|;
          Streamed(s.sent, q) == if n < |s.tasks[q].result| then s.tasks[q].result[..n] else s.tasks[q].result)
      && forall n :: QueryComplete(q, n) in s.sent ==>
           Streamed(s.sent, q) == s.tasks[q].result && n == |s.tasks[q].result|
  {
    RunKeepsInv(Init, es);
    assert View(Run(Init, es), q);
  }

  // ---------- Every query is answered ----------

  /** In every interleaving: a query whose task is over and was not cancelled has got exactly one
      ending, its completion after the whole result or an error without any row; and a query that was
      turned away at the limit has got exactly one ending too, an error. */
  lemma {:induction false} EveryQueryIsAnswered(es: seq<Event>, q: QueryId)
    requires Possible(Init, es) && q in Run(Init, es).seen
    ensures var s := Run(Init, es);
      && (q in s.tasks && Over(s.tasks[q].phase) && !s.tasks[q].cancelled ==>
            && Endings(s.sent, q) == 1
            && if s.tasks[q].known
               then QueryComplete(q, |s.tasks[q].result|) in s.sent && Streamed(s.sent, q) == s.tasks[q].result
               else QueryError(q) in s.sent && Streamed(s.sent, q) == [])
      && (q !in s.tasks && !UnderReview(s.reader, q) ==>
            Endings(s.sent, q) == 1 && QueryError(q) in s.sent && Streamed(s.sent, q) == [])
  {
    RunKeepsInv(Init, es);
    assert View(Run(Init, es), q);
  }

  lemma {:induction false} ResultStays(s: State, es: seq<Event>, q: QueryId)
    requires Inv(s) && Possible(s, es) && q in s.tasks && s.tasks[q].known
    ensures q in Run(s, es).tasks && Run(s, es).tasks[q].known && Run(s, es).tasks[q].result == s.tasks[q].result
    decreases es
  {
    if es != [] {
      assert View(s, q);
      ResultStaysOnce(s, es[0], q);
      StepKeepsInv(s, es[0]);
      ResultStays(Do(s, es[0]), es[1..], q);
    }
  }

  lemma {:induction false} ResultStaysOnce(s: State, e: Event, q: QueryId)
    requires Structure(s) && View(s, q) && Enabled(s, e) && q in s.tasks && s.tasks[q].known
    ensures q in Do(s, e).tasks && Do(s, e).tasks[q].known && Do(s, e).tasks[q].result == s.tasks[q].result
  {
    if Subject(s, e) != Some(q) { OthersUntouched(s, e, q); }
  }

  lemma {:induction false} FinishedStays(s: State, es: seq<Event>, q: QueryId, rows: seq<Row>)
    requires Inv(s) && Possible(s, es) && Finished(q, rows) in es
    ensures q in Run(s, es).tasks && Run(s, es).tasks[q].known && Run(s, es).tasks[q].result == rows
    decreases es
  {
    StepKeepsInv(s, es[0]);
    if es[0] == Finished(q, rows) {
      ResultStays(Do(s, es[0]), es[1..], q);
    } else {
      FinishedStays(Do(s, es[0]), es[1..], q, rows);
    }
  }

  /** In every interleaving: once the engine has returned rows for a query and its task is over without
      having been cancelled, the client has got exactly these rows and the completion. */
  lemma {:induction false} ReturnedRowsAreDelivered(es: seq<Event>, q: QueryId, rows: seq<Row>)
    requires Possible(Init, es) && Finished(q, rows) in es
    requires var s := Run(Init, es); q in s.tasks && Over(s.tasks[q].phase) && !s.tasks[q].cancelled
    ensures var s := Run(Init, es);
      Streamed(s.sent, q) == rows && QueryComplete(q, |rows|) in s.sent && QueryError(q) !in s.sent
  {
    FinishedStays(Init, es, q, rows);
    RunKeepsInv(Init, es);
    assert View(Run(Init, es), q);
  }

  // ---------- How the reader answers ----------

  /** A query is taken up exactly if fewer than three are in flight; otherwise it gets an error at once and
      nothing else changes. */
  lemma {:induction false} QueryIsTakenIff(s: State, q: QueryId)
    requires Structure(s) && Enabled(s, ReadQuery(q))
    ensures var s' := Do(s, ReadQuery(q));
      if |s.inflight| < 3 then
        && Enabled(s', Insert)
        && var taken := Do(s', Insert);
        && InPhase(taken, q, Spawned) && !taken.tasks[q].cancelled && taken.inflight == s.inflight + {q}
        && taken.sent == s.sent && taken.reader == Idle
      else
        Enabled(s', Reject) && Do(s', Reject) == s.(sent := s.sent + [QueryError(q)], seen := s.seen + {q})
  {
  }

  /** A cancellation is acknowledged exactly if the query is in flight; then its task is flagged and its
      place is free. Otherwise it changes nothing. */
  lemma {:induction false} CancelIsAcknowledgedIff(s: State, q: QueryId)
    requires Structure(s) && s.reader == Idle
    ensures Enabled(s, ReadCancel(q))
    ensures var s' := Do(s, ReadCancel(q));
      if q in s.inflight then
        && s'.inflight == s.inflight - {q} && q in s'.tasks && s'.tasks[q].cancelled
        && Enabled(s', Ack) && Do(s', Ack) == s'.(reader := Idle, sent := s.sent + [QueryCancelled(q)])
      else s' == s
  {
  }

  /** A ping gets a pong, a message that cannot be read an error, and nothing else changes; after the client
      has closed, only the tasks go on. */
  lemma {:induction false} OtherMessages(s: State)
    requires s.reader == Idle
    ensures Do(s, ReadPing) == s.(sent := s.sent + [Pong]) && Do(s, ReadGarbage) == s.(sent := s.sent + [Invalid])
    ensures Do(s, Close).(reader := Idle) == s && forall e :: Enabled(Do(s, Close), e) ==> OfTask(e)
  {
  }

  // ---------- No query hangs ----------

  /** What is left to do for a task: the checks and chunks of its rows, the completion, and leaving. A
      cancelled task stops at its next check; one without a result yet is given an empty one. */
  function WayOut(t: Task, q: QueryId): seq<Event>
    decreases
      if t.phase == Spawned then 3 else if t.phase in {Executing, FallingBack} then 2 else 1,
      if MoreChunks(t) then |t.result| - t.next * CHUNK_SIZE else 0,
      if t.phase == ToSend then 0 else 1
  {
    match t.phase
    case Spawned => [Start(q)] + WayOut(t.(phase := Executing), q)
    case Executing =>
      if t.cancelled then [Interrupted(q), Leave(q)] else [Finished(q, []), Complete(q), Leave(q)]
    case FallingBack => [Finished(q, []), Complete(q), Leave(q)]
    case Streaming =>
      if !MoreChunks(t) then [Complete(q), Leave(q)]
      else if t.cancelled then [Check(q), Leave(q)]
      else [Check(q)] + WayOut(t.(phase := ToSend), q)
    case ToSend =>
      if MoreChunks(t) then [Send(q)] + WayOut(t.(phase := Streaming, next := t.next + 1), q) else []
    case Returned => [Leave(q)]
    case Gone => []
  }

  /** A query that has fallen back to the other engine is no longer interrupted: it gets that engine's
      result or error. */
  lemma {:induction false} FallBackIsNotInterrupted(s: State, q: QueryId, rows: seq<Row>)
    requires Enabled(s, FallBack(q))
    ensures var s' := Do(s, FallBack(q));
      && s'.sent == s.sent && !Enabled(s', Interrupted(q)) && !Enabled(s', FallBack(q))
      && Enabled(s', Finished(q, rows)) && Enabled(s', Failed(q))
  {
    assert s.sent + [] == s.sent;
  }

  /** From every reachable state each task can end by its own steps alone, whatever the other tasks do
      not do, as soon as the reader holds no lock; its place among the queries in flight is then free. */
  lemma {:induction false} NoQueryHangs(s: State, q: QueryId)
    requires Inv(s) && q in s.tasks && !s.reader.Rejecting? && !s.reader.Acking?
    ensures var es := WayOut(s.tasks[q], q);
      Possible(s, es) && InPhase(Run(s, es), q, Gone) && q !in Run(s, es).inflight
    decreases
      if s.tasks[q].phase == Spawned then 3 else if s.tasks[q].phase in {Executing, FallingBack} then 2 else 1,
      if MoreChunks(s.tasks[q]) then |s.tasks[q].result| - s.tasks[q].next * CHUNK_SIZE else 0,
      if s.tasks[q].phase == ToSend then 0 else 1
  {
    var t := s.tasks[q];
    assert View(s, q);
    match t.phase
    case Spawned => WayGoesOn(s, q, Start(q));
    case Executing =>
      if t.cancelled { LeaveAfter(s, q, Interrupted(q)); } else { FinishAndLeave(s, q); }
    case FallingBack => FinishAndLeave(s, q);
    case Streaming =>
      if !MoreChunks(t) { LeaveAfter(s, q, Complete(q)); }
      else if t.cancelled { LeaveAfter(s, q, Check(q)); }
      else { WayGoesOn(s, q, Check(q)); }
    case ToSend => WayGoesOn(s, q, Send(q));
    case Returned => Unroll(s, [Leave(q)]);
    case Gone =>
  }

  lemma {:induction false} LeaveAfter(s: State, q: QueryId, e: Event)
    requires Enabled(s, e) && OfTask(e) && e.q == q && InPhase(Do(s, e), q, Returned)
    requires !s.reader.Rejecting? && !s.reader.Acking?
    ensures Possible(s, [e, Leave(q)])
    ensures InPhase(Run(s, [e, Leave(q)]), q, Gone) && q !in Run(s, [e, Leave(q)]).inflight
  {
    Unroll(Do(s, e), [Leave(q)]);
    OneStepMore(s, e, [Leave(q)]);
    assert [e] + [Leave(q)] == [e, Leave(q)];
  }

  lemma {:induction false} FinishAndLeave(s: State, q: QueryId)
    requires InPhase(s, q, Executing) || InPhase(s, q, FallingBack)
    requires s.tasks[q].next == 0 && !s.reader.Rejecting? && !s.reader.Acking?
    ensures var es := [Finished(q, []), Complete(q), Leave(q)];
      Possible(s, es) && InPhase(Run(s, es), q, Gone) && q !in Run(s, es).inflight
  {
    LeaveAfter(Do(s, Finished(q, [])), q, Complete(q));
    OneStepMore(s, Finished(q, []), [Complete(q), Leave(q)]);
    assert [Finished(q, [])] + [Complete(q), Leave(q)] == [Finished(q, []), Complete(q), Leave(q)];
  }

  /** One step of the way, after which the rest works. */
  lemma {:induction false} WayGoesOn(s: State, q: QueryId, e: Event)
    requires Inv(s) && Enabled(s, e) && !s.reader.Rejecting? && !s.reader.Acking?
    requires (e == Start(q) && InPhase(s, q, Spawned)) || e == Send(q)
             || (e == Check(q) && q in s.tasks && !s.tasks[q].cancelled)
    ensures WayOut(s.tasks[q], q) == [e] + WayOut(Do(s, e).tasks[q], q)
    ensures var es := WayOut(s.tasks[q], q);
      Possible(s, es) && InPhase(Run(s, es), q, Gone) && q !in Run(s, es).inflight
    decreases
      if s.tasks[q].phase == Spawned then 3 else if s.tasks[q].phase in {Executing, FallingBack} then 2 else 1,
      if MoreChunks(s.tasks[q]) then |s.tasks[q].result| - s.tasks[q].next * CHUNK_SIZE else 0,
      if s.tasks[q].phase == ToSend then 0 else 1, 0
  {
    StepKeepsInv(s, e);
    NoQueryHangs(Do(s, e), q);
    OneStepMore(s, e, WayOut(Do(s, e).tasks[q], q));
  }

  /** While its rows are streamed an uncancelled query can be completed by its own steps: whatever the
      reader does then, the client can have the whole result. */
  lemma {:induction false} StreamingCompletes(s: State, q: QueryId)
    requires Inv(s) && q in s.tasks && s.tasks[q].phase in {Streaming, ToSend} && !s.tasks[q].cancelled
    requires !s.reader.Rejecting? && !s.reader.Acking?
    ensures var es := WayOut(s.tasks[q], q);
      && Possible(s, es) && Streamed(Run(s, es).sent, q) == s.tasks[q].result
      && QueryComplete(q, |s.tasks[q].result|) in Run(s, es).sent
  {
    var es := WayOut(s.tasks[q], q);
    assert View(s, q);
    NoQueryHangs(s, q);
    RunKeepsInv(s, es);
    ResultStays(s, es, q);
    OwnStepsCancelNothing(s, es, q);
    assert View(Run(s, es), q);
  }

  lemma {:induction false} WayIsOwn(t: Task, q: QueryId)
    ensures forall e :: e in WayOut(t, q) ==> OfTask(e) && e.q == q
    decreases
      if t.phase == Spawned then 3 else if t.phase in {Executing, FallingBack} then 2 else 1,
      if MoreChunks(t) then |t.result| - t.next * CHUNK_SIZE else 0,
      if t.phase == ToSend then 0 else 1
  {
    match t.phase
    case Spawned => WayIsOwn(t.(phase := Executing), q);
    case Streaming => if MoreChunks(t) && !t.cancelled { WayIsOwn(t.(phase := ToSend), q); }
    case ToSend => if MoreChunks(t) { WayIsOwn(t.(phase := Streaming, next := t.next + 1), q); }
    case _ =>
  }

  lemma {:induction false} OwnStepsCancelNothing(s: State, es: seq<Event>, q: QueryId)
    requires Possible(s, es) && q in s.tasks && es == WayOut(s.tasks[q], q)
    ensures q in Run(s, es).tasks && Run(s, es).tasks[q].cancelled == s.tasks[q].cancelled
  {
    WayIsOwn(s.tasks[q], q);
    OwnSteps(s, es, q);
  }

  lemma {:induction false} OwnSteps(s: State, es: seq<Event>, q: QueryId)
    requires Possible(s, es) && q in s.tasks && forall e :: e in es ==> OfTask(e) && e.q == q
    ensures q in Run(s, es).tasks && Run(s, es).tasks[q].cancelled == s.tasks[q].cancelled
    decreases es
  {
    if es != [] {
      assert es[0] in es;
      OwnSteps(Do(s, es[0]), es[1..], q);
    }
  }

  // ---------- What cancelling stops, and what it does not ----------

  /** Chunks sent so far, and one more if the task is past its cancellation check. */
  function Committed(s: State, q: QueryId): nat {
    |Indices(s.sent, q)| + if InPhase(s, q, ToSend) then 1 else 0
  }

  lemma {:induction false} StepCommitsNothing(s: State, e: Event, q: QueryId)
    requires Structure(s) && Enabled(s, e) && q in s.tasks && s.tasks[q].cancelled
    ensures q in Do(s, e).tasks && Do(s, e).tasks[q].cancelled && Committed(Do(s, e), q) <= Committed(s, q)
  {
    if Subject(s, e) != Some(q) {
      OthersUntouched(s, e, q);
    } else {
      var s' := Do(s, e);
      if s'.sent != s.sent { Said(s.sent, s'.sent[|s.sent|], q); }
    }
  }

  /** Once a query is cancelled, the client gets at most the one chunk whose check was passed
      before the cancellation, however long the session goes on. */
  lemma {:induction false} CancelStopsTheStream(s: State, es: seq<Event>, q: QueryId)
    requires Inv(s) && Possible(s, es) && q in s.tasks && s.tasks[q].cancelled
    ensures |Indices(Run(s, es).sent, q)| <= |Indices(s.sent, q)| + if s.tasks[q].phase == ToSend then 1 else 0
    decreases es
  {
    CommittedNeverGrows(s, es, q);
  }

  lemma {:induction false} CommittedNeverGrows(s: State, es: seq<Event>, q: QueryId)
    requires Inv(s) && Possible(s, es) && q in s.tasks && s.tasks[q].cancelled
    ensures Committed(Run(s, es), q) <= Committed(s, q)
    decreases es
  {
    if es != [] {
      StepCommitsNothing(s, es[0], q);
      StepKeepsInv(s, es[0]);
      CommittedNeverGrows(Do(s, es[0]), es[1..], q);
    }
  }

  /** A query that was acknowledged as cancelled may still be reported complete: a result without
      rows is never checked for cancellation. */
  lemma {:induction false} CancelledMayComplete(q: QueryId)
    ensures var es := [ReadQuery(q), Insert, Start(q), ReadCancel(q), Ack, Finished(q, []), Complete(q)];
      && Possible(Init, es)
      && Run(Init, es).sent == [QueryStart(q), QueryCancelled(q), QueryComplete(q, 0)]
  {
    var tail := [ReadCancel(q), Ack, Finished(q, []), Complete(q)];
    CompletesAfterCancel(Do(Do(Do(Init, ReadQuery(q)), Insert), Start(q)), q);
    OneStepMore(Do(Do(Init, ReadQuery(q)), Insert), Start(q), tail);
    OneStepMore(Do(Init, ReadQuery(q)), Insert, [Start(q)] + tail);
    OneStepMore(Init, ReadQuery(q), [Insert] + ([Start(q)] + tail));
    assert [ReadQuery(q)] + ([Insert] + ([Start(q)] + tail)) ==
           [ReadQuery(q), Insert, Start(q), ReadCancel(q), Ack, Finished(q, []), Complete(q)];
  }

  lemma {:induction false} OneStepMore(s: State, e: Event, es: seq<Event>)
    requires Enabled(s, e) && Possible(Do(s, e), es)
    ensures Possible(s, [e] + es) && Run(s, [e] + es) == Run(Do(s, e), es)
  {
    assert ([e] + es)[0] == e && ([e] + es)[1..] == es;
  }

  lemma {:induction false} CompletesAfterCancel(s: State, q: QueryId)
    requires InPhase(s, q, Executing) && s.reader == Idle && q in s.inflight && s.tasks[q].next == 0
    ensures var es := [ReadCancel(q), Ack, Finished(q, []), Complete(q)];
      Possible(s, es) && Run(s, es).sent == s.sent + [QueryCancelled(q), QueryComplete(q, 0)]
  {
    var s1 := Do(s, ReadCancel(q));
    var s2 := Do(s1, Ack);
    var s3 := Do(s2, Finished(q, []));
    Unroll(s3, [Complete(q)]);
    Unroll(s2, [Finished(q, []), Complete(q)]);
    Unroll(s1, [Ack, Finished(q, []), Complete(q)]);
    Unroll(s, [ReadCancel(q), Ack, Finished(q, []), Complete(q)]);
    assert s.sent + [QueryCancelled(q)] + [QueryComplete(q, 0)] == s.sent + [QueryCancelled(q), QueryComplete(q, 0)];
  }

  lemma {:induction false} Unroll(s: State, es: seq<Event>)
    requires es != [] && Enabled(s, es[0]) && Possible(Do(s, es[0]), es[1..])
    ensures Possible(s, es) && Run(s, es) == Run(Do(s, es[0]), es[1..])
  {
  }

  predicate CompletedWith(s: State, q: QueryId, n: nat) {
    QueryComplete(q, n) in s.sent
  }

  /** The row counts a cancelled task may still report. Before its rows are streamed, every chunk of
      the result would have to pass a cancellation check, so only an empty result gets through;
      afterwards the rest of the result must hold no chunk that has yet to be checked. */
  predicate MayReport(t: Task, n: nat) {
    match t.phase
    case Spawned => n == 0
    case Executing => n == 0
    case FallingBack => n == 0
    case Streaming => !MoreChunks(t) && n == |t.result|
    case ToSend => (t.next + 1) * CHUNK_SIZE >= |t.result| && n == |t.result|
    case Returned => false
    case Gone => false
  }

  lemma {:induction false} StepReportsNothingElse(s: State, e: Event, q: QueryId, n: nat)
    requires Structure(s) && View(s, q) && Enabled(s, e) && q in s.tasks && s.tasks[q].cancelled
    requires !MayReport(s.tasks[q], n) && !CompletedWith(s, q, n)
    ensures q in Do(s, e).tasks && Do(s, e).tasks[q].cancelled
    ensures !MayReport(Do(s, e).tasks[q], n) && !CompletedWith(Do(s, e), q, n)
  {
    if Subject(s, e) != Some(q) {
      OthersUntouched(s, e, q);
    }
  }

  lemma {:induction false} RunReportsNothingElse(s: State, es: seq<Event>, q: QueryId, n: nat)
    requires Inv(s) && Possible(s, es) && q in s.tasks && s.tasks[q].cancelled
    requires !MayReport(s.tasks[q], n) && !CompletedWith(s, q, n)
    ensures !CompletedWith(Run(s, es), q, n)
    decreases es
  {
    if es != [] {
      assert View(s, q);
      StepReportsNothingElse(s, es[0], q, n);
      StepKeepsInv(s, es[0]);
      RunReportsNothingElse(Do(s, es[0]), es[1..], q, n);
    }
  }

  /** The events that bring a task to a completion it may still report. */
  function WayToCompletion(t: Task, q: QueryId): seq<Event> {
    match t.phase
    case Spawned => [Start(q), Finished(q, []), Complete(q)]
    case ToSend => [Send(q), Complete(q)]
    case Streaming => [Complete(q)]
    case _ => [Finished(q, []), Complete(q)]
  }

  lemma {:induction false} WayWorks(s: State, q: QueryId, n: nat)
    requires View(s, q) && q in s.tasks && MayReport(s.tasks[q], n)
    ensures var es := WayToCompletion(s.tasks[q], q); Possible(s, es) && CompletedWith(Run(s, es), q, n)
  {
    match s.tasks[q].phase
    case Spawned =>
      FinishFrom(Do(s, Start(q)), q);
      Unroll(s, [Start(q), Finished(q, []), Complete(q)]);
    case ToSend =>
      CompleteFrom(Do(s, Send(q)), q);
      Unroll(s, [Send(q), Complete(q)]);
    case Streaming => CompleteFrom(s, q);
    case _ => FinishFrom(s, q);
  }

  lemma {:induction false} CompleteFrom(s: State, q: QueryId)
    requires InPhase(s, q, Streaming) && !MoreChunks(s.tasks[q])
    ensures Possible(s, [Complete(q)]) && CompletedWith(Run(s, [Complete(q)]), q, |s.tasks[q].result|)
  {
    var s' := Do(s, Complete(q));
    assert s'.sent[|s.sent|] == QueryComplete(q, |s.tasks[q].result|);
    Unroll(s, [Complete(q)]);
  }

  lemma {:induction false} FinishFrom(s: State, q: QueryId)
    requires InPhase(s, q, Executing) || InPhase(s, q, FallingBack)
    requires s.tasks[q].next == 0
    ensures Possible(s, [Finished(q, []), Complete(q)])
    ensures CompletedWith(Run(s, [Finished(q, []), Complete(q)]), q, 0)
  {
    CompleteFrom(Do(s, Finished(q, [])), q);
    Unroll(s, [Finished(q, []), Complete(q)]);
  }

  ghost predicate CanComplete(s: State, q: QueryId, n: nat) {
    exists es :: Possible(s, es) && CompletedWith(Run(s, es), q, n)
  }

  /** Cancelling does not always prevent the completion. Exactly which completions some continuation
      may still report: one without rows while the query has not begun to stream, and the whole
      result once no chunk of it has yet to pass a cancellation check. */
  lemma {:induction false} CancelledCompletesIff(s: State, q: QueryId, n: nat)
    requires Inv(s) && q in s.tasks && s.tasks[q].cancelled && !CompletedWith(s, q, n)
    ensures CanComplete(s, q, n) <==> MayReport(s.tasks[q], n)
  {
    if MayReport(s.tasks[q], n) {
      assert View(s, q);
      WayWorks(s, q, n);
    } else {
      forall es | Possible(s, es) ensures !CompletedWith(Run(s, es), q, n) { RunReportsNothingElse(s, es, q, n); }
    }
  }

  /** A query cancelled before its rows were streamed can complete only with no rows, whatever
      happens afterwards, and the client gets no row of it. */
  lemma {:induction false} EarlyCancelYieldsNoRows(s: State, es: seq<Event>, q: QueryId)
    requires Inv(s) && Possible(s, es) && q in s.tasks && s.tasks[q].cancelled
    requires s.tasks[q].phase in {Spawned, Executing, FallingBack}
    ensures Streamed(Run(s, es).sent, q) == [] && forall n :: CompletedWith(Run(s, es), q, n) ==> n == 0
  {
    CommittedNeverGrows(s, es, q);
    RunKeepsInv(s, es);
    RunKeepsTask(s, es, q);
    assert View(s, q) && View(Run(s, es), q);
  }

  lemma {:induction false} RunKeepsTask(s: State, es: seq<Event>, q: QueryId)
    requires Inv(s) && Possible(s, es) && q in s.tasks && s.tasks[q].cancelled
    ensures q in Run(s, es).tasks
    decreases es
  {
    if es != [] {
      StepCommitsNothing(s, es[0], q);
      StepKeepsInv(s, es[0]);
      RunKeepsTask(Do(s, es[0]), es[1..], q);
    }
  }
}
