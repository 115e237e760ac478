/** One query session: a reader that handles client messages one after the other, query tasks that
    run beside it, the shared map of queries in flight, and one ordered stream of replies. The
    protocol is modelled step by step; between any two steps any other task may run. */
module Sessions {
  import opened Sequences

  type QueryId = string
  type Row = int

  const CHUNK_SIZE: nat := 100
  const MAX_INFLIGHT: nat := 3

  datatype Reply =
    | QueryStart(q: QueryId)
    | QueryRows(q: QueryId, rows: seq<Row>, index: nat)
    | QueryComplete(q: QueryId, rowCount: nat)
    | QueryError(q: QueryId)
    | QueryCancelled(q: QueryId)
    | Pong
    | Invalid

  /** What the reader is doing. `Rejecting` and `Acking` hold the lock of the in-flight map;
      between `Checked` and the insertion it is free. */
  datatype Reader = Idle | Checked(q: QueryId) | Rejecting(q: QueryId) | Acking(q: QueryId) | Closed

  /** `ToSend` is the point between the cancellation check and the sending of a chunk. */
  datatype Phase = Spawned | Executing | FallingBack | Streaming | ToSend | Returned | Gone

  /** A task, its cancellation flag, its result once it is known and how many chunks it has sent. */
  datatype Task = Task(phase: Phase, cancelled: bool, known: bool, result: seq<Row>, next: nat)

  datatype State = State(
    reader: Reader, inflight: set<QueryId>, tasks: map<QueryId, Task>, sent: seq<Reply>, seen: set<QueryId>)

  const Init := State(Idle, {}, map[], [], {})

  datatype Event =
    // the reader
    | ReadQuery(q: QueryId) | Reject | Insert
    | ReadCancel(q: QueryId) | Ack
    | ReadPing | ReadGarbage | Close
    // the task of query q
    | ReadOnlyTable(q: QueryId) | Start(q: QueryId) | Interrupted(q: QueryId)
    | FallBack(q: QueryId) | Finished(q: QueryId, rows: seq<Row>) | Failed(q: QueryId)
    | Check(q: QueryId) | Send(q: QueryId) | Complete(q: QueryId) | Leave(q: QueryId)

  predicate InPhase(s: State, q: QueryId, phase: Phase) {
    q in s.tasks && s.tasks[q].phase == phase
  }

  predicate MoreChunks(t: Task) {
    t.next * CHUNK_SIZE < |t.result|
  }

  function Chunk(t: Task): seq<Row>
    requires MoreChunks(t)
  {
    var from := t.next * CHUNK_SIZE;
    t.result[from..if from + CHUNK_SIZE <= |t.result| then from + CHUNK_SIZE else |t.result|]
  }

  /** Query ids are chosen by the client; a new query carries a new id. */
  predicate Enabled(s: State, e: Event) {
    match e
    case ReadQuery(q) => s.reader == Idle && q !in s.seen
    case Reject => s.reader.Rejecting?
    case Insert => s.reader.Checked?
    case ReadCancel(_) => s.reader == Idle
    case Ack => s.reader.Acking?
    case ReadPing => s.reader == Idle
    case ReadGarbage => s.reader == Idle
    case Close => s.reader == Idle
    case ReadOnlyTable(q) => InPhase(s, q, Spawned)
    case Start(q) => InPhase(s, q, Spawned)
    case Interrupted(q) => InPhase(s, q, Executing) && s.tasks[q].cancelled
    case FallBack(q) => InPhase(s, q, Executing)
    case Finished(q, _) => InPhase(s, q, Executing) || InPhase(s, q, FallingBack)
    case Failed(q) => InPhase(s, q, Executing) || InPhase(s, q, FallingBack)
    case Check(q) => InPhase(s, q, Streaming) && MoreChunks(s.tasks[q])
    case Send(q) => InPhase(s, q, ToSend) && MoreChunks(s.tasks[q])
    case Complete(q) => InPhase(s, q, Streaming) && !MoreChunks(s.tasks[q])
    case Leave(q) => InPhase(s, q, Returned) && !s.reader.Rejecting? && !s.reader.Acking?
  }

  function Say(s: State, r: Reply): State {
    s.(sent := s.sent + [r])
  }

  /** Events of a query's own task. */
  predicate OfTask(e: Event) {
    && !e.ReadQuery? && !e.Reject? && !e.Insert? && !e.ReadCancel? && !e.Ack?
    && !e.ReadPing? && !e.ReadGarbage? && !e.Close?
  }

  /** What an event does to its task. */
  function After(t: Task, e: Event): Task {
    match e
    case ReadOnlyTable(_) => t.(phase := Returned)
    case Start(_) => t.(phase := Executing)
    case Interrupted(_) => t.(phase := Returned)
    case FallBack(_) => t.(phase := FallingBack)
    case Finished(_, rows) => t.(phase := Streaming, known := true, result := rows)
    case Failed(_) => t.(phase := Returned)
    case Check(_) => t.(phase := if t.cancelled then Returned else ToSend)
    case Send(_) => t.(phase := Streaming, next := t.next + 1)
    case Complete(_) => t.(phase := Returned)
    case Leave(_) => t.(phase := Gone)
    case _ => t
  }

  /** What the task sends to the client. */
  function Says(t: Task, e: Event): seq<Reply>
    requires e.Send? ==> MoreChunks(t)
  {
    match e
    case ReadOnlyTable(q) => [QueryError(q)]
    case Failed(q) => [QueryError(q)]
    case Start(q) => [QueryStart(q)]
    case Send(q) => [QueryRows(q, Chunk(t), t.next)]
    case Complete(q) => [QueryComplete(q, |t.result|)]
    case _ => []
  }

  /** The state after the task of `q` became `t` and `words` were sent. */
  function Moved(s: State, q: QueryId, t: Task, words: seq<Reply>): State {
    s.(tasks := s.tasks[q := t], sent := s.sent + words)
  }

  function Do(s: State, e: Event): State
    requires Enabled(s, e)
  {
    match e
    case ReadQuery(q) =>
      s.(reader := if |s.inflight| >= MAX_INFLIGHT then Rejecting(q) else Checked(q), seen := s.seen + {q})
    case Reject => Say(s.(reader := Idle), QueryError(s.reader.q))
    case Insert =>
      s.(reader := Idle, inflight := s.inflight + {s.reader.q},
        tasks := s.tasks[s.reader.q := Task(Spawned, false, false, [], 0)])
    case ReadCancel(q) =>
      if q in s.inflight && q in s.tasks then
        s.(reader := Acking(q), inflight := s.inflight - {q}, tasks := s.tasks[q := s.tasks[q].(cancelled := true)])
      else s
    case Ack => Say(s.(reader := Idle), QueryCancelled(s.reader.q))
    case ReadPing => Say(s, Pong)
    case ReadGarbage => Say(s, Invalid)
    case Close => s.(reader := Closed)
    case _ =>
      var t := s.tasks[e.q];
      var moved := Moved(s, e.q, After(t, e), Says(t, e));
      if e.Leave? then moved.(inflight := s.inflight - {e.q}) else moved
  }

  // ---------- What the client sees of one query ----------

  function Acks(sent: seq<Reply>, q: QueryId): nat {
    if sent == [] then 0
    else Acks(sent[..|sent| - 1], q) + if sent[|sent| - 1] == QueryCancelled(q) then 1 else 0
  }

  /** Completions and errors. */
  function Endings(sent: seq<Reply>, q: QueryId): nat {
    if sent == [] then 0
    else
      var last := sent[|sent| - 1];
      Endings(sent[..|sent| - 1], q) + if (last.QueryComplete? || last.QueryError?) && last.q == q then 1 else 0
  }

  function Streamed(sent: seq<Reply>, q: QueryId): seq<Row> {
    if sent == [] then []
    else
      var last := sent[|sent| - 1];
      Streamed(sent[..|sent| - 1], q) + if last.QueryRows? && last.q == q then last.rows else []
  }

  function Indices(sent: seq<Reply>, q: QueryId): seq<nat> {
    if sent == [] then []
    else
      var last := sent[|sent| - 1];
      Indices(sent[..|sent| - 1], q) + if last.QueryRows? && last.q == q then [last.index] else []
  }

  lemma {:induction false} Said(sent: seq<Reply>, r: Reply, q: QueryId)
    ensures Acks(sent + [r], q) == Acks(sent, q) + if r == QueryCancelled(q) then 1 else 0
    ensures Endings(sent + [r], q) ==
              Endings(sent, q) + if (r.QueryComplete? || r.QueryError?) && r.q == q then 1 else 0
    ensures Streamed(sent + [r], q) == Streamed(sent, q) + if r.QueryRows? && r.q == q then r.rows else []
    ensures Indices(sent + [r], q) == Indices(sent, q) + if r.QueryRows? && r.q == q then [r.index] else []
  {
    assert (sent + [r])[..|sent|] == sent;
  }

  /** A reply about another query, or about none, leaves everything about `q` as it was. */
  lemma {:induction false} SaidElsewhere(sent: seq<Reply>, r: Reply, q: QueryId)
    requires r.Pong? || r.Invalid? || r.q != q
    ensures SameView(sent, sent + [r], q)
  {
    Said(sent, r, q);
    assert Streamed(sent, q) + [] == Streamed(sent, q) && Indices(sent, q) + [] == Indices(sent, q);
  }

  ghost predicate SameView(a: seq<Reply>, b: seq<Reply>, q: QueryId) {
    && Acks(a, q) == Acks(b, q) && Endings(a, q) == Endings(b, q)
    && Streamed(a, q) == Streamed(b, q) && Indices(a, q) == Indices(b, q)
    && (forall n :: QueryComplete(q, n) in a <==> QueryComplete(q, n) in b)
    && (QueryError(q) in a <==> QueryError(q) in b) && (QueryStart(q) in a <==> QueryStart(q) in b)
  }

  // ---------- The invariant ----------

  /** The map of queries in flight holds exactly the running tasks that were not cancelled, and
      there is room for the query the reader has just checked. */
  ghost predicate Structure(s: State) {
    && |s.inflight| <= MAX_INFLIGHT && (s.reader.Checked? ==> |s.inflight| < MAX_INFLIGHT)
    && s.inflight <= s.tasks.Keys <= s.seen
    && (s.reader.Checked? || s.reader.Rejecting? ==> s.reader.q in s.seen && s.reader.q !in s.tasks)
    && (s.reader.Acking? ==> s.reader.q in s.tasks && s.tasks[s.reader.q].cancelled)
    && forall q :: q in s.tasks ==> (q in s.inflight <==> !s.tasks[q].cancelled && s.tasks[q].phase != Gone)
  }

  function SentRows(t: Task): nat {
    if MoreChunks(t) then t.next * CHUNK_SIZE else |t.result|
  }

  function UpTo(n: nat): seq<nat> {
    seq(n, i => i)
  }

  predicate Over(p: Phase) {
    p == Returned || p == Gone
  }

  /** Whether the query's execution has begun. */
  predicate Begun(t: Task) {
    t.known || t.phase in {Executing, FallingBack}
  }

  /** A task that is over and was not cancelled has been answered, once: with the whole result, if it
      got one, and else with an error. */
  ghost predicate Answered(t: Task, sent: seq<Reply>, q: QueryId) {
    Endings(sent, q) == 1 && (if t.known then QueryComplete(q, |t.result|) in sent else QueryError(q) in sent)
  }

  /** What the client has seen of a query with a task. */
  ghost predicate TaskView(t: Task, acked: bool, sent: seq<Reply>, q: QueryId) {
    && Acks(sent, q) == (if acked then 1 else 0)
    && Endings(sent, q) <= (if Over(t.phase) then 1 else 0)
    && Indices(sent, q) == UpTo(t.next) && Streamed(sent, q) == t.result[..SentRows(t)]
    && (!t.known ==> t.next == 0 && t.result == [])
    && (t.phase in {Spawned, Executing, FallingBack} ==> !t.known) && (t.phase in {Streaming, ToSend} ==> t.known)
    && (t.phase == ToSend ==> MoreChunks(t))
    && (forall n :: QueryComplete(q, n) in sent ==> t.known && n == |t.result| && !MoreChunks(t) && Over(t.phase))
    && (QueryError(q) in sent ==> !t.known && Over(t.phase))
    && (Over(t.phase) && !t.cancelled ==> Answered(t, sent, q))
    && (Begun(t) ==> QueryStart(q) in sent) && (t.phase == Spawned ==> QueryStart(q) !in sent)
  }

  /** A query without a task was never asked, is being checked, or has been rejected with an error. */
  ghost predicate NoTaskView(rejected: bool, sent: seq<Reply>, q: QueryId) {
    && Acks(sent, q) == 0 && Endings(sent, q) == (if rejected then 1 else 0)
    && (QueryError(q) in sent <==> rejected)
    && Indices(sent, q) == [] && Streamed(sent, q) == []
    && (forall n :: QueryComplete(q, n) !in sent) && QueryStart(q) !in sent
  }

  predicate UnderReview(r: Reader, q: QueryId) {
    (r.Checked? || r.Rejecting?) && r.q == q
  }

  ghost predicate View(s: State, q: QueryId) {
    if q in s.tasks then TaskView(s.tasks[q], s.tasks[q].cancelled && s.reader != Acking(q), s.sent, q)
    else NoTaskView(q in s.seen && !UnderReview(s.reader, q), s.sent, q)
  }

  ghost predicate Inv(s: State) {
    Structure(s) && forall q :: View(s, q)
  }

  // ---------- Every step keeps the structure ----------

  lemma {:induction false} SmallerSet(s: set<QueryId>, q: QueryId)
    ensures |s - {q}| <= |s|
  {
    if q in s { assert s == (s - {q}) + {q}; } else { assert s - {q} == s; }
  }

  lemma {:induction false} MoveKeepsStructure(s: State, q: QueryId, t: Task, words: seq<Reply>)
    requires Structure(s) && q in s.tasks
    requires t.cancelled == s.tasks[q].cancelled && (t.phase == Gone <==> s.tasks[q].phase == Gone)
    ensures Structure(Moved(s, q, t, words))
  {
    assert Moved(s, q, t, words).tasks.Keys == s.tasks.Keys;
  }

  lemma {:induction false} ReaderKeepsStructure(s: State, e: Event)
    requires Structure(s) && Enabled(s, e) && !OfTask(e) && !e.Insert? && !e.ReadCancel?
    ensures Structure(Do(s, e))
  {
  }

  lemma {:induction false} InsertKeepsStructure(s: State)
    requires Structure(s) && s.reader.Checked?
    ensures Structure(Do(s, Insert))
  {
    assert |s.inflight + {s.reader.q}| <= |s.inflight| + 1;
  }

  lemma {:induction false} CancelKeepsStructure(s: State, q: QueryId)
    requires Structure(s) && s.reader == Idle
    ensures Structure(Do(s, ReadCancel(q)))
  {
    SmallerSet(s.inflight, q);
  }

  lemma {:induction false} LeaveKeepsStructure(s: State, q: QueryId)
    requires Structure(s) && Enabled(s, Leave(q))
    ensures Structure(Do(s, Leave(q)))
  {
    SmallerSet(s.inflight, q);
    assert Do(s, Leave(q)).tasks.Keys == s.tasks.Keys;
  }

  lemma {:induction false} StructureKept(s: State, e: Event)
    requires Structure(s) && Enabled(s, e)
    ensures Structure(Do(s, e))
  {
    if e.Insert? {
      InsertKeepsStructure(s);
    } else if e.ReadCancel? {
      CancelKeepsStructure(s, e.q);
    } else if e.Leave? {
      LeaveKeepsStructure(s, e.q);
    } else if OfTask(e) {
      MoveKeepsStructure(s, e.q, After(s.tasks[e.q], e), Says(s.tasks[e.q], e));
    } else {
      ReaderKeepsStructure(s, e);
    }
  }

  // ---------- Every step keeps what the client may see ----------

  /** The query an event is about, if any. */
  function Subject(s: State, e: Event): Option<QueryId>
    requires Enabled(s, e)
  {
    match e
    case ReadQuery(q) => Some(q)
    case Reject => Some(s.reader.q)
    case Insert => Some(s.reader.q)
    case ReadCancel(q) => Some(q)
    case Ack => Some(s.reader.q)
    case ReadPing => None
    case ReadGarbage => None
    case Close => None
    case ReadOnlyTable(q) => Some(q)
    case Start(q) => Some(q)
    case Interrupted(q) => Some(q)
    case FallBack(q) => Some(q)
    case Finished(q, _) => Some(q)
    case Failed(q) => Some(q)
    case Check(q) => Some(q)
    case Send(q) => Some(q)
    case Complete(q) => Some(q)
    case Leave(q) => Some(q)
  }

  /** Nothing that concerns `q` differs between the two states. */
  ghost predicate SameFor(s: State, s': State, q: QueryId) {
    && (q in s.tasks <==> q in s'.tasks) && (q in s.tasks ==> s.tasks[q] == s'.tasks[q])
    && (s.reader == Acking(q) <==> s'.reader == Acking(q)) && (UnderReview(s.reader, q) <==> UnderReview(s'.reader, q))
    && (q in s.seen <==> q in s'.seen) && SameView(s.sent, s'.sent, q)
  }

  lemma {:induction false} OthersUntouchedByQuietReader(s: State, e: Event, q: QueryId)
    requires Enabled(s, e) && (e.ReadQuery? || e.Insert? || e.ReadCancel? || e.Close?) && Subject(s, e) != Some(q)
    ensures SameFor(s, Do(s, e), q)
  {
  }

  /** The reader sends a reply that is not about `q` and becomes idle again. */
  lemma {:induction false} OthersUntouchedByReply(s: State, reader: Reader, r: Reply, q: QueryId)
    requires r.Pong? || r.Invalid? || r.q != q
    requires (reader == Acking(q) <==> s.reader == Acking(q)) && (UnderReview(reader, q) <==> UnderReview(s.reader, q))
    ensures SameFor(s, s.(reader := reader, sent := s.sent + [r]), q)
  {
    SaidElsewhere(s.sent, r, q);
  }

  lemma {:induction false} OthersUntouchedByTask(s: State, e: Event, q: QueryId)
    requires Enabled(s, e) && OfTask(e) && Subject(s, e) != Some(q)
    ensures SameFor(s, Do(s, e), q)
  {
    var s' := Do(s, e);
    if s'.sent != s.sent { SaidElsewhere(s.sent, s'.sent[|s.sent|], q); }
  }

  /** A step leaves the other queries alone. */
  lemma {:induction false} OthersUntouched(s: State, e: Event, q: QueryId)
    requires Enabled(s, e) && Subject(s, e) != Some(q)
    ensures SameFor(s, Do(s, e), q)
  {
    if OfTask(e) {
      OthersUntouchedByTask(s, e, q);
    } else if e.Reject? {
      OthersUntouchedByReply(s, Idle, QueryError(s.reader.q), q);
    } else if e.Ack? {
      OthersUntouchedByReply(s, Idle, QueryCancelled(s.reader.q), q);
    } else if e.ReadPing? {
      OthersUntouchedByReply(s, s.reader, Pong, q);
    } else if e.ReadGarbage? {
      OthersUntouchedByReply(s, s.reader, Invalid, q);
    } else {
      OthersUntouchedByQuietReader(s, e, q);
    }
  }

  lemma {:induction false} SameForKeepsView(s: State, s': State, q: QueryId)
    requires SameFor(s, s', q) && View(s, q)
    ensures View(s', q)
  {
  }

  lemma {:induction false} ReaderKeepsView(s: State, e: Event, q: QueryId)
    requires Structure(s) && Enabled(s, e) && View(s, q) && !OfTask(e) && !e.Insert? && Subject(s, e) == Some(q)
    ensures View(Do(s, e), q)
  {
    match e
    case Reject => Said(s.sent, QueryError(q), q);
    case Ack => Said(s.sent, QueryCancelled(q), q);
    case _ =>
  }

  lemma {:induction false} InsertKeepsView(s: State, q: QueryId)
    requires Structure(s) && s.reader == Checked(q) && View(s, q)
    ensures View(Do(s, Insert), q)
  {
    assert UpTo(0) == [];
  }

  /** Steps of a task that say nothing. */
  lemma {:induction false} SilentStepKeepsView(t: Task, e: Event, acked: bool, sent: seq<Reply>, q: QueryId)
    requires TaskView(t, acked, sent, q)
    requires e.Interrupted? || e.FallBack? ==> t.phase == Executing
    requires e.Interrupted? ==> t.cancelled
    requires e.Finished? ==> t.phase == Executing || t.phase == FallingBack
    requires e.Check? ==> t.phase == Streaming && MoreChunks(t)
    requires e.Leave? ==> t.phase == Returned
    requires e.Interrupted? || e.FallBack? || e.Finished? || e.Check? || e.Leave?
    ensures TaskView(After(t, e), acked, sent, q)
  {
  }

  lemma {:induction false} WordKeepsView(t: Task, e: Event, acked: bool, sent: seq<Reply>, q: QueryId)
    requires TaskView(t, acked, sent, q) && t.phase in {Spawned, Executing, FallingBack}
    requires e == ReadOnlyTable(q) || e == Failed(q) || e == Start(q)
    ensures TaskView(After(t, e), acked, sent + [if e.Start? then QueryStart(q) else QueryError(q)], q)
  {
    if e.Start? { StartKeepsView(t, acked, sent, q); } else { ErrorKeepsView(t, e, acked, sent, q); }
  }

  lemma {:induction false} StartKeepsView(t: Task, acked: bool, sent: seq<Reply>, q: QueryId)
    requires TaskView(t, acked, sent, q) && t.phase in {Spawned, Executing, FallingBack}
    ensures TaskView(After(t, Start(q)), acked, sent + [QueryStart(q)], q)
  {
    Said(sent, QueryStart(q), q);
  }

  lemma {:induction false} ErrorKeepsView(t: Task, e: Event, acked: bool, sent: seq<Reply>, q: QueryId)
    requires TaskView(t, acked, sent, q) && t.phase in {Spawned, Executing, FallingBack}
    requires e == ReadOnlyTable(q) || e == Failed(q)
    ensures TaskView(After(t, e), acked, sent + [QueryError(q)], q)
  {
    Said(sent, QueryError(q), q);
  }

  lemma {:induction false} ChunkKeepsView(t: Task, acked: bool, sent: seq<Reply>, q: QueryId)
    requires TaskView(t, acked, sent, q) && t.phase == ToSend
    ensures TaskView(After(t, Send(q)), acked, sent + [QueryRows(q, Chunk(t), t.next)], q)
  {
    Said(sent, QueryRows(q, Chunk(t), t.next), q);
    var t' := After(t, Send(q));
    assert t'.result[..SentRows(t)] + Chunk(t) == t'.result[..SentRows(t')];
    assert UpTo(t.next) + [t.next] == UpTo(t.next + 1);
  }

  lemma {:induction false} CompletionKeepsView(t: Task, acked: bool, sent: seq<Reply>, q: QueryId)
    requires TaskView(t, acked, sent, q) && t.phase == Streaming && !MoreChunks(t)
    ensures TaskView(After(t, Complete(q)), acked, sent + [QueryComplete(q, |t.result|)], q)
  {
    Said(sent, QueryComplete(q, |t.result|), q);
  }

  lemma {:induction false} TaskKeepsView(s: State, e: Event)
    requires Enabled(s, e) && OfTask(e) && View(s, e.q)
    ensures View(Do(s, e), e.q)
  {
    var t, acked := s.tasks[e.q], s.tasks[e.q].cancelled && s.reader != Acking(e.q);
    assert s.sent + [] == s.sent;
    if e.Send? {
      ChunkKeepsView(t, acked, s.sent, e.q);
    } else if e.Complete? {
      CompletionKeepsView(t, acked, s.sent, e.q);
    } else if e.ReadOnlyTable? || e.Failed? || e.Start? {
      WordKeepsView(t, e, acked, s.sent, e.q);
    } else {
      SilentStepKeepsView(t, e, acked, s.sent, e.q);
    }
  }

  lemma {:induction false} ViewKept(s: State, e: Event, q: QueryId)
    requires Structure(s) && Enabled(s, e) && View(s, q)
    ensures View(Do(s, e), q)
  {
    if Subject(s, e) != Some(q) {
      OthersUntouched(s, e, q);
      SameForKeepsView(s, Do(s, e), q);
    } else if OfTask(e) {
      TaskKeepsView(s, e);
    } else if e.Insert? {
      InsertKeepsView(s, q);
    } else {
      ReaderKeepsView(s, e, q);
    }
  }

  /** Every step of the protocol keeps the invariant. */
  lemma {:induction false} StepKeepsInv(s: State, e: Event)
    requires Inv(s) && Enabled(s, e)
    ensures Inv(Do(s, e))
  {
    StructureKept(s, e);
    forall q ensures View(Do(s, e), q) { ViewKept(s, e, q); }
  }
}
