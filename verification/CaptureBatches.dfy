/** The two batching loops of change capture: documents of the initial snapshot and events of the
    change stream travel to the consumer in batches, over a channel that may close at any time. */
module CaptureBatches {
  import opened ChangeCapture
  import opened Sequences

  const SNAPSHOT_BATCH: nat := 1000
  const STREAM_BATCH: nat := 100

  /** A change event with its resume token. */
  datatype Event = Event(token: nat, change: Change)

  /** One answer of the change stream within the flush interval. */
  datatype Poll = Item(event: Event) | Ended | Failed | TimedOut

  datatype Step = Row(doc: Change) | ReadError

  /** What the loops meet: whether the source is still wanted at each turn, which batches can be
      encoded, and whether each attempted send finds the channel open. */
  datatype Surroundings = Surroundings(running: nat -> bool, encodes: nat -> bool, open: nat -> bool)

  /** Whether that attempt to send a batch succeeds. */
  predicate Delivers(s: Surroundings, attempt: nat) {
    s.encodes(attempt) && s.open(attempt)
  }

  ghost predicate AllDelivered(s: Surroundings, attempts: nat) {
    forall a :: 0 <= a < attempts ==> Delivers(s, a)
  }

  /** The source was no longer wanted at one of the first `n` turns. */
  ghost predicate Stopped(s: Surroundings, n: nat) {
    exists i :: 0 <= i < n && !s.running(i)
  }

  ghost predicate Smooth(s: Surroundings) {
    forall i :: s.running(i) && s.encodes(i) && s.open(i)
  }

  /** The documents before the first read error. */
  function Rows(cursor: seq<Step>): seq<Change> {
    if cursor == [] || cursor[0].ReadError? then [] else [cursor[0].doc] + Rows(cursor[1..])
  }

  lemma {:induction false} RowsPrefix(cursor: seq<Step>, i: nat)
    requires i < |cursor| && forall j :: 0 <= j < i ==> cursor[j].Row?
    ensures cursor[i].Row? ==> Rows(cursor[..i + 1]) == Rows(cursor[..i]) + [cursor[i].doc]
    ensures Rows(cursor[..i]) <= Rows(cursor)
    ensures cursor[i].ReadError? ==> Rows(cursor[..i]) == Rows(cursor)
  {
    if i > 0 {
      RowsPrefix(cursor[1..], i - 1);
      assert cursor[..i + 1][1..] == cursor[1..][..i] && cursor[..i][1..] == cursor[1..][..i - 1];
    }
  }

  /** The loop state after `i` documents. */
  ghost predicate Snapped(cursor: seq<Step>, i: nat, sent: seq<seq<Change>>, buffer: seq<Change>) {
    && i <= |cursor| && (forall j :: 0 <= j < i ==> cursor[j].Row?)
    && Concat(sent) + buffer == Rows(cursor[..i])
  }

  ghost predicate AllFull(sent: seq<seq<Change>>) {
    forall k :: 0 <= k < |sent| ==> |sent[k]| == SNAPSHOT_BATCH
  }

  ghost predicate InBatches(sent: seq<seq<Change>>) {
    forall b :: b in sent ==> 0 < |b| <= SNAPSHOT_BATCH
  }

  lemma {:induction false} SnapOne(cursor: seq<Step>, i: nat, sent: seq<seq<Change>>, buffer: seq<Change>)
    requires i < |cursor| && cursor[i].Row? && Snapped(cursor, i, sent, buffer)
    ensures Snapped(cursor, i + 1, sent, buffer + [cursor[i].doc])
  {
    RowsPrefix(cursor, i);
    Associates(Concat(sent), buffer, [cursor[i].doc]);
  }

  lemma {:induction false} SnapSent(cursor: seq<Step>, i: nat, sent: seq<seq<Change>>, buffer: seq<Change>)
    requires Snapped(cursor, i, sent, buffer)
    ensures Snapped(cursor, i, sent + [buffer], []) && |Concat(sent + [buffer])| == |Concat(sent)| + |buffer|
  {
    ConcatSnoc(sent, buffer);
    assert Concat(sent + [buffer]) + [] == Concat(sent + [buffer]);
  }

  /** Wherever the loop ends, what was sent is a prefix of the documents. */
  lemma {:induction false} SnapEnds(cursor: seq<Step>, i: nat, sent: seq<seq<Change>>, buffer: seq<Change>)
    requires Snapped(cursor, i, sent, buffer)
    ensures Concat(sent) <= Rows(cursor)
    ensures i < |cursor| && cursor[i].ReadError? ==> |Rows(cursor)| == |Concat(sent)| + |buffer|
    ensures i == |cursor| && buffer == [] ==> Concat(sent) == Rows(cursor)
  {
    PrefixOfRows(cursor, i);
    if i < |cursor| { RowsPrefix(cursor, i); }
    if buffer == [] { assert Concat(sent) + [] == Concat(sent); }
  }

  /** How a snapshot ended. Every batch but the last holds a thousand documents. Documents are left
      out only for a reason: a failed attempt, a stop, or a read error with less than a batch pending;
      and it fails only for a read error or a batch that cannot be encoded. */
  ghost predicate Snapshotted(cursor: seq<Step>, env: Surroundings, ok: bool, sent: seq<seq<Change>>) {
    && AllDelivered(env, |sent|) && (forall k :: 0 <= k < |sent| - 1 ==> |sent[k]| == 1000)
    && (ok ==> Concat(sent) == Rows(cursor) || !env.open(|sent|) || Stopped(env, |cursor|))
    && (!ok ==> !env.encodes(|sent|) || (ReadError in cursor && |Rows(cursor)| - |Concat(sent)| < SNAPSHOT_BATCH))
  }

  /** Sends the documents the cursor yields in batches of a thousand. Whatever happens, the batches
      that got through are a prefix of the documents in order. */
  method RunSnapshot(cursor: seq<Step>, env: Surroundings) returns (ok: bool, sent: seq<seq<Change>>, total: nat)
    ensures Concat(sent) <= Rows(cursor)
    ensures forall b :: b in sent ==> 0 < |b| <= 1000
    ensures Snapshotted(cursor, env, ok, sent) && total >= |Concat(sent)|
    ensures env.open(|sent|) ==> total == |Concat(sent)|
    ensures Smooth(env) && (forall s :: s in cursor ==> s.Row?) ==>
              ok && Concat(sent) == Rows(cursor) && total == |Rows(cursor)|
  {
    sent, total := [], 0;
    var buffer: seq<Change> := [];
    var i, attempts := 0, 0;
    while i < |cursor|
      invariant Snapped(cursor, i, sent, buffer)
      invariant |buffer| < SNAPSHOT_BATCH && InBatches(sent)
      invariant total == |Concat(sent)| && attempts == |sent|
      invariant AllDelivered(env, |sent|) && AllFull(sent)
    {
      SnapEnds(cursor, i, sent, buffer);
      assert cursor[i] in cursor;
      if cursor[i].ReadError? { return false, sent, total; }
      if !env.running(i) { break; }
      SnapOne(cursor, i, sent, buffer);
      buffer := buffer + [cursor[i].doc];
      i := i + 1;
      if |buffer| >= SNAPSHOT_BATCH {
        if !env.encodes(attempts) { return false, sent, total; }
        total := total + |buffer|;
        if !env.open(attempts) { return true, sent, total; }
        SnapSent(cursor, i, sent, buffer);
        OneMoreDelivered(env, attempts);
        sent := sent + [buffer];
        buffer := [];
        attempts := attempts + 1;
      }
    }
    SnapEnds(cursor, i, sent, buffer);
    ok := true;
    if buffer != [] {
      if !env.encodes(attempts) { return false, sent, total; }
      total := total + |buffer|;
      if env.open(attempts) {
        SnapSent(cursor, i, sent, buffer);
        OneMoreDelivered(env, attempts);
        sent := sent + [buffer];
        SnapEnds(cursor, i, sent, []);
      }
    }
  }

  lemma {:induction false} PrefixOfRows(cursor: seq<Step>, i: nat)
    requires i <= |cursor| && forall j :: 0 <= j < i ==> cursor[j].Row?
    ensures Rows(cursor[..i]) <= Rows(cursor)
    ensures i == |cursor| ==> Rows(cursor[..i]) == Rows(cursor)
  {
    if i < |cursor| { RowsPrefix(cursor, i); } else { assert cursor[..i] == cursor; }
  }

  function Changes(events: seq<Event>): seq<Change> {
    seq(|events|, i requires 0 <= i < |events| => events[i].change)
  }

  /** The events a stream yields before it ends or fails. */
  function Items(polls: seq<Poll>): seq<Event> {
    if polls == [] || polls[0].Ended? || polls[0].Failed? then []
    else (if polls[0].Item? then [polls[0].event] else []) + Items(polls[1..])
  }

  /** The event of an answer, if it has one. */
  function EventOf(p: Poll): seq<Event> {
    if p.Item? then [p.event] else []
  }

  predicate Continues(p: Poll) {
    p.Item? || p.TimedOut?
  }

  lemma {:induction false} PrefixTails<T>(s: seq<T>, i: nat)
    requires 0 < i < |s|
    ensures s[..i + 1][1..] == s[1..][..i] && s[..i][1..] == s[1..][..i - 1]
    ensures s[..i + 1][0] == s[0] == s[..i][0] && s[1..][i - 1] == s[i]
  {
  }

  lemma {:induction false} ItemsFirst(polls: seq<Poll>)
    requires polls != [] && Continues(polls[0])
    ensures Items(polls) == EventOf(polls[0]) + Items(polls[1..])
  {
  }

  lemma {:induction false} ItemsPrefix(polls: seq<Poll>, i: nat)
    requires i < |polls| && forall j :: 0 <= j < i ==> Continues(polls[j])
    ensures Continues(polls[i]) ==>
              Items(polls[..i + 1]) == Items(polls[..i]) + if polls[i].Item? then [polls[i].event] else []
    ensures Items(polls[..i]) <= Items(polls)
    ensures !Continues(polls[i]) ==> Items(polls[..i]) == Items(polls)
  {
    if i > 0 {
      ItemsPrefix(polls[1..], i - 1);
      PrefixTails(polls, i);
      ItemsFirst(polls[..i + 1]);
      ItemsFirst(polls[..i]);
      ItemsFirst(polls);
      Associates(EventOf(polls[0]), Items(polls[1..][..i - 1]), EventOf(polls[i]));
    } else {
      assert polls[..1][1..] == [];
    }
  }

  lemma {:induction false} PrefixOfItems(polls: seq<Poll>, i: nat)
    requires i <= |polls| && forall j :: 0 <= j < i ==> Continues(polls[j])
    ensures Items(polls[..i]) <= Items(polls)
    ensures i == |polls| || !Continues(polls[i]) ==> Items(polls[..i]) == Items(polls)
  {
    if i < |polls| { ItemsPrefix(polls, i); } else { assert polls[..i] == polls; }
  }

  function LastToken(first: Option<nat>, events: seq<Event>): Option<nat> {
    if events == [] then first else Some(events[|events| - 1].token)
  }

  // ---------- Where the stream is cut into batches ----------

  /** The closed batches and the one still filling. */
  datatype Cutting = Cutting(closed: seq<seq<Event>>, open: seq<Event>)

  /** A batch is closed when it is full, or when nothing arrived for a while. */
  function CutOne(c: Cutting, p: Poll): Cutting {
    var open := c.open + EventOf(p);
    if |open| >= STREAM_BATCH || (p.TimedOut? && open != []) then Cutting(c.closed + [open], [])
    else Cutting(c.closed, open)
  }

  function Cut(polls: seq<Poll>): Cutting {
    if polls == [] then Cutting([], []) else CutOne(Cut(polls[..|polls| - 1]), polls[|polls| - 1])
  }

  /** The batches after which nothing is pending. */
  function Whole(c: Cutting): seq<seq<Event>> {
    if c.open == [] then c.closed else c.closed + [c.open]
  }

  lemma {:induction false} CutNext(polls: seq<Poll>, i: nat)
    requires i < |polls|
    ensures Cut(polls[..i + 1]) == CutOne(Cut(polls[..i]), polls[i])
  {
    assert polls[..i + 1][..i] == polls[..i];
  }

  /** No batch is empty or larger than a hundred, and after a quiet interval nothing is pending. */
  lemma {:induction false} CutSizes(polls: seq<Poll>)
    ensures |Cut(polls).open| < STREAM_BATCH && Batched(Cut(polls).closed)
    ensures polls != [] && polls[|polls| - 1].TimedOut? ==> Cut(polls).open == []
  {
    if polls != [] {
      CutSizes(polls[..|polls| - 1]);
    }
  }

  /** The batch ends with the events received up to a quiet interval. */
  ghost predicate EndsQuietly(polls: seq<Poll>, closed: seq<seq<Event>>, k: nat)
    requires k < |closed|
  {
    exists i :: 0 <= i < |polls| && polls[i].TimedOut? && Concat(closed[..k + 1]) == Items(polls[..i])
  }

  /** A batch is closed early only by a quiet interval. */
  lemma {:induction false} ShortBatchesEndQuietly(polls: seq<Poll>, k: nat)
    requires (forall j :: 0 <= j < |polls| ==> Continues(polls[j])) && k < |Cut(polls).closed|
    ensures |Cut(polls).closed[k]| == 100 || EndsQuietly(polls, Cut(polls).closed, k)
  {
    var last := |polls| - 1;
    var init, before, after := polls[..last], Cut(polls[..last]), Cut(polls);
    if k < |before.closed| {
      ShortBatchesEndQuietly(init, k);
      if |before.closed[k]| != STREAM_BATCH { QuietStays(init, polls[last], before.closed, after.closed, k); }
      InitAndLastPoll(polls);
    } else if |after.closed[k]| != STREAM_BATCH {
      CutSizes(init);
      LastBatchQuiet(polls);
    }
  }

  lemma {:induction false} InitAndLastPoll(polls: seq<Poll>)
    requires polls != []
    ensures polls == polls[..|polls| - 1] + [polls[|polls| - 1]]
  {
  }

  lemma {:induction false} QuietStays(init: seq<Poll>, p: Poll, before: seq<seq<Event>>, after: seq<seq<Event>>, k: nat)
    requires before <= after && k < |before| && EndsQuietly(init, before, k)
    ensures EndsQuietly(init + [p], after, k)
  {
    var polls := init + [p];
    var i :| 0 <= i < |init| && init[i].TimedOut? && Concat(before[..k + 1]) == Items(init[..i]);
    assert polls[..i] == init[..i] && polls[i] == init[i] && after[..k + 1] == before[..k + 1];
  }

  lemma {:induction false} LastBatchQuiet(polls: seq<Poll>)
    requires polls != [] && (forall j :: 0 <= j < |polls| ==> Continues(polls[j])) && polls[|polls| - 1].TimedOut?
    requires Cut(polls).open == [] && Cut(polls).closed != []
    ensures EndsQuietly(polls, Cut(polls).closed, |Cut(polls).closed| - 1)
  {
    var last, closed := |polls| - 1, Cut(polls).closed;
    CutHoldsItems(polls);
    assert closed[..|closed|] == closed && Concat(closed) + [] == Concat(closed);
    ItemsPrefix(polls, last);
    assert polls[..last + 1] == polls && Items(polls[..last]) + [] == Items(polls[..last]);
  }

  /** The batches hold the events received, in order. */
  lemma {:induction false} CutHoldsItems(polls: seq<Poll>)
    requires forall j :: 0 <= j < |polls| ==> Continues(polls[j])
    ensures Concat(Cut(polls).closed) + Cut(polls).open == Items(polls)
  {
    if polls != [] {
      var last := |polls| - 1;
      var c := Cut(polls[..last]);
      CutHoldsItems(polls[..last]);
      ItemsPrefix(polls, last);
      assert polls[..last + 1] == polls;
      Associates(Concat(c.closed), c.open, EventOf(polls[last]));
      ConcatSnoc(c.closed, c.open + EventOf(polls[last]));
      var all := Concat(c.closed + [c.open + EventOf(polls[last])]);
      assert all + [] == all;
    }
  }

  /** Everything received has been sent or is in the last `lost` events, at most one batch. */
  ghost predicate Accounted(received: seq<Event>, sent: seq<seq<Event>>, lost: seq<Event>) {
    Concat(sent) + lost == received && |lost| <= STREAM_BATCH
  }

  datatype Fate = Sent | NotEncoded | Closed

  /** One attempt to encode and send a batch. */
  method Flush(sent: seq<seq<Event>>, batch: seq<Event>, env: Surroundings, attempt: nat)
    returns (after: seq<seq<Event>>, fate: Fate)
    requires 0 < |batch| <= STREAM_BATCH && forall b :: b in sent ==> 0 < |b| <= STREAM_BATCH
    ensures fate.Sent? ==> Concat(after) == Concat(sent) + batch
    ensures fate.Sent? ==> after == sent + [batch]
    ensures !fate.Sent? ==> after == sent
    ensures forall b :: b in after ==> 0 < |b| <= STREAM_BATCH
    ensures fate == if !env.encodes(attempt) then NotEncoded else if !env.open(attempt) then Closed else Sent
    ensures fate.Sent? <==> Delivers(env, attempt)
  {
    after := sent;
    if !env.encodes(attempt) { return after, NotEncoded; }
    if !env.open(attempt) { return after, Closed; }
    ConcatSnoc(sent, batch);
    return sent + [batch], Sent;
  }

  /** The loop state after `i` answers of the stream. */
  ghost predicate Relayed(polls: seq<Poll>, i: nat, received: seq<Event>, sent: seq<seq<Event>>, buffer: seq<Event>) {
    && i <= |polls| && (forall j :: 0 <= j < i ==> Continues(polls[j]))
    && received == Items(polls[..i]) && Concat(sent) + buffer == received
  }

  ghost predicate Batched(sent: seq<seq<Event>>) {
    forall b :: b in sent ==> 0 < |b| <= STREAM_BATCH
  }

  lemma {:induction false} TakeOne(polls: seq<Poll>, i: nat, received: seq<Event>, sent: seq<seq<Event>>,
                                   buffer: seq<Event>, first: Option<nat>)
    requires i < |polls| && Continues(polls[i]) && Relayed(polls, i, received, sent, buffer)
    ensures Relayed(polls, i + 1, received + EventOf(polls[i]), sent, buffer + EventOf(polls[i]))
    ensures LastToken(first, received + EventOf(polls[i])) ==
            if polls[i].Item? then Some(polls[i].event.token) else LastToken(first, received)
  {
    ItemsPrefix(polls, i);
    Associates(Concat(sent), buffer, EventOf(polls[i]));
    if polls[i].TimedOut? { assert received + [] == received; }
  }

  lemma {:induction false} BufferSent(polls: seq<Poll>, i: nat, received: seq<Event>, sent: seq<seq<Event>>,
                                      buffer: seq<Event>, after: seq<seq<Event>>)
    requires Relayed(polls, i, received, sent, buffer) && Concat(after) == Concat(sent) + buffer
    ensures Relayed(polls, i, received, after, [])
  {
    assert Concat(after) + [] == Concat(after);
  }

  /** Wherever the loop ends, nothing received is unaccounted for; at the end of the stream all its
      events have been received. */
  lemma {:induction false} RelayEnds(polls: seq<Poll>, i: nat, received: seq<Event>, sent: seq<seq<Event>>,
                                     buffer: seq<Event>)
    requires Relayed(polls, i, received, sent, buffer) && |buffer| <= STREAM_BATCH
    ensures received <= Items(polls) && Accounted(received, sent, buffer)
    ensures i == |polls| || !Continues(polls[i]) ==> received == Items(polls)
  {
    PrefixOfItems(polls, i);
  }

  lemma {:induction false} SmoothGoesThrough(env: Surroundings)
    ensures Smooth(env) ==> (forall a :: Delivers(env, a)) && (forall n :: !Stopped(env, n))
  {
  }

  lemma {:induction false} OneMoreDelivered(env: Surroundings, n: nat)
    requires AllDelivered(env, n) && Delivers(env, n)
    ensures AllDelivered(env, n + 1)
  {
  }

  /** How far a stream was relayed: up to `turns` answers, all while the capture was wanted. It ends
      with the stream, with a stop, or with a batch that got lost. */
  ghost predicate RelayedUntil(polls: seq<Poll>, env: Surroundings, turns: nat, lost: seq<Event>) {
    && turns <= |polls| && (forall j :: 0 <= j < turns ==> Continues(polls[j]) && env.running(j))
    && (turns == |polls| || !Continues(polls[turns]) || !env.running(turns) || lost != [])
  }

  /** The batches of the answers taken are sent, all of them or all but the last, which is lost. */
  ghost predicate SentOrLost(polls: seq<Poll>, turns: nat, sent: seq<seq<Event>>, lost: seq<Event>) {
    turns <= |polls| && Whole(Cut(polls[..turns])) == if lost == [] then sent else sent + [lost]
  }

  /** What relaying a stream from the token `first` comes to. Events that never reach the consumer are the
      last ones: every batch but the last attempted one got through, and that one failed. */
  ghost predicate Outcome(polls: seq<Poll>, first: Option<nat>, env: Surroundings, sent: seq<seq<Event>>,
                          token: Option<nat>, received: seq<Event>, lost: seq<Event>, turns: nat) {
    && RelayedUntil(polls, env, turns, lost) && received == Items(polls[..turns]) && received <= Items(polls)
    && Accounted(received, sent, lost) && SentOrLost(polls, turns, sent, lost)
    && token == LastToken(first, received) && Batched(sent)
    && AllDelivered(env, |sent|) && (lost != [] ==> !Delivers(env, |sent|))
    && (received == Items(polls) || lost != [] || Stopped(env, |polls|))
  }

  /** The loop state after `i` answers of the stream. */
  ghost predicate Relaying(polls: seq<Poll>, first: Option<nat>, env: Surroundings, i: nat, sent: seq<seq<Event>>,
                           token: Option<nat>, received: seq<Event>, buffer: seq<Event>) {
    && Relayed(polls, i, received, sent, buffer) && AllRunning(env, i) && Cut(polls[..i]) == Cutting(sent, buffer)
    && token == LastToken(first, received) && |buffer| < STREAM_BATCH && Batched(sent) && AllDelivered(env, |sent|)
  }

  /** One more answer: the batch stays open, is sent, or is lost. */
  lemma {:induction false} RelayNext(polls: seq<Poll>, first: Option<nat>, env: Surroundings, i: nat,
                                     sent: seq<seq<Event>>, token: Option<nat>, received: seq<Event>,
                                     buffer: seq<Event>)
    requires Relaying(polls, first, env, i, sent, token, received, buffer)
    requires i < |polls| && env.running(i) && Continues(polls[i])
    ensures var more := EventOf(polls[i]);
            var token' := if polls[i].Item? then Some(polls[i].event.token) else token;
            if |buffer + more| < STREAM_BATCH && (polls[i].TimedOut? ==> buffer + more == []) then
              Relaying(polls, first, env, i + 1, sent, token', received + more, buffer + more)
            else
              && 0 < |buffer + more| <= STREAM_BATCH
              && if Delivers(env, |sent|) then
                   Relaying(polls, first, env, i + 1, sent + [buffer + more], token', received + more, [])
                 else Outcome(polls, first, env, sent, token', received + more, buffer + more, i + 1)
  {
    var full := buffer + EventOf(polls[i]);
    TakeOne(polls, i, received, sent, buffer, first);
    CutNext(polls, i);
    if full != [] {
      RelayEnds(polls, i + 1, received + EventOf(polls[i]), sent, full);
      ExitFromLoop(polls, i + 1, sent, full);
      ConcatSnoc(sent, full);
      BufferSent(polls, i + 1, received + EventOf(polls[i]), sent, full, sent + [full]);
      if Delivers(env, |sent|) { OneMoreDelivered(env, |sent|); }
    }
  }

  /** After the loop: what is pending is sent or lost. */
  lemma {:induction false} RelayLast(polls: seq<Poll>, first: Option<nat>, env: Surroundings, i: nat,
                                     sent: seq<seq<Event>>, token: Option<nat>, received: seq<Event>,
                                     buffer: seq<Event>)
    requires Relaying(polls, first, env, i, sent, token, received, buffer)
    requires i == |polls| || !env.running(i) || !Continues(polls[i])
    ensures if buffer == [] || !Delivers(env, |sent|) then Outcome(polls, first, env, sent, token, received, buffer, i)
            else Outcome(polls, first, env, sent + [buffer], token, received, [], i)
  {
    RelayEnds(polls, i, received, sent, buffer);
    ExitFromLoop(polls, i, sent, buffer);
    if i < |polls| && !env.running(i) { assert Stopped(env, |polls|); }
    if buffer != [] && Delivers(env, |sent|) {
      OneMoreDelivered(env, |sent|);
      ConcatSnoc(sent, buffer);
      BufferSent(polls, i, received, sent, buffer, sent + [buffer]);
      RelayEnds(polls, i, received, sent + [buffer], []);
    }
  }

  /** Relays change events in batches of a hundred, sooner when the stream is quiet, and keeps the
      token of the last event received. */
  method RunChangeStream(polls: seq<Poll>, first: Option<nat>, env: Surroundings)
    returns (sent: seq<seq<Event>>, token: Option<nat>, ghost received: seq<Event>, ghost lost: seq<Event>,
             ghost turns: nat)
    ensures Outcome(polls, first, env, sent, token, received, lost, turns)
    ensures forall b :: b in sent ==> 0 < |b| <= 100
    ensures Smooth(env) ==> lost == [] && received == Items(polls)
  {
    SmoothGoesThrough(env);
    sent, token, received := [], first, [];
    var buffer: seq<Event> := [];
    var i: nat, attempts: nat := 0, 0;
    while i < |polls| && env.running(i)
      invariant Relaying(polls, first, env, i, sent, token, received, buffer) && attempts == |sent| && i <= |polls|
    {
      if !Continues(polls[i]) { break; }
      RelayNext(polls, first, env, i, sent, token, received, buffer);
      if polls[i].Item? { token := Some(polls[i].event.token); }
      buffer := buffer + EventOf(polls[i]);
      received := received + EventOf(polls[i]);
      var timedOut := polls[i].TimedOut?;
      i := i + 1;
      if |buffer| >= STREAM_BATCH || (timedOut && buffer != []) {
        var after, fate := Flush(sent, buffer, env, attempts);
        if !fate.Sent? { return sent, token, received, buffer, i; }
        attempts := attempts + 1;
        sent, buffer := after, [];
      }
    }
    RelayLast(polls, first, env, i, sent, token, received, buffer);
    lost, turns := buffer, i;
    if buffer != [] {
      var after, fate := Flush(sent, buffer, env, attempts);
      if fate.Sent? { sent, lost := after, []; }
    }
  }

  /** What is sent and lost at an exit of the loop: with a batch just closed, or with one still open that is
      then sent or lost. */
  lemma {:induction false} ExitFromLoop(polls: seq<Poll>, i: nat, sent: seq<seq<Event>>, buffer: seq<Event>)
    requires i <= |polls|
    ensures buffer != [] && Cut(polls[..i]) == Cutting(sent + [buffer], []) ==> SentOrLost(polls, i, sent, buffer)
    ensures buffer != [] && Cut(polls[..i]) == Cutting(sent, buffer) ==>
              SentOrLost(polls, i, sent, buffer) && SentOrLost(polls, i, sent + [buffer], [])
    ensures Cut(polls[..i]) == Cutting(sent, []) ==> SentOrLost(polls, i, sent, [])
  {
  }

  ghost predicate AllRunning(env: Surroundings, n: nat) {
    forall j :: 0 <= j < n ==> env.running(j)
  }

  /** Restarting from the kept token: the stream then repeats everything after the last event
      received, so events are skipped exactly if some were received but never sent. */
  lemma {:induction false} ResumeSkipsExactlyLost(all: seq<Event>, base: nat, received: seq<Event>,
                                                  sent: seq<seq<Event>>, lost: seq<Event>)
    requires forall i :: 0 <= i < |all| ==> all[i].token == base + i + 1
    requires received <= all && Accounted(received, sent, lost)
    ensures LastToken(Some(base), received) == Some(base + |received|)
    ensures Concat(sent) + all[|received|..] == all <==> lost == []
  {
    var rest := all[|received|..];
    assert all == Concat(sent) + lost + rest;
    assert |Concat(sent) + rest| == |all| - |lost|;
    if lost == [] { assert Concat(sent) + lost == Concat(sent); }
  }

  lemma {:induction false} SentIsPrefix(received: seq<Event>, sent: seq<seq<Event>>, lost: seq<Event>,
                                        items: seq<Event>)
    requires received <= items && Accounted(received, sent, lost)
    ensures Concat(sent) <= items && Changes(Concat(sent)) <= Changes(items)
    ensures |Changes(Concat(sent))| == |Concat(sent)|
  {
    assert items == Concat(sent) + lost + items[|received|..];
  }

  /** Start-up of a capture: token first, then the snapshot, then the stream from that token. A
      failed snapshot is not retried. `stream` answers what the server delivers after a token. The
      stream is opened from the captured token if a snapshot is wanted and one was captured, else from
      the token the capture is resumed with. Whatever fails, a copy that is up to date with that token
      and gets the events sent is up to date with the last of them. */
  method Start(initialSnapshot: bool, wholeDatabase: bool, resume: Option<nat>, captured: Option<nat>,
               cursor: seq<Step>, stream: Option<nat> -> seq<Poll>, during: Surroundings, env: Surroundings)
    returns (snapshot: seq<seq<Change>>, streamed: seq<seq<Event>>, token: Option<nat>,
             ghost received: seq<Event>, ghost lost: seq<Event>, ghost turns: nat)
    ensures Concat(snapshot) <= if initialSnapshot && !wholeDatabase then Rows(cursor) else []
    ensures initialSnapshot && !wholeDatabase ==> exists ok :: Snapshotted(cursor, during, ok, snapshot)
    ensures initialSnapshot && !wholeDatabase && Smooth(during) && (forall s :: s in cursor ==> s.Row?) ==>
              Concat(snapshot) == Rows(cursor)
    ensures var from := if initialSnapshot && !wholeDatabase && captured.Some? then captured else resume;
            && Accounted(received, streamed, lost) && token == LastToken(from, received)
            && (if env.running(0) then Outcome(stream(from), from, env, streamed, token, received, lost, turns)
                else received == [])
    ensures var from := if initialSnapshot && !wholeDatabase && captured.Some? then captured else resume;
            forall log, end, horizon, lookups, copy ::
              Follows(log, from, end, horizon, lookups, stream) && UpToDate(log, from.value, horizon, copy) ==>
              Continued(log, from.value, end, horizon, copy, Changes(Concat(streamed)))
    ensures forall log, end, horizon, visits, lookups ::
              initialSnapshot && !wholeDatabase && Smooth(during) && Smooth(env) &&
                (forall s :: s in cursor ==> s.Row?) &&
              Captures(log, captured, end, horizon, visits, lookups, cursor, stream) ==>
              var copy := Replay(map[], Concat(snapshot) + Changes(Concat(streamed)));
              UpToDate(log, end, horizon, copy) && (horizon == end ==> copy == StateAt(log, end))
  {
    snapshot, streamed, token := [], [], resume;
    if initialSnapshot && !wholeDatabase {
      if captured.Some? { token := captured; }
      var ok, total;
      ok, snapshot, total := RunSnapshot(cursor, during);
    }
    received, lost, turns := [], [], 0;
    ghost var start := token;
    if env.running(0) {
      streamed, token, received, lost, turns := RunChangeStream(stream(token), token, env);
      assert Concat(streamed) + [] == Concat(streamed);
    }
    forall log, end, horizon, lookups, copy |
              Follows(log, start, end, horizon, lookups, stream) && UpToDate(log, start.value, horizon, copy)
      ensures Continued(log, start.value, end, horizon, copy, Changes(Concat(streamed)))
    {
      if env.running(0) { SentIsPrefix(received, streamed, lost, Items(stream(start))); }
      var events := Changes(Items(stream(start)));
      ResumedCopy(log, start.value, end, horizon, lookups, events, copy, Changes(Concat(streamed)));
    }
    forall log, end, horizon, visits, lookups | initialSnapshot && !wholeDatabase && Smooth(during) && Smooth(env) &&
              (forall s :: s in cursor ==> s.Row?) &&
                Captures(log, captured, end, horizon, visits, lookups, cursor, stream)
      ensures var copy := Replay(map[], Concat(snapshot) + Changes(Concat(streamed)));
              UpToDate(log, end, horizon, copy) && (horizon == end ==> copy == StateAt(log, end))
    {
      assert env.running(0);
      var events := Changes(Items(stream(start)));
      NeverBehind(log, captured.value, end, horizon, visits, lookups, events);
      if horizon == end { GapFree(log, captured.value, end, visits, lookups, events); }
    }
  }

  /** The stream from that token delivers the changes after it. */
  ghost predicate Follows(log: seq<Change>, from: Option<nat>, end: nat, horizon: nat, lookups: seq<Lookup>,
                          stream: Option<nat> -> seq<Poll>)
  {
    && from.Some? && ServerLog(log) && IsStream(log, from.value, end, horizon, lookups, Changes(Items(stream(from))))
  }

  /** The copy is up to date with the last of the events sent. */
  ghost predicate Continued(log: seq<Change>, from: nat, end: nat, horizon: nat, copy: Collection, sent: seq<Change>)
    requires horizon <= |log|
  {
    from + |sent| <= end && UpToDate(log, from + |sent|, horizon, Replay(copy, sent))
  }

  lemma {:induction false} ResumedCopy(log: seq<Change>, from: nat, end: nat, horizon: nat, lookups: seq<Lookup>,
                                       events: seq<Change>, copy: Collection, sent: seq<Change>)
    requires ServerLog(log) && IsStream(log, from, end, horizon, lookups, events) && sent <= events
    requires UpToDate(log, from, horizon, copy)
    ensures Continued(log, from, end, horizon, copy, sent)
  {
    StaysUpToDate(log, from, from + |sent|, horizon, lookups, sent, copy);
  }

  /** The collection's history during a capture: the documents of a fuzzy snapshot taken after the
      captured token, and the stream of the changes since that token. */
  ghost predicate Captures(log: seq<Change>, captured: Option<nat>, end: nat, horizon: nat, visits: seq<Visit>,
                           lookups: seq<Lookup>, cursor: seq<Step>, stream: Option<nat> -> seq<Poll>)
  {
    && captured.Some? && ServerLog(log) && FuzzySnapshot(log, captured.value, horizon, visits)
    && Rows(cursor) == SnapshotRecords(log, visits)
    && IsStream(log, captured.value, end, horizon, lookups, Changes(Items(stream(captured))))
  }
}
