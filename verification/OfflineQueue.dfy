/**
 The offline queue: the main loop and the heartbeat publish or enqueue, the drainer works
 through a fetched batch while they go on. Every method is one atomic step of one thread; a
 publish or a statement may fail, and the process may crash between any two steps.
 */
module OfflineQueue {
  import opened Basics
  import opened Storages
  import opened Traces

  /** kDrainBatchSize */
  const BATCH: nat := 50

  datatype Message = Message(topic: string, payload: string)

  /** Where the auxiliary thread stands. */
  datatype Drainer =
    | Idle
    | HeartbeatFailed(msg: Message)
    | Draining(batch: seq<PendingEvent>)
    | Deleting(row: PendingEvent, rest: seq<PendingEvent>)

  datatype Step =
    | MainPublishes(msg: Message, ok: bool)
    | MainEnqueues(gap: nat, broken: bool)
    | HeartbeatPublishes(msg: Message, ok: bool)
    | HeartbeatEnqueues(gap: nat, broken: bool)
    | Fetches(connected: bool, broken: bool)
    | Sends(ok: bool)
    | Deletes(broken: bool)
    | Crashes

  function Content(row: PendingEvent): Message { Message(row.topic, row.payload) }

  // ---------------------------------------------------------------------------
  // History.

  datatype History = History(
    refused: multiset<Message>,     // every message whose direct publish failed
    committed: seq<Message>,        // enqueued, in commit order
    lostToSql: multiset<Message>,   // the enqueue threw
    lostToCrash: multiset<Message>, // the process died before the enqueue committed
    drained: nat,                   // how many committed messages have left the table
    sends: seq<nat>,                // the numbers of the committed messages the drainer sent
    redo: nat)                      // failed deletes, and crashes between send and delete

  /** The table holds exactly the committed messages that have not left it, oldest first. */
  ghost predicate TableIs(h: History, rows: seq<PendingEvent>) {
    && h.drained + |rows| == |h.committed|
    && forall i | 0 <= i < |rows| :: Content(rows[i]) == h.committed[h.drained + i]
  }

  /** No refused message disappears silently. */
  ghost predicate Accounted(h: History, inFlight: multiset<Message>) {
    h.refused == multiset(h.committed) + h.lostToSql + h.lostToCrash + inFlight
  }

  /** The log starts at message 0 and each entry repeats its predecessor or moves on by one. */
  ghost predicate Climbs(sends: seq<nat>) {
    && (sends != [] ==> sends[0] == 0)
    && forall p | 0 < p < |sends| :: Follows(sends, p)
  }

  ghost predicate Follows(sends: seq<nat>, p: int)
    requires 0 < p < |sends|
  {
    sends[p - 1] <= sends[p] <= sends[p - 1] + 1
  }

  ghost predicate SendsAre(h: History, deleting: bool) {
    && Climbs(h.sends)
    && (h.sends == [] ==> h.drained == 0 && !deleting)
    && (h.sends != [] ==> h.drained == h.sends[|h.sends| - 1] + (if deleting then 0 else 1)
                          || (!deleting && h.drained == h.sends[|h.sends| - 1]))
    && |h.sends| == h.drained + h.redo + (if deleting then 1 else 0)
  }

  /** Message k was sent, and before the p-th send. */
  ghost predicate SentBefore(sends: seq<nat>, k: int, p: int) {
    exists q :: SentAt(sends, k, q) && q < p
  }

  ghost predicate SentAt(sends: seq<nat>, k: int, q: int) {
    0 <= q < |sends| && sends[q] == k
  }

  lemma NextSend(h: History)
    requires SendsAre(h, false)
    ensures SendsAre(Sent(h), true)
  {
    var sends := h.sends + [h.drained];
    forall p | 0 < p < |sends| ensures Follows(sends, p) {
      if p < |h.sends| {
        assert Follows(h.sends, p);
      }
    }
  }

  // ---------------------------------------------------------------------------
  // The invariant, on values.

  datatype State = State(rows: seq<PendingEvent>, main: Option<Message>, drainer: Drainer, history: History)

  /** Nothing has happened yet. */
  const EMPTY: State := State([], None, Idle, History(multiset{}, [], multiset{}, multiset{}, 0, [], 0))

  /** Messages held by a thread between a failed publish and the enqueue. */
  function InFlight(s: State): multiset<Message> {
    (if s.main.Some? then multiset{s.main.value} else multiset{})
    + (if s.drainer.HeartbeatFailed? then multiset{s.drainer.msg} else multiset{})
  }

  /** What the drainer still has in hand, the row being deleted included. */
  function Unfinished(drainer: Drainer): seq<PendingEvent> {
    match drainer
    case Draining(batch) => batch
    case Deleting(row, rest) => [row] + rest
    case _ => []
  }

  /** The drainer's snapshot is still the front of the table. */
  ghost predicate SnapshotIsFront(drainer: Drainer, rows: seq<PendingEvent>) {
    Unfinished(drainer) <= rows
  }

  ghost predicate Consistent(s: State) {
    && IdsAscend(s.rows)
    && TableIs(s.history, s.rows)
    && SnapshotIsFront(s.drainer, s.rows)
    && Accounted(s.history, InFlight(s))
    && SendsAre(s.history, s.drainer.Deleting?)
  }

  function Refuse(h: History, msg: Message): History {
    h.(refused := h.refused + multiset{msg})
  }

  function Settle(h: History, msg: Message, broken: bool): History {
    if broken then h.(lostToSql := h.lostToSql + multiset{msg}) else h.(committed := h.committed + [msg])
  }

  /** A refused message is accounted for by the thread that holds it. */
  lemma RefusalKeepsAccount(h: History, rows: seq<PendingEvent>, msg: Message, inFlight: multiset<Message>, deleting: bool)
    requires Accounted(h, inFlight) && TableIs(h, rows) && SendsAre(h, deleting)
    ensures Accounted(Refuse(h, msg), inFlight + multiset{msg})
    ensures TableIs(Refuse(h, msg), rows) && SendsAre(Refuse(h, msg), deleting)
  {
  }

  lemma MainRefusalKeeps(s: State, msg: Message)
    requires Consistent(s) && s.main.None?
    ensures Consistent(s.(main := Some(msg), history := Refuse(s.history, msg)))
  {
    hide Accounted, TableIs, SendsAre, IdsAscend, Refuse;
    var after := s.(main := Some(msg), history := Refuse(s.history, msg));
    RefusalKeepsAccount(s.history, s.rows, msg, InFlight(s), s.drainer.Deleting?);
    assert InFlight(after) == InFlight(s) + multiset{msg};
  }

  lemma HeartbeatRefusalKeeps(s: State, msg: Message)
    requires Consistent(s) && s.drainer.Idle?
    ensures Consistent(s.(drainer := HeartbeatFailed(msg), history := Refuse(s.history, msg)))
  {
    hide Accounted, TableIs, SendsAre, IdsAscend, Refuse;
    var after := s.(drainer := HeartbeatFailed(msg), history := Refuse(s.history, msg));
    RefusalKeepsAccount(s.history, s.rows, msg, InFlight(s), s.drainer.Deleting?);
    assert InFlight(after) == InFlight(s) + multiset{msg};
  }

  /** The table after an attempt to append the message. */
  ghost predicate TableAfter(before: seq<PendingEvent>, msg: Message, broken: bool, after: seq<PendingEvent>) {
    if broken then after == before else
    && IdsAscend(after) && |after| == |before| + 1
    && after == before + [after[|before|]] && Content(after[|before|]) == msg
  }

  /** A committed row goes to the end of the table, behind the drainer's snapshot. */
  lemma SettleKeepsTable(h: History, before: seq<PendingEvent>, msg: Message, broken: bool,
                         rows: seq<PendingEvent>, drainer: Drainer)
    requires TableIs(h, before) && SnapshotIsFront(drainer, before)
    requires IdsAscend(before) && TableAfter(before, msg, broken, rows)
    ensures TableIs(Settle(h, msg, broken), rows) && SnapshotIsFront(drainer, rows) && IdsAscend(rows)
  {
  }

  lemma SettleKeepsAccount(h: History, msg: Message, others: multiset<Message>, broken: bool, deleting: bool)
    requires Accounted(h, others + multiset{msg}) && SendsAre(h, deleting)
    ensures Accounted(Settle(h, msg, broken), others) && SendsAre(Settle(h, msg, broken), deleting)
  {
  }

  lemma MainSettles(s: State, broken: bool, rows: seq<PendingEvent>)
    requires Consistent(s) && s.main.Some?
    requires TableAfter(s.rows, s.main.value, broken, rows)
    ensures Consistent(State(rows, None, s.drainer, Settle(s.history, s.main.value, broken)))
  {
    hide TableIs, SnapshotIsFront, SendsAre, TableAfter, Settle;
    var after := State(rows, None, s.drainer, Settle(s.history, s.main.value, broken));
    assert InFlight(s) == InFlight(after) + multiset{s.main.value};
    SettleKeepsAccount(s.history, s.main.value, InFlight(after), broken, s.drainer.Deleting?);
    SettleKeepsTable(s.history, s.rows, s.main.value, broken, rows, s.drainer);
  }

  lemma HeartbeatSettles(s: State, broken: bool, rows: seq<PendingEvent>)
    requires Consistent(s) && s.drainer.HeartbeatFailed?
    requires TableAfter(s.rows, s.drainer.msg, broken, rows)
    ensures Consistent(State(rows, s.main, Idle, Settle(s.history, s.drainer.msg, broken)))
  {
    hide TableIs, SendsAre, TableAfter, Settle;
    var after := State(rows, s.main, Idle, Settle(s.history, s.drainer.msg, broken));
    assert InFlight(s) == InFlight(after) + multiset{s.drainer.msg};
    SettleKeepsAccount(s.history, s.drainer.msg, InFlight(after), broken, s.drainer.Deleting?);
    SettleKeepsTable(s.history, s.rows, s.drainer.msg, broken, rows, Idle);
  }

  lemma FrontMoves(row: PendingEvent, rest: seq<PendingEvent>, rows: seq<PendingEvent>)
    requires [row] + rest <= rows && IdsAscend(rows)
    ensures rows != [] && rows[0] == row && rest <= rows[1..] && IdsAscend(rows[1..])
  {
    assert rows[0] == ([row] + rest)[0];
    assert rest == ([row] + rest)[1..];
  }

  function Gone(h: History): History { h.(drained := h.drained + 1) }

  function Redone(h: History): History { h.(redo := h.redo + 1) }

  lemma OldestLeaves(h: History, rows: seq<PendingEvent>)
    requires TableIs(h, rows) && rows != [] && SendsAre(h, true)
    ensures TableIs(Gone(h), rows[1..]) && SendsAre(Gone(h), false)
    ensures SendsAre(Redone(h), false)
  {
  }

  /** Sending and deleting settle nothing between table and losses. */
  lemma AccountStays(h: History, h': History, inFlight: multiset<Message>)
    requires h' == h.(drained := h'.drained, sends := h'.sends, redo := h'.redo)
    ensures Accounted(h', inFlight) <==> Accounted(h, inFlight)
  {
  }

  /** The row just sent is the oldest one, and its deletion touches no other. */
  lemma DeletionKeeps(s: State)
    requires Consistent(s) && s.drainer.Deleting?
    ensures s.rows != [] && IdsAscend(s.rows) && DeleteById(s.rows, s.drainer.row.id) == s.rows[1..]
    ensures Consistent(State(s.rows[1..], s.main, Draining(s.drainer.rest), Gone(s.history)))
    ensures Consistent(State(s.rows, s.main, Idle, Redone(s.history)))
  {
    hide Accounted, TableIs, SendsAre, DeleteById, IdsAscend;
    FrontMoves(s.drainer.row, s.drainer.rest, s.rows);
    DeleteOldest(s.rows);
    OldestLeaves(s.history, s.rows);
    AccountStays(s.history, Gone(s.history), InFlight(s));
    AccountStays(s.history, Redone(s.history), InFlight(s));
    TableStays(s.history, Redone(s.history), s.rows);
  }

  lemma TableStays(h: History, h': History, rows: seq<PendingEvent>)
    requires h'.drained == h.drained && h'.committed == h.committed
    ensures TableIs(h', rows) <==> TableIs(h, rows)
  {
  }

  function Sent(h: History): History { h.(sends := h.sends + [h.drained]) }

  /** The next row of the snapshot is the oldest in the table and the oldest committed message still there. */
  lemma NextIsOldest(s: State)
    requires Consistent(s) && s.drainer.Draining? && s.drainer.batch != []
    ensures s.rows != [] && s.rows[0] == s.drainer.batch[0] && s.history.drained < |s.history.committed|
    ensures Content(s.rows[0]) == s.history.committed[s.history.drained]
  {
    hide Accounted, SendsAre, IdsAscend;
  }

  lemma SendKeeps(s: State)
    requires Consistent(s) && s.drainer.Draining? && s.drainer.batch != []
    ensures Consistent(s.(drainer := Deleting(s.drainer.batch[0], s.drainer.batch[1..]), history := Sent(s.history)))
  {
    hide Accounted, TableIs, SendsAre, IdsAscend, Sent;
    var batch := s.drainer.batch;
    SentKeeps(s.history, s.rows);
    AccountStays(s.history, Sent(s.history), InFlight(s));
    assert [batch[0]] + batch[1..] == batch;
  }

  lemma SentKeeps(h: History, rows: seq<PendingEvent>)
    requires TableIs(h, rows) && SendsAre(h, false)
    ensures TableIs(Sent(h), rows) && SendsAre(Sent(h), true)
    ensures Sent(h) == h.(drained := Sent(h).drained, sends := Sent(h).sends, redo := Sent(h).redo)
  {
    NextSend(h);
  }

  /** The drainer may give up at any time. */
  lemma StopKeeps(s: State)
    requires Consistent(s) && s.drainer.Draining?
    ensures Consistent(s.(drainer := Idle))
  {
    hide Accounted, TableIs, SendsAre, IdsAscend;
  }

  /** A snapshot of the oldest rows. */
  lemma FetchKeeps(s: State)
    requires Consistent(s) && s.drainer.Idle?
    ensures Consistent(s.(drainer := Draining(s.rows[..Min(BATCH, |s.rows|)])))
  {
  }

  /** Only the table survives a crash. */
  lemma CrashKeeps(s: State)
    requires Consistent(s)
    ensures Consistent(State(s.rows, None, Idle, Crashed(s)))
  {
  }

  function Crashed(s: State): History {
    s.history.(lostToCrash := s.history.lostToCrash + InFlight(s),
               redo := s.history.redo + (if s.drainer.Deleting? then 1 else 0))
  }

  /** Messages are sent for the first time in the order in which they were committed. */
  lemma {:induction false} FirstSendsInOrder(sends: seq<nat>, p: nat, j: nat)
    requires Climbs(sends) && p < |sends| && j < sends[p]
    ensures SentBefore(sends, j, p)
  {
    if p == 0 {
    } else {
      assert Follows(sends, p);
      if sends[p - 1] > j {
        FirstSendsInOrder(sends, p - 1, j);
        var q :| SentAt(sends, j, q) && q < p - 1;
      } else {
        assert SentAt(sends, j, p - 1);
      }
    }
  }

  ghost predicate InCommitOrder(sends: seq<nat>) {
    forall p, j, k | SentAt(sends, k, p) && 0 <= j < k :: SentBefore(sends, j, p)
  }

  /** A message that left the table had been sent. */
  lemma LeftOnlyAfterSend(h: History, deleting: bool, k: nat)
    requires SendsAre(h, deleting) && k < h.drained
    ensures SentBefore(h.sends, k, |h.sends|)
  {
    var last := |h.sends| - 1;
    if h.sends[last] == k {
      assert SentAt(h.sends, k, last);
    } else {
      FirstSendsInOrder(h.sends, last, k);
      var q :| SentAt(h.sends, k, q) && q < last;
    }
  }

  // ---------------------------------------------------------------------------
  // The protocol as a transition relation.

  /** One step; a step that its thread cannot take in its present place changes nothing. */
  ghost predicate Next(s: State, step: Step, s': State) {
    match step
    case MainPublishes(msg, ok) =>
      s' == if s.main.None? && !ok then s.(main := Some(msg), history := Refuse(s.history, msg)) else s
    case MainEnqueues(_, broken) =>
      if s.main.None? then s' == s else
      && TableAfter(s.rows, s.main.value, broken, s'.rows)
      && s' == State(s'.rows, None, s.drainer, Settle(s.history, s.main.value, broken))
    case HeartbeatPublishes(msg, ok) =>
      s' == if s.drainer.Idle? && !ok
            then s.(drainer := HeartbeatFailed(msg), history := Refuse(s.history, msg)) else s
    case HeartbeatEnqueues(_, broken) =>
      if !s.drainer.HeartbeatFailed? then s' == s else
      && TableAfter(s.rows, s.drainer.msg, broken, s'.rows)
      && s' == State(s'.rows, s.main, Idle, Settle(s.history, s.drainer.msg, broken))
    case Fetches(connected, broken) =>
      s' == if s.drainer.Idle? && connected && !broken
            then s.(drainer := Draining(s.rows[..Min(BATCH, |s.rows|)])) else s
    case Sends(ok) =>
      s' == if !s.drainer.Draining? then s
            else if s.drainer.batch == [] || !ok then s.(drainer := Idle)
            else s.(drainer := Deleting(s.drainer.batch[0], s.drainer.batch[1..]),
                    history := Sent(s.history))
    case Deletes(broken) =>
      s' == if !s.drainer.Deleting? || s.rows == [] then s
            else if broken then s.(drainer := Idle, history := Redone(s.history))
            else State(s.rows[1..], s.main, Draining(s.drainer.rest), Gone(s.history))
    case Crashes =>
      s' == State(s.rows, None, Idle, Crashed(s))
  }

  lemma NextKeeps(s: State, step: Step, s': State)
    requires Consistent(s) && Next(s, step, s')
    ensures Consistent(s')
  {
    match step {
      case MainPublishes(msg, _) => if s.main.None? { MainRefusalKeeps(s, msg); }
      case MainEnqueues(_, broken) => if s.main.Some? { MainSettles(s, broken, s'.rows); }
      case HeartbeatPublishes(msg, _) => if s.drainer.Idle? { HeartbeatRefusalKeeps(s, msg); }
      case HeartbeatEnqueues(_, broken) => if s.drainer.HeartbeatFailed? { HeartbeatSettles(s, broken, s'.rows); }
      case Fetches(_, _) => if s.drainer.Idle? { FetchKeeps(s); }
      case Sends(ok) =>
        if s.drainer.Draining? {
          StopKeeps(s);
          if s.drainer.batch != [] { SendKeeps(s); }
        }
      case Deletes(_) => if s.drainer.Deleting? { DeletionKeeps(s); }
      case Crashes => CrashKeeps(s);
    }
  }

  /** What the protocol promises about a state. */
  ghost predicate Safe(s: State) {
    // Every committed message is still in the table, in order, or was sent and then deleted.
    && TableIs(s.history, s.rows)
    && (forall k | 0 <= k < s.history.drained :: SentBefore(s.history.sends, k, |s.history.sends|))
    // What the drainer holds is the front of the table.
    && SnapshotIsFront(s.drainer, s.rows)
    // First sends come in commit order.
    && InCommitOrder(s.history.sends)
    // A message is sent again only after a failed delete or a crash before the delete.
    && |s.history.sends| == s.history.drained + s.history.redo + (if s.drainer.Deleting? then 1 else 0)
    // A refused message is lost only to an enqueue that threw or to a crash before it committed.
    && Accounted(s.history, InFlight(s))
  }

  lemma ConsistentIsSafe(s: State)
    requires Consistent(s)
    ensures Safe(s)
  {
    forall k | 0 <= k < s.history.drained ensures SentBefore(s.history.sends, k, |s.history.sends|) {
      LeftOnlyAfterSend(s.history, s.drainer.Deleting?, k);
    }
    forall p, j, k | SentAt(s.history.sends, k, p) && 0 <= j < k
      ensures SentBefore(s.history.sends, j, p)
    {
      FirstSendsInOrder(s.history.sends, p, j);
    }
  }

  /** Every state of every run is safe, whatever fails, crashes or interleaves. */
  lemma {:induction false} RunsAreSafe(trace: seq<State>, schedule: seq<Step>, n: nat)
    requires IsRun(Next, trace, schedule) && Consistent(trace[0]) && n < |trace|
    ensures Consistent(trace[n]) && Safe(trace[n])
  {
    hide Consistent, Safe, Next;
    if n == 0 {
    } else {
      RunsAreSafe(trace, schedule, n - 1);
      assert Goes(Next, trace, schedule, n - 1);
      NextKeeps(trace[n - 1], schedule[n - 1], trace[n]);
    }
    ConsistentIsSafe(trace[n]);
  }

  /** The message is in the last row of the table, or the statement threw and the table is as it was. */
  ghost predicate IsAppended(before: seq<PendingEvent>, msg: Message, broken: bool, after: seq<PendingEvent>) {
    if broken then after == before else
    exists id :: after == before + [PendingEvent(id, msg.topic, msg.payload)]
  }

  class EventQueue {
    const storage: Storage
    var main: Option<Message>   // the main loop, between a failed publish and the enqueue
    var drainer: Drainer
    ghost var history: History

    ghost function Now(): State
      reads this, storage`pending
    {
      State(storage.pending, main, drainer, history)
    }

    ghost predicate Valid()
      reads this, storage`pending
    {
      Consistent(Now())
    }

    constructor (storage: Storage)
      requires storage.PendingValid() && storage.pending == []
      ensures Valid() && this.storage == storage && Now() == EMPTY
    {
      this.storage := storage;
      main, drainer := None, Idle;
      history := History(multiset{}, [], multiset{}, multiset{}, 0, [], 0);
    }

    /** try_publish_or_enqueue on the main loop, up to the outcome of publish. */
    method MainPublishes(msg: Message, ok: bool)
      requires Valid() && main.None?
      modifies this`main, this`history
      ensures Valid() && Next(old(Now()), Step.MainPublishes(msg, ok), Now())
      // Only a message that was not published is kept.
      ensures main == if ok then None else Some(msg)
    {
      hide Consistent;
      if !ok {
        main := Some(msg);
        history := Refuse(history, msg);
      }
      Stays(old(Now()), Step.MainPublishes(msg, ok));
    }

    /** The second half of try_publish_or_enqueue: the row is in the table, or the message is gone. */
    method MainEnqueues(gap: nat, broken: bool)
      requires Valid() && main.Some?
      modifies this`main, this`history, storage`pending
      ensures Valid() && Next(old(Now()), Step.MainEnqueues(gap, broken), Now())
      ensures main.None? && IsAppended(old(storage.pending), old(main).value, broken, storage.pending)
    {
      assert storage.PendingValid();
      hide Consistent;
      var done := storage.EnqueuePendingEvent(main.value.topic, main.value.payload, gap, broken);
      history := Settle(history, main.value, broken);
      main := None;
      Stays(old(Now()), Step.MainEnqueues(gap, broken));
    }

    method HeartbeatPublishes(msg: Message, ok: bool)
      requires Valid() && drainer.Idle?
      modifies this`drainer, this`history
      ensures Valid() && Next(old(Now()), Step.HeartbeatPublishes(msg, ok), Now())
      ensures drainer == if ok then Idle else HeartbeatFailed(msg)
    {
      hide Consistent;
      if !ok {
        drainer := HeartbeatFailed(msg);
        history := Refuse(history, msg);
      }
      Stays(old(Now()), Step.HeartbeatPublishes(msg, ok));
    }

    method HeartbeatEnqueues(gap: nat, broken: bool)
      requires Valid() && drainer.HeartbeatFailed?
      modifies this`drainer, this`history, storage`pending
      ensures Valid() && Next(old(Now()), Step.HeartbeatEnqueues(gap, broken), Now())
      ensures drainer.Idle? && IsAppended(old(storage.pending), old(drainer).msg, broken, storage.pending)
    {
      assert storage.PendingValid();
      hide Consistent;
      var done := storage.EnqueuePendingEvent(drainer.msg.topic, drainer.msg.payload, gap, broken);
      history := Settle(history, drainer.msg, broken);
      drainer := Idle;
      Stays(old(Now()), Step.HeartbeatEnqueues(gap, broken));
    }

    /** Take a snapshot of the oldest rows. */
    method Fetches(connected: bool, broken: bool)
      requires Valid() && drainer.Idle?
      modifies this`drainer
      ensures Valid() && Next(old(Now()), Step.Fetches(connected, broken), Now())
      // The oldest rows up to the batch size, and none without a connection.
      ensures drainer == if connected && !broken then Draining(storage.pending[..Min(50, |storage.pending|)]) else Idle
    {
      if connected {
        var rows := storage.FetchPendingEvents(BATCH, broken);
        if rows.Done? {
          drainer := Draining(rows.value);
        }
      }
      Stays(old(Now()), Step.Fetches(connected, broken));
    }

    /** Publish the next row of the snapshot; stop at the end or at the first failure. */
    method Sends(ok: bool)
      requires Valid() && drainer.Draining?
      modifies this`drainer, this`history
      ensures Valid() && Next(old(Now()), Step.Sends(ok), Now())
      // A failed publish, or the end of the batch, stops the drainer and deletes nothing.
      ensures drainer.Deleting? <==> ok && old(drainer).batch != []
      ensures !drainer.Deleting? ==> drainer.Idle? && history == old(history)
      // The message sent is the oldest one in the table.
      ensures drainer.Deleting? ==>
                && storage.pending != [] && drainer.row == storage.pending[0]
                && Content(drainer.row) == history.committed[history.drained]
    {
      if drainer.batch == [] || !ok {
        drainer := Idle;
      } else {
        NextIsOldest(Now());
        history := Sent(history);
        drainer := Deleting(drainer.batch[0], drainer.batch[1..]);
      }
      Stays(old(Now()), Step.Sends(ok));
    }

    /** Delete the row just published; an exception abandons the batch. */
    method Deletes(broken: bool)
      requires Valid() && drainer.Deleting?
      modifies this`drainer, this`history, storage`pending
      ensures Valid() && Next(old(Now()), Step.Deletes(broken), Now()) && old(storage.pending) != []
      ensures if broken then storage.pending == old(storage.pending) && drainer.Idle?
              else storage.pending == old(storage.pending)[1..] && drainer == Draining(old(drainer).rest)
    {
      hide Consistent, IdsAscend, DeleteById;
      var row, rest := drainer.row, drainer.rest;
      DeletionKeeps(Now());
      var done := storage.DeletePendingEvent(row.id, broken);
      if done {
        drainer := Draining(rest);
        history := Gone(history);
      } else {
        drainer := Idle;
        history := Redone(history);
      }
      Stays(old(Now()), Step.Deletes(broken));
    }

    method Crashes()
      requires Valid()
      modifies this`main, this`drainer, this`history
      ensures Valid() && Next(old(Now()), Step.Crashes, Now()) && main.None? && drainer.Idle?
    {
      hide Consistent;
      history := Crashed(Now());
      main, drainer := None, Idle;
      Stays(old(Now()), Step.Crashes);
    }

    lemma Stays(before: State, step: Step)
      requires Consistent(before) && Next(before, step, Now())
      ensures Valid()
    {
      NextKeeps(before, step, Now());
    }

    method Take(step: Step)
      requires Valid()
      modifies this, storage`pending
      ensures Valid() && Next(old(Now()), step, Now())
    {
      hide Consistent;
      match step {
        case MainPublishes(msg, ok) => if main.None? { MainPublishes(msg, ok); }
        case MainEnqueues(gap, broken) => if main.Some? { MainEnqueues(gap, broken); }
        case HeartbeatPublishes(msg, ok) => if drainer.Idle? { HeartbeatPublishes(msg, ok); }
        case HeartbeatEnqueues(gap, broken) => if drainer.HeartbeatFailed? { HeartbeatEnqueues(gap, broken); }
        case Fetches(connected, broken) => if drainer.Idle? { Fetches(connected, broken); }
        case Sends(ok) => if drainer.Draining? { Sends(ok); }
        case Deletes(broken) => if drainer.Deleting? { Deletes(broken); }
        case Crashes => Crashes();
      }
    }

    /** Any interleaving, failures and crashes included: a run of the protocol, safe in every state. */
    method Run(schedule: seq<Step>) returns (ghost trace: seq<State>)
      requires Valid()
      modifies this, storage`pending
      ensures Valid() && IsRun(Next, trace, schedule)
      ensures trace[0] == old(Now()) && trace[|schedule|] == Now()
      ensures forall n | 0 <= n < |trace| :: Safe(trace[n])
    {
      trace := [Now()];
      for n := 0 to |schedule|
        invariant Valid() && |trace| == n + 1
        invariant trace[0] == old(Now()) && trace[n] == Now()
        invariant IsRun(Next, trace, schedule[..n])
      {
        hide Consistent, Next, Safe;
        Take(schedule[n]);
        RunGoesOn(Next, trace, schedule, n, Now());
        trace := trace + [Now()];
      }
      assert schedule[..|schedule|] == schedule;
      forall n | 0 <= n < |trace| ensures Safe(trace[n]) {
        RunsAreSafe(trace, schedule, n);
      }
    }

    /** One tick of the drainer while nothing fails. */
    method DrainTick()
      requires Valid() && drainer.Idle?
      modifies this`drainer, this`history, storage`pending
      ensures Valid() && drainer.Idle?
      ensures storage.pending == old(storage.pending)[Min(BATCH, |old(storage.pending)|)..]
    {
      hide Consistent;
      ghost var rows := storage.pending;
      ghost var size := Min(BATCH, |rows|);
      Fetches(true, false);
      while drainer.batch != []
        invariant Valid() && drainer.Draining? && |drainer.batch| <= size
        invariant storage.pending == rows[size - |drainer.batch|..]
        decreases |drainer.batch|
      {
        Sends(true);
        Deletes(false);
      }
      Sends(true);
    }

    /** n failure-free ticks clear the queue exactly when n * 50 reaches its length. */
    method DrainTicks(n: nat)
      requires Valid() && drainer.Idle?
      modifies this`drainer, this`history, storage`pending
      ensures Valid() && drainer.Idle?
      ensures storage.pending == Remaining(old(storage.pending), n)
      ensures storage.pending == [] <==> n >= (|old(storage.pending)| + BATCH - 1) / BATCH
    {
      hide Consistent, Remaining;
      RemainingAfter(old(storage.pending), 0);
      for i := 0 to n
        invariant Valid() && drainer.Idle?
        invariant storage.pending == Remaining(old(storage.pending), i)
      {
        RemainingAfter(old(storage.pending), i);
        DrainTick();
      }
      RemainingAfter(old(storage.pending), n);
    }
  }

  /** What is left after n ticks that fail nowhere. */
  function Remaining(rows: seq<PendingEvent>, n: nat): seq<PendingEvent> {
    rows[Min(BATCH * n, |rows|)..]
  }

  lemma RemainingAfter(rows: seq<PendingEvent>, n: nat)
    ensures Remaining(rows, 0) == rows
    ensures var left := Remaining(rows, n); left[Min(BATCH, |left|)..] == Remaining(rows, n + 1)
    ensures Remaining(rows, n) == [] <==> n >= (|rows| + BATCH - 1) / BATCH
  {
  }
}
