/**
 What a run of backend, broker and edge does to one enrolled embedding, from its creation to
 the deletion of its employee.
 */
module Enrolment {
  import opened Basics
  import opened Vectors
  import opened Matching
  import opened Storages
  import opened Traces
  import opened Brokers
  import opened Backends
  import opened Sync

  // ---------------------------------------------------------------------------
  // The database and what is sent.

  /** The handler of this event deletes this employee. */
  predicate Dismisses(event: Event, employee: EmployeeId) {
    event.Deleted? && event.employee == employee
  }

  /** The publish that the event makes for the id fails. */
  predicate Loses(event: Event, id: EmbeddingId) {
    (event.Created? && !event.sent) || (event.Deleted? && id in event.lost)
  }

  /** Rows come under new ids, never change, and go with their own employee only. */
  lemma RowsStay(w: World, event: Event, w': World, id: EmbeddingId)
    requires Sound(w) && Next(w, event, w')
    ensures w.lastId <= w'.lastId
    ensures id in w'.database && id !in w.database ==>
              event.Created? && id > w.lastId && w'.database[id].owner == event.employee
    ensures id in w.database && id in w'.database ==> w'.database[id] == w.database[id]
    ensures id in w.database && id !in w'.database ==> Dismisses(event, w.database[id].owner)
    ensures id in w'.database && event.Deleted? && w'.employees != w.employees ==>
              w'.database[id].owner != event.employee
  {
    hide Consistent, AllGenuine, Mirrors, Contents;
  }

  /**
   The broker learns of an id exactly when its row comes or goes and the publish succeeds,
   and the ids marked as unsent are those on which it failed.
   */
  lemma ChangesAreSent(w: World, event: Event, w': World, id: EmbeddingId)
    requires Sound(w) && Next(w, event, w')
    ensures var kept := SameAt(w.database, w'.database, id);
            && (kept ==> SameAt(w.wire.broker.retained, w'.wire.broker.retained, id))
            && (kept ==> (id in w'.unsent <==> id in w.unsent))
            && (!kept && Loses(event, id) ==>
                  SameAt(w.wire.broker.retained, w'.wire.broker.retained, id) && id in w'.unsent)
            && (!kept && !Loses(event, id) ==>
                  SameAt(w'.database, w'.wire.broker.retained, id) && id !in w'.unsent)
  {
    hide Consistent, AllGenuine, Mirrors, Contents;
    if event.Deleted? {
      TombstonesReach(w.wire, event.found, event.lost, id);
    }
  }

  /** An embedding stays in the database until its own employee is deleted. */
  lemma {:induction false} EmbeddingsStay(trace: seq<World>, events: seq<Event>, m: nat, n: nat, id: EmbeddingId)
    requires IsRun(Next, trace, events) && AllWellFormed(events) && Sound(trace[0])
    requires m <= n < |trace| && id in trace[m].database
    requires forall k | m <= k < n :: !Dismisses(events[k], trace[m].database[id].owner)
    ensures id in trace[n].database && trace[n].database[id] == trace[m].database[id]
  {
    if m == n {
    } else {
      hide Sound, Next;
      EmbeddingsStay(trace, events, m, n - 1, id);
      RunsKeepPromises(trace, events, n - 1);
      assert Goes(Next, trace, events, n - 1);
      RowsStay(trace[n - 1], events[n - 1], trace[n], id);
    }
  }

  // ---------------------------------------------------------------------------
  // The edge.

  /** The message is not newer than the database, nor at odds with a row that is there. */
  ghost predicate Honest(n: Notice, database: Table, lastId: int) {
    && n.id <= lastId
    && (n.id in database ==> n.content == Some(database[n.id]))
  }

  ghost predicate HonestLog(log: seq<Notice>, database: Table, lastId: int) {
    forall i | 0 <= i < |log| :: Honest(log[i], database, lastId)
  }

  /** What the edge carried out had been sent. */
  ghost predicate AppliedWereSent(h: History) {
    forall id | id in h.applied :: h.applied[id].id == id && InLog(h.applied[id], h.log)
  }

  ghost predicate Truthful(w: World) {
    HonestLog(w.wire.history.log, w.database, w.lastId) && AppliedWereSent(w.wire.history)
  }

  /** Before anything is enrolled or sent. */
  lemma StartIsTruthful(w: World)
    requires w.wire == START && w.database == map[]
    ensures Truthful(w)
  {
  }

  lemma HonestyStays(w: World, event: Event, w': World, n: Notice)
    requires Sound(w) && Next(w, event, w') && Honest(n, w.database, w.lastId)
    ensures Honest(n, w'.database, w'.lastId)
  {
    hide Sound, Next;
    RowsStay(w, event, w', n.id);
  }

  /** Messages are only ever added to the log, and a new one is honest. */
  lemma NewMessagesAreHonest(w: World, event: Event, w': World)
    requires Sound(w) && Next(w, event, w')
    ensures w.wire.history.log <= w'.wire.history.log
    ensures forall i | |w.wire.history.log| <= i < |w'.wire.history.log| ::
              Honest(w'.wire.history.log[i], w'.database, w'.lastId)
  {
    hide Consistent, AllGenuine, Mirrors, Contents;
    if event.Deleted? {
      TombstonesReach(w.wire, event.found, event.lost, 0);
    }
  }

  lemma AppliedStaysSent(w: World, event: Event, w': World)
    requires Sound(w) && Next(w, event, w') && AppliedWereSent(w.wire.history)
    ensures AppliedWereSent(w'.wire.history)
  {
    assert Recorded(w.wire.broker.channel, w.wire.history.log);
    NewMessagesAreHonest(w, event, w');
    hide Sound, Recorded, Honest, Contents;
    if event.Deleted? {
      TombstonesReach(w.wire, event.found, event.lost, 0);
    }
    if event.Delivered? && w.wire.broker.channel != [] {
      ChannelIsLogged(w.wire);
    }
  }

  lemma ChannelIsLogged(w: Wire)
    requires Recorded(w.broker.channel, w.history.log) && w.broker.channel != []
    ensures InLog(w.broker.channel[0], w.history.log)
  {
  }

  lemma NextKeepsTruth(w: World, event: Event, w': World)
    requires Sound(w) && Truthful(w) && Next(w, event, w')
    ensures Truthful(w')
  {
    NewMessagesAreHonest(w, event, w');
    AppliedStaysSent(w, event, w');
    hide Sound, Next, AppliedWereSent;
    forall i | 0 <= i < |w.wire.history.log| ensures Honest(w'.wire.history.log[i], w'.database, w'.lastId) {
      HonestyStays(w, event, w', w.wire.history.log[i]);
    }
  }

  lemma {:induction false} RunsAreTruthful(trace: seq<World>, events: seq<Event>, n: nat)
    requires IsRun(Next, trace, events) && AllWellFormed(events) && n < |trace|
    requires Sound(trace[0]) && Truthful(trace[0])
    ensures Sound(trace[n]) && Truthful(trace[n])
  {
    RunsKeepPromises(trace, events, n);
    if n == 0 {
    } else {
      hide Sound, Truthful, Next;
      RunsAreTruthful(trace, events, n - 1);
      assert Goes(Next, trace, events, n - 1);
      NextKeepsTruth(trace[n - 1], events[n - 1], trace[n]);
    }
  }

  /** The edge's row of an enrolled id, if it has one, is the database's. */
  ghost predicate NeverWrong(w: World, id: EmbeddingId) {
    id in w.table && id in w.database ==> w.table[id] == w.database[id]
  }

  /**
   In every state of every run, connected or not, whatever failed before: the edge may lack a
   row, or still have one of a deleted employee, but what it has of an enrolled id is right.
   */
  lemma EdgeIsNeverWrong(trace: seq<World>, events: seq<Event>, n: nat, id: EmbeddingId)
    requires IsRun(Next, trace, events) && AllWellFormed(events) && n < |trace|
    requires Sound(trace[0]) && Truthful(trace[0])
    ensures NeverWrong(trace[n], id)
  {
    RunsAreTruthful(trace, events, n);
    TruthfulIsRight(trace[n], id);
  }

  lemma TruthfulIsRight(w: World, id: EmbeddingId)
    requires Sound(w) && Truthful(w)
    ensures NeverWrong(w, id)
  {
    if id in w.table && id in w.database {
      assert InLog(w.wire.history.applied[id], w.wire.history.log);
    }
  }

  /** The edge drops a row only when a tombstone is delivered, and none is for an enrolled id. */
  lemma EnrolledRowStays(w: World, event: Event, w': World, id: EmbeddingId)
    requires Sound(w) && Truthful(w) && Next(w, event, w') && id in w.table && id in w.database
    ensures id in w'.table
  {
    if event.Delivered? && w.wire.broker.channel != [] {
      ChannelIsLogged(w.wire);
      var n := w.wire.broker.channel[0];
      assert Honest(w.wire.history.log[n.stamp], w.database, w.lastId);
    }
  }

  /** What the edge has of an enrolled employee it does not lose before that employee is deleted. */
  lemma {:induction false} EnrolledStays(trace: seq<World>, events: seq<Event>, m: nat, n: nat, id: EmbeddingId)
    requires IsRun(Next, trace, events) && AllWellFormed(events) && m <= n < |trace|
    requires Sound(trace[0]) && Truthful(trace[0])
    requires id in trace[m].table && id in trace[m].database
    requires forall k | m <= k < n :: !Dismisses(events[k], trace[m].database[id].owner)
    ensures id in trace[n].table && trace[n].table[id] == trace[m].database[id]
  {
    EdgeIsNeverWrong(trace, events, n, id);
    EmbeddingsStay(trace, events, m, n, id);
    if m == n {
    } else {
      hide Sound, Truthful, Next;
      EnrolledStays(trace, events, m, n - 1, id);
      EmbeddingsStay(trace, events, m, n - 1, id);
      RunsAreTruthful(trace, events, n - 1);
      assert Goes(Next, trace, events, n - 1);
      EnrolledRowStays(trace[n - 1], events[n - 1], trace[n], id);
    }
  }

  /** A new installation under any events: the edge is right about every enrolled id, all the time. */
  method Operate(storage: Storage, threshold: real, events: seq<Event>) returns (ghost trace: seq<World>)
    requires storage.EmbeddingsValid() && storage.Embeddings() == map[] && AllWellFormed(events)
    modifies storage`embeddings
    ensures IsRun(Next, trace, events) && forall n, id | 0 <= n < |trace| :: NeverWrong(trace[n], id)
  {
    var deployment := new Deployment(storage, threshold);
    StartIsTruthful(deployment.Now());
    hide Sound, Truthful, Next;
    trace := deployment.Run(events);
    forall n, id | 0 <= n < |trace| ensures NeverWrong(trace[n], id) {
      EdgeIsNeverWrong(trace, events, n, id);
    }
  }
}
