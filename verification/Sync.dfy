/** Backend, broker and edge together. */
module Sync {
  import opened Basics
  import opened Vectors
  import opened Matching
  import opened Topics
  import opened Storages
  import opened Traces
  import opened Subscribers
  import opened Brokers
  import opened Backends

  datatype Event =
    | Hired(employee: EmployeeId)
    | Created(employee: EmployeeId, vector: Vector, gap: nat, broken: bool, sent: bool)
    | Deleted(employee: EmployeeId, found: seq<EmbeddingId>, broken: bool, lost: set<EmbeddingId>)
    | Connected(order: seq<EmbeddingId>)
    | Disconnected
    | Delivered(broken: bool)
    | Restarted(broken: bool)

  /** EmbeddingSyncMsg, or the empty payload of a tombstone. */
  function PayloadOf(n: Notice): Payload {
    match n.content
    case None => Empty
    case Some(e) => Upsert(e.id, e.owner, Items(seq(|e.vector.xs|, i requires 0 <= i < |e.vector.xs| => Some(e.vector.xs[i])), e.vector.norm))
  }

  /** The edge reads from topic and payload what the backend put into them. */
  lemma MessageReadsBack(t: Table, n: Notice, broken: bool)
    requires Genuine(n)
    ensures Measured(PayloadOf(n))
    ensures Applied(t, TopicOf(n.id), PayloadOf(n), broken) == if broken then t else Effect(t, n)
  {
    TopicsReadBack(n.id);
    if n.content.Some? {
      var e, payload := n.content.value, PayloadOf(n);
      assert Numbers(payload.vector.items).value == e.vector.xs;
      assert Decode(n.id, payload) == Some(e);
    }
  }

  /** No failed publish, no unhealed failure and no undelivered tombstone touches the id. */
  ghost predicate Undisturbed(w: Wire, unsent: set<EmbeddingId>, t: Table, id: EmbeddingId) {
    id !in unsent && !Thrown(w, id) && !(id in t && LeftOver(w, id))
  }

  // ---------------------------------------------------------------------------
  // The system as a transition relation.

  datatype World = World(
    wire: Wire,
    employees: set<EmployeeId>, database: Table, lastId: int, unsent: set<EmbeddingId>,
    table: Table,   // the edge's embeddings table
    cache: Table)   // its matcher's cache, read as a table

  /** One step; an event that is not possible now changes nothing. */
  ghost predicate Next(w: World, event: Event, w': World) {
    match event
    case Hired(employee) =>
      w' == w.(employees := w.employees + {employee})
    case Created(employee, vector, gap, broken, sent) =>
      var id := w.lastId + 1 + gap;
      var e := Embedding(id, employee, vector);
      w' == if !StatusOfCreate(w.employees, employee, vector, id, broken).Created? then w
            else w.(lastId := id, database := w.database[id := e],
                    unsent := Unsent(w.unsent, id, sent),
                    wire := if sent then Publish(w.wire, id, Some(e)) else w.wire)
    case Deleted(employee, found, broken, lost) =>
      var owned := OwnedBy(w.database, employee);
      w' == if broken || employee !in w.employees || !Enumerates(found, owned) then w
            else w.(employees := w.employees - {employee}, database := w.database - owned,
                    unsent := UnsentAfter(w.unsent, found, lost),
                    wire := Tombstones(w.wire, found, lost))
    case Connected(order) =>
      if w.wire.broker.subscribed || !Enumerates(order, w.wire.broker.retained.Keys) then w' == w
      else Logged(order, w.wire.history.log) && w' == w.(wire := Brokers.Connect(w.wire, order))
    case Disconnected =>
      w' == w.(wire := Brokers.Disconnect(w.wire))
    case Delivered(broken) =>
      if w.wire.broker.channel == [] then w' == w else
      var t := if broken then w.table else Effect(w.table, w.wire.broker.channel[0]);
      w' == w.(wire := Brokers.Deliver(w.wire, broken), table := t, cache := t)
    case Restarted(_) =>
      w' == w.(wire := Brokers.Disconnect(w.wire), cache := w.table)
  }

  /** What every step keeps. */
  ghost predicate Sound(w: World) {
    && Consistent(w.wire) && AllGenuine(w.wire.history.log)
    && IsDatabase(w.employees, w.database, w.lastId)
    && Mirrors(w.database, w.wire.broker.retained, w.unsent)
    && w.table == w.cache == Contents(w.wire.history.applied)
  }

  /** A vector comes with its length. */
  ghost predicate WellFormed(event: Event) {
    event.Created? ==> event.vector.Valid()
  }

  lemma CreationKeeps(w: World, e: Embedding, sent: bool)
    requires Sound(w) && w.lastId < e.id <= INT32_MAX && e.owner in w.employees && IsEmbeddingVector(e.vector)
    ensures Sound(w.(lastId := e.id, database := w.database[e.id := e], unsent := Unsent(w.unsent, e.id, sent),
                     wire := if sent then Publish(w.wire, e.id, Some(e)) else w.wire))
  {
    PublishKeeps(w.wire, e.id, Some(e));
    hide Consistent;
  }

  lemma DeletionKeeps(w: World, employee: EmployeeId, found: seq<EmbeddingId>, lost: set<EmbeddingId>)
    requires Sound(w) && Enumerates(found, OwnedBy(w.database, employee))
    ensures Sound(w.(employees := w.employees - {employee}, database := w.database - OwnedBy(w.database, employee),
                     unsent := UnsentAfter(w.unsent, found, lost), wire := Tombstones(w.wire, found, lost)))
  {
    CascadeBreaksMirror(w.database, employee, w.wire.broker.retained, w.unsent, found, w.employees, w.lastId);
    TombstonesKeep(w.wire, w.database - OwnedBy(w.database, employee), w.unsent, found, lost, []);
    hide Consistent, AllGenuine;
  }

  lemma DeliveryKeeps(w: World, broken: bool)
    requires Sound(w) && w.wire.broker.channel != []
    ensures var t := if broken then w.table else Effect(w.table, w.wire.broker.channel[0]);
            Sound(w.(wire := Brokers.Deliver(w.wire, broken), table := t, cache := t))
  {
    DeliverKeeps(w.wire, broken);
    DeliveryIsEffect(w.wire, broken);
    hide Consistent, AllGenuine, Contents, Effect;
  }

  /** Every event, failures, crashes and reconnections included, keeps the invariant. */
  lemma NextKeeps(w: World, event: Event, w': World)
    requires Sound(w) && WellFormed(event) && Next(w, event, w')
    ensures Sound(w')
  {
    hide Consistent, AllGenuine, Mirrors, Contents;
    match event {
      case Hired(_) =>
      case Created(employee, vector, gap, broken, sent) =>
        var e := Embedding(w.lastId + 1 + gap, employee, vector);
        if StatusOfCreate(w.employees, employee, vector, e.id, broken).Created? {
          CreationKeeps(w, e, sent);
        }
      case Deleted(employee, found, _, lost) =>
        if Enumerates(found, OwnedBy(w.database, employee)) {
          DeletionKeeps(w, employee, found, lost);
        }
      case Connected(order) =>
        if !w.wire.broker.subscribed && Enumerates(order, w.wire.broker.retained.Keys) {
          ConnectKeeps(w.wire, order);
        }
      case Disconnected | Restarted(_) => DisconnectKeeps(w.wire);
      case Delivered(broken) =>
        if w.wire.broker.channel != [] {
          DeliveryKeeps(w, broken);
        }
    }
  }

  /** What the replication promises about a state. */
  ghost predicate Promised(w: World) {
    // The matcher's cache is the edge's table.
    && w.cache == w.table
    // With the messages on their way carried out, a subscribed edge agrees with the broker.
    && (w.wire.broker.subscribed ==> Converged(w.wire, Effects(w.table, w.wire.broker.channel)))
    // The broker agrees with the database, failed publishes apart.
    && Mirrors(w.database, w.wire.broker.retained, w.unsent)
    // So a caught-up edge agrees with the database on every undisturbed id.
    && (w.wire.broker.subscribed && w.wire.broker.channel == [] ==> forall id :: CaughtUp(w, id))
  }

  ghost predicate CaughtUp(w: World, id: EmbeddingId) {
    Undisturbed(w.wire, w.unsent, w.table, id) ==> SameAt(w.table, w.database, id)
  }

  lemma SoundKeepsPromises(w: World)
    requires Sound(w)
    ensures Promised(w)
  {
    if w.wire.broker.subscribed {
      InFlightCompletes(w.wire);
      forall id ensures w.wire.broker.channel == [] ==> CaughtUp(w, id) {
        assert SameAt(w.database, w.wire.broker.retained, id) || id in w.unsent;
      }
    }
  }

  ghost predicate AllWellFormed(events: seq<Event>) {
    forall i | 0 <= i < |events| :: WellFormed(events[i])
  }

  /** Every state of every run keeps the promises. */
  lemma {:induction false} RunsKeepPromises(trace: seq<World>, events: seq<Event>, n: nat)
    requires IsRun(Next, trace, events) && AllWellFormed(events) && Sound(trace[0]) && n < |trace|
    ensures Sound(trace[n]) && Promised(trace[n])
  {
    hide Sound, Promised, Next;
    if n == 0 {
    } else {
      RunsKeepPromises(trace, events, n - 1);
      assert Goes(Next, trace, events, n - 1) && WellFormed(events[n - 1]);
      NextKeeps(trace[n - 1], events[n - 1], trace[n]);
    }
    SoundKeepsPromises(trace[n]);
  }

  // ---------------------------------------------------------------------------
  // Healing over runs.

  /** An event of an undisturbed session: the backend works on, and deliveries succeed. */
  predicate IsSmooth(event: Event) {
    !event.Disconnected? && !event.Restarted? && (event.Delivered? ==> !event.broken)
  }

  lemma {:induction false} TombstonesKeepHealing(w: Wire, ids: seq<EmbeddingId>, lost: set<EmbeddingId>)
    requires Consistent(w) && Healing(w)
    ensures Consistent(Tombstones(w, ids, lost)) && Healing(Tombstones(w, ids, lost))
  {
    hide Consistent, Healing;
    if ids == [] {
    } else {
      TombstonesKeepHealing(w, ids[..|ids| - 1], lost);
      PublishKeeps(Tombstones(w, ids[..|ids| - 1], lost), ids[|ids| - 1], None);
      PublishKeepsHealing(Tombstones(w, ids[..|ids| - 1], lost), ids[|ids| - 1], None);
    }
  }

  lemma NextKeepsHealing(w: World, event: Event, w': World)
    requires Sound(w) && Healing(w.wire) && IsSmooth(event) && Next(w, event, w')
    ensures Healing(w'.wire)
  {
    assert Consistent(w.wire) && w.wire.broker.subscribed;
    hide Consistent, Healing, Sound;
    match event {
      case Created(employee, vector, gap, _, _) =>
        var id := w.lastId + 1 + gap;
        PublishKeepsHealing(w.wire, id, Some(Embedding(id, employee, vector)));
      case Deleted(_, found, _, lost) => TombstonesKeepHealing(w.wire, found, lost);
      case Delivered(_) =>
        if w.wire.broker.channel != [] {
          DeliverKeepsHealing(w.wire);
        }
      case _ =>
    }
  }

  /** The edge holds what the broker retains, on every retained id. */
  ghost predicate Healed(w: World) {
    forall id | id in w.wire.broker.retained :: SameAt(w.table, w.wire.broker.retained, id)
  }

  /**
   Whatever failed before a reconnection, and whatever the backend does after it: as long as
   the new session lasts and its deliveries succeed, an edge that has caught up agrees with
   the broker on every retained id.
   */
  lemma {:induction false} SessionsHeal(trace: seq<World>, events: seq<Event>, n: nat)
    requires IsRun(Next, trace, events) && AllWellFormed(events) && Sound(trace[0])
    requires 0 < n < |trace| && events[0].Connected? && !trace[0].wire.broker.subscribed
    requires Enumerates(events[0].order, trace[0].wire.broker.retained.Keys)
    requires forall i | 0 < i < |events| :: IsSmooth(events[i])
    ensures Healing(trace[n].wire)
    ensures trace[n].wire.broker.channel == [] ==> Healed(trace[n])
  {
    RunsKeepPromises(trace, events, n);
    RunsKeepPromises(trace, events, n - 1);
    assert Goes(Next, trace, events, n - 1);
    if n == 1 {
      ConnectHeals(trace[0].wire, events[0].order);
    } else {
      SessionsHeal(trace, events, n - 1);
      NextKeepsHealing(trace[n - 1], events[n - 1], trace[n]);
    }
    SoundHealed(trace[n]);
  }

  lemma SoundHealed(w: World)
    requires Sound(w) && Healing(w.wire)
    ensures w.wire.broker.channel == [] ==> Healed(w)
  {
    if w.wire.broker.channel == [] {
      forall id | id in w.wire.broker.retained ensures SameAt(w.table, w.wire.broker.retained, id) {
        HealedAgrees(w.wire, id);
      }
    }
  }

  class Deployment {
    const network: Network
    const backend: Backend
    const storage: Storage
    const threshold: real
    var edge: Subscriber

    ghost function Now(): World
      reads this, network, backend, storage, edge.matcher
    {
      World(network.wire, backend.employees, backend.embeddings, backend.lastId, backend.unsent,
            storage.Embeddings(), AsTable(edge.matcher.cache))
    }

    ghost predicate Valid()
      reads this, network, backend, storage, edge.matcher
    {
      && backend.network == network && edge.storage == storage
      && backend.Valid() && edge.Valid()
      && storage.Embeddings() == Contents(network.wire.history.applied)
    }

    /** A fresh backend, and an edge whose table is empty. */
    constructor (storage: Storage, threshold: real)
      requires storage.EmbeddingsValid() && storage.Embeddings() == map[]
      ensures Valid() && this.storage == storage && fresh(network) && fresh(backend) && fresh(edge) && fresh(edge.matcher)
      ensures Now().wire == START && Now().database == map[]
    {
      this.storage, this.threshold := storage, threshold;
      var network := new Network();
      this.network := network;
      this.backend := new Backend(network);
      var booted := Subscriber.Boot(storage, threshold, false);
      this.edge := booted.value;
    }

    /** The edge takes the next message from its channel. */
    method Deliver(broken: bool)
      requires Valid() && network.wire.broker.channel != []
      modifies network, storage`embeddings, edge.matcher`cache
      ensures Valid() && Next(old(Now()), Delivered(broken), Now())
    {
      ghost var w := network.wire;
      var n := network.Take(broken);
      MessageReadsBack(storage.Embeddings(), n, broken);
      DeliveryIsEffect(w, broken);
      edge.OnMessage(TopicOf(n.id), PayloadOf(n), broken);
    }

    /** The daemon goes down, losing its session, and comes up again unless its start throws. */
    method Restart(broken: bool)
      requires Valid()
      modifies this`edge, network
      ensures Valid() && Next(old(Now()), Restarted(broken), Now())
      ensures edge == old(edge) || (fresh(edge) && fresh(edge.matcher))
    {
      network.Drop();
      var booted := Subscriber.Boot(storage, threshold, broken);
      if booted.Done? {
        edge := booted.value;
      }
    }

    method Create(employee: EmployeeId, vector: Vector, gap: nat, broken: bool, sent: bool)
      requires Valid() && vector.Valid()
      modifies backend, network
      ensures Valid() && Next(old(Now()), Event.Created(employee, vector, gap, broken, sent), Now())
    {
      var _ := backend.Create(employee, vector, gap, broken, sent);
    }

    method Delete(employee: EmployeeId, found: seq<EmbeddingId>, broken: bool, lost: set<EmbeddingId>)
      requires Valid() && Enumerates(found, OwnedBy(backend.embeddings, employee))
      modifies backend, network
      ensures Valid() && Next(old(Now()), Deleted(employee, found, broken, lost), Now())
    {
      DeletionKeeps(Now(), employee, found, lost);
      hide Consistent;
      var _ := backend.Delete(employee, found, broken, lost);
    }

    method Connect(order: seq<EmbeddingId>)
      requires Valid() && !network.wire.broker.subscribed
      requires Enumerates(order, network.wire.broker.retained.Keys)
      modifies network
      ensures Valid() && Next(old(Now()), Connected(order), Now())
    {
      network.Subscribe(order);
    }

    method Take(event: Event)
      requires Valid() && WellFormed(event)
      modifies this`edge, network, backend, storage`embeddings, edge.matcher`cache
      ensures Valid() && Next(old(Now()), event, Now())
      ensures edge == old(edge) || fresh(edge.matcher)
    {
      match event {
        case Hired(employee) => backend.Hire(employee);
        case Created(employee, vector, gap, broken, sent) => Create(employee, vector, gap, broken, sent);
        case Deleted(employee, found, broken, lost) =>
          if Enumerates(found, OwnedBy(backend.embeddings, employee)) { Delete(employee, found, broken, lost); }
        case Connected(order) =>
          if !network.wire.broker.subscribed && Enumerates(order, network.wire.broker.retained.Keys) { Connect(order); }
        case Disconnected => network.Drop();
        case Delivered(broken) => if network.wire.broker.channel != [] { Deliver(broken); }
        case Restarted(broken) => Restart(broken);
      }
    }

    /** Any run of the whole system is a run of the relation, so every state keeps the promises. */
    method Run(events: seq<Event>) returns (ghost trace: seq<World>)
      requires Valid() && AllWellFormed(events)
      modifies this`edge, network, backend, storage`embeddings, edge.matcher`cache
      ensures Valid() && IsRun(Next, trace, events)
      ensures trace[0] == old(Now()) && Sound(trace[0]) && trace[|events|] == Now()
      ensures forall n | 0 <= n < |trace| :: Promised(trace[n])
    {
      trace := [Now()];
      for n := 0 to |events|
        invariant Valid() && |trace| == n + 1 && (edge == old(edge) || fresh(edge.matcher))
        invariant trace[0] == old(Now()) && trace[n] == Now() && Sound(trace[0])
        invariant IsRun(Next, trace, events[..n])
      {
        hide Consistent, Next, Sound;
        Take(events[n]);
        RunGoesOn(Next, trace, events, n, Now());
        trace := trace + [Now()];
      }
      assert events[..|events|] == events;
      forall n | 0 <= n < |trace| ensures Promised(trace[n]) {
        RunsKeepPromises(trace, events, n);
      }
    }
  }
}
