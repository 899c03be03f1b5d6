/**
 The MQTT broker between backend and edge, as MQTT 3.1.1 defines it: a retained message per
 topic (section 3.3.1.3), one ordered channel to the edge (section 4.6), and a session that a
 clean-session client loses with its connection (section 3.1.2.4).
 */
module Brokers {
  import opened Basics
  import opened Matching

  /** A message of the embedding sync that the broker accepted; no content is a tombstone. */
  datatype Notice = Notice(stamp: nat, id: EmbeddingId, content: Option<Embedding>)

  datatype Broker = Broker(retained: Table, subscribed: bool, channel: seq<Notice>)

  /** What happened so far; the program keeps no such record. */
  datatype History = History(
    log: seq<Notice>,                  // every accepted message, stamped with its place here
    applied: map<EmbeddingId, Notice>, // the last message of each id that the edge carried out
    attempted: set<nat>,               // the stamps of the messages delivered to the edge
    failed: set<nat>)                  // those on which a statement of the edge threw

  datatype Wire = Wire(broker: Broker, history: History)

  /** The table made by these messages, one per id. */
  function Contents(m: map<EmbeddingId, Notice>): Table {
    map id | id in m && m[id].content.Some? :: m[id].content.value
  }

  /** The last message for an id. */
  function LastFor(messages: seq<Notice>, id: EmbeddingId): Option<Notice> {
    if messages == [] then None else
    var last := messages[|messages| - 1];
    if last.id == id then Some(last) else LastFor(messages[..|messages| - 1], id)
  }

  // ---------------------------------------------------------------------------
  // Steps.

  /** An accepted PUBLISH with the retain flag. */
  function Publish(w: Wire, id: EmbeddingId, content: Option<Embedding>): Wire {
    var b, h := w.broker, w.history;
    var n := Notice(|h.log|, id, content);
    Wire(Broker(Effect(b.retained, n), b.subscribed, if b.subscribed then b.channel + [n] else []),
         h.(log := h.log + [n]))
  }

  /** A message carried out on a table, the broker's or the edge's. */
  function Effect(t: Table, n: Notice): Table {
    match n.content
    case Some(e) => t[n.id := e]
    case None => t - {n.id}
  }

  /** The order in which a new subscription gets the retained messages is the broker's choice. */
  predicate Enumerates(order: seq<EmbeddingId>, ids: set<EmbeddingId>) {
    && (forall i | 0 <= i < |order| :: order[i] in ids)
    && (forall id | id in ids :: id in order)
    && forall i, j | 0 <= i < j < |order| :: order[i] != order[j]
  }

  ghost predicate Logged(order: seq<EmbeddingId>, log: seq<Notice>) {
    forall i | 0 <= i < |order| :: LastFor(log, order[i]).Some?
  }

  function Replay(order: seq<EmbeddingId>, log: seq<Notice>): seq<Notice>
    requires Logged(order, log)
  {
    seq(|order|, i requires 0 <= i < |order| && Logged(order, log) => LastFor(log, order[i]).value)
  }

  function Connect(w: Wire, order: seq<EmbeddingId>): Wire
    requires Logged(order, w.history.log)
  {
    w.(broker := w.broker.(subscribed := true, channel := Replay(order, w.history.log)))
  }

  function Disconnect(w: Wire): Wire {
    w.(broker := w.broker.(subscribed := false, channel := []))
  }

  /** The edge takes the next message; `broken` if its statement threw. */
  function Deliver(w: Wire, broken: bool): Wire
    requires w.broker.channel != []
  {
    var n, h := w.broker.channel[0], w.history;
    Wire(w.broker.(channel := w.broker.channel[1..]),
         h.(attempted := h.attempted + {n.stamp},
            failed := if broken then h.failed + {n.stamp} else h.failed,
            applied := if broken then h.applied else h.applied[n.id := n]))
  }

  function Effects(t: Table, channel: seq<Notice>): Table
    decreases |channel|
  {
    if channel == [] then t else Effects(Effect(t, channel[0]), channel[1..])
  }

  // ---------------------------------------------------------------------------
  // The invariant.

  ghost predicate InLog(n: Notice, log: seq<Notice>) {
    n.stamp < |log| && log[n.stamp] == n
  }

  ghost predicate Recorded(messages: seq<Notice>, log: seq<Notice>) {
    forall p | 0 <= p < |messages| :: InLog(messages[p], log)
  }

  /** Of several messages for one id in the channel, only the first can be a replay. */
  ghost predicate Fresh(channel: seq<Notice>, attempted: set<nat>) {
    forall p, q | 0 <= p < q < |channel| && channel[p].id == channel[q].id ::
      channel[p].stamp != channel[q].stamp && channel[q].stamp !in attempted
  }

  /** How broker and edge stand with one id. */
  ghost predicate Settled(w: Wire, id: EmbeddingId) {
    var b, h := w.broker, w.history;
    var newest, pending := LastFor(h.log, id), LastFor(b.channel, id);
    // The broker retains the content of the newest message.
    && Holds(b.retained, id, newest)
    // The newest message is the last one on its way.
    && (pending.Some? ==> pending == newest)
    // It was carried out, or its statement threw, or it has not been delivered yet.
    && (newest.Some? ==>
          CarriedOut(h, newest.value) || newest.value.stamp in h.failed || newest.value.stamp !in h.attempted)
    // While subscribed, only a tombstone can neither have been delivered nor be on its way.
    && (newest.Some? && b.subscribed && pending.None? && newest.value.stamp !in h.attempted ==>
          newest.value.content.None?)
    && (newest.None? ==> id !in h.applied)
  }

  ghost predicate Holds(t: Table, id: EmbeddingId, newest: Option<Notice>) {
    && (id in t <==> newest.Some? && newest.value.content.Some?)
    && (id in t ==> t[id] == newest.value.content.value)
  }

  ghost predicate CarriedOut(h: History, n: Notice) {
    n.id in h.applied && h.applied[n.id] == n
  }

  ghost predicate Consistent(w: Wire) {
    && (!w.broker.subscribed ==> w.broker.channel == [])
    && Recorded(w.history.log, w.history.log)
    && Recorded(w.broker.channel, w.history.log)
    && Fresh(w.broker.channel, w.history.attempted)
    && (forall s | s in w.history.attempted :: s < |w.history.log|)
    && forall id :: Settled(w, id)
  }

  const START := Wire(Broker(map[], false, []), History([], map[], {}, {}))

  lemma StartIsConsistent()
    ensures Consistent(START)
  {
  }

  lemma {:induction false} LastForHead(channel: seq<Notice>, id: EmbeddingId)
    requires channel != []
    ensures LastFor(channel, id) ==
            if LastFor(channel[1..], id).Some? then LastFor(channel[1..], id)
            else if channel[0].id == id then Some(channel[0]) else None
  {
    var n := |channel| - 1;
    if n == 0 {
    } else {
      LastForHead(channel[..n], id);
      assert channel[..n][1..] == channel[1..][..n - 1];
    }
  }

  lemma {:induction false} LastForIsThere(channel: seq<Notice>, id: EmbeddingId)
    ensures LastFor(channel, id).None? ==> forall p | 0 <= p < |channel| :: channel[p].id != id
    ensures LastFor(channel, id).Some? ==>
              exists p :: 0 <= p < |channel| && channel[p].id == id && LastFor(channel, id) == Some(channel[p])
  {
    if channel == [] {
    } else {
      LastForIsThere(channel[..|channel| - 1], id);
    }
  }

  lemma PublishSettles(w: Wire, id: EmbeddingId, content: Option<Embedding>, other: EmbeddingId)
    requires Consistent(w)
    ensures Settled(Publish(w, id, content), other)
  {
    var n := Notice(|w.history.log|, id, content);
    assert Settled(w, other);
    LastForAppends(w.history.log, n, other);
    LastForAppends(w.broker.channel, n, other);
    LastForIsThere(w.history.log, other);
    hide LastFor;
  }

  lemma LastForAppends(messages: seq<Notice>, n: Notice, id: EmbeddingId)
    ensures LastFor(messages + [n], id) == if n.id == id then Some(n) else LastFor(messages, id)
  {
    assert (messages + [n])[..|messages|] == messages;
  }

  lemma FreshAppends(channel: seq<Notice>, log: seq<Notice>, attempted: set<nat>, n: Notice)
    requires Fresh(channel, attempted) && Recorded(channel, log) && n.stamp == |log| && n.stamp !in attempted
    ensures Fresh(channel + [n], attempted) && Recorded(channel + [n], log + [n]) && Recorded(channel, log + [n])
  {
    forall p | 0 <= p < |channel| ensures channel[p].stamp < |log| && InLog(channel[p], log + [n]) {
      assert InLog(channel[p], log);
    }
  }

  lemma PublishKeeps(w: Wire, id: EmbeddingId, content: Option<Embedding>)
    requires Consistent(w)
    ensures Consistent(Publish(w, id, content))
  {
    var n := Notice(|w.history.log|, id, content);
    forall other ensures Settled(Publish(w, id, content), other) {
      PublishSettles(w, id, content, other);
    }
    FreshAppends(w.broker.channel, w.history.log, w.history.attempted, n);
    FreshAppends([], w.history.log, w.history.attempted, n);
    LogGrows(w.history.log, n);
    hide Settled, Fresh, Recorded;
  }

  lemma LogGrows(log: seq<Notice>, n: Notice)
    requires Recorded(log, log) && n.stamp == |log|
    ensures Recorded(log + [n], log + [n])
  {
    forall p | 0 <= p < |log| ensures InLog(log[p], log + [n]) {
      assert InLog(log[p], log);
    }
  }

  /** A new subscription gets every retained message once. */
  lemma ConnectKeeps(w: Wire, order: seq<EmbeddingId>)
    requires Consistent(w) && !w.broker.subscribed && Enumerates(order, w.broker.retained.Keys)
    ensures Logged(order, w.history.log) && Consistent(Connect(w, order))
    ensures forall i | 0 <= i < |order| ::
              var n := Connect(w, order).broker.channel[i];
              n.id == order[i] && n.content == Some(w.broker.retained[order[i]])
  {
    forall i | 0 <= i < |order|
      ensures Replayed(w, order[i])
    {
      assert Settled(w, order[i]);
      LastForIsThere(w.history.log, order[i]);
    }
    var w' := Connect(w, order);
    var channel := w'.broker.channel;
    forall id ensures Settled(w', id) {
      assert Settled(w, id);
      LastForIsThere(channel, id);
      if id in order {
        var p :| 0 <= p < |order| && order[p] == id;
        assert Replayed(w, order[p]) && channel[p].id == id;
      }
    }
  }

  ghost predicate Replayed(w: Wire, id: EmbeddingId) {
    var newest := LastFor(w.history.log, id);
    && newest.Some? && newest.value.id == id && InLog(newest.value, w.history.log)
    && id in w.broker.retained && newest.value.content == Some(w.broker.retained[id])
  }

  lemma DisconnectKeeps(w: Wire)
    requires Consistent(w)
    ensures Consistent(Disconnect(w))
  {
    forall id ensures Settled(Disconnect(w), id) {
      assert Settled(w, id);
    }
  }

  lemma DeliverKeeps(w: Wire, broken: bool)
    requires Consistent(w) && w.broker.channel != []
    ensures Consistent(Deliver(w, broken))
  {
    var w', n := Deliver(w, broken), w.broker.channel[0];
    FreshTail(w.broker.channel, w.history.log, w.history.attempted);
    forall id ensures Settled(w', id) {
      DeliverSettles(w, broken, id);
    }
  }

  lemma FreshTail(channel: seq<Notice>, log: seq<Notice>, attempted: set<nat>)
    requires channel != [] && Fresh(channel, attempted) && Recorded(channel, log)
    ensures Fresh(channel[1..], attempted + {channel[0].stamp})
  {
    forall p, q | 0 <= p < q < |channel| - 1 && channel[1..][p].id == channel[1..][q].id
      ensures channel[1..][p].stamp != channel[1..][q].stamp
      ensures channel[1..][q].stamp !in attempted + {channel[0].stamp}
    {
      assert channel[1..][p] == channel[p + 1] && channel[1..][q] == channel[q + 1];
      assert InLog(channel[0], log) && InLog(channel[q + 1], log);
    }
  }

  lemma DeliverSettles(w: Wire, broken: bool, id: EmbeddingId)
    requires Consistent(w) && w.broker.channel != []
    ensures Settled(Deliver(w, broken), id)
  {
    var n := w.broker.channel[0];
    assert Settled(w, id) && Settled(w, n.id);
    LastForHead(w.broker.channel, id);
    LastForIsThere(w.broker.channel[1..], id);
    LastForIsThere(w.history.log, id);
    LastForIsThere(w.broker.channel, n.id);
    assert InLog(n, w.history.log);
  }

  // ---------------------------------------------------------------------------
  // What the edge's table is.

  /** The edge's table is made by the messages that it carried out. */
  lemma DeliveryIsEffect(w: Wire, broken: bool)
    requires w.broker.channel != []
    ensures Contents(Deliver(w, broken).history.applied) ==
            if broken then Contents(w.history.applied) else Effect(Contents(w.history.applied), w.broker.channel[0])
  {
  }

  /** A statement of the edge threw on the newest message of the id, and no replay made up for it or is about to. */
  ghost predicate Thrown(w: Wire, id: EmbeddingId) {
    var newest := LastFor(w.history.log, id);
    && newest.Some? && newest.value.stamp in w.history.failed
    && !CarriedOut(w.history, newest.value) && LastFor(w.broker.channel, id).None?
  }

  /** The newest message of the id is a tombstone that was never delivered. */
  ghost predicate LeftOver(w: Wire, id: EmbeddingId) {
    var newest := LastFor(w.history.log, id);
    newest.Some? && newest.value.content.None? && newest.value.stamp !in w.history.attempted
  }

  /**
   Ids with an unhealed failure apart, a table agrees with what the broker retains on exactly
   those ids that are not entries with an undelivered tombstone.
   */
  ghost predicate Converged(w: Wire, t: Table) {
    forall id | !Thrown(w, id) :: SameAt(t, w.broker.retained, id) <==> !(id in t && LeftOver(w, id))
  }

  lemma {:induction false} EffectsAt(t: Table, channel: seq<Notice>, id: EmbeddingId)
    ensures LastFor(channel, id).None? ==> SameAt(Effects(t, channel), t, id)
    ensures LastFor(channel, id).Some? ==> Holds(Effects(t, channel), id, LastFor(channel, id))
    decreases |channel|
  {
    if channel == [] {
    } else {
      LastForHead(channel, id);
      EffectsAt(Effect(t, channel[0]), channel[1..], id);
    }
  }

  /** While the edge is subscribed, what is on its way completes its table. */
  lemma InFlightCompletes(w: Wire)
    requires Consistent(w) && w.broker.subscribed
    ensures Converged(w, Effects(Contents(w.history.applied), w.broker.channel))
  {
    var t := Contents(w.history.applied);
    forall id | !Thrown(w, id)
      ensures SameAt(Effects(t, w.broker.channel), w.broker.retained, id)
              <==> !(id in Effects(t, w.broker.channel) && LeftOver(w, id))
    {
      assert Settled(w, id);
      LastForIsThere(w.history.log, id);
      EffectsAt(t, w.broker.channel, id);
    }
  }

  // ---------------------------------------------------------------------------
  // A new subscription heals what went wrong before it.

  /** Every retained message is on its way or was carried out, whatever failed in earlier sessions. */
  ghost predicate Healing(w: Wire) {
    w.broker.subscribed && forall id | id in w.broker.retained :: UnderWay(w, id)
  }

  ghost predicate UnderWay(w: Wire, id: EmbeddingId) {
    var newest := LastFor(w.history.log, id);
    newest.Some? && (LastFor(w.broker.channel, id).Some? || CarriedOut(w.history, newest.value))
  }

  lemma ConnectHeals(w: Wire, order: seq<EmbeddingId>)
    requires Consistent(w) && !w.broker.subscribed && Enumerates(order, w.broker.retained.Keys)
    ensures Logged(order, w.history.log) && Healing(Connect(w, order))
  {
    ConnectKeeps(w, order);
    var w' := Connect(w, order);
    forall id | id in w.broker.retained ensures UnderWay(w', id) {
      assert Settled(w, id);
      LastForIsThere(w'.broker.channel, id);
      var p :| 0 <= p < |order| && order[p] == id;
      assert w'.broker.channel[p].id == id;
    }
  }

  lemma PublishKeepsHealing(w: Wire, id: EmbeddingId, content: Option<Embedding>)
    requires Consistent(w) && Healing(w)
    ensures Healing(Publish(w, id, content))
  {
    var w', n := Publish(w, id, content), Notice(|w.history.log|, id, content);
    forall other | other in w'.broker.retained ensures UnderWay(w', other) {
      LastForAppends(w.history.log, n, other);
      LastForAppends(w.broker.channel, n, other);
      assert other == id || UnderWay(w, other);
    }
  }

  lemma DeliverKeepsHealing(w: Wire)
    requires Consistent(w) && Healing(w) && w.broker.channel != []
    ensures Healing(Deliver(w, false))
  {
    var w', n := Deliver(w, false), w.broker.channel[0];
    forall id | id in w.broker.retained ensures UnderWay(w', id) {
      assert UnderWay(w, id) && Settled(w, id);
      LastForHead(w.broker.channel, id);
      LastForIsThere(w.history.log, id);
    }
  }

  /** A healing edge that has caught up agrees with the broker on every retained id, without exception. */
  lemma HealedAgrees(w: Wire, id: EmbeddingId)
    requires Consistent(w) && Healing(w) && w.broker.channel == [] && id in w.broker.retained
    ensures SameAt(Contents(w.history.applied), w.broker.retained, id)
  {
    assert UnderWay(w, id) && Settled(w, id);
    LastForIsThere(w.history.log, id);
  }

  /** The whole channel is delivered and nothing fails. */
  function DeliverAll(w: Wire): Wire
    decreases |w.broker.channel|
  {
    if w.broker.channel == [] then w else DeliverAll(Deliver(w, false))
  }

  lemma {:induction false} DeliverAllKeeps(w: Wire)
    requires Consistent(w) && Healing(w)
    ensures var w' := DeliverAll(w);
            && Consistent(w') && Healing(w')
            && w'.broker == w.broker.(channel := []) && w'.history.log == w.history.log
    decreases |w.broker.channel|
  {
    hide Consistent, Healing;
    if w.broker.channel == [] {
    } else {
      DeliverKeeps(w, false);
      DeliverKeepsHealing(w);
      DeliverAllKeeps(Deliver(w, false));
    }
  }

  /**
   Whatever failed before: after a reconnection and a failure-free delivery of the channel
   the edge agrees with the broker on every retained id.
   */
  lemma ReconnectionHeals(w: Wire, order: seq<EmbeddingId>)
    requires Consistent(w) && !w.broker.subscribed && Enumerates(order, w.broker.retained.Keys)
    ensures Logged(order, w.history.log)
    ensures var w' := DeliverAll(Connect(w, order));
            && Consistent(w') && w'.broker.retained == w.broker.retained
            && forall id | id in w.broker.retained :: SameAt(Contents(w'.history.applied), w.broker.retained, id)
  {
    hide Consistent, Healing;
    ConnectKeeps(w, order);
    ConnectHeals(w, order);
    DeliverAllKeeps(Connect(w, order));
    var w' := DeliverAll(Connect(w, order));
    forall id | id in w.broker.retained ensures SameAt(Contents(w'.history.applied), w.broker.retained, id) {
      HealedAgrees(w', id);
    }
  }

  /**
   A tombstone sent while the edge is offline is never delivered: the reconnected edge has
   nothing on its way and still holds the entry.
   */
  lemma OfflineTombstoneIsLost(e: Embedding)
    ensures
      var online := Deliver(Publish(Connect(START, []), e.id, Some(e)), false);
      var w := Connect(Publish(Disconnect(online), e.id, None), []);
      && w.broker == Broker(map[], true, [])
      && Contents(w.history.applied) == map[e.id := e] && LeftOver(w, e.id)
  {
    var n, stone := Notice(0, e.id, Some(e)), Notice(1, e.id, None);
    var w := Publish(Connect(START, []), e.id, Some(e));
    assert w.broker.channel == [n] && w.broker.channel[1..] == [];
    assert w.history.log == [n] && w.broker.retained == map[e.id := e];
    w := Publish(Disconnect(Deliver(w, false)), e.id, None);
    assert w.history.log == [n, stone] && w.broker.retained == map[];
    assert w.history.applied == map[e.id := n] && w.history.attempted == {0};
  }

  class Network {
    var wire: Wire

    ghost predicate Valid()
      reads this
    {
      Consistent(wire)
    }

    constructor ()
      ensures Valid() && wire == START
    {
      wire := START;
      new;
      StartIsConsistent();
    }

    /** A client's publish, which the client may fail to hand over. */
    method Send(id: EmbeddingId, content: Option<Embedding>, ok: bool)
      requires Valid()
      modifies this
      ensures Valid() && wire == if ok then Publish(old(wire), id, content) else old(wire)
    {
      hide Consistent;
      if ok {
        PublishKeeps(wire, id, content);
        wire := Publish(wire, id, content);
      }
    }

    method Subscribe(order: seq<EmbeddingId>)
      requires Valid() && !wire.broker.subscribed && Enumerates(order, wire.broker.retained.Keys)
      modifies this
      ensures Valid() && Logged(order, old(wire).history.log) && wire == Connect(old(wire), order)
    {
      hide Consistent;
      ConnectKeeps(wire, order);
      wire := Connect(wire, order);
    }

    method Drop()
      requires Valid()
      modifies this
      ensures Valid() && wire == Disconnect(old(wire))
    {
      hide Consistent;
      DisconnectKeeps(wire);
      wire := Disconnect(wire);
    }

    method Take(broken: bool) returns (n: Notice)
      requires Valid() && wire.broker.channel != []
      modifies this
      ensures Valid() && n == old(wire).broker.channel[0] && wire == Deliver(old(wire), broken)
    {
      hide Consistent;
      n := wire.broker.channel[0];
      DeliverKeeps(wire, broken);
      wire := Deliver(wire, broken);
    }
  }
}
