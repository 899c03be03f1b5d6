/**
 The backend's handlers that change embeddings: first the database, then a retained message
 or a tombstone. A failed publish is logged and forgotten.
 */
module Backends {
  import opened Basics
  import opened Vectors
  import opened Matching
  import opened Brokers

  /** PostgreSQL's INTEGER */
  const INT32_MAX: int := 0x7fff_ffff

  datatype Status = Created | NoContent | BadRequest | NotFound | DatabaseError

  predicate IsDatabaseId(id: int) { 1 <= id <= INT32_MAX }

  /** A message that the backend can have sent. */
  ghost predicate Genuine(n: Notice) {
    && IsDatabaseId(n.id)
    && (n.content.Some? ==> n.content.value.id == n.id && IsEmbeddingVector(n.content.value.vector))
  }

  ghost predicate AllGenuine(log: seq<Notice>) {
    forall i | 0 <= i < |log| :: Genuine(log[i])
  }

  /** SELECT id FROM embeddings WHERE employee_id = ? */
  function OwnedBy(t: Table, employee: EmployeeId): set<EmbeddingId> {
    set id | id in t && t[id].owner == employee
  }

  /** The wire after the loop over the tombstones; `lost` are the ids whose publish fails. */
  function Tombstones(w: Wire, ids: seq<EmbeddingId>, lost: set<EmbeddingId>): Wire {
    if ids == [] then w else
    var w', id := Tombstones(w, ids[..|ids| - 1], lost), ids[|ids| - 1];
    if id in lost then w' else Publish(w', id, None)
  }

  /** The broker retains the database's row, or its absence, for every id outside `skip`. */
  ghost predicate Mirrors(t: Table, retained: Table, skip: set<EmbeddingId>) {
    forall id | id !in skip :: SameAt(t, retained, id)
  }

  /** After a cascade, each tombstone repairs its id. */
  ghost predicate MirrorsBut(t: Table, retained: Table, skip: set<EmbeddingId>, rest: seq<EmbeddingId>) {
    forall id | id !in skip && id !in rest :: SameAt(t, retained, id)
  }

  /** The ids on which the last publish failed, after one more publish. */
  function Unsent(unsent: set<EmbeddingId>, id: EmbeddingId, sent: bool): set<EmbeddingId> {
    if sent then unsent - {id} else unsent + {id}
  }

  /** The same after the loop over the tombstones. */
  function UnsentAfter(unsent: set<EmbeddingId>, ids: seq<EmbeddingId>, lost: set<EmbeddingId>): set<EmbeddingId> {
    unsent - (set id | id in ids && id !in lost) + (set id | id in ids && id in lost)
  }

  lemma TombstoneRepairs(t: Table, w: Wire, skip: set<EmbeddingId>, id: EmbeddingId, rest: seq<EmbeddingId>)
    requires id !in t && MirrorsBut(t, w.broker.retained, skip, [id] + rest)
    ensures MirrorsBut(t, Publish(w, id, None).broker.retained, Unsent(skip, id, true), rest)
    ensures MirrorsBut(t, w.broker.retained, Unsent(skip, id, false), rest)
  {
  }

  ghost predicate AreGone(ids: seq<EmbeddingId>, t: Table) {
    forall i | 0 <= i < |ids| :: ids[i] !in t && IsDatabaseId(ids[i])
  }

  lemma TombstoneIsGenuine(w: Wire, id: EmbeddingId)
    requires AllGenuine(w.history.log) && IsDatabaseId(id)
    ensures AllGenuine(Publish(w, id, None).history.log)
  {
  }

  /** The tombstones restore the agreement that the cascade broke, on every id not lost. */
  lemma {:induction false} TombstonesKeep(w: Wire, t: Table, unsent: set<EmbeddingId>, ids: seq<EmbeddingId>,
                                          lost: set<EmbeddingId>, rest: seq<EmbeddingId>)
    requires Consistent(w) && AllGenuine(w.history.log) && AreGone(ids, t)
    requires MirrorsBut(t, w.broker.retained, unsent, ids + rest)
    ensures var w' := Tombstones(w, ids, lost);
            && Consistent(w') && AllGenuine(w'.history.log) && w'.history.applied == w.history.applied
            && MirrorsBut(t, w'.broker.retained, UnsentAfter(unsent, ids, lost), rest)
  {
    if ids == [] {
      assert ids + rest == rest;
    } else {
      var front, id := ids[..|ids| - 1], ids[|ids| - 1];
      assert ids + rest == front + ([id] + rest);
      TombstonesKeep(w, t, unsent, front, lost, [id] + rest);
      var w', skip := Tombstones(w, front, lost), UnsentAfter(unsent, front, lost);
      UnsentGrows(unsent, front, id, lost);
      assert ids == front + [id];
      hide Consistent, AllGenuine, MirrorsBut, UnsentAfter;
      TombstoneRepairs(t, w', skip, id, rest);
      PublishKeeps(w', id, None);
      TombstoneIsGenuine(w', id);
    }
  }

  lemma UnsentGrows(unsent: set<EmbeddingId>, ids: seq<EmbeddingId>, id: EmbeddingId, lost: set<EmbeddingId>)
    ensures UnsentAfter(unsent, ids + [id], lost) == Unsent(UnsentAfter(unsent, ids, lost), id, id !in lost)
  {
  }

  /** The tombstones reach the broker for exactly the ids not lost, and nothing else is sent. */
  lemma {:induction false} TombstonesReach(w: Wire, ids: seq<EmbeddingId>, lost: set<EmbeddingId>, id: EmbeddingId)
    ensures var w' := Tombstones(w, ids, lost);
            && (id in ids && id !in lost ==> id !in w'.broker.retained)
            && (id !in ids || id in lost ==> SameAt(w.broker.retained, w'.broker.retained, id))
            && w.history.log <= w'.history.log && w'.history.applied == w.history.applied
            && forall i | |w.history.log| <= i < |w'.history.log| ::
                 w'.history.log[i].content.None? && w'.history.log[i].id in ids && w'.history.log[i].id !in lost
  {
    if ids == [] {
    } else {
      var front := ids[..|ids| - 1];
      TombstonesReach(w, front, lost, id);
      assert ids == front + [ids[|ids| - 1]];
    }
  }

  /** What the database's constraints say. */
  ghost predicate IsDatabase(employees: set<EmployeeId>, embeddings: Table, lastId: int) {
    && 0 <= lastId <= INT32_MAX
    && forall id | id in embeddings ::
         && 1 <= id <= lastId && embeddings[id].id == id
         && embeddings[id].owner in employees && IsEmbeddingVector(embeddings[id].vector)
  }

  lemma CascadeBreaksMirror(t: Table, employee: EmployeeId, retained: Table, unsent: set<EmbeddingId>,
                            found: seq<EmbeddingId>, employees: set<EmployeeId>, lastId: int)
    requires Mirrors(t, retained, unsent) && IsDatabase(employees, t, lastId)
    requires Enumerates(found, OwnedBy(t, employee))
    ensures var t' := t - OwnedBy(t, employee);
            && AreGone(found, t') && MirrorsBut(t', retained, unsent, found + [])
            && IsDatabase(employees - {employee}, t', lastId)
  {
    assert found + [] == found;
  }

  /** One id after the deletion of an employee. */
  ghost predicate WasDeleted(t: Table, employee: EmployeeId, id: EmbeddingId, lost: set<EmbeddingId>,
                             w: Wire, w': Wire, unsent: set<EmbeddingId>)
  {
    if id in t && t[id].owner == employee
    then if id in lost then SameAt(w.broker.retained, w'.broker.retained, id) && id in unsent
         else id !in w'.broker.retained && id !in unsent
    else SameAt(w.broker.retained, w'.broker.retained, id)
  }

  /** The log goes on with tombstones for the employee's embeddings, and with nothing else. */
  ghost predicate OnlyTombstones(t: Table, employee: EmployeeId, lost: set<EmbeddingId>, log: seq<Notice>,
                                 log': seq<Notice>)
  {
    && log <= log'
    && forall i | |log| <= i < |log'| ::
         log'[i].content.None? && log'[i].id in t && t[log'[i].id].owner == employee && log'[i].id !in lost
  }

  lemma DeletionIsExact(t: Table, employee: EmployeeId, found: seq<EmbeddingId>, lost: set<EmbeddingId>, w: Wire,
                        unsent: set<EmbeddingId>)
    requires Enumerates(found, OwnedBy(t, employee))
    ensures forall id :: id in t - OwnedBy(t, employee) <==> id in t && t[id].owner != employee
    ensures forall id ::
              WasDeleted(t, employee, id, lost, w, Tombstones(w, found, lost), UnsentAfter(unsent, found, lost))
    ensures OnlyTombstones(t, employee, lost, w.history.log, Tombstones(w, found, lost).history.log)
  {
    forall id
      ensures WasDeleted(t, employee, id, lost, w, Tombstones(w, found, lost), UnsentAfter(unsent, found, lost))
    {
      TombstonesReach(w, found, lost, id);
      assert id in found <==> id in t && t[id].owner == employee;
    }
    TombstonesReach(w, found, lost, 0);
  }

  class Backend {
    const network: Network
    var employees: set<EmployeeId>
    var embeddings: Table
    var lastId: int
    ghost var unsent: set<EmbeddingId>   // ids on which the last publish failed

    ghost predicate DatabaseValid()
      reads this`employees, this`embeddings, this`lastId
    {
      IsDatabase(employees, embeddings, lastId)
    }

    ghost predicate Valid()
      reads this, network
    {
      && DatabaseValid()
      && network.Valid()
      && AllGenuine(network.wire.history.log)
      && Mirrors(embeddings, network.wire.broker.retained, unsent)
    }

    constructor (network: Network)
      requires network.Valid() && network.wire == START
      ensures Valid() && this.network == network && embeddings == map[] && unsent == {}
    {
      this.network := network;
      employees, embeddings, lastId, unsent := {}, map[], 0, {};
    }

    /** POST /employees */
    method Hire(employee: EmployeeId)
      requires Valid()
      modifies this`employees
      ensures Valid() && employees == old(employees) + {employee}
    {
      employees := employees + {employee};
    }

    /** POST /employees/{id}/embeddings */
    method Create(employee: EmployeeId, vector: Vector, gap: nat, broken: bool, sent: bool) returns (status: Status)
      requires Valid() && vector.Valid()
      modifies this`embeddings, this`lastId, this`unsent, network
      ensures Valid() && status == StatusOfCreate(old(employees), employee, vector, old(lastId) + 1 + gap, broken)
      ensures status.Created? ==>
                var e := Embedding(lastId, employee, vector);
                && lastId == old(lastId) + 1 + gap && embeddings == old(embeddings)[lastId := e]
                && unsent == Unsent(old(unsent), lastId, sent)
                && network.wire == if sent then Publish(old(network.wire), lastId, Some(e)) else old(network.wire)
      // The status goes by the length of the vector, the statement and the employee, in this order.
      ensures status.BadRequest? <==> |vector.xs| != EMBEDDING_DIM
      ensures status.DatabaseError? <==> |vector.xs| == EMBEDDING_DIM && (broken || old(lastId) + 1 + gap > INT32_MAX)
      ensures status.Created? ==> employee in old(employees)
      ensures status.NotFound? ==> employee !in old(employees)
      ensures !status.NoContent?
      // A publish that fails leaves the broker as it was.
      ensures status.Created? ==> lastId !in old(embeddings) && (lastId in unsent <==> !sent)
      ensures status.Created? && sent ==>
                network.wire.broker.retained == old(network.wire.broker.retained)[lastId := embeddings[lastId]]
      ensures status.Created? && !sent ==> network.wire == old(network.wire)
      ensures !status.Created? ==>
                && embeddings == old(embeddings) && unsent == old(unsent) && lastId == old(lastId)
                && network.wire == old(network.wire)
    {
      status := StatusOfCreate(employees, employee, vector, lastId + 1 + gap, broken);
      if status.Created? {
        lastId := lastId + 1 + gap;
        var e := Embedding(lastId, employee, vector);
        embeddings := embeddings[lastId := e];
        network.Send(lastId, Some(e), sent);
        unsent := Unsent(unsent, lastId, sent);
      }
    }

    /** DELETE /employees/{id}; `found` are the ids in the order of the SELECT. */
    method Delete(employee: EmployeeId, found: seq<EmbeddingId>, broken: bool, lost: set<EmbeddingId>)
      returns (status: Status)
      requires Valid() && Enumerates(found, OwnedBy(embeddings, employee))
      modifies this`employees, this`embeddings, this`unsent, network
      ensures Valid()
      ensures status == if broken then DatabaseError else if employee !in old(employees) then NotFound else NoContent
      ensures status.NoContent? ==>
                && employees == old(employees) - {employee}
                && embeddings == old(embeddings) - OwnedBy(old(embeddings), employee)
                && network.wire == Tombstones(old(network.wire), found, lost)
                && unsent == UnsentAfter(old(unsent), found, lost)
      // In the columns' terms: the employee's embeddings are gone, the others are as they were.
      ensures status.NoContent? ==>
                forall id :: id in embeddings <==> id in old(embeddings) && old(embeddings)[id].owner != employee
      ensures status.NoContent? ==>
                forall id | id in embeddings :: embeddings[id] == old(embeddings)[id]
      // Every message sent is a tombstone for one of them; what is not lost reaches the broker.
      ensures status.NoContent? ==>
                forall id :: WasDeleted(old(embeddings), employee, id, lost, old(network.wire), network.wire, unsent)
      ensures status.NoContent? ==>
                OnlyTombstones(old(embeddings), employee, lost, old(network.wire.history.log), network.wire.history.log)
      ensures !status.NoContent? ==>
                && employees == old(employees) && embeddings == old(embeddings)
                && unsent == old(unsent) && network.wire == old(network.wire)
    {
      if broken {
        return DatabaseError;
      }
      if employee !in employees {
        return NotFound;
      }
      CascadeBreaksMirror(embeddings, employee, network.wire.broker.retained, unsent, found, employees, lastId);
      DeletionIsExact(embeddings, employee, found, lost, network.wire, unsent);
      hide WasDeleted, OnlyTombstones, Mirrors;
      employees := employees - {employee};
      embeddings := embeddings - OwnedBy(embeddings, employee);
      SendTombstones(found, lost);
      return NoContent;
    }

    method SendTombstones(found: seq<EmbeddingId>, lost: set<EmbeddingId>)
      requires DatabaseValid() && network.Valid() && AllGenuine(network.wire.history.log)
      requires AreGone(found, embeddings) && MirrorsBut(embeddings, network.wire.broker.retained, unsent, found + [])
      modifies this`unsent, network
      ensures Valid() && network.wire == Tombstones(old(network.wire), found, lost)
      ensures unsent == UnsentAfter(old(unsent), found, lost)
    {
      TombstonesKeep(network.wire, embeddings, unsent, found, lost, []);
      hide Consistent, AllGenuine;
      for i := 0 to |found|
        invariant network.Valid()
        invariant network.wire == Tombstones(old(network.wire), found[..i], lost)
        invariant unsent == UnsentAfter(old(unsent), found[..i], lost)
      {
        assert found[..i + 1] == found[..i] + [found[i]];
        UnsentGrows(old(unsent), found[..i], found[i], lost);
        network.Send(found[i], None, found[i] !in lost);
        unsent := Unsent(unsent, found[i], found[i] !in lost);
      }
      assert found[..|found|] == found;
    }
  }

  function StatusOfCreate(employees: set<EmployeeId>, employee: EmployeeId, vector: Vector, id: int, broken: bool): Status {
    if |vector.xs| != EMBEDDING_DIM then BadRequest
    else if broken || id > INT32_MAX then DatabaseError
    else if employee !in employees then NotFound
    else Created
  }
}
