/**
 The edge's SQLite store: the embeddings table and the queue of pending events. A statement
 either takes full effect or throws; `broken` is SQLite's choice in that matter.
 */
module Storages {
  import opened Basics
  import opened Matching

  datatype PendingEvent = PendingEvent(id: int, topic: string, payload: string)

  ghost predicate IdsAscend(rows: seq<PendingEvent>) {
    forall i, j | 0 <= i < j < |rows| :: rows[i].id < rows[j].id
  }

  ghost predicate EmbeddingIdsAscend(rows: seq<Embedding>) {
    forall i, j | 0 <= i < j < |rows| :: rows[i].id < rows[j].id
  }

  /** DELETE ... WHERE id = ? */
  function DeleteById(rows: seq<PendingEvent>, id: int): seq<PendingEvent> {
    if rows == [] then [] else
    (if rows[0].id == id then [] else [rows[0]]) + DeleteById(rows[1..], id)
  }

  lemma {:induction false} DeleteMissing(rows: seq<PendingEvent>, id: int)
    requires forall i | 0 <= i < |rows| :: rows[i].id != id
    ensures DeleteById(rows, id) == rows
  {
    if rows == [] {
    } else {
      DeleteMissing(rows[1..], id);
    }
  }

  /** Deleting the id of the oldest row removes that row and no other. */
  lemma DeleteOldest(rows: seq<PendingEvent>)
    requires rows != [] && IdsAscend(rows)
    ensures DeleteById(rows, rows[0].id) == rows[1..]
  {
    DeleteMissing(rows[1..], rows[0].id);
  }

  function Inserted(rows: seq<Embedding>, k: nat, e: Embedding): seq<Embedding>
    requires k <= |rows|
  {
    rows[..k] + [e] + rows[k..]
  }

  /** A new row is an update of the table, wherever it goes. */
  lemma {:induction false} InsertUpdatesTable(rows: seq<Embedding>, k: nat, e: Embedding)
    requires k <= |rows| && forall i | 0 <= i < |rows| :: rows[i].id != e.id
    ensures AsTable(Inserted(rows, k, e)) == AsTable(rows)[e.id := e]
  {
    var n := |rows|;
    if k == n {
      assert Inserted(rows, k, e) == rows + [e];
      AppendUpdatesTable(rows, e);
    } else {
      var front, last := rows[..n - 1], rows[n - 1];
      InsertUpdatesTable(front, k, e);
      assert Inserted(rows, k, e) == Inserted(front, k, e) + [last] && rows == front + [last];
      AppendUpdatesTable(Inserted(front, k, e), last);
      AppendUpdatesTable(front, last);
      UpdatesCommute(AsTable(front), e, last);
    }
  }

  lemma UpdatesCommute(t: Table, e: Embedding, f: Embedding)
    requires e.id != f.id
    ensures t[e.id := e][f.id := f] == t[f.id := f][e.id := e]
  {
  }

  lemma ReplaceInOrder(rows: seq<Embedding>, k: nat, e: Embedding)
    requires k < |rows| && rows[k].id == e.id && IsEmbeddingVector(e.vector)
    requires Usable(rows) && EmbeddingIdsAscend(rows)
    ensures Usable(rows[k := e]) && EmbeddingIdsAscend(rows[k := e])
    ensures AsTable(rows[k := e]) == AsTable(rows)[e.id := e]
  {
    ReplaceUpdatesTable(rows, k, e);
  }

  lemma InsertInOrder(rows: seq<Embedding>, k: nat, e: Embedding)
    requires k <= |rows| && IsEmbeddingVector(e.vector)
    requires forall i | 0 <= i < k :: rows[i].id < e.id
    requires k < |rows| ==> e.id < rows[k].id
    requires Usable(rows) && EmbeddingIdsAscend(rows)
    ensures Usable(Inserted(rows, k, e)) && EmbeddingIdsAscend(Inserted(rows, k, e))
  {
    var all := Inserted(rows, k, e);
    forall i, j | 0 <= i < j < |all| ensures all[i].id < all[j].id {
      var left := if i < k then rows[i] else if i == k then e else rows[i - 1];
      var right := if j < k then rows[j] else if j == k then e else rows[j - 1];
      assert all[i] == left && all[j] == right;
    }
  }

  class Storage {
    // The rows of each table, in the order of their primary key.
    var embeddings: seq<Embedding>
    var pending: seq<PendingEvent>

    ghost predicate EmbeddingsValid()
      reads this`embeddings
    {
      Usable(embeddings) && EmbeddingIdsAscend(embeddings)
    }

    ghost predicate PendingValid()
      reads this`pending
    {
      IdsAscend(pending)
    }

    function Embeddings(): Table
      reads this`embeddings
    {
      AsTable(embeddings)
    }

    constructor ()
      ensures EmbeddingsValid() && PendingValid() && embeddings == [] && pending == []
    {
      embeddings, pending := [], [];
    }

    /** SELECT ... ORDER BY id ASC */
    method LoadAllEmbeddings(broken: bool) returns (result: Attempt<seq<Embedding>>)
      requires EmbeddingsValid()
      ensures result.Threw? <==> broken
      ensures result.Done? ==>
                AsTable(result.value) == Embeddings() && Usable(result.value) && UniqueIds(result.value)
    {
      if broken {
        return Threw;
      }
      var rows := [];
      while |rows| < |embeddings|
        invariant rows <= embeddings
      {
        rows := rows + [embeddings[|rows|]];
      }
      assert rows == embeddings;
      return Done(rows);
    }

    /** INSERT OR REPLACE; an id of 0 is refused. */
    method UpsertEmbedding(e: Embedding, broken: bool) returns (done: bool)
      requires EmbeddingsValid() && IsEmbeddingVector(e.vector)
      modifies this`embeddings
      ensures EmbeddingsValid()
      ensures done <==> e.id != 0 && !broken
      ensures Embeddings() == if done then old(Embeddings())[e.id := e] else old(Embeddings())
    {
      done := e.id != 0 && !broken;
      if done {
        var k := 0;
        while k < |embeddings| && embeddings[k].id < e.id
          invariant 0 <= k <= |embeddings|
          invariant forall i | 0 <= i < k :: embeddings[i].id < e.id
        {
          k := k + 1;
        }
        if k < |embeddings| && embeddings[k].id == e.id {
          ReplaceInOrder(embeddings, k, e);
          embeddings := embeddings[k := e];
        } else {
          InsertInOrder(embeddings, k, e);
          InsertUpdatesTable(embeddings, k, e);
          embeddings := Inserted(embeddings, k, e);
        }
      }
    }

    method DeleteEmbedding(id: EmbeddingId, broken: bool) returns (done: bool)
      requires EmbeddingsValid()
      modifies this`embeddings
      ensures EmbeddingsValid() && done == !broken
      ensures Embeddings() == if done then old(Embeddings()) - {id} else old(Embeddings())
    {
      done := !broken;
      if done {
        WithoutRemovesFromTable(embeddings, id);
        WithoutKeepsOrder(embeddings, id);
        embeddings := Without(embeddings, id);
      }
    }

    /** The id the next INSERT gets is only known to exceed every id in the table. */
    function NextId(gap: nat): (id: int)
      requires PendingValid()
      reads this`pending
      ensures forall i | 0 <= i < |pending| :: pending[i].id < id
    {
      if pending == [] then gap + 1 else pending[|pending| - 1].id + 1 + gap
    }

    method EnqueuePendingEvent(topic: string, payload: string, gap: nat, broken: bool) returns (done: bool)
      requires PendingValid()
      modifies this`pending
      ensures PendingValid() && done == !broken
      ensures done ==> exists id :: pending == old(pending) + [PendingEvent(id, topic, payload)]
      ensures !done ==> pending == old(pending)
    {
      done := !broken;
      if done {
        pending := pending + [PendingEvent(NextId(gap), topic, payload)];
      }
    }

    /** SELECT ... ORDER BY id ASC LIMIT ? */
    method FetchPendingEvents(limit: nat, broken: bool) returns (result: Attempt<seq<PendingEvent>>)
      requires PendingValid()
      ensures result.Threw? <==> broken
      ensures result.Done? ==> result.value == pending[..Min(limit, |pending|)]
    {
      if broken {
        return Threw;
      }
      var rows := [];
      while |rows| < limit && |rows| < |pending|
        invariant |rows| <= limit && rows <= pending
      {
        rows := rows + [pending[|rows|]];
      }
      return Done(rows);
    }

    method DeletePendingEvent(id: int, broken: bool) returns (done: bool)
      requires PendingValid()
      modifies this`pending
      ensures PendingValid() && done == !broken
      // Exactly the rows with this id are gone; the others keep their order.
      ensures forall row :: row in pending <==> row in old(pending) && (done ==> row.id != id)
      ensures pending == if done then DeleteById(old(pending), id) else old(pending)
    {
      done := !broken;
      if done {
        DeletionKeepsOrder(pending, id);
        forall row ensures row in DeleteById(pending, id) <==> row in pending && row.id != id {
          DeletionKeepsRow(pending, id, row);
        }
        hide DeleteById, IdsAscend;
        pending := DeleteById(pending, id);
      }
    }
  }

  lemma {:induction false} WithoutKeepsOrder(rows: seq<Embedding>, id: EmbeddingId)
    requires EmbeddingIdsAscend(rows) && Usable(rows)
    ensures EmbeddingIdsAscend(Without(rows, id)) && Usable(Without(rows, id))
    ensures rows != [] ==>
              forall i | 0 <= i < |Without(rows, id)| :: Without(rows, id)[i].id <= rows[|rows| - 1].id
  {
    if |rows| <= 1 {
    } else {
      WithoutKeepsOrder(rows[..|rows| - 1], id);
    }
  }

  /** A row stays exactly if it was there and has another id. */
  lemma {:induction false} DeletionKeepsRow(rows: seq<PendingEvent>, id: int, row: PendingEvent)
    ensures row in DeleteById(rows, id) <==> row in rows && row.id != id
  {
    if rows == [] {
    } else {
      DeletionKeepsRow(rows[1..], id, row);
      assert rows == [rows[0]] + rows[1..];
    }
  }

  ghost predicate IdsAbove(rows: seq<PendingEvent>, low: int) {
    forall i | 0 <= i < |rows| :: rows[i].id > low
  }

  lemma {:induction false} DeletionKeepsBound(rows: seq<PendingEvent>, id: int, low: int)
    requires IdsAbove(rows, low)
    ensures IdsAbove(DeleteById(rows, id), low)
  {
    if rows == [] {
    } else {
      DeletionKeepsBound(rows[1..], id, low);
    }
  }

  lemma {:induction false} DeletionKeepsOrder(rows: seq<PendingEvent>, id: int)
    requires IdsAscend(rows)
    ensures IdsAscend(DeleteById(rows, id))
  {
    if rows == [] {
    } else {
      var rest := DeleteById(rows[1..], id);
      DeletionKeepsOrder(rows[1..], id);
      DeletionKeepsBound(rows[1..], id, rows[0].id);
      assert DeleteById(rows, id) == if rows[0].id == id then rest else [rows[0]] + rest;
      hide DeleteById;
    }
  }
}
