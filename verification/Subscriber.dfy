/**
 The edge's side of the embedding sync: every message goes to the SQLite table first and to
 the matcher's cache second, so that the cache stays the table's fast copy.
 */
module Subscribers {
  import opened Basics
  import opened Vectors
  import opened Matching
  import opened Storages
  import opened Topics

  /** The `vector` member of the body. An item that is not a number is None. */
  datatype VectorField =
    | NotAnArray
    | Items(items: seq<Option<real>>, norm: real)

  /** A payload as the JSON parser sees it. Malformed: not JSON, or a member missing or of the wrong type. */
  datatype Payload =
    | Empty
    | Malformed
    | Upsert(bodyId: int, employee: EmployeeId, vector: VectorField)

  /** The numbers of the array, when it has EMBEDDING_DIM items and all are numbers. */
  function Numbers(items: seq<Option<real>>): Option<seq<real>> {
    if |items| == EMBEDDING_DIM && forall i | 0 <= i < |items| :: items[i].Some?
    then Some(seq(|items|, i requires 0 <= i < |items| && items[i].Some? => items[i].value))
    else None
  }

  /** The recorded length of a usable vector is its length. */
  ghost predicate Measured(payload: Payload) {
    payload.Upsert? && payload.vector.Items? && Numbers(payload.vector.items).Some? ==>
      Vector(Numbers(payload.vector.items).value, payload.vector.norm).Valid()
  }

  /** The embedding that a body carries; the id comes from the topic, whatever the body says. */
  function Decode(id: EmbeddingId, payload: Payload): Option<Embedding> {
    if payload.Upsert? && payload.vector.Items? && Numbers(payload.vector.items).Some?
    then Some(Embedding(id, payload.employee, Vector(Numbers(payload.vector.items).value, payload.vector.norm)))
    else None
  }

  /** The recorded length adds no freedom: the same members decode to the same embedding. */
  lemma LengthIsDetermined(id: EmbeddingId, p: Payload, p': Payload)
    requires p.Upsert? && p.vector.Items? && Measured(p) && Measured(p')
    requires p'.Upsert? && p'.employee == p.employee && p'.vector.Items? && p'.vector.items == p.vector.items
    ensures Decode(id, p) == Decode(id, p')
  {
    if Decode(id, p).Some? {
      NormIsUnique(Decode(id, p).value.vector, Decode(id, p').value.vector);
    }
  }

  /** What a message means for the table. */
  function Applied(t: Table, topic: string, payload: Payload, broken: bool): Table {
    var id := ParseEmbeddingId(topic);
    if id == 0 || broken then t else
    if payload.Empty? then t - {id} else
    match Decode(id, payload)
    case Some(e) => t[id := e]
    case None => t
  }

  /** The message carries no embedding and is no tombstone either. */
  ghost predicate IsGarbage(payload: Payload) {
    || payload.Malformed?
    || (payload.Upsert? && payload.vector.NotAnArray?)
    || (payload.Upsert? && payload.vector.Items? && |payload.vector.items| != EMBEDDING_DIM)
    || (payload.Upsert? && payload.vector.Items? &&
          exists i :: 0 <= i < |payload.vector.items| && payload.vector.items[i].None?)
  }

  /** Entry e has the employee and the numbers of the message. */
  ghost predicate Carries(payload: Payload, e: Embedding) {
    && payload.Upsert? && payload.vector.Items?
    && e.owner == payload.employee && e.vector.norm == payload.vector.norm
    && |payload.vector.items| == |e.vector.xs| == EMBEDDING_DIM
    && forall i | 0 <= i < EMBEDDING_DIM :: payload.vector.items[i] == Some(e.vector.xs[i])
  }

  /** What one message does to a table, case by case. */
  ghost predicate HasItsEffect(before: Table, id: EmbeddingId, payload: Payload, broken: bool, after: Table) {
    // No message touches another id than its topic's.
    && (forall other | other != id :: SameAt(before, after, other))
    // Garbage, a topic without an id and a failed statement change nothing.
    && (IsGarbage(payload) || id == 0 || broken ==> after == before)
    // An empty payload removes the id, and nothing else does.
    && (payload.Empty? && id != 0 && !broken ==> id !in after)
    && (id in before && id !in after ==> payload.Empty? && id != 0 && !broken)
    // A good message leaves its embedding, and no row comes from elsewhere.
    && (payload.Upsert? && !IsGarbage(payload) && id != 0 && !broken ==>
          id in after && after[id].id == id && Carries(payload, after[id]))
    && (id in after && !(id in before && after[id] == before[id]) ==>
          payload.Upsert? && !IsGarbage(payload) && id != 0 && !broken)
  }

  lemma MessagesHaveTheirEffect(t: Table, topic: string, payload: Payload, broken: bool)
    ensures HasItsEffect(t, ParseEmbeddingId(topic), payload, broken, Applied(t, topic, payload, broken))
  {
  }

  class Subscriber {
    const storage: Storage
    const matcher: Matcher

    /** The cache, read as a map, is the table. */
    ghost predicate Valid()
      reads storage`embeddings, matcher
    {
      storage.EmbeddingsValid() && matcher.Valid() && AsTable(matcher.cache) == storage.Embeddings()
    }

    constructor (storage: Storage, matcher: Matcher)
      ensures this.storage == storage && this.matcher == matcher
    {
      this.storage, this.matcher := storage, matcher;
    }

    /** Start the daemon: the cache is loaded from the table, or the start fails. */
    static method Boot(storage: Storage, threshold: real, broken: bool) returns (result: Attempt<Subscriber>)
      requires storage.EmbeddingsValid()
      ensures result.Threw? <==> broken
      ensures result.Done? ==>
                && fresh(result.value) && fresh(result.value.matcher) && result.value.storage == storage
                && result.value.matcher.threshold == threshold && result.value.Valid()
    {
      var rows := storage.LoadAllEmbeddings(broken);
      if rows.Threw? {
        return Threw;
      }
      var matcher := new Matcher(rows.value, threshold);
      var subscriber := new Subscriber(storage, matcher);
      return Done(subscriber);
    }

    static method ReadVector(items: seq<Option<real>>) returns (xs: Attempt<seq<real>>)
      requires |items| == EMBEDDING_DIM
      ensures xs.Done? <==> Numbers(items).Some?
      ensures xs.Done? ==> xs.value == Numbers(items).value
    {
      var read := [];
      for i := 0 to EMBEDDING_DIM
        invariant |read| == i && forall j | 0 <= j < i :: items[j] == Some(read[j])
      {
        if items[i].None? {
          return Threw;
        }
        read := read + [items[i].value];
      }
      return Done(read);
    }

    /** `broken` is SQLite's choice to throw. */
    method OnMessage(topic: string, payload: Payload, broken: bool)
      requires Valid() && Measured(payload)
      modifies storage`embeddings, matcher`cache
      ensures Valid()
      ensures storage.Embeddings() == Applied(old(storage.Embeddings()), topic, payload, broken)
      ensures HasItsEffect(old(storage.Embeddings()), ParseEmbeddingId(topic), payload, broken, storage.Embeddings())
      ensures IsGarbage(payload) ==> matcher.cache == old(matcher.cache)
    {
      MessagesHaveTheirEffect(storage.Embeddings(), topic, payload, broken);
      hide HasItsEffect;
      var id := ParseEmbeddingId(topic);
      if id == 0 {
        return;
      }
      match payload {
        case Empty => RemoveEverywhere(id, broken);
        case Malformed =>
        case Upsert(_, employee, vector) =>
          if vector.NotAnArray? || |vector.items| != EMBEDDING_DIM {
            return;
          }
          var xs := ReadVector(vector.items);
          if xs.Done? {
            UpsertEverywhere(Embedding(id, employee, Vector(xs.value, vector.norm)), broken);
          }
      }
    }

    method RemoveEverywhere(id: EmbeddingId, broken: bool)
      requires Valid()
      modifies storage`embeddings, matcher`cache
      ensures Valid()
      ensures storage.Embeddings() == if broken then old(storage.Embeddings()) else old(storage.Embeddings()) - {id}
    {
      var done := storage.DeleteEmbedding(id, broken);
      if done {
        matcher.Remove(id);
      }
    }

    method UpsertEverywhere(e: Embedding, broken: bool)
      requires Valid() && e.id != 0 && IsEmbeddingVector(e.vector)
      modifies storage`embeddings, matcher`cache
      ensures Valid()
      ensures storage.Embeddings() == if broken then old(storage.Embeddings()) else old(storage.Embeddings())[e.id := e]
    {
      var done := storage.UpsertEmbedding(e, broken);
      if done {
        matcher.Upsert(e);
      }
    }

    /** Any traffic at all: the cache agrees with the table, and the table is the fold of the messages. */
    method Run(messages: seq<Message>)
      requires Valid() && forall i | 0 <= i < |messages| :: Measured(messages[i].payload)
      modifies storage`embeddings, matcher`cache
      ensures Valid()
      ensures storage.Embeddings() == AppliedAll(old(storage.Embeddings()), messages)
      ensures forall id :: Explained(old(storage.Embeddings()), id, messages, storage.Embeddings())
    {
      forall id ensures Explained(storage.Embeddings(), id, messages, AppliedAll(storage.Embeddings(), messages)) {
        ChangesAreExplained(storage.Embeddings(), messages, id);
      }
      hide Explained;
      for i := 0 to |messages|
        invariant Valid()
        invariant storage.Embeddings() == AppliedAll(old(storage.Embeddings()), messages[..i])
      {
        assert messages[..i + 1][..i] == messages[..i];
        OnMessage(messages[i].topic, messages[i].payload, messages[i].broken);
      }
      assert messages[..|messages|] == messages;
    }
  }

  datatype Message = Message(topic: string, payload: Payload, broken: bool)

  function AppliedAll(t: Table, messages: seq<Message>): Table {
    if messages == [] then t else
    var m := messages[|messages| - 1];
    Applied(AppliedAll(t, messages[..|messages| - 1]), m.topic, m.payload, m.broken)
  }

  /** The message was meant for the id, and its statement did not fail. */
  predicate Reaches(m: Message, id: EmbeddingId) {
    ParseEmbeddingId(m.topic) == id && id != 0 && !m.broken
  }

  /** Message i is the last one that had anything to say about the id. */
  ghost predicate Decides(messages: seq<Message>, id: EmbeddingId, i: int) {
    && 0 <= i < |messages| && Reaches(messages[i], id) && !IsGarbage(messages[i].payload)
    && forall j | i < j < |messages| && Reaches(messages[j], id) :: IsGarbage(messages[j].payload)
  }

  /**
   What has become of an id: it is as it was, if no good message reached it; else the last
   good message was empty and the id is gone, or its embedding is there.
   */
  ghost predicate Explained(before: Table, id: EmbeddingId, messages: seq<Message>, after: Table) {
    || (SameAt(before, after, id) && forall i :: !Decides(messages, id, i))
    || exists i :: Decides(messages, id, i) &&
         if messages[i].payload.Empty? then id !in after else id in after && Carries(messages[i].payload, after[id])
  }

  /** What one more message does to one id. */
  lemma OneMoreMessage(t: Table, m: Message, id: EmbeddingId)
    ensures var after := Applied(t, m.topic, m.payload, m.broken);
            if !Reaches(m, id) || IsGarbage(m.payload) then SameAt(t, after, id)
            else if m.payload.Empty? then id !in after
            else id in after && Carries(m.payload, after[id])
  {
    MessagesHaveTheirEffect(t, m.topic, m.payload, m.broken);
  }

  lemma LaterDecides(messages: seq<Message>, id: EmbeddingId, i: int)
    requires messages != []
    ensures var n := |messages| - 1;
            var decides := Reaches(messages[n], id) && !IsGarbage(messages[n].payload);
            Decides(messages, id, i) <==> if decides then i == n else Decides(messages[..n], id, i)
  {
    hide IsGarbage, Reaches;
  }

  lemma {:induction false} ChangesAreExplained(t: Table, messages: seq<Message>, id: EmbeddingId)
    ensures Explained(t, id, messages, AppliedAll(t, messages))
  {
    if messages == [] {
    } else {
      var front, m := messages[..|messages| - 1], messages[|messages| - 1];
      ChangesAreExplained(t, front, id);
      OneMoreMessage(AppliedAll(t, front), m, id);
      forall i ensures Decides(messages, id, i) <==>
                       if Reaches(m, id) && !IsGarbage(m.payload) then i == |front| else Decides(front, id, i)
      {
        LaterDecides(messages, id, i);
      }
      hide Applied, Carries, IsGarbage, Reaches, Decides;
    }
  }
}
