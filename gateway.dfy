/**
 * BsonCollection<T>: the per-type gateway. Each operation makes one driver
 * call and turns the driver's acknowledgement and counts into the bool or
 * long the caller sees; the choice between insert and replace is made on the
 * ObjectId.Empty sentinel.
 */
module Gateway {
  import opened Wrappers
  import opened Errors
  import opened Documents
  import opened Entities
  import opened Driver
  import opened Host

  class BsonCollection {
    const name: string
    const ty: EntityType
    const handle: CollectionHandle
    /** `_collection`: the server-side collection the handle resolves to. */
    const store: MongoCollection

    ghost predicate Valid()
      reads this, store
    {
      store.Valid()
    }

    constructor (name: string, ty: EntityType, handle: CollectionHandle, store: MongoCollection)
      ensures this.name == name && this.ty == ty && this.handle == handle && this.store == store
    {
      this.name := name;
      this.ty := ty;
      this.handle := handle;
      this.store := store;
    }

    /** The primary constructor `BsonCollection<T>(name)`: its field initialiser asks the host
        for the collection handle and throws what GetMongoCollection throws. The driver's
        resolution of that handle to a server-side collection is the `store` argument. */
    static method Open(host: MongoHost, name: string, ty: EntityType, store: MongoCollection)
      returns (r: Result<BsonCollection, MongoError>)
      ensures !host.isConnected ==> r == Failure(DatabaseTimedOut)
      ensures host.isConnected && host.database.None? ==> r == Failure(CollectionUnavailable(name))
      ensures host.isConnected && host.database.Some? ==>
                && r.Success? && fresh(r.value)
                && r.value.name == name && r.value.ty == ty && r.value.store == store
                && r.value.handle == CollectionHandle(host.database.value, name)
    {
      var h := host.GetMongoCollection(name);
      if h.Failure? {
        return Failure(h.error);
      }
      var c := new BsonCollection(name, ty, h.value, store);
      r := Success(c);
    }

    /** InsertDocumentAsync: InsertOne, whose exceptions propagate. */
    method InsertDocument(e: Entity) returns (r: Outcome<MongoError>)
      requires Valid()
      modifies store, e`id
      ensures Valid()
      ensures old(e.id) == EmptyId ==>
                && r.Pass? && e.id == old(store.nextId) && !HasId(old(store.docs), e.id)
                && store.docs == old(store.docs) + [e.ToDocument()]
      ensures old(e.id) != EmptyId && HasId(old(store.docs), old(e.id)) ==>
                && r == (if store.acknowledged then Fail(DuplicateKey(old(e.id))) else Pass)
                && store.docs == old(store.docs) && e.id == old(e.id)
      ensures old(e.id) != EmptyId && !HasId(old(store.docs), old(e.id)) ==>
                r.Pass? && e.id == old(e.id) && store.docs == old(store.docs) + [e.ToDocument()]
    {
      r := store.InsertOne(e);
    }

    /** InsertOrUpdateDocumentAsync. An Empty ObjectId always inserts and answers true.
        Any other ObjectId only ever replaces (no upsert): the answer is true exactly when
        the write is acknowledged and a stored document was modified, so a replace that
        matches nothing answers false and inserts nothing. */
    method InsertOrUpdateDocument(e: Entity) returns (ok: bool)
      requires Valid()
      modifies store, e`id
      ensures Valid()
      ensures old(e.id) == EmptyId ==>
                && ok && e.id == old(store.nextId) && e.id != EmptyId && !HasId(old(store.docs), e.id)
                && store.docs == old(store.docs) + [e.ToDocument()]
      ensures old(e.id) != EmptyId ==>
                && e.id == old(e.id) && |store.docs| == |old(store.docs)| && store.nextId == old(store.nextId)
                && store.docs == ReplaceFirst(old(store.docs), ById(e.id), e.ToDocument())
                && (ok <==> store.acknowledged && StoredDifferently(old(store.docs), e.ToDocument()))
    {
      if e.id == EmptyId {
        var _ := store.InsertOne(e);
        return true;
      }
      ok := ReplaceById(e);
    }

    /** UpdateDocumentAsync(document): a replace by the document's ObjectId, true exactly when
        acknowledged and a stored document was modified; replacing a document by an equal
        one therefore answers false. */
    method UpdateDocument(e: Entity) returns (ok: bool)
      requires Valid()
      modifies store
      ensures Valid()
      ensures store.nextId == old(store.nextId)
      ensures store.docs == ReplaceFirst(old(store.docs), ById(e.id), e.ToDocument())
      ensures |store.docs| == |old(store.docs)|
      ensures ok <==> store.acknowledged && StoredDifferently(old(store.docs), e.ToDocument())
    {
      ok := ReplaceById(e);
    }

    /** The replace-by-id both InsertOrUpdate and Update make. */
    method ReplaceById(e: Entity) returns (ok: bool)
      requires Valid()
      modifies store
      ensures Valid()
      ensures store.nextId == old(store.nextId)
      ensures store.docs == ReplaceFirst(old(store.docs), ById(e.id), e.ToDocument())
      ensures |store.docs| == |old(store.docs)|
      ensures ok <==> store.acknowledged && StoredDifferently(old(store.docs), e.ToDocument())
    {
      var d := e.ToDocument();
      ByIdFinds(store.docs, e.id);
      var res := store.ReplaceOne(ById(e.id), d);
      assert res.Success?;
      ok := res.value.isAcknowledged && res.value.modifiedCount > 0;
      if StoredDifferently(old(store.docs), d) {
        var j :| 0 <= j < |old(store.docs)| && old(store.docs)[j].id == d.id && old(store.docs)[j] != d;
        assert ById(e.id)(old(store.docs)[j]);
      }
    }

    /** UpdateDocumentAsync(document, filter): a replace of the first match of the filter,
        true exactly when acknowledged and that document was modified. A match with another
        ObjectId is refused by the store: acknowledged, the driver's exception propagates;
        unacknowledged, the result is not acknowledged and the answer is false. */
    method UpdateDocumentWhere(e: Entity, p: Filter) returns (r: Result<bool, MongoError>)
      requires Valid()
      modifies store
      ensures Valid()
      ensures store.nextId == old(store.nextId)
      ensures FirstMatch(old(store.docs), p).None? ==>
                r == Success(false) && store.docs == old(store.docs)
      ensures FirstMatch(old(store.docs), p).Some? ==>
                var hit := old(store.docs)[FirstMatch(old(store.docs), p).value];
                if hit.id != e.id then
                  && store.docs == old(store.docs)
                  && r == (if store.acknowledged then Failure(ImmutableIdAltered) else Success(false))
                else
                  && r == Success(store.acknowledged && hit != e.ToDocument())
                  && store.docs == ReplaceFirst(old(store.docs), p, e.ToDocument())
    {
      var res := store.ReplaceOne(p, e.ToDocument());
      if res.Failure? {
        return Failure(res.error);
      }
      r := Success(res.value.isAcknowledged && res.value.modifiedCount > 0);
    }

    /** ModifyDocumentAsync(objectId, update): the answer is the acknowledgement alone,
        whatever was matched or modified; at most the document with that ObjectId changes. */
    method ModifyDocument(id: ObjectId, u: UpdateDefinition) returns (ok: bool)
      requires Valid()
      modifies store
      ensures Valid()
      ensures store.nextId == old(store.nextId)
      ensures ok == store.acknowledged
      ensures store.docs == UpdateFirst(old(store.docs), ById(id), u)
      ensures |store.docs| == |old(store.docs)|
      ensures forall j :: 0 <= j < |store.docs| && old(store.docs)[j].id != id ==>
                store.docs[j] == old(store.docs)[j]
      ensures forall j :: 0 <= j < |store.docs| ==> store.docs[j].id == old(store.docs)[j].id
    {
      var res := store.UpdateOne(ById(id), u);
      ok := res.isAcknowledged;
    }

    /** ModifyDocumentAsync(document, update): the same, on the document's ObjectId. */
    method ModifyEntity(e: Entity, u: UpdateDefinition) returns (ok: bool)
      requires Valid()
      modifies store
      ensures Valid()
      ensures store.nextId == old(store.nextId)
      ensures ok == store.acknowledged
      ensures store.docs == UpdateFirst(old(store.docs), ById(e.id), u)
      ensures forall j :: 0 <= j < |store.docs| && old(store.docs)[j].id != e.id ==>
                store.docs[j] == old(store.docs)[j]
    {
      ok := ModifyDocument(e.id, u);
    }

    /** DeleteDocumentAsync(document): removes the document with the instance's ObjectId, if
        stored, and answers the acknowledgement. */
    method DeleteDocument(e: Entity) returns (ok: bool)
      requires Valid()
      modifies store
      ensures Valid()
      ensures store.nextId == old(store.nextId)
      ensures ok == store.acknowledged
      ensures store.docs == RemoveFirst(old(store.docs), ById(e.id))
      ensures |store.docs| == |old(store.docs)| - (if HasId(old(store.docs), e.id) then 1 else 0)
      ensures !HasId(store.docs, e.id)
    {
      ByIdFinds(store.docs, e.id);
      var res := store.DeleteOne(ById(e.id));
      ok := res.isAcknowledged;
    }

    /** DeleteDocumentAsync(filter): removes the first match, if any, and answers the
        acknowledgement. */
    method DeleteDocumentWhere(p: Filter) returns (ok: bool)
      requires Valid()
      modifies store
      ensures Valid()
      ensures store.nextId == old(store.nextId)
      ensures ok == store.acknowledged
      ensures store.docs == RemoveFirst(old(store.docs), p)
      ensures |store.docs| == |old(store.docs)| - (if FirstMatch(old(store.docs), p).Some? then 1 else 0)
    {
      var res := store.DeleteOne(p);
      ok := res.isAcknowledged;
    }

    /** DeleteManyDocumentsAsync: removes exactly the matching documents. An acknowledged
        delete answers how many were removed, a count that is never negative; an
        unacknowledged one answers -1, which no count can equal. */
    method DeleteManyDocuments(p: Filter) returns (n: int)
      requires Valid()
      modifies store
      ensures Valid()
      ensures store.nextId == old(store.nextId)
      ensures store.docs == Matching(old(store.docs), Not(p))
      ensures store.acknowledged ==> n == |old(store.docs)| - |store.docs| && n >= 0
      ensures store.acknowledged ==> n == |Matching(old(store.docs), p)|
      ensures !store.acknowledged ==> n == -1
    {
      MatchingSplits(store.docs, p);
      var res := store.DeleteMany(p);
      if res.isAcknowledged {
        return res.deletedCount;
      }
      n := -1;
    }

    /** FindDocumentAsync: the first match, freshly deserialized, or null when nothing matches. */
    method FindDocument(p: Filter) returns (e: Entity?)
      requires Valid()
      ensures var m := Matching(store.docs, p);
              && (e == null <==> m == [])
              && (e != null ==> fresh(e) && e.state == Deserializing && LoadedFrom(e, ty, m[0]))
    {
      FirstMatchHeadsMatching(store.docs, p);
      match FirstMatch(store.docs, p)
      case None =>
        e := null;
      case Some(i) =>
        e := Deserialize(ty, store.docs[i]);
    }

    /** FindManyDocumentsAsync: one fresh instance per document of the cursor, in cursor order. */
    method FindManyDocuments(p: Filter) returns (es: seq<Entity>)
      requires Valid()
      ensures var m := Matching(store.docs, p);
              && |es| == |m|
              && (forall k :: 0 <= k < |es| ==> fresh(es[k]) && es[k].state == Deserializing)
              && (forall k :: 0 <= k < |es| ==> LoadedFrom(es[k], ty, m[k]))
              && (forall k, l :: 0 <= k < l < |es| ==> es[k] != es[l])
    {
      var cursor := store.Find(p);
      es := [];
      var i := 0;
      while i < |cursor|
        invariant 0 <= i <= |cursor| && |es| == i
        invariant forall k :: 0 <= k < i ==> fresh(es[k]) && es[k].state == Deserializing
        invariant forall k :: 0 <= k < i ==> LoadedFrom(es[k], ty, cursor[k])
        invariant forall k, l :: 0 <= k < l < i ==> es[k] != es[l]
      {
        var e := Deserialize(ty, cursor[i]);
        es := es + [e];
        i := i + 1;
      }
    }

    /** CountDocumentsAsync: the number of matching documents; zero exactly when none matches. */
    function CountDocuments(p: Filter): (n: nat)
      reads this, store
      ensures n <= |store.docs|
      ensures n == 0 <==> forall k :: 0 <= k < |store.docs| ==> !p(store.docs[k])
    {
      var m := store.Find(p);
      assert m != [] ==> m[0] in m;
      |m|
    }
  }
}
