/**
 * Consequences of the operations taken together: what a second call sees
 * after a first, and a created entity read back through the store.
 */
module Scenarios {
  import opened Wrappers
  import opened Errors
  import opened Documents
  import opened Entities
  import opened Host
  import opened Gateway
  import opened Helpers

  /** A second DeleteAsync on the same instance answers false: the first one left it Deleted. */
  method DeleteTwice(helper: BsonModelHelper, model: Entity) returns (first: bool, second: bool)
    requires helper.Valid() && model.state == Ready
    modifies helper.collection.store, model`state
    ensures first == helper.collection.store.acknowledged && !second
    ensures model.state == Deleted
    ensures helper.collection.store.docs == RemoveFirst(old(helper.collection.store.docs), ById(model.id))
    ensures !HasId(helper.collection.store.docs, model.id)
  {
    first := helper.Delete(model);
    second := helper.Delete(model);
  }

  /** Once the host is stopped, asking it for a collection times out. */
  method StopThenCollection(host: MongoHost, name: string) returns (r: Result<CollectionHandle, MongoError>)
    modifies host
    ensures r == Failure(DatabaseTimedOut)
  {
    host.Stop();
    r := host.GetMongoCollection(name);
  }

  /** A second DeleteMany with the same filter removes nothing and, acknowledged, reports 0. */
  method DeleteManyTwice(helper: BsonModelHelper, p: Filter) returns (first: int, second: int)
    requires helper.Valid()
    modifies helper.collection.store
    ensures helper.collection.store.docs == Matching(old(helper.collection.store.docs), Not(p))
    ensures helper.collection.store.acknowledged ==>
              first == |Matching(old(helper.collection.store.docs), p)| && second == 0
    ensures !helper.collection.store.acknowledged ==> first == -1 && second == -1
  {
    first := helper.DeleteMany(p);
    ghost var between := helper.collection.store.docs;
    RemovedNoLongerMatch(old(helper.collection.store.docs), p);
    second := helper.DeleteMany(p);
    MatchingKeepsAll(between, p);
  }

  /** A filter matching nothing keeps every document of the rest. */
  lemma {:induction false} MatchingKeepsAll(docs: seq<Document>, p: Filter)
    requires Matching(docs, p) == []
    ensures Matching(docs, Not(p)) == docs
  {
    if docs != [] {
      MatchingKeepsAll(docs[1..], p);
      assert docs == [docs[0]] + docs[1..];
    }
  }

  /** The two InsertOrUpdate calls that saving a new instance twice makes: the insert answers
      true, and the second, a replace by an identical document, modifies nothing and answers
      false. */
  method SaveTwice(gateway: BsonCollection, e: Entity) returns (first: bool, second: bool)
    requires gateway.Valid() && e.id == EmptyId
    modifies gateway.store, e`id
    ensures first && !second
    ensures gateway.store.docs == old(gateway.store.docs) + [e.ToDocument()]
  {
    first := gateway.InsertOrUpdateDocument(e);
    ghost var docs := gateway.store.docs;
    second := gateway.InsertOrUpdateDocument(e);
    ByIdFinds(docs, e.id);
    assert docs[|docs| - 1].id == e.id;
  }

  /** A created instance without an assigned ObjectId is found again by its new id, with the
      properties the creation action gave it, as a separate Ready instance. */
  method CreateThenGet(helper: BsonModelHelper, init: seq<Assignment>) returns (created: Entity, found: Entity?)
    requires helper.Valid() && InitializedId(EmptyId, init) == EmptyId
    modifies helper.collection.store
    ensures found != null && found != created && found.state == Ready && created.state == Ready
    ensures found.id == created.id && found.fields == created.fields
    ensures created.fields == InitializedFields(helper.ty.defaults, init)
  {
    created := helper.Create(init);
    AppendedIsOnlyMatch(old(helper.collection.store.docs), created.ToDocument());
    found := helper.Get(ById(created.id));
    InitializedKeepsKeys(helper.ty.defaults, init);
    assert helper.ty.defaults + created.fields == created.fields;
  }
}
