/**
 * The static entry points of BsonEntity that add meaning to the helper:
 * GetFirst and GetAll (the helper's reads with the always-true filter) and
 * the synchronous GetMany/GetAll, which materialise the helper's stream with
 * ToListAsync. The remaining statics (Create, Get, GetMany, DeleteMany,
 * GetCount and their synchronous forms) forward unchanged to the helper and
 * are the helper's members in this model.
 */
module Facade {
  import opened Wrappers
  import opened Errors
  import opened Documents
  import opened Entities
  import opened Helpers
  import opened CollectionHelper

  /** GetFirst / GetFirstAsync: Get with `x => true`, so the first stored document, or null
      for an empty collection. */
  method GetFirst(helper: BsonModelHelper) returns (value: Entity?)
    requires helper.Valid()
    ensures var docs := helper.collection.store.docs;
            && (value == null <==> docs == [])
            && (value != null ==> fresh(value) && value.state == Ready && LoadedFrom(value, helper.ty, docs[0]))
  {
    MatchingEverything(helper.collection.store.docs);
    value := helper.Get(Everything());
  }

  /** GetAllAsync: GetManyAsync with `x => true`, so one Ready instance per stored document,
      in natural order. */
  method GetAll(helper: BsonModelHelper) returns (values: seq<Entity>)
    requires helper.Valid()
    ensures var docs := helper.collection.store.docs;
            && |values| == |docs|
            && (forall k :: 0 <= k < |values| ==> fresh(values[k]) && values[k].state == Ready)
            && (forall k :: 0 <= k < |values| ==> LoadedFrom(values[k], helper.ty, docs[k]))
            && (forall k, l :: 0 <= k < l < |values| ==> values[k] != values[l])
  {
    MatchingEverything(helper.collection.store.docs);
    values := helper.GetMany(Everything());
  }

  /** GetMany (synchronous): the stream of GetManyAsync materialised by ToListAsync. A stream
      that faults while it is enumerated (`faulted`) gives InvalidOperationException; otherwise
      the list holds the stream's instances in the same order. */
  method GetManyList(helper: BsonModelHelper, p: Filter, faulted: bool) returns (r: Result<seq<Entity>, MongoError>)
    requires helper.Valid()
    ensures r.Failure? <==> faulted
    ensures r.Failure? ==> r.error == EnumerationFailed
    ensures r.Success? ==>
            var m := Matching(helper.collection.store.docs, p);
            var values := r.value;
            && |values| == |m|
            && (forall k :: 0 <= k < |values| ==> fresh(values[k]) && values[k].state == Ready)
            && (forall k :: 0 <= k < |values| ==> LoadedFrom(values[k], helper.ty, m[k]))
            && (forall k, l :: 0 <= k < l < |values| ==> values[k] != values[l])
  {
    var stream := helper.GetMany(p);
    r := ToList(Enumeration(stream, faulted));
  }

  /** GetAll (synchronous): GetAllAsync materialised, one Ready instance per stored document,
      or InvalidOperationException when the stream faults. */
  method GetAllList(helper: BsonModelHelper, faulted: bool) returns (r: Result<seq<Entity>, MongoError>)
    requires helper.Valid()
    ensures r.Failure? <==> faulted
    ensures r.Failure? ==> r.error == EnumerationFailed
    ensures r.Success? ==>
            var docs := helper.collection.store.docs;
            var values := r.value;
            && |values| == |docs|
            && (forall k :: 0 <= k < |values| ==> fresh(values[k]) && values[k].state == Ready)
            && (forall k :: 0 <= k < |values| ==> LoadedFrom(values[k], helper.ty, docs[k]))
            && (forall k, l :: 0 <= k < l < |values| ==> values[k] != values[l])
  {
    var stream := GetAll(helper);
    r := ToList(Enumeration(stream, faulted));
  }
}
