/**
 * AtomicEntity<T>: the single-field save that a property setter calls, and
 * the setter shape of the sample entity (assign the backing field, then save).
 */
module Atomic {
  import opened Documents
  import opened Entities
  import opened Gateway

  /** AtomicEntity<T>.Save. In Stateless, Deleted and Deserializing it silently writes
      nothing. In Ready it sets the one named field of the stored document with this
      instance's ObjectId, and every other field and every other document stays as it was.
      The acknowledgement is waited for and discarded. */
  method Save(e: Entity, gateway: BsonCollection, field: FieldName, value: Value)
    requires gateway.Valid()
    modifies gateway.store
    ensures gateway.Valid() && gateway.store.nextId == old(gateway.store.nextId)
    ensures SaveSkipped(e.state) ==> gateway.store.docs == old(gateway.store.docs)
    ensures e.state == Ready ==> |gateway.store.docs| == |old(gateway.store.docs)|
    ensures e.state == Ready ==>
              forall j :: 0 <= j < |gateway.store.docs| ==>
                gateway.store.docs[j] ==
                  var d := old(gateway.store.docs)[j];
                  if d.id == e.id then Document(d.id, d.fields[field := value]) else d
  {
    if SaveSkipped(e.state) {
      return;
    }
    UpdateByIdTouchesOne(gateway.store.docs, e.id, Set(field, value));
    var _ := gateway.ModifyDocument(e.id, Set(field, value));
  }

  /** A property setter that saves atomically (`set => Save(field = value)` of ExampleModel):
      the in-memory value changes first, whether or not Save then writes anything. */
  method SetProperty(e: Entity, gateway: BsonCollection, field: FieldName, value: Value)
    requires gateway.Valid()
    modifies e`fields, gateway.store
    ensures gateway.Valid() && gateway.store.nextId == old(gateway.store.nextId)
    ensures e.fields == old(e.fields)[field := value]
    ensures SaveSkipped(e.state) ==> gateway.store.docs == old(gateway.store.docs)
    ensures e.state == Ready ==> |gateway.store.docs| == |old(gateway.store.docs)|
    ensures e.state == Ready ==>
              forall j :: 0 <= j < |gateway.store.docs| ==>
                gateway.store.docs[j] ==
                  var d := old(gateway.store.docs)[j];
                  if d.id == e.id then Document(d.id, d.fields[field := value]) else d
  {
    e.fields := e.fields[field := value];
    Save(e, gateway, field, value);
  }
}
