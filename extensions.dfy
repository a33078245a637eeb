/**
 * BsonEntityExtensions: the null-handling combinators over an awaited
 * lookup. The asynchronous form of each awaits its task and then does what
 * the synchronous form does with the result, so one member models both.
 */
module Extensions {
  import opened Wrappers
  import opened Errors
  import opened Documents
  import opened Entities
  import opened Helpers

  const NotFoundPrefix: string := "The requested entity of type "
  const NotFoundSuffix: string := " does not exist."

  /** The message of the MongoException ThrowIfNotExists throws. */
  function NotFoundMessage(typeName: string): (m: string)
    ensures |m| == |NotFoundPrefix| + |typeName| + |NotFoundSuffix|
    ensures m[|NotFoundPrefix|..|NotFoundPrefix| + |typeName|] == typeName
  {
    NotFoundPrefix + typeName + NotFoundSuffix
  }

  /** ThrowIfNotExists: the entity itself when there is one; otherwise an error naming the type. */
  function ThrowIfNotExists(entity: Entity?, ty: EntityType): (r: Result<Entity, MongoError>)
    ensures r.Success? <==> entity != null
    ensures r.Success? ==> r.value == entity
    ensures r.Failure? ==> r.error.EntityNotFound? && r.error.message == NotFoundMessage(ty.name)
  {
    if entity == null then Failure(EntityNotFound(NotFoundMessage(ty.name))) else Success(entity)
  }

  /** CreateIfNotExists: an entity that exists comes back as it is and nothing is created;
      otherwise the result of CreateAsync with the creation action. */
  method CreateIfNotExists(entity: Entity?, helper: BsonModelHelper, init: seq<Assignment>) returns (value: Entity)
    requires helper.Valid()
    modifies helper.collection.store
    ensures helper.Valid()
    ensures entity != null ==>
              && value == entity
              && helper.collection.store.docs == old(helper.collection.store.docs)
              && helper.collection.store.nextId == old(helper.collection.store.nextId)
    ensures entity == null ==>
              && fresh(value) && value.state == Ready
              && value.fields == InitializedFields(helper.ty.defaults, init)
    ensures entity == null && InitializedId(EmptyId, init) == EmptyId ==>
              && value.id == old(helper.collection.store.nextId)
              && helper.collection.store.docs == old(helper.collection.store.docs) + [value.ToDocument()]
    ensures entity == null && InitializedId(EmptyId, init) != EmptyId ==>
              && value.id == InitializedId(EmptyId, init)
              && helper.collection.store.docs == ReplaceFirst(old(helper.collection.store.docs), ById(value.id), value.ToDocument())
  {
    if entity == null {
      value := helper.Create(init);
      return;
    }
    value := entity;
  }
}
