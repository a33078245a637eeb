/**
 * BsonModelHelper<T>: the static per-type facade that composes the gateway
 * with the lifecycle states. One object of the class stands for the closed
 * generic type and its cached `Collection`.
 */
module Helpers {
  import opened Wrappers
  import opened Errors
  import opened Documents
  import opened Entities
  import opened Driver
  import opened Host
  import opened Gateway
  import opened Atomic

  /** The collection name of a type: `typeof(T).Name[..^7]`, the type name without its last
      seven characters; a shorter name makes the range throw. */
  function CollectionName(typeName: string): (r: Result<string, MongoError>)
    ensures r.Failure? <==> |typeName| < 7
    ensures r.Failure? ==> r.error == TypeNameTooShort(typeName)
    ensures r.Success? ==> |r.value| == |typeName| - 7 && r.value <= typeName
  {
    if |typeName| < 7 then Failure(TypeNameTooShort(typeName))
    else Success(typeName[..|typeName| - 7])
  }

  /** Whatever seven characters end the name are what is stripped; the sample type
      ExampleModel is stored in the collection "Examp". */
  lemma CollectionNameStrips(stem: string, suffix: string)
    requires |suffix| == 7
    ensures CollectionName(stem + suffix) == Success(stem)
  {
    assert (stem + suffix)[..|stem|] == stem;
  }

  lemma SampleCollectionName()
    ensures CollectionName("ExampleModel") == Success("Examp")
  {
    assert "ExampleModel" == "Examp" + "leModel";
    CollectionNameStrips("Examp", "leModel");
  }

  /** One statement of a creation action `Action<T>`: a property assignment through the
      property's setter, or an assignment of ObjectId. */
  datatype Assignment = AssignProperty(field: FieldName, value: Value) | AssignObjectId(id: ObjectId)

  /** The property values after running the assignments on an instance holding `f`. */
  function InitializedFields(f: Fields, init: seq<Assignment>): Fields
    decreases |init|
  {
    if init == [] then f
    else
      var before := InitializedFields(f, init[..|init| - 1]);
      match init[|init| - 1]
      case AssignProperty(k, v) => before[k := v]
      case AssignObjectId(_) => before
  }

  /** The assignments only add or overwrite properties: every property held before is still held. */
  lemma {:induction false} InitializedKeepsKeys(f: Fields, init: seq<Assignment>)
    ensures f.Keys <= InitializedFields(f, init).Keys
    decreases |init|
  {
    if init != [] {
      InitializedKeepsKeys(f, init[..|init| - 1]);
    }
  }

  /** The ObjectId after running the assignments on an instance holding `id`. */
  function InitializedId(id: ObjectId, init: seq<Assignment>): ObjectId
    decreases |init|
  {
    if init == [] then id
    else
      var before := InitializedId(id, init[..|init| - 1]);
      match init[|init| - 1]
      case AssignProperty(_, _) => before
      case AssignObjectId(i) => i
  }

  /** `creationAction?.Invoke(value)`: the assignments run in order; the setters' atomic saves
      write nothing while the instance is in a state Save skips. */
  method RunInitializer(e: Entity, gateway: BsonCollection, init: seq<Assignment>)
    requires gateway.Valid()
    modifies e`fields, e`id, gateway.store
    ensures gateway.Valid() && gateway.store.nextId == old(gateway.store.nextId)
    ensures e.fields == InitializedFields(old(e.fields), init)
    ensures e.id == InitializedId(old(e.id), init)
    ensures SaveSkipped(e.state) ==> gateway.store.docs == old(gateway.store.docs)
  {
    var i := 0;
    while i < |init|
      invariant 0 <= i <= |init|
      invariant gateway.Valid() && gateway.store.nextId == old(gateway.store.nextId)
      invariant e.fields == InitializedFields(old(e.fields), init[..i])
      invariant e.id == InitializedId(old(e.id), init[..i])
      invariant SaveSkipped(e.state) ==> gateway.store.docs == old(gateway.store.docs)
    {
      assert init[..i + 1][..i] == init[..i];
      var a := init[i];
      if a.AssignProperty? {
        SetProperty(e, gateway, a.field, a.value);
      } else {
        e.id := a.id;
      }
      i := i + 1;
    }
    assert init[..|init|] == init;
  }

  class BsonModelHelper {
    const ty: EntityType
    /** The static `Collection` of the closed type. */
    const collection: BsonCollection

    ghost predicate Valid()
      reads this, collection, collection.store
    {
      collection.Valid() && collection.ty == ty
    }

    constructor (ty: EntityType, collection: BsonCollection)
      ensures this.ty == ty && this.collection == collection
    {
      this.ty := ty;
      this.collection := collection;
    }

    /** The static initialiser: `Collection = new(typeof(T).Name[..^7])`. It fails on a short
        type name, and otherwise with whatever the gateway's constructor throws. */
    static method Open(ty: EntityType, host: MongoHost, store: MongoCollection)
      returns (r: Result<BsonModelHelper, MongoError>)
      ensures |ty.name| < 7 ==> r == Failure(TypeNameTooShort(ty.name))
      ensures |ty.name| >= 7 && !host.isConnected ==> r == Failure(DatabaseTimedOut)
      ensures |ty.name| >= 7 && host.isConnected && host.database.None? ==>
                r == Failure(CollectionUnavailable(ty.name[..|ty.name| - 7]))
      ensures |ty.name| >= 7 && host.isConnected && host.database.Some? ==>
                && r.Success? && fresh(r.value) && fresh(r.value.collection)
                && r.value.ty == ty && r.value.collection.store == store
                && r.value.collection.name == ty.name[..|ty.name| - 7]
      ensures r.Success? && store.Valid() ==> r.value.Valid()
    {
      var name := CollectionName(ty.name);
      if name.Failure? {
        return Failure(name.error);
      }
      var gateway := BsonCollection.Open(host, name.value, ty, store);
      if gateway.Failure? {
        return Failure(gateway.error);
      }
      var h := new BsonModelHelper(ty, gateway.value);
      r := Success(h);
    }

    /** SaveAsync: nothing for a Stateless instance; otherwise InsertOrUpdate, whose answer is
        dropped. A Deleted instance is not guarded against and is written again. */
    method Save(model: Entity)
      requires Valid()
      modifies collection.store, model`id
      ensures Valid()
      ensures model.state == Stateless ==>
                && collection.store.docs == old(collection.store.docs) && model.id == old(model.id)
                && collection.store.nextId == old(collection.store.nextId)
      ensures model.state != Stateless && old(model.id) == EmptyId ==>
                && model.id == old(collection.store.nextId) && model.id != EmptyId
                && collection.store.docs == old(collection.store.docs) + [model.ToDocument()]
      ensures model.state != Stateless && old(model.id) != EmptyId ==>
                && model.id == old(model.id) && collection.store.nextId == old(collection.store.nextId)
                && collection.store.docs == ReplaceFirst(old(collection.store.docs), ById(model.id), model.ToDocument())
    {
      if model.state == Stateless {
        return;
      }
      var _ := collection.InsertOrUpdateDocument(model);
    }

    /** CreateAsync: a new instance (in Deserializing), the creation action, one
        InsertOrUpdate whose answer is ignored, then State = Ready. The stored document
        therefore already holds what the action assigned, the action's own atomic saves
        wrote nothing, and the instance is Ready even when the replace of an ObjectId the
        action assigned modified nothing. */
    method Create(init: seq<Assignment>) returns (value: Entity)
      requires Valid()
      modifies collection.store
      ensures Valid()
      ensures fresh(value) && value.state == Ready
      ensures value.fields == InitializedFields(ty.defaults, init)
      ensures InitializedId(EmptyId, init) == EmptyId ==>
                && value.id == old(collection.store.nextId) && value.id != EmptyId
                && !HasId(old(collection.store.docs), value.id)
                && collection.store.docs == old(collection.store.docs) + [value.ToDocument()]
      ensures InitializedId(EmptyId, init) != EmptyId ==>
                && value.id == InitializedId(EmptyId, init) && collection.store.nextId == old(collection.store.nextId)
                && collection.store.docs == ReplaceFirst(old(collection.store.docs), ById(value.id), value.ToDocument())
    {
      value := new Entity(ty.defaults);
      RunInitializer(value, collection, init);
      var _ := collection.InsertOrUpdateDocument(value);
      value.state := Ready;
    }

    /** GetAsync: null stays null; a found instance is stamped Ready. */
    method Get(p: Filter) returns (value: Entity?)
      requires Valid()
      ensures var m := Matching(collection.store.docs, p);
              && (value == null <==> m == [])
              && (value != null ==> fresh(value) && value.state == Ready && LoadedFrom(value, ty, m[0]))
    {
      value := collection.FindDocument(p);
      if value != null {
        value.state := Ready;
      }
    }

    /** GetManyAsync: the instances of the find, in the same order and number, each stamped
        Ready before it is handed out. */
    method GetMany(p: Filter) returns (values: seq<Entity>)
      requires Valid()
      ensures var m := Matching(collection.store.docs, p);
              && |values| == |m|
              && (forall k :: 0 <= k < |values| ==> fresh(values[k]) && values[k].state == Ready)
              && (forall k :: 0 <= k < |values| ==> LoadedFrom(values[k], ty, m[k]))
              && (forall k, l :: 0 <= k < l < |values| ==> values[k] != values[l])
    {
      values := collection.FindManyDocuments(p);
      var i := 0;
      while i < |values|
        invariant 0 <= i <= |values|
        invariant forall k :: 0 <= k < |values| ==> fresh(values[k])
        invariant forall k :: 0 <= k < |values| ==> LoadedFrom(values[k], ty, Matching(collection.store.docs, p)[k])
        invariant forall k :: 0 <= k < i ==> values[k].state == Ready
      {
        values[i].state := Ready;
        i := i + 1;
      }
    }

    /** DeleteAsync: false, with nothing changed, for a Stateless or Deleted instance.
        Otherwise the instance becomes Deleted before the delete by its ObjectId, and the
        answer is the acknowledgement. */
    method Delete(model: Entity) returns (ok: bool)
      requires Valid()
      modifies collection.store, model`state
      ensures Valid() && collection.store.nextId == old(collection.store.nextId)
      ensures old(model.state) == Stateless || old(model.state) == Deleted ==>
                && !ok && model.state == old(model.state)
                && collection.store.docs == old(collection.store.docs)
      ensures old(model.state) == Ready || old(model.state) == Deserializing ==>
                && model.state == Deleted && ok == collection.store.acknowledged
                && collection.store.docs == RemoveFirst(old(collection.store.docs), ById(model.id))
                && !HasId(collection.store.docs, model.id)
    {
      if model.state == Stateless || model.state == Deleted {
        return false;
      }
      model.state := Deleted;
      ok := collection.DeleteDocument(model);
    }

    /** DeleteManyAsync: the gateway's count, or -1 when unacknowledged. */
    method DeleteMany(p: Filter) returns (n: int)
      requires Valid()
      modifies collection.store
      ensures Valid() && collection.store.nextId == old(collection.store.nextId)
      ensures collection.store.docs == Matching(old(collection.store.docs), Not(p))
      ensures collection.store.acknowledged ==> n == |Matching(old(collection.store.docs), p)|
      ensures !collection.store.acknowledged ==> n == -1
    {
      n := collection.DeleteManyDocuments(p);
    }

    /** GetCountAsync: the number of matching documents, never -1. */
    function GetCount(p: Filter): (n: nat)
      reads this, collection, collection.store
      ensures n == |Matching(collection.store.docs, p)|
    {
      collection.CountDocuments(p)
    }
  }

  /** Where the runtime is with the static initialiser of one closed type BsonModelHelper<T>:
      not yet run, run to completion, or faulted. */
  datatype Initialization = Pending | Initialized(helper: BsonModelHelper) | Faulted(error: MongoError)

  /** The closed generic type itself. The runtime runs the static initialiser on first use
      only; a fault is kept, wrapped as TypeInitializationException, and every later use of
      the type rethrows that same exception, however the host has changed meanwhile. */
  class HelperType {
    const ty: EntityType
    var initialization: Initialization

    constructor (ty: EntityType)
      ensures this.ty == ty && initialization == Pending
    {
      this.ty := ty;
      initialization := Pending;
    }

    /** A use of the type: the cached helper, the cached fault, or, on first use, the static
        initialiser's outcome, recorded for every later use. */
    method Use(host: MongoHost, store: MongoCollection) returns (r: Result<BsonModelHelper, MongoError>)
      modifies this`initialization
      ensures old(initialization).Initialized? ==>
                initialization == old(initialization) && r == Success(old(initialization).helper)
      ensures old(initialization).Faulted? ==>
                initialization == old(initialization) && r == Failure(old(initialization).error)
      ensures old(initialization).Pending? && |ty.name| < 7 ==>
                r == Failure(TypeInitializationFailed(TypeNameTooShort(ty.name)))
      ensures old(initialization).Pending? && |ty.name| >= 7 && !host.isConnected ==>
                r == Failure(TypeInitializationFailed(DatabaseTimedOut))
      ensures old(initialization).Pending? && |ty.name| >= 7 && host.isConnected && host.database.None? ==>
                r == Failure(TypeInitializationFailed(CollectionUnavailable(ty.name[..|ty.name| - 7])))
      ensures old(initialization).Pending? && |ty.name| >= 7 && host.isConnected && host.database.Some? ==>
                && r.Success? && fresh(r.value) && r.value.ty == ty && r.value.collection.store == store
                && (store.Valid() ==> r.value.Valid())
      ensures old(initialization).Pending? && r.Success? ==> initialization == Initialized(r.value)
      ensures old(initialization).Pending? && r.Failure? ==> initialization == Faulted(r.error)
    {
      match initialization
      case Initialized(h) =>
        r := Success(h);
      case Faulted(err) =>
        r := Failure(err);
      case Pending =>
        var outcome := BsonModelHelper.Open(ty, host, store);
        if outcome.Failure? {
          r := Failure(TypeInitializationFailed(outcome.error));
          initialization := Faulted(r.error);
        } else {
          r := outcome;
          initialization := Initialized(outcome.value);
        }
    }
  }

  /** A type first used before the host connected stays broken: connecting the host and
      using the type again rethrows the first fault. */
  method FaultOutlivesConnection(t: HelperType, host: MongoHost, store: MongoCollection)
    returns (before: Result<BsonModelHelper, MongoError>, after: Result<BsonModelHelper, MongoError>)
    requires t.initialization.Pending? && |t.ty.name| >= 7 && !host.isConnected
    requires host.databaseName.Some? && host.databaseName.value != ""
    modifies t, host
    ensures host.isConnected
    ensures before == Failure(TypeInitializationFailed(DatabaseTimedOut))
    ensures after == before
  {
    before := t.Use(host, store);
    var _ := host.Start(Reachable);
    after := t.Use(host, store);
  }
}
