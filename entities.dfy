/**
 * BsonEntity and its lifecycle: the four states of EntityState, an entity
 * instance with the properties the serializer writes and the transient
 * State it ignores, and the two ways an instance comes into being outside
 * CreateAsync (the stateless constructor path and deserialization).
 */
module Entities {
  import opened Documents

  /** EntityState, in the order of the C# enum. Deserializing is member 0, so it is
      default(EntityState), the State of every instance `new T()` returns. */
  datatype EntityState = Deserializing | Ready | Deleted | Stateless

  /** A concrete entity type T: its CLR type name and the property values `new T()` gives. */
  datatype EntityType = EntityType(name: string, defaults: Fields)

  /** The states that AtomicEntity.Save treats as "not backed by a live document". */
  predicate SaveSkipped(s: EntityState) {
    s == Stateless || s == Deleted || s == Deserializing
  }

  /** `e` is what the deserializer makes of `d` for type `ty`. */
  ghost predicate LoadedFrom(e: Entity, ty: EntityType, d: Document)
    reads e
  {
    e.id == d.id && e.fields == ty.defaults + d.fields
  }

  /** An instance of a BsonEntity subclass. `state` is [BsonIgnore]: it never reaches the store. */
  class Entity {
    var id: ObjectId
    var fields: Fields
    var state: EntityState

    /** `new T()`: the property initialisers run, ObjectId is Empty and State is default(EntityState). */
    constructor (defaults: Fields)
      ensures id == EmptyId && fields == defaults && state == Deserializing
    {
      id := EmptyId;
      fields := defaults;
      state := Deserializing;
    }

    /** The document the serializer writes for this instance. */
    function ToDocument(): Document
      reads this
    {
      Document(id, fields)
    }
  }

  /** BsonEntity.GetStateless: a fresh instance without database bindings. */
  method GetStateless(ty: EntityType) returns (e: Entity)
    ensures fresh(e)
    ensures e.state == Stateless && e.id == EmptyId && e.fields == ty.defaults
  {
    e := new Entity(ty.defaults);
    e.state := Stateless;
  }

  /** The driver's deserializer for T: `new T()`, then each stored element is assigned to its
      property. Elements the document lacks keep their initialiser values. Property setters
      that save atomically run while State is still Deserializing, so they write nothing. */
  method Deserialize(ty: EntityType, d: Document) returns (e: Entity)
    ensures fresh(e)
    ensures e.state == Deserializing && LoadedFrom(e, ty, d)
  {
    e := new Entity(ty.defaults);
    e.id := d.id;
    e.fields := e.fields + d.fields;
  }
}
