/**
 * ModelDictionary<TKey, TValue>: a dictionary of entities that never hands
 * out null. A miss, or a key bound to null, yields the dictionary's one
 * Stateless Default instance; a miss first runs the optional ValueTransform
 * hook on that shared instance.
 */
module Collections {
  import opened Wrappers
  import opened Errors
  import opened Documents
  import opened Entities

  /** The hook `Action<TKey, TValue>`, through its effect on the properties of the instance it is given. */
  type ValueTransform<!K> = (K, Fields) -> Fields

  /** A `Dictionary<TKey, TValue?>` object: bindings that may hold null, shared by whoever holds a reference. */
  class Dictionary<K(==)> {
    var entries: map<K, Entity?>

    constructor (entries: map<K, Entity?>)
      ensures this.entries == entries
    {
      this.entries := entries;
    }
  }

  class ModelDictionary<K(==)> {
    /** `_impl`: the dictionary object the bindings live in. */
    const impl: Dictionary<K>
    /** `Default`: created once per dictionary by GetStateless and shared by every miss. */
    const default: Entity
    var valueTransform: Option<ValueTransform<K>>

    /** `IsReadOnly` is the constant false. */
    const isReadOnly: bool := false

    /** The primary constructor: a new, empty implementation object and the given hook. */
    constructor (ty: EntityType, transform: Option<ValueTransform<K>>)
      ensures fresh(impl) && impl.entries == map[] && valueTransform == transform
      ensures fresh(default) && default.state == Stateless
      ensures default.id == EmptyId && default.fields == ty.defaults
    {
      var d := GetStateless(ty);
      default := d;
      impl := new Dictionary(map[]);
      valueTransform := transform;
    }

    /** The constructor over an existing implementation object. The object itself is kept, not
        copied: the dictionary's writes reach its other holders and theirs reach the dictionary. */
    constructor FromMap(ty: EntityType, implementation: Dictionary<K>, transform: Option<ValueTransform<K>>)
      ensures impl == implementation && valueTransform == transform
      ensures fresh(default) && default.state == Stateless
      ensures default.id == EmptyId && default.fields == ty.defaults
    {
      var d := GetStateless(ty);
      default := d;
      impl := implementation;
      valueTransform := transform;
    }

    /** The properties Default holds after the hook has run for a miss on `key`. */
    function Transformed(key: K, f: Fields): Fields
      reads this
    {
      match valueTransform
      case None => f
      case Some(t) => t(key, f)
    }

    /** TryGetValue. A hit answers true with the bound instance, or with Default when the binding
        is null, and runs no hook. A miss answers false with Default, after running the hook
        once on (key, Default). The bindings never change. */
    method TryGetValue(key: K) returns (found: bool, value: Entity)
      modifies default`fields
      ensures impl.entries == old(impl.entries)
      ensures found <==> ContainsKey(key)
      ensures found && impl.entries[key] != null ==> value == impl.entries[key]
      ensures found && impl.entries[key] == null ==> value == default
      ensures found ==> default.fields == old(default.fields)
      ensures !found ==> value == default && default.fields == Transformed(key, old(default.fields))
    {
      if key in impl.entries {
        var inner := impl.entries[key];
        value := if inner != null then inner else default;
        return true, value;
      }
      value := default;
      if valueTransform.Some? {
        default.fields := valueTransform.value(key, default.fields);
      }
      found := false;
    }

    /** The indexer's getter: TryGetValue's instance, never null. */
    method Get(key: K) returns (value: Entity)
      modifies default`fields
      ensures impl.entries == old(impl.entries)
      ensures key in impl.entries && impl.entries[key] != null ==>
                value == impl.entries[key] && default.fields == old(default.fields)
      ensures key in impl.entries && impl.entries[key] == null ==>
                value == default && default.fields == old(default.fields)
      ensures key !in impl.entries ==>
                value == default && default.fields == Transformed(key, old(default.fields))
    {
      var _, v := TryGetValue(key);
      value := v;
    }

    /** The indexer's setter: binds the key, adding or overwriting; no other binding changes. */
    method Set(key: K, value: Entity)
      modifies impl
      ensures impl.entries == old(impl.entries)[key := value]
    {
      impl.entries := impl.entries[key := value];
    }

    /** Add, with Dictionary.Add's refusal of a key already bound. */
    method Add(key: K, value: Entity) returns (r: Outcome<MongoError>)
      modifies impl
      ensures key in old(impl.entries) ==> r == Fail(DuplicateDictionaryKey) && impl.entries == old(impl.entries)
      ensures key !in old(impl.entries) ==> r.Pass? && impl.entries == old(impl.entries)[key := value]
    {
      if key in impl.entries {
        return Fail(DuplicateDictionaryKey);
      }
      impl.entries := impl.entries[key := value];
      r := Pass;
    }

    /** Remove: true exactly when the key was bound; afterwards it is not. */
    method Remove(key: K) returns (removed: bool)
      modifies impl
      ensures removed <==> key in old(impl.entries)
      ensures impl.entries == old(impl.entries) - {key}
    {
      removed := key in impl.entries;
      impl.entries := impl.entries - {key};
    }

    /** ValueTransform's setter. */
    method SetValueTransform(transform: Option<ValueTransform<K>>)
      modifies this`valueTransform
      ensures valueTransform == transform
    {
      valueTransform := transform;
    }

    /** ContainsKey looks at the bindings only. A key that misses (its read runs the hook and
        answers Default) is not contained; a key bound to null is contained, although it also
        reads as Default. */
    predicate ContainsKey(key: K): (r: bool)
      reads this, impl
      ensures r <==> key in Keys()
    {
      key in impl.entries
    }

    /** Keys: the keys of the bindings. */
    function Keys(): set<K>
      reads this, impl
    {
      impl.entries.Keys
    }

    /** Count: the number of keys. */
    function Count(): (n: nat)
      reads this, impl
      ensures n == |Keys()|
    {
      |impl.entries|
    }
  }

  /** Keys holds exactly the keys ContainsKey accepts. */
  lemma KeysAreContained<K>(d: ModelDictionary<K>, k: K)
    ensures k in d.Keys() <==> d.ContainsKey(k)
  {
  }

  /** Count is zero exactly when nothing is bound. */
  lemma CountZeroIffEmpty<K>(d: ModelDictionary<K>)
    ensures d.Count() == 0 <==> d.impl.entries == map[]
  {
    if d.impl.entries != map[] {
      var k :| k in d.impl.entries;
      assert k in d.Keys();
    }
  }

  /** A read never changes what is contained: a key that is not contained, or is bound to null,
      reads as Default. */
  method GetKeepsContainment<K(==)>(d: ModelDictionary<K>, key: K) returns (v: Entity)
    modifies d.default`fields
    ensures d.ContainsKey(key) == old(d.ContainsKey(key))
    ensures !d.ContainsKey(key) ==> v == d.default
    ensures d.ContainsKey(key) && d.impl.entries[key] == null ==> v == d.default
  {
    v := d.Get(key);
  }

  /** Binding a new key adds one to the count; rebinding a key leaves the count as it was. */
  lemma CountAfterSet<K, V>(m: map<K, V>, key: K, value: V)
    ensures key !in m ==> |m[key := value].Keys| == |m.Keys| + 1
    ensures key in m ==> |m[key := value].Keys| == |m.Keys|
  {
    if key !in m {
      assert m[key := value].Keys == m.Keys + {key};
    } else {
      assert m[key := value].Keys == m.Keys;
    }
  }

  /** Removing a bound key takes one from the count; removing an unbound key leaves it. */
  lemma CountAfterRemove<K, V>(m: map<K, V>, key: K)
    ensures key in m ==> |(m - {key}).Keys| == |m.Keys| - 1
    ensures key !in m ==> |(m - {key}).Keys| == |m.Keys|
  {
    if key in m {
      assert (m - {key}).Keys == m.Keys - {key};
    } else {
      assert (m - {key}).Keys == m.Keys;
    }
  }

  /** After `d[k] = v`, reading `d[k]` gives v, the key is contained, and the count is the old
      count plus one exactly when the key was new. */
  method SetThenGet<K(==)>(d: ModelDictionary<K>, key: K, value: Entity) returns (read: Entity)
    modifies d.impl, d.default`fields
    ensures read == value && d.ContainsKey(key)
    ensures forall k :: k != key ==>
              (k in d.impl.entries <==> k in old(d.impl.entries))
              && (k in d.impl.entries ==> d.impl.entries[k] == old(d.impl.entries)[k])
    ensures d.Count() == old(d.Count()) + (if key in old(d.impl.entries) then 0 else 1)
  {
    CountAfterSet(d.impl.entries, key, value);
    d.Set(key, value);
    read := d.Get(key);
  }

  /** Every miss hands out the same instance, so a hook's change to it is seen by the next miss. */
  method MissesShareDefault<K(==)>(d: ModelDictionary<K>, a: K, b: K) returns (first: Entity, second: Entity)
    requires a !in d.impl.entries && b !in d.impl.entries
    modifies d.default`fields
    ensures first == d.default && second == d.default && first.state == old(d.default.state)
    ensures d.default.fields == d.Transformed(b, d.Transformed(a, old(d.default.fields)))
  {
    first := d.Get(a);
    second := d.Get(b);
  }

  /** A dictionary over a caller's implementation object shares it: the dictionary's write is
      in the caller's object, and the caller's later write is what the dictionary reads. */
  method SharedWithCaller<K(==)>(ty: EntityType, caller: Dictionary<K>, a: K, va: Entity, b: K, vb: Entity)
    returns (d: ModelDictionary<K>, read: Entity)
    modifies caller
    ensures d.impl == caller
    ensures caller.entries == old(caller.entries)[a := va][b := vb]
    ensures read == vb
  {
    d := new ModelDictionary.FromMap(ty, caller, None);
    d.Set(a, va);
    caller.entries := caller.entries[b := vb];
    read := d.Get(b);
  }
}
