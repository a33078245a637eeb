/**
 * CollectionHelper: materialising an asynchronous enumerable of entities
 * into a list, or into a ModelDictionary indexed by a key selector.
 */
module CollectionHelper {
  import opened Wrappers
  import opened Errors
  import opened Documents
  import opened Entities
  import opened Collections

  /** An asynchronous enumerable, by what enumerating it does: the items it yields, and whether
      it throws once they are exhausted (a cursor already enumerated, say). */
  datatype Enumeration<T> = Enumeration(items: seq<T>, faulted: bool)

  /** ToListAsync: every item, in order; any fault is rethrown as one InvalidOperationException
      and the partial list is dropped. */
  method ToList<T>(source: Enumeration<T>) returns (r: Result<seq<T>, MongoError>)
    ensures r.Failure? <==> source.faulted
    ensures r.Failure? ==> r.error == EnumerationFailed
    ensures r.Success? ==> |r.value| == |source.items|
    ensures r.Success? ==> forall j :: 0 <= j < |r.value| ==> r.value[j] == source.items[j]
  {
    var list: seq<T> := [];
    var i := 0;
    while i < |source.items|
      invariant 0 <= i <= |source.items|
      invariant list == source.items[..i]
    {
      list := list + [source.items[i]];
      i := i + 1;
    }
    if source.faulted {
      return Failure(EnumerationFailed);
    }
    r := Success(list);
  }

  /** The key the selector gives each item, item by item. */
  function SelectedKeys<K>(items: seq<Entity>, keySelector: Document -> K): (keys: seq<K>)
    reads items
    ensures |keys| == |items|
    ensures forall j :: 0 <= j < |items| ==> keys[j] == keySelector(items[j].ToDocument())
  {
    if items == [] then []
    else SelectedKeys(items[..|items| - 1], keySelector) + [keySelector(items[|items| - 1].ToDocument())]
  }

  /** The bindings after `d[keys[0]] = vals[0]`, `d[keys[1]] = vals[1]`, … in order on an empty dictionary. */
  function Assigned<K, V>(keys: seq<K>, vals: seq<V>): map<K, V>
    requires |keys| == |vals|
  {
    if keys == [] then map[]
    else Assigned(keys[..|keys| - 1], vals[..|vals| - 1])[keys[|keys| - 1] := vals[|vals| - 1]]
  }

  /** The keys bound are exactly the keys assigned. */
  lemma {:induction false} AssignedKeys<K, V>(keys: seq<K>, vals: seq<V>)
    requires |keys| == |vals|
    ensures Assigned(keys, vals).Keys == set k | k in keys
  {
    if keys != [] {
      var n := |keys| - 1;
      AssignedKeys(keys[..n], vals[..n]);
      assert keys == keys[..n] + [keys[n]];
      assert (set k | k in keys) == (set k | k in keys[..n]) + {keys[n]};
    }
  }

  /** Last write wins: a key is bound to the value of its last assignment. */
  lemma {:induction false} AssignedLastWins<K, V>(keys: seq<K>, vals: seq<V>, j: nat)
    requires |keys| == |vals| && j < |keys|
    requires forall l :: j < l < |keys| ==> keys[l] != keys[j]
    ensures keys[j] in Assigned(keys, vals) && Assigned(keys, vals)[keys[j]] == vals[j]
  {
    var n := |keys| - 1;
    if j < n {
      AssignedLastWins(keys[..n], vals[..n], j);
    }
  }

  /** A list of keys names at most as many distinct keys as it has entries. */
  lemma {:induction false} DistinctKeysBound<K>(keys: seq<K>)
    ensures |set k | k in keys| <= |keys|
  {
    if keys != [] {
      var n := |keys| - 1;
      DistinctKeysBound(keys[..n]);
      assert keys == keys[..n] + [keys[n]];
      assert (set k | k in keys) == (set k | k in keys[..n]) + {keys[n]};
    }
  }

  /** The dictionary's Count is the number of distinct selected keys, never more than the items. */
  lemma AssignedCount<K, V>(keys: seq<K>, vals: seq<V>)
    requires |keys| == |vals|
    ensures |Assigned(keys, vals).Keys| == |set k | k in keys| <= |keys|
  {
    AssignedKeys(keys, vals);
    DistinctKeysBound(keys);
  }

  /** ToDictionaryAsync: a new ModelDictionary without a ValueTransform, into which every item is
      assigned under its selected key, in order; any fault is rethrown as one
      InvalidOperationException and the partly filled dictionary is dropped. */
  method ToDictionary<K(==)>(source: Enumeration<Entity>, keySelector: Document -> K, ty: EntityType)
    returns (r: Result<ModelDictionary<K>, MongoError>)
    ensures r.Failure? <==> source.faulted
    ensures r.Failure? ==> r.error == EnumerationFailed
    ensures r.Success? ==>
              && fresh(r.value) && fresh(r.value.impl) && fresh(r.value.default)
              && r.value.impl.entries == Assigned<K, Entity?>(SelectedKeys(source.items, keySelector), source.items)
              && r.value.valueTransform.None? && r.value.default.state == Stateless
  {
    ghost var keys := SelectedKeys(source.items, keySelector);
    var dictionary := new ModelDictionary<K>(ty, None);
    var i := 0;
    while i < |source.items|
      invariant 0 <= i <= |source.items|
      invariant fresh(dictionary) && fresh(dictionary.impl) && fresh(dictionary.default)
      invariant dictionary.valueTransform.None? && dictionary.default.state == Stateless
      invariant dictionary.impl.entries == Assigned<K, Entity?>(keys[..i], source.items[..i])
    {
      var item := source.items[i];
      var key := keySelector(item.ToDocument());
      assert key == keys[i];
      assert keys[..i + 1][..i] == keys[..i] && source.items[..i + 1][..i] == source.items[..i];
      dictionary.Set(key, item);
      i := i + 1;
    }
    assert keys[..|keys|] == keys && source.items[..|source.items|] == source.items;
    if source.faulted {
      return Failure(EnumerationFailed);
    }
    r := Success(dictionary);
  }
}
