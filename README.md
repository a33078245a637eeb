# MongoLite in Dafny

MongoLite is an active-record layer over MongoDB for C#. An entity type derives from
`BsonEntity` and gets static `Create`, `Get`, `GetMany`, `GetAll`, `DeleteMany` and
`GetCount` operations. Each instance carries a transient lifecycle `State`: `Deserializing`,
`Ready`, `Deleted` or `Stateless`. Entities deriving from `AtomicEntity<T>` save a single
property to the store from the property's setter.

Behind the static operations sit three layers:

- `BsonModelHelper<T>`: the per-type helper that stamps and checks `State`.
- `BsonCollection<T>`: the per-type gateway that turns driver results into `bool` and `long`
  answers.
- `MongoHost`: the process-wide connection state that hands out collection handles.

`ModelDictionary<TKey, TValue>` is a dictionary of entities that never returns null.
`CollectionHelper` materialises asynchronous streams of entities into lists and dictionaries.

The model is sequential. Each layer is a Dafny module:

| module | file | what it holds |
|---|---|---|
| `Documents` | documents.dfy | Field values, documents with an ObjectId, opaque filters, the `Set` update. Also the functions on a collection's documents (first match, matching documents, replace, update, remove) and their lemmas. |
| `Driver` | driver.dfy | The abstract store, `MongoCollection`: the documents in natural order (unique, non-empty ids) and the ObjectId generator. It carries the driver calls the gateway makes. The write concern is the constant `acknowledged`. Writes take effect whatever it is. Unacknowledged, the driver reports nothing, not even a refusal by the server. |
| `Entities` | entities.dfy | The states, the entity instance (`Entity`: ObjectId, properties, `State`), `GetStateless` and the deserializer. |
| `Host` | host.dfy | `MongoHost` as one object holding the connected flag and the client and database handles. |
| `Gateway` | gateway.dfy | `BsonCollection` and its result logic. |
| `Atomic` | atomic.dfy | `AtomicEntity<T>.Save` and the atomically saving setter. |
| `Helpers` | helpers.dfy | `BsonModelHelper`, the closed type's one-time static initialisation (`HelperType`), the collection-name derivation and the creation action. |
| `Collections` | modeldictionary.dfy | `ModelDictionary`, and the `Dictionary` object that holds its bindings. |
| `CollectionHelper` | collectionhelper.dfy | `ToListAsync` and `ToDictionaryAsync`. |
| `Facade` | facade.dfy | `GetFirst`, `GetAll` and the materialising synchronous `GetMany` and `GetAll` of `BsonEntity`. |
| `Extensions` | extensions.dfy | `CreateIfNotExists` and `ThrowIfNotExists`. |
| `Scenarios` | scenarios.dfy | Properties of several calls in a row. |

Thrown exceptions are values of `Errors.MongoError`, returned in a `Result` or `Outcome`
from `Wrappers`.

Some `BsonEntity` statics only forward to the helper: `Create`/`CreateAsync`
(MongoLite/Bson/BsonEntity.cs:68-80), `Get`/`GetAsync` (108-120), `GetManyAsync` (129-131),
`DeleteMany`/`DeleteManyAsync` (169-181) and `GetCount`/`GetCountAsync` (190-202).
`Delete`/`DeleteAsync` in MongoLite/Bson/BsonEntityExtensions.cs:31-41 forward too. Each of
these is modelled by the helper member it forwards to: synchronous and asynchronous forms
share one sequential model. Filters are opaque predicates, so the `FilterDefinition`
overloads of `FindDocumentAsync` and `FindManyDocumentsAsync`
(MongoLite/Bson/BsonCollection.cs:97-98, 112-120) are the same members as the expression
overloads.

Remarks on the source as written:

- The collection name strips the last seven characters of the type name
  (MongoLite/Helpers/BsonModelHelper.cs:11). The sample type `ExampleModel` is therefore
  stored in the collection `"Examp"` (`Helpers.SampleCollectionName`), and a type name shorter
  than seven characters makes the static initialiser throw.
- The remarks on `Delete`/`DeleteAsync` (MongoLite/Bson/BsonEntityExtensions.cs:30, 38) say
  `false` is returned when the model "could not be deleted". The code returns the
  acknowledgement of `DeleteOne`: a delete that removes nothing still answers `true`
  when acknowledged (MongoLite/Bson/BsonCollection.cs:74-75). The model follows the code.
- `SaveAsync` does not guard `Deleted`. Saving a deleted instance with an ObjectId replaces
  by that id, which after the delete matches nothing.
- `CreateAsync` ignores the answer of its one `InsertOrUpdate`. When the creation action
  assigns an ObjectId that is not stored, nothing is written, yet the instance comes back
  `Ready`.
- The creation action runs while `State` is still `Deserializing`, the first member of the
  enum and so the state of `new T()`. Atomic saves from its setters therefore write nothing:
  the document `CreateAsync` stores already holds the action's values.
- The static initialiser of `BsonModelHelper<T>` (MongoLite/Helpers/BsonModelHelper.cs:11)
  runs once. If the host is not connected at the first use of a type, that type fails with
  a type-initialisation error for the rest of the process, even after the host connects
  (`Helpers.FaultOutlivesConnection`).
- The `ValueTransform` hook of `ModelDictionary` runs on the one shared `Default` instance.
  Its change to `Default` is seen by every later miss (`Collections.MissesShareDefault`).

## Model

| member | source | states |
|---|---|---|
| `Documents.Apply` | MongoLite/Bson/BsonEntity.cs:24 | `Update.Set(field, value)` makes the named field hold the value and keeps every other field. |
| `Documents.FirstMatch` | MongoLite/Bson/BsonCollection.cs:93-94 | The position found is in range and matches, and no earlier document matches. None means no document matches. |
| `Documents.Matching` | MongoLite/Bson/BsonCollection.cs:101-109 | A cursor yields exactly the documents of the collection the filter accepts, and never more than the collection holds. |
| `Documents.MatchingSplits` | MongoLite/Bson/BsonCollection.cs:82-90 | What a filter matches and what it leaves add up to the whole collection, so a delete-many count is the number removed. |
| `Documents.FirstMatchHeadsMatching` | MongoLite/Bson/BsonCollection.cs:93-98 | The first match heads the cursor, and there is none exactly when the cursor is empty (`FirstOrDefault` gives null). |
| `Documents.MatchingKeepsWellFormed` | MongoLite/Bson/BsonCollection.cs:82-90 | Keeping the documents a filter selects keeps the ids unique and non-empty. |
| `Documents.RemoveAtKeepsWellFormed` | MongoLite/Bson/BsonCollection.cs:74-79 | Removing one document keeps the ids unique and non-empty. |
| `Documents.MatchingEverything` | MongoLite/Bson/BsonEntity.cs:149-160 | The filter `x => true` yields the whole collection in natural order. |
| `Documents.RemovedNoLongerMatch` | MongoLite/Bson/BsonCollection.cs:82-90 | After the matching documents are removed, the filter matches nothing. |
| `Documents.NothingMatches` | MongoLite/Bson/BsonCollection.cs:101-109 | A filter that accepts no document yields an empty cursor. |
| `Documents.MatchingAppend` | MongoLite/Bson/BsonCollection.cs:29-33 | After an insert, a filter matches what it matched before, then the new document if it accepts it. |
| `Documents.AppendedIsOnlyMatch` | MongoLite/Bson/BsonCollection.cs:29-33 | A document inserted under an id not stored before is the only match of that id. |
| `Documents.UpdateByIdTouchesOne` | MongoLite/Bson/BsonEntity.cs:24 | With unique ids, an update by id rewrites exactly the documents with that id, by the update. Every other document keeps its place and value. |
| `Documents.ByIdFinds` | MongoLite/Bson/BsonCollection.cs:35 | The filter `x => x.ObjectId == id` finds a document exactly when the id is stored, and what it finds has that id. |
| `Driver.MongoCollection.constructor` | MongoLite/MongoHost.cs:38 | A new server-side collection is empty and well-formed, with the given write concern. |
| `Driver.MongoCollection.InsertOne` | MongoLite/Bson/BsonCollection.cs:31 | An Empty id gets a fresh generated id and the document is appended. A stored id changes nothing; acknowledged, it is refused with a duplicate-key error, and unacknowledged nothing is reported. Any other id is appended as it is. |
| `Driver.MongoCollection.ReplaceOne` | MongoLite/Bson/BsonCollection.cs:35 | No match: nothing changes, and 0 matched, 0 modified. A match with another id: nothing changes; acknowledged, it is refused, and unacknowledged it reports 0 matched, 0 modified. Otherwise the first match is replaced: 1 matched, and modified exactly when it differed. |
| `Driver.MongoCollection.Find` | MongoLite/Bson/BsonCollection.cs:93-103 | The cursor holds exactly the stored documents the filter accepts, never more than the collection. It is empty exactly when nothing matches, and otherwise headed by the first match. |
| `Driver.MongoCollection.UpdateOne` | MongoLite/Bson/BsonCollection.cs:70-71 | The update is applied to the first match. Matched is 1 when there was one; modified is 0 exactly when the documents are unchanged. |
| `Driver.MongoCollection.DeleteOne` | MongoLite/Bson/BsonCollection.cs:74-79 | The first match is removed, and the deleted count is the number of documents removed. |
| `Driver.MongoCollection.DeleteMany` | MongoLite/Bson/BsonCollection.cs:84 | Exactly the non-matching documents remain, and the deleted count is the number of matches. |
| `Entities.Entity.constructor` | MongoLite/EntityState.cs:6-11 | `new T()` has an Empty ObjectId, the type's initial property values and State `Deserializing`, the enum's first member. |
| `Entities.GetStateless` | MongoLite/Bson/BsonEntity.cs:55-59 | A fresh instance with State `Stateless`, an Empty ObjectId and the initial property values. |
| `Entities.Deserialize` | MongoLite/Bson/BsonCollection.cs:93-94 | A fresh instance, still in `Deserializing`, holding the stored document's id and elements over the initial values. |
| `Host.MongoHost.constructor` | MongoLite/MongoHost.cs:16-25 | Before any start the host is not connected and has no client and no database. |
| `Host.MongoHost.Start` | MongoLite/MongoHost.cs:49-79 | A null or empty database name fails before a client exists, and nothing changes. Otherwise the client and database are set. Only a probe that returns makes the host connected; a failed probe fails and leaves the flag as it was. |
| `Host.MongoHost.TryConnection` | MongoLite/MongoHost.cs:96-107 | True exactly when the probe returns, false exactly on a MongoException; any other exception propagates. |
| `Host.MongoHost.Stop` | MongoLite/MongoHost.cs:82-94 | Afterwards the host is disconnected with no client and no database, whatever it was before. |
| `Host.MongoHost.WaitConnection` | MongoLite/MongoHost.cs:109-123 | The answer is the connected flag. When connected, the loop runs no retry; otherwise it gives up after exactly 30. |
| `Host.MongoHost.GetMongoCollection` | MongoLite/MongoHost.cs:33-46 | A timeout when not connected; the collection-unavailable error when connected without a database; otherwise the handle of that name in the database. |
| `Gateway.BsonCollection.Open` | MongoLite/Bson/BsonCollection.cs:13-16 | The gateway fails with whatever GetMongoCollection fails with. Otherwise it is bound to the handle of its name. |
| `Gateway.BsonCollection.InsertDocument` | MongoLite/Bson/BsonCollection.cs:19-20 | It does what InsertOne does, and its error, reported only when acknowledged, propagates. |
| `Gateway.BsonCollection.InsertOrUpdateDocument` | MongoLite/Bson/BsonCollection.cs:27-41 | An Empty id always inserts under a fresh id and answers true. Any other id only replaces by id: the length is kept and nothing is inserted. The answer is true exactly when acknowledged and the stored document differed. |
| `Gateway.BsonCollection.UpdateDocument` | MongoLite/Bson/BsonCollection.cs:44-52 | A replace by id; true exactly when acknowledged and a stored document with that id differed, so an identical replacement answers false. |
| `Gateway.BsonCollection.ReplaceById` | MongoLite/Bson/BsonCollection.cs:35-40 | The replace by id shared by InsertOrUpdate and Update, with the same effect and answer. |
| `Gateway.BsonCollection.UpdateDocumentWhere` | MongoLite/Bson/BsonCollection.cs:55-63 | No match answers false and changes nothing. A match with another id changes nothing; acknowledged it fails, unacknowledged it answers false. Otherwise the first match is replaced; true exactly when acknowledged and the match differed. |
| `Gateway.BsonCollection.ModifyDocument` | MongoLite/Bson/BsonCollection.cs:70-71 | The answer is the acknowledgement alone. Only the document with that id can change; every id and every other document stays. |
| `Gateway.BsonCollection.ModifyEntity` | MongoLite/Bson/BsonCollection.cs:66-67 | The same, on the instance's ObjectId. |
| `Gateway.BsonCollection.DeleteDocument` | MongoLite/Bson/BsonCollection.cs:74-75 | The answer is the acknowledgement. At most one document goes, the one with the id, and afterwards no document has it. |
| `Gateway.BsonCollection.DeleteDocumentWhere` | MongoLite/Bson/BsonCollection.cs:78-79 | The answer is the acknowledgement; exactly the first match, if any, is removed. |
| `Gateway.BsonCollection.DeleteManyDocuments` | MongoLite/Bson/BsonCollection.cs:82-90 | Exactly the matching documents are removed. Acknowledged, the answer is the number removed, never negative; unacknowledged, it is -1. |
| `Gateway.BsonCollection.FindDocument` | MongoLite/Bson/BsonCollection.cs:93-98 | Null exactly when nothing matches; otherwise a fresh instance loaded from the first match. |
| `Gateway.BsonCollection.FindManyDocuments` | MongoLite/Bson/BsonCollection.cs:101-120 | One fresh, distinct instance per matching document, in cursor order, each loaded from its document. |
| `Gateway.BsonCollection.CountDocuments` | MongoLite/Bson/BsonCollection.cs:123-126 | Never more than the collection holds; zero exactly when no document matches. |
| `Atomic.Save` | MongoLite/Bson/BsonEntity.cs:19-25 | In `Stateless`, `Deleted` and `Deserializing` nothing is written. In `Ready` exactly the named field of the document with this id is set; every other field and document stays. |
| `Atomic.SetProperty` | MongoLite.Sample/ExampleModel.cs:10 | The in-memory property changes first, whether or not the save then writes anything. |
| `Helpers.CollectionName` | MongoLite/Helpers/BsonModelHelper.cs:11 | A name shorter than seven characters fails. Otherwise the result is the prefix of length `Name.Length - 7`. |
| `Helpers.CollectionNameStrips` | MongoLite/Helpers/BsonModelHelper.cs:11 | Whatever seven characters end the type name are what is stripped. |
| `Helpers.SampleCollectionName` | MongoLite.Sample/ExampleModel.cs:5 | The sample type `ExampleModel` is stored in the collection `"Examp"`. |
| `Helpers.RunInitializer` | MongoLite/Helpers/BsonModelHelper.cs:25 | The action's assignments take effect in order. While the instance is in a state Save skips, the store is untouched. |
| `Helpers.InitializedKeepsKeys` | MongoLite/Helpers/BsonModelHelper.cs:25 | A creation action only adds or overwrites properties, so every initial property is still held. |
| `Helpers.BsonModelHelper.Open` | MongoLite/Helpers/BsonModelHelper.cs:11 | One run of the static initialiser. A short type name fails. Otherwise the gateway's failure propagates, or the helper's collection is the derived name. |
| `Helpers.HelperType.constructor` | MongoLite/Helpers/BsonModelHelper.cs:8-11 | A closed type starts with its static initialiser not yet run. |
| `Helpers.HelperType.Use` | MongoLite/Helpers/BsonModelHelper.cs:8-11 | The first use runs the initialiser and records its outcome; a fault is wrapped as a type-initialisation error. Every later use returns the recorded helper or the recorded fault, whatever the host's state. |
| `Helpers.FaultOutlivesConnection` | MongoLite/Helpers/BsonModelHelper.cs:11 | A type first used before the host connected still fails, with the same wrapped timeout, after the host connects. |
| `Helpers.BsonModelHelper.Save` | MongoLite/Helpers/BsonModelHelper.cs:13-19 | A `Stateless` instance writes nothing. Any other, `Deleted` included, goes through InsertOrUpdate: an append under a fresh id, or a replace by id. |
| `Helpers.BsonModelHelper.Create` | MongoLite/Helpers/BsonModelHelper.cs:21-32 | A fresh `Ready` instance holding the action's values. The one store write already carries them: an append under a fresh id, or a replace by the id the action assigned. |
| `Helpers.BsonModelHelper.Get` | MongoLite/Helpers/BsonModelHelper.cs:34-44 | Null exactly when nothing matches; otherwise a fresh `Ready` instance loaded from the first match. |
| `Helpers.BsonModelHelper.GetMany` | MongoLite/Helpers/BsonModelHelper.cs:46-55 | As many instances as matching documents, in the same order, each fresh, distinct, loaded from its document and `Ready`. |
| `Helpers.BsonModelHelper.Delete` | MongoLite/Helpers/BsonModelHelper.cs:57-65 | `Stateless` or `Deleted`: false, nothing changes. Otherwise the instance becomes `Deleted`, its document is removed and the answer is the acknowledgement. |
| `Helpers.BsonModelHelper.DeleteMany` | MongoLite/Helpers/BsonModelHelper.cs:67-70 | Exactly the matches are removed; the answer is their number, or -1 when unacknowledged. |
| `Helpers.BsonModelHelper.GetCount` | MongoLite/Helpers/BsonModelHelper.cs:72-75 | The number of matching documents. |
| `Collections.Dictionary.constructor` | MongoLite/Collections/ModelDictionary.cs:76-80 | A `Dictionary<TKey, TValue?>` object holding the given bindings. |
| `Collections.ModelDictionary.constructor` | MongoLite/Collections/ModelDictionary.cs:16-20 | A new, empty implementation object with the given hook and a fresh `Stateless` Default holding the initial values. |
| `Collections.ModelDictionary.FromMap` | MongoLite/Collections/ModelDictionary.cs:76-80 | The dictionary keeps the caller's implementation object itself, nulls included, so writes through either are seen by both. The hook is the given one; Default is a fresh `Stateless` instance. |
| `Collections.ModelDictionary.TryGetValue` | MongoLite/Collections/ModelDictionary.cs:107-120 | A hit answers true with the bound instance, or Default for a null binding, and runs no hook. A miss answers false with Default after the hook's one run on (key, Default). The bindings never change. |
| `Collections.ModelDictionary.Get` | MongoLite/Collections/ModelDictionary.cs:30-35 | The indexer never yields null: the bound instance, or Default for a null binding or a miss, and the hook runs only on a miss. |
| `Collections.ModelDictionary.Set` | MongoLite/Collections/ModelDictionary.cs:36-39 | The key is bound to the value; no other binding changes. |
| `Collections.ModelDictionary.Add` | MongoLite/Collections/ModelDictionary.cs:83-86 | A bound key is refused and nothing changes; a new key is bound. |
| `Collections.ModelDictionary.Remove` | MongoLite/Collections/ModelDictionary.cs:100-101 | True exactly when the key was bound; afterwards it is not, and no other binding changes. |
| `Collections.ModelDictionary.SetValueTransform` | MongoLite/Collections/ModelDictionary.cs:69 | The hook is replaced. |
| `Collections.ModelDictionary.ContainsKey` | MongoLite/Collections/ModelDictionary.cs:92-93 | True exactly when the key is among Keys, a key bound to null included. A key that misses is not contained, although both it and a null binding read as Default. |
| `Collections.KeysAreContained` | MongoLite/Collections/ModelDictionary.cs:43-44 | Keys holds exactly the keys ContainsKey accepts. |
| `Collections.ModelDictionary.Count` | MongoLite/Collections/ModelDictionary.cs:51-52 | The number of keys in Keys. |
| `Collections.CountZeroIffEmpty` | MongoLite/Collections/ModelDictionary.cs:51-52 | Count is zero exactly when nothing is bound. |
| `Collections.GetKeepsContainment` | MongoLite/Collections/ModelDictionary.cs:28-35 | A read never changes which keys are contained. A key that is not contained, or is bound to null, reads as Default. |
| `Collections.CountAfterSet` | MongoLite/Collections/ModelDictionary.cs:51-52 | Binding a new key adds one to Count; rebinding leaves Count as it was. |
| `Collections.CountAfterRemove` | MongoLite/Collections/ModelDictionary.cs:100-101 | Removing a bound key takes one from Count; removing an unbound key leaves it. |
| `Collections.SetThenGet` | MongoLite/Collections/ModelDictionary.cs:28-39 | After `d[k] = v`, `d[k]` is v and ContainsKey(k) holds. Other keys keep their bindings, and Count grows by one exactly when k was new. |
| `Collections.MissesShareDefault` | MongoLite/Collections/ModelDictionary.cs:64 | Two misses return the same Default, still `Stateless`, which carries both runs of the hook. |
| `Collections.SharedWithCaller` | MongoLite/Collections/ModelDictionary.cs:76-80 | Over a caller's implementation object, the dictionary's write lands in the caller's object and the caller's later write is what the dictionary reads. |
| `CollectionHelper.ToList` | MongoLite/Helpers/CollectionHelper.cs:19-35 | Every item, in order and of the same number. A fault gives one InvalidOperationException and no partial list. |
| `CollectionHelper.SelectedKeys` | MongoLite/Helpers/CollectionHelper.cs:56 | The key the selector gives each item, position by position. |
| `CollectionHelper.AssignedKeys` | MongoLite/Helpers/CollectionHelper.cs:55-56 | The dictionary's keys are exactly the selected keys. |
| `CollectionHelper.AssignedLastWins` | MongoLite/Helpers/CollectionHelper.cs:55-56 | A key is bound to the last item that selected it. |
| `CollectionHelper.DistinctKeysBound` | MongoLite/Helpers/CollectionHelper.cs:51-56 | There are no more distinct keys than items. |
| `CollectionHelper.AssignedCount` | MongoLite/Helpers/CollectionHelper.cs:51-56 | Count is the number of distinct selected keys, never more than the items. |
| `CollectionHelper.ToDictionary` | MongoLite/Helpers/CollectionHelper.cs:47-64 | A fresh dictionary with no hook and a `Stateless` Default, whose bindings are the items assigned in order under their keys. A fault gives one InvalidOperationException and no partial dictionary. |
| `Facade.GetFirst` | MongoLite/Bson/BsonEntity.cs:88-99 | Get with `x => true`: null exactly for an empty collection, otherwise a `Ready` instance of the first stored document. |
| `Facade.GetAll` | MongoLite/Bson/BsonEntity.cs:149-151 | GetMany with `x => true`: one fresh, distinct `Ready` instance per stored document, in natural order. |
| `Facade.GetManyList` | MongoLite/Bson/BsonEntity.cs:139-141 | A stream that faults gives one InvalidOperationException. Otherwise the materialised GetMany holds the stream's instances, one per match, in the same order. |
| `Facade.GetAllList` | MongoLite/Bson/BsonEntity.cs:158-160 | A stream that faults gives one InvalidOperationException. Otherwise the materialised GetAll holds one `Ready` instance per stored document, in natural order. |
| `Extensions.NotFoundMessage` | MongoLite/Bson/BsonEntityExtensions.cs:78 | The message holds the entity type's name between its fixed prefix and suffix. |
| `Extensions.ThrowIfNotExists` | MongoLite/Bson/BsonEntityExtensions.cs:73-91 | A non-null entity comes back unchanged. Null fails with the MongoException whose message names the type. |
| `Extensions.CreateIfNotExists` | MongoLite/Bson/BsonEntityExtensions.cs:46-67 | An existing entity comes back as it is, and nothing is created or written. Null gives CreateAsync's result: a fresh `Ready` instance with the action applied and stored. |
| `Scenarios.DeleteTwice` | MongoLite/Helpers/BsonModelHelper.cs:57-65 | A second delete of the same instance answers false. The first removed its document and answered the acknowledgement. |
| `Scenarios.StopThenCollection` | MongoLite/MongoHost.cs:82-94 | After StopAsync, asking for a collection times out. |
| `Scenarios.DeleteManyTwice` | MongoLite/Bson/BsonCollection.cs:82-90 | A repeated delete-many removes nothing more and, acknowledged, reports 0. |
| `Scenarios.MatchingKeepsAll` | MongoLite/Bson/BsonCollection.cs:84 | A filter that matches nothing leaves every document in place. |
| `Scenarios.SaveTwice` | MongoLite/Bson/BsonCollection.cs:27-41 | The two InsertOrUpdate calls of saving a new instance twice: the insert answers true, and the second replaces with an identical document and answers false. |
| `Scenarios.CreateThenGet` | MongoLite/Helpers/BsonModelHelper.cs:21-44 | An instance created without an id is found again by its new id, as a separate `Ready` instance whose properties equal the created instance's. |

## Left out

- The MongoDB driver, BSON serialisation and the network. The store is an abstract
  collection of documents with opaque filters. `UpdateDefinition` is reduced to
  `Update.Set`, the only one the repository builds. Ids on insert come from a generator in
  the abstract store; the driver does this, not the repository.
- Expression trees, cancellation tokens, `Task`, `IAsyncEnumerable` and
  `GetAwaiter().GetResult()`. Each operation has one sequential model, and synchronous and
  asynchronous forms share it.
- InsertDocumentsAsync (MongoLite/Bson/BsonCollection.cs:23-24): its behaviour on partial
  failure is defined by the driver.
- BsonEntityExtensions.Update/UpdateAsync (MongoLite/Bson/BsonEntityExtensions.cs:15-25):
  they call a helper method that does not exist.
- IBsonEntity, BsonEntityBase and IBsonCollection are a parallel hierarchy or a bare interface
  with no behaviour of their own.
- `CreatedAt`: no code sets it.
- Logging, and the parsing of the configuration: the URL is a string and the database name
  an optional string.
- The `_url is not null` and `_client is not null` else branches of StartAsync
  (MongoLite/MongoHost.cs:72-76) are not modelled. A parsed `MongoUrl` and a
  constructed client are never null.
- Concurrency between the static globals (`IsConnected`, `_client`, `_database`, the
  per-type `Collection`) and operations in flight: everything here is sequential.
- Host.MongoHost.WaitConnection: the un-awaited `Task.Delay(50)` is left out, and no claim
  is made about elapsed time. The retry count is a ghost out-parameter.
- The driver's name-to-collection resolution: the gateway is bound to the store object its
  caller supplies.
- ModelDictionary `Values` (MongoLite/Collections/ModelDictionary.cs:47-48), which can hold
  nulls from the implementation object, and the public `GetEnumerator` (96-97), which hands
  out the implementation's own enumerator: the model has no iteration.
- The explicit `ICollection` members and `IEnumerable.GetEnumerator`
  (MongoLite/Collections/ModelDictionary.cs:122-156) all throw `NotImplementedException`.
  `IsReadOnly` is the constant false.
- CollectionHelper.ToDictionary: a key selector is a total function to a non-null key. A
  selector that throws, or returns a null key, is caught and rethrown as
  InvalidOperationException (MongoLite/Helpers/CollectionHelper.cs:56-61); the model does
  not capture that.
- Collections.ModelDictionary.TryGetValue: the `ValueTransform` hook is modelled only by its
  effect on the properties of Default. A hook that changes `State` or writes to the store
  is not modelled.
- Helpers.RunInitializer: a creation action is modelled as a sequence of property
  assignments through the atomic setters and ObjectId assignments. Arbitrary code in the
  action is not modelled.
- Entities.Deserialize: the deserializer's property assignments are a direct copy of the
  stored elements. Setters run while the state is `Deserializing`, so their atomic saves
  write nothing.
- `long` counts are unbounded integers: no collection holds 2^63 documents.
