/**
 * The abstract document store the driver works on: field values, documents,
 * filters and update definitions, the driver's write results, and the
 * functions on a collection's documents (kept in natural order, which is the
 * order a cursor returns them in) that give every store operation its meaning.
 */
module Documents {
  import opened Wrappers

  type FieldName = string

  /** A BSON element value, reduced to the kinds an entity's properties hold. */
  datatype Value = Str(s: string) | Int(i: int) | Bool(b: bool) | Null

  /** The elements of a stored document other than its _id. */
  type Fields = map<FieldName, Value>

  /** ObjectId. The value 0 stands for ObjectId.Empty, the never-inserted sentinel. */
  type ObjectId = nat

  const EmptyId: ObjectId := 0

  datatype Document = Document(id: ObjectId, fields: Fields)

  /** A query filter: an opaque predicate over stored documents. */
  type Filter = Document -> bool

  /** The filter `x => x.ObjectId == id`. */
  function ById(id: ObjectId): Filter {
    (d: Document) => d.id == id
  }

  /** The filter `x => true` of GetFirst and GetAll. */
  function Everything(): Filter {
    (d: Document) => true
  }

  function Not(p: Filter): Filter {
    (d: Document) => !p(d)
  }

  /** `Builders<T>.Update.Set(field, value)`, the only update the repository builds. */
  datatype UpdateDefinition = Set(field: FieldName, value: Value)

  /** The fields of a document after an update: the named field holds the value, every other field is kept. */
  function Apply(u: UpdateDefinition, f: Fields): (r: Fields)
    ensures r.Keys == f.Keys + {u.field} && r[u.field] == u.value
    ensures forall k :: k in f && k != u.field ==> r[k] == f[k]
  {
    f[u.field := u.value]
  }

  /** ReplaceOneResult and UpdateResult of the driver. */
  datatype UpdateResult = UpdateResult(isAcknowledged: bool, matchedCount: nat, modifiedCount: nat)

  datatype DeleteResult = DeleteResult(isAcknowledged: bool, deletedCount: nat)

  /** No two documents of a collection share an _id. */
  ghost predicate UniqueIds(docs: seq<Document>) {
    forall i, j :: 0 <= i < j < |docs| ==> docs[i].id != docs[j].id
  }

  /** Every stored _id is non-empty and below the next id the generator hands out. */
  ghost predicate IdsBelow(docs: seq<Document>, bound: ObjectId) {
    forall i :: 0 <= i < |docs| ==> EmptyId < docs[i].id < bound
  }

  ghost predicate WellFormed(docs: seq<Document>, bound: ObjectId) {
    UniqueIds(docs) && IdsBelow(docs, bound)
  }

  ghost predicate HasId(docs: seq<Document>, id: ObjectId) {
    exists i :: 0 <= i < |docs| && docs[i].id == id
  }

  /** Some stored document has the _id of `d` but differs from it: a replace by id would modify it. */
  ghost predicate StoredDifferently(docs: seq<Document>, d: Document) {
    exists i :: 0 <= i < |docs| && docs[i].id == d.id && docs[i] != d
  }

  /** The position of the first document, in natural order, that the filter accepts. */
  function FirstMatch(docs: seq<Document>, p: Filter): (r: Option<nat>)
    ensures r.Some? ==> r.value < |docs| && p(docs[r.value])
    ensures r.Some? ==> forall j :: 0 <= j < r.value ==> !p(docs[j])
    ensures r.None? ==> forall j :: 0 <= j < |docs| ==> !p(docs[j])
  {
    if docs == [] then None
    else if p(docs[0]) then Some(0)
    else match FirstMatch(docs[1..], p)
      case None => None
      case Some(i) => Some(i + 1)
  }

  /** The documents the filter accepts, in natural order: what a cursor over the filter yields. */
  function Matching(docs: seq<Document>, p: Filter): (r: seq<Document>)
    ensures |r| <= |docs|
    ensures forall d :: d in r <==> d in docs && p(d)
  {
    if docs == [] then []
    else (if p(docs[0]) then [docs[0]] else []) + Matching(docs[1..], p)
  }

  function RemoveAt(docs: seq<Document>, i: nat): (r: seq<Document>)
    requires i < |docs|
    ensures |r| == |docs| - 1
    ensures forall k :: 0 <= k < |r| ==> r[k] == docs[if k < i then k else k + 1]
  {
    docs[..i] + docs[i + 1..]
  }

  /** The effect of replacing the first match by `d` (nothing changes when nothing matches). */
  function ReplaceFirst(docs: seq<Document>, p: Filter, d: Document): (r: seq<Document>) {
    match FirstMatch(docs, p)
    case None => docs
    case Some(i) => docs[i := d]
  }

  /** The effect of applying `u` to the first match. */
  function UpdateFirst(docs: seq<Document>, p: Filter, u: UpdateDefinition): (r: seq<Document>) {
    match FirstMatch(docs, p)
    case None => docs
    case Some(i) => docs[i := Document(docs[i].id, Apply(u, docs[i].fields))]
  }

  /** The effect of deleting the first match. */
  function RemoveFirst(docs: seq<Document>, p: Filter): (r: seq<Document>) {
    match FirstMatch(docs, p)
    case None => docs
    case Some(i) => RemoveAt(docs, i)
  }

  /** A filter splits a collection: what it matches and what it leaves add up to the whole. */
  lemma {:induction false} MatchingSplits(docs: seq<Document>, p: Filter)
    ensures |Matching(docs, p)| + |Matching(docs, Not(p))| == |docs|
  {
    if docs != [] {
      MatchingSplits(docs[1..], p);
    }
  }

  /** The first match is the head of the matching documents, and there is none exactly when none match. */
  lemma {:induction false} FirstMatchHeadsMatching(docs: seq<Document>, p: Filter)
    ensures FirstMatch(docs, p).None? <==> Matching(docs, p) == []
    ensures FirstMatch(docs, p).Some? ==> Matching(docs, p)[0] == docs[FirstMatch(docs, p).value]
  {
    if docs != [] && !p(docs[0]) {
      FirstMatchHeadsMatching(docs[1..], p);
    }
  }

  /** Keeping part of a well-formed collection keeps it well-formed. */
  lemma {:induction false} MatchingKeepsWellFormed(docs: seq<Document>, p: Filter, bound: ObjectId)
    requires WellFormed(docs, bound)
    ensures WellFormed(Matching(docs, p), bound)
  {
    if docs != [] {
      var rest := Matching(docs[1..], p);
      MatchingKeepsWellFormed(docs[1..], p, bound);
      forall d | d in rest
        ensures d.id != docs[0].id
      {
        var k :| 1 <= k < |docs| && docs[k] == d;
      }
      var r := Matching(docs, p);
      forall i, j | 0 <= i < j < |r|
        ensures r[i].id != r[j].id
      {
        if p(docs[0]) && i == 0 {
          assert r[j] == rest[j - 1];
          assert r[j] in rest;
        }
      }
      forall i | 0 <= i < |r|
        ensures EmptyId < r[i].id < bound
      {
        assert r[i] in docs;
      }
    }
  }

  lemma RemoveAtKeepsWellFormed(docs: seq<Document>, i: nat, bound: ObjectId)
    requires i < |docs| && WellFormed(docs, bound)
    ensures WellFormed(RemoveAt(docs, i), bound)
  {
    var r := RemoveAt(docs, i);
    forall a, b | 0 <= a < b < |r|
      ensures r[a].id != r[b].id
    {
      assert r[a] == docs[if a < i then a else a + 1];
      assert r[b] == docs[if b < i then b else b + 1];
    }
  }

  /** The always-true filter matches the whole collection, in order. */
  lemma {:induction false} MatchingEverything(docs: seq<Document>)
    ensures Matching(docs, Everything()) == docs
  {
    if docs != [] {
      MatchingEverything(docs[1..]);
      assert docs == [docs[0]] + docs[1..];
    }
  }

  /** Once the documents a filter matches are removed, the filter matches nothing. */
  lemma RemovedNoLongerMatch(docs: seq<Document>, p: Filter)
    ensures Matching(Matching(docs, Not(p)), p) == []
  {
    NothingMatches(Matching(docs, Not(p)), p);
  }

  lemma {:induction false} NothingMatches(docs: seq<Document>, p: Filter)
    requires forall d :: d in docs ==> !p(d)
    ensures Matching(docs, p) == []
  {
    if docs != [] {
      assert docs[0] in docs;
      NothingMatches(docs[1..], p);
    }
  }

  /** In a collection with unique ids, an update by id rewrites exactly the document with that
      id, by the update, and leaves every other document where and as it was. */
  lemma UpdateByIdTouchesOne(docs: seq<Document>, id: ObjectId, u: UpdateDefinition)
    requires UniqueIds(docs)
    ensures |UpdateFirst(docs, ById(id), u)| == |docs|
    ensures forall j :: 0 <= j < |docs| && docs[j].id != id ==> UpdateFirst(docs, ById(id), u)[j] == docs[j]
    ensures forall j :: 0 <= j < |docs| && docs[j].id == id ==>
              UpdateFirst(docs, ById(id), u)[j] == Document(id, Apply(u, docs[j].fields))
  {
    ByIdFinds(docs, id);
    var r := UpdateFirst(docs, ById(id), u);
    forall j | 0 <= j < |docs| && docs[j].id == id
      ensures r[j] == Document(id, Apply(u, docs[j].fields))
    {
      assert ById(id)(docs[j]);
    }
  }

  /** What a filter matches after an append: what it matched before, then the new document if it matches. */
  lemma {:induction false} MatchingAppend(docs: seq<Document>, d: Document, p: Filter)
    ensures Matching(docs + [d], p) == Matching(docs, p) + (if p(d) then [d] else [])
  {
    if docs == [] {
      assert docs + [d] == [d];
    } else {
      assert (docs + [d])[1..] == docs[1..] + [d];
      MatchingAppend(docs[1..], d, p);
    }
  }

  /** A document appended under an id not stored before is the only match of that id. */
  lemma AppendedIsOnlyMatch(docs: seq<Document>, d: Document)
    requires !HasId(docs, d.id)
    ensures Matching(docs + [d], ById(d.id)) == [d]
  {
    MatchingAppend(docs, d, ById(d.id));
    NothingMatches(docs, ById(d.id));
  }

  /** In a collection with unique ids, the by-id filter finds a document exactly when the id is stored. */
  lemma ByIdFinds(docs: seq<Document>, id: ObjectId)
    ensures FirstMatch(docs, ById(id)).Some? <==> HasId(docs, id)
    ensures FirstMatch(docs, ById(id)).Some? ==> docs[FirstMatch(docs, ById(id)).value].id == id
  {
    if HasId(docs, id) {
      var i :| 0 <= i < |docs| && docs[i].id == id;
      assert ById(id)(docs[i]);
    }
  }
}
