/**
 * The abstract store behind an IMongoCollection<T> handle: the one piece of
 * the MongoDB driver the gateway's logic depends on. Its operations are the
 * driver calls BsonCollection makes (InsertOne, ReplaceOne, UpdateOne,
 * DeleteOne, DeleteMany, Find, CountDocuments), each stated as an effect on
 * the documents and a driver result.
 */
module Driver {
  import opened Wrappers
  import opened Errors
  import opened Documents
  import opened Entities

  /** A server-side collection: its documents in natural order (the order of a cursor)
      and the state of the ObjectId generator. `acknowledged` is the collection's write
      concern: it decides IsAcknowledged of every write result. A write takes effect
      whatever the write concern. Under an unacknowledged concern the driver reports
      nothing about it, not even the server's refusal of the write. */
  class MongoCollection {
    const acknowledged: bool
    var docs: seq<Document>
    var nextId: ObjectId

    ghost predicate Valid()
      reads this
    {
      EmptyId < nextId && WellFormed(docs, nextId)
    }

    constructor (acknowledged: bool)
      ensures Valid() && this.acknowledged == acknowledged && docs == []
    {
      this.acknowledged := acknowledged;
      docs := [];
      nextId := 1;
    }

    /** InsertOne. A document whose ObjectId is Empty first gets a fresh id, written back
        into the instance (the driver's id generator). The server refuses a taken id; the
        refusal reaches the caller only under an acknowledged write concern. */
    method InsertOne(e: Entity) returns (r: Outcome<MongoError>)
      requires Valid()
      modifies this, e`id
      ensures Valid()
      ensures old(e.id) == EmptyId ==>
                && r.Pass? && e.id == old(nextId) && !HasId(old(docs), e.id)
                && docs == old(docs) + [Document(e.id, e.fields)]
      ensures old(e.id) != EmptyId && HasId(old(docs), old(e.id)) ==>
                && r == (if acknowledged then Fail(DuplicateKey(old(e.id))) else Pass)
                && docs == old(docs) && e.id == old(e.id)
      ensures old(e.id) != EmptyId && !HasId(old(docs), old(e.id)) ==>
                r.Pass? && e.id == old(e.id) && docs == old(docs) + [Document(e.id, e.fields)]
    {
      if e.id == EmptyId {
        e.id := nextId;
        nextId := nextId + 1;
      } else {
        ByIdFinds(docs, e.id);
        if FirstMatch(docs, ById(e.id)).Some? {
          return if acknowledged then Fail(DuplicateKey(e.id)) else Pass;
        }
        if nextId <= e.id {
          nextId := e.id + 1;
        }
      }
      docs := docs + [Document(e.id, e.fields)];
      r := Pass;
    }

    /** ReplaceOne without upsert: the first match is replaced. The server refuses a match
        whose _id differs from the replacement's, since _id is immutable; the refusal reaches
        the caller only under an acknowledged write concern, and otherwise the result is
        the unacknowledged one. ModifiedCount is 0 when the replacement equals the stored
        document. */
    method ReplaceOne(p: Filter, replacement: Document) returns (r: Result<UpdateResult, MongoError>)
      requires Valid()
      modifies this
      ensures Valid()
      ensures nextId == old(nextId)
      ensures FirstMatch(old(docs), p).None? ==>
                r == Success(UpdateResult(acknowledged, 0, 0)) && docs == old(docs)
      ensures FirstMatch(old(docs), p).Some? ==>
                var hit := old(docs)[FirstMatch(old(docs), p).value];
                if hit.id != replacement.id then
                  && docs == old(docs)
                  && r == (if acknowledged then Failure(ImmutableIdAltered) else Success(UpdateResult(false, 0, 0)))
                else
                  && r == Success(UpdateResult(acknowledged, 1, if hit == replacement then 0 else 1))
                  && docs == ReplaceFirst(old(docs), p, replacement)
    {
      match FirstMatch(docs, p)
      case None =>
        r := Success(UpdateResult(acknowledged, 0, 0));
      case Some(i) =>
        if docs[i].id != replacement.id {
          r := if acknowledged then Failure(ImmutableIdAltered) else Success(UpdateResult(false, 0, 0));
        } else {
          var modified := if docs[i] == replacement then 0 else 1;
          docs := docs[i := replacement];
          r := Success(UpdateResult(acknowledged, 1, modified));
        }
    }

    /** UpdateOne: the update is applied to the first match. ModifiedCount is 0 when the
        update leaves the document as it was. */
    method UpdateOne(p: Filter, u: UpdateDefinition) returns (r: UpdateResult)
      requires Valid()
      modifies this
      ensures Valid()
      ensures nextId == old(nextId)
      ensures docs == UpdateFirst(old(docs), p, u)
      ensures r.isAcknowledged == acknowledged
      ensures r.matchedCount == if FirstMatch(old(docs), p).Some? then 1 else 0
      ensures r.modifiedCount == if old(docs) == docs then 0 else 1
    {
      match FirstMatch(docs, p)
      case None =>
        r := UpdateResult(acknowledged, 0, 0);
      case Some(i) =>
        var updated := Document(docs[i].id, Apply(u, docs[i].fields));
        var modified := if updated == docs[i] then 0 else 1;
        docs := docs[i := updated];
        assert modified == 0 <==> docs == old(docs) by {
          if modified == 1 {
            assert docs[i] != old(docs)[i];
          }
        }
        r := UpdateResult(acknowledged, 1, modified);
    }

    /** DeleteOne: the first match is removed. */
    method DeleteOne(p: Filter) returns (r: DeleteResult)
      requires Valid()
      modifies this
      ensures Valid()
      ensures nextId == old(nextId)
      ensures docs == RemoveFirst(old(docs), p)
      ensures r == DeleteResult(acknowledged, |old(docs)| - |docs|)
    {
      match FirstMatch(docs, p)
      case None =>
        r := DeleteResult(acknowledged, 0);
      case Some(i) =>
        RemoveAtKeepsWellFormed(docs, i, nextId);
        docs := RemoveAt(docs, i);
        r := DeleteResult(acknowledged, 1);
    }

    /** DeleteMany: every match is removed; DeletedCount is the number of matches. */
    method DeleteMany(p: Filter) returns (r: DeleteResult)
      requires Valid()
      modifies this
      ensures Valid()
      ensures nextId == old(nextId)
      ensures docs == Matching(old(docs), Not(p))
      ensures r == DeleteResult(acknowledged, |Matching(old(docs), p)|)
    {
      MatchingKeepsWellFormed(docs, Not(p), nextId);
      MatchingSplits(docs, p);
      r := DeleteResult(acknowledged, |docs| - |Matching(docs, Not(p))|);
      docs := Matching(docs, Not(p));
    }

    /** Find: the cursor the server returns for the filter. It holds exactly the documents the
        filter accepts, and it is empty exactly when nothing matches; otherwise it starts at
        the first match in natural order. */
    function Find(p: Filter): (cursor: seq<Document>)
      reads this
      ensures |cursor| <= |docs|
      ensures forall d :: d in cursor <==> d in docs && p(d)
      ensures cursor == [] <==> FirstMatch(docs, p).None?
      ensures FirstMatch(docs, p).Some? ==> cursor[0] == docs[FirstMatch(docs, p).value]
    {
      FirstMatchHeadsMatching(docs, p);
      Matching(docs, p)
    }
  }
}
