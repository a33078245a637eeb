/** The exceptions the modelled code throws or lets through, one constructor per cause. */
module Errors {

  datatype MongoError =
    /** The store refuses an insert whose _id is already taken (write error E11000). */
    | DuplicateKey(id: nat)
    /** The store refuses a replacement whose _id differs from the matched document's. */
    | ImmutableIdAltered
    /** MongoClientException "The database timed out." from GetMongoCollection. */
    | DatabaseTimedOut
    /** ArgumentException from GetMongoCollection: connected, but no database handle. */
    | CollectionUnavailable(name: string)
    /** ArgumentNullException from StartAsync: the database name is null or empty. */
    | DatabaseNameMissing
    /** InvalidOperationException "Databases could not connect." from StartAsync. */
    | CouldNotConnect
    /** An exception other than a MongoException thrown by the connectivity probe. */
    | ProbeFaulted
    /** ArgumentOutOfRangeException from `typeof(T).Name[..^7]` on a name shorter than 7. */
    | TypeNameTooShort(typeName: string)
    /** MongoException from ThrowIfNotExists; the message names the entity type. */
    | EntityNotFound(message: string)
    /** InvalidOperationException from CollectionHelper when the enumeration fails. */
    | EnumerationFailed
    /** ArgumentException from Dictionary.Add on a key that is already present. */
    | DuplicateDictionaryKey
    /** TypeInitializationException: a static initialiser threw `inner`; the runtime keeps
        it and rethrows it on every later use of the type. */
    | TypeInitializationFailed(inner: MongoError)
}
