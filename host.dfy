/**
 * MongoHost: the process-wide connection state (IsConnected, _client,
 * _database) as one object, its start and stop transitions, the bounded
 * wait for a connection and the collection-handle decision built on it.
 */
module Host {
  import opened Wrappers
  import opened Errors

  /** `new MongoClient(url)`: a client for the parsed connection string. */
  datatype ClientHandle = ClientHandle(url: string)

  /** `client.GetDatabase(name)`. */
  datatype DatabaseHandle = DatabaseHandle(client: ClientHandle, name: string)

  /** `database.GetCollection<T>(name)`. */
  datatype CollectionHandle = CollectionHandle(database: DatabaseHandle, name: string)

  /** How the connectivity probe (ListDatabaseNames) ends: it returns, it throws a
      MongoException (which TryConnection turns into false), or it throws anything else
      (which TryConnection does not catch). The server's reachability is an input. */
  datatype Probe = Reachable | MongoFailure | OtherFailure

  /** The bound on WaitConnection's retry counter. */
  const MaxRetries: nat := 30

  class MongoHost {
    /** The parsed "DefaultConnection" connection string. */
    const url: string
    /** "DefaultConnectionName"; None is a missing configuration entry (null). */
    const databaseName: Option<string>

    var isConnected: bool
    var client: Option<ClientHandle>
    var database: Option<DatabaseHandle>

    /** The static fields before anything has started: not connected, no handles. */
    constructor (url: string, databaseName: Option<string>)
      ensures this.url == url && this.databaseName == databaseName
      ensures !isConnected && client.None? && database.None?
    {
      this.url := url;
      this.databaseName := databaseName;
      isConnected := false;
      client := None;
      database := None;
    }

    /** StartAsync. A null or empty database name fails before any client exists. Otherwise
        the client and database handles are set, and only a probe that returns marks the
        host connected; a failed probe leaves IsConnected as it was. */
    method Start(probe: Probe) returns (r: Outcome<MongoError>)
      modifies this
      ensures databaseName.None? || databaseName.value == "" ==>
                r == Fail(DatabaseNameMissing) && isConnected == old(isConnected)
                && client == old(client) && database == old(database)
      ensures databaseName.Some? && databaseName.value != "" ==>
                && client == Some(ClientHandle(url))
                && database == Some(DatabaseHandle(ClientHandle(url), databaseName.value))
                && (probe == Reachable ==> r == Pass && isConnected)
                && (probe == MongoFailure ==> r == Fail(CouldNotConnect) && isConnected == old(isConnected))
                && (probe == OtherFailure ==> r == Fail(ProbeFaulted) && isConnected == old(isConnected))
    {
      if databaseName.None? || databaseName.value == "" {
        return Fail(DatabaseNameMissing);
      }
      var c := ClientHandle(url);
      client := Some(c);
      database := Some(DatabaseHandle(c, databaseName.value));
      var reached := TryConnection(probe);
      if reached.Failure? {
        return Fail(reached.error);
      }
      if !reached.value {
        return Fail(CouldNotConnect);
      }
      isConnected := true;
      r := Pass;
    }

    /** TryConnection: true when the probe returns, false on a MongoException; any other
        exception propagates. */
    static function TryConnection(probe: Probe): (r: Result<bool, MongoError>)
      ensures r == Success(true) <==> probe == Reachable
      ensures r == Success(false) <==> probe == MongoFailure
      ensures r.Failure? <==> probe == OtherFailure
    {
      match probe
      case Reachable => Success(true)
      case MongoFailure => Success(false)
      case OtherFailure => Failure(ProbeFaulted)
    }

    /** StopAsync: disconnected, with no client and no database, whatever the state before. */
    method Stop()
      modifies this
      ensures !isConnected && client.None? && database.None?
    {
      isConnected := false;
      client := None;
      database := None;
    }

    /** WaitConnection: poll the connected flag, giving up once the retry counter reaches
        MaxRetries. Nothing else runs meanwhile, so the flag cannot change during the loop
        and the answer is the flag itself; when it is false the loop ran MaxRetries times. */
    method WaitConnection() returns (connected: bool, ghost retries: nat)
      ensures connected == isConnected
      ensures retries <= MaxRetries
      ensures connected ==> retries == 0
      ensures !connected ==> retries == MaxRetries
    {
      var retryCounter := 0;
      while !isConnected
        invariant 0 <= retryCounter <= MaxRetries
        invariant isConnected ==> retryCounter == 0
        decreases MaxRetries - retryCounter
      {
        if retryCounter >= MaxRetries {
          return false, retryCounter;
        }
        retryCounter := retryCounter + 1;
      }
      return true, retryCounter;
    }

    /** GetMongoCollection: a timeout when the wait gives up, ArgumentException when
        connected but without a database handle, the collection handle otherwise. */
    method GetMongoCollection(name: string) returns (r: Result<CollectionHandle, MongoError>)
      ensures !isConnected ==> r == Failure(DatabaseTimedOut)
      ensures isConnected && database.None? ==> r == Failure(CollectionUnavailable(name))
      ensures isConnected && database.Some? ==> r == Success(CollectionHandle(database.value, name))
    {
      var connected, _ := WaitConnection();
      if connected {
        if database.None? {
          return Failure(CollectionUnavailable(name));
        }
        return Success(CollectionHandle(database.value, name));
      }
      r := Failure(DatabaseTimedOut);
    }
  }
}
