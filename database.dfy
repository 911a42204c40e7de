/**
 * The database collaborator (an ADO.NET connection driven through Dapper),
 * reduced to what the unit of work observes: every call it receives is
 * appended to a ghost log together with its reply. Row counts, scalars and
 * failures are chosen by the database, so the model leaves them open.
 */
module Database {
  import opened Wrappers
  import opened Int32

  /** `System.Data.IsolationLevel`, passed through uninterpreted. */
  datatype IsolationLevel =
    | Unspecified | Chaos | ReadUncommitted | ReadCommitted
    | RepeatableRead | Serializable | Snapshot

  /** `System.Data.ConnectionState`. */
  datatype ConnectionState = Closed | Open | Connecting | Executing | Fetching | Broken

  /** The opaque parameter object handed to Dapper with a statement. */
  datatype ParamBag = ParamBag(values: map<string, int>)

  /**
   * A transaction handle (`IDbTransaction`). `level` is `None` when it was
   * begun without an explicit isolation level (the provider's default).
   */
  datatype Transaction = Transaction(id: nat, level: Option<IsolationLevel>)

  /** A call the unit of work makes on its connection or on a transaction. */
  datatype Call =
    | OpenConnection
    | CloseConnection
    | DisposeConnection
    | BeginTransaction(level: Option<IsolationLevel>)
    | Execute(sql: string, param: Option<ParamBag>, transaction: Option<Transaction>)
    | ExecuteScalar(sql: string, param: Option<ParamBag>, transaction: Option<Transaction>)
    | Commit(handle: Transaction)
    | Rollback(handle: Transaction)
    | DisposeTransaction(handle: Transaction)
  {
    /** A statement execution, as opposed to connection or transaction control. */
    predicate IsExecution() { Execute? || ExecuteScalar? }
  }

  /** What the database answered: nothing, an int, a new handle, or an exception. */
  datatype Reply = Done | Value(n: int32) | Began(handle: Transaction) | Failed

  datatype Event = Event(call: Call, reply: Reply)

  /** The reply a statement execution logs for a result. */
  function ReplyOf(r: Result<int32>): (reply: Reply) {
    match r
    case Ok(n) => Value(n)
    case Err(_) => Failed
  }

  /** The reply a void call logs for an outcome. */
  function ReplyOfOutcome(r: Outcome): (reply: Reply) {
    match r
    case Pass => Done
    case Fail(_) => Failed
  }

  class Connection {
    var state: ConnectionState
    var nextId: nat
    ghost var log: seq<Event>

    constructor (initial: ConnectionState)
      ensures state == initial && nextId == 0 && log == []
    {
      state, nextId, log := initial, 0, [];
    }

    /** `IDbConnection.Open`: the connection becomes Open, or the call throws. */
    method Open() returns (r: Outcome)
      modifies this
      ensures nextId == old(nextId)
      ensures r.Pass? ==> state == ConnectionState.Open
      ensures r.Fail? ==> r.error == DatabaseError && state == old(state)
      ensures log == old(log) + [Event(OpenConnection, ReplyOfOutcome(r))]
    {
      var fails: bool := *;
      r := if fails then Fail(DatabaseError) else Pass;
      if r.Pass? {
        state := ConnectionState.Open;
      }
      log := log + [Event(OpenConnection, ReplyOfOutcome(r))];
    }

    method Close()
      modifies this
      ensures state == Closed && nextId == old(nextId)
      ensures log == old(log) + [Event(CloseConnection, Done)]
    {
      state := Closed;
      log := log + [Event(CloseConnection, Done)];
    }

    method Dispose()
      modifies this
      ensures state == Closed && nextId == old(nextId)
      ensures log == old(log) + [Event(DisposeConnection, Done)]
    {
      state := Closed;
      log := log + [Event(DisposeConnection, Done)];
    }

    /** Either hands out a new handle, numbered by the counter, or throws. */
    method BeginTransaction(level: Option<IsolationLevel>) returns (r: Result<Transaction>)
      modifies this
      ensures state == old(state)
      ensures r.Ok? ==> r.value == Transaction(old(nextId), level) && nextId == old(nextId) + 1
      ensures r.Err? ==> r.error == DatabaseError && nextId == old(nextId)
      ensures log == old(log) + [Event(Call.BeginTransaction(level), if r.Ok? then Began(r.value) else Failed)]
    {
      var fails: bool := *;
      if fails {
        r := Err(DatabaseError);
        log := log + [Event(Call.BeginTransaction(level), Failed)];
      } else {
        r := Ok(Transaction(nextId, level));
        log := log + [Event(Call.BeginTransaction(level), Began(r.value))];
        nextId := nextId + 1;
      }
    }

    /** Dapper's `Execute`: the number of rows affected, or an exception. */
    method Execute(sql: string, param: Option<ParamBag>, transaction: Option<Transaction>)
      returns (r: Result<int32>)
      modifies this
      ensures state == old(state) && nextId == old(nextId)
      ensures r.Err? ==> r.error == DatabaseError
      ensures log == old(log) + [Event(Call.Execute(sql, param, transaction), ReplyOf(r))]
    {
      var fails: bool := *;
      var rows: int32 := *;
      r := if fails then Err(DatabaseError) else Ok(rows);
      log := log + [Event(Call.Execute(sql, param, transaction), ReplyOf(r))];
    }

    /** Dapper's `ExecuteScalar<int>`: the first column of the first row, or an exception. */
    method ExecuteScalar(sql: string, param: Option<ParamBag>, transaction: Option<Transaction>)
      returns (r: Result<int32>)
      modifies this
      ensures state == old(state) && nextId == old(nextId)
      ensures r.Err? ==> r.error == DatabaseError
      ensures log == old(log) + [Event(Call.ExecuteScalar(sql, param, transaction), ReplyOf(r))]
    {
      var fails: bool := *;
      var scalar: int32 := *;
      r := if fails then Err(DatabaseError) else Ok(scalar);
      log := log + [Event(Call.ExecuteScalar(sql, param, transaction), ReplyOf(r))];
    }

    /** `IDbTransaction.Commit` on handle `t`. */
    method Commit(t: Transaction) returns (r: Outcome)
      modifies this
      ensures state == old(state) && nextId == old(nextId)
      ensures r.Fail? ==> r.error == DatabaseError
      ensures log == old(log) + [Event(Call.Commit(t), ReplyOfOutcome(r))]
    {
      var fails: bool := *;
      r := if fails then Fail(DatabaseError) else Pass;
      log := log + [Event(Call.Commit(t), ReplyOfOutcome(r))];
    }

    /** `IDbTransaction.Rollback` on handle `t`. */
    method Rollback(t: Transaction) returns (r: Outcome)
      modifies this
      ensures state == old(state) && nextId == old(nextId)
      ensures r.Fail? ==> r.error == DatabaseError
      ensures log == old(log) + [Event(Call.Rollback(t), ReplyOfOutcome(r))]
    {
      var fails: bool := *;
      r := if fails then Fail(DatabaseError) else Pass;
      log := log + [Event(Call.Rollback(t), ReplyOfOutcome(r))];
    }

    /** `IDbTransaction.Dispose` on handle `t`. */
    method DisposeTransaction(t: Transaction)
      modifies this
      ensures state == old(state) && nextId == old(nextId)
      ensures log == old(log) + [Event(Call.DisposeTransaction(t), Done)]
    {
      log := log + [Event(Call.DisposeTransaction(t), Done)];
    }
  }
}
