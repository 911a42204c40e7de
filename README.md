# Dapper.UnitOfWork: the command queue and transaction lifecycle

This project models the core of `Dapper.UnitOfWork`, a unit of work placed in
front of an ADO.NET connection. It also proves properties of that model.

- A `CommandItem` is one pending write. It holds the SQL text, its parameters
  and an optional generated-id target: a related entity plus a property name.
  `Execute` runs a plain row-count execution and returns the row count.
  In generated-id mode it runs a scalar query instead, writes the scalar into
  the named property, and returns a 0/1 success flag.
- A `UnitOfWork` owns a connection, an optional transaction and an ordered
  queue of entries. It has two states:
  - **Idle**: `AddCommand` only queues.
  - **InTransaction**: every `AddCommand` flushes the whole queue under the
    open transaction.
- `SaveChanges` flushes. With more than one entry pending and no transaction
  open, it wraps the flush in a transaction scoped to the call.
- `BeginTransaction` saves pending work first and then opens a transaction.
- `Commit` and `RollBack` forward one call when a transaction is open.
- `Dispose` releases everything, once.

Files:

- `database.dfy` (module `Database`): the database collaborator, as a class
  `Connection`. It appends every call, together with its reply, to a ghost log
  (`Event(call, reply)`). Row counts, scalars and failures are chosen
  nondeterministically. So every contract holds whatever the database
  answers, and it states the exact call sequence.
- `command_item.dfy` (module `Commands`): `CommandItem` as an immutable
  datatype, and `Execute` as a method.
- `flush.dfy` (module `Flush`): the loop of `ApplyChanges`, specified over the
  segment of the log it produces. It also defines the running total and the
  lemmas about order, totals and write-back.
- `unit_of_work.dfy` (module `DapperUnitOfWork`): the `UnitOfWork` class. It
  also holds the predicates that describe the log of each operation, and
  lemmas that read the call sequence out of them.
- `int32.dfy`, `wrappers.dfy`: C#'s unchecked 32-bit `int`, and null,
  exceptions and results as values.

Modelling choices:

- A C# exception is an `Err`/`Fail` value, by kind (`Wrappers.Error`). After
  an exception no later statement of the method runs, as in the code.
- A related entity is a class `Entity` with a map `properties` from names to
  ints. This replaces reflection. The map holds only the properties that
  `SetValue` can assign: public, with a setter, int-valued. A name that is not in the map is
  `PropertyNotFound`, because `GetProperty` yields null and `SetValue`
  dereferences it. A null name is `NullPropertyName`, because `GetProperty`
  throws. Both are raised after the scalar query has already run.
- The C# constructor is two members. The Dafny `constructor` stores the
  fields. The static method `UnitOfWork.Create` is `new UnitOfWork(connection)`
  as a caller sees it: it also opens a Closed connection, and when that
  `Open` throws, it returns the error instead of an instance.
- `_qtRet + x` is unchecked C# addition. It wraps modulo 2^32
  (`Int32.Add`). `Flush.FlushTotalIsWrappedSum` shows that the result is
  the exact sum truncated to 32 bits.

Where the code and the design description of the system disagree, the model
follows the code:

- `SaveChanges` on its non-scoped path calls `ApplyChanges()` with no
  argument (`Dapper.UnitOfWork/UnitOfWork.cs:99`). So it executes with no
  transaction even when the instance holds an open one. This path is reachable
  with entries queued while a transaction is open: an `AddCommand` whose flush
  threw leaves its entries in the queue.
- `BeginTransaction` with two or more pending entries saves them inside a
  scoped transaction, which is committed and disposed before the instance's
  own transaction is begun. The design description says they are flushed with
  no transaction. That holds only for a single pending entry.
- When an entry throws during a flush, the queue keeps every entry, including
  those already executed. The `Clear` after the loop is never reached.
- On the scoped path, a failing `Commit` comes after the flush has already
  cleared the queue. The queue is then empty and the call throws.
- The scoped transaction is begun with `BeginTransaction()`, without an
  isolation level. It is logged as `BeginTransaction(None)`: the provider's
  default, not `ReadCommitted`.
- The design says a generated-id field is set exactly when a related entity is
  set. The code does not enforce this. An entity with a null name takes the
  scalar path and then throws. A name without an entity takes the row-count
  path.
- After `Dispose` the list, connection and transaction are null.
  - `AddCommand` and `SaveChanges` throw `NullReference`.
  - `BeginTransaction` throws `ArgumentNull` (LINQ's `Count()` on a null list).
  - `Commit` and `RollBack` do nothing.

## Model

| member | source | states |
|---|---|---|
| Commands.NewCommand | Dapper.UnitOfWork/Commands/CommandItem.cs:16-20 | the 2-argument constructor stores connection and sql only; parameters, entity and property name are null, so `Execute` takes the row-count path and writes to no entity |
| Commands.NewCommandWithParams | Dapper.UnitOfWork/Commands/CommandItem.cs:22-27 | the 3-argument constructor stores connection, sql and parameters; entity and property name are null, so no generated id is captured |
| Commands.NewCommandWithGeneratedId | Dapper.UnitOfWork/Commands/CommandItem.cs:34-41 | the 5-argument constructor stores all five arguments; the entry captures a generated id exactly when the entity is non-null and the name is not the empty string (a null name counts) |
| Commands.CallOf | Dapper.UnitOfWork/Commands/CommandItem.cs:45-51 | `Execute` makes exactly one call, with the sql, parameters and transaction it was passed; it is a scalar query exactly when a generated id is captured, a row-count execution otherwise |
| Commands.SuccessFlag | Dapper.UnitOfWork/Commands/CommandItem.cs:55 | the generated-id path returns 1 exactly when the scalar is positive, else 0 |
| Commands.ExecuteResult | Dapper.UnitOfWork/Commands/CommandItem.cs:45-56 | a database failure propagates; the row-count path returns the row count unchanged; the scalar path returns the 0/1 flag when the named property exists, and otherwise fails with NullPropertyName or PropertyNotFound |
| Commands.PropertiesAfter | Dapper.UnitOfWork/Commands/CommandItem.cs:53 | writing back a generated id never adds or removes a property of the entity |
| Commands.PropertiesAfterAgrees | Dapper.UnitOfWork/Commands/CommandItem.cs:47-55 | the scalar lands in the named property exactly when `Execute` returns on the scalar path; no other property changes, and nothing changes on the row-count path or when it throws |
| Commands.Execute | Dapper.UnitOfWork/Commands/CommandItem.cs:45-57 | appends exactly one event to the connection's log, the call `CallOf` names; its result is `ExecuteResult` of the reply and the entity's properties become `PropertiesAfter` of it |
| Flush.ExecutedEvent | Dapper.UnitOfWork/Commands/CommandItem.cs:45-56 | a returning `Execute` adds to the total exactly what its logged event contributes (row count or success flag), and a throwing `Execute` reports the database's error when the database threw, and otherwise the generated-id entry's `NullPropertyName` or `PropertyNotFound(name)` |
| Flush.Run | Dapper.UnitOfWork/UnitOfWork.cs:298-304 | the loop executes the queue in order, each entry with its own sql and parameters under the one given transaction, accumulating the unchecked sum; the first entry that throws stops it, after the entries before it completed, and its exception escapes unchanged: the database's error, or the `NullPropertyName`/`PropertyNotFound(name)` of a generated-id entry; each generated-id entry whose scalar came back returned exactly when its entity had the named property before the flush |
| Flush.FlushTotalIsWrappedSum | Dapper.UnitOfWork/UnitOfWork.cs:300-303 | the running total `_qtRet` equals the exact sum of the per-entry results truncated to a 32-bit int |
| Flush.FlushTotalAppend | Dapper.UnitOfWork/UnitOfWork.cs:300-303 | flushing two queues back to back totals the unchecked sum of their separate totals |
| Flush.IsFlushAppend | Dapper.UnitOfWork/UnitOfWork.cs:302-303 | a log is a flush of a concatenated queue exactly when its two parts are flushes of the two queues |
| Flush.CaptureFlushCountsSuccesses | Dapper.UnitOfWork/UnitOfWork.cs:302-303 | a flush of generated-id entries returns the number of positive generated ids, between 0 and the queue length, not a row count |
| Flush.FlushUsesOneTransaction | Dapper.UnitOfWork/UnitOfWork.cs:298-304 | a flush, completed or failed, begins, commits and rolls back nothing, and every statement runs under the transaction it was given |
| Flush.FailedFlushCalls | Dapper.UnitOfWork/UnitOfWork.cs:302-303 | a failed flush called the entries up to the one that threw, in queue order |
| Flush.WrittenUntargeted | Dapper.UnitOfWork/Commands/CommandItem.cs:53 | an entity that no queued entry targets keeps all its properties through a flush |
| Flush.WrittenKeepsKeys | Dapper.UnitOfWork/Commands/CommandItem.cs:53 | writing back generated ids over a whole flush never adds or removes a property |
| Flush.IdTargetsOnResult | Dapper.UnitOfWork/Commands/CommandItem.cs:51-55 | measured against the entities' properties when the flush started: a flush that returned found the named property of every generated-id entry; an entry whose scalar came back and still threw lacked its property or its name, and threw `PropertyNotFound(name)` or `NullPropertyName` accordingly |
| DapperUnitOfWork.ScopedSaveCommitsOnce | Dapper.UnitOfWork/UnitOfWork.cs:287-297 | the scoped save begins exactly one transaction, runs every entry in order under that handle, commits it exactly once when the flush completed and never otherwise, disposes it once begun, and returns the total exactly when the transaction was begun, the flush completed and the commit replied done |
| DapperUnitOfWork.UnscopedSaveBeginsNothing | Dapper.UnitOfWork/UnitOfWork.cs:98-99 | the non-scoped save makes no transaction call and runs every statement with no transaction; the queue is cleared exactly when it returns the total |
| DapperUnitOfWork.BeginFromIdle | Dapper.UnitOfWork/UnitOfWork.cs:34-44 | a returning `BeginTransaction` from Idle holds a new handle at the requested level with the queue emptied; two or more pending entries were first run under a scoped transaction (begin, a commit that succeeded, dispose), one was run with no transaction |
| DapperUnitOfWork.AddInTransactionFlushesAll | Dapper.UnitOfWork/UnitOfWork.cs:65-66 | with a transaction open, a returning `AddCommand` ran the earlier entries in order and then the new one, all under the open handle, and returned their unchecked sum |
| DapperUnitOfWork.UnitOfWork.constructor | Dapper.UnitOfWork/UnitOfWork.cs:20-23 | stores the connection with an empty queue and no transaction |
| DapperUnitOfWork.UnitOfWork.Create | Dapper.UnitOfWork/UnitOfWork.cs:20-26 | `new UnitOfWork(connection)`: the connection is opened (one Open call) exactly when it was Closed; when that Open throws, the database error escapes and no unit of work is handed out; otherwise the result holds an empty queue and no transaction |
| DapperUnitOfWork.UnitOfWork.ApplyChanges | Dapper.UnitOfWork/UnitOfWork.cs:298-308 | the log grows by a flush of the queue under the given transaction; the queue is emptied when it returns and left whole when an entry throws; the exception is that entry's own (database error, or its generated-id configuration error); a generated-id entry whose scalar came back returned exactly when its entity had the named property |
| DapperUnitOfWork.UnitOfWork.ApplyChangesWithTransaction | Dapper.UnitOfWork/UnitOfWork.cs:287-297 | begins a transaction at the provider's default level that the instance never stores, flushes under it, commits after a completed flush, and disposes it on every exit once begun; the flush's generated-id entries returned exactly when their entity had the named property |
| DapperUnitOfWork.UnitOfWork.CommitAndDispose | Dapper.UnitOfWork/UnitOfWork.cs:289-296 | commits only when the flush returned, a failed commit replacing the total by the error, then disposes the handle on either path |
| DapperUnitOfWork.UnitOfWork.SaveChanges | Dapper.UnitOfWork/UnitOfWork.cs:94-100 | more than one entry and no transaction takes the scoped path; otherwise the queue is flushed with no transaction; the instance's transaction is never changed; generated-id entries that executed returned exactly when their entity had the named property; after disposal it throws |
| DapperUnitOfWork.UnitOfWork.SaveUnscoped | Dapper.UnitOfWork/UnitOfWork.cs:98-99 | `SaveChanges` off the scoped path: the queue is flushed with no transaction whatever the instance holds, cleared exactly when the flush returned, and its generated-id entries returned exactly when their entity had the named property |
| DapperUnitOfWork.UnitOfWork.AddCommand | Dapper.UnitOfWork/UnitOfWork.cs:60-69 | Idle: appends one entry at the end, returns 0 and calls nothing; with a transaction open: flushes the whole queue under it and empties it on return; after disposal it throws |
| DapperUnitOfWork.UnitOfWork.AddCommandWithParams | Dapper.UnitOfWork/UnitOfWork.cs:71-80 | as `AddCommand`, for an entry carrying parameters |
| DapperUnitOfWork.UnitOfWork.AddCommandWithGeneratedId | Dapper.UnitOfWork/UnitOfWork.cs:82-91 | as `AddCommand`, for an entry with a generated-id target; the generated ids land in the related entities as the flush's executions dictate, and with a transaction open a generated-id entry whose scalar came back returned exactly when its entity had the named property, so the call returns only if every such property exists |
| DapperUnitOfWork.UnitOfWork.BeginTransaction | Dapper.UnitOfWork/UnitOfWork.cs:31-44 | with a transaction open, nothing happens; from Idle, pending entries are saved first and a transaction at the level (ReadCommitted by default) is begun and kept only if that save returned; after disposal it throws |
| DapperUnitOfWork.UnitOfWork.SaveThenOpen | Dapper.UnitOfWork/UnitOfWork.cs:39-43 | from Idle with entries pending: `SaveChanges`, then the begin only if the save returned |
| DapperUnitOfWork.UnitOfWork.OpenTransaction | Dapper.UnitOfWork/UnitOfWork.cs:42-43 | one begin call at the requested level; the new handle is stored, or the instance stays Idle when it throws |
| DapperUnitOfWork.UnitOfWork.Commit | Dapper.UnitOfWork/UnitOfWork.cs:46-50 | Idle: no call; with a transaction: exactly one commit on that handle; the queue and the handle are kept |
| DapperUnitOfWork.UnitOfWork.RollBack | Dapper.UnitOfWork/UnitOfWork.cs:52-56 | Idle: no call; with a transaction: exactly one rollback on that handle; the queue and the handle are kept |
| DapperUnitOfWork.UnitOfWork.Dispose | Dapper.UnitOfWork/UnitOfWork.cs:262-284 | the first call closes and disposes the connection once, drops the queue, disposes any transaction and nulls all three; a second call makes no call and changes nothing |

## Left out

- The read and query surface (`Dapper.UnitOfWork/UnitOfWork.cs:103-258`:
  `ExecuteReader`, `ExecuteScalar`, `Query*`, `QueryMultiple` and their async
  forms). Each one forwards to Dapper with the current transaction and has no
  logic of its own.
- `IUnitOfWork.cs` has signatures only. The three `AddCommand` overloads
  cannot share a name in Dafny. They are `AddCommand`, `AddCommandWithParams`
  and `AddCommandWithGeneratedId`. The two `BeginTransaction` overloads are
  one method with a default argument.
- SQL execution, parameter binding and result materialisation are not
  modelled. The database's answers are nondeterministic. Parameters are an
  opaque value that is passed through. Rows affected and scalars are 32-bit
  ints. `Open`, `BeginTransaction`, `Execute`, `ExecuteScalar`, `Commit` and
  `Rollback` may each throw a database error.
- The collaborator keeps no transaction state. Using a handle that has
  already been committed or rolled back is covered only by "`Commit` and
  `Rollback` may throw".
- `Close` and `Dispose` of the connection and `Dispose` of a transaction are
  modelled as never throwing. So `Dispose` of the unit of work always
  reaches the transaction's disposal, which a throwing connection `Dispose`
  would skip.
- A null connection passed to the constructor is ruled out by the
  parameter's non-null type; the source would throw `NullReference` on it.
- Reflection: entity properties are int-valued only. `SetValue` of an int
  into a property of another type is not modelled. A getter-only property
  is not modelled either: `GetProperty` finds it and `SetValue` then throws
  `ArgumentException` after the scalar query has run. The model has no such
  property, and so no such error.
- Isolation levels are an opaque enumeration with no semantics.
- The finalizer path `Dispose(false)` and `GC.SuppressFinalize` are left
  out, because they have no observable effect on the model.
- Async `Task` behaviour and concurrency are left out. The class is
  unsynchronised and meant for single-threaded use.
- The entry's `Connection` property is kept as the connection the entry
  executes on. Every entry the unit of work queues holds its own connection,
  and `Valid()` states that.
