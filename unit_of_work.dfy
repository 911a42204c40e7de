/**
 * `UnitOfWork`: a connection, an optional open transaction and an ordered
 * queue of pending writes. Idle (no transaction) it only queues; with a
 * transaction open every `AddCommand` flushes the whole queue under it.
 */
module DapperUnitOfWork {
  import opened Wrappers
  import opened Int32
  import opened Database
  import opened Commands
  import opened Flush

  /**
   * `ApplyChangesWithTransaction` on the queue `items`: begin a transaction at
   * the provider's default level, flush under it, commit only when the flush
   * completed, and dispose the handle on every path once it exists.
   * `cleared` says whether the flush completed (and so emptied the queue).
   */
  ghost predicate ScopedLog(items: seq<CommandItem>, seg: seq<Event>, r: Result<int32>, cleared: bool) {
    || (seg == [Event(BeginTransaction(None), Failed)] && r == Err(DatabaseError) && (cleared <==> items == []))
    || (&& 0 < |seg| && seg[0].call == BeginTransaction(None) && seg[0].reply.Began?
        && UsingBlock(items, seg[0].reply.handle, seg[1..], r, cleared))
  }

  /** The `using` block on the scoped handle `t`: its body, then the handle's disposal. */
  ghost predicate UsingBlock(items: seq<CommandItem>, t: Transaction, rest: seq<Event>, r: Result<int32>, cleared: bool) {
    && 0 < |rest|
    && rest[|rest| - 1] == Event(DisposeTransaction(t), Done)
    && FlushThenCommit(items, t, rest[..|rest| - 1], r, cleared)
  }

  /**
   * The body of the `using` block: the flush under `t`, then, only when it
   * completed, the commit, whose failure replaces the flush's total.
   */
  ghost predicate FlushThenCommit(items: seq<CommandItem>, t: Transaction, body: seq<Event>, r: Result<int32>, cleared: bool) {
    || (&& cleared
        && |body| == |items| + 1
        && IsFlush(items, Some(t), body[..|items|])
        && body[|items|].call == Commit(t)
        && (body[|items|].reply == Done || body[|items|].reply == Failed)
        && r == (if body[|items|].reply == Done then Ok(FlushTotal(body[..|items|])) else Err(DatabaseError)))
    || (!cleared && r.Err? && ApplyLog(items, Some(t), body, r))
  }

  /**
   * `SaveChanges` with the queue `items` and the instance's `transaction`:
   * more than one entry and no transaction open takes the scoped path;
   * otherwise `ApplyChanges()` runs with its default argument, no transaction,
   * whatever `transaction` holds.
   */
  ghost predicate SaveLog(items: seq<CommandItem>, transaction: Option<Transaction>, seg: seq<Event>, r: Result<int32>, cleared: bool) {
    || (|items| > 1 && transaction.None? && ScopedLog(items, seg, r, cleared))
    || (!(|items| > 1 && transaction.None?) && ApplyLog(items, None, seg, r) && cleared == r.Ok?)
  }

  /** `AddCommand` appending `item` to `items` with the instance's `transaction`. */
  ghost predicate AddLog(items: seq<CommandItem>, item: CommandItem, transaction: Option<Transaction>, seg: seq<Event>, r: Result<int32>) {
    if transaction.None? then seg == [] && r == Ok(0)
    else ApplyLog(items + [item], transaction, seg, r)
  }

  /**
   * The last step of `BeginTransaction(level)`: one call that either hands
   * out a handle at `level`, which becomes the instance's transaction, or
   * throws and leaves the instance without one.
   */
  ghost predicate BeginStep(level: IsolationLevel, seg: seq<Event>, r: Outcome, after: Option<Transaction>) {
    && |seg| == 1 && seg[0].call == BeginTransaction(Some(level))
    && ((seg[0].reply.Began? && seg[0].reply.handle.level == Some(level) && r == Pass && after == Some(seg[0].reply.handle))
        || (seg[0].reply == Failed && r == Fail(DatabaseError) && after == None))
  }

  /**
   * `BeginTransaction(level)` from Idle with the queue `items`: a non-empty
   * queue is first saved through `SaveChanges` (with no instance
   * transaction), and a transaction is begun only if that save returned;
   * `after` is the instance's transaction afterwards.
   */
  ghost predicate BeginLog(items: seq<CommandItem>, level: IsolationLevel, seg: seq<Event>, r: Outcome,
                           cleared: bool, after: Option<Transaction>) {
    || (items == [] && BeginStep(level, seg, r, after))
    || (items != [] && exists s: Result<int32> ::
          || (s.Err? && SaveLog(items, None, seg, s, cleared) && r == Fail(s.error) && after == None)
          || (s.Ok? && 0 < |seg| && SaveLog(items, None, seg[..|seg| - 1], s, cleared)
              && BeginStep(level, seg[|seg| - 1..], r, after)))
  }

  /** The body of the `using` block: the flush's executions, then at most the one commit. */
  lemma {:induction false} FlushThenCommitShape(items: seq<CommandItem>, t: Transaction, body: seq<Event>, r: Result<int32>, cleared: bool)
    requires FlushThenCommit(items, t, body, r, cleared)
    ensures Controls(body) == if cleared then [Commit(t)] else []
    ensures cleared ==> IsFlush(items, Some(t), Executions(body))
                        && (r.Ok? ==> r.value == FlushTotal(Executions(body)))
                        && (r.Err? ==> r.error == DatabaseError)
    ensures !cleared ==> r.Err? && ApplyLog(items, Some(t), Executions(body), r)
  {
    if cleared {
      var flushed := body[..|items|];
      var commit := body[|items|];
      assert body == flushed + [commit];
      FlushUsesOneTransaction(items, Some(t), flushed);
      Single(commit);
      ControlsAppend(flushed, [commit]);
      ExecutionsAppend(flushed, [commit]);
      assert Executions(body) == flushed;
    } else {
      FlushUsesOneTransaction(items, Some(t), body);
    }
  }

  /** The `using` block: the body's calls, then the disposal of the handle. */
  lemma {:induction false} UsingBlockShape(items: seq<CommandItem>, t: Transaction, rest: seq<Event>, r: Result<int32>, cleared: bool)
    requires UsingBlock(items, t, rest, r, cleared)
    ensures Controls(rest) == (if cleared then [Commit(t)] else []) + [DisposeTransaction(t)]
    ensures cleared ==> IsFlush(items, Some(t), Executions(rest))
                        && (r.Ok? ==> r.value == FlushTotal(Executions(rest)))
                        && (r.Err? ==> r.error == DatabaseError)
    ensures !cleared ==> r.Err? && ApplyLog(items, Some(t), Executions(rest), r)
  {
    var body := rest[..|rest| - 1];
    var dispose := rest[|rest| - 1];
    assert rest == body + [dispose];
    FlushThenCommitShape(items, t, body, r, cleared);
    Single(dispose);
    ControlsAppend(body, [dispose]);
    ExecutionsAppend(body, [dispose]);
    assert Executions(rest) == Executions(body);
  }

  /** A scoped save whose transaction was begun: the begin, then the `using` block. */
  lemma {:induction false} ScopedBeganShape(items: seq<CommandItem>, t: Transaction, seg: seq<Event>, r: Result<int32>, cleared: bool)
    requires 0 < |seg| && seg[0] == Event(BeginTransaction(None), Began(t))
    requires UsingBlock(items, t, seg[1..], r, cleared)
    ensures Controls(seg) == [BeginTransaction(None)] + (if cleared then [Commit(t)] else []) + [DisposeTransaction(t)]
    ensures Executions(seg) == Executions(seg[1..])
  {
    var rest := seg[1..];
    assert seg == [seg[0]] + rest;
    Single(seg[0]);
    UsingBlockShape(items, t, rest, r, cleared);
    ControlsAppend([seg[0]], rest);
    ExecutionsAppend([seg[0]], rest);
  }

  /**
   * A scoped save begins exactly one transaction at the provider's default
   * level. Once begun, every statement runs under that handle, in queue
   * order, and the handle is disposed. It is committed exactly once when the
   * flush completed (the queue was cleared) and never otherwise; the total
   * is returned only when that commit succeeded.
   */
  lemma {:induction false} ScopedSaveCommitsOnce(items: seq<CommandItem>, seg: seq<Event>, r: Result<int32>, cleared: bool)
    requires ScopedLog(items, seg, r, cleared)
    ensures 0 < |seg| && seg[0].call == BeginTransaction(None) && (seg[0].reply.Began? || seg[0].reply.Failed?)
    ensures seg[0].reply.Failed? ==>
      |seg| == 1 && r == Err(DatabaseError) && Controls(seg) == [BeginTransaction(None)] && Executions(seg) == []
    ensures seg[0].reply.Began? ==>
      var t := seg[0].reply.handle;
      && Controls(seg) == [BeginTransaction(None)] + (if cleared then [Commit(t)] else []) + [DisposeTransaction(t)]
      && (cleared ==> IsFlush(items, Some(t), Executions(seg))
                      && (r.Ok? ==> r.value == FlushTotal(Executions(seg)))
                      && (r.Err? ==> r.error == DatabaseError))
      && (!cleared ==> r.Err? && ApplyLog(items, Some(t), Executions(seg), r))
    ensures r.Ok? ==> seg[0].reply.Began? && cleared
    ensures r.Ok? <==> seg[0].reply.Began? && cleared && 2 <= |seg| && seg[|seg| - 2] == Event(Commit(seg[0].reply.handle), Done)
  {
    if seg[0].reply.Began? {
      var t := seg[0].reply.handle;
      ScopedBeganShape(items, t, seg, r, cleared);
      UsingBlockShape(items, t, seg[1..], r, cleared);
    } else {
      Single(seg[0]);
    }
  }

  /**
   * A save that does not take the scoped path begins, commits and rolls back
   * nothing, and runs every statement with no transaction at all, whatever
   * the instance holds. It returns the total exactly when the queue was
   * cleared, and otherwise stopped at the entry that threw.
   */
  lemma {:induction false} UnscopedSaveBeginsNothing(items: seq<CommandItem>, transaction: Option<Transaction>, seg: seq<Event>,
                                  r: Result<int32>, cleared: bool)
    requires SaveLog(items, transaction, seg, r, cleared) && !(|items| > 1 && transaction.None?)
    ensures Controls(seg) == [] && Executions(seg) == seg
    ensures forall i :: 0 <= i < |seg| ==> seg[i].call.transaction == None
    ensures cleared <==> r.Ok?
    ensures r.Ok? ==> IsFlush(items, None, seg) && r.value == FlushTotal(seg)
    ensures r.Err? ==> IsFailedFlush(items, None, seg)
  {
    FlushUsesOneTransaction(items, None, seg);
  }

  /**
   * A successful `BeginTransaction(level)` from Idle ends holding a handle at
   * `level` with the queue emptied. With two or more entries pending, the
   * save before it ran inside its own scoped transaction, committed and
   * disposed before the instance's one was begun; with one entry or none it
   * ran with no transaction.
   */
  lemma {:induction false} BeginFromIdle(items: seq<CommandItem>, level: IsolationLevel, seg: seq<Event>, r: Outcome,
                      cleared: bool, after: Option<Transaction>)
    requires BeginLog(items, level, seg, r, cleared, after) && r.Pass?
    ensures after.Some? && after.value.level == Some(level)
    ensures cleared || items == []
    ensures 0 < |seg| && seg[|seg| - 1] == Event(BeginTransaction(Some(level)), Began(after.value))
    ensures |items| > 1 ==>
      && seg[0].reply.Began?
      && Controls(seg) == [BeginTransaction(None), Commit(seg[0].reply.handle),
                           DisposeTransaction(seg[0].reply.handle), BeginTransaction(Some(level))]
      && IsFlush(items, Some(seg[0].reply.handle), Executions(seg))
      && 3 <= |seg| && seg[|seg| - 3] == Event(Commit(seg[0].reply.handle), Done)
    ensures |items| <= 1 ==>
      Controls(seg) == [BeginTransaction(Some(level))] && IsFlush(items, None, Executions(seg))
  {
    var s := PassedBeginParts(items, level, seg, r, cleared, after);
    BeginStepLast(level, seg, r, after);
    var saved := seg[..|seg| - 1];
    if |items| > 1 {
      ScopedSaveCommitsOnce(items, saved, s, cleared);
      assert seg[0] == saved[0] && seg[|seg| - 3] == saved[|saved| - 2];
    } else if items != [] {
      UnscopedSaveBeginsNothing(items, None, saved, s, cleared);
    }
  }

  /** A begin that handed out a handle is the last call, and the only control call it adds. */
  lemma {:induction false} BeginStepLast(level: IsolationLevel, seg: seq<Event>, r: Outcome, after: Option<Transaction>)
    requires 0 < |seg| && BeginStep(level, seg[|seg| - 1..], r, after) && r.Pass?
    ensures after.Some? && after.value.level == Some(level)
    ensures seg[|seg| - 1] == Event(BeginTransaction(Some(level)), Began(after.value))
    ensures Controls(seg) == Controls(seg[..|seg| - 1]) + [BeginTransaction(Some(level))]
    ensures Executions(seg) == Executions(seg[..|seg| - 1])
  {
    var saved := seg[..|seg| - 1];
    var last := seg[|seg| - 1];
    assert seg == saved + [last] && seg[|seg| - 1..] == [last];
    Single(last);
    ControlsAppend(saved, [last]);
    ExecutionsAppend(saved, [last]);
  }

  /** A `BeginTransaction` from Idle that returned: a save that returned (if any entries were pending), then the begin. */
  lemma {:induction false} PassedBeginParts(items: seq<CommandItem>, level: IsolationLevel, seg: seq<Event>, r: Outcome,
                                            cleared: bool, after: Option<Transaction>) returns (s: Result<int32>)
    requires BeginLog(items, level, seg, r, cleared, after) && r.Pass?
    ensures 0 < |seg| && BeginStep(level, seg[|seg| - 1..], r, after)
    ensures items == [] ==> |seg| == 1
    ensures items != [] ==> s.Ok? && SaveLog(items, None, seg[..|seg| - 1], s, cleared)
  {
    if items == [] {
      s := Ok(0);
    } else {
      s :| || (s.Err? && SaveLog(items, None, seg, s, cleared) && r == Fail(s.error) && after == None)
           || (s.Ok? && 0 < |seg| && SaveLog(items, None, seg[..|seg| - 1], s, cleared)
               && BeginStep(level, seg[|seg| - 1..], r, after));
    }
  }

  /**
   * With a transaction open, a returning `AddCommand` has run the whole
   * queue, not only the new entry: the earlier entries in order, then the
   * new one, all under the open handle and with no transaction control, and
   * it returns their unchecked sum.
   */
  lemma {:induction false} AddInTransactionFlushesAll(items: seq<CommandItem>, item: CommandItem, t: Transaction,
                                   seg: seq<Event>, r: Result<int32>)
    requires AddLog(items, item, Some(t), seg, r) && r.Ok?
    ensures |seg| == |items| + 1 && Controls(seg) == []
    ensures forall i :: 0 <= i < |seg| ==> seg[i].call.transaction == Some(t)
    ensures IsFlush(items, Some(t), seg[..|items|])
    ensures seg[|items|].call == CallFor(item, Some(t)) && seg[|items|].reply.Value?
    ensures r.value == Add(FlushTotal(seg[..|items|]), Contribution(seg[|items|]))
  {
    IsFlushAppend(items, [item], Some(t), seg);
    FlushUsesOneTransaction(items + [item], Some(t), seg);
    assert seg[|items|..][0] == seg[|items|];
    assert seg == seg[..|items|] + [seg[|items|]];
  }

  lemma AppendAssoc(log: seq<Event>, begin: Event, flushed: seq<Event>, commitPart: seq<Event>, dispose: Event)
    ensures log + [begin] + flushed + commitPart + [dispose] == log + ([begin] + flushed + commitPart + [dispose])
  {
  }

  /** The scoped path's log when the transaction could not be begun. */
  lemma ScopedLogBeginFailed(items: seq<CommandItem>, seg: seq<Event>, r: Result<int32>, cleared: bool)
    requires seg == [Event(BeginTransaction(None), Failed)] && r == Err(DatabaseError)
    requires cleared <==> items == []
    ensures ScopedLog(items, seg, r, cleared) && Executions(seg) == []
  {
    assert seg[..0] == [];
  }

  /** The body of the `using` block, from the outcome of the flush and of the commit. */
  lemma FlushThenCommitIntro(items: seq<CommandItem>, t: Transaction, flushed: seq<Event>, applied: Result<int32>,
                             commitPart: seq<Event>, r: Result<int32>)
    requires ApplyLog(items, Some(t), flushed, applied)
    requires applied.Err? ==> commitPart == [] && r == applied
    requires applied.Ok? ==>
      && |commitPart| == 1 && commitPart[0].call == Commit(t)
      && (commitPart[0].reply == Done || commitPart[0].reply == Failed)
      && r == (if commitPart[0].reply == Done then applied else Err(DatabaseError))
    ensures FlushThenCommit(items, t, flushed + commitPart, r, applied.Ok?)
  {
    if applied.Ok? {
      var body := flushed + commitPart;
      assert body[..|items|] == flushed;
      assert body[|items|] == commitPart[0];
    } else {
      assert flushed + commitPart == flushed;
    }
  }

  /** The statement executions of the scoped path are exactly those of its flush. */
  lemma ScopedExecutions(items: seq<CommandItem>, t: Transaction, flushed: seq<Event>, applied: Result<int32>,
                         commitPart: seq<Event>, seg: seq<Event>)
    requires ApplyLog(items, Some(t), flushed, applied)
    requires |commitPart| <= 1 && (|commitPart| == 1 ==> commitPart[0].call == Commit(t))
    requires seg == [Event(BeginTransaction(None), Began(t))] + flushed + commitPart + [Event(DisposeTransaction(t), Done)]
    ensures Executions(seg) == flushed
  {
    var beginEvent := Event(BeginTransaction(None), Began(t));
    var begun := [beginEvent] + flushed;
    assert Executions(begun) == flushed by {
      FlushUsesOneTransaction(items, Some(t), flushed);
      ExecutionsSnoc([], beginEvent);
      ExecutionsAppend([beginEvent], flushed);
    }
    assert Executions(begun + commitPart) == flushed by {
      if |commitPart| == 1 {
        assert commitPart == [commitPart[0]];
        ExecutionsSnoc(begun, commitPart[0]);
      } else {
        assert begun + commitPart == begun;
      }
    }
    ExecutionsSnoc(begun + commitPart, Event(DisposeTransaction(t), Done));
  }

  /** The scoped path's log, assembled from the outcome of its flush and of its commit. */
  lemma ScopedLogIntro(items: seq<CommandItem>, t: Transaction, flushed: seq<Event>, applied: Result<int32>,
                       commitPart: seq<Event>, r: Result<int32>, seg: seq<Event>)
    requires ApplyLog(items, Some(t), flushed, applied)
    requires applied.Err? ==> commitPart == [] && r == applied
    requires applied.Ok? ==>
      && |commitPart| == 1 && commitPart[0].call == Commit(t)
      && (commitPart[0].reply == Done || commitPart[0].reply == Failed)
      && r == (if commitPart[0].reply == Done then applied else Err(DatabaseError))
    requires seg == [Event(BeginTransaction(None), Began(t))] + flushed + commitPart + [Event(DisposeTransaction(t), Done)]
    ensures ScopedLog(items, seg, r, applied.Ok?) && Executions(seg) == flushed
  {
    var rest := flushed + commitPart + [Event(DisposeTransaction(t), Done)];
    FlushThenCommitIntro(items, t, flushed, applied, commitPart, r);
    assert rest[..|rest| - 1] == flushed + commitPart;
    assert UsingBlock(items, t, rest, r, applied.Ok?);
    assert seg[1..] == rest;
    ScopedExecutions(items, t, flushed, applied, commitPart, seg);
  }

  /**
   * `BeginTransaction` from Idle after a save that returned: the log is the
   * save's segment followed by the one begin call.
   */
  lemma {:induction false} BeginAfterSave(items: seq<CommandItem>, level: IsolationLevel, before: seq<Event>,
                                          saved: seq<Event>, step: seq<Event>, after: seq<Event>, s: Result<int32>,
                                          cleared: bool, r: Outcome, tx: Option<Transaction>)
    requires items != [] && s.Ok? && SaveLog(items, None, saved, s, cleared)
    requires after == before + saved + step
    requires |step| == 1 && step[0].call == BeginTransaction(Some(level))
    requires step[0].reply.Failed? ==> r == Fail(DatabaseError) && tx == None
    requires step[0].reply.Began? ==> step[0].reply.handle.level == Some(level) && r == Pass && tx == Some(step[0].reply.handle)
    requires step[0].reply.Began? || step[0].reply.Failed?
    ensures |before| <= |after| && after[..|before|] == before && after[|before|..] == saved + step
    ensures BeginLog(items, level, after[|before|..], r, cleared, tx)
    ensures Executions(after[|before|..]) == Executions(saved)
  {
    var seg := saved + step;
    assert after[|before|..] == seg;
    assert seg[..|seg| - 1] == saved && seg[|seg| - 1..] == step;
    assert BeginStep(level, step, r, tx);
    Single(step[0]);
    ExecutionsAppend(saved, step);
  }

  /** `BeginTransaction` from Idle when the save before it threw: nothing is begun. */
  lemma {:induction false} BeginAfterFailedSave(items: seq<CommandItem>, level: IsolationLevel, seg: seq<Event>,
                                                s: Result<int32>, cleared: bool, tx: Option<Transaction>)
    requires items != [] && s.Err? && SaveLog(items, None, seg, s, cleared) && tx == None
    ensures BeginLog(items, level, seg, Fail(s.error), cleared, tx)
  {
  }

  class UnitOfWork {
    /** The connection given to the constructor; it outlives the `connection` field. */
    ghost const db: Connection
    var disposed: bool
    var connection: Connection?
    var transaction: Option<Transaction>
    var commandsList: Option<seq<CommandItem>>

    /** Disposal nulls the three members together; every queued entry runs on `db`. */
    ghost predicate Valid()
      reads this
    {
      && (disposed <==> connection == null)
      && (disposed <==> commandsList.None?)
      && (!disposed ==> connection == db)
      && (disposed ==> transaction.None?)
      && (commandsList.Some? ==> forall i :: 0 <= i < |commandsList.value| ==> commandsList.value[i].connection == db)
    }

    /** The pending entries; none once the list has been nulled. */
    ghost function Queue(): (q: seq<CommandItem>)
      reads this
    {
      if commandsList.Some? then commandsList.value else []
    }

    /** Stores the connection, a null transaction and an empty queue. */
    constructor (connection: Connection)
      ensures Valid() && db == connection && this.connection == connection
      ensures !disposed && transaction == None && commandsList == Some([])
    {
      db := connection;
      this.connection := connection;
      commandsList := Some([]);
      transaction := None;
      disposed := false;
    }

    /**
     * `new UnitOfWork(connection)`: builds the unit of work and opens the
     * connection when it is Closed (and only then); when that Open throws,
     * the exception escapes the constructor and no unit of work is handed out.
     */
    static method Create(connection: Connection) returns (r: Result<UnitOfWork>)
      modifies connection
      ensures connection.nextId == old(connection.nextId)
      ensures r.Ok? ==> fresh(r.value) && r.value.Valid() && r.value.db == connection
      ensures r.Ok? ==> !r.value.disposed && r.value.transaction == None && r.value.Queue() == []
      ensures r.Err? <==> old(connection.state) == Closed && connection.log == old(connection.log) + [Event(OpenConnection, Failed)]
      ensures r.Err? ==> r.error == DatabaseError && connection.state == Closed
      ensures old(connection.state) == Closed && r.Ok? ==>
        connection.state == ConnectionState.Open && connection.log == old(connection.log) + [Event(OpenConnection, Done)]
      ensures old(connection.state) != Closed ==>
        r.Ok? && connection.state == old(connection.state) && connection.log == old(connection.log)
    {
      var u := new UnitOfWork(connection);
      if connection.state == Closed {
        var outcome := connection.Open();
        if outcome.Fail? {
          return Err(outcome.error);
        }
        assert connection.log[|old(connection.log)|].reply == Done;
      }
      r := Ok(u);
    }

    /**
     * `ApplyChanges`: executes every queued entry in order under `tx`, adding
     * up the results unchecked, and clears the queue only once the loop has
     * finished; an entry that throws leaves the whole queue in place.
     */
    method ApplyChanges(tx: Option<Transaction> := None) returns (r: Result<int32>)
      requires Valid() && !disposed
      modifies db, this`commandsList, Entities(Queue())
      ensures Valid() && !disposed
      ensures db.state == old(db.state) && db.nextId == old(db.nextId)
      ensures |old(db.log)| <= |db.log| && db.log[..|old(db.log)|] == old(db.log)
      ensures ApplyLog(old(Queue()), tx, db.log[|old(db.log)|..], r)
      ensures Queue() == if r.Ok? then [] else old(Queue())
      ensures forall e :: e in Entities(old(Queue())) ==>
        e.properties == Written(e, old(e.properties), old(Queue()), db.log[|old(db.log)|..])
      ensures var seg := db.log[|old(db.log)|..]; IdTargetsAgree(old(Queue()), seg, r.Ok?, old(PropertiesOf(Entities(Queue()))))
    {
      var items := commandsList.value;
      ghost var seg;
      r, seg := Run(items, connection, tx);
      if r.Ok? {
        commandsList := Some([]);
      }
      Extends(old(db.log), seg, db.log);
    }

    /**
     * `ApplyChangesWithTransaction`: a transaction scoped to this call, never
     * stored in the instance, committed after a completed flush and disposed
     * on every exit once begun.
     */
    method ApplyChangesWithTransaction() returns (r: Result<int32>)
      requires Valid() && !disposed
      modifies db, this`commandsList, Entities(Queue())
      ensures Valid() && !disposed
      ensures db.state == old(db.state)
      ensures |old(db.log)| <= |db.log| && db.log[..|old(db.log)|] == old(db.log)
      ensures ScopedLog(old(Queue()), db.log[|old(db.log)|..], r, Queue() == [])
      ensures Queue() == [] || Queue() == old(Queue())
      ensures forall e :: e in Entities(old(Queue())) ==>
        e.properties == Written(e, old(e.properties), old(Queue()), Executions(db.log[|old(db.log)|..]))
      ensures var execs, cleared := Executions(db.log[|old(db.log)|..]), Queue() == [];
        IdTargetsAgree(old(Queue()), execs, cleared, old(PropertiesOf(Entities(Queue()))))
    {
      ghost var items := Queue();
      ghost var snapshot := PropertiesOf(Entities(items));
      var began := connection.BeginTransaction(None);
      if began.Err? {
        r := Err(began.error);
        Extends(old(db.log), [Event(Call.BeginTransaction(None), Failed)], db.log);
        ScopedLogBeginFailed(items, db.log[|old(db.log)|..], r, Queue() == []);
        return;
      }
      var t := began.value;
      ghost var start := |db.log|;
      var applied := ApplyChanges(Some(t));
      ghost var flushed := db.log[start..];
      ghost var cleared := Queue() == [];
      assert ApplyLog(items, Some(t), flushed, applied);
      assert IdTargetsAgree(items, flushed, applied.Ok?, snapshot);
      assert cleared == applied.Ok? by {
        if applied.Err? {
          assert |flushed| <= |items|;
        }
      }
      assert db.log == old(db.log) + [Event(Call.BeginTransaction(None), Began(t))] + flushed;
      ghost var commitPart;
      r, commitPart := CommitAndDispose(t, applied);
      ghost var seg := [Event(Call.BeginTransaction(None), Began(t))] + flushed + commitPart
                       + [Event(Call.DisposeTransaction(t), Done)];
      AppendAssoc(old(db.log), Event(Call.BeginTransaction(None), Began(t)), flushed, commitPart,
                  Event(Call.DisposeTransaction(t), Done));
      Extends(old(db.log), seg, db.log);
      ScopedLogIntro(items, t, flushed, applied, commitPart, r, seg);
    }

    /**
     * The end of the scoped transaction's `using` block: commit only when the
     * flush returned, then dispose the handle on either path.
     */
    method CommitAndDispose(t: Transaction, applied: Result<int32>) returns (r: Result<int32>, ghost commitPart: seq<Event>)
      requires Valid() && !disposed
      modifies db
      ensures db.state == old(db.state)
      ensures db.log == old(db.log) + commitPart + [Event(Call.DisposeTransaction(t), Done)]
      ensures applied.Err? ==> commitPart == [] && r == applied
      ensures applied.Ok? ==>
        && |commitPart| == 1 && commitPart[0].call == Call.Commit(t)
        && (commitPart[0].reply == Done || commitPart[0].reply == Failed)
        && r == (if commitPart[0].reply == Done then applied else Err(DatabaseError))
    {
      r, commitPart := applied, [];
      if applied.Ok? {
        var committed := connection.Commit(t);
        commitPart := [Event(Call.Commit(t), ReplyOfOutcome(committed))];
        if committed.Fail? {
          r := Err(committed.error);
        }
      }
      connection.DisposeTransaction(t);
    }

    /**
     * `SaveChanges`: with more than one entry pending and no transaction open,
     * a scoped transaction; otherwise `ApplyChanges()`, which runs with no
     * transaction at all.
     */
    method SaveChanges() returns (r: Result<int32>)
      requires Valid()
      modifies this, db, Entities(Queue())
      ensures Valid() && disposed == old(disposed) && transaction == old(transaction) && connection == old(connection)
      ensures db.state == old(db.state)
      ensures |old(db.log)| <= |db.log| && db.log[..|old(db.log)|] == old(db.log)
      ensures old(disposed) ==> r == Err(NullReference) && db.log == old(db.log)
      ensures !old(disposed) ==> SaveLog(old(Queue()), old(transaction), db.log[|old(db.log)|..], r, Queue() == [])
      ensures Queue() == [] || Queue() == old(Queue())
      ensures forall e :: e in Entities(old(Queue())) ==>
        e.properties == Written(e, old(e.properties), old(Queue()), Executions(db.log[|old(db.log)|..]))
      ensures var execs, cleared := Executions(db.log[|old(db.log)|..]), Queue() == [];
        IdTargetsAgree(old(Queue()), execs, cleared, old(PropertiesOf(Entities(Queue()))))
    {
      if commandsList.None? {
        r := Err(NullReference);
        return;
      }
      if |commandsList.value| > 1 && transaction.None? {
        r := ApplyChangesWithTransaction();
      } else {
        r := SaveUnscoped();
      }
    }

    /**
     * `SaveChanges` off the scoped path: `ApplyChanges()` with its default
     * argument, so no transaction, whatever the instance holds.
     */
    method SaveUnscoped() returns (r: Result<int32>)
      requires Valid() && !disposed && !(|Queue()| > 1 && transaction.None?)
      modifies this`commandsList, db, Entities(Queue())
      ensures Valid() && !disposed
      ensures db.state == old(db.state)
      ensures |old(db.log)| <= |db.log| && db.log[..|old(db.log)|] == old(db.log)
      ensures SaveLog(old(Queue()), transaction, db.log[|old(db.log)|..], r, Queue() == [])
      ensures Queue() == [] || Queue() == old(Queue())
      ensures forall e :: e in Entities(old(Queue())) ==>
        e.properties == Written(e, old(e.properties), old(Queue()), Executions(db.log[|old(db.log)|..]))
      ensures IdTargetsAgree(old(Queue()), Executions(db.log[|old(db.log)|..]), Queue() == [], old(PropertiesOf(Entities(Queue()))))
    {
      ghost var items := Queue();
      r := ApplyChanges();
      ghost var seg := db.log[|old(db.log)|..];
      FlushUsesOneTransaction(items, None, seg);
      assert Executions(seg) == seg && (Queue() == [] <==> r.Ok?);
    }

    /**
     * The shared body of the three `AddCommand` overloads: append `item`; with
     * a transaction open, flush the whole queue under it, otherwise return 0.
     */
    method Enqueue(item: CommandItem) returns (r: Result<int32>)
      requires Valid() && !disposed && item.connection == db
      modifies this`commandsList, db, Entities(Queue() + [item])
      ensures Valid() && !disposed
      ensures db.state == old(db.state)
      ensures |old(db.log)| <= |db.log| && db.log[..|old(db.log)|] == old(db.log)
      ensures AddLog(old(Queue()), item, transaction, db.log[|old(db.log)|..], r)
      ensures Queue() == if transaction.Some? && r.Ok? then [] else old(Queue()) + [item]
      ensures forall e :: e in Entities(old(Queue()) + [item]) ==>
        e.properties == Written(e, old(e.properties), old(Queue()) + [item], db.log[|old(db.log)|..])
      ensures var seg := db.log[|old(db.log)|..]; IdTargetsAgree(old(Queue() + [item]), seg, r.Ok?, old(PropertiesOf(Entities(Queue() + [item]))))
    {
      commandsList := Some(commandsList.value + [item]);
      if transaction.Some? {
        r := ApplyChanges(transaction);
      } else {
        r := Ok(0);
        assert db.log[|old(db.log)|..] == [];
      }
    }

    /** `AddCommand(sql)`: queues an entry with no parameters and no generated-id target. */
    method AddCommand(sql: string) returns (r: Result<int32>)
      requires Valid()
      modifies this, db, Entities(Queue() + [NewCommand(db, sql)])
      ensures Valid() && disposed == old(disposed) && connection == old(connection) && transaction == old(transaction)
      ensures db.state == old(db.state)
      ensures |old(db.log)| <= |db.log| && db.log[..|old(db.log)|] == old(db.log)
      ensures old(disposed) ==> r == Err(NullReference) && db.log == old(db.log)
      ensures !old(disposed) ==>
        && AddLog(old(Queue()), NewCommand(db, sql), transaction, db.log[|old(db.log)|..], r)
        && Queue() == (if transaction.Some? && r.Ok? then [] else old(Queue()) + [NewCommand(db, sql)])
        && (forall e :: e in Entities(old(Queue()) + [NewCommand(db, sql)]) ==>
              e.properties == Written(e, old(e.properties), old(Queue()) + [NewCommand(db, sql)], db.log[|old(db.log)|..]))
        && (var seg := db.log[|old(db.log)|..]; IdTargetsAgree(old(Queue() + [NewCommand(db, sql)]), seg, r.Ok?, old(PropertiesOf(Entities(Queue() + [NewCommand(db, sql)])))))
    {
      if commandsList.None? {
        r := Err(NullReference);
        return;
      }
      var c: Connection := connection;
      r := Enqueue(NewCommand(c, sql));
    }

    /** `AddCommand(sql, param)`: queues an entry with parameters and no generated-id target. */
    method AddCommandWithParams(sql: string, param: Option<ParamBag>) returns (r: Result<int32>)
      requires Valid()
      modifies this, db, Entities(Queue() + [NewCommandWithParams(db, sql, param)])
      ensures Valid() && disposed == old(disposed) && connection == old(connection) && transaction == old(transaction)
      ensures db.state == old(db.state)
      ensures |old(db.log)| <= |db.log| && db.log[..|old(db.log)|] == old(db.log)
      ensures old(disposed) ==> r == Err(NullReference) && db.log == old(db.log)
      ensures !old(disposed) ==>
        && AddLog(old(Queue()), NewCommandWithParams(db, sql, param), transaction, db.log[|old(db.log)|..], r)
        && Queue() == (if transaction.Some? && r.Ok? then [] else old(Queue()) + [NewCommandWithParams(db, sql, param)])
        && (forall e :: e in Entities(old(Queue()) + [NewCommandWithParams(db, sql, param)]) ==>
              e.properties == Written(e, old(e.properties), old(Queue()) + [NewCommandWithParams(db, sql, param)], db.log[|old(db.log)|..]))
        && (var seg := db.log[|old(db.log)|..]; IdTargetsAgree(old(Queue() + [NewCommandWithParams(db, sql, param)]), seg, r.Ok?, old(PropertiesOf(Entities(Queue() + [NewCommandWithParams(db, sql, param)])))))
    {
      if commandsList.None? {
        r := Err(NullReference);
        return;
      }
      var c: Connection := connection;
      r := Enqueue(NewCommandWithParams(c, sql, param));
    }

    /**
     * `AddCommand(sql, param, relatedEntity, fieldSetGeneratedId)`: queues an
     * entry whose flush writes the generated id into `relatedEntity`; with a
     * transaction open, that write happens before this call returns.
     */
    method AddCommandWithGeneratedId(sql: string, param: Option<ParamBag>, relatedEntity: Option<Entity>,
                                     fieldSetGeneratedId: Option<string>) returns (r: Result<int32>)
      requires Valid()
      modifies this, db, Entities(Queue() + [NewCommandWithGeneratedId(db, sql, param, relatedEntity, fieldSetGeneratedId)])
      ensures Valid() && disposed == old(disposed) && connection == old(connection) && transaction == old(transaction)
      ensures db.state == old(db.state)
      ensures |old(db.log)| <= |db.log| && db.log[..|old(db.log)|] == old(db.log)
      ensures old(disposed) ==> r == Err(NullReference) && db.log == old(db.log)
      ensures !old(disposed) ==>
        var item := NewCommandWithGeneratedId(db, sql, param, relatedEntity, fieldSetGeneratedId);
        && AddLog(old(Queue()), item, transaction, db.log[|old(db.log)|..], r)
        && Queue() == (if transaction.Some? && r.Ok? then [] else old(Queue()) + [item])
        && (forall e :: e in Entities(old(Queue()) + [item]) ==>
              e.properties == Written(e, old(e.properties), old(Queue()) + [item], db.log[|old(db.log)|..]))
        && (var seg := db.log[|old(db.log)|..]; IdTargetsAgree(old(Queue() + [item]), seg, r.Ok?, old(PropertiesOf(Entities(Queue() + [item])))))
    {
      if commandsList.None? {
        r := Err(NullReference);
        return;
      }
      var c: Connection := connection;
      r := Enqueue(NewCommandWithGeneratedId(c, sql, param, relatedEntity, fieldSetGeneratedId));
    }

    /**
     * `BeginTransaction(level)`, `ReadCommitted` by default: from Idle, save
     * any pending entries first, then begin a transaction at `level` and keep
     * it; with a transaction already open, do nothing at all.
     */
    method BeginTransaction(level: IsolationLevel := ReadCommitted) returns (r: Outcome)
      requires Valid()
      modifies this, db, Entities(Queue())
      ensures Valid() && disposed == old(disposed) && connection == old(connection)
      ensures db.state == old(db.state)
      ensures |old(db.log)| <= |db.log| && db.log[..|old(db.log)|] == old(db.log)
      ensures old(disposed) ==> r == Fail(ArgumentNull) && db.log == old(db.log)
      ensures old(transaction).Some? ==>
        r == Pass && db.log == old(db.log) && transaction == old(transaction) && Queue() == old(Queue())
      ensures !old(disposed) && old(transaction).None? ==>
        BeginLog(old(Queue()), level, db.log[|old(db.log)|..], r, Queue() == [], transaction)
      ensures Queue() == [] || Queue() == old(Queue())
      ensures forall e :: e in Entities(old(Queue())) ==>
        e.properties == Written(e, old(e.properties), old(Queue()), Executions(db.log[|old(db.log)|..]))
      ensures var execs, cleared := Executions(db.log[|old(db.log)|..]), Queue() == [];
        IdTargetsAgree(old(Queue()), execs, cleared, old(PropertiesOf(Entities(Queue()))))
    {
      if commandsList.None? {
        r := Fail(ArgumentNull);
        return;
      }
      if transaction.None? && |commandsList.value| > 0 {
        r := SaveThenOpen(level);
      } else if transaction.None? {
        ghost var step;
        r, step := OpenTransaction(level);
        assert db.log[|old(db.log)|..] == step;
        assert Executions(step) == [] by { Single(step[0]); }
      } else {
        r := Pass;
        assert db.log[|old(db.log)|..] == [];
      }
    }

    /**
     * `BeginTransaction` from Idle with entries pending: `SaveChanges` first,
     * and the transaction is begun only if the save returned.
     */
    method SaveThenOpen(level: IsolationLevel) returns (r: Outcome)
      requires Valid() && !disposed && transaction.None? && Queue() != []
      modifies this, db, Entities(Queue())
      ensures Valid() && !disposed && connection == old(connection)
      ensures db.state == old(db.state)
      ensures |old(db.log)| <= |db.log| && db.log[..|old(db.log)|] == old(db.log)
      ensures BeginLog(old(Queue()), level, db.log[|old(db.log)|..], r, Queue() == [], transaction)
      ensures Queue() == [] || Queue() == old(Queue())
      ensures forall e :: e in Entities(old(Queue())) ==>
        e.properties == Written(e, old(e.properties), old(Queue()), Executions(db.log[|old(db.log)|..]))
      ensures var execs, cleared := Executions(db.log[|old(db.log)|..]), Queue() == [];
        IdTargetsAgree(old(Queue()), execs, cleared, old(PropertiesOf(Entities(Queue()))))
    {
      ghost var items := Queue();
      var saved := SaveChanges();
      ghost var seg := db.log[|old(db.log)|..];
      if saved.Err? {
        r := Fail(saved.error);
        BeginAfterFailedSave(items, level, seg, saved, Queue() == [], transaction);
        return;
      }
      ghost var step;
      r, step := OpenTransaction(level);
      BeginAfterSave(items, level, old(db.log), seg, step, db.log, saved, Queue() == [], r, transaction);
    }

    /** `Transaction = Connection.BeginTransaction(level)`, reached from Idle. */
    method OpenTransaction(level: IsolationLevel) returns (r: Outcome, ghost step: seq<Event>)
      requires Valid() && !disposed && transaction.None?
      modifies this`transaction, db
      ensures Valid() && db.state == old(db.state)
      ensures db.log == old(db.log) + step
      ensures |step| == 1 && step[0].call == Call.BeginTransaction(Some(level))
      ensures step[0].reply.Began? || step[0].reply.Failed?
      ensures step[0].reply.Failed? ==> r == Fail(DatabaseError) && transaction == None
      ensures step[0].reply.Began? ==>
        step[0].reply.handle.level == Some(level) && r == Pass && transaction == Some(step[0].reply.handle)
    {
      var began := connection.BeginTransaction(Some(level));
      step := [Event(Call.BeginTransaction(Some(level)), if began.Ok? then Began(began.value) else Failed)];
      if began.Err? {
        r := Fail(began.error);
      } else {
        transaction := Some(began.value);
        r := Pass;
      }
    }

    /** `Commit`: forwards one commit to the open transaction; nothing when Idle. The handle is kept. */
    method Commit() returns (r: Outcome)
      requires Valid()
      modifies db
      ensures db.state == old(db.state)
      ensures transaction.None? ==> r == Pass && db.log == old(db.log)
      ensures transaction.Some? ==>
        && db.log == old(db.log) + [Event(Call.Commit(transaction.value), ReplyOfOutcome(r))]
        && (r.Fail? ==> r.error == DatabaseError)
    {
      if transaction.Some? {
        r := connection.Commit(transaction.value);
      } else {
        r := Pass;
      }
    }

    /** `RollBack`: forwards one rollback to the open transaction; nothing when Idle. The handle is kept. */
    method RollBack() returns (r: Outcome)
      requires Valid()
      modifies db
      ensures db.state == old(db.state)
      ensures transaction.None? ==> r == Pass && db.log == old(db.log)
      ensures transaction.Some? ==>
        && db.log == old(db.log) + [Event(Call.Rollback(transaction.value), ReplyOfOutcome(r))]
        && (r.Fail? ==> r.error == DatabaseError)
    {
      if transaction.Some? {
        r := connection.Rollback(transaction.value);
      } else {
        r := Pass;
      }
    }

    /**
     * `Dispose`: the first call closes and disposes the connection, empties
     * and drops the queue, disposes any transaction and nulls all three
     * members; later calls touch nothing.
     */
    method Dispose()
      requires Valid()
      modifies this, db
      ensures Valid() && disposed && connection == null && transaction == None && commandsList == None
      ensures old(disposed) ==> db.state == old(db.state) && db.log == old(db.log)
      ensures !old(disposed) ==>
        && db.state == Closed
        && db.log == old(db.log) + [Event(CloseConnection, Done), Event(DisposeConnection, Done)]
                     + (if old(transaction).Some? then [Event(DisposeTransaction(old(transaction).value), Done)] else [])
    {
      if disposed {
        return;
      }
      var c: Connection := connection;
      c.Close();
      c.Dispose();
      connection := null;
      commandsList := None;
      if transaction.Some? {
        c.DisposeTransaction(transaction.value);
      }
      transaction := None;
      disposed := true;
    }
  }
}
