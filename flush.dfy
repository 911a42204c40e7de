/**
 * What one pass over the command queue (`ApplyChanges`) does, stated over
 * the segment of the connection log it produces: which calls, in which order,
 * under which transaction, what the loop accumulates, and what lands in the
 * related entities.
 */
module Flush {
  import opened Wrappers
  import opened Int32
  import opened Database
  import opened Commands

  /** The caller-owned entities that queued entries may write to. */
  function Entities(items: seq<CommandItem>): (es: set<Entity>) {
    set i | 0 <= i < |items| && items[i].relatedEntity.Some? :: items[i].relatedEntity.value
  }

  /** The call the flush makes for `item`: the entry's own sql and parameters, the flush's transaction. */
  function CallFor(item: CommandItem, transaction: Option<Transaction>): (c: Call) {
    CallOf(item, item.sql, item.sqlParameters, transaction)
  }

  /**
   * `seg` is what a completed flush of `items` under `transaction` logs: one
   * answered execution per entry, in queue order, each under `transaction`.
   */
  ghost predicate IsFlush(items: seq<CommandItem>, transaction: Option<Transaction>, seg: seq<Event>) {
    |seg| == |items| &&
    forall i :: 0 <= i < |items| ==> seg[i].call == CallFor(items[i], transaction) && seg[i].reply.Value?
  }

  /**
   * `seg` is what a flush of `items` logs when the entry at `|seg| - 1`
   * throws: the entries before it completed, it was called, and the loop
   * stopped there.
   */
  ghost predicate IsFailedFlush(items: seq<CommandItem>, transaction: Option<Transaction>, seg: seq<Event>) {
    && 0 < |seg| <= |items|
    && IsFlush(items[..|seg| - 1], transaction, seg[..|seg| - 1])
    && seg[|seg| - 1].call == CallFor(items[|seg| - 1], transaction)
    && IsAnswer(seg[|seg| - 1].reply)
  }

  /** What an answered execution adds to `_qtRet`: rows affected, or the success flag of a scalar. */
  function Contribution(e: Event): (n: int32) {
    if !e.reply.Value? then 0
    else if e.call.ExecuteScalar? then SuccessFlag(e.reply.n)
    else e.reply.n
  }

  /**
   * What `Execute` returned for the event `x` it logged: on return, the
   * event's contribution to the total; on an exception, the database's
   * error when it threw, otherwise the configuration error of a generated-id
   * entry.
   */
  lemma ExecutedEvent(item: CommandItem, transaction: Option<Transaction>, x: Event, r: Result<int32>,
                      properties: map<string, int>)
    requires x.call == CallFor(item, transaction) && IsAnswer(x.reply)
    requires r == ExecuteResult(item, x.reply, properties)
    ensures r.Ok? ==> x.reply.Value? && r.value == Contribution(x)
    ensures r.Err? ==> r.error == Thrown(item, x.reply) && (x.reply.Value? ==> item.CapturesGeneratedId())
  {
  }

  /** `_qtRet` once the loop has consumed `seg`: the unchecked running sum. */
  function FlushTotal(seg: seq<Event>): (total: int32) {
    if seg == [] then 0
    else Add(FlushTotal(seg[..|seg| - 1]), Contribution(seg[|seg| - 1]))
  }

  /** The exact sum of the contributions in `seg`. */
  function Sum(seg: seq<Event>): (total: int) {
    if seg == [] then 0
    else Sum(seg[..|seg| - 1]) + Contribution(seg[|seg| - 1])
  }

  /** The number of executions in `seg` whose scalar reply is positive. */
  function Successes(seg: seq<Event>): (count: nat) {
    if seg == [] then 0
    else Successes(seg[..|seg| - 1]) + (if seg[|seg| - 1].reply.Value? && seg[|seg| - 1].reply.n > 0 then 1 else 0)
  }

  /** The statement executions in `seg`, in order. */
  function Executions(seg: seq<Event>): (execs: seq<Event>) {
    if seg == [] then []
    else Executions(seg[..|seg| - 1]) + (if seg[|seg| - 1].call.IsExecution() then [seg[|seg| - 1]] else [])
  }

  /** The transaction and connection control calls in `seg`, in order. */
  function Controls(seg: seq<Event>): (calls: seq<Call>) {
    if seg == [] then []
    else Controls(seg[..|seg| - 1]) + (if seg[|seg| - 1].call.IsExecution() then [] else [seg[|seg| - 1].call])
  }

  /**
   * The properties of `e`, starting from `properties`, once the executions
   * `execs` of the first `|execs|` entries of `items` have run in order.
   */
  function Written(e: Entity, properties: map<string, int>, items: seq<CommandItem>, execs: seq<Event>): (written: map<string, int>)
    decreases |execs|
  {
    if execs == [] then properties
    else
      var k := |execs| - 1;
      var before := Written(e, properties, items, execs[..k]);
      if k < |items| && items[k].relatedEntity == Some(e) then PropertiesAfter(items[k], execs[k].reply, before)
      else before
  }

  /** One more answered entry extends a completed flush, and the running total by its contribution. */
  lemma FlushStep(items: seq<CommandItem>, transaction: Option<Transaction>, done: seq<Event>, e: Event)
    requires |done| < |items| && IsFlush(items[..|done|], transaction, done)
    requires e.call == CallFor(items[|done|], transaction) && e.reply.Value?
    ensures IsFlush(items[..|done| + 1], transaction, done + [e])
    ensures FlushTotal(done + [e]) == Add(FlushTotal(done), Contribution(e))
  {
    var n := |done|;
    assert (done + [e])[..n] == done;
    forall i | 0 <= i < n + 1
      ensures (done + [e])[i].call == CallFor(items[..n + 1][i], transaction) && (done + [e])[i].reply.Value?
    {
      if i < n {
        assert (done + [e])[i] == done[i] && items[..n + 1][i] == items[..n][i];
      }
    }
  }

  /** An entry that throws after a completed prefix makes a failed flush. */
  lemma FailedStep(items: seq<CommandItem>, transaction: Option<Transaction>, done: seq<Event>, e: Event)
    requires |done| < |items| && IsFlush(items[..|done|], transaction, done)
    requires e.call == CallFor(items[|done|], transaction) && IsAnswer(e.reply)
    ensures IsFailedFlush(items, transaction, done + [e])
  {
    assert (done + [e])[..|done|] == done;
  }

  /**
   * `ApplyChanges(transaction)` on the queue `items`: the log segment `seg`
   * its loop adds and its result `r`, a total or the first exception.
   */
  ghost predicate ApplyLog(items: seq<CommandItem>, transaction: Option<Transaction>, seg: seq<Event>, r: Result<int32>) {
    || (r.Ok? && IsFlush(items, transaction, seg) && r.value == FlushTotal(seg))
    || (&& r.Err? && IsFailedFlush(items, transaction, seg)
        && r.error == Thrown(items[|seg| - 1], seg[|seg| - 1].reply)
        && (seg[|seg| - 1].reply.Value? ==> items[|seg| - 1].CapturesGeneratedId()))
  }

  /** The properties of every entity in `es`, taken as one value. */
  ghost function PropertiesOf(es: set<Entity>): (snap: map<Entity, map<string, int>>)
    reads es
    ensures snap.Keys == es && forall e :: e in es ==> snap[e] == e.properties
  {
    map e | e in es :: e.properties
  }

  /** The entry's write-back finds its property in `before`, a snapshot of its entity. */
  ghost predicate FoundIn(item: CommandItem, before: map<Entity, map<string, int>>) {
    item.relatedEntity.Some? && item.relatedEntity.value in before && item.FindsIdIn(before[item.relatedEntity.value])
  }

  /**
   * Each executed generated-id entry whose scalar came back returned exactly
   * when its entity had the named property in `before`, the properties when
   * the flush started: every such entry of a completed flush found it, and
   * of a flush that stopped, all but the last one.
   */
  ghost predicate IdTargetsAgree(items: seq<CommandItem>, execs: seq<Event>, completed: bool,
                                 before: map<Entity, map<string, int>>) {
    forall j :: 0 <= j < |execs| && j < |items| && items[j].CapturesGeneratedId() && execs[j].reply.Value? ==>
      (FoundIn(items[j], before) <==> completed || j < |execs| - 1)
  }

  /**
   * What that agreement says of a flush's result: one that returned found
   * every generated-id property, and an entry whose scalar came back but
   * threw did so because its entity lacked the property, or it had no name.
   */
  lemma IdTargetsOnResult(items: seq<CommandItem>, transaction: Option<Transaction>, seg: seq<Event>, r: Result<int32>,
                          before: map<Entity, map<string, int>>)
    requires ApplyLog(items, transaction, seg, r) && IdTargetsAgree(items, seg, r.Ok?, before)
    ensures r.Ok? ==> forall j :: 0 <= j < |items| && items[j].CapturesGeneratedId() ==> FoundIn(items[j], before)
    ensures r.Err? && seg[|seg| - 1].reply.Value? ==>
      var k := |seg| - 1;
      && items[k].CapturesGeneratedId() && !FoundIn(items[k], before)
      && r.error == (if items[k].fieldNameSetGeneratedId.None? then NullPropertyName
                     else PropertyNotFound(items[k].fieldNameSetGeneratedId.value))
  {
  }

  /**
   * One more executed entry keeps the agreement, when the properties it was
   * executed against have the keys its entity had in `before`.
   */
  lemma IdTargetsStep(items: seq<CommandItem>, seg: seq<Event>, x: Event, before: map<Entity, map<string, int>>,
                      properties: map<string, int>, r: Result<int32>)
    requires |seg| < |items| && IdTargetsAgree(items, seg, true, before)
    requires items[|seg|].CapturesGeneratedId() ==>
      items[|seg|].relatedEntity.value in before && properties.Keys == before[items[|seg|].relatedEntity.value].Keys
    requires IsAnswer(x.reply) && r == ExecuteResult(items[|seg|], x.reply, properties)
    ensures IdTargetsAgree(items, seg + [x], r.Ok?, before)
  {
  }

  /** A flush that stops at an entry which threw. */
  lemma ApplyLogFailed(items: seq<CommandItem>, transaction: Option<Transaction>, done: seq<Event>, x: Event, r: Result<int32>)
    requires |done| < |items| && IsFlush(items[..|done|], transaction, done)
    requires x.call == CallFor(items[|done|], transaction) && IsAnswer(x.reply)
    requires r.Err? && r.error == Thrown(items[|done|], x.reply)
    requires x.reply.Value? ==> items[|done|].CapturesGeneratedId()
    ensures ApplyLog(items, transaction, done + [x], r)
  {
    FailedStep(items, transaction, done, x);
  }

  /** One more execution changes only the entity its entry targets. */
  lemma WrittenStep(e: Entity, properties: map<string, int>, items: seq<CommandItem>, done: seq<Event>, x: Event)
    requires |done| < |items|
    ensures Written(e, properties, items, done + [x]) ==
      if items[|done|].relatedEntity == Some(e) then PropertiesAfter(items[|done|], x.reply, Written(e, properties, items, done))
      else Written(e, properties, items, done)
  {
    assert (done + [x])[..|done|] == done;
  }

  /** A log extended by `seg` keeps its old events in front of `seg`. */
  lemma Extends(before: seq<Event>, seg: seq<Event>, after: seq<Event>)
    requires after == before + seg
    ensures |before| <= |after| && after[..|before|] == before && after[|before|..] == seg
  {
  }

  /**
   * The loop of `ApplyChanges`: executes the entries of `items` in order on
   * `connection` under `transaction`, each with its own sql and parameters,
   * adding the results up unchecked; the first entry that throws ends it.
   */
  method Run(items: seq<CommandItem>, connection: Connection, transaction: Option<Transaction>)
    returns (r: Result<int32>, ghost seg: seq<Event>)
    requires forall i :: 0 <= i < |items| ==> items[i].connection == connection
    modifies connection, Entities(items)
    ensures connection.state == old(connection.state) && connection.nextId == old(connection.nextId)
    ensures connection.log == old(connection.log) + seg
    ensures ApplyLog(items, transaction, seg, r)
    ensures forall e :: e in Entities(items) ==> e.properties == Written(e, old(e.properties), items, seg)
    ensures IdTargetsAgree(items, seg, r.Ok?, old(PropertiesOf(Entities(items))))
  {
    ghost var snapshot := PropertiesOf(Entities(items));
    seg := [];
    var total: int32 := 0;
    var i := 0;
    while i < |items|
      invariant 0 <= i <= |items| && |seg| == i
      invariant connection.state == old(connection.state) && connection.nextId == old(connection.nextId)
      invariant connection.log == old(connection.log) + seg
      invariant IsFlush(items[..i], transaction, seg)
      invariant total == FlushTotal(seg)
      invariant forall e :: e in Entities(items) ==> e.properties == Written(e, old(e.properties), items, seg)
      invariant IdTargetsAgree(items, seg, true, snapshot)
    {
      var item := items[i];
      assert item.Targets() <= Entities(items);
      ghost var before := connection.log;
      ghost var properties := item.TargetProperties();
      if item.CapturesGeneratedId() {
        WrittenKeepsKeys(item.relatedEntity.value, old(item.relatedEntity.value.properties), items, seg);
      }
      var result := Commands.Execute(item, item.sql, item.sqlParameters, transaction);
      ghost var x := connection.log[|before|];
      assert connection.log == before + [x];
      ExecutedEvent(item, transaction, x, result, properties);
      forall e | e in Entities(items)
        ensures e.properties == Written(e, old(e.properties), items, seg + [x])
      {
        WrittenStep(e, old(e.properties), items, seg, x);
      }
      IdTargetsStep(items, seg, x, snapshot, properties, result);
      if result.Err? {
        ApplyLogFailed(items, transaction, seg, x, Err(result.error));
        seg := seg + [x];
        r := Err(result.error);
        return;
      }
      FlushStep(items, transaction, seg, x);
      seg := seg + [x];
      total := Add(total, result.value);
      i := i + 1;
    }
    assert items[..i] == items;
    r := Ok(total);
  }

  /** The running total is the exact sum truncated to 32 bits. */
  lemma {:induction false} FlushTotalIsWrappedSum(seg: seq<Event>)
    ensures FlushTotal(seg) == Wrap(Sum(seg))
  {
    if seg != [] {
      var k := |seg| - 1;
      FlushTotalIsWrappedSum(seg[..k]);
      WrapAbsorbs(Sum(seg[..k]), Contribution(seg[k]));
    }
  }

  lemma {:induction false} SumAppend(a: seq<Event>, b: seq<Event>)
    ensures Sum(a + b) == Sum(a) + Sum(b)
  {
    if b != [] {
      var k := |b| - 1;
      assert (a + b)[..|a + b| - 1] == a + b[..k];
      SumAppend(a, b[..k]);
    } else {
      assert a + b == a;
    }
  }

  /** Flushing `a` then `b` in one pass totals what the two passes total, added unchecked. */
  lemma {:induction false} FlushTotalAppend(a: seq<Event>, b: seq<Event>)
    ensures FlushTotal(a + b) == Add(FlushTotal(a), FlushTotal(b))
  {
    FlushTotalIsWrappedSum(a + b);
    FlushTotalIsWrappedSum(a);
    FlushTotalIsWrappedSum(b);
    SumAppend(a, b);
    WrapAbsorbs(Sum(a), FlushTotal(b));
    WrapAbsorbs(Sum(b), Sum(a));
  }

  /** Concatenated flushes are a flush of the concatenated queues, and conversely. */
  lemma {:induction false} IsFlushAppend(a: seq<CommandItem>, b: seq<CommandItem>, transaction: Option<Transaction>, seg: seq<Event>)
    requires |seg| == |a| + |b|
    ensures IsFlush(a + b, transaction, seg) <==>
            IsFlush(a, transaction, seg[..|a|]) && IsFlush(b, transaction, seg[|a|..])
  {
    if IsFlush(a, transaction, seg[..|a|]) && IsFlush(b, transaction, seg[|a|..]) {
      forall i | 0 <= i < |a + b|
        ensures seg[i].call == CallFor((a + b)[i], transaction) && seg[i].reply.Value?
      {
        if i >= |a| {
          assert seg[i] == seg[|a|..][i - |a|];
        } else {
          assert seg[i] == seg[..|a|][i];
        }
      }
    }
  }

  lemma {:induction false} SuccessesBound(seg: seq<Event>)
    ensures Successes(seg) <= |seg|
  {
    if seg != [] {
      SuccessesBound(seg[..|seg| - 1]);
    }
  }

  /** When every event is an answered scalar query, the exact sum counts the positive scalars. */
  lemma {:induction false} ScalarSumCountsSuccesses(seg: seq<Event>)
    requires forall i :: 0 <= i < |seg| ==> seg[i].call.ExecuteScalar? && seg[i].reply.Value?
    ensures Sum(seg) == Successes(seg)
  {
    if seg != [] {
      ScalarSumCountsSuccesses(seg[..|seg| - 1]);
    }
  }

  /**
   * A flush of entries that all capture a generated id returns how many of
   * them got a positive id: a count of successes, never a row count.
   */
  lemma {:induction false} CaptureFlushCountsSuccesses(items: seq<CommandItem>, transaction: Option<Transaction>, seg: seq<Event>)
    requires IsFlush(items, transaction, seg)
    requires forall i :: 0 <= i < |items| ==> items[i].CapturesGeneratedId()
    requires |items| <= Max
    ensures FlushTotal(seg) == Successes(seg)
    ensures 0 <= FlushTotal(seg) <= |items|
  {
    ScalarSumCountsSuccesses(seg);
    SuccessesBound(seg);
    FlushTotalIsWrappedSum(seg);
  }

  lemma {:induction false} ExecutionsAppend(a: seq<Event>, b: seq<Event>)
    ensures Executions(a + b) == Executions(a) + Executions(b)
  {
    if b != [] {
      var k := |b| - 1;
      assert (a + b)[..|a + b| - 1] == a + b[..k];
      ExecutionsAppend(a, b[..k]);
    } else {
      assert a + b == a;
    }
  }

  lemma {:induction false} ControlsAppend(a: seq<Event>, b: seq<Event>)
    ensures Controls(a + b) == Controls(a) + Controls(b)
  {
    if b != [] {
      var k := |b| - 1;
      assert (a + b)[..|a + b| - 1] == a + b[..k];
      ControlsAppend(a, b[..k]);
    } else {
      assert a + b == a;
    }
  }

  /** A segment made only of statement executions holds no transaction control. */
  lemma {:induction false} OnlyExecutions(seg: seq<Event>)
    requires forall i :: 0 <= i < |seg| ==> seg[i].call.IsExecution()
    ensures Executions(seg) == seg && Controls(seg) == []
  {
    if seg != [] {
      OnlyExecutions(seg[..|seg| - 1]);
    }
  }

  /** A single event is either one execution or one control call. */
  lemma Single(e: Event)
    ensures Executions([e]) == (if e.call.IsExecution() then [e] else [])
    ensures Controls([e]) == (if e.call.IsExecution() then [] else [e.call])
  {
    assert [e][..0] == [];
  }

  /** One more event adds itself to the executions exactly when it is one. */
  lemma ExecutionsSnoc(seg: seq<Event>, e: Event)
    ensures Executions(seg + [e]) == Executions(seg) + (if e.call.IsExecution() then [e] else [])
  {
    assert (seg + [e])[..|seg|] == seg;
  }

  /** A failed flush called the entries up to the one that threw, in order, under `transaction`. */
  lemma FailedFlushCalls(items: seq<CommandItem>, transaction: Option<Transaction>, seg: seq<Event>)
    requires IsFailedFlush(items, transaction, seg)
    ensures forall i :: 0 <= i < |seg| ==> seg[i].call == CallFor(items[i], transaction)
  {
    var k := |seg| - 1;
    forall i | 0 <= i < k ensures seg[i].call == CallFor(items[i], transaction) {
      assert seg[i] == seg[..k][i];
      assert items[i] == items[..k][i];
    }
  }

  /**
   * A flush, completed or failed, begins, commits and rolls back nothing, and
   * every statement it executes runs under the one transaction it was given.
   */
  lemma FlushUsesOneTransaction(items: seq<CommandItem>, transaction: Option<Transaction>, seg: seq<Event>)
    requires IsFlush(items, transaction, seg) || IsFailedFlush(items, transaction, seg)
    ensures Executions(seg) == seg && Controls(seg) == []
    ensures forall i :: 0 <= i < |seg| ==> seg[i].call.transaction == transaction
  {
    if !IsFlush(items, transaction, seg) {
      FailedFlushCalls(items, transaction, seg);
    }
    OnlyExecutions(seg);
  }

  /** An entity no entry targets keeps every property. */
  lemma {:induction false} WrittenUntargeted(e: Entity, properties: map<string, int>, items: seq<CommandItem>, execs: seq<Event>)
    requires e !in Entities(items)
    ensures Written(e, properties, items, execs) == properties
    decreases |execs|
  {
    if execs != [] {
      var k := |execs| - 1;
      WrittenUntargeted(e, properties, items, execs[..k]);
      assert k < |items| && items[k].relatedEntity.Some? ==> items[k].relatedEntity.value in Entities(items);
    }
  }

  /** Writing back generated ids never adds or removes a property. */
  lemma {:induction false} WrittenKeepsKeys(e: Entity, properties: map<string, int>, items: seq<CommandItem>, execs: seq<Event>)
    ensures Written(e, properties, items, execs).Keys == properties.Keys
    decreases |execs|
  {
    if execs != [] {
      WrittenKeepsKeys(e, properties, items, execs[..|execs| - 1]);
    }
  }
}
