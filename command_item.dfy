/**
 * `CommandItem`: one pending write. An immutable record of the statement,
 * its parameters and an optional target for a database-generated id, plus
 * `Execute`, which runs the statement and writes the id back.
 */
module Commands {
  import opened Wrappers
  import opened Int32
  import opened Database

  /**
   * A caller-owned object that may receive a generated id. `properties`
   * holds exactly the public properties that `SetValue` can assign (they
   * have a setter and are int-valued), looked up by name as reflection does.
   */
  class Entity {
    var properties: map<string, int>

    constructor (properties: map<string, int>)
      ensures this.properties == properties
    {
      this.properties := properties;
    }
  }

  /**
   * The four data properties have private setters and are only assigned by
   * the constructors, so an entry is a value. `connection` is the connection
   * the entry executes on.
   */
  datatype CommandItem = CommandItem(
    connection: Connection,
    sql: string,
    sqlParameters: Option<ParamBag>,
    relatedEntity: Option<Entity>,
    fieldNameSetGeneratedId: Option<string>)
  {
    /**
     * `Execute` takes the generated-id path: an entity is set and the name is
     * not the empty string. A null name does not count as empty.
     */
    predicate CapturesGeneratedId() {
      relatedEntity.Some? && fieldNameSetGeneratedId != Some("")
    }

    /** The objects `Execute` may write to. */
    function Targets(): (es: set<Entity>) {
      if relatedEntity.Some? then {relatedEntity.value} else {}
    }

    /** The related entity's properties; none without an entity. */
    ghost function TargetProperties(): (properties: map<string, int>)
      reads Targets()
    {
      if relatedEntity.Some? then relatedEntity.value.properties else map[]
    }

    /** The generated-id write-back finds its property among `properties`: a name is set and is one of them. */
    predicate FindsIdIn(properties: map<string, int>) {
      fieldNameSetGeneratedId.Some? && fieldNameSetGeneratedId.value in properties
    }
  }

  /** `new CommandItem(connection, sql)`. */
  function NewCommand(connection: Connection, sql: string): (c: CommandItem)
    ensures c.connection == connection && c.sql == sql
    ensures c.sqlParameters == None && c.relatedEntity == None && c.fieldNameSetGeneratedId == None
    ensures !c.CapturesGeneratedId() && c.Targets() == {}
  {
    CommandItem(connection, sql, None, None, None)
  }

  /** `new CommandItem(connection, sql, param)`. */
  function NewCommandWithParams(connection: Connection, sql: string, param: Option<ParamBag>): (c: CommandItem)
    ensures c.connection == connection && c.sql == sql && c.sqlParameters == param
    ensures c.relatedEntity == None && c.fieldNameSetGeneratedId == None
    ensures !c.CapturesGeneratedId() && c.Targets() == {}
  {
    CommandItem(connection, sql, param, None, None)
  }

  /** `new CommandItem(connection, sql, param, relatedEntity, fieldNameSetGeneratedId)`. */
  function NewCommandWithGeneratedId(connection: Connection, sql: string, param: Option<ParamBag>,
                                     relatedEntity: Option<Entity>, fieldName: Option<string>): (c: CommandItem)
    ensures c.connection == connection && c.sql == sql && c.sqlParameters == param
    ensures c.relatedEntity == relatedEntity && c.fieldNameSetGeneratedId == fieldName
    ensures c.CapturesGeneratedId() <==> relatedEntity.Some? && fieldName != Some("")
  {
    CommandItem(connection, sql, param, relatedEntity, fieldName)
  }

  /**
   * The one database call `Execute(sql, param, transaction)` makes: a scalar
   * query on the generated-id path, a row-count execution otherwise, always
   * with the arguments it was given rather than the stored ones.
   */
  function CallOf(item: CommandItem, sql: string, param: Option<ParamBag>, transaction: Option<Transaction>): (c: Call)
    ensures c.IsExecution() && c.sql == sql && c.param == param && c.transaction == transaction
    ensures c.ExecuteScalar? <==> item.CapturesGeneratedId()
  {
    if item.CapturesGeneratedId() then Call.ExecuteScalar(sql, param, transaction)
    else Call.Execute(sql, param, transaction)
  }

  /** `_result > 0 ? 1 : 0`: a success flag, not a row count. */
  function SuccessFlag(scalar: int32): (r: int32)
    ensures r == 0 || r == 1
    ensures r == 1 <==> scalar > 0
  {
    if scalar > 0 then 1 else 0
  }

  /** An answer to a statement execution: a value or an exception. */
  predicate IsAnswer(reply: Reply) {
    reply.Value? || reply.Failed?
  }

  /**
   * The exception `Execute` lets escape when the database answered `reply`:
   * the database's own error, or else the configuration error of the
   * generated-id write-back (a null property name, or a name the entity's
   * type does not have).
   */
  function Thrown(item: CommandItem, reply: Reply): (e: Error)
    ensures e == DatabaseError <==> reply.Failed?
  {
    if reply.Failed? then DatabaseError
    else match item.fieldNameSetGeneratedId
      case None => NullPropertyName
      case Some(name) => PropertyNotFound(name)
  }

  /**
   * What `Execute` returns or throws when the database answered `reply` and
   * the related entity had `properties`.
   */
  function ExecuteResult(item: CommandItem, reply: Reply, properties: map<string, int>): (r: Result<int32>)
    requires IsAnswer(reply)
    ensures reply.Failed? ==> r == Err(DatabaseError)
    ensures r.Err? ==> r.error == Thrown(item, reply) && (reply.Value? ==> item.CapturesGeneratedId())
    ensures reply.Value? && !item.CapturesGeneratedId() ==> r == Ok(reply.n)
    ensures item.CapturesGeneratedId() && r.Ok? ==> r.value == SuccessFlag(reply.n) && 0 <= r.value <= 1
    ensures item.CapturesGeneratedId() && reply.Value? ==>
      (r.Ok? <==> item.fieldNameSetGeneratedId.Some? && item.fieldNameSetGeneratedId.value in properties)
    ensures r.Err? && reply.Value? ==>
      r.error == (if item.fieldNameSetGeneratedId.None? then NullPropertyName
                  else PropertyNotFound(item.fieldNameSetGeneratedId.value))
  {
    if reply.Failed? then Err(DatabaseError)
    else if !item.CapturesGeneratedId() then Ok(reply.n)
    else match item.fieldNameSetGeneratedId
      case None => Err(NullPropertyName)
      case Some(name) =>
        if name in properties then Ok(SuccessFlag(reply.n)) else Err(PropertyNotFound(name))
  }

  /**
   * The related entity's properties after `Execute` answered `reply`: on the
   * generated-id path the scalar lands in the named property; nothing else
   * changes, and nothing at all when `Execute` throws.
   */
  function PropertiesAfter(item: CommandItem, reply: Reply, properties: map<string, int>): (p: map<string, int>)
    ensures p.Keys == properties.Keys
  {
    if item.CapturesGeneratedId() && reply.Value? && item.fieldNameSetGeneratedId.Some?
       && item.fieldNameSetGeneratedId.value in properties
    then properties[item.fieldNameSetGeneratedId.value := reply.n]
    else properties
  }

  /**
   * The write-back and `Execute`'s outcome agree: the scalar lands in the
   * named property exactly when `Execute` returns, only that property
   * changes, and nothing changes when it throws or was a plain execution.
   */
  lemma PropertiesAfterAgrees(item: CommandItem, reply: Reply, properties: map<string, int>)
    requires IsAnswer(reply)
    ensures var p := PropertiesAfter(item, reply, properties);
      && (forall name :: name in properties && Some(name) != item.fieldNameSetGeneratedId ==> p[name] == properties[name])
      && (ExecuteResult(item, reply, properties).Err? ==> p == properties)
      && (item.CapturesGeneratedId() && ExecuteResult(item, reply, properties).Ok? ==>
            p == properties[item.fieldNameSetGeneratedId.value := reply.n])
      && (!item.CapturesGeneratedId() ==> p == properties)
  {
  }

  /**
   * `CommandItem.Execute`: exactly one call on the entry's connection; on the
   * generated-id path the scalar is then written into the named property.
   */
  method Execute(item: CommandItem, sql: string, param: Option<ParamBag>, transaction: Option<Transaction>)
    returns (r: Result<int32>)
    modifies item.connection, item.Targets()
    ensures item.connection.state == old(item.connection.state)
    ensures item.connection.nextId == old(item.connection.nextId)
    ensures |item.connection.log| == |old(item.connection.log)| + 1
    ensures item.connection.log[..|old(item.connection.log)|] == old(item.connection.log)
    ensures var e := item.connection.log[|old(item.connection.log)|];
      && e.call == CallOf(item, sql, param, transaction)
      && IsAnswer(e.reply)
      && r == ExecuteResult(item, e.reply, old(item.TargetProperties()))
      && item.TargetProperties() == PropertiesAfter(item, e.reply, old(item.TargetProperties()))
  {
    var connection := item.connection;
    if item.relatedEntity.None? || item.fieldNameSetGeneratedId == Some("") {
      r := connection.Execute(sql, param, transaction);
    } else {
      var scalar := connection.ExecuteScalar(sql, param, transaction);
      if scalar.Err? {
        r := Err(scalar.error);
      } else {
        var entity := item.relatedEntity.value;
        match item.fieldNameSetGeneratedId
        case None =>
          r := Err(NullPropertyName);
        case Some(name) =>
          if name in entity.properties {
            entity.properties := entity.properties[name := scalar.value];
            r := Ok(SuccessFlag(scalar.value));
          } else {
            r := Err(PropertyNotFound(name));
          }
      }
    }
  }
}
