/**
 * The schema cache: which attribute of each table is its partition (HASH) key and which its
 * sort (RANGE) key, as discovered from the store.
 */
module SchemaCache {
  import opened Js
  import opened Outcomes
  import opened DocumentStore

  /** The cached key attributes of one table; `None` stands for a property never assigned. */
  datatype TableSchema = TableSchema(partitionKey: Option<string>, sortKey: Option<string>) {

    predicate IsPartitionKey(k: string) {
      partitionKey == Some(k)
    }

    predicate IsSortKey(k: string) {
      sortKey == Some(k)
    }

    /** `key === partitionKey || key === sortKey` */
    predicate IsKeyAttribute(k: string) {
      IsPartitionKey(k) || IsSortKey(k)
    }
  }

  /** The `{}` an entry starts as. */
  const NoKeys := TableSchema(None, None)

  /** The schema entry for `table`, absent when the table is unknown. */
  function Lookup(schemas: map<string, TableSchema>, table: string): Option<TableSchema> {
    if table in schemas then Some(schemas[table]) else None
  }

  /** The entry the planning and key loops read: the cached one, or no keys for an unknown table. */
  function SchemaOrEmpty(schema: Option<TableSchema>): TableSchema {
    if schema.Some? then schema.value else NoKeys
  }

  /** Every key attribute named in `o` has a value `toString()` accepts. */
  predicate KeyValuesDefined(s: TableSchema, o: seq<Entry>) {
    forall i :: 0 <= i < |o| && s.IsKeyAttribute(o[i].0) ==> !IsNullish(o[i].1)
  }

  /** The effect of one key schema element on an entry. */
  function Record(s: TableSchema, e: KeySchemaElement): TableSchema {
    if e.keyType == "HASH" then s.(partitionKey := Some(e.attributeName))
    else if e.keyType == "RANGE" then s.(sortKey := Some(e.attributeName))
    else s
  }

  /** The entry after recording the elements of `ks` in order. */
  function RecordAll(s: TableSchema, ks: seq<KeySchemaElement>): TableSchema
    decreases |ks|
  {
    if |ks| == 0 then s else Record(RecordAll(s, ks[..|ks| - 1]), ks[|ks| - 1])
  }

  /** The entry built for a table whose key schema is `ks`. */
  function SchemaOf(ks: seq<KeySchemaElement>): TableSchema {
    RecordAll(NoKeys, ks)
  }

  /**
   * `name` is what a key schema designates for `keyType`: absent when no element has that type,
   * otherwise the attribute of the last element that has it.
   */
  ghost predicate Designates(ks: seq<KeySchemaElement>, keyType: string, name: Option<string>) {
    match name
    case None => forall i :: 0 <= i < |ks| ==> ks[i].keyType != keyType
    case Some(a) =>
      exists i :: 0 <= i < |ks| && ks[i] == KeySchemaElement(a, keyType)
        && forall j :: i < j < |ks| ==> ks[j].keyType != keyType
  }

  /** The partition key recorded is the HASH attribute and the sort key the RANGE attribute. */
  lemma {:induction false} SchemaOfDesignatesKeys(ks: seq<KeySchemaElement>)
    ensures Designates(ks, "HASH", SchemaOf(ks).partitionKey)
    ensures Designates(ks, "RANGE", SchemaOf(ks).sortKey)
    decreases |ks|
  {
    if |ks| > 0 {
      var init, last := ks[..|ks| - 1], ks[|ks| - 1];
      SchemaOfDesignatesKeys(init);
      assert SchemaOf(ks) == Record(SchemaOf(init), last);
      DesignatesExtend(init, last, "HASH", SchemaOf(init).partitionKey);
      DesignatesExtend(init, last, "RANGE", SchemaOf(init).sortKey);
      assert init + [last] == ks;
    }
  }

  lemma DesignatesExtend(ks: seq<KeySchemaElement>, e: KeySchemaElement, keyType: string, name: Option<string>)
    requires Designates(ks, keyType, name)
    ensures Designates(ks + [e], keyType, if e.keyType == keyType then Some(e.attributeName) else name)
  {
    var ks' := ks + [e];
    if e.keyType == keyType {
      assert ks'[|ks|] == KeySchemaElement(e.attributeName, keyType);
    } else if name.Some? {
      var i :| 0 <= i < |ks| && ks[i] == KeySchemaElement(name.value, keyType)
        && forall j :: i < j < |ks| ==> ks[j].keyType != keyType;
      assert ks'[i] == ks[i];
    }
  }

  /** The cache after a discovery attempt, the failure that ended it if any, and the requests it sent. */
  datatype Discovery = Discovery(schemas: map<string, TableSchema>, failure: Option<Error>, requests: seq<Command>)

  /**
   * Describing the tables `names` in order: each entry is reset to `{}` and then filled from the
   * table's key schema; the first failing description ends the attempt.
   */
  function DescribeAll(store: Store, names: seq<string>, schemas: map<string, TableSchema>): Discovery
    decreases |names|
  {
    if |names| == 0 then Discovery(schemas, None, [])
    else
      var d := DescribeAll(store, names[..|names| - 1], schemas);
      if d.failure.Some? then d
      else
        var t := names[|names| - 1];
        var cleared := d.schemas[t := NoKeys];
        var requests := d.requests + [DescribeTableCommand(t)];
        match store.keySchema(t)
        case Failure(e) => Discovery(cleared, Some(e), requests)
        case Success(ks) => Discovery(cleared[t := SchemaOf(ks)], None, requests)
  }

  /** What `init` does to a cache: nothing once initialised, otherwise list and describe every table. */
  function Discover(store: Store, inited: bool, schemas: map<string, TableSchema>): (d: Discovery)
    ensures inited ==> d == Discovery(schemas, None, [])
  {
    if inited then Discovery(schemas, None, [])
    else match store.tableNames
      case Failure(e) => Discovery(schemas, Some(e), [ListTablesCommand])
      case Success(names) =>
        var d := DescribeAll(store, names, schemas);
        d.(requests := [ListTablesCommand] + d.requests)
  }

  /** One `DescribeTable` request per name, in order. */
  function Describes(names: seq<string>): (rs: seq<Command>)
    ensures |rs| == |names| && forall i :: 0 <= i < |names| ==> rs[i] == DescribeTableCommand(names[i])
  {
    seq(|names|, i requires 0 <= i < |names| => DescribeTableCommand(names[i]))
  }

  /** A complete discovery adds an entry for every listed table and removes none. */
  lemma {:induction false} DescribeAllEntryNames(store: Store, names: seq<string>, schemas: map<string, TableSchema>)
    requires DescribeAll(store, names, schemas).failure.None?
    ensures forall t :: t in DescribeAll(store, names, schemas).schemas <==> t in schemas || t in names
    decreases |names|
  {
    if |names| > 0 {
      var init, t := names[..|names| - 1], names[|names| - 1];
      DescribeAllEntryNames(store, init, schemas);
      assert DescribeAll(store, names, schemas).schemas.Keys == DescribeAll(store, init, schemas).schemas.Keys + {t};
      assert names == init + [t];
    }
  }

  /** After a complete discovery, every listed table's entry is the one built from its key schema. */
  lemma {:induction false} DescribeAllEntryValues(store: Store, names: seq<string>, schemas: map<string, TableSchema>)
    requires DescribeAll(store, names, schemas).failure.None?
    ensures forall t :: t in names ==>
      && store.keySchema(t).Success?
      && t in DescribeAll(store, names, schemas).schemas
      && DescribeAll(store, names, schemas).schemas[t] == SchemaOf(store.keySchema(t).value)
    decreases |names|
  {
    if |names| > 0 {
      var init, t := names[..|names| - 1], names[|names| - 1];
      DescribeAllEntryValues(store, init, schemas);
      assert DescribeAll(store, names, schemas).schemas == DescribeAll(store, init, schemas).schemas[t := SchemaOf(store.keySchema(t).value)];
      forall u | u in names && u != t ensures u in init {
        assert names == init + [t];
      }
    }
  }

  /** A complete discovery keeps the entries of tables that are not listed. */
  lemma {:induction false} DescribeAllKeepsOthers(store: Store, names: seq<string>, schemas: map<string, TableSchema>)
    requires DescribeAll(store, names, schemas).failure.None?
    ensures forall t :: t in schemas && t !in names ==>
      t in DescribeAll(store, names, schemas).schemas && DescribeAll(store, names, schemas).schemas[t] == schemas[t]
    decreases |names|
  {
    if |names| > 0 {
      var init, t := names[..|names| - 1], names[|names| - 1];
      DescribeAllKeepsOthers(store, init, schemas);
      DescribeAllEntryNames(store, init, schemas);
      forall u | u in schemas && u !in names ensures u !in init && u != t {
        assert names == init + [t];
      }
    }
  }

  /**
   * A complete discovery leaves an entry for every listed table, built from that table's key
   * schema, and leaves the entries of other tables as they were; it describes each table once,
   * in order.
   */
  lemma DescribeAllRecordsEveryTable(store: Store, names: seq<string>, schemas: map<string, TableSchema>)
    requires DescribeAll(store, names, schemas).failure.None?
    ensures var d := DescribeAll(store, names, schemas);
      && (forall t :: t in d.schemas <==> t in schemas || t in names)
      && (forall t :: t in names ==>
            store.keySchema(t).Success? && d.schemas[t] == SchemaOf(store.keySchema(t).value))
      && (forall t :: t in schemas && t !in names ==> d.schemas[t] == schemas[t])
      && d.requests == Describes(names)
  {
    DescribeAllEntryNames(store, names, schemas);
    DescribeAllEntryValues(store, names, schemas);
    DescribeAllKeepsOthers(store, names, schemas);
    DescribeAllDescribesEach(store, names, schemas);
  }

  /** Once describing a prefix of the tables fails, the tables after it are never described. */
  lemma {:induction false} DescribeAllStopsAtPrefix(store: Store, names: seq<string>, k: nat, schemas: map<string, TableSchema>)
    requires k <= |names|
    requires DescribeAll(store, names[..k], schemas).failure.Some?
    ensures DescribeAll(store, names, schemas) == DescribeAll(store, names[..k], schemas)
    decreases |names| - k
  {
    if k < |names| {
      var init := names[..|names| - 1];
      assert init[..k] == names[..k];
      DescribeAllStopsAtPrefix(store, init, k, schemas);
    } else {
      assert names[..k] == names;
    }
  }

  /** A discovery whose last description is the first to fail described every table, in order. */
  lemma DescribeAllFailsAtLast(store: Store, names: seq<string>, schemas: map<string, TableSchema>)
    requires |names| > 0
    requires DescribeAll(store, names[..|names| - 1], schemas).failure.None?
    requires DescribeAll(store, names, schemas).failure.Some?
    ensures DescribeAll(store, names, schemas).requests == Describes(names)
    ensures store.keySchema(names[|names| - 1]) == Failure(DescribeAll(store, names, schemas).failure.value)
    ensures forall i :: 0 <= i < |names| - 1 ==> store.keySchema(names[i]).Success?
  {
    var init, t := names[..|names| - 1], names[|names| - 1];
    var d0, d := DescribeAll(store, init, schemas), DescribeAll(store, names, schemas);
    assert d.requests == d0.requests + [DescribeTableCommand(t)];
    assert store.keySchema(t) == Failure(d.failure.value);
    DescribeAllDescribesEach(store, init, schemas);
    assert Describes(names) == Describes(init) + [DescribeTableCommand(t)];
    assert forall i :: 0 <= i < |names| - 1 ==> names[i] == init[i];
  }

  /** A complete discovery describes every table, in order, and every description succeeds. */
  lemma {:induction false} DescribeAllDescribesEach(store: Store, names: seq<string>, schemas: map<string, TableSchema>)
    requires DescribeAll(store, names, schemas).failure.None?
    ensures DescribeAll(store, names, schemas).requests == Describes(names)
    ensures forall i :: 0 <= i < |names| ==> store.keySchema(names[i]).Success?
    decreases |names|
  {
    if |names| > 0 {
      var init, t := names[..|names| - 1], names[|names| - 1];
      DescribeAllDescribesEach(store, init, schemas);
      assert Describes(names) == Describes(init) + [DescribeTableCommand(t)];
      assert forall i :: 0 <= i < |names| - 1 ==> names[i] == init[i];
    }
  }

  /**
   * A discovery that fails has described, in order, the first `n` listed tables, every one of
   * them successfully except the last, whose failure it reports.
   */
  lemma {:induction false} DescribeAllStopsAtFailure(store: Store, names: seq<string>, schemas: map<string, TableSchema>)
    returns (n: nat)
    requires DescribeAll(store, names, schemas).failure.Some?
    ensures 0 < n <= |names|
    ensures DescribeAll(store, names, schemas).requests == Describes(names[..n])
    ensures store.keySchema(names[n - 1]) == Failure(DescribeAll(store, names, schemas).failure.value)
    ensures forall i :: 0 <= i < n - 1 ==> store.keySchema(names[i]).Success?
    decreases |names|
  {
    var init, t := names[..|names| - 1], names[|names| - 1];
    var d0 := DescribeAll(store, init, schemas);
    var d := DescribeAll(store, names, schemas);
    if d0.failure.Some? {
      n := DescribeAllStopsAtFailure(store, init, schemas);
      assert d == d0;
      assert init[..n] == names[..n];
      assert forall i :: 0 <= i < n ==> init[i] == names[i];
    } else {
      n := |names|;
      assert names[..n] == names;
      DescribeAllFailsAtLast(store, names, schemas);
    }
  }
}
