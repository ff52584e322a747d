/**
 * `DynamoClient`: a façade over the document store that discovers the tables' key schemas once,
 * then inserts, queries (by key condition or by scan and filter) and updates items.
 */
module Client {
  import opened Js
  import opened Outcomes
  import opened DocumentStore
  import opened Pager
  import opened SchemaCache
  import opened Planner
  import opened UpdateBuilder

  class DynamoClient {
    /** The store this client sends its requests to. */
    const store: Store
    var isInited: bool
    var tableSchemas: map<string, TableSchema>
    /** Every request sent to the store so far, in order. */
    ghost var sent: seq<Command>

    constructor (store: Store)
      ensures this.store == store && !isInited && tableSchemas == map[] && sent == []
    {
      this.store := store;
      isInited := false;
      tableSchemas := map[];
      sent := [];
    }

    /** What a call of `init` would do from the current state. */
    ghost function PendingDiscovery(): Discovery
      reads this
    {
      Discover(store, isInited, tableSchemas)
    }

    /** The cache and the flag are those that discovery `d` leaves. */
    ghost predicate Settled(d: Discovery)
      reads this
    {
      tableSchemas == d.schemas && isInited == d.failure.None?
    }

    /**
     * Discover every table's key schema, once. A call on an initialised client changes nothing and
     * sends nothing; otherwise the flag is set only when every listed table was described, and then
     * every listed table has an entry whose partition key is its HASH attribute and whose sort key
     * is its RANGE attribute.
     */
    method Init() returns (r: Result<()>)
      modifies this
      ensures var d := old(PendingDiscovery());
        && Settled(d)
        && sent == old(sent) + d.requests
        && r == if d.failure.Some? then Failure(d.failure.value) else Success(())
      ensures old(isInited) ==> isInited && tableSchemas == old(tableSchemas) && sent == old(sent) && r.Success?
      ensures isInited && !old(isInited) ==>
        && store.tableNames.Success?
        && forall t :: t in store.tableNames.value ==>
             && store.keySchema(t).Success?
             && t in tableSchemas
             && Designates(store.keySchema(t).value, "HASH", tableSchemas[t].partitionKey)
             && Designates(store.keySchema(t).value, "RANGE", tableSchemas[t].sortKey)
    {
      if isInited {
        return Success(());
      }
      sent := sent + [ListTablesCommand];
      var res := store.tableNames;
      if res.Failure? {
        return Failure(res.error);
      }
      var names := res.value;
      ghost var before := tableSchemas;
      var failure := DescribeTables(names);
      if failure.Some? {
        return Failure(failure.value);
      }
      isInited := true;
      DescribeAllRecordsEveryTable(store, names, before);
      forall t | t in names
        ensures Designates(store.keySchema(t).value, "HASH", tableSchemas[t].partitionKey)
        ensures Designates(store.keySchema(t).value, "RANGE", tableSchemas[t].sortKey)
      {
        SchemaOfDesignatesKeys(store.keySchema(t).value);
      }
      return Success(());
    }

    /**
     * Describe one table: its entry is reset to `{}` before the request is sent, then filled from
     * the key schema, the HASH element naming the partition key and the RANGE element the sort key.
     */
    method DescribeTable(table: string) returns (failure: Option<Error>)
      modifies this
      ensures isInited == old(isInited)
      ensures sent == old(sent) + [DescribeTableCommand(table)]
      ensures match store.keySchema(table)
        case Failure(e) => failure == Some(e) && tableSchemas == old(tableSchemas)[table := NoKeys]
        case Success(ks) => failure.None? && tableSchemas == old(tableSchemas)[table := SchemaOf(ks)]
    {
      tableSchemas := tableSchemas[table := NoKeys];
      ghost var cleared := tableSchemas;
      sent := sent + [DescribeTableCommand(table)];
      var res := store.keySchema(table);
      if res.Failure? {
        return Some(res.error);
      }
      var keys := res.value;
      for j := 0 to |keys|
        invariant tableSchemas == cleared[table := RecordAll(NoKeys, keys[..j])]
        invariant sent == old(sent) + [DescribeTableCommand(table)]
        invariant isInited == old(isInited)
      {
        var key := keys[j];
        ghost var entry := RecordAll(NoKeys, keys[..j]);
        assert tableSchemas[table] == entry;
        assert RecordAll(NoKeys, keys[..j + 1]) == Record(entry, key) by {
          assert keys[..j + 1][..j] == keys[..j];
        }
        if key.keyType == "HASH" {
          tableSchemas := tableSchemas[table := tableSchemas[table].(partitionKey := Some(key.attributeName))];
        } else if key.keyType == "RANGE" {
          tableSchemas := tableSchemas[table := tableSchemas[table].(sortKey := Some(key.attributeName))];
        }
      }
      assert keys[..|keys|] == keys;
      assert tableSchemas == old(tableSchemas)[table := SchemaOf(keys)];
      return None;
    }

    /** Describe the listed tables in order, stopping at the first failure. */
    method DescribeTables(names: seq<string>) returns (failure: Option<Error>)
      modifies this
      ensures isInited == old(isInited)
      ensures var d := DescribeAll(store, names, old(tableSchemas));
        tableSchemas == d.schemas && failure == d.failure && sent == old(sent) + d.requests
    {
      ghost var before := tableSchemas;
      for i := 0 to |names|
        invariant DescribeAll(store, names[..i], before).failure.None?
        invariant tableSchemas == DescribeAll(store, names[..i], before).schemas
        invariant sent == old(sent) + DescribeAll(store, names[..i], before).requests
        invariant isInited == old(isInited)
      {
        assert names[..i + 1][..i] == names[..i];
        failure := DescribeTable(names[i]);
        if failure.Some? {
          DescribeAllStopsAtPrefix(store, names, i + 1, before);
          return;
        }
      }
      assert names[..|names|] == names;
      return None;
    }

    /** Initialise, then put `obj` unchanged into `table`. */
    method Insert(table: string, obj: Object) returns (r: Result<()>)
      modifies this
      ensures Settled(old(PendingDiscovery()))
      ensures var d := old(PendingDiscovery());
        d.failure.Some? ==> r == Failure(d.failure.value) && sent == old(sent) + d.requests
      ensures var d := old(PendingDiscovery());
        d.failure.None? ==>
          && r == store.put(PutInput(table, obj))
          && sent == old(sent) + d.requests + [PutCommand(PutInput(table, obj))]
    {
      var init := Init();
      if init.Failure? {
        return Failure(init.error);
      }
      var command := PutInput(table, obj);
      sent := sent + [PutCommand(command)];
      r := store.put(command);
    }

    /** Send a key-condition query and follow its continuation tokens, concatenating the pages. */
    method QueryInternal(table: string, keyConditionExpression: string, expressionAttributeValues: map<string, Value>)
      returns (r: Result<seq<Object>>, ghost requests: seq<Command>)
      requires EndsWithin(store, QueryListing(table, keyConditionExpression, expressionAttributeValues), None, store.maxFollowUps)
      ensures r == Drain(store, QueryListing(table, keyConditionExpression, expressionAttributeValues), None, store.maxFollowUps)
      ensures requests == DrainRequests(store, QueryListing(table, keyConditionExpression, expressionAttributeValues), None, store.maxFollowUps)
    {
      ghost var l := QueryListing(table, keyConditionExpression, expressionAttributeValues);
      var input := QueryInput(table, keyConditionExpression, expressionAttributeValues, None);
      var res := store.query(input);
      requests := [QueryCommand(input)];
      if res.Failure? {
        return Failure(res.error), requests;
      }
      var page := res.value;
      var items := page.items;
      ghost var fuel := store.maxFollowUps;
      DrainFirstPage(store, l, None, fuel, page);
      while page.lastEvaluatedKey.Some?
        invariant MoreWithin(store, l, page, fuel)
        invariant Prepend(items, Rest(store, l, page, fuel)) == Drain(store, l, None, store.maxFollowUps)
        invariant requests + RestRequests(store, l, page, fuel) == DrainRequests(store, l, None, store.maxFollowUps)
        decreases fuel
      {
        input := QueryInput(table, keyConditionExpression, expressionAttributeValues, page.lastEvaluatedKey);
        res := store.query(input);
        requests := requests + [QueryCommand(input)];
        if res.Failure? {
          return Failure(res.error), requests;
        }
        DrainFirstPage(store, l, page.lastEvaluatedKey, fuel - 1, res.value);
        PrependTwice(items, res.value.items, Rest(store, l, res.value, fuel - 1));
        page, fuel := res.value, fuel - 1;
        items := items + page.items;
      }
      assert items + [] == items;
      return Success(items), requests;
    }

    /** Send a scan and follow its continuation tokens, concatenating the pages. */
    method ScanInternal(table: string) returns (r: Result<seq<Object>>, ghost requests: seq<Command>)
      requires EndsWithin(store, ScanListing(table), None, store.maxFollowUps)
      ensures r == Drain(store, ScanListing(table), None, store.maxFollowUps)
      ensures requests == DrainRequests(store, ScanListing(table), None, store.maxFollowUps)
    {
      ghost var l := ScanListing(table);
      var input := ScanInput(table, None);
      var res := store.scan(input);
      requests := [ScanCommand(input)];
      if res.Failure? {
        return Failure(res.error), requests;
      }
      var page := res.value;
      var items := page.items;
      ghost var fuel := store.maxFollowUps;
      DrainFirstPage(store, l, None, fuel, page);
      while page.lastEvaluatedKey.Some?
        invariant MoreWithin(store, l, page, fuel)
        invariant Prepend(items, Rest(store, l, page, fuel)) == Drain(store, l, None, store.maxFollowUps)
        invariant requests + RestRequests(store, l, page, fuel) == DrainRequests(store, l, None, store.maxFollowUps)
        decreases fuel
      {
        input := ScanInput(table, page.lastEvaluatedKey);
        res := store.scan(input);
        requests := requests + [ScanCommand(input)];
        if res.Failure? {
          return Failure(res.error), requests;
        }
        DrainFirstPage(store, l, page.lastEvaluatedKey, fuel - 1, res.value);
        PrependTwice(items, res.value.items, Rest(store, l, res.value, fuel - 1));
        page, fuel := res.value, fuel - 1;
        items := items + page.items;
      }
      assert items + [] == items;
      return Success(items), requests;
    }

    /**
     * Initialise, plan the predicate into a key-condition query or a scan, fetch every page, and
     * shape the answer: every item, the first item, `null` or `undefined`.
     */
    method Query(table: string, pred: Object, isSingle: bool) returns (r: Result<Answer>)
      requires Finite(store)
      modifies this
      ensures Settled(old(PendingDiscovery()))
      ensures var d := old(PendingDiscovery());
        d.failure.Some? ==> r == Failure(d.failure.value) && sent == old(sent) + d.requests
      ensures var d := old(PendingDiscovery());
        d.failure.None? ==>
          && r == QueryOutcome(store, Lookup(d.schemas, table), table, pred, isSingle)
          && sent == old(sent) + d.requests + QueryRequests(store, Lookup(d.schemas, table), table, pred)
    {
      var init := Init();
      if init.Failure? {
        return Failure(init.error);
      }
      var schema := Lookup(tableSchemas, table);
      var planned := PlanQuery(schema, pred);
      if planned.Failure? {
        return Failure(planned.error);
      }
      var plan := planned.value;
      var keyConditionExpression := Join(plan.keyConditionParts, " AND ");
      assert EndsWithin(store, ListingFor(table, plan), None, store.maxFollowUps);
      var fetched: Result<seq<Object>>;
      ghost var requests: seq<Command>;
      if plan.useScan {
        fetched, requests := ScanInternal(table);
      } else {
        fetched, requests := QueryInternal(table, keyConditionExpression, plan.expressionAttributeValues);
      }
      sent := sent + requests;
      if fetched.Failure? {
        return Failure(fetched.error);
      }
      var items := fetched.value;
      if |items| == 0 && isSingle {
        return Success(NullAnswer);
      }
      var reduced := ReduceItems(items, pred, plan.useScan);
      if isSingle {
        return Success(if |reduced| > 0 then Item(reduced[0]) else UndefinedAnswer);
      }
      return Success(Items(reduced));
    }

    /**
     * Initialise, then update the item whose key is taken from the predicate: attributes given a
     * value are SET, attributes given null or undefined are REMOVEd.
     */
    method Update(table: string, pred: Object, obj: Object) returns (r: Result<()>)
      modifies this
      ensures Settled(old(PendingDiscovery()))
      ensures var d := old(PendingDiscovery());
        d.failure.Some? ==> r == Failure(d.failure.value) && sent == old(sent) + d.requests
      ensures var d := old(PendingDiscovery());
        d.failure.None? ==>
          match UpdateRequest(Lookup(d.schemas, table), table, pred, obj)
          case Failure(e) => r == Failure(e) && sent == old(sent) + d.requests
          case Success(u) => r == store.update(u) && sent == old(sent) + d.requests + [UpdateCommand(u)]
    {
      var init := Init();
      if init.Failure? {
        return Failure(init.error);
      }
      var keyDict := ExtractKey(Lookup(tableSchemas, table), pred);
      if keyDict.Failure? {
        return Failure(keyDict.error);
      }
      var setExpressionParts, removeExpressionParts, expressionAttributeValues := SplitUpdate(obj);
      var updateExpression := AssembleUpdateExpression(setExpressionParts, removeExpressionParts);
      var command := UpdateInput(table, keyDict.value, updateExpression, expressionAttributeValues);
      sent := sent + [UpdateCommand(command)];
      r := store.update(command);
    }
  }
}
