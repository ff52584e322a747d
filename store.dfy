/**
 * The document store the client talks to, as an abstract capability: the requests it accepts
 * and, for each, the answer it gives. Transport, credentials and the store's own matching
 * semantics are outside the model; the store's answers are fixed functions of the request.
 */
module DocumentStore {
  import opened Js
  import opened Outcomes

  /** One element of a table's key schema: an attribute name and its key type (`HASH`, `RANGE`, ...). */
  datatype KeySchemaElement = KeySchemaElement(attributeName: string, keyType: string)

  datatype QueryInput = QueryInput(
    tableName: string,
    keyConditionExpression: string,
    expressionAttributeValues: map<string, Value>,
    exclusiveStartKey: Option<Object>)

  datatype ScanInput = ScanInput(tableName: string, exclusiveStartKey: Option<Object>)

  datatype PutInput = PutInput(tableName: string, item: Object)

  datatype UpdateInput = UpdateInput(
    tableName: string,
    key: map<string, Value>,
    updateExpression: string,
    expressionAttributeValues: map<string, Value>)

  /** A request sent to the store, as recorded in the client's request log. */
  datatype Command =
    | ListTablesCommand
    | DescribeTableCommand(tableName: string)
    | QueryCommand(queryInput: QueryInput)
    | ScanCommand(scanInput: ScanInput)
    | PutCommand(putInput: PutInput)
    | UpdateCommand(updateInput: UpdateInput)

  /** One page of a query or scan: its items and, when more remain, the continuation token. */
  datatype Page = Page(items: seq<Object>, lastEvaluatedKey: Option<Object>)

  /**
   * The store's answer to every request. `maxFollowUps` bounds how many follow-up requests
   * any one listing needs before a page comes back without a continuation token.
   */
  datatype Store = Store(
    tableNames: Result<seq<string>>,
    keySchema: string -> Result<seq<KeySchemaElement>>,
    query: QueryInput -> Result<Page>,
    scan: ScanInput -> Result<Page>,
    put: PutInput -> Result<()>,
    update: UpdateInput -> Result<()>,
    maxFollowUps: nat)
}

/**
 * The pager: a query or scan is sent once, then re-sent with each response's continuation
 * token until a response carries none; the pages are concatenated in the order fetched.
 */
module Pager {
  import opened Js
  import opened Outcomes
  import opened DocumentStore

  /** What is being listed: a key-condition query or a full scan of one table. */
  datatype Listing =
    | QueryListing(tableName: string, keyConditionExpression: string, expressionAttributeValues: map<string, Value>)
    | ScanListing(tableName: string)

  /** The request for the page of `l` that starts after `start`. */
  function Request(l: Listing, start: Option<Object>): (c: Command)
    ensures c.QueryCommand? || c.ScanCommand?
  {
    match l
    case QueryListing(t, e, v) => QueryCommand(QueryInput(t, e, v, start))
    case ScanListing(t) => ScanCommand(ScanInput(t, start))
  }

  /** The continuation token a query or scan request carries. */
  function StartKey(c: Command): Option<Object> {
    match c
    case QueryCommand(q) => q.exclusiveStartKey
    case ScanCommand(s) => s.exclusiveStartKey
    case _ => None
  }

  /** The store's answer to the request for the page of `l` that starts after `start`. */
  function Fetch(store: Store, l: Listing, start: Option<Object>): Result<Page> {
    match l
    case QueryListing(t, e, v) => store.query(QueryInput(t, e, v, start))
    case ScanListing(t) => store.scan(ScanInput(t, start))
  }

  /** Following the tokens from `start` reaches a failure or a last page within `fuel` follow-ups. */
  predicate EndsWithin(store: Store, l: Listing, start: Option<Object>, fuel: nat)
    decreases fuel
  {
    match Fetch(store, l, start)
    case Failure(_) => true
    case Success(page) =>
      page.lastEvaluatedKey.None? || (fuel > 0 && EndsWithin(store, l, page.lastEvaluatedKey, fuel - 1))
  }

  /** Every listing ends within the store's bound on follow-up requests. */
  ghost predicate Finite(store: Store) {
    forall l :: EndsWithin(store, l, None, store.maxFollowUps)
  }

  function Prepend(items: seq<Object>, r: Result<seq<Object>>): Result<seq<Object>> {
    match r
    case Success(rest) => Success(items + rest)
    case Failure(e) => Failure(e)
  }

  /** All items of `l` from `start` on, or the first failure met on the way. */
  function Drain(store: Store, l: Listing, start: Option<Object>, fuel: nat): Result<seq<Object>>
    requires EndsWithin(store, l, start, fuel)
    decreases fuel
  {
    match Fetch(store, l, start)
    case Failure(e) => Failure(e)
    case Success(page) =>
      if page.lastEvaluatedKey.None? then Success(page.items)
      else Prepend(page.items, Drain(store, l, page.lastEvaluatedKey, fuel - 1))
  }

  /** The requests `Drain` issues, in order. */
  function DrainRequests(store: Store, l: Listing, start: Option<Object>, fuel: nat): seq<Command>
    requires EndsWithin(store, l, start, fuel)
    decreases fuel
  {
    [Request(l, start)] +
    match Fetch(store, l, start)
    case Failure(_) => []
    case Success(page) =>
      if page.lastEvaluatedKey.None? then [] else DrainRequests(store, l, page.lastEvaluatedKey, fuel - 1)
  }

  predicate MoreWithin(store: Store, l: Listing, page: Page, fuel: nat) {
    page.lastEvaluatedKey.Some? ==> fuel > 0 && EndsWithin(store, l, page.lastEvaluatedKey, fuel - 1)
  }

  /** The items of `l` that follow `page`. */
  function Rest(store: Store, l: Listing, page: Page, fuel: nat): Result<seq<Object>>
    requires MoreWithin(store, l, page, fuel)
  {
    if page.lastEvaluatedKey.None? then Success([]) else Drain(store, l, page.lastEvaluatedKey, fuel - 1)
  }

  /** The requests for the pages of `l` that follow `page`. */
  function RestRequests(store: Store, l: Listing, page: Page, fuel: nat): seq<Command>
    requires MoreWithin(store, l, page, fuel)
  {
    if page.lastEvaluatedKey.None? then [] else DrainRequests(store, l, page.lastEvaluatedKey, fuel - 1)
  }

  /** After the first page, draining goes on with the rest of the chain. */
  lemma DrainFirstPage(store: Store, l: Listing, start: Option<Object>, fuel: nat, page: Page)
    requires EndsWithin(store, l, start, fuel)
    requires Fetch(store, l, start) == Success(page)
    ensures MoreWithin(store, l, page, fuel)
    ensures Drain(store, l, start, fuel) == Prepend(page.items, Rest(store, l, page, fuel))
    ensures DrainRequests(store, l, start, fuel) == [Request(l, start)] + RestRequests(store, l, page, fuel)
  {
    if page.lastEvaluatedKey.None? {
      assert page.items + [] == page.items;
    }
  }

  lemma PrependTwice(a: seq<Object>, b: seq<Object>, r: Result<seq<Object>>)
    ensures Prepend(a, Prepend(b, r)) == Prepend(a + b, r)
  {
    if r.Success? {
      assert a + (b + r.value) == (a + b) + r.value;
    }
  }

  /**
   * The concatenation, in order, of the items of the pages that the requests `rs` return,
   * or the first failure among them.
   */
  function Collected(store: Store, l: Listing, rs: seq<Command>): Result<seq<Object>>
    decreases |rs|
  {
    if |rs| == 0 then Success([])
    else match Fetch(store, l, StartKey(rs[0]))
      case Failure(e) => Failure(e)
      case Success(page) => Prepend(page.items, Collected(store, l, rs[1..]))
  }

  /**
   * The requests of a drain follow the continuation tokens: the first starts at `start`, each
   * follow-up carries the token of the response before it, every response but the last carries
   * a token, and the last is a failure or carries none.
   */
  lemma {:induction false} DrainFollowsTokens(store: Store, l: Listing, start: Option<Object>, fuel: nat)
    requires EndsWithin(store, l, start, fuel)
    ensures var rs := DrainRequests(store, l, start, fuel);
      && |rs| > 0
      && rs[0] == Request(l, start)
      && (forall i :: 0 <= i < |rs| ==> rs[i] == Request(l, StartKey(rs[i])))
      && (forall i :: 0 <= i < |rs| - 1 ==>
            && Fetch(store, l, StartKey(rs[i])).Success?
            && Fetch(store, l, StartKey(rs[i])).value.lastEvaluatedKey.Some?
            && StartKey(rs[i + 1]) == Fetch(store, l, StartKey(rs[i])).value.lastEvaluatedKey)
      && (Fetch(store, l, StartKey(rs[|rs| - 1])).Failure?
          || Fetch(store, l, StartKey(rs[|rs| - 1])).value.lastEvaluatedKey.None?)
    decreases fuel
  {
    var rs := DrainRequests(store, l, start, fuel);
    assert StartKey(Request(l, start)) == start;
    match Fetch(store, l, start)
    case Failure(_) =>
    case Success(page) =>
      if page.lastEvaluatedKey.Some? {
        var tail := DrainRequests(store, l, page.lastEvaluatedKey, fuel - 1);
        DrainFollowsTokens(store, l, page.lastEvaluatedKey, fuel - 1);
        assert rs == [Request(l, start)] + tail;
        forall i | 0 <= i < |rs| - 1
          ensures Fetch(store, l, StartKey(rs[i])).Success?
          ensures Fetch(store, l, StartKey(rs[i])).value.lastEvaluatedKey.Some?
          ensures StartKey(rs[i + 1]) == Fetch(store, l, StartKey(rs[i])).value.lastEvaluatedKey
        {
          if i > 0 { assert rs[i] == tail[i - 1] && rs[i + 1] == tail[i]; }
        }
      }
  }

  /** Draining returns exactly the concatenation, in fetch order, of the pages its requests return. */
  lemma {:induction false} DrainIsConcatenation(store: Store, l: Listing, start: Option<Object>, fuel: nat)
    requires EndsWithin(store, l, start, fuel)
    ensures Drain(store, l, start, fuel) == Collected(store, l, DrainRequests(store, l, start, fuel))
    decreases fuel
  {
    var rs := DrainRequests(store, l, start, fuel);
    assert StartKey(rs[0]) == start;
    match Fetch(store, l, start)
    case Failure(_) =>
    case Success(page) =>
      if page.lastEvaluatedKey.None? {
        assert rs[1..] == [];
        assert page.items + [] == page.items;
      } else {
        DrainIsConcatenation(store, l, page.lastEvaluatedKey, fuel - 1);
        assert rs[1..] == DrainRequests(store, l, page.lastEvaluatedKey, fuel - 1);
      }
  }
}
