/** The pieces of DynamoDB expression syntax the client writes. */
module Expressions {

  /** `key + ' = :' + key` */
  function Term(k: string): string {
    k + " = :" + k
  }

  /** `':' + key` */
  function Placeholder(k: string): string {
    ":" + k
  }

  lemma PlaceholderInjective(a: string, b: string)
    ensures Placeholder(a) == Placeholder(b) ==> a == b
  {
    assert Placeholder(a)[1..] == a && Placeholder(b)[1..] == b;
  }
}

/**
 * The predicate planner of `query`: from a predicate it builds a key-condition query when the
 * predicate names the table's partition key and falls back to a scan otherwise; scanned items
 * are then filtered by strict equality on every predicate attribute.
 */
module Planner {
  import opened Js
  import opened Outcomes
  import opened DocumentStore
  import opened Pager
  import opened SchemaCache
  import opened Expressions

  /** The terms one predicate key adds: one if it is the partition key, one more if it is the sort key. */
  function TermsFor(s: TableSchema, k: string): seq<string> {
    (if s.IsPartitionKey(k) then [Term(k)] else []) + (if s.IsSortKey(k) then [Term(k)] else [])
  }

  /** The key-condition terms of a predicate, in predicate order. */
  function KeyTerms(s: TableSchema, pred: seq<Entry>): seq<string>
    decreases |pred|
  {
    if |pred| == 0 then [] else KeyTerms(s, pred[..|pred| - 1]) + TermsFor(s, pred[|pred| - 1].0)
  }

  /** The placeholder bindings of a predicate: `:k` to the string form of the value of each key attribute `k`. */
  function KeyValues(s: TableSchema, pred: seq<Entry>): map<string, Value>
    requires KeyValuesDefined(s, pred)
    decreases |pred|
  {
    if |pred| == 0 then map[]
    else
      var vals := KeyValues(s, pred[..|pred| - 1]);
      var (k, v) := pred[|pred| - 1];
      if s.IsKeyAttribute(k) then vals[Placeholder(k) := Str(ToString(v))] else vals
  }

  /** No predicate key is the partition key. */
  predicate NeedsScan(s: TableSchema, pred: seq<Entry>) {
    forall i :: 0 <= i < |pred| ==> !s.IsPartitionKey(pred[i].0)
  }

  datatype QueryPlan = QueryPlan(useScan: bool, keyConditionParts: seq<string>, expressionAttributeValues: map<string, Value>)

  /**
   * What the planning loop of `query` produces for a table whose cache entry is `schema`:
   * it fails on a missing entry (unless the predicate is empty, when the entry is never read)
   * and on a null or undefined key value.
   */
  function Plan(schema: Option<TableSchema>, pred: seq<Entry>): Result<QueryPlan> {
    var s := SchemaOrEmpty(schema);
    if schema.None? && |pred| > 0 then Failure(UnknownTable)
    else if !KeyValuesDefined(s, pred) then Failure(NullKeyValue)
    else Success(QueryPlan(NeedsScan(s, pred), KeyTerms(s, pred), KeyValues(s, pred)))
  }

  /** The planning loop of `query`. */
  method PlanQuery(schema: Option<TableSchema>, pred: Object) returns (r: Result<QueryPlan>)
    ensures r == Plan(schema, pred)
  {
    var parts: seq<string> := [];
    var values: map<string, Value> := map[];
    var useScan := true;
    ghost var s := SchemaOrEmpty(schema);
    for i := 0 to |pred|
      invariant schema.None? ==> i == 0
      invariant KeyValuesDefined(s, pred[..i])
      invariant parts == KeyTerms(s, pred[..i])
      invariant values == KeyValues(s, pred[..i])
      invariant useScan == NeedsScan(s, pred[..i])
    {
      if schema.None? {
        return Failure(UnknownTable);
      }
      var (key, value) := pred[i];
      PlanStep(s, pred, i);
      if schema.value.partitionKey == Some(key) {
        parts := parts + [Term(key)];
        if IsNullish(value) {
          return Failure(NullKeyValue);
        }
        values := values[Placeholder(key) := Str(ToString(value))];
        useScan := false;
      }
      if schema.value.sortKey == Some(key) {
        parts := parts + [Term(key)];
        if IsNullish(value) {
          return Failure(NullKeyValue);
        }
        values := values[Placeholder(key) := Str(ToString(value))];
      }
    }
    assert pred[..|pred|] == pred;
    return Success(QueryPlan(useScan, parts, values));
  }

  /** How the planning functions of a predicate prefix grow by one entry. */
  lemma PlanStep(s: TableSchema, pred: seq<Entry>, i: nat)
    requires i < |pred|
    ensures var (k, v) := pred[i];
      && KeyTerms(s, pred[..i + 1]) == KeyTerms(s, pred[..i]) + TermsFor(s, k)
      && NeedsScan(s, pred[..i + 1]) == (NeedsScan(s, pred[..i]) && !s.IsPartitionKey(k))
      && (KeyValuesDefined(s, pred[..i + 1]) <==> KeyValuesDefined(s, pred[..i]) && (s.IsKeyAttribute(k) ==> !IsNullish(v)))
      && (KeyValuesDefined(s, pred) ==> KeyValuesDefined(s, pred[..i + 1]))
      && (KeyValuesDefined(s, pred[..i + 1]) ==>
            KeyValues(s, pred[..i + 1]) ==
              if s.IsKeyAttribute(k) then KeyValues(s, pred[..i])[Placeholder(k) := Str(ToString(v))] else KeyValues(s, pred[..i]))
  {
    var p := pred[..i + 1];
    assert p[..i] == pred[..i] && p[i] == pred[i];
    assert forall j :: 0 <= j < i ==> p[j] == pred[j];
  }

  /** The terms of a longer predicate extend those of its prefix: they follow predicate order. */
  lemma {:induction false} KeyTermsAppend(s: TableSchema, a: seq<Entry>, b: seq<Entry>)
    ensures KeyTerms(s, a + b) == KeyTerms(s, a) + KeyTerms(s, b)
    decreases |b|
  {
    if |b| == 0 {
      assert a + b == a;
    } else {
      var b' := b[..|b| - 1];
      assert (a + b)[..|a + b| - 1] == a + b';
      assert (a + b)[|a + b| - 1] == b[|b| - 1];
      KeyTermsAppend(s, a, b');
    }
  }

  /** There is a term `k = :k` exactly for the predicate keys `k` that are key attributes. */
  lemma {:induction false} KeyTermsMembership(s: TableSchema, pred: seq<Entry>, t: string)
    ensures t in KeyTerms(s, pred) <==> exists i :: 0 <= i < |pred| && s.IsKeyAttribute(pred[i].0) && t == Term(pred[i].0)
    decreases |pred|
  {
    if |pred| > 0 {
      var init, e := pred[..|pred| - 1], pred[|pred| - 1];
      KeyTermsMembership(s, init, t);
      if exists i :: 0 <= i < |init| && s.IsKeyAttribute(init[i].0) && t == Term(init[i].0) {
        var i :| 0 <= i < |init| && s.IsKeyAttribute(init[i].0) && t == Term(init[i].0);
        assert pred[i] == init[i];
      }
      if t in KeyTerms(s, pred) && t !in KeyTerms(s, init) {
        assert s.IsKeyAttribute(pred[|pred| - 1].0) && t == Term(pred[|pred| - 1].0);
      }
    }
  }

  /** The query binds nothing but `:k` for predicate keys `k` that are key attributes: this returns the `k`. */
  lemma {:induction false} KeyValuesOnlyForKeys(s: TableSchema, pred: Object, p: string) returns (i: nat)
    requires KeyValuesDefined(s, pred)
    requires p in KeyValues(s, pred)
    ensures i < |pred| && s.IsKeyAttribute(pred[i].0) && p == Placeholder(pred[i].0)
    decreases |pred|
  {
    var init: Object := pred[..|pred| - 1];
    var (k, v) := pred[|pred| - 1];
    var vals := KeyValues(s, init);
    assert KeyValues(s, pred) == if s.IsKeyAttribute(k) then vals[Placeholder(k) := Str(ToString(v))] else vals;
    if s.IsKeyAttribute(k) && p == Placeholder(k) {
      i := |pred| - 1;
    } else {
      i := KeyValuesOnlyForKeys(s, init, p);
      assert init[i] == pred[i];
    }
  }

  /** Each `:k` the query binds holds the string form of the predicate's value for `k`. */
  lemma {:induction false} KeyValuesHoldStringForms(s: TableSchema, pred: Object)
    requires KeyValuesDefined(s, pred)
    ensures forall i :: 0 <= i < |pred| && s.IsKeyAttribute(pred[i].0) ==>
      Placeholder(pred[i].0) in KeyValues(s, pred) && KeyValues(s, pred)[Placeholder(pred[i].0)] == Str(ToString(pred[i].1))
    decreases |pred|
  {
    if |pred| > 0 {
      var init: Object := pred[..|pred| - 1];
      var (k, v) := pred[|pred| - 1];
      KeyValuesHoldStringForms(s, init);
      var vals := KeyValues(s, init);
      assert KeyValues(s, pred) == if s.IsKeyAttribute(k) then vals[Placeholder(k) := Str(ToString(v))] else vals;
      forall i | 0 <= i < |pred| - 1 && s.IsKeyAttribute(pred[i].0)
        ensures Placeholder(pred[i].0) in KeyValues(s, pred)
        ensures KeyValues(s, pred)[Placeholder(pred[i].0)] == Str(ToString(pred[i].1))
      {
        assert pred[i] == init[i];
        assert pred[i].0 != k;
        PlaceholderInjective(pred[i].0, k);
      }
    }
  }

  /** `item[k] === predicate[k]` for every key `k` of the predicate. */
  predicate Matches(item: seq<Entry>, pred: seq<Entry>) {
    forall i :: 0 <= i < |pred| ==> Get(item, pred[i].0) == pred[i].1
  }

  /** The items that match the predicate, in their original order. */
  function Filter(items: seq<Object>, pred: seq<Entry>): seq<Object>
    decreases |items|
  {
    if |items| == 0 then []
    else
      var last := items[|items| - 1];
      Filter(items[..|items| - 1], pred) + (if Matches(last, pred) then [last] else [])
  }

  /** The inner loop of the scan filter: does the item match the predicate? */
  method AllMatch(item: Object, pred: Object) returns (allMatch: bool)
    ensures allMatch <==> Matches(item, pred)
  {
    allMatch := true;
    for i := 0 to |pred|
      invariant allMatch
      invariant forall j :: 0 <= j < i ==> Get(item, pred[j].0) == pred[j].1
    {
      var (key, value) := pred[i];
      if Get(item, key) != value {
        allMatch := false;
        break;
      }
    }
  }

  /** The reduction loop of `query`: every fetched item on the query path, the matching ones on the scan path. */
  method ReduceItems(items: seq<Object>, pred: Object, useScan: bool) returns (reduced: seq<Object>)
    ensures reduced == if useScan then Filter(items, pred) else items
  {
    reduced := [];
    for i := 0 to |items|
      invariant reduced == if useScan then Filter(items[..i], pred) else items[..i]
    {
      var item := items[i];
      assert items[..i + 1] == items[..i] + [item];
      if useScan {
        var allMatch := AllMatch(item, pred);
        if !allMatch {
          continue;
        }
      }
      reduced := reduced + [item];
    }
    assert items[..|items|] == items;
  }

  /** Filtering distributes over concatenation: pages can be filtered one by one, in order. */
  lemma {:induction false} FilterAppend(a: seq<Object>, b: seq<Object>, pred: seq<Entry>)
    ensures Filter(a + b, pred) == Filter(a, pred) + Filter(b, pred)
    decreases |b|
  {
    if |b| == 0 {
      assert a + b == a;
    } else {
      var b' := b[..|b| - 1];
      assert (a + b)[..|a + b| - 1] == a + b';
      assert (a + b)[|a + b| - 1] == b[|b| - 1];
      FilterAppend(a, b', pred);
    }
  }

  /** An item survives the filter exactly when it was fetched and matches the predicate. */
  lemma {:induction false} FilterMembership(items: seq<Object>, pred: seq<Entry>, x: Object)
    ensures x in Filter(items, pred) <==> x in items && Matches(x, pred)
    decreases |items|
  {
    if |items| > 0 {
      var init := items[..|items| - 1];
      FilterMembership(init, pred, x);
      assert items == init + [items[|items| - 1]];
    }
  }

  /** The first item that survives the filter is the first fetched item that matches. */
  lemma {:induction false} FilterFirst(items: seq<Object>, pred: seq<Entry>) returns (n: nat)
    requires |Filter(items, pred)| > 0
    ensures n < |items| && Filter(items, pred)[0] == items[n] && Matches(items[n], pred)
    ensures forall j :: 0 <= j < n ==> !Matches(items[j], pred)
    decreases |items|
  {
    var init := items[..|items| - 1];
    if |Filter(init, pred)| > 0 {
      n := FilterFirst(init, pred);
    } else {
      n := |items| - 1;
      forall j | 0 <= j < n ensures !Matches(items[j], pred) {
        FilterMembership(init, pred, items[j]);
        assert items[j] == init[j];
      }
    }
  }

  /** What `query` returns: a list of items, one item, `null` or `undefined`. */
  datatype Answer = Items(items: seq<Object>) | Item(item: Object) | NullAnswer | UndefinedAnswer

  /** The listing the plan sends to the pager. */
  function ListingFor(table: string, plan: QueryPlan): Listing {
    if plan.useScan then ScanListing(table)
    else QueryListing(table, Join(plan.keyConditionParts, " AND "), plan.expressionAttributeValues)
  }

  /** The answer of `query` for the fetched items and their reduction. */
  function Shape(fetched: seq<Object>, reduced: seq<Object>, isSingle: bool): Answer {
    if |fetched| == 0 && isSingle then NullAnswer
    else if isSingle then (if |reduced| > 0 then Item(reduced[0]) else UndefinedAnswer)
    else Items(reduced)
  }

  /** What `query` returns once the cache is initialised, for a table whose cache entry is `schema`. */
  function QueryOutcome(store: Store, schema: Option<TableSchema>, table: string, pred: Object, isSingle: bool): Result<Answer>
    requires Finite(store)
  {
    match Plan(schema, pred)
    case Failure(e) => Failure(e)
    case Success(plan) =>
      var l := ListingFor(table, plan);
      assert EndsWithin(store, l, None, store.maxFollowUps);
      match Drain(store, l, None, store.maxFollowUps)
      case Failure(e) => Failure(e)
      case Success(items) =>
        Success(Shape(items, if plan.useScan then Filter(items, pred) else items, isSingle))
  }

  /** The requests `query` sends to the store once the cache is initialised. */
  function QueryRequests(store: Store, schema: Option<TableSchema>, table: string, pred: Object): seq<Command>
    requires Finite(store)
  {
    match Plan(schema, pred)
    case Failure(_) => []
    case Success(plan) =>
      var l := ListingFor(table, plan);
      assert EndsWithin(store, l, None, store.maxFollowUps);
      DrainRequests(store, l, None, store.maxFollowUps)
  }

  /**
   * The shape of a query's answer. Without `isSingle` it is every fetched item on the query path
   * and exactly the matching fetched items, in order, on the scan path. With `isSingle` it is
   * `null` exactly when nothing was fetched, `undefined` exactly when a scan fetched items of which
   * none matches, and otherwise the first fetched item (query path) or the first matching fetched
   * item (scan path).
   */
  lemma QueryAnswerShape(store: Store, schema: Option<TableSchema>, table: string, pred: Object, isSingle: bool, plan: QueryPlan, items: seq<Object>)
    requires Finite(store)
    requires Plan(schema, pred) == Success(plan)
    requires EndsWithin(store, ListingFor(table, plan), None, store.maxFollowUps)
    requires Drain(store, ListingFor(table, plan), None, store.maxFollowUps) == Success(items)
    ensures QueryOutcome(store, schema, table, pred, isSingle).Success?
    ensures var a := QueryOutcome(store, schema, table, pred, isSingle).value;
      && (!isSingle ==>
            && a.Items?
            && (forall x :: x in a.items <==> x in items && (plan.useScan ==> Matches(x, pred)))
            && (!plan.useScan ==> a.items == items))
      && (isSingle ==> !a.Items?)
      && (isSingle ==> (a == NullAnswer <==> |items| == 0))
      && (isSingle ==> (a == UndefinedAnswer <==>
            plan.useScan && |items| > 0 && forall j :: 0 <= j < |items| ==> !Matches(items[j], pred)))
      && (isSingle && !plan.useScan && |items| > 0 ==> a == Item(items[0]))
      && (isSingle && plan.useScan && a.Item? ==>
            exists n :: 0 <= n < |items| && a.item == items[n] && Matches(items[n], pred)
              && forall j :: 0 <= j < n ==> !Matches(items[j], pred))
  {
    var a := QueryOutcome(store, schema, table, pred, isSingle).value;
    if plan.useScan {
      forall x: Object ensures x in Filter(items, pred) <==> x in items && Matches(x, pred) {
        FilterMembership(items, pred, x);
      }
      if |Filter(items, pred)| > 0 {
        var n := FilterFirst(items, pred);
        FilterMembership(items, pred, items[n]);
      } else {
        forall j | 0 <= j < |items| ensures !Matches(items[j], pred) {
          FilterMembership(items, pred, items[j]);
        }
      }
    }
  }
}
