# DynamoClient, modelled in Dafny

This project models the class `DynamoClient` of `index.js`. The class is a small façade over a
DynamoDB document store. It does four things:

- **Schema cache** (`init`). Once, it lists the tables. For each table it records which attribute is the partition (HASH) key and which is the sort (RANGE) key. The `isInited` flag guards the cache.
- **Pager** (`queryInternal`, `scanInternal`). It sends a query or a scan, then re-sends it with each response's `LastEvaluatedKey` until a response carries none. The pages are concatenated in fetch order.
- **Predicate planner and scan filter** (`query`).
  - A predicate that names the table's partition key becomes a key-condition query. The condition is `k = :k` for each key attribute, joined with ` AND `, and each value is string-coerced.
  - Any other predicate becomes a full scan, filtered by strict equality on every predicate attribute.
  - `isSingle` then picks `null`, the first item, or `undefined`.
- **Update builder** (`update`).
  - The key of the item to update is the predicate's key attributes.
  - Attributes of the update object with a value become `SET` clauses. Those set to `null` or `undefined` become `REMOVE` clauses.
  - The clauses are assembled into one update expression.

`insert` initialises the cache and puts the object unchanged.

The store is an abstract value, `DocumentStore.Store`, whose fields are the answers to each kind
of request:

- the table list;
- a table's key schema;
- one page of a query or a scan, given an optional continuation token;
- the result of a put or an update.

Its field `maxFollowUps` bounds how many follow-up requests any listing needs. The JavaScript loop
has no such bound, but a listing that never ends would never return.

The class `Client.DynamoClient` has the source's own fields, `isInited` and `tableSchemas`. It
also keeps a ghost log `sent` of every request it sends. Every method of the class that sends
requests states how it extends `sent`; the pagers `QueryInternal` and `ScanInternal` return their
requests to `Query`, which appends them. So the contracts also describe the traffic: which requests
are sent, in what order, with which tokens, and that an initialised client sends no discovery
requests.

JavaScript values are the datatype `Js.Value` (`Str | Num | Bool | Null | Undefined`).

- A plain object is a sequence of (name, value) entries with distinct names, in `for...in` order.
- `o[k]` is `Js.Get`, which reads own properties only and gives `undefined` for a name the object does not have itself (see "Left out" for inherited names).
- `toString()` is `Js.ToString`, defined on every value except `null` and `undefined`.
- The two `TypeError`s the source can throw are error results: reading `.partitionKey` of an unknown table's missing cache entry, and calling `toString()` on a null or undefined key value.
- A store rejection is a third kind of error.

Quirks of `index.js` that the model keeps:

- There is no delete, no conditional guard on insert and no projection of returned attributes.
- The key-condition path is taken as soon as the partition key is in the predicate; whether the sort key is present does not matter.
- With `isSingle`, `null` comes back only when nothing was fetched. A scan that fetches items of which none match gives `undefined`.
- The `REMOVE` clause is preceded by a space even when there is no `SET` clause.

## Model

| member | source | states |
|---|---|---|
| `Client.DynamoClient.constructor` | index.js:36-40 | a new client is not initialised, has an empty cache and has sent nothing |
| `Client.DynamoClient.Init` | index.js:42-61 | an initialised client changes nothing, sends nothing and succeeds; otherwise it sends one list request, then one describe request per table in order, until the first failure; the flag is set only when every listed table was described; afterwards every listed table's entry names its HASH attribute as partition key and its RANGE attribute as sort key (the last one of each type; absent when there is none) |
| `Client.DynamoClient.DescribeTable` | index.js:48-58 | the table's entry is reset to `{}` before its describe request; on success it becomes the entry built from the key schema; on failure it stays `{}` |
| `Client.DynamoClient.DescribeTables` | index.js:47-59 | the cache, the requests sent and the failure are those of describing the listed tables in order and stopping at the first failure |
| `SchemaCache.SchemaOfDesignatesKeys` | index.js:52-58 | the entry built from a key schema has as partition key the attribute of the last HASH element and as sort key that of the last RANGE element; each is absent when the schema has no element of that type |
| `SchemaCache.DescribeAllRecordsEveryTable` | index.js:47-59 | a complete discovery describes each listed table once, in order; it gives every listed table the entry built from its key schema and keeps the entries of other tables |
| `SchemaCache.DescribeAllStopsAtPrefix` | index.js:47-51 | once describing some prefix of the tables fails, no later table is described and the cache stops changing |
| `SchemaCache.DescribeAllDescribesEach` | index.js:47-59 | a complete discovery sends one describe request per listed table, in order, and every one succeeds |
| `SchemaCache.DescribeAllFailsAtLast` | index.js:47-51 | when the last description is the first to fail, every table was described in order, all before the last succeeded, and the last one's failure is reported |
| `SchemaCache.DescribeAllStopsAtFailure` | index.js:47-51 | a failed discovery described the first n tables in order; all but the n-th succeeded, and the n-th's failure is the one reported |
| `Client.DynamoClient.Insert` | index.js:63-78 | after initialising, it sends one put carrying the table and the object unchanged and returns the store's answer; a failed initialisation sends no put |
| `Client.DynamoClient.QueryInternal` | index.js:80-105 | the result and the requests are those of draining the key-condition query: first request without a token, then one per continuation token, pages concatenated in order, first failure reported |
| `Client.DynamoClient.ScanInternal` | index.js:107-122 | the same as `QueryInternal`, for a full scan of the table |
| `Pager.DrainFollowsTokens` | index.js:93-101 | the first request has no token; each follow-up carries the token of the response before it; every response but the last carries a token; the last is a failure or carries none |
| `Pager.DrainIsConcatenation` | index.js:92-104 | the drained result is exactly the concatenation, in fetch order, of the pages its requests return, or the first failure among them |
| `Expressions.PlaceholderInjective` | index.js:132 | distinct attribute names get distinct `:k` placeholders |
| `Planner.PlanQuery` | index.js:126-139 | the plan is the planning function's: an unknown table fails only for a non-empty predicate, and a null or undefined key value fails; otherwise the scan flag is set exactly when no predicate key is the partition key, with the terms and bindings below |
| `Planner.KeyTermsAppend` | index.js:129-139 | the key-condition terms follow predicate order: the terms of a concatenation are the terms of its parts, concatenated |
| `Planner.KeyTermsMembership` | index.js:129-140 | `t` is a key-condition term exactly when `t` is `k = :k` for some predicate key `k` that is the partition or sort key |
| `Planner.KeyValuesOnlyForKeys` | index.js:127-138 | every bound `:k` is the placeholder of a predicate key `k` that is the partition or sort key (the other direction is the next row) |
| `Planner.KeyValuesHoldStringForms` | index.js:132-137 | every predicate key `k` that is the partition or sort key has a `:k` binding, and it holds the string form of the predicate's value for `k` |
| `Planner.AllMatch` | index.js:159-165 | true exactly when `item[k] === predicate[k]` for every predicate key, with no coercion; an attribute that is not an own property of the item reads as `undefined` |
| `Planner.ReduceItems` | index.js:156-171 | on the scan path the result is the matching fetched items, in order; on the query path it is every fetched item, unchanged and in order |
| `Planner.FilterAppend` | index.js:156-171 | filtering the concatenated pages is filtering each page and concatenating the results |
| `Planner.FilterMembership` | index.js:156-171 | an item survives the scan filter exactly when it was fetched and matches the predicate |
| `Planner.FilterFirst` | index.js:172-174 | the first surviving item is the first fetched item that matches, and no earlier fetched item matches |
| `Planner.QueryAnswerShape` | index.js:152-175 | without `isSingle` the answer is every fetched item (query path) or exactly the matching ones (scan path); with `isSingle` it is `null` exactly when nothing was fetched, `undefined` exactly when a scan fetched items and none match, and otherwise the first fetched item (query path) or the first matching one (scan path); with `isSingle` it is never a list |
| `Client.DynamoClient.Query` | index.js:124-176 | after initialising, the answer and the requests are those of the plan, the drained listing it selects and the reduction; a failed initialisation or plan sends no listing request |
| `Js.Get` | index.js:161 | reading a name that is not an own property of the object gives `undefined` |
| `Js.GetAt` | index.js:161 | each property of an object is read back by its own name |
| `UpdateBuilder.ExtractKey` | index.js:181-190 | the key is the key function's: an unknown table fails only for a non-empty predicate, and a null or undefined key value fails |
| `UpdateBuilder.KeyDictContents` | index.js:183-190 | the key holds exactly the predicate's entries whose name is the partition or sort key, each string-coerced; all other entries are dropped |
| `UpdateBuilder.SplitUpdate` | index.js:191-200 | the SET terms, REMOVE names and bindings are those of the split functions below, in update-object order |
| `UpdateBuilder.UpdateSplitsAttributes` | index.js:193-200 | every update attribute goes to exactly one clause: REMOVE when null or undefined, SET otherwise |
| `UpdateBuilder.ClauseNamesAreAttributes` | index.js:193-200 | nothing but the update object's own attributes appears in either clause |
| `UpdateBuilder.SetValuesDomain` | index.js:193-200 | `:k` is bound exactly for the update attributes `k` whose value is neither null nor undefined |
| `UpdateBuilder.SetValuesHoldGivenValues` | index.js:198 | each `:k` binding of the update holds the value as given, not its string form |
| `UpdateBuilder.AssembleUpdateExpression` | index.js:201-208 | the `+=` assembly gives the update expression whose exact forms are stated next |
| `UpdateBuilder.UpdateExpressionForms` | index.js:201-208 | `SET a, b REMOVE c`-style with both clauses; `SET ...` alone; ` REMOVE ...` with a leading space when there are only removes; `''` when there are neither |
| `UpdateBuilder.UpdateExpressionEmpty` | index.js:191-208 | the update expression is empty exactly when the update object is empty |
| `Client.DynamoClient.Update` | index.js:178-216 | after initialising, it sends one update request whose key, expression and bindings are those above and returns the store's answer; a failed initialisation or key extraction sends nothing more |

## Left out

- Construction of the AWS clients, the region and credential environment variables, and the marshalling options (index.js:1-33): these are configuration of a foreign library. The store is a parameter of the constructor.
- `async`/`await` and Promises: each store call is one atomic step, so two overlapping `init` calls cannot race in the model.
- The store's own semantics. Its answers are fixed functions of the request, so a put or an update does not change what later reads return, and how the store matches key conditions is not modelled.
- `Client.DynamoClient.QueryInternal` and `Client.DynamoClient.ScanInternal` require their listing to end within `maxFollowUps` follow-up requests, and `Client.DynamoClient.Query` requires it of every listing. The source loops forever on an endless token chain; the model does not cover that case.
- Numbers are safe integers only (`Js.SafeInteger`, at most 2^53 - 1 in magnitude), and item values are scalars. Fractions, `NaN`, infinities, larger numbers and nested maps, lists or objects are not modelled. For numbers of 10^21 and above, JavaScript's `toString()` switches to exponent notation (`1e+21`); no safe integer reaches that size, so `Js.ToString` agrees with `toString()` on every modelled value.
- The schema cache is a map of its own entries only. In the source it is a plain object, so the name of a table missing from the cache can still hit an inherited `Object.prototype` member (`constructor`, `toString`, `valueOf`, ...). Then the entry is a function whose `.partitionKey` is undefined, and nothing throws: `query` scans and `update` sends an empty `Key` (index.js:130,185-188), where the model fails with `UnknownTable`. A listed table named `__proto__` replaces the cache's prototype instead of adding an entry (index.js:48); the model gives it an ordinary entry.
- `Js.Get`: item reads see own properties only. In the source, `item[key]` (index.js:161) also finds inherited `Object.prototype` members (`constructor`, `toString`, `valueOf`, ...), which are functions and never `undefined`. So a scan predicate whose value is `undefined` for such a name drops every item that lacks an own property of that name, where the model's `Planner.Matches`, `Planner.AllMatch` and `Planner.Filter` keep it.
- `for...in` visits integer-like names first and includes inherited enumerable properties. The model takes an object's own entries in the given order.
- The stringified copy `item` that `insert` builds (index.js:65-72) is never used and cannot throw for the modelled values, so it is not modelled.
- The module-level singleton (index.js:219): the model's constructor takes the store instead.
- The `TypeError`s carry no message: they are the error values `UnknownTable` and `NullKeyValue`.
- A store response whose `TableNames`, `Table.KeySchema` or `Items` is missing is not modelled: every successful answer carries them.
