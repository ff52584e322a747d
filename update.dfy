/**
 * The update builder: the key of the item to update is taken from the predicate's key
 * attributes, and the update object is split into SET clauses (defined values) and REMOVE
 * clauses (null or undefined values).
 */
module UpdateBuilder {
  import opened Js
  import opened Outcomes
  import opened DocumentStore
  import opened SchemaCache
  import opened Expressions

  /** The key of the target item: each key attribute of the predicate, its value in string form. */
  function KeyDict(s: TableSchema, pred: seq<Entry>): map<string, Value>
    requires KeyValuesDefined(s, pred)
    decreases |pred|
  {
    if |pred| == 0 then map[]
    else
      var key := KeyDict(s, pred[..|pred| - 1]);
      var (k, v) := pred[|pred| - 1];
      if s.IsKeyAttribute(k) then key[k := Str(ToString(v))] else key
  }

  /** The names of the attributes the update object gives a defined value, in order. */
  function SetNames(obj: seq<Entry>): seq<string>
    decreases |obj|
  {
    if |obj| == 0 then []
    else
      var (k, v) := obj[|obj| - 1];
      SetNames(obj[..|obj| - 1]) + (if IsNullish(v) then [] else [k])
  }

  /** The names of the attributes the update object sets to null or undefined, in order. */
  function RemoveNames(obj: seq<Entry>): seq<string>
    decreases |obj|
  {
    if |obj| == 0 then []
    else
      var (k, v) := obj[|obj| - 1];
      RemoveNames(obj[..|obj| - 1]) + (if IsNullish(v) then [k] else [])
  }

  /** `k = :k` for each name, in order. */
  function Terms(names: seq<string>): (ts: seq<string>)
    ensures |ts| == |names| && forall i :: 0 <= i < |names| ==> ts[i] == Term(names[i])
  {
    seq(|names|, i requires 0 <= i < |names| => Term(names[i]))
  }

  /** The placeholder bindings of an update: `:k` to the value, as given, of each attribute set. */
  function SetValues(obj: seq<Entry>): map<string, Value>
    decreases |obj|
  {
    if |obj| == 0 then map[]
    else
      var vals := SetValues(obj[..|obj| - 1]);
      var (k, v) := obj[|obj| - 1];
      if IsNullish(v) then vals else vals[Placeholder(k) := v]
  }

  /** The update expression the clauses are assembled into. */
  function UpdateExpression(setParts: seq<string>, removeParts: seq<string>): string {
    (if |setParts| > 0 then "SET " + Join(setParts, ", ") else "")
    + (if |removeParts| > 0 then " " + "REMOVE " + Join(removeParts, ", ") else "")
  }

  /**
   * The key `update` builds for a table whose cache entry is `schema`: it fails on a missing
   * entry (unless the predicate is empty, when the entry is never read) and on a null or
   * undefined key value.
   */
  function KeyOf(schema: Option<TableSchema>, pred: seq<Entry>): Result<map<string, Value>> {
    var s := SchemaOrEmpty(schema);
    if schema.None? && |pred| > 0 then Failure(UnknownTable)
    else if !KeyValuesDefined(s, pred) then Failure(NullKeyValue)
    else Success(KeyDict(s, pred))
  }

  /** The request `update` sends once the cache is initialised. */
  function UpdateRequest(schema: Option<TableSchema>, table: string, pred: seq<Entry>, obj: seq<Entry>): Result<UpdateInput> {
    match KeyOf(schema, pred)
    case Failure(e) => Failure(e)
    case Success(key) =>
      Success(UpdateInput(table, key, UpdateExpression(Terms(SetNames(obj)), RemoveNames(obj)), SetValues(obj)))
  }

  /** The key-extraction loop of `update`. */
  method ExtractKey(schema: Option<TableSchema>, pred: Object) returns (r: Result<map<string, Value>>)
    ensures r == KeyOf(schema, pred)
  {
    var keyDict: map<string, Value> := map[];
    ghost var s := SchemaOrEmpty(schema);
    for i := 0 to |pred|
      invariant schema.None? ==> i == 0
      invariant KeyValuesDefined(s, pred[..i])
      invariant keyDict == KeyDict(s, pred[..i])
    {
      if schema.None? {
        return Failure(UnknownTable);
      }
      var (key, value) := pred[i];
      assert pred[..i + 1] == pred[..i] + [(key, value)];
      if schema.value.partitionKey == Some(key) || schema.value.sortKey == Some(key) {
        if IsNullish(value) {
          return Failure(NullKeyValue);
        }
        keyDict := keyDict[key := Str(ToString(value))];
      }
    }
    assert pred[..|pred|] == pred;
    return Success(keyDict);
  }

  /** The loop of `update` that splits the update object into SET and REMOVE clauses. */
  method SplitUpdate(obj: Object) returns (setExpressionParts: seq<string>, removeExpressionParts: seq<string>, expressionAttributeValues: map<string, Value>)
    ensures setExpressionParts == Terms(SetNames(obj))
    ensures removeExpressionParts == RemoveNames(obj)
    ensures expressionAttributeValues == SetValues(obj)
  {
    setExpressionParts, removeExpressionParts, expressionAttributeValues := [], [], map[];
    for i := 0 to |obj|
      invariant setExpressionParts == Terms(SetNames(obj[..i]))
      invariant removeExpressionParts == RemoveNames(obj[..i])
      invariant expressionAttributeValues == SetValues(obj[..i])
    {
      var (key, value) := obj[i];
      assert obj[..i + 1] == obj[..i] + [(key, value)];
      if value == Null || value == Undefined {
        removeExpressionParts := removeExpressionParts + [key];
      } else {
        setExpressionParts := setExpressionParts + [Term(key)];
        expressionAttributeValues := expressionAttributeValues[Placeholder(key) := value];
      }
    }
    assert obj[..|obj|] == obj;
  }

  /** The statements of `update` that assemble the update expression with `+=`. */
  method AssembleUpdateExpression(setExpressionParts: seq<string>, removeExpressionParts: seq<string>) returns (updateExpression: string)
    ensures updateExpression == UpdateExpression(setExpressionParts, removeExpressionParts)
  {
    updateExpression := "";
    if |setExpressionParts| > 0 {
      updateExpression := updateExpression + "SET " + Join(setExpressionParts, ", ");
    }
    if |removeExpressionParts| > 0 {
      updateExpression := updateExpression + " ";
      updateExpression := updateExpression + "REMOVE " + Join(removeExpressionParts, ", ");
    }
    assert updateExpression == UpdateExpression(setExpressionParts, removeExpressionParts) by {
      var head := if |setExpressionParts| > 0 then "SET " + Join(setExpressionParts, ", ") else "";
      var tail := "REMOVE " + Join(removeExpressionParts, ", ");
      assert "" + head == head;
      assert head + " " + tail == head + (" " + tail);
    }
  }

  /**
   * The key holds exactly the predicate's key attributes, each with its value in string form;
   * every other predicate entry is dropped.
   */
  lemma {:induction false} KeyDictContents(s: TableSchema, pred: Object)
    requires KeyValuesDefined(s, pred)
    ensures forall k :: k in KeyDict(s, pred) <==> HasKey(pred, k) && s.IsKeyAttribute(k)
    ensures forall i :: 0 <= i < |pred| && s.IsKeyAttribute(pred[i].0) ==>
      pred[i].0 in KeyDict(s, pred) && KeyDict(s, pred)[pred[i].0] == Str(ToString(pred[i].1))
    decreases |pred|
  {
    if |pred| > 0 {
      var init: Object := pred[..|pred| - 1];
      var (k, v) := pred[|pred| - 1];
      KeyDictContents(s, init);
      forall u ensures u in KeyDict(s, pred) <==> HasKey(pred, u) && s.IsKeyAttribute(u) {
        if HasKey(init, u) {
          var i :| 0 <= i < |init| && init[i].0 == u;
          assert pred[i] == init[i];
        }
        if HasKey(pred, u) && u != k {
          var i :| 0 <= i < |pred| && pred[i].0 == u;
          assert init[i] == pred[i];
        }
      }
      forall i | 0 <= i < |pred| - 1 && s.IsKeyAttribute(pred[i].0)
        ensures KeyDict(s, pred)[pred[i].0] == Str(ToString(pred[i].1))
      {
        assert pred[i] == init[i];
        assert pred[i].0 != k;
      }
    }
  }

  /**
   * Every attribute of the update object goes to exactly one clause: to REMOVE when its value is
   * null or undefined, to SET otherwise.
   */
  lemma {:induction false} UpdateSplitsAttributes(obj: Object)
    ensures |SetNames(obj)| + |RemoveNames(obj)| == |obj|
    ensures forall i :: 0 <= i < |obj| ==> (obj[i].0 in RemoveNames(obj) <==> IsNullish(obj[i].1))
    ensures forall i :: 0 <= i < |obj| ==> (obj[i].0 in SetNames(obj) <==> !IsNullish(obj[i].1))
    decreases |obj|
  {
    if |obj| > 0 {
      var init: Object := obj[..|obj| - 1];
      var (k, v) := obj[|obj| - 1];
      UpdateSplitsAttributes(init);
      assert SetNames(obj) == SetNames(init) + (if IsNullish(v) then [] else [k]);
      assert RemoveNames(obj) == RemoveNames(init) + (if IsNullish(v) then [k] else []);
      assert k !in SetNames(init) && k !in RemoveNames(init) by {
        ClauseNamesAreAttributes(init);
      }
      forall i | 0 <= i < |obj| - 1
        ensures obj[i].0 in RemoveNames(obj) <==> IsNullish(obj[i].1)
        ensures obj[i].0 in SetNames(obj) <==> !IsNullish(obj[i].1)
      {
        assert obj[i] == init[i];
        assert obj[i].0 != k;
      }
    }
  }

  /** Nothing but the update object's own attributes appears in either clause. */
  lemma {:induction false} ClauseNamesAreAttributes(obj: Object)
    ensures forall k :: k in SetNames(obj) || k in RemoveNames(obj) ==> HasKey(obj, k)
    decreases |obj|
  {
    if |obj| > 0 {
      var init: Object := obj[..|obj| - 1];
      var (k, v) := obj[|obj| - 1];
      ClauseNamesAreAttributes(init);
      assert SetNames(obj) == SetNames(init) + (if IsNullish(v) then [] else [k]);
      assert RemoveNames(obj) == RemoveNames(init) + (if IsNullish(v) then [k] else []);
      forall u | u in SetNames(obj) || u in RemoveNames(obj) ensures HasKey(obj, u) {
        if u != k {
          assert HasKey(init, u);
          var i :| 0 <= i < |init| && init[i].0 == u;
          assert obj[i] == init[i];
        } else {
          assert obj[|obj| - 1].0 == u;
        }
      }
    }
  }

  /** Only attributes set to a defined value get a placeholder binding. */
  lemma {:induction false} SetValuesDomain(obj: Object)
    ensures forall p :: p in SetValues(obj) <==>
      exists i :: 0 <= i < |obj| && !IsNullish(obj[i].1) && p == Placeholder(obj[i].0)
    decreases |obj|
  {
    if |obj| > 0 {
      var init: Object := obj[..|obj| - 1];
      var (k, v) := obj[|obj| - 1];
      SetValuesDomain(init);
      var vals := SetValues(init);
      assert SetValues(obj) == if IsNullish(v) then vals else vals[Placeholder(k) := v];
      forall p ensures p in SetValues(obj) <==>
        exists i :: 0 <= i < |obj| && !IsNullish(obj[i].1) && p == Placeholder(obj[i].0)
      {
        if exists i :: 0 <= i < |init| && !IsNullish(init[i].1) && p == Placeholder(init[i].0) {
          var i :| 0 <= i < |init| && !IsNullish(init[i].1) && p == Placeholder(init[i].0);
          assert obj[i] == init[i];
        }
        if exists i :: 0 <= i < |obj| && !IsNullish(obj[i].1) && p == Placeholder(obj[i].0) {
          var i :| 0 <= i < |obj| && !IsNullish(obj[i].1) && p == Placeholder(obj[i].0);
          if i < |init| {
            assert init[i] == obj[i];
          }
        }
      }
    }
  }

  /** A placeholder binding holds the attribute's value as given, not its string form. */
  lemma {:induction false} SetValuesHoldGivenValues(obj: Object)
    ensures forall i :: 0 <= i < |obj| && !IsNullish(obj[i].1) ==>
      Placeholder(obj[i].0) in SetValues(obj) && SetValues(obj)[Placeholder(obj[i].0)] == obj[i].1
    decreases |obj|
  {
    if |obj| > 0 {
      var init: Object := obj[..|obj| - 1];
      var (k, v) := obj[|obj| - 1];
      SetValuesHoldGivenValues(init);
      var vals := SetValues(init);
      assert SetValues(obj) == if IsNullish(v) then vals else vals[Placeholder(k) := v];
      forall i | 0 <= i < |obj| - 1 && !IsNullish(obj[i].1)
        ensures Placeholder(obj[i].0) in SetValues(obj)
        ensures SetValues(obj)[Placeholder(obj[i].0)] == obj[i].1
      {
        assert obj[i] == init[i];
        assert obj[i].0 != k;
        PlaceholderInjective(obj[i].0, k);
      }
    }
  }

  /**
   * The update expression is `SET ...` when there are set clauses, followed by ` REMOVE ...` when
   * there are remove clauses; with remove clauses only it starts with a space, and with no
   * clauses at all it is empty.
   */
  lemma UpdateExpressionForms(setParts: seq<string>, removeParts: seq<string>)
    ensures |setParts| > 0 && |removeParts| > 0 ==>
      UpdateExpression(setParts, removeParts) == "SET " + Join(setParts, ", ") + " REMOVE " + Join(removeParts, ", ")
    ensures |setParts| > 0 && |removeParts| == 0 ==>
      UpdateExpression(setParts, removeParts) == "SET " + Join(setParts, ", ")
    ensures |setParts| == 0 && |removeParts| > 0 ==>
      UpdateExpression(setParts, removeParts) == " REMOVE " + Join(removeParts, ", ")
    ensures |setParts| == 0 && |removeParts| == 0 ==> UpdateExpression(setParts, removeParts) == ""
  {
  }

  /** An update expression is empty exactly when the update object is empty. */
  lemma UpdateExpressionEmpty(obj: Object)
    ensures UpdateExpression(Terms(SetNames(obj)), RemoveNames(obj)) == "" <==> |obj| == 0
  {
  }
}
