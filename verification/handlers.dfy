/** The dispatch handlers of the executor (executor.py): one per node kind, the
    fallback for kinds without a handler, and `dispatch_node`, which picks a handler
    by the node's tag and binds the node's remaining fields to its parameters.

    Every handler returns either its value or the exception Python would raise;
    the registered functions and the key-value store are parameters. */
module Handlers {
  import opened Errors
  import opened Json
  import opened Paths
  import opened Query

  /** A registered query function: positional and keyword arguments in, a value or
      an exception out.  What it computes is outside this model. */
  type Function = (seq<Value>, seq<Entry>) -> Result<Value>

  /** The key-value store read by `select`: `await KVS()[key]`. */
  type Store = Value -> Result<Value>

  /** What a run of the engine is given besides the graph. */
  datatype Env = Env(
    parameters: map<string, Value>,    // `parameters`, the endpoint's arguments
    functions: map<string, Function>,  // `functions`, the registry
    store: Store,                      // the key-value store
    keyFields: set<string>)            // `KeyFields`: the keyword names a `keys` node reads items from

  /** `d[name]` on a dict whose keys are strings: lists and dicts are unhashable, any
      other non-string is simply absent. */
  function Fetch<T>(d: map<string, T>, name: Value): (r: Result<T>)
    ensures r.Ok? <==> name.Str? && name.s in d
    ensures r.Ok? ==> r.value == d[name.s]
    ensures !Hashable(name) ==> r.Err? && r.error.TypeError?
    ensures Hashable(name) && r.Err? ==> r.error.KeyError?
  {
    if !Hashable(name) then Err(TypeError("unhashable type"))
    else if name.Str? && name.s in d then Ok(d[name.s])
    else Err(KeyError(Show(name)))
  }

  // ---------------------------------------------------------------------
  // parameter and call

  /** `substitute_parameter`: the endpoint argument of that name. */
  function SubstituteParameter(parameterName: Value, parameters: map<string, Value>): (r: Result<Value>)
    ensures r.Ok? <==> parameterName.Str? && parameterName.s in parameters
    ensures r.Ok? ==> r.value == parameters[parameterName.s]
  {
    Fetch(parameters, parameterName)
  }

  /** `call_dispatch`: look the function up, spread `args` positionally and `kwargs` by
      name.  `*args` accepts any iterable; `**kwargs` needs a dict. */
  function CallDispatch(functions: map<string, Function>, functionName: Value, args: Value, kwargs: Value): (r: Result<Value>)
    ensures !(functionName.Str? && functionName.s in functions) ==> r.Err?
    ensures Iterate(args).Err? || !kwargs.Obj? ==> r.Err?
    ensures functionName.Str? && functionName.s in functions && args.Arr? && kwargs.Obj?
            ==> r == functions[functionName.s](args.items, kwargs.entries)
  {
    var f :- Fetch(functions, functionName);
    var positional :- Iterate(args);
    if !kwargs.Obj? then Err(TypeError("argument after ** must be a mapping"))
    else f(positional, kwargs.entries)
  }

  /** `[g(x) for x in xs]` for a `g` that may raise: evaluated in order, so the first
      failure aborts the list. */
  function Each(g: Value -> Result<Value>, xs: seq<Value>): (r: Result<seq<Value>>)
    ensures r.Ok? ==> |r.value| == |xs|
    decreases |xs|
  {
    if |xs| == 0 then Ok([])
    else
      var front :- Each(g, xs[..|xs| - 1]);
      var last :- g(xs[|xs| - 1]);
      Ok(front + [last])
  }

  // ---------------------------------------------------------------------
  // join

  /** A value that `right_dict` can hold as a match: a non-empty dict. */
  predicate Indexable(d: Value)
  {
    d.Obj? && |d.entries| > 0
  }

  /** `right_dict`: the right records by the value at `right_on`; records whose key is
      None are left out and a later record replaces an earlier one with an equal key. */
  function IndexRight(rights: seq<Value>, rightOn: Value): (r: Result<map<Value, Value>>)
    ensures r.Ok? ==> forall k :: k in r.value ==> k != Null && Hashable(k) && Indexable(r.value[k])
    decreases |rights|
  {
    if |rights| == 0 then Ok(map[])
    else
      var front :- IndexRight(rights[..|rights| - 1], rightOn);
      var d := rights[|rights| - 1];
      var key :- GetNested(d, rightOn);
      if key == Null then Ok(front)
      else if !Hashable(key) then Err(TypeError("unhashable type"))
      else Ok(front[key := d])
  }

  /** One pass of the loop over `left`: the merged record when the left record's key
      finds a truthy match, nothing when it does not. */
  function JoinOne(l: Value, leftOn: Value, index: map<Value, Value>): Result<Option<Value>>
  {
    var key :- GetNested(l, leftOn);
    if !Hashable(key) then Err(TypeError("unhashable type"))
    else if key !in index || !Truthy(index[key]) then Ok(None)
    else if !l.Obj? || !index[key].Obj? then Err(TypeError("argument after ** must be a mapping"))
    else Ok(Some(Obj(Merge(l.entries, index[key].entries))))
  }

  /** The loop over `left`, in order; the first failure aborts it. */
  function JoinRecords(lefts: seq<Value>, leftOn: Value, index: map<Value, Value>): (r: Result<seq<Value>>)
    ensures r.Ok? ==> |r.value| <= |lefts|
    decreases |lefts|
  {
    if |lefts| == 0 then Ok([])
    else
      var front :- JoinRecords(lefts[..|lefts| - 1], leftOn, index);
      var one :- JoinOne(lefts[|lefts| - 1], leftOn, index);
      Ok(front + (if one.Some? then [one.value] else []))
  }

  /** `handle_join`. */
  function HandleJoin(left: Value, right: Value, leftOn: Value, rightOn: Value): (r: Result<Value>)
    ensures r.Ok? ==> r.value.Arr? && Iterate(left).Ok? && |r.value.items| <= |Iterate(left).value|
  {
    var rights :- Iterate(right);
    var index :- IndexRight(rights, rightOn);
    var lefts :- Iterate(left);
    var out :- JoinRecords(lefts, leftOn, index);
    Ok(Arr(out))
  }

  // ---------------------------------------------------------------------
  // map

  /** One element of the comprehension: the function applied to the value, or the value
      at `value_path` when one is given (the function is then not called). */
  function MapOne(f: Function, v: Value, valuePath: Value): Result<Value>
  {
    if valuePath == Null then f([v], []) else GetNested(v, valuePath)
  }

  /** `map_function`: the function must be registered even when a path is given. */
  function MapFunction(functions: map<string, Function>, fn: Value, values: Value, valuePath: Value): (r: Result<Value>)
    ensures !(fn.Str? && fn.s in functions) ==> r.Err?
    ensures r.Ok? ==> r.value.Arr? && Iterate(values).Ok? && |r.value.items| == |Iterate(values).value|
  {
    var f :- Fetch(functions, fn);
    var vs :- Iterate(values);
    var out :- Each(v => MapOne(f, v, valuePath), vs);
    Ok(Arr(out))
  }

  // ---------------------------------------------------------------------
  // select

  /** `fields[f]`: only a dict of fields can be indexed by a field name. */
  function FieldTarget(fields: Value, name: string): Result<Value>
  {
    if !fields.Obj? then Err(TypeError("indices must be integers"))
    else match Lookup(fields.entries, name)
      case Some(o) => Ok(o)
      case None => Err(KeyError(name))
  }

  /** The assignments `item[fields[f]] = get(kvs_out, f)` for each `f` in `names`, in
      order, as (output name, value) pairs. */
  function Assignments(kvsOut: Value, fields: Value, names: seq<Value>): (r: Result<seq<Entry>>)
    ensures r.Ok? ==> |r.value| == |names|
    decreases |names|
  {
    if |names| == 0 then Ok([])
    else
      var value :- GetNested(kvsOut, names[0]);
      var target :- FieldTarget(fields, names[0].s);
      if !Hashable(target) then Err(TypeError("unhashable type"))
      else if !target.Str? then Err(TypeError("non-string output name"))
      else
        var rest :- Assignments(kvsOut, fields, names[1..]);
        Ok([Entry(target.s, value)] + rest)
  }

  /** One assignment per name, in order: pair `i` holds the value at path `names[i]`
      under the output name `fields[names[i]]`. */
  lemma {:induction false} AssignmentsPointwise(kvsOut: Value, fields: Value, names: seq<Value>)
    requires Assignments(kvsOut, fields, names).Ok?
    ensures var pairs := Assignments(kvsOut, fields, names).value;
            forall i :: 0 <= i < |names| ==>
              && names[i].Str?
              && GetNested(kvsOut, names[i]) == Ok(pairs[i].val)
              && FieldTarget(fields, names[i].s) == Ok(Str(pairs[i].key))
    decreases |names|
  {
    if |names| > 0 {
      var pairs := Assignments(kvsOut, fields, names).value;
      var rest := Assignments(kvsOut, fields, names[1..]).value;
      AssignmentsPointwise(kvsOut, fields, names[1..]);
      assert pairs[1..] == rest;
      forall i | 0 < i < |names|
        ensures names[i].Str? && GetNested(kvsOut, names[i]) == Ok(pairs[i].val)
        ensures FieldTarget(fields, names[i].s) == Ok(Str(pairs[i].key))
      {
        assert names[i] == names[1..][i - 1] && pairs[i] == rest[i - 1];
      }
    }
  }

  /** The `context` a select record carries: the key and the context it came with. */
  function SelectContext(key: Value, context: Value): Value
  {
    Obj([Entry("key", key), Entry("context", context)])
  }

  /** One pass of the loop over `keys`.  `fields` is already `{}` when it was None. */
  function SelectOne(k: Value, fields: Value, store: Store): Result<Value>
  {
    var key :- Subscript(k, "key");
    var context :- Subscript(k, "context");
    var item := [Entry("context", SelectContext(key, context))];
    var kvsOut :- store(key);
    var names :- Iterate(fields);
    var pairs :- Assignments(kvsOut, fields, names);
    Ok(Obj(Merge(item, pairs)))
  }

  /** `handle_select`: one record per key, in order. */
  function HandleSelect(keys: Value, fields: Value, store: Store): (r: Result<Value>)
    ensures r.Ok? ==> r.value.Arr? && Iterate(keys).Ok? && |r.value.items| == |Iterate(keys).value|
  {
    var fs := if fields == Null then Obj([]) else fields;
    var ks :- Iterate(keys);
    var out :- Each(k => SelectOne(k, fs, store), ks);
    Ok(Arr(out))
  }

  // ---------------------------------------------------------------------
  // keys

  /** `items`: the loop over the keyword arguments that keeps the value of each one
      named by a key field. */
  function KeyItems(kwargs: seq<Entry>, keyFields: set<string>): Value
    decreases |kwargs|
  {
    if |kwargs| == 0 then Arr([])
    else if kwargs[|kwargs| - 1].key in keyFields then kwargs[|kwargs| - 1].val
    else KeyItems(kwargs[..|kwargs| - 1], keyFields)
  }

  /** `kwargs[j]` is the last keyword argument named by a key field. */
  predicate LastKeyField(kwargs: seq<Entry>, keyFields: set<string>, j: int)
  {
    && 0 <= j < |kwargs| && kwargs[j].key in keyFields
    && forall j' :: j < j' < |kwargs| ==> kwargs[j'].key !in keyFields
  }

  /** The items are the value of the last keyword argument named by a key field, or
      `[]` when no keyword argument is one. */
  lemma {:induction false} KeyItemsLast(kwargs: seq<Entry>, keyFields: set<string>)
    ensures (forall j :: 0 <= j < |kwargs| ==> kwargs[j].key !in keyFields) ==> KeyItems(kwargs, keyFields) == Arr([])
    ensures (exists j :: 0 <= j < |kwargs| && kwargs[j].key in keyFields) ==>
              exists j :: LastKeyField(kwargs, keyFields, j) && KeyItems(kwargs, keyFields) == kwargs[j].val
    decreases |kwargs|
  {
    if |kwargs| > 0 {
      var n := |kwargs| - 1;
      var front := kwargs[..n];
      if kwargs[n].key in keyFields {
        assert LastKeyField(kwargs, keyFields, n);
      } else {
        KeyItemsLast(front, keyFields);
        if exists j :: 0 <= j < |kwargs| && kwargs[j].key in keyFields {
          var j :| 0 <= j < |kwargs| && kwargs[j].key in keyFields;
          assert front[j] == kwargs[j];
          var j0 :| LastKeyField(front, keyFields, j0) && KeyItems(front, keyFields) == front[j0].val;
          LastKeyFieldExtend(kwargs, keyFields, j0);
        } else {
          forall j | 0 <= j < n ensures front[j].key !in keyFields {
            assert front[j] == kwargs[j];
          }
        }
      }
    }
  }

  /** A last keyword argument that is not a key field leaves the last key field as it was. */
  lemma LastKeyFieldExtend(kwargs: seq<Entry>, keyFields: set<string>, j: int)
    requires |kwargs| > 0 && kwargs[|kwargs| - 1].key !in keyFields
    requires LastKeyField(kwargs[..|kwargs| - 1], keyFields, j)
    ensures LastKeyField(kwargs, keyFields, j) && kwargs[j] == kwargs[..|kwargs| - 1][j]
  {
    var n := |kwargs| - 1;
    assert kwargs[j] == kwargs[..n][j];
    forall j' | j < j' < |kwargs| ensures kwargs[j'].key !in keyFields {
      if j' < n {
        assert kwargs[j'] == kwargs[..n][j'];
      }
    }
  }

  /** The key string `f'{function}-{val}'`. */
  function KeyString(fn: Value, val: Value): string
  {
    Show(fn) + "-" + Show(val)
  }

  /** The value a key is made from: the item itself, or the value at `value_path`. */
  function KeyValue(valuePath: Value, i: Value): Result<Value>
  {
    if valuePath == Null then Ok(i) else GetNested(i, valuePath)
  }

  /** The record `keys` builds for one item. */
  function KeyRecord(fn: Value, valuePath: Value, i: Value): Result<Value>
  {
    var val :- KeyValue(valuePath, i);
    var context :- GetOr(i, "context", Obj([]));
    Ok(Obj([Entry("key", Str(KeyString(fn, val))),
            Entry("context", Obj([Entry("function", fn), Entry("value", val), Entry("context", context)]))]))
  }

  /** `handle_keys(function, value_path, **kwargs)`. */
  function HandleKeys(fn: Value, valuePath: Value, kwargs: seq<Entry>, keyFields: set<string>): (r: Result<Value>)
    ensures r.Ok? ==> r.value.Arr? && Iterate(KeyItems(kwargs, keyFields)).Ok?
                      && |r.value.items| == |Iterate(KeyItems(kwargs, keyFields)).value|
  {
    var items :- Iterate(KeyItems(kwargs, keyFields));
    var out :- Each(i => KeyRecord(fn, valuePath, i), items);
    Ok(Arr(out))
  }

  // ---------------------------------------------------------------------
  // dispatch

  /** `unimplemented_handler(**node)`: the marker for tags without a handler. */
  function Unimplemented(kwargs: seq<Entry>): (r: Value)
    ensures HasFields(r, [Entry("issue", Str("UNIMPLEMENTED")), Entry("args", Arr([])), Entry("kwargs", Obj(kwargs))])
  {
    var es := [Entry("issue", Str("UNIMPLEMENTED")), Entry("args", Arr([])), Entry("kwargs", Obj(kwargs))];
    LiteralFields(es);
    Obj(es)
  }

  /** Python's binding of `**kw` to a handler: every keyword names one of `names` and
      every name in `required` (the parameters without a default) is given. */
  predicate Binds(kw: seq<Entry>, names: set<string>, required: set<string>)
  {
    KeySet(kw) <= names && required <= KeySet(kw)
  }

  /** The argument bound to parameter `name`, or its default. */
  function Arg(kw: seq<Entry>, name: string, default: Value := Null): Value
  {
    match Lookup(kw, name)
    case Some(v) => v
    case None => default
  }

  const BadCall: Error := TypeError("unexpected or missing keyword argument")

  /** `substitute_parameter(parameters=parameters, **kw)`. */
  function CallParameter(env: Env, kw: seq<Entry>): Result<Value>
  {
    if !Binds(kw, {"parameter_name"}, {"parameter_name"}) then Err(BadCall)
    else SubstituteParameter(Arg(kw, "parameter_name"), env.parameters)
  }

  /** `call_dispatch(functions=functions, **kw)`. */
  function CallCall(env: Env, kw: seq<Entry>): Result<Value>
  {
    if !Binds(kw, {"function_name", "args", "kwargs"}, {"function_name", "args", "kwargs"}) then Err(BadCall)
    else CallDispatch(env.functions, Arg(kw, "function_name"), Arg(kw, "args"), Arg(kw, "kwargs"))
  }

  /** `handle_join(**kw)`. */
  function CallJoin(kw: seq<Entry>): Result<Value>
  {
    if !Binds(kw, {"left", "right", "left_on", "right_on"}, {"left", "right"}) then Err(BadCall)
    else HandleJoin(Arg(kw, "left"), Arg(kw, "right"), Arg(kw, "left_on"), Arg(kw, "right_on"))
  }

  /** `map_function(functions=functions, **kw)`. */
  function CallMap(env: Env, kw: seq<Entry>): Result<Value>
  {
    if !Binds(kw, {"function", "values", "value_path"}, {"function", "values", "value_path"}) then Err(BadCall)
    else MapFunction(env.functions, Arg(kw, "function"), Arg(kw, "values"), Arg(kw, "value_path"))
  }

  /** `handle_select(**kw)`. */
  function CallSelect(env: Env, kw: seq<Entry>): Result<Value>
  {
    if !Binds(kw, {"keys", "fields"}, {"keys", "fields"}) then Err(BadCall)
    else HandleSelect(Arg(kw, "keys"), Arg(kw, "fields"), env.store)
  }

  /** `handle_keys(**kw)`: `function` and `value_path` are bound by name, every other
      keyword goes to `**kwargs`. */
  function CallKeys(env: Env, kw: seq<Entry>): Result<Value>
  {
    if "function" !in KeySet(kw) || "value_path" !in KeySet(kw) then Err(BadCall)
    else HandleKeys(Arg(kw, "function"), Arg(kw, "value_path"),
                    Without(Without(kw, "function"), "value_path"), env.keyFields)
  }

  /** `dispatch_node`: values that are not nodes pass through; a node loses its
      `dispatch` field, and the rest of its fields become the keyword arguments of the
      handler its tag selects; a tag without a handler yields the marker. */
  function DispatchNode(env: Env, node: Value): (r: Result<Value>)
    ensures !IsNode(node) ==> r == Ok(node)
  {
    if !IsNode(node) then Ok(node)
    else
      var tag := TagOf(node);
      if !Hashable(tag) then Err(TypeError("unhashable type"))
      else
        Route(env, tag, Without(node.entries, DispatchField))
  }

  /** A handler with the context already bound, waiting for its keyword arguments. */
  type Handler = seq<Entry> -> Result<Value>

  /** The `DISPATCH` table: the handler registered for a (hashable) tag, if any. */
  function Table(env: Env, tag: Value): Option<Handler>
  {
    if tag == Str(PARAMETER) then Some(kw => CallParameter(env, kw))
    else if tag == Str(CALL) then Some(kw => CallCall(env, kw))
    else if tag == Str(JOIN) then Some(kw => CallJoin(kw))
    else if tag == Str(MAP) then Some(kw => CallMap(env, kw))
    else if tag == Str(SELECT) then Some(kw => CallSelect(env, kw))
    else if tag == Str(KEYS) then Some(kw => CallKeys(env, kw))
    else None
  }

  /** The handler the table selects, applied to the keyword arguments; a tag without a
      handler yields the marker. */
  function Route(env: Env, tag: Value, kw: seq<Entry>): Result<Value>
  {
    match Table(env, tag)
    case Some(h) => h(kw)
    case None => Ok(Unimplemented(kw))
  }

  // ---------------------------------------------------------------------
  // Join: what the index holds and which left records survive.

  /** One step of building the index: the index of all records is the index of all
      but the last, extended by the last record under its key unless that key is None. */
  lemma IndexRightStep(rights: seq<Value>, rightOn: Value)
    requires |rights| > 0
    requires IndexRight(rights, rightOn).Ok?
    ensures IndexRight(rights[..|rights| - 1], rightOn).Ok?
    ensures GetNested(rights[|rights| - 1], rightOn).Ok?
    ensures var key := GetNested(rights[|rights| - 1], rightOn).value;
            var front := IndexRight(rights[..|rights| - 1], rightOn).value;
            IndexRight(rights, rightOn).value == if key == Null then front else front[key := rights[|rights| - 1]]
  {
  }

  /** Every right record has a key under `right_on`. */
  lemma {:induction false} IndexRightKeys(rights: seq<Value>, rightOn: Value)
    requires IndexRight(rights, rightOn).Ok?
    ensures forall i :: 0 <= i < |rights| ==> GetNested(rights[i], rightOn).Ok?
    decreases |rights|
  {
    if |rights| > 0 {
      var n := |rights| - 1;
      IndexRightStep(rights, rightOn);
      IndexRightKeys(rights[..n], rightOn);
      assert forall i :: 0 <= i < n ==> rights[i] == rights[..n][i];
    }
  }

  /** Every right record whose key is not None is indexed under that key. */
  lemma {:induction false} IndexRightCovers(rights: seq<Value>, rightOn: Value)
    requires IndexRight(rights, rightOn).Ok?
    ensures forall i :: 0 <= i < |rights| && GetNested(rights[i], rightOn).Ok? && GetNested(rights[i], rightOn).value != Null
              ==> GetNested(rights[i], rightOn).value in IndexRight(rights, rightOn).value
    decreases |rights|
  {
    if |rights| > 0 {
      var n := |rights| - 1;
      IndexRightStep(rights, rightOn);
      IndexRightCovers(rights[..n], rightOn);
      assert forall i :: 0 <= i < n ==> rights[i] == rights[..n][i];
    }
  }

  /** `rights[i]` is the last right record whose key under `rightOn` is `k`. */
  predicate LastWithKey(rights: seq<Value>, rightOn: Value, k: Value, i: int)
  {
    && 0 <= i < |rights| && GetNested(rights[i], rightOn) == Ok(k)
    && forall j :: i < j < |rights| ==> GetNested(rights[j], rightOn) != Ok(k)
  }

  /** A record after the last one with key `k` that has another key keeps it the last. */
  lemma LastWithKeyExtend(rights: seq<Value>, rightOn: Value, k: Value, i: int)
    requires |rights| > 0 && LastWithKey(rights[..|rights| - 1], rightOn, k, i)
    requires GetNested(rights[|rights| - 1], rightOn) != Ok(k)
    ensures LastWithKey(rights, rightOn, k, i)
  {
    var n := |rights| - 1;
    assert rights[i] == rights[..n][i];
    forall j | i < j < |rights| ensures GetNested(rights[j], rightOn) != Ok(k) {
      if j < n {
        assert rights[j] == rights[..n][j];
      }
    }
  }

  /** An indexed key holds the LAST right record with that key. */
  lemma {:induction false} IndexRightLastWins(rights: seq<Value>, rightOn: Value, k: Value)
    requires IndexRight(rights, rightOn).Ok?
    requires k in IndexRight(rights, rightOn).value
    ensures exists i :: LastWithKey(rights, rightOn, k, i) && IndexRight(rights, rightOn).value[k] == rights[i]
    decreases |rights|
  {
    var n := |rights| - 1;
    var front := rights[..n];
    IndexRightStep(rights, rightOn);
    var key := GetNested(rights[n], rightOn).value;
    var index := IndexRight(rights, rightOn).value;
    if key != Null && k == key {
      assert LastWithKey(rights, rightOn, k, n) && index[k] == rights[n];
    } else {
      var findex := IndexRight(front, rightOn).value;
      assert k in findex && index[k] == findex[k];
      IndexRightLastWins(front, rightOn, k);
      var i :| LastWithKey(front, rightOn, k, i) && findex[k] == front[i];
      LastWithKeyExtend(rights, rightOn, k, i);
      assert index[k] == rights[i];
    }
  }

  /** The index only holds non-empty dicts, so the `if right_dict_match` test rejects
      nothing but a missing key. */
  lemma IndexedMatchesAreTruthy(rights: seq<Value>, rightOn: Value, k: Value)
    requires IndexRight(rights, rightOn).Ok?
    requires k in IndexRight(rights, rightOn).value
    ensures Truthy(IndexRight(rights, rightOn).value[k])
    ensures IndexRight(rights, rightOn).value[k].Obj?
  {
  }

  /** A left record finds a partner: its key is in the index with a truthy record. */
  predicate Matched(l: Value, leftOn: Value, index: map<Value, Value>)
  {
    && GetNested(l, leftOn).Ok?
    && GetNested(l, leftOn).value in index
    && Truthy(index[GetNested(l, leftOn).value])
  }

  /** The partner record of a matched left record. */
  function MatchOf(l: Value, leftOn: Value, index: map<Value, Value>): Value
    requires Matched(l, leftOn, index)
  {
    index[GetNested(l, leftOn).value]
  }

  /** The positions of the matched left records, in increasing order. */
  function Kept(lefts: seq<Value>, leftOn: Value, index: map<Value, Value>): seq<int>
    decreases |lefts|
  {
    if |lefts| == 0 then []
    else
      var n := |lefts| - 1;
      Kept(lefts[..n], leftOn, index) + (if Matched(lefts[n], leftOn, index) then [n] else [])
  }

  /** `kept` lists positions of `lefts` in increasing order. */
  predicate Increasing(kept: seq<int>, len: int)
  {
    && (forall j :: 0 <= j < |kept| ==> 0 <= kept[j] < len)
    && (forall j, j' :: 0 <= j < j' < |kept| ==> kept[j] < kept[j'])
  }

  /** The positions in `kept` are exactly those of the matched left records. */
  predicate KeepsMatched(lefts: seq<Value>, leftOn: Value, index: map<Value, Value>, kept: seq<int>)
  {
    forall i :: 0 <= i < |lefts| ==> (i in kept <==> Matched(lefts[i], leftOn, index))
  }

  lemma IncreasingSnoc(kept: seq<int>, n: int, b: bool)
    requires n >= 0 && Increasing(kept, n)
    ensures Increasing(kept + (if b then [n] else []), n + 1)
  {
    var k := kept + (if b then [n] else []);
    forall j | 0 <= j < |k| ensures 0 <= k[j] < n + 1 {
      if j < |kept| {
        assert k[j] == kept[j];
      }
    }
    forall j, j' | 0 <= j < j' < |k| ensures k[j] < k[j'] {
      assert k[j] == kept[j];
      if j' < |kept| {
        assert k[j'] == kept[j'];
      }
    }
  }

  lemma KeepsMatchedSnoc(lefts: seq<Value>, leftOn: Value, index: map<Value, Value>, fkept: seq<int>)
    requires |lefts| > 0
    requires Increasing(fkept, |lefts| - 1)
    requires KeepsMatched(lefts[..|lefts| - 1], leftOn, index, fkept)
    ensures var n := |lefts| - 1;
            KeepsMatched(lefts, leftOn, index, fkept + (if Matched(lefts[n], leftOn, index) then [n] else []))
  {
    var n := |lefts| - 1;
    var kept := fkept + (if Matched(lefts[n], leftOn, index) then [n] else []);
    forall i | 0 <= i < |lefts| ensures i in kept <==> Matched(lefts[i], leftOn, index) {
      if i < n {
        assert lefts[i] == lefts[..n][i];
        assert i in kept <==> i in fkept;
      }
    }
  }

  /** The kept positions are in range, increasing, and exactly the matched ones. */
  lemma {:induction false} KeptPositions(lefts: seq<Value>, leftOn: Value, index: map<Value, Value>)
    ensures var kept := Kept(lefts, leftOn, index);
            Increasing(kept, |lefts|) && KeepsMatched(lefts, leftOn, index, kept)
    decreases |lefts|
  {
    if |lefts| > 0 {
      var n := |lefts| - 1;
      KeptPositions(lefts[..n], leftOn, index);
      IncreasingSnoc(Kept(lefts[..n], leftOn, index), n, Matched(lefts[n], leftOn, index));
      KeepsMatchedSnoc(lefts, leftOn, index, Kept(lefts[..n], leftOn, index));
    }
  }

  /** `o` is the record the join emits for the left record `l`: `l`'s fields
      overwritten by its partner's, `{**l, **match}`. */
  predicate JoinsTo(l: Value, leftOn: Value, index: map<Value, Value>, o: Value)
  {
    && Matched(l, leftOn, index)
    && l.Obj? && MatchOf(l, leftOn, index).Obj?
    && o == Obj(Merge(l.entries, MatchOf(l, leftOn, index).entries))
  }

  /** One pass yields a record exactly for a matched left record, and that record is the
      left record's fields overwritten by its partner's. */
  lemma JoinOneCases(l: Value, leftOn: Value, index: map<Value, Value>)
    requires JoinOne(l, leftOn, index).Ok?
    ensures JoinOne(l, leftOn, index).value.Some? <==> Matched(l, leftOn, index)
    ensures JoinOne(l, leftOn, index).value.Some? ==> JoinsTo(l, leftOn, index, JoinOne(l, leftOn, index).value.value)
  {
  }

  /** A matched left record yields a record. */
  lemma JoinOneMatched(l: Value, leftOn: Value, index: map<Value, Value>)
    requires JoinOne(l, leftOn, index).Ok? && Matched(l, leftOn, index)
    ensures JoinOne(l, leftOn, index).value.Some?
  {
  }

  /** One step of the loop over `left`. */
  lemma JoinRecordsStep(lefts: seq<Value>, leftOn: Value, index: map<Value, Value>)
    requires |lefts| > 0
    requires JoinRecords(lefts, leftOn, index).Ok?
    ensures JoinRecords(lefts[..|lefts| - 1], leftOn, index).Ok?
    ensures JoinOne(lefts[|lefts| - 1], leftOn, index).Ok?
    ensures var one := JoinOne(lefts[|lefts| - 1], leftOn, index).value;
            JoinRecords(lefts, leftOn, index).value
              == JoinRecords(lefts[..|lefts| - 1], leftOn, index).value + (if one.Some? then [one.value] else [])
  {
  }

  /** Output record `j` is what the left record at kept position `j` joins to. */
  predicate JoinedAt(lefts: seq<Value>, leftOn: Value, index: map<Value, Value>, out: seq<Value>, kept: seq<int>)
  {
    && |out| == |kept|
    && forall j :: 0 <= j < |kept| ==> 0 <= kept[j] < |lefts| && JoinsTo(lefts[kept[j]], leftOn, index, out[j])
  }

  /** One more left record, joined to `o` if it is kept. */
  lemma JoinedAtSnoc(lefts: seq<Value>, leftOn: Value, index: map<Value, Value>, fout: seq<Value>, fkept: seq<int>, o: Option<Value>)
    requires |lefts| > 0
    requires JoinedAt(lefts[..|lefts| - 1], leftOn, index, fout, fkept)
    requires o.Some? ==> JoinsTo(lefts[|lefts| - 1], leftOn, index, o.value)
    ensures JoinedAt(lefts, leftOn, index, fout + (if o.Some? then [o.value] else []),
                     fkept + (if o.Some? then [|lefts| - 1] else []))
  {
    var n := |lefts| - 1;
    var front := lefts[..n];
    var out := fout + (if o.Some? then [o.value] else []);
    var kept := fkept + (if o.Some? then [n] else []);
    forall j | 0 <= j < |kept|
      ensures 0 <= kept[j] < |lefts| && JoinsTo(lefts[kept[j]], leftOn, index, out[j])
    {
      if j < |fkept| {
        assert kept[j] == fkept[j] && out[j] == fout[j];
        assert lefts[fkept[j]] == front[fkept[j]];
      } else {
        assert kept[j] == n && out[j] == o.value;
      }
    }
  }

  /** Inner-join semantics of the loop over `left`: the output holds, in the order of
      `left` (the kept positions increase), exactly one record per matched left record,
      and it is that record merged with its partner; unmatched left records are dropped. */
  lemma {:induction false} JoinRecordsKept(lefts: seq<Value>, leftOn: Value, index: map<Value, Value>)
    requires JoinRecords(lefts, leftOn, index).Ok?
    ensures JoinedAt(lefts, leftOn, index, JoinRecords(lefts, leftOn, index).value, Kept(lefts, leftOn, index))
    decreases |lefts|
  {
    if |lefts| > 0 {
      var n := |lefts| - 1;
      var front := lefts[..n];
      JoinRecordsStep(lefts, leftOn, index);
      JoinRecordsKept(front, leftOn, index);
      JoinOneCases(lefts[n], leftOn, index);
      JoinedAtSnoc(lefts, leftOn, index, JoinRecords(front, leftOn, index).value, Kept(front, leftOn, index),
                   JoinOne(lefts[n], leftOn, index).value);
    }
  }

  /** The loop over `left` fails exactly when one of its passes fails. */
  lemma {:induction false} JoinRecordsFails(lefts: seq<Value>, leftOn: Value, index: map<Value, Value>)
    ensures JoinRecords(lefts, leftOn, index).Ok? <==> forall i :: 0 <= i < |lefts| ==> JoinOne(lefts[i], leftOn, index).Ok?
    decreases |lefts|
  {
    if |lefts| > 0 {
      var n := |lefts| - 1;
      JoinRecordsFails(lefts[..n], leftOn, index);
      assert forall i :: 0 <= i < n ==> lefts[i] == lefts[..n][i];
    }
  }

  /** Without keys the index cannot be built: `get_nested_dict_value(d, None)` calls
      `None.split`. */
  lemma {:induction false} IndexRightWithoutKey(rights: seq<Value>)
    requires |rights| > 0
    ensures IndexRight(rights, Null) == Err(AttributeError("split"))
    decreases |rights|
  {
    if |rights| > 1 {
      IndexRightWithoutKey(rights[..|rights| - 1]);
    }
  }

  /** Nor can a left record be looked up without a key. */
  lemma {:induction false} JoinRecordsWithoutKey(lefts: seq<Value>, index: map<Value, Value>)
    requires |lefts| > 0
    ensures JoinRecords(lefts, Null, index) == Err(AttributeError("split"))
    decreases |lefts|
  {
    if |lefts| > 1 {
      JoinRecordsWithoutKey(lefts[..|lefts| - 1], index);
    }
  }

  /** A join without keys does not pair the lists up by position: it fails as soon as
      either list has a record. */
  lemma JoinWithoutKeysFails(left: Value, right: Value)
    requires Iterate(left).Ok? && Iterate(right).Ok?
    requires |Iterate(left).value| > 0 || |Iterate(right).value| > 0
    ensures HandleJoin(left, right, Null, Null) == Err(AttributeError("split"))
  {
    var rights := Iterate(right).value;
    if |rights| > 0 {
      IndexRightWithoutKey(rights);
    } else {
      JoinRecordsWithoutKey(Iterate(left).value, map[]);
    }
  }

  /** `{**{id: 1, a: "x"}, **{id: 1, b: "y"}}`. */
  lemma MergeExample()
    ensures Merge([Entry("id", Int(1)), Entry("a", Str("x"))], [Entry("id", Int(1)), Entry("b", Str("y"))])
         == [Entry("id", Int(1)), Entry("a", Str("x")), Entry("b", Str("y"))]
  {
    var a := [Entry("id", Int(1)), Entry("a", Str("x"))];
    var b := [Entry("id", Int(1)), Entry("b", Str("y"))];
    assert b[..1] == [Entry("id", Int(1))] && b[..1][..0] == [];
    assert Merge(a, b[..1]) == Update(a, "id", Int(1));
    assert Update(a, "id", Int(1)) == a;
    assert "b" !in KeySet(a);
    UpdateAppends(a, "b", Str("y"));
  }

  /** A single right record is indexed under its key. */
  lemma IndexOne(r: Value, rightOn: Value, k: Value)
    requires GetNested(r, rightOn) == Ok(k) && k != Null && Hashable(k)
    ensures IndexRight([r], rightOn) == Ok(map[k := r])
  {
    assert [r][..0] == [];
  }

  /** A single left record gives what its pass gives. */
  lemma JoinRecordsOne(l: Value, leftOn: Value, index: map<Value, Value>, m: Value)
    requires JoinOne(l, leftOn, index) == Ok(Some(m))
    ensures JoinRecords([l], leftOn, index) == Ok([m])
  {
    assert [l][..0] == [];
    assert JoinRecords([], leftOn, index) == Ok([]);
    var r := JoinRecords([l], leftOn, index);
    assert r.Ok?;
    assert r.value == [m];
  }

  /** Joining `[{id: 1, a: "x"}]` with `[{id: 1, b: "y"}]` on `id` gives
      `[{id: 1, a: "x", b: "y"}]`. */
  lemma JoinExample()
    ensures HandleJoin(Arr([Obj([Entry("id", Int(1)), Entry("a", Str("x"))])]),
                       Arr([Obj([Entry("id", Int(1)), Entry("b", Str("y"))])]),
                       Str("id"), Str("id"))
         == Ok(Arr([Obj([Entry("id", Int(1)), Entry("a", Str("x")), Entry("b", Str("y"))])]))
  {
    var l := Obj([Entry("id", Int(1)), Entry("a", Str("x"))]);
    var r := Obj([Entry("id", Int(1)), Entry("b", Str("y"))]);
    assert l.entries[0].key == "id" && r.entries[0].key == "id";
    GetNestedOneSegment(l, "id");
    GetNestedOneSegment(r, "id");
    JoinSingle(l, r, Str("id"), Str("id"), Int(1));
    MergeExample();
  }

  /** Two one-record lists whose records share a key join into their merge. */
  lemma JoinSingle(l: Value, r: Value, leftOn: Value, rightOn: Value, k: Value)
    requires l.Obj? && r.Obj? && |r.entries| > 0
    requires GetNested(l, leftOn) == Ok(k) && GetNested(r, rightOn) == Ok(k)
    requires k != Null && Hashable(k)
    ensures HandleJoin(Arr([l]), Arr([r]), leftOn, rightOn) == Ok(Arr([Obj(Merge(l.entries, r.entries))]))
  {
    IndexOne(r, rightOn, k);
    var index := map[k := r];
    var m := Obj(Merge(l.entries, r.entries));
    JoinOneMatch(l, leftOn, k, r);
    JoinRecordsOne(l, leftOn, index, m);
    HandleJoinLists([l], [r], leftOn, rightOn, index, [m]);
  }

  /** A left record whose key indexes a non-empty dict is merged with it. */
  lemma JoinOneMatch(l: Value, leftOn: Value, k: Value, r: Value)
    requires l.Obj? && r.Obj? && |r.entries| > 0
    requires GetNested(l, leftOn) == Ok(k) && Hashable(k)
    ensures JoinOne(l, leftOn, map[k := r]) == Ok(Some(Obj(Merge(l.entries, r.entries))))
  {
    assert Truthy(r);
  }

  /** `handle_join` on two lists: index the right list, then run the loop over the left. */
  lemma HandleJoinLists(ls: seq<Value>, rs: seq<Value>, leftOn: Value, rightOn: Value, index: map<Value, Value>, out: seq<Value>)
    requires IndexRight(rs, rightOn) == Ok(index)
    requires JoinRecords(ls, leftOn, index) == Ok(out)
    ensures HandleJoin(Arr(ls), Arr(rs), leftOn, rightOn) == Ok(Arr(out))
  {
  }

  /** When every left record is matched, the join keeps them all. */
  lemma {:induction false} JoinKeepsAllMatched(lefts: seq<Value>, leftOn: Value, index: map<Value, Value>)
    requires JoinRecords(lefts, leftOn, index).Ok?
    requires forall i :: 0 <= i < |lefts| ==> Matched(lefts[i], leftOn, index)
    ensures |JoinRecords(lefts, leftOn, index).value| == |lefts|
    decreases |lefts|
  {
    if |lefts| > 0 {
      var n := |lefts| - 1;
      JoinRecordsStep(lefts, leftOn, index);
      AllMatchedFront(lefts, lefts[..n], leftOn, index);
      JoinOneMatched(lefts[n], leftOn, index);
      JoinKeepsAllMatched(lefts[..n], leftOn, index);
    }
  }

  /** Every record of a prefix of `lefts` matches when every record of `lefts` does. */
  lemma AllMatchedFront(lefts: seq<Value>, front: seq<Value>, leftOn: Value, index: map<Value, Value>)
    requires front <= lefts
    requires forall i :: 0 <= i < |lefts| ==> Matched(lefts[i], leftOn, index)
    ensures forall i :: 0 <= i < |front| ==> Matched(front[i], leftOn, index)
  {
    forall i | 0 <= i < |front| ensures Matched(front[i], leftOn, index) {
      assert front[i] == lefts[i];
    }
  }

  /** A join can return more records than `right` holds: two left records that share
      the key of one right record are both kept. */
  lemma JoinCanOutgrowRight()
    ensures var r := Obj([Entry("id", Int(1))]);
            var out := HandleJoin(Arr([r, r]), Arr([r]), Str("id"), Str("id"));
            out.Ok? && |out.value.items| == 2
  {
    var r := Obj([Entry("id", Int(1))]);
    assert r.entries[0].key == "id";
    GetNestedOneSegment(r, "id");
    assert GetNested(r, Str("id")) == Ok(Int(1));
    IndexOne(r, Str("id"), Int(1));
    var index := map[Int(1) := r];
    assert Matched(r, Str("id"), index);
    assert JoinOne(r, Str("id"), index).Ok?;
    JoinRecordsFails([r, r], Str("id"), index);
    JoinKeepsAllMatched([r, r], Str("id"), index);
  }

  // ---------------------------------------------------------------------
  // Map, select and keys are elementwise.

  /** A comprehension succeeds exactly when every element does, and element `i` of the
      output is `g` of element `i`. */
  lemma {:induction false} EachElementwise(g: Value -> Result<Value>, xs: seq<Value>)
    ensures Each(g, xs).Ok? <==> forall i :: 0 <= i < |xs| ==> g(xs[i]).Ok?
    ensures Each(g, xs).Ok? ==> forall i :: 0 <= i < |xs| ==> Each(g, xs).value[i] == g(xs[i]).value
    decreases |xs|
  {
    if |xs| > 0 {
      var n := |xs| - 1;
      EachElementwise(g, xs[..n]);
      assert forall i :: 0 <= i < n ==> xs[..n][i] == xs[i];
    }
  }

  /** Two comprehensions whose element functions agree on every element agree, errors
      included. */
  lemma {:induction false} EachAgree(g: Value -> Result<Value>, h: Value -> Result<Value>, xs: seq<Value>)
    requires forall i :: 0 <= i < |xs| ==> g(xs[i]) == h(xs[i])
    ensures Each(g, xs) == Each(h, xs)
    decreases |xs|
  {
    if |xs| > 0 {
      var n := |xs| - 1;
      assert forall i :: 0 <= i < n ==> xs[..n][i] == xs[i];
      EachAgree(g, h, xs[..n]);
    }
  }

  /** `map` applies the function to each value in order; with a `value_path` the
      function is never called, so which function is registered under the name does
      not matter. */
  lemma MapFunctionElementwise(functions: map<string, Function>, fn: Value, values: Value, valuePath: Value)
    requires MapFunction(functions, fn, values, valuePath).Ok?
    ensures fn.Str? && fn.s in functions && Iterate(values).Ok?
    ensures var vs := Iterate(values).value;
            var out := MapFunction(functions, fn, values, valuePath).value.items;
            forall i :: 0 <= i < |vs| ==>
              (if valuePath == Null then functions[fn.s]([vs[i]], []) else GetNested(vs[i], valuePath)) == Ok(out[i])
  {
    var f := functions[fn.s];
    EachElementwise(v => MapOne(f, v, valuePath), Iterate(values).value);
  }

  /** With a `value_path`, any two registries that both hold the name give the same
      result. */
  lemma MapPathIgnoresFunction(functions: map<string, Function>, functions': map<string, Function>,
                               fn: Value, values: Value, valuePath: Value)
    requires valuePath != Null
    requires fn.Str? && fn.s in functions && fn.s in functions'
    ensures MapFunction(functions, fn, values, valuePath) == MapFunction(functions', fn, values, valuePath)
  {
    if Iterate(values).Ok? {
      var f := functions[fn.s];
      var f' := functions'[fn.s];
      EachAgree(v => MapOne(f, v, valuePath), v => MapOne(f', v, valuePath), Iterate(values).value);
    }
  }

  /** The pairs a select assigns for a dict of fields: one per field, in order, named by
      the field's output name and holding the value at the field's path. */
  lemma SelectPairs(kvsOut: Value, fields: seq<Entry>)
    requires UniqueKeys(fields)
    requires Assignments(kvsOut, Obj(fields), Iterate(Obj(fields)).value).Ok?
    ensures var pairs := Assignments(kvsOut, Obj(fields), Iterate(Obj(fields)).value).value;
            && |pairs| == |fields|
            && forall i :: 0 <= i < |fields| ==>
                 fields[i].val == Str(pairs[i].key) && GetNested(kvsOut, Str(fields[i].key)) == Ok(pairs[i].val)
  {
    var names := Iterate(Obj(fields)).value;
    var pairs := Assignments(kvsOut, Obj(fields), names).value;
    AssignmentsPointwise(kvsOut, Obj(fields), names);
    forall i | 0 <= i < |fields|
      ensures fields[i].val == Str(pairs[i].key) && GetNested(kvsOut, Str(fields[i].key)) == Ok(pairs[i].val)
    {
      assert names[i] == Str(fields[i].key);
      LookupUnique(fields, i);
    }
  }

  /** The output names of a dict of fields. */
  function OutputNames(fields: seq<Entry>): set<string>
  {
    set i | 0 <= i < |fields| && fields[i].val.Str? :: fields[i].val.s
  }

  /** Writing the pairs of distinct output names over a record: each output name holds
      its value, and the written names are exactly the output names. */
  lemma WriteOutputs(item: seq<Entry>, pairs: seq<Entry>, fields: seq<Entry>, kvsOut: Value)
    requires |pairs| == |fields|
    requires forall i :: 0 <= i < |fields| ==>
               fields[i].val == Str(pairs[i].key) && GetNested(kvsOut, Str(fields[i].key)) == Ok(pairs[i].val)
    requires forall i, j :: 0 <= i < j < |fields| ==> fields[i].val != fields[j].val
    ensures KeySet(pairs) == OutputNames(fields)
    ensures forall i :: 0 <= i < |fields| ==>
              Lookup(Merge(item, pairs), fields[i].val.s) == Some(GetNested(kvsOut, Str(fields[i].key)).value)
  {
    assert UniqueKeys(pairs) by {
      forall i, j | 0 <= i < j < |pairs| ensures pairs[i].key != pairs[j].key {
        assert fields[i].val == Str(pairs[i].key) && fields[j].val == Str(pairs[j].key);
      }
    }
    forall i | 0 <= i < |fields|
      ensures Lookup(Merge(item, pairs), fields[i].val.s) == Some(GetNested(kvsOut, Str(fields[i].key)).value)
    {
      assert pairs[i].key in KeySet(pairs);
      MergeRightWins(item, pairs, pairs[i].key);
      LookupUnique(pairs, i);
    }
    forall x | x in KeySet(pairs) ensures x in OutputNames(fields) {
      var i :| 0 <= i < |pairs| && pairs[i].key == x;
      assert fields[i].val.s == x;
    }
    forall x | x in OutputNames(fields) ensures x in KeySet(pairs) {
      var i :| 0 <= i < |fields| && fields[i].val.Str? && fields[i].val.s == x;
      assert pairs[i].key == x;
    }
  }

  /** The steps of one pass of the select loop, when it succeeds. */
  lemma SelectOneSteps(k: Value, fields: Value, store: Store)
    requires SelectOne(k, fields, store).Ok?
    ensures Subscript(k, "key").Ok? && Subscript(k, "context").Ok?
    ensures store(Subscript(k, "key").value).Ok? && Iterate(fields).Ok?
    ensures Assignments(store(Subscript(k, "key").value).value, fields, Iterate(fields).value).Ok?
    ensures SelectOne(k, fields, store).value
         == Obj(Merge([Entry("context", SelectContext(Subscript(k, "key").value, Subscript(k, "context").value))],
                      Assignments(store(Subscript(k, "key").value).value, fields, Iterate(fields).value).value))
  {
  }

  /** The record a select builds for one key, when the output names are distinct: every
      field's output name holds the value at that field's path in the stored value, the
      `context` field holds the key and its context unless a field overwrote it, and the
      record has no other fields. */
  lemma SelectRecordFields(k: Value, fields: seq<Entry>, store: Store)
    requires UniqueKeys(fields)
    requires forall i, j :: 0 <= i < j < |fields| ==> fields[i].val != fields[j].val
    requires SelectOne(k, Obj(fields), store).Ok?
    ensures Subscript(k, "key").Ok? && Subscript(k, "context").Ok? && store(Subscript(k, "key").value).Ok?
    ensures var r := SelectOne(k, Obj(fields), store).value;
            var kvsOut := store(Subscript(k, "key").value).value;
            && r.Obj? && UniqueKeys(r.entries)
            && KeySet(r.entries) == {"context"} + OutputNames(fields)
            && (forall i :: 0 <= i < |fields| ==>
                  && fields[i].val.Str? && GetNested(kvsOut, Str(fields[i].key)).Ok?
                  && Lookup(r.entries, fields[i].val.s) == Some(GetNested(kvsOut, Str(fields[i].key)).value))
            && (Str("context") !in (set i | 0 <= i < |fields| :: fields[i].val) ==>
                  Lookup(r.entries, "context") == Some(SelectContext(Subscript(k, "key").value, Subscript(k, "context").value)))
  {
    SelectOneSteps(k, Obj(fields), store);
    var key := Subscript(k, "key").value;
    var context := Subscript(k, "context").value;
    var item := [Entry("context", SelectContext(key, context))];
    var kvsOut := store(key).value;
    var pairs := Assignments(kvsOut, Obj(fields), Iterate(Obj(fields)).value).value;
    var r := SelectOne(k, Obj(fields), store).value;
    assert r.entries == Merge(item, pairs);
    MergeUnique(item, pairs);
    SelectPairs(kvsOut, fields);
    WriteOutputs(item, pairs, fields, kvsOut);
    forall i | 0 <= i < |fields|
      ensures fields[i].val.Str? && GetNested(kvsOut, Str(fields[i].key)).Ok?
      ensures Lookup(r.entries, fields[i].val.s) == Some(GetNested(kvsOut, Str(fields[i].key)).value)
    {
      assert fields[i].val == Str(pairs[i].key);
    }
    assert KeySet(item) == {"context"} by {
      assert item[0].key == "context";
    }
    if Str("context") !in (set i | 0 <= i < |fields| :: fields[i].val) {
      assert "context" !in KeySet(pairs) by {
        forall i | 0 <= i < |pairs| ensures pairs[i].key != "context" {
          assert fields[i].val == Str(pairs[i].key);
        }
      }
    }
  }

  /** The record a select builds for one key, when several fields share an output name:
      the name holds the value of the last of them, as later assignments to a Python
      dict overwrite earlier ones. */
  lemma SelectRecordLastWins(k: Value, fields: seq<Entry>, store: Store, j: int)
    requires UniqueKeys(fields)
    requires SelectOne(k, Obj(fields), store).Ok?
    requires 0 <= j < |fields|
    requires forall i :: j < i < |fields| ==> fields[i].val != fields[j].val
    ensures Subscript(k, "key").Ok? && store(Subscript(k, "key").value).Ok?
    ensures var r := SelectOne(k, Obj(fields), store).value;
            var kvsOut := store(Subscript(k, "key").value).value;
            && r.Obj? && fields[j].val.Str? && GetNested(kvsOut, Str(fields[j].key)).Ok?
            && Lookup(r.entries, fields[j].val.s) == Some(GetNested(kvsOut, Str(fields[j].key)).value)
  {
    SelectOneSteps(k, Obj(fields), store);
    var key := Subscript(k, "key").value;
    var item := [Entry("context", SelectContext(key, Subscript(k, "context").value))];
    var kvsOut := store(key).value;
    var pairs := Assignments(kvsOut, Obj(fields), Iterate(Obj(fields)).value).value;
    SelectPairs(kvsOut, fields);
    var later := pairs[j + 1..];
    assert pairs[j].key !in KeySet(later) by {
      forall i | 0 <= i < |later| ensures later[i].key != pairs[j].key {
        assert later[i] == pairs[j + 1 + i];
        assert fields[j + 1 + i].val == Str(later[i].key) && fields[j].val == Str(pairs[j].key);
      }
    }
    MergeLastWins(item, pairs, j);
  }

  /** `fields=None` selects nothing but the context: the same as `fields={}`, and every
      record is exactly `{context: {key, context}}`. */
  lemma SelectWithoutFields(keys: Value, store: Store)
    requires HandleSelect(keys, Null, store).Ok?
    ensures HandleSelect(keys, Null, store) == HandleSelect(keys, Obj([]), store)
    ensures var ks := Iterate(keys).value;
            var out := HandleSelect(keys, Null, store).value.items;
            forall i :: 0 <= i < |ks| ==>
              && Subscript(ks[i], "key").Ok? && Subscript(ks[i], "context").Ok?
              && out[i] == Obj([Entry("context", SelectContext(Subscript(ks[i], "key").value, Subscript(ks[i], "context").value))])
  {
    var ks := Iterate(keys).value;
    EachElementwise(k => SelectOne(k, Obj([]), store), ks);
  }

  /** `handle_select` builds record `i` from key `i` alone: it succeeds exactly when the
      keys are iterable and every key's record can be built, and record `i` is the one
      `SelectOne` builds from key `i` (with `fields=None` read as `{}`). */
  lemma HandleSelectElementwise(keys: Value, fields: Value, store: Store)
    ensures var fs := if fields == Null then Obj([]) else fields;
            HandleSelect(keys, fields, store).Ok? <==>
              Iterate(keys).Ok? && forall i :: 0 <= i < |Iterate(keys).value| ==> SelectOne(Iterate(keys).value[i], fs, store).Ok?
    ensures var fs := if fields == Null then Obj([]) else fields;
            HandleSelect(keys, fields, store).Ok? ==>
              var ks := Iterate(keys).value;
              var out := HandleSelect(keys, fields, store).value.items;
              forall i :: 0 <= i < |ks| ==> SelectOne(ks[i], fs, store) == Ok(out[i])
  {
    if Iterate(keys).Ok? {
      var fs := if fields == Null then Obj([]) else fields;
      EachElementwise(k => SelectOne(k, fs, store), Iterate(keys).value);
    }
  }

  /** Each item a `keys` node reads yields one record; the record fails exactly when its
      value cannot be read or the item is not a dict (it has no `.get`). */
  lemma KeyRecordFields(fn: Value, valuePath: Value, i: Value)
    ensures KeyRecord(fn, valuePath, i).Ok? <==> KeyValue(valuePath, i).Ok? && i.Obj?
    ensures KeyRecord(fn, valuePath, i).Ok? ==>
              var val := KeyValue(valuePath, i).value;
              var rec := KeyRecord(fn, valuePath, i).value;
              && Subscript(rec, "key") == Ok(Str(KeyString(fn, val)))
              && Subscript(rec, "context")
                   == Ok(Obj([Entry("function", fn), Entry("value", val), Entry("context", GetOr(i, "context", Obj([])).value)]))
  {
    if KeyRecord(fn, valuePath, i).Ok? {
      var rec := KeyRecord(fn, valuePath, i).value;
      assert rec.entries[0].key == "key" && rec.entries[1].key == "context";
      LookupUnique(rec.entries, 0);
      LookupUnique(rec.entries, 1);
    }
  }

  /** The records of `keys` are what `select` consumes: selecting one of them asks the
      store for exactly its key string and returns the record as its context. */
  lemma KeysFeedSelect(fn: Value, valuePath: Value, i: Value, store: Store)
    requires KeyRecord(fn, valuePath, i).Ok?
    ensures var rec := KeyRecord(fn, valuePath, i).value;
            var key := Str(KeyString(fn, KeyValue(valuePath, i).value));
            && Subscript(rec, "context").Ok?
            && SelectOne(rec, Obj([]), store)
              == if store(key).Ok? then Ok(Obj([Entry("context", SelectContext(key, Subscript(rec, "context").value))]))
                 else Err(store(key).error)
  {
    KeyRecordFields(fn, valuePath, i);
  }

  /** `handle_keys` builds one record per item of the last key-field argument, in order. */
  lemma HandleKeysElementwise(fn: Value, valuePath: Value, kwargs: seq<Entry>, keyFields: set<string>)
    requires HandleKeys(fn, valuePath, kwargs, keyFields).Ok?
    ensures var items := Iterate(KeyItems(kwargs, keyFields)).value;
            var out := HandleKeys(fn, valuePath, kwargs, keyFields).value.items;
            forall j :: 0 <= j < |items| ==> KeyRecord(fn, valuePath, items[j]) == Ok(out[j])
  {
    EachElementwise(i => KeyRecord(fn, valuePath, i), Iterate(KeyItems(kwargs, keyFields)).value);
  }

  // ---------------------------------------------------------------------
  // Builders and handlers agree: the fields a builder writes are the parameters the
  // handler for its tag takes.

  /** A node literal whose first field is `dispatch`: its handler receives the other
      fields, in order. */
  lemma NodeArguments(es: seq<Entry>)
    requires |es| > 0 && UniqueKeys(es) && es[0].key == DispatchField
    ensures IsNode(Obj(es)) && TagOf(Obj(es)) == es[0].val
    ensures Without(es, DispatchField) == es[1..]
  {
    LiteralFields(es);
    WithoutHead(es);
  }

  /** A node with a hashable tag goes to the handler its tag selects, with its
      remaining fields as keyword arguments. */
  lemma DispatchRoutes(env: Env, node: Value)
    requires IsNode(node) && Hashable(TagOf(node))
    ensures DispatchNode(env, node) == Route(env, TagOf(node), Without(node.entries, DispatchField))
  {
  }

  /** Which handler each tag selects. */
  lemma RouteParameter(env: Env, kw: seq<Entry>)
    ensures Route(env, Str(PARAMETER), kw) == CallParameter(env, kw)
  {
  }

  lemma RouteCall(env: Env, kw: seq<Entry>)
    ensures Route(env, Str(CALL), kw) == CallCall(env, kw)
  {
    assert PARAMETER[0] != CALL[0];
  }

  lemma RouteJoin(env: Env, kw: seq<Entry>)
    ensures Route(env, Str(JOIN), kw) == CallJoin(kw)
  {
    assert PARAMETER[0] != JOIN[0] && CALL[0] != JOIN[0];
  }

  lemma RouteMap(env: Env, kw: seq<Entry>)
    ensures Route(env, Str(MAP), kw) == CallMap(env, kw)
  {
    assert PARAMETER[0] != MAP[0] && CALL[0] != MAP[0] && JOIN[0] != MAP[0];
  }

  lemma RouteSelect(env: Env, kw: seq<Entry>)
    ensures Route(env, Str(SELECT), kw) == CallSelect(env, kw)
  {
    assert PARAMETER[0] != SELECT[0] && CALL[0] != SELECT[0] && JOIN[0] != SELECT[0] && MAP[0] != SELECT[0];
  }

  lemma RouteKeys(env: Env, kw: seq<Entry>)
    ensures Route(env, Str(KEYS), kw) == CallKeys(env, kw)
  {
    assert PARAMETER[0] != KEYS[0] && CALL[0] != KEYS[0] && JOIN[0] != KEYS[0] && MAP[0] != KEYS[0] && SELECT[0] != KEYS[0];
    var h := Table(env, Str(KEYS));
    assert h.Some? && h.value(kw) == CallKeys(env, kw);
  }

  /** A tag with no handler of its own, `variable` included, falls back to the
      `UNIMPLEMENTED` marker, which records the node's remaining fields. */
  lemma DispatchUnknownTag(env: Env, node: Value)
    requires IsNode(node) && Hashable(TagOf(node))
    requires TagOf(node) !in {Str(PARAMETER), Str(CALL), Str(JOIN), Str(MAP), Str(SELECT), Str(KEYS)}
    ensures DispatchNode(env, node) == Ok(Unimplemented(Without(node.entries, DispatchField)))
  {
    assert DispatchNode(env, node) == Route(env, TagOf(node), Without(node.entries, DispatchField));
  }

  /** A `parameter` node evaluates to the endpoint argument it names. */
  lemma DispatchParameter(env: Env, p: Value)
    ensures DispatchNode(env, Parameter(p)) == SubstituteParameter(p, env.parameters)
  {
    var node := Parameter(p);
    NodeArguments(node.entries);
    var kw := node.entries[1..];
    assert kw == [Entry("parameter_name", p)];
    assert KeySet(kw) == {"parameter_name"};
    DispatchRoutes(env, node);
    RouteParameter(env, kw);
  }

  /** A node built by calling `call(f)` runs the registered function `f` on the given
      arguments. */
  lemma DispatchCall(env: Env, f: Value, args: seq<Value>, kwargs: seq<Entry>)
    ensures DispatchNode(env, Invoke(Call(f), args, kwargs)) == CallDispatch(env.functions, f, Arr(args), Obj(kwargs))
    ensures f.Str? && f.s in env.functions ==>
              DispatchNode(env, Invoke(Call(f), args, kwargs)) == env.functions[f.s](args, kwargs)
  {
    var node := Invoke(Call(f), args, kwargs);
    NodeArguments(node.entries);
    var kw := node.entries[1..];
    assert kw == [Entry("function_name", f), Entry("args", Arr(args)), Entry("kwargs", Obj(kwargs))];
    ThreeArguments(Entry("function_name", f), Entry("args", Arr(args)), Entry("kwargs", Obj(kwargs)));
    DispatchRoutes(env, node);
    RouteCall(env, kw);
  }

  /** A `join` node runs the join on its four fields; the builder's `None` defaults are
      the handler's. */
  lemma DispatchJoin(env: Env, left: Value, right: Value, leftOn: Value, rightOn: Value)
    ensures DispatchNode(env, Join(left, right, leftOn, rightOn)) == HandleJoin(left, right, leftOn, rightOn)
  {
    var node := Join(left, right, leftOn, rightOn);
    JoinArguments(left, right, leftOn, rightOn);
    DispatchRoutes(env, node);
    RouteJoin(env, Without(node.entries, DispatchField));
  }

  /** Keyword arguments written out as three distinct names. */
  lemma ThreeArguments(a: Entry, b: Entry, c: Entry)
    requires a.key != b.key && a.key != c.key && b.key != c.key
    ensures var kw := [a, b, c];
            && KeySet(kw) == {a.key, b.key, c.key}
            && Lookup(kw, a.key) == Some(a.val) && Lookup(kw, b.key) == Some(b.val) && Lookup(kw, c.key) == Some(c.val)
  {
    var kw := [a, b, c];
    assert kw[0].key in KeySet(kw);
    assert kw[1].key in KeySet(kw);
    assert kw[2].key in KeySet(kw);
    LookupUnique(kw, 0);
    LookupUnique(kw, 1);
    LookupUnique(kw, 2);
  }

  /** Keyword arguments written out as four distinct names. */
  lemma FourArguments(a: Entry, b: Entry, c: Entry, d: Entry)
    requires a.key != b.key && a.key != c.key && a.key != d.key
    requires b.key != c.key && b.key != d.key && c.key != d.key
    ensures var kw := [a, b, c, d];
            && KeySet(kw) == {a.key, b.key, c.key, d.key}
            && Lookup(kw, a.key) == Some(a.val) && Lookup(kw, b.key) == Some(b.val)
            && Lookup(kw, c.key) == Some(c.val) && Lookup(kw, d.key) == Some(d.val)
  {
    var kw := [a, b, c, d];
    assert kw[0].key in KeySet(kw);
    assert kw[1].key in KeySet(kw);
    assert kw[2].key in KeySet(kw);
    assert kw[3].key in KeySet(kw);
    LookupUnique(kw, 0);
    LookupUnique(kw, 1);
    LookupUnique(kw, 2);
    LookupUnique(kw, 3);
  }

  /** The arguments of a `join` node. */
  lemma JoinArguments(left: Value, right: Value, leftOn: Value, rightOn: Value)
    ensures var node := Join(left, right, leftOn, rightOn);
            var kw := Without(node.entries, DispatchField);
            && IsNode(node) && TagOf(node) == Str(JOIN)
            && Binds(kw, {"left", "right", "left_on", "right_on"}, {"left", "right"})
            && Arg(kw, "left") == left && Arg(kw, "right") == right
            && Arg(kw, "left_on") == leftOn && Arg(kw, "right_on") == rightOn
  {
    var es := Join(left, right, leftOn, rightOn).entries;
    NodeArguments(es);
    var kw := es[1..];
    assert kw == [Entry("left", left), Entry("right", right), Entry("left_on", leftOn), Entry("right_on", rightOn)];
    FourArguments(Entry("left", left), Entry("right", right), Entry("left_on", leftOn), Entry("right_on", rightOn));
  }

  /** `join(left, right)` joins without keys: the builder's `None` defaults are the
      handler's, so such a node fails on any non-empty input. */
  lemma DispatchJoinDefaults(env: Env, left: Value, right: Value)
    ensures DispatchNode(env, Join(left, right)) == HandleJoin(left, right, Null, Null)
    ensures Iterate(left).Ok? && Iterate(right).Ok? && (|Iterate(left).value| > 0 || |Iterate(right).value| > 0)
            ==> DispatchNode(env, Join(left, right)) == Err(AttributeError("split"))
  {
    DispatchJoin(env, left, right, Null, Null);
    if Iterate(left).Ok? && Iterate(right).Ok? && (|Iterate(left).value| > 0 || |Iterate(right).value| > 0) {
      JoinWithoutKeysFails(left, right);
    }
  }

  /** The arguments of a `map` node built from `call(f)`. */
  lemma MapArguments(f: Value, values: Value, valuePath: Value)
    ensures var node := Map(Some(Call(f)), values, valuePath).value;
            var kw := Without(node.entries, DispatchField);
            && IsNode(node) && TagOf(node) == Str(MAP)
            && Binds(kw, {"function", "values", "value_path"}, {"function", "values", "value_path"})
            && Arg(kw, "function") == f && Arg(kw, "values") == values && Arg(kw, "value_path") == valuePath
  {
    var es := Map(Some(Call(f)), values, valuePath).value.entries;
    assert es == [Entry(DispatchField, Str(MAP)), Entry("function", f),
                  Entry("values", values), Entry("value_path", valuePath)];
    NodeArguments(es);
    var kw := es[1..];
    assert kw == [Entry("function", f), Entry("values", values), Entry("value_path", valuePath)];
    ThreeArguments(Entry("function", f), Entry("values", values), Entry("value_path", valuePath));
  }

  /** A `map` node built from `call(f)` maps the registered function `f`. */
  lemma DispatchMap(env: Env, f: Value, values: Value, valuePath: Value)
    ensures DispatchNode(env, Map(Some(Call(f)), values, valuePath).value) == MapFunction(env.functions, f, values, valuePath)
  {
    var node := Map(Some(Call(f)), values, valuePath).value;
    MapArguments(f, values, valuePath);
    DispatchRoutes(env, node);
    RouteMap(env, Without(node.entries, DispatchField));
  }

  /** A `select` node selects its keys with its fields from the store. */
  lemma DispatchSelect(env: Env, keys: Value, fields: Value)
    ensures DispatchNode(env, Select(keys, fields)) == HandleSelect(keys, fields, env.store)
  {
    var node := Select(keys, fields);
    NodeArguments(node.entries);
    var kw := node.entries[1..];
    assert kw == [Entry("keys", keys), Entry("fields", fields)];
    assert KeySet(kw) == {"keys", "fields"};
    DispatchRoutes(env, node);
    RouteSelect(env, kw);
  }

  /** A `variable` node has no handler: dispatched on its own it yields the marker. */
  lemma DispatchVariable(env: Env, name: Value)
    ensures DispatchNode(env, Variable(name)) == Ok(Unimplemented([Entry("variable_name", name)]))
  {
    var node := Variable(name);
    NodeArguments(node.entries);
    assert node.entries[1..] == [Entry("variable_name", name)];
    DispatchTagsDistinct();
    DispatchUnknownTag(env, node);
  }

  /** The arguments of a `keys(func, **kwargs)` node: `function` first, then the
      keyword arguments in order. */
  lemma KeysArguments(func: Value, kwargs: seq<Entry>)
    requires UniqueKeys(kwargs)
    requires DispatchField !in KeySet(kwargs) && "function" !in KeySet(kwargs) && "func" !in KeySet(kwargs)
    ensures IsNode(Keys(func, kwargs).value) && TagOf(Keys(func, kwargs).value) == Str(KEYS)
    ensures Without(Keys(func, kwargs).value.entries, DispatchField) == [Entry("function", func)] + kwargs
  {
    var base := [Entry(DispatchField, Str(KEYS)), Entry("function", func)];
    assert KeySet(base) == {DispatchField, "function"} by {
      assert base[0].key in KeySet(base) && base[1].key in KeySet(base);
    }
    MergeFresh(base, kwargs);
    var es := Keys(func, kwargs).value.entries;
    assert es == base + kwargs;
    TailOfConcat(base, kwargs);
    assert base[1..] == [Entry("function", func)];
    NodeArguments(es);
  }

  /** A `keys(func, **kwargs)` node passes its keyword arguments, minus `value_path`, on
      as the handler's `**kwargs`; without a `value_path` keyword (the builder does not
      add one) the handler cannot be called. */
  lemma DispatchKeys(env: Env, func: Value, kwargs: seq<Entry>)
    requires UniqueKeys(kwargs)
    requires DispatchField !in KeySet(kwargs) && "function" !in KeySet(kwargs) && "func" !in KeySet(kwargs)
    ensures "value_path" !in KeySet(kwargs) ==> DispatchNode(env, Keys(func, kwargs).value) == Err(BadCall)
    ensures "value_path" in KeySet(kwargs) ==>
              DispatchNode(env, Keys(func, kwargs).value)
                == HandleKeys(func, Lookup(kwargs, "value_path").value, Without(kwargs, "value_path"), env.keyFields)
  {
    KeysArguments(func, kwargs);
    DispatchRoutes(env, Keys(func, kwargs).value);
    RouteKeys(env, [Entry("function", func)] + kwargs);
    KeysBinding(func, kwargs);
  }

  /** How the handler binds the arguments of a `keys` node. */
  lemma KeysBinding(func: Value, kwargs: seq<Entry>)
    requires UniqueKeys(kwargs)
    requires "function" !in KeySet(kwargs)
    ensures var kw := [Entry("function", func)] + kwargs;
            && KeySet(kw) == {"function"} + KeySet(kwargs)
            && Without(kw, "function") == kwargs
            && Arg(kw, "function") == func
            && Lookup(kw, "value_path") == Lookup(kwargs, "value_path")
  {
    var kw := [Entry("function", func)] + kwargs;
    KeySetCons(Entry("function", func), kwargs);
    UniqueKeysCons(Entry("function", func), kwargs);
    WithoutHead(kw);
    assert kw[0] == Entry("function", func) && kw[1..] == kwargs;
  }

}
