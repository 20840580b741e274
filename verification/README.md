# Learning Observer query engine, modelled in Dafny

This project models the query engine of the Learning Observer communication
protocol. A query is a tree of JSON-like nodes. Each node is a dict tagged with a
`dispatch` field that names one of seven kinds: `parameter`, `variable`, `call`,
`select`, `join`, `map` and `keys`. The engine has three parts:

- **Builders** (`query.py`): pure constructors of the tagged dicts.
- **Flattener** (`flatten_helper`, `flatten`): moves every nested computing node to
  the top level of the endpoint's `execution_dag`, under a dotted name
  `impl.<root>.<field>…`. Its old position becomes a `variable` reference.
- **Executor** (`execute_dag`): evaluates the returned names on demand.
  - `visit` is memoised and resolves references depth-first.
  - `dispatch_node` sends a node to its handler: `substitute_parameter`,
    `call_dispatch`, `handle_join`, `map_function`, `handle_select` or
    `handle_keys`, with `unimplemented_handler` as the fallback.
  - All handlers share the dotted-path lookup `get_nested_dict_value`.
  - A final step strips `context` from the returned records unless the engine
    runs in development mode.

Files and modules:

| file | module | contents |
|---|---|---|
| `errors.dfy` | `Errors` | `Option`, and `Result`, whose errors are named after the Python exception the code raises |
| `json.dfy` | `Json` | the `Value` datatype and Python's dict semantics for it |
| `paths.dfy` | `Paths` | `str.split('.')` and `get_nested_dict_value` |
| `query.dfy` | `Query` | tag constants and builders |
| `flatten.dfy` | `Flatten` | the flattener |
| `handlers.dfy` | `Handlers` | the handlers and `dispatch_node` |
| `executor.dfy` | `Executor` | `visit`, `walk_dict`, output shaping, `execute_dag` |

How the model represents the program:

- Dicts are association lists (`Obj(seq<Entry>)`). This keeps Python's insertion
  order and its update-in-place behaviour.
- Each exception Python would raise is a `Result` error (`KeyError`, `TypeError`,
  `AttributeError`). The error paths of the modelled functions are branches of the
  model, except where "## Left out" says otherwise.
- Things the engine receives from outside are parameters:
  - the endpoint's `parameters`;
  - the function registry;
  - the key-value store;
  - the `KeyFields` names;
  - the run mode.
- The `DISPATCH` dict is `Handlers.Table`, a map from tag to handler.
- `visit` and `walk_dict` take the node evaluator as a parameter (`Executor.Dispatcher`).
  Their guarantees hold for any evaluator, and `execute_dag` supplies `dispatch_node`.
- `visit` carries a fuel bound that stands for Python's recursion limit. Running
  out of fuel is the `RecursionError` that a cyclic graph ends in.
- Acyclicity is a ranking of node names in which every reference goes to a lower
  rank.

## Model

Every source path below is relative to the repository root. `executor.py` and
`query.py` live in `learning_observer/learning_observer/communication_protocol/`.

| member | source | states |
|---|---|---|
| Query.DispatchTagsDistinct | learning_observer/learning_observer/communication_protocol/query.py:28-29 | the seven dispatch tags are pairwise distinct |
| Query.DispatchModeNamesLowerCase | learning_observer/learning_observer/communication_protocol/query.py:28-29 | each tag equals the lower-cased name of the `DISPATCH_MODES` attribute that holds it |
| Query.ModeAttributesTable | learning_observer/learning_observer/communication_protocol/query.py:24-29 | the `setattr` loop creates exactly the attributes `PARAMETER`…`KEYS`, one per tag, in declaration order |
| Query.DispatchModeConstants | learning_observer/learning_observer/communication_protocol/query.py:24-29 | each `DISPATCH_MODES.<NAME>` holds the tag the engine compares against |
| Query.Parameter | learning_observer/learning_observer/communication_protocol/query.py:32-44 | the node has exactly the fields `dispatch: "parameter"` and `parameter_name: n` |
| Query.Variable | learning_observer/learning_observer/communication_protocol/query.py:47-59 | the node has exactly the fields `dispatch: "variable"` and `variable_name: n`, so it is a reference |
| Query.Invoke | learning_observer/learning_observer/communication_protocol/query.py:70-76 | calling the caller gives a `call` node whose `function_name` is the caller's name and whose `args` and `kwargs` are the ones passed |
| Query.Select | learning_observer/learning_observer/communication_protocol/query.py:81-94 | a `select` node keeping `keys` and `fields` verbatim; `fields` defaults to None |
| Query.Join | learning_observer/learning_observer/communication_protocol/query.py:97-118 | a `join` node keeping its four inputs verbatim; both keys default to None |
| Query.Map | learning_observer/learning_observer/communication_protocol/query.py:121-139 | a function object without `__lo_name__` is an AttributeError; otherwise a `map` node holding that `__lo_name__`, the values and the path; the path defaults to None |
| Query.Keys | learning_observer/learning_observer/communication_protocol/query.py:142-159 | a keyword named `func` is a TypeError (it clashes with the positional parameter); otherwise a dict with `dispatch` and `function` plus every extra keyword copied unchanged, which is a `keys` node unless a keyword overrides `dispatch` |
| Query.MapOfCallKeepsName | learning_observer/learning_observer/communication_protocol/query.py:136 | the function name survives the trip through `__lo_name__`: `map(call(f), vs, p)` stores `f`, `vs` and `p`, and `call(f)(…)` names `f` |
| Paths.JoinSplit | learning_observer/learning_observer/communication_protocol/executor.py:78 | joining the split segments with dots gives back the path string |
| Paths.SplitJoin | learning_observer/learning_observer/communication_protocol/executor.py:78 | splitting a dot-join of dot-free segments recovers the segments |
| Paths.SplitDotted | learning_observer/learning_observer/communication_protocol/executor.py:78 | splitting `a + "." + b` splits `a` and `b` separately and concatenates the segments |
| Paths.GetNested | learning_observer/learning_observer/communication_protocol/executor.py:68-84 | a path that is not a string fails (no `.split`); a non-None answer means the first segment is a key of the dict |
| Paths.GetPathFollowsSegments | learning_observer/learning_observer/communication_protocol/executor.py:79-84 | through nested dicts, the lookup returns the value reached, or None as soon as a segment is missing or an intermediate is None (checked against the independent `Reach`) |
| Paths.GetPathFound | learning_observer/learning_observer/communication_protocol/executor.py:79-84 | every non-None answer is the value really reached through dicts along the segments |
| Paths.GetNestedDotted | learning_observer/learning_observer/communication_protocol/executor.py:78-84 | `get(d, "p1.p2") == get(get(d, "p1"), "p2")`, errors included |
| Paths.GetNestedOneSegment | learning_observer/learning_observer/communication_protocol/executor.py:78-84 | a dot-free path on a dict is `d[k]` when `k` is present, and None when it is absent |
| Flatten.FlattenChild | learning_observer/learning_observer/communication_protocol/executor.py:37-49 | a computing node is replaced by a `variable` naming its dotted position; anything that is neither such a node nor an untagged dict (variables, lists, scalars) is left untouched, graph included |
| Flatten.FlattenEntries | learning_observer/learning_observer/communication_protocol/executor.py:37-50 | each field of a level keeps its key and its position |
| Flatten.FlattenEntriesPositions | learning_observer/learning_observer/communication_protocol/executor.py:37-49 | field `i` of a level is rewritten in place: a computing node becomes a reference to its field name (`<prefix>.<key>`, or the bare key when the prefix is empty), an untagged dict stays an untagged dict whose own fields are rewritten in place the same way under that name, at every depth, and anything else stays as it was |
| Flatten.FlattenChildKeepsTag | learning_observer/learning_observer/communication_protocol/executor.py:40-46 | a hoisted node, whatever its tag, is stored at its dotted name holding its own fields in their order, each rewritten as a field of the level at that name is |
| Flatten.FlattenTopLevelExample | learning_observer/learning_observer/communication_protocol/executor.py:24-49 | at the default empty prefix a parameter node in field `x` is stored at the bare name `x` and replaced by a reference to `x` |
| Flatten.HoistedTag | learning_observer/learning_observer/communication_protocol/executor.py:40-46 | the stored node is a node with the same field names, and its tag is rewritten like any field: a scalar or list tag is kept, a tag that is itself a node becomes a reference |
| Flatten.HoistedKeepsData | learning_observer/learning_observer/communication_protocol/executor.py:40-49 | a field of a hoisted node that holds a scalar, a list or a reference (such as `function_name`, `args`) is stored unchanged |
| Flatten.HoistedRenamedCallExample | learning_observer/learning_observer/communication_protocol/executor.py:40-46 | a call stored under another function name is not the hoisted form of the call |
| Flatten.FlattenEntriesKeeps | learning_observer/learning_observer/communication_protocol/executor.py:37-49 | flattening the fields of a level changes no top-level name outside the dotted positions of those fields |
| Flatten.FlattenEntriesPlaces | learning_observer/learning_observer/communication_protocol/executor.py:37-49 | with dot-free and distinct field names, and non-empty ones when the prefix is empty, every computing field of a level ends up at its field name (`<prefix>.<field>`, or `<field>` at an empty prefix), holding that node's fields in order, each rewritten as `flatten_helper` rewrites them (`HoistedAs`) |
| Flatten.FlattenRootsKeeps | learning_observer/learning_observer/communication_protocol/executor.py:62-63 | the loop of `flatten` changes no top-level name other than the roots' own names and the positions under `impl.<root>.` |
| Flatten.FlattenRootsPlaces | learning_observer/learning_observer/communication_protocol/executor.py:62-63 | with dot-free, distinct root names, every computing field of every root is at `impl.<root>.<field>` after the loop, holding that node's fields in order, each rewritten (`HoistedAs`), and a later root does not overwrite it |
| Flatten.FlattenRoots | learning_observer/learning_observer/communication_protocol/executor.py:62-63 | flattening succeeds exactly when every root is a dict (otherwise `.items()` fails) |
| Flatten.FlattenEndpoint | learning_observer/learning_observer/communication_protocol/executor.py:53-65 | `flatten` fails exactly on a non-dict root, and keeps the returned names |
| Flatten.FlattenPlacesFields | learning_observer/learning_observer/communication_protocol/executor.py:37-65 | with dot-free root and field names, `flatten` succeeds and every computing node in a field of a root is a top-level node named `impl.<root>.<field>` holding that node's fields in order, each rewritten as `flatten_helper` rewrites them: data fields unchanged, nested computing nodes replaced by references, plain dicts rewritten recursively |
| Flatten.FlattenClosesNames | learning_observer/learning_observer/communication_protocol/executor.py:37-65 | no node is lost, and every reference in the flattened graph names one of its nodes or was already in the original graph |
| Flatten.FlattenLeavesFlatNodes | learning_observer/learning_observer/communication_protocol/executor.py:37-65 | after flattening every node is a dict whose fields hold no nested computing node |
| Flatten.FlattenIdempotent | learning_observer/learning_observer/communication_protocol/executor.py:53-65 | flattening an already flattened endpoint changes nothing |
| Handlers.Fetch | learning_observer/learning_observer/communication_protocol/executor.py:153 | `d[name]` on a string-keyed dict: succeeds exactly for a present string name and yields its entry; unhashable names raise TypeError, other misses KeyError |
| Handlers.SubstituteParameter | learning_observer/learning_observer/communication_protocol/executor.py:142-153 | a parameter node succeeds exactly when the named endpoint argument exists, and yields that argument |
| Handlers.CallDispatch | learning_observer/learning_observer/communication_protocol/executor.py:120-139 | an unregistered name, non-iterable `args` or non-dict `kwargs` fails; otherwise the registered function is applied to the spread arguments |
| Handlers.IndexRight | learning_observer/learning_observer/communication_protocol/executor.py:172 | the index holds only non-None hashable keys, each mapped to a non-empty dict |
| Handlers.IndexRightCovers | learning_observer/learning_observer/communication_protocol/executor.py:172 | every right record whose key is not None is indexed under that key |
| Handlers.IndexRightLastWins | learning_observer/learning_observer/communication_protocol/executor.py:172 | among right records with equal keys the index holds the last one |
| Handlers.IndexedMatchesAreTruthy | learning_observer/learning_observer/communication_protocol/executor.py:172-179 | every indexed record is a non-empty dict, so the truthiness test rejects only missing keys |
| Json.Merge | learning_observer/learning_observer/communication_protocol/executor.py:180 | `{**l, **r}` has the keys of both, and a key absent from `r` reads `l`'s value |
| Json.MergeRightWins | learning_observer/learning_observer/communication_protocol/executor.py:180 | in `{**l, **r}` with distinct keys in `r`, a key of `r` reads `r`'s value |
| Handlers.MergeExample | learning_observer/learning_observer/communication_protocol/executor.py:180 | `{**l, **r}` keeps `l`'s field order, lets `r` override shared fields, and appends `r`'s new fields |
| Handlers.JoinOneCases | learning_observer/learning_observer/communication_protocol/executor.py:175-181 | a left record yields a record exactly when its key finds a truthy partner, and that record is the left record overwritten by its partner |
| Handlers.KeptPositions | learning_observer/learning_observer/communication_protocol/executor.py:174-181 | the surviving left records are exactly the matched ones, taken in increasing position order |
| Handlers.JoinRecordsKept | learning_observer/learning_observer/communication_protocol/executor.py:174-182 | inner-join semantics: one output per matched left record, in left order, each equal to `{**left, **match}`; unmatched records are dropped |
| Handlers.JoinRecordsFails | learning_observer/learning_observer/communication_protocol/executor.py:174-182 | the loop over `left` fails exactly when one of its passes fails |
| Handlers.JoinKeepsAllMatched | learning_observer/learning_observer/communication_protocol/executor.py:175-181 | when every left record has a partner, the output is as long as `left` |
| Handlers.HandleJoin | learning_observer/learning_observer/communication_protocol/executor.py:156-182 | the result is a list no longer than `left` |
| Handlers.JoinExample | learning_observer/learning_observer/communication_protocol/executor.py:156-182 | `[{id:1,a:"x"}]` joined with `[{id:1,b:"y"}]` on `id` is `[{id:1,a:"x",b:"y"}]` |
| Handlers.JoinCanOutgrowRight | learning_observer/learning_observer/communication_protocol/executor.py:172-182 | two left records sharing one right record's key both survive: the output is not bounded by `right` |
| Handlers.JoinWithoutKeysFails | learning_observer/learning_observer/communication_protocol/executor.py:172-176 | without keys the join does not zip: it raises AttributeError (`None.split`) whenever either list is non-empty |
| Handlers.MapFunction | learning_observer/learning_observer/communication_protocol/executor.py:185-203 | the function must be registered even when a path is given; the result is a list as long as `values` |
| Handlers.MapFunctionElementwise | learning_observer/learning_observer/communication_protocol/executor.py:200-203 | element `i` is `func(values[i])` without a path, and `get(values[i], path)` with one |
| Handlers.MapPathIgnoresFunction | learning_observer/learning_observer/communication_protocol/executor.py:200-203 | with a path, which function is registered under the name does not affect the result |
| Handlers.EachElementwise | learning_observer/learning_observer/communication_protocol/executor.py:203 | a list comprehension succeeds exactly when every element does, and element `i` of the result belongs to element `i` of the input |
| Handlers.AssignmentsPointwise | learning_observer/learning_observer/communication_protocol/executor.py:230-232 | one assignment per field, in order, of the value at the field's path to the field's output name |
| Handlers.SelectPairs | learning_observer/learning_observer/communication_protocol/executor.py:230-232 | for a dict of fields, the assigned pairs follow the fields: output name `fields[f]`, value `get(kvs_out, f)` |
| Handlers.SelectRecordFields | learning_observer/learning_observer/communication_protocol/executor.py:222-233 | a record holds `context` plus exactly the output names; each name holds the value at its path in the stored value; `context` is `{key, context}` unless a field overwrote it |
| Handlers.HandleSelect | learning_observer/learning_observer/communication_protocol/executor.py:206-234 | exactly one record per key, so the result is as long as `keys` |
| Handlers.SelectRecordLastWins | learning_observer/learning_observer/communication_protocol/executor.py:230-232 | when several fields share an output name, the record holds the value at the path of the last of them |
| Json.MergeLastWins | learning_observer/learning_observer/communication_protocol/executor.py:230-232 | writing a sequence of pairs into a dict leaves each key with the value of its last pair |
| Handlers.HandleSelectElementwise | learning_observer/learning_observer/communication_protocol/executor.py:206-234 | select succeeds exactly when `keys` is iterable and every key's record can be built, and record `i` is the one built from key `i` |
| Handlers.SelectWithoutFields | learning_observer/learning_observer/communication_protocol/executor.py:218-228 | `fields=None` behaves as `{}`, and each record is exactly `{context: {key, context}}` |
| Handlers.KeyItemsLast | learning_observer/learning_observer/communication_protocol/executor.py:257-260 | the items are the value of the last keyword named by a key field (a later key field overrides an earlier one), or `[]` when no keyword is one |
| Handlers.KeyRecordFields | learning_observer/learning_observer/communication_protocol/executor.py:266-282 | a record fails exactly when its value cannot be read or the item is not a dict; its `key` is `"<function>-<val>"` and its context is `{function, value: val, context: item.context or {}}` |
| Json.UnescapeEscape | learning_observer/learning_observer/communication_protocol/executor.py:275 | the escaping `repr` applies to a string between either quote is undone by reading the escapes back, so every string is recovered |
| Json.ReprStringReadsBack | learning_observer/learning_observer/communication_protocol/executor.py:275 | `repr` of a string is a literal between matching quotes whose body reads back as the string |
| Json.ReprControlExample | learning_observer/learning_observer/communication_protocol/executor.py:275 | a control character is written by its code point: `repr('\x01')` is `'\x01'` |
| Handlers.HandleKeys | learning_observer/learning_observer/communication_protocol/executor.py:237-283 | one record per item, so the result is as long as the items |
| Handlers.HandleKeysElementwise | learning_observer/learning_observer/communication_protocol/executor.py:265-283 | record `j` is the record built from item `j` |
| Handlers.KeysFeedSelect | learning_observer/learning_observer/communication_protocol/executor.py:222-229 | selecting a `keys` record asks the store for exactly its key string and returns the record itself as the context |
| Handlers.Unimplemented | learning_observer/learning_observer/communication_protocol/executor.py:87-100 | the marker has exactly `issue: "UNIMPLEMENTED"`, empty `args`, and the node's remaining fields as `kwargs` |
| Handlers.DispatchNode | learning_observer/learning_observer/communication_protocol/executor.py:306-310 | a value that is not a dict, or a dict without `dispatch`, is returned unchanged |
| Handlers.NodeArguments | learning_observer/learning_observer/communication_protocol/executor.py:311-313 | a node literal's handler receives all fields except `dispatch`, in order |
| Handlers.DispatchUnknownTag | learning_observer/learning_observer/communication_protocol/executor.py:311-321 | a tag without a handler (`DISPATCH` defaults to `unimplemented_handler`) yields the `UNIMPLEMENTED` marker holding the node's fields |
| Handlers.DispatchVariable | learning_observer/learning_observer/communication_protocol/executor.py:311-321 | a `variable` node dispatched on its own has no handler and yields the marker |
| Handlers.DispatchParameter | learning_observer/learning_observer/communication_protocol/executor.py:315-316 | a `parameter` node evaluates to the endpoint argument it names |
| Handlers.DispatchCall | learning_observer/learning_observer/communication_protocol/executor.py:317-319 | a node built by `call(f)(…)` runs the registered `f` on exactly the given arguments |
| Handlers.DispatchMap | learning_observer/learning_observer/communication_protocol/executor.py:317-319 | a node built by `map(call(f), …)` maps the registered `f` |
| Handlers.DispatchJoin | learning_observer/learning_observer/communication_protocol/executor.py:320-321 | a `join` node joins its own four fields |
| Handlers.DispatchSelect | learning_observer/learning_observer/communication_protocol/executor.py:320-321 | a `select` node selects its keys and fields from the store |
| Handlers.DispatchJoinDefaults | learning_observer/learning_observer/communication_protocol/query.py:97-118 | `join(left, right)` passes None keys to the handler and so fails on any non-empty input |
| Handlers.DispatchKeys | learning_observer/learning_observer/communication_protocol/executor.py:237-238 | a `keys` node passes every keyword except `value_path` on as `**kwargs`; without a `value_path` keyword the handler cannot be called |
| Executor.WalkChild | learning_observer/learning_observer/communication_protocol/executor.py:331-335 | a field that is not a dict is left unchanged, state included |
| Executor.WalkEntries | learning_observer/learning_observer/communication_protocol/executor.py:327-335 | walking keeps every field's key and position |
| Executor.Visit | learning_observer/learning_observer/communication_protocol/executor.py:337-346 | a successful visit was of a string name, which is marked visited afterwards |
| Executor.VisitFacts | learning_observer/learning_observer/communication_protocol/executor.py:337-346 | on an acyclic graph a visit moves the state forward without changing stored results or unvisited nodes, keeps each name at most once in the dispatch order, and leaves the returned value stored under the name |
| Executor.VisitAgain | learning_observer/learning_observer/communication_protocol/executor.py:339-340 | a second visit of a name returns the stored value and changes nothing, so a node is never dispatched twice |
| Executor.VisitResolves | learning_observer/learning_observer/communication_protocol/executor.py:341-346 | the node is dispatched with every reference replaced by the referenced node's final result (the independent `Resolve`) |
| Executor.VisitOrder | learning_observer/learning_observer/communication_protocol/executor.py:337-346 | dependencies first: a first visit dispatches its node last, after every node that the node's fields refer to |
| Executor.WalkEntriesResolves | learning_observer/learning_observer/communication_protocol/executor.py:327-335 | the walked fields are the fields with every reachable reference resolved, and every such reference has been visited |
| Executor.VisitFuel | learning_observer/learning_observer/communication_protocol/executor.py:337-346 | on an acyclic graph, any fuel above the name's rank gives the same result |
| Executor.SelfReferenceExhausts | learning_observer/learning_observer/communication_protocol/executor.py:331-342 | a node whose field refers to the node itself reaches the recursion limit, whatever the fuel |
| Executor.StripContext | learning_observer/learning_observer/communication_protocol/executor.py:353 | a record loses exactly its `context` field, and a record that is not a dict raises AttributeError |
| Executor.ShapeStrips | learning_observer/learning_observer/communication_protocol/executor.py:351-353 | outside development mode an output succeeds exactly when it is an iterable of dicts; each record keeps its order and all its fields except `context` |
| Executor.RunOutputs | learning_observer/learning_observer/communication_protocol/executor.py:348-353 | one entry per returned name, in order, each keyed by that name |
| Executor.RunModes | learning_observer/learning_observer/communication_protocol/executor.py:348-353 | both modes visit the same nodes; the normal mode returns the development-mode values shaped, and fails exactly when development mode fails or a value cannot be shaped |
| Executor.RunFacts | learning_observer/learning_observer/communication_protocol/executor.py:348-350 | in development mode each returned value is the result stored for its name at the end of the run |
| Executor.DispatchedOnce | learning_observer/learning_observer/communication_protocol/executor.py:337-346 | on an acyclic graph each node is dispatched at most once per execution, and only graph nodes are dispatched |
| Executor.ExecuteDag | learning_observer/learning_observer/communication_protocol/executor.py:286-353 | the answer is a dict whose keys are exactly the returned names |
| Executor.ExecuteDagFuel | learning_observer/learning_observer/communication_protocol/executor.py:286-353 | on an acyclic graph the recursion limit plays no part: enough fuel always gives the same answer |
| Executor.ExecuteDagDev | learning_observer/learning_observer/communication_protocol/executor.py:348-350 | in development mode the answer maps each returned name to its node's final stored result |

## Where the code and its documentation differ

The model follows the code. It differs from the docstrings and the protocol's
description in these places:

- **Join without keys.** The `handle_join` docstring promises to zip the two lists
  when no keys are given. The code instead calls `get_nested_dict_value(d, None)`,
  which fails on `None.split` as soon as either list has a record
  (`Handlers.JoinWithoutKeysFails`). The builder's default keys lead to the same
  failure (`Handlers.DispatchJoinDefaults`).
- **Join length.** The output is bounded by the length of `left` only, not by
  `min(len(left), len(right))`. Several left records can share one right record
  (`Handlers.JoinCanOutgrowRight`).
- **`keys` without `value_path`.** `handle_keys` has no default for `value_path`,
  and the `keys` builder does not add one. A `keys` node built without a
  `value_path` keyword therefore fails when dispatched (`Handlers.DispatchKeys`).
- **`map` with a path.** `map_function` looks the function up before anything
  else, so the function must be registered even when a `value_path` makes calling
  it unnecessary.
- **Store failures.** In `select`, a failed store read is not caught per record:
  it aborts the whole query, as does any other exception in `execute_dag`.
- **Name collisions in `flatten`.** Hoisted nodes are written under their dotted
  names without any check that the name is free. A root named `a.b` whose field
  `c` holds a node, and a root `a` whose untagged dict field `b` holds a node in
  field `c`, both hoist to `impl.a.b.c`, and the later write silently replaces
  the earlier one. A root whose own name starts with `impl.` can be overwritten
  the same way. `Flatten.FlattenPlacesFields` therefore assumes dot-free names.
  At the default empty prefix of `flatten_helper`, a node in a field with the
  empty key is stored under the name `""`, and the nodes inside it are then named
  by their bare keys, so they can overwrite a sibling field's node.
- **Cycles.** There is no cycle detection; a cyclic graph ends in the recursion
  limit (`Executor.SelfReferenceExhausts`).

## Left out

- Asynchrony: `await` and the `inspect.iscoroutinefunction` checks are left out.
  Every handler and registered function is a plain function application.
- Registered functions are opaque: each maps its arguments to a value or an
  exception. The same holds for the key-value store, which is a parameter. The
  lazy global `KVS` initialisation is not modelled.
- The run mode and `KeyFields` are parameters, not settings read from the
  process.
- Python values beyond None, integers, strings, lists and dicts are not modelled:
  booleans, floats and sets. Tuples (`args`) are lists.
- Handlers.AssignmentsPointwise: an output name that is hashable but not a string, such
  as a number or None, is a TypeError in the model. Python would use it as a dict
  key, but the model's dicts have string keys only.
- Object identity: the code stores results by reference and rewrites node dicts
  in place (`walk_dict`'s assignments, `del node[dispatch]`). The model copies
  values instead, so it agrees with the code only when no node dict object is
  reachable from two places. Shared node objects are not modelled: with
  `p = call('f')()` and `execution_dag = {'x': p, 'y': p}`, `flatten` stores the
  one object under both names, visiting `x` deletes its `dispatch` field, and
  visiting `y` then finds no `dispatch` and returns the stripped dict instead of
  calling `f`. The model dispatches `y` as a call.
- Json.Repr: only the printable-character table needed for the common cases is
  modelled. ASCII and Latin-1 control characters, separators, format characters,
  private-use code points and noncharacters are escaped as Python does
  (`\xhh`, `\uhhhh`, `\Uhhhhhhhh`), but code points that Unicode leaves
  unassigned, and any other non-printable character outside that table, are
  written as themselves where Python would escape them.
- Flatten.FlattenPlacesFields: only the first level is stated as a whole-graph
  property: the node found directly in a field of a root is at
  `impl.<root>.<field>`. A node nested deeper is stated to be replaced by a
  reference naming its dotted position, but the node stored under that deeper
  name is stated only for one step (`Flatten.FlattenChildKeepsTag`,
  `Flatten.FlattenEntriesPlaces`), not for the whole `flatten` loop.
- Flatten.FlattenEntriesPlaces: at an empty prefix, fields with an empty key are
  excluded, because a node inside such a field can overwrite a sibling's node
  (see "Name collisions in `flatten`" above); `flatten` itself never uses the
  empty prefix.
- Flatten.Endpoint: the endpoint's own shape is assumed: `execution_dag` is a
  dict and `returns` a list of names. A missing `execution_dag` or `returns` key
  (KeyError), an `execution_dag` that is not a dict (AttributeError), and a
  `returns` that is some other iterable, such as a string whose characters would
  each be visited, are not modelled.
- Handlers.HandleSelect: its own contract gives the length only. What each record
  holds is stated by Handlers.HandleSelectElementwise and
  Handlers.SelectRecordFields.
- Executor.Visit: fuel counts nested visits only. Python's limit counts every
  frame, including nested `walk_dict` calls, so the depth at which Python gives
  up is not modelled.
- Cyclic graphs: the guarantees about visits (state, dependency order, at most
  one dispatch, fuel independence) are stated for acyclic graphs. For a cycle,
  only the self-referencing node is proved to reach the recursion limit. When
  Python re-enters a node on a cycle it re-walks the half-rewritten dict; the
  model does not follow that.
- The `keyfields` dict built at the start of `handle_keys` is never used, so it
  is not modelled.
- `FUNCTIONS`, `query_function`, `add_queries_to_module`, `create_function`
  (deep copy plus binding), `dummy_roster` and the `__main__` demo are glue code
  and are left out.
- No theorem relates flattening followed by execution to a direct evaluation of
  the nested tree.
- Exception messages are informative only; what the model tracks is the
  exception class.
