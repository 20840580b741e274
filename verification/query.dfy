/** The expression builders of the communication protocol (query.py).

    A query node is a plain dict whose `dispatch` field names one of seven node
    kinds; every other field is an argument of that kind.  The builders are pure
    constructors of such dicts. */
module Query {
  import opened Errors
  import opened Json

  /** The reserved field that marks a dict as a query node. */
  const DispatchField: string := "dispatch"

  /** `dispatch_modes`, in declaration order. */
  const DispatchModes: seq<string> := ["parameter", "variable", "call", "select", "join", "map", "keys"]

  // `DISPATCH_MODES.<NAME>`
  const PARAMETER: string := "parameter"
  const VARIABLE: string := "variable"
  const CALL: string := "call"
  const SELECT: string := "select"
  const JOIN: string := "join"
  const MAP: string := "map"
  const KEYS: string := "keys"

  function UpperChar(c: char): char
  {
    if 'a' <= c <= 'z' then (c as int - 32) as char else c
  }

  function LowerChar(c: char): char
  {
    if 'A' <= c <= 'Z' then (c as int + 32) as char else c
  }

  /** `s.upper()` on ASCII letters. */
  function Upper(s: string): (r: string)
    ensures |r| == |s|
  {
    seq(|s|, i requires 0 <= i < |s| => UpperChar(s[i]))
  }

  /** `s.lower()` on ASCII letters. */
  function Lower(s: string): (r: string)
    ensures |r| == |s|
  {
    seq(|s|, i requires 0 <= i < |s| => LowerChar(s[i]))
  }

  /** The attributes of class `DISPATCH_MODES` that `setattr(DISPATCH_MODES, d.upper(), d)`
      creates for each mode `d`, in order. */
  function ModeAttributes(modes: seq<string>): seq<Entry>
  {
    seq(|modes|, i requires 0 <= i < |modes| => Entry(Upper(modes[i]), Str(modes[i])))
  }

  /** `DISPATCH_MODES.<name>`, if the attribute exists. */
  function DispatchMode(name: string): Option<Value>
  {
    Lookup(ModeAttributes(DispatchModes), name)
  }

  /** The seven tags are pairwise distinct. */
  lemma DispatchTagsDistinct()
    ensures forall i, j :: 0 <= i < j < |DispatchModes| ==> DispatchModes[i] != DispatchModes[j]
  {
  }

  /** Every tag is the lower-cased name of its `DISPATCH_MODES` attribute. */
  lemma DispatchModeNamesLowerCase()
    ensures forall i :: 0 <= i < |DispatchModes| ==> Lower(Upper(DispatchModes[i])) == DispatchModes[i]
  {
    forall i | 0 <= i < |DispatchModes| ensures Lower(Upper(DispatchModes[i])) == DispatchModes[i] {
      var d := DispatchModes[i];
      assert forall j :: 0 <= j < |d| ==> 'a' <= d[j] <= 'z';
      assert forall j :: 0 <= j < |d| ==> LowerChar(UpperChar(d[j])) == d[j];
    }
  }

  /** The attribute table that the `setattr` loop builds: one attribute per tag, named
      by the upper-cased tag, in declaration order. */
  lemma ModeAttributesTable()
    ensures ModeAttributes(DispatchModes)
         == [Entry("PARAMETER", Str("parameter")), Entry("VARIABLE", Str("variable")),
             Entry("CALL", Str("call")), Entry("SELECT", Str("select")), Entry("JOIN", Str("join")),
             Entry("MAP", Str("map")), Entry("KEYS", Str("keys"))]
  {
    assert Upper("parameter") == "PARAMETER";
    assert Upper("variable") == "VARIABLE";
    assert Upper("call") == "CALL";
    assert Upper("select") == "SELECT";
    assert Upper("join") == "JOIN";
    assert Upper("map") == "MAP";
    assert Upper("keys") == "KEYS";
  }

  /** Each `DISPATCH_MODES.<NAME>` constant holds its tag. */
  lemma DispatchModeConstants()
    ensures DispatchMode("PARAMETER") == Some(Str(PARAMETER)) && DispatchMode("VARIABLE") == Some(Str(VARIABLE))
    ensures DispatchMode("CALL") == Some(Str(CALL)) && DispatchMode("SELECT") == Some(Str(SELECT))
    ensures DispatchMode("JOIN") == Some(Str(JOIN)) && DispatchMode("MAP") == Some(Str(MAP))
    ensures DispatchMode("KEYS") == Some(Str(KEYS))
  {
    ModeAttributesTable();
    var a := ModeAttributes(DispatchModes);
    assert UniqueKeys(a);
    LookupUnique(a, 0);
    LookupUnique(a, 1);
    LookupUnique(a, 2);
    LookupUnique(a, 3);
    LookupUnique(a, 4);
    LookupUnique(a, 5);
    LookupUnique(a, 6);
  }

  // ---------------------------------------------------------------------
  // Reading a node back: what the flattener and the executor look at.

  /** `isinstance(v, dict) and dispatch in v`. */
  predicate IsNode(v: Value)
  {
    v.Obj? && DispatchField in KeySet(v.entries)
  }

  /** `v[dispatch]` of a node. */
  function TagOf(v: Value): Value
    requires IsNode(v)
  {
    Lookup(v.entries, DispatchField).value
  }

  /** A reference node: `dispatch` is `"variable"`. */
  predicate IsVariable(v: Value)
  {
    IsNode(v) && TagOf(v) == Str(VARIABLE)
  }

  /** The dict `v` has exactly the listed fields, each holding the listed value. */
  predicate HasFields(v: Value, fields: seq<Entry>)
  {
    && v.Obj?
    && UniqueKeys(v.entries)
    && KeySet(v.entries) == KeySet(fields)
    && forall i :: 0 <= i < |fields| ==> Lookup(v.entries, fields[i].key) == Some(fields[i].val)
  }

  /** A dict literal with distinct keys has exactly its own fields; one whose first
      field is `dispatch` is a node with that tag. */
  lemma LiteralFields(es: seq<Entry>)
    requires UniqueKeys(es)
    ensures HasFields(Obj(es), es)
    ensures |es| > 0 && es[0].key == DispatchField ==> IsNode(Obj(es)) && TagOf(Obj(es)) == es[0].val
  {
    forall i | 0 <= i < |es| ensures Lookup(es, es[i].key) == Some(es[i].val) {
      LookupUnique(es, i);
    }
    if |es| > 0 {
      assert es[0].key in KeySet(es);
    }
  }

  // ---------------------------------------------------------------------
  // Builders.

  /** `parameter(parameter_name)`. */
  function Parameter(parameterName: Value): (r: Value)
    ensures IsNode(r) && TagOf(r) == Str(PARAMETER)
    ensures HasFields(r, [Entry(DispatchField, Str(PARAMETER)), Entry("parameter_name", parameterName)])
  {
    var es := [Entry(DispatchField, Str(PARAMETER)), Entry("parameter_name", parameterName)];
    LiteralFields(es);
    Obj(es)
  }

  /** `variable(variable_name)`. */
  function Variable(variableName: Value): (r: Value)
    ensures IsVariable(r)
    ensures HasFields(r, [Entry(DispatchField, Str(VARIABLE)), Entry("variable_name", variableName)])
  {
    var es := [Entry(DispatchField, Str(VARIABLE)), Entry("variable_name", variableName)];
    LiteralFields(es);
    Obj(es)
  }

  /** The callable returned by `call(function_name)`; `loName` is both the name the
      closure captured and its `__lo_name__` attribute. */
  datatype Caller = Caller(loName: Value)

  /** `call(function_name)`. */
  function Call(functionName: Value): (c: Caller)
    ensures c.loName == functionName
  {
    Caller(functionName)
  }

  /** `caller(*args, **kwargs)`: the positional arguments are kept as a tuple. */
  function Invoke(c: Caller, args: seq<Value>, kwargs: seq<Entry>): (r: Value)
    ensures IsNode(r) && TagOf(r) == Str(CALL)
    ensures HasFields(r, [Entry(DispatchField, Str(CALL)), Entry("function_name", c.loName),
                          Entry("args", Arr(args)), Entry("kwargs", Obj(kwargs))])
  {
    var es := [Entry(DispatchField, Str(CALL)), Entry("function_name", c.loName),
         Entry("args", Arr(args)), Entry("kwargs", Obj(kwargs))];
    LiteralFields(es);
    Obj(es)
  }

  /** `select(keys, fields=None)`. */
  function Select(keys: Value, fields: Value := Null): (r: Value)
    ensures IsNode(r) && TagOf(r) == Str(SELECT)
    ensures HasFields(r, [Entry(DispatchField, Str(SELECT)), Entry("keys", keys), Entry("fields", fields)])
  {
    var es := [Entry(DispatchField, Str(SELECT)), Entry("keys", keys), Entry("fields", fields)];
    LiteralFields(es);
    Obj(es)
  }

  /** `join(LEFT, RIGHT, LEFT_ON=None, RIGHT_ON=None)`. */
  function Join(left: Value, right: Value, leftOn: Value := Null, rightOn: Value := Null): (r: Value)
    ensures IsNode(r) && TagOf(r) == Str(JOIN)
    ensures HasFields(r, [Entry(DispatchField, Str(JOIN)), Entry("left", left), Entry("right", right),
                          Entry("left_on", leftOn), Entry("right_on", rightOn)])
  {
    var es := [Entry(DispatchField, Str(JOIN)), Entry("left", left), Entry("right", right),
         Entry("left_on", leftOn), Entry("right_on", rightOn)];
    LiteralFields(es);
    Obj(es)
  }

  /** `map(function, values, value_path=None)`: only the function's `__lo_name__` is kept.
      `fn` is `Some` caller for an object carrying that attribute, such as one made by
      `call`, and `None` for any other object, on which reading it fails. */
  function Map(fn: Option<Caller>, values: Value, valuePath: Value := Null): (r: Result<Value>)
    ensures r.Ok? <==> fn.Some?
    ensures fn.None? ==> r == Err(AttributeError("__lo_name__"))
    ensures r.Ok? ==> IsNode(r.value) && TagOf(r.value) == Str(MAP)
    ensures r.Ok? ==> HasFields(r.value, [Entry(DispatchField, Str(MAP)), Entry("function", fn.value.loName),
                                          Entry("values", values), Entry("value_path", valuePath)])
  {
    if fn.None? then Err(AttributeError("__lo_name__"))
    else
      var es := [Entry(DispatchField, Str(MAP)), Entry("function", fn.value.loName),
           Entry("values", values), Entry("value_path", valuePath)];
      LiteralFields(es);
      Ok(Obj(es))
  }

  /** `keys(func, **kwargs)`: the keyword arguments are spread after `dispatch` and
      `function`, so a keyword with either name overrides it.  A keyword named `func`
      is a second value for the positional parameter, which Python rejects. */
  function Keys(func: Value, kwargs: seq<Entry>): (r: Result<Value>)
    requires UniqueKeys(kwargs)
    ensures r.Err? <==> "func" in KeySet(kwargs)
    ensures r.Ok? ==> r.value.Obj? && UniqueKeys(r.value.entries)
    ensures r.Ok? ==> KeySet(r.value.entries) == {DispatchField, "function"} + KeySet(kwargs)
    ensures r.Ok? ==> forall k :: k in KeySet(kwargs) ==> Lookup(r.value.entries, k) == Lookup(kwargs, k)
    ensures r.Ok? && DispatchField !in KeySet(kwargs) ==> IsNode(r.value) && TagOf(r.value) == Str(KEYS)
    ensures r.Ok? && "function" !in KeySet(kwargs) ==> Lookup(r.value.entries, "function") == Some(func)
  {
    if "func" in KeySet(kwargs) then Err(TypeError("keys() got multiple values for argument 'func'"))
    else
      var base := [Entry(DispatchField, Str(KEYS)), Entry("function", func)];
      assert UniqueKeys(base);
      assert base[0].key in KeySet(base) && base[1].key in KeySet(base);
      assert KeySet(base) == {DispatchField, "function"};
      var r := Merge(base, kwargs);
      MergeUnique(base, kwargs);
      assert forall k :: k in KeySet(kwargs) ==> Lookup(r, k) == Lookup(kwargs, k) by {
        forall k | k in KeySet(kwargs) {
          MergeRightWins(base, kwargs, k);
        }
      }
      Ok(Obj(r))
  }

  /** `map(call(f), vs, p)` stores exactly `f` under `function`: the name survives the
      round trip through the caller's `__lo_name__`, and a call through the same caller
      names the same function. */
  lemma MapOfCallKeepsName(f: Value, values: Value, valuePath: Value, args: seq<Value>, kwargs: seq<Entry>)
    ensures Lookup(Map(Some(Call(f)), values, valuePath).value.entries, "function") == Some(f)
    ensures Lookup(Map(Some(Call(f)), values, valuePath).value.entries, "values") == Some(values)
    ensures Lookup(Map(Some(Call(f)), values, valuePath).value.entries, "value_path") == Some(valuePath)
    ensures Lookup(Invoke(Call(f), args, kwargs).entries, "function_name") == Some(f)
  {
    var m := Map(Some(Call(f)), values, valuePath).value;
    assert Lookup(m.entries, "function") == Some(f) && Lookup(m.entries, "values") == Some(values)
        && Lookup(m.entries, "value_path") == Some(valuePath) by {
      var fs := [Entry(DispatchField, Str(MAP)), Entry("function", f),
                 Entry("values", values), Entry("value_path", valuePath)];
      assert HasFields(m, fs);
      assert fs[1] == Entry("function", f) && fs[2] == Entry("values", values) && fs[3] == Entry("value_path", valuePath);
    }
    var c := Invoke(Call(f), args, kwargs);
    assert Lookup(c.entries, "function_name") == Some(f) by {
      var fs := [Entry(DispatchField, Str(CALL)), Entry("function_name", f),
                 Entry("args", Arr(args)), Entry("kwargs", Obj(kwargs))];
      assert HasFields(c, fs);
      assert fs[1] == Entry("function_name", f);
    }
  }
}
