/** The flattener: `flatten_helper` and `flatten` (executor.py).

    Flattening rewrites each root of an endpoint's `execution_dag` so that no
    computing node stays nested: every nested node whose tag is not `variable`
    is moved to the top level under the dotted name of the position it came
    from, `impl.<root>.<field>...`, and that position now holds a `variable`
    node naming it.  Untagged dicts are walked in place; lists are not walked. */
module Flatten {
  import opened Errors
  import opened Json
  import opened Query
  import Paths

  /** An endpoint: the graph of named nodes (`execution_dag`) and the names whose
      values are returned (`returns`). */
  datatype Endpoint = Endpoint(dag: seq<Entry>, outputs: seq<Value>)

  /** A child that `flatten_helper` hoists: a node whose tag is not `variable`. */
  predicate Hoistable(v: Value)
  {
    IsNode(v) && TagOf(v) != Str(VARIABLE)
  }

  /** A child that is walked in place: a dict with no tag. */
  predicate Plain(v: Value)
  {
    v.Obj? && !IsNode(v)
  }

  // ---------------------------------------------------------------------
  // Variable references, and flatness.

  /** The `variable_name`s that `walk_dict` would resolve at or below child `c`:
      a variable node is a reference, any other dict is descended into, and
      lists and scalars are not looked at. */
  function ChildRefs(c: Value): set<Value>
    decreases c
  {
    if IsVariable(c) then
      (if "variable_name" in KeySet(c.entries) then {Lookup(c.entries, "variable_name").value} else {})
    else if c.Obj? then EntriesRefs(c.entries)
    else {}
  }

  function EntriesRefs(es: seq<Entry>): set<Value>
    decreases es
  {
    if |es| == 0 then {} else ChildRefs(es[0].val) + EntriesRefs(es[1..])
  }

  /** The references of a graph node: those among its fields. */
  function ValueRefs(v: Value): set<Value>
  {
    if v.Obj? then EntriesRefs(v.entries) else {}
  }

  /** The references of every node of a graph. */
  function GraphRefs(dag: seq<Entry>): set<Value>
    decreases |dag|
  {
    if |dag| == 0 then {} else ValueRefs(dag[0].val) + GraphRefs(dag[1..])
  }

  /** The node names of a graph, as the values a `variable_name` holds. */
  function Names(dag: seq<Entry>): set<Value>
  {
    set k | k in KeySet(dag) :: Str(k)
  }

  /** A child left in place by flattening: no nested computing node remains. */
  predicate FlatChild(c: Value)
    decreases c, 1
  {
    !Hoistable(c) && (Plain(c) ==> FlatEntries(c.entries))
  }

  predicate FlatEntries(es: seq<Entry>)
    decreases es
  {
    forall i :: 0 <= i < |es| ==> FlatChild(es[i].val)
  }

  /** A graph node after flattening: a dict whose fields hold no nested computing node. */
  predicate FlatNode(v: Value)
  {
    v.Obj? && FlatEntries(v.entries)
  }

  lemma NamesMono(a: seq<Entry>, b: seq<Entry>)
    requires KeySet(a) <= KeySet(b)
    ensures Names(a) <= Names(b)
  {
  }

  lemma EntriesRefsCons(e: Entry, es: seq<Entry>)
    ensures EntriesRefs([e] + es) == ChildRefs(e.val) + EntriesRefs(es)
  {
    assert ([e] + es)[1..] == es;
  }

  lemma {:induction false} GraphRefsUpdate(d: seq<Entry>, k: string, v: Value)
    ensures GraphRefs(Update(d, k, v)) <= GraphRefs(d) + ValueRefs(v)
    decreases |d|
  {
    if |d| > 0 && d[0].key != k {
      GraphRefsUpdate(d[1..], k, v);
      assert Update(d, k, v)[1..] == Update(d[1..], k, v);
    } else if |d| > 0 {
      assert Update(d, k, v)[1..] == d[1..];
    }
  }

  /** Two dicts with the same keys in the same positions that agree on the entries
      under `k` agree on `k`. */
  lemma {:induction false} LookupPointwise(a: seq<Entry>, b: seq<Entry>, k: string)
    requires |a| == |b|
    requires forall i :: 0 <= i < |a| ==> a[i].key == b[i].key
    requires forall i :: 0 <= i < |a| && a[i].key == k ==> a[i].val == b[i].val
    ensures Lookup(a, k) == Lookup(b, k)
    decreases |a|
  {
    if |a| > 0 && a[0].key != k {
      LookupPointwise(a[1..], b[1..], k);
    }
  }

  lemma SameKeys(a: seq<Entry>, b: seq<Entry>)
    requires |a| == |b|
    requires forall i :: 0 <= i < |a| ==> a[i].key == b[i].key
    ensures KeySet(a) == KeySet(b)
    ensures UniqueKeys(a) ==> UniqueKeys(b)
  {
  }

  // ---------------------------------------------------------------------
  // flatten_helper.

  /** The top level so far and the rewritten fields of the current level. */
  datatype Level = Level(dag: seq<Entry>, entries: seq<Entry>)

  /** The top level so far and the rewritten child. */
  datatype Step = Step(dag: seq<Entry>, val: Value)

  /** The name `flatten_helper` gives the field `key` of the level at `prefix`: the
      dotted `<prefix>.<key>`, or the bare key when the prefix is empty, as it is by
      default. */
  function FieldName(prefix: string, key: string): string
  {
    if prefix == "" then key else prefix + "." + key
  }

  /** One child `value` of the loop of `flatten_helper`, found at the dotted `name`:
      a computing node is flattened, stored at `name` and replaced by a reference to
      it; a plain dict is flattened in place; anything else is left as it is. */
  function FlattenChild(dag: seq<Entry>, v: Value, name: string): (s: Step)
    ensures Hoistable(v) ==> s.val == Variable(Str(name))
    ensures !Hoistable(v) && !Plain(v) ==> s == Step(dag, v)
    decreases v, 1
  {
    if Hoistable(v) then
      var inner := FlattenEntries(dag, v.entries, name);
      Step(Update(inner.dag, name, Obj(inner.entries)), Variable(Str(name)))
    else if Plain(v) then
      var inner := FlattenEntries(dag, v.entries, name);
      Step(inner.dag, Obj(inner.entries))
    else
      Step(dag, v)
  }

  /** The loop of `flatten_helper(top_level, current_level, prefix)` over the fields `es`
      of the current level: each field keeps its key and its position. */
  function FlattenEntries(dag: seq<Entry>, es: seq<Entry>, prefix: string): (r: Level)
    ensures |r.entries| == |es|
    ensures forall i :: 0 <= i < |es| ==> r.entries[i].key == es[i].key
    decreases es
  {
    if |es| == 0 then Level(dag, [])
    else
      var first := FlattenChild(dag, es[0].val, FieldName(prefix, es[0].key));
      var rest := FlattenEntries(first.dag, es[1..], prefix);
      Level(rest.dag, [Entry(es[0].key, first.val)] + rest.entries)
  }

  lemma FlattenEntriesUnfold(dag: seq<Entry>, es: seq<Entry>, prefix: string)
    requires |es| > 0
    ensures var first := FlattenChild(dag, es[0].val, FieldName(prefix, es[0].key));
            var rest := FlattenEntries(first.dag, es[1..], prefix);
            var r := FlattenEntries(dag, es, prefix);
            && r.dag == rest.dag
            && r.entries[0] == Entry(es[0].key, first.val)
            && r.entries[1..] == rest.entries
  {
  }

  /** The field `e` of the current level became `o`: a computing node becomes a reference
      to its field name (`<prefix>.<key>`, or the bare key at an empty prefix), a variable, list or scalar is kept, and a plain dict stays a
      plain dict whose own fields are rewritten in turn, one level further down. */
  predicate Rewritten(e: Entry, o: Entry, prefix: string)
    decreases e.val, 1
  {
    && (Hoistable(e.val) ==> o.val == Variable(Str(FieldName(prefix, e.key))))
    && (!Hoistable(e.val) && !Plain(e.val) ==> o == e)
    && (Plain(e.val) ==> Plain(o.val) && RewrittenFields(e.val.entries, o.val.entries, FieldName(prefix, e.key)))
  }

  /** The fields `os` are the fields `es` of the level at `prefix`, each rewritten in its
      own position. */
  predicate RewrittenFields(es: seq<Entry>, os: seq<Entry>, prefix: string)
    decreases es
  {
    && |os| == |es|
    && forall i :: 0 <= i < |es| ==> os[i].key == es[i].key && Rewritten(es[i], os[i], prefix)
  }

  lemma {:induction false} FlattenChildRewritten(dag: seq<Entry>, e: Entry, prefix: string)
    ensures Rewritten(e, Entry(e.key, FlattenChild(dag, e.val, FieldName(prefix, e.key)).val), prefix)
    decreases e.val, 1
  {
    if Plain(e.val) {
      FlattenEntriesPositions(dag, e.val.entries, FieldName(prefix, e.key));
    }
  }

  /** Each field of the current level is rewritten in its own position, all the way
      down through the plain dicts it holds. */
  lemma {:induction false} FlattenEntriesPositions(dag: seq<Entry>, es: seq<Entry>, prefix: string)
    ensures RewrittenFields(es, FlattenEntries(dag, es, prefix).entries, prefix)
    decreases es
  {
    if |es| > 0 {
      var first := FlattenChild(dag, es[0].val, FieldName(prefix, es[0].key));
      var r := FlattenEntries(dag, es, prefix);
      FlattenEntriesUnfold(dag, es, prefix);
      FlattenEntriesPositions(first.dag, es[1..], prefix);
      FlattenChildRewritten(dag, es[0], prefix);
      forall i | 0 < i < |es| ensures Rewritten(es[i], r.entries[i], prefix) {
        assert r.entries[i] == r.entries[1..][i - 1] && es[i] == es[1..][i - 1];
      }
    }
  }

  /** At the default empty prefix a hoisted field is named by its bare key: a parameter
      node in field `x` is stored at `x` and replaced by a reference to `x`. */
  lemma FlattenTopLevelExample()
    ensures var p := Parameter(Str("p"));
            var r := FlattenEntries([], [Entry("x", p)], "");
            && r.entries == [Entry("x", Variable(Str("x")))]
            && Lookup(r.dag, "x") == Some(p)
  {
    var p := Parameter(Str("p"));
    assert FlattenEntries([], p.entries, "x") == Level([], p.entries);
  }

  /** Flattening only adds nodes to the top level and keeps its keys distinct. */
  lemma {:induction false} FlattenChildKeys(dag: seq<Entry>, v: Value, name: string)
    ensures var s := FlattenChild(dag, v, name);
            && KeySet(dag) <= KeySet(s.dag)
            && (UniqueKeys(dag) ==> UniqueKeys(s.dag))
            && (Hoistable(v) ==> name in KeySet(s.dag))
    decreases v, 1
  {
    if Hoistable(v) || Plain(v) {
      FlattenEntriesKeys(dag, v.entries, name);
      if Hoistable(v) && UniqueKeys(dag) {
        var inner := FlattenEntries(dag, v.entries, name);
        UpdateUnique(inner.dag, name, Obj(inner.entries));
      }
    }
  }

  lemma {:induction false} FlattenEntriesKeys(dag: seq<Entry>, es: seq<Entry>, prefix: string)
    ensures var r := FlattenEntries(dag, es, prefix);
            && KeySet(dag) <= KeySet(r.dag)
            && (UniqueKeys(dag) ==> UniqueKeys(r.dag))
    decreases es
  {
    if |es| > 0 {
      var first := FlattenChild(dag, es[0].val, FieldName(prefix, es[0].key));
      FlattenChildKeys(dag, es[0].val, FieldName(prefix, es[0].key));
      FlattenEntriesKeys(first.dag, es[1..], prefix);
    }
  }

  /** What flattening leaves in place holds no nested computing node. */
  lemma {:induction false} FlattenChildFlat(dag: seq<Entry>, v: Value, name: string)
    ensures FlatChild(FlattenChild(dag, v, name).val)
    decreases v, 1
  {
    if Plain(v) {
      FlattenEntriesFlat(dag, v.entries, name);
    }
  }

  lemma {:induction false} FlattenEntriesFlat(dag: seq<Entry>, es: seq<Entry>, prefix: string)
    ensures FlatEntries(FlattenEntries(dag, es, prefix).entries)
    decreases es
  {
    if |es| > 0 {
      var first := FlattenChild(dag, es[0].val, FieldName(prefix, es[0].key));
      var r := FlattenEntries(dag, es, prefix);
      FlattenEntriesUnfold(dag, es, prefix);
      FlattenChildFlat(dag, es[0].val, FieldName(prefix, es[0].key));
      FlattenEntriesFlat(first.dag, es[1..], prefix);
      assert forall i :: 0 < i < |es| ==> r.entries[i] == r.entries[1..][i - 1];
    }
  }

  /** Every top-level node either is untouched or is flat. */
  lemma {:induction false} FlattenChildDagFlat(dag: seq<Entry>, v: Value, name: string)
    ensures var s := FlattenChild(dag, v, name);
            forall k :: k in KeySet(s.dag) ==> Lookup(s.dag, k) == Lookup(dag, k) || FlatNode(Lookup(s.dag, k).value)
    decreases v, 1
  {
    if Hoistable(v) || Plain(v) {
      FlattenEntriesDagFlat(dag, v.entries, name);
      FlattenEntriesFlat(dag, v.entries, name);
    }
  }

  lemma {:induction false} FlattenEntriesDagFlat(dag: seq<Entry>, es: seq<Entry>, prefix: string)
    ensures var r := FlattenEntries(dag, es, prefix);
            forall k :: k in KeySet(r.dag) ==> Lookup(r.dag, k) == Lookup(dag, k) || FlatNode(Lookup(r.dag, k).value)
    decreases es
  {
    if |es| > 0 {
      var first := FlattenChild(dag, es[0].val, FieldName(prefix, es[0].key));
      FlattenChildDagFlat(dag, es[0].val, FieldName(prefix, es[0].key));
      FlattenEntriesDagFlat(first.dag, es[1..], prefix);
      FlattenChildKeys(dag, es[0].val, FieldName(prefix, es[0].key));
    }
  }

  /** Every reference flattening introduces names a node of the top level. */
  lemma {:induction false} FlattenChildRefs(dag: seq<Entry>, v: Value, name: string)
    ensures var s := FlattenChild(dag, v, name);
            && ChildRefs(s.val) <= Names(s.dag) + ChildRefs(v)
            && GraphRefs(s.dag) <= GraphRefs(dag) + Names(s.dag) + ChildRefs(v)
    decreases v, 1
  {
    var s := FlattenChild(dag, v, name);
    if Hoistable(v) || Plain(v) {
      var inner := FlattenEntries(dag, v.entries, name);
      FlattenEntriesRefs(dag, v.entries, name);
      FlattenChildKeys(dag, v, name);
      if Hoistable(v) {
        GraphRefsUpdate(inner.dag, name, Obj(inner.entries));
        FlattenEntriesKeys(dag, v.entries, name);
        NamesMono(inner.dag, s.dag);
        assert Str(name) in Names(s.dag);
        VariableRefs(Str(name));
      } else {
        SameKeys(v.entries, inner.entries);
        assert !IsNode(Obj(inner.entries));
      }
    }
  }

  /** A reference refers to exactly the name it holds. */
  lemma VariableRefs(n: Value)
    ensures ChildRefs(Variable(n)) == {n}
  {
    var es := Variable(n).entries;
    assert es[1].key in KeySet(es);
  }

  lemma {:induction false} FlattenEntriesRefs(dag: seq<Entry>, es: seq<Entry>, prefix: string)
    ensures var r := FlattenEntries(dag, es, prefix);
            && EntriesRefs(r.entries) <= Names(r.dag) + EntriesRefs(es)
            && GraphRefs(r.dag) <= GraphRefs(dag) + Names(r.dag) + EntriesRefs(es)
    decreases es
  {
    if |es| > 0 {
      var name := FieldName(prefix, es[0].key);
      var first := FlattenChild(dag, es[0].val, name);
      var rest := FlattenEntries(first.dag, es[1..], prefix);
      FlattenEntriesUnfold(dag, es, prefix);
      FlattenChildRefs(dag, es[0].val, name);
      FlattenEntriesRefs(first.dag, es[1..], prefix);
      FlattenEntriesKeys(first.dag, es[1..], prefix);
      NamesMono(first.dag, rest.dag);
      var r := FlattenEntries(dag, es, prefix);
      assert r.entries == [r.entries[0]] + r.entries[1..];
      EntriesRefsCons(r.entries[0], r.entries[1..]);
    }
  }

  /** `h`, stored at `name`, is the hoisted form of the node `v`: a dict holding `v`'s
      fields in their order, each rewritten as the fields of the level `name` are. */
  predicate HoistedAs(v: Value, h: Value, name: string)
  {
    v.Obj? && h.Obj? && RewrittenFields(v.entries, h.entries, name)
  }

  /** A field found by key is rewritten like the field in its position: the first
      occurrence of a key sits at the same position on both sides. */
  lemma {:induction false} LookupRewritten(es: seq<Entry>, os: seq<Entry>, prefix: string, k: string)
    requires RewrittenFields(es, os, prefix) && k in KeySet(es)
    ensures k in KeySet(os)
    ensures Rewritten(Entry(k, Lookup(es, k).value), Entry(k, Lookup(os, k).value), prefix)
    decreases |es|
  {
    KeySetTail(es);
    KeySetTail(os);
    if es[0].key != k {
      assert RewrittenFields(es[1..], os[1..], prefix) by {
        forall i | 0 <= i < |es| - 1 ensures os[1..][i].key == es[1..][i].key && Rewritten(es[1..][i], os[1..][i], prefix) {
          assert es[1..][i] == es[i + 1] && os[1..][i] == os[i + 1];
        }
      }
      LookupRewritten(es[1..], os[1..], prefix, k);
    }
  }

  /** The hoisted form of a node is a node with the same fields, its tag rewritten as
      any field is: a scalar or list tag is kept, and a tag that is itself a node
      becomes a reference to `<name>.<DispatchField>`. */
  lemma HoistedTag(v: Value, h: Value, name: string)
    requires IsNode(v) && HoistedAs(v, h, name)
    ensures IsNode(h) && KeySet(h.entries) == KeySet(v.entries)
    ensures Rewritten(Entry(DispatchField, TagOf(v)), Entry(DispatchField, TagOf(h)), name)
  {
    SameKeys(v.entries, h.entries);
    LookupRewritten(v.entries, h.entries, name, DispatchField);
  }

  /** A field of a hoisted node holding a scalar, a list or a reference is stored
      unchanged: `function_name`, `args` and the like survive the move. */
  lemma HoistedKeepsData(v: Value, h: Value, name: string, k: string)
    requires HoistedAs(v, h, name) && k in KeySet(v.entries)
    requires !Hoistable(Lookup(v.entries, k).value) && !Plain(Lookup(v.entries, k).value)
    ensures Lookup(h.entries, k) == Lookup(v.entries, k)
  {
    LookupRewritten(v.entries, h.entries, name, k);
  }

  /** A hoisted call that names another function is not the hoisted form of the call. */
  lemma HoistedRenamedCallExample()
    ensures var f := Obj([Entry(DispatchField, Str(CALL)), Entry("function_name", Str("f"))]);
            var g := Obj([Entry(DispatchField, Str(CALL)), Entry("function_name", Str("g"))]);
            HoistedAs(f, f, "x") && !HoistedAs(f, g, "x")
  {
    var f := Obj([Entry(DispatchField, Str(CALL)), Entry("function_name", Str("f"))]);
    var g := Obj([Entry(DispatchField, Str(CALL)), Entry("function_name", Str("g"))]);
    assert !Rewritten(f.entries[1], g.entries[1], "x");
  }

  /** A hoisted node is stored at its dotted name with its fields flattened in place. */
  lemma FlattenChildKeepsTag(dag: seq<Entry>, v: Value, name: string)
    requires Hoistable(v)
    ensures var s := FlattenChild(dag, v, name);
            && name in KeySet(s.dag)
            && HoistedAs(v, Lookup(s.dag, name).value, name)
  {
    var inner := FlattenEntries(dag, v.entries, name);
    var s := FlattenChild(dag, v, name);
    assert Lookup(s.dag, name) == Some(Obj(inner.entries));
    FlattenEntriesPositions(dag, v.entries, name);
  }

  // ---------------------------------------------------------------------
  // Where flattening writes.

  /** `k` is the position `name` or a position below it.  Every position is below the
      empty name, since the fields of a level at an empty prefix get their bare keys. */
  predicate Under(k: string, name: string)
  {
    name == "" || k == name || name + "." <= k
  }

  /** Everything below the field `key` of `prefix` is below `prefix`, and strictly
      below it when the prefix is not empty. */
  lemma UnderField(k: string, prefix: string, key: string)
    requires Under(k, FieldName(prefix, key))
    ensures Under(k, prefix)
    ensures prefix != "" ==> prefix + "." <= k
  {
    if prefix != "" {
      assert prefix + "." <= prefix + "." + key;
    }
  }

  /** Two sibling fields, the first with a dot-free key, name disjoint positions,
      unless the prefix is empty and the second key is empty too: that field is named
      `""`, and the fields below it get bare names again. */
  lemma SiblingsApart(prefix: string, a: string, b: string)
    requires Paths.DotFree(a) && a != b
    requires prefix == "" ==> b != ""
    ensures !Under(FieldName(prefix, a), FieldName(prefix, b))
  {
    var x, y := FieldName(prefix, a), FieldName(prefix, b);
    var p := if prefix == "" then 0 else |prefix| + 1;
    assert x[p..] == a && y[p..] == b;
    if |b| < |a| {
      assert x[p + |b|] == a[|b|] != '.';
      assert (y + ".")[p + |b|] == '.';
    }
  }

  /** Nothing outside the position `name` changes when the child found there is
      flattened. */
  lemma {:induction false} FlattenChildKeeps(dag: seq<Entry>, v: Value, name: string, k: string)
    requires !Under(k, name)
    ensures Lookup(FlattenChild(dag, v, name).dag, k) == Lookup(dag, k)
    decreases v, 1
  {
    if Hoistable(v) || Plain(v) {
      forall i | 0 <= i < |v.entries| ensures !Under(k, FieldName(name, v.entries[i].key)) {
        if Under(k, FieldName(name, v.entries[i].key)) {
          UnderField(k, name, v.entries[i].key);
        }
      }
      FlattenEntriesKeeps(dag, v.entries, name, k);
    }
  }

  /** Nothing outside the positions of the fields `es` changes when they are
      flattened. */
  lemma {:induction false} FlattenEntriesKeeps(dag: seq<Entry>, es: seq<Entry>, prefix: string, k: string)
    requires forall i :: 0 <= i < |es| ==> !Under(k, FieldName(prefix, es[i].key))
    ensures Lookup(FlattenEntries(dag, es, prefix).dag, k) == Lookup(dag, k)
    decreases es
  {
    if |es| > 0 {
      var first := FlattenChild(dag, es[0].val, FieldName(prefix, es[0].key));
      FlattenEntriesUnfold(dag, es, prefix);
      FlattenChildKeeps(dag, es[0].val, FieldName(prefix, es[0].key), k);
      assert forall i :: 0 <= i < |es[1..]| ==> es[1..][i] == es[i + 1];
      FlattenEntriesKeeps(first.dag, es[1..], prefix, k);
    }
  }

  /** The field `e` of the level at `prefix`, if it is a computing node, is stored in
      `d` under its field name in its hoisted form. */
  predicate PlacedField(d: seq<Entry>, e: Entry, prefix: string)
  {
    Hoistable(e.val) ==>
      var name := FieldName(prefix, e.key);
      name in KeySet(d) && HoistedAs(e.val, Lookup(d, name).value, name)
  }

  /** Fields that `flatten_helper` can place without a clash: distinct, dot-free keys. */
  predicate WellNamedFields(es: seq<Entry>)
  {
    && UniqueKeys(es)
    && forall i :: 0 <= i < |es| ==> Paths.DotFree(es[i].key)
  }

  /** Every computing node among the fields of a level ends up at its own field name. */
  lemma {:induction false} FlattenEntriesPlaces(dag: seq<Entry>, es: seq<Entry>, prefix: string)
    requires WellNamedFields(es)
    requires prefix == "" ==> forall i :: 0 <= i < |es| ==> es[i].key != ""
    ensures var r := FlattenEntries(dag, es, prefix);
            forall j :: 0 <= j < |es| ==> PlacedField(r.dag, es[j], prefix)
    decreases es
  {
    if |es| > 0 {
      var n0 := FieldName(prefix, es[0].key);
      var first := FlattenChild(dag, es[0].val, n0);
      var r := FlattenEntries(dag, es, prefix);
      FlattenEntriesUnfold(dag, es, prefix);
      var tail := es[1..];
      assert forall i :: 0 <= i < |tail| ==> tail[i] == es[i + 1];
      assert WellNamedFields(tail);
      FlattenEntriesPlaces(first.dag, tail, prefix);
      if Hoistable(es[0].val) {
        FlattenChildKeepsTag(dag, es[0].val, n0);
        forall i | 0 <= i < |tail| ensures !Under(n0, FieldName(prefix, tail[i].key)) {
          SiblingsApart(prefix, es[0].key, tail[i].key);
        }
        FlattenEntriesKeeps(first.dag, tail, prefix, n0);
      }
      forall j | 0 < j < |es| ensures PlacedField(r.dag, es[j], prefix) {
        assert es[j] == tail[j - 1];
      }
    }
  }

  // ---------------------------------------------------------------------
  // flatten.

  /** The loop of `flatten` over the roots captured before it starts: each root is
      flattened with prefix `impl.<root>` and written back under its own name.
      A root that is not a dict has no `.items()`. */
  function FlattenRoots(dag: seq<Entry>, roots: seq<Entry>): (r: Result<seq<Entry>>)
    ensures r.Ok? <==> forall i :: 0 <= i < |roots| ==> roots[i].val.Obj?
    decreases |roots|
  {
    if |roots| == 0 then Ok(dag)
    else
      var root := roots[0];
      if !root.val.Obj? then Err(AttributeError("items"))
      else
        var level := FlattenEntries(dag, root.val.entries, "impl." + root.key);
        FlattenRoots(Update(level.dag, root.key, Obj(level.entries)), roots[1..])
  }

  /** What one root of `flatten` writes: the root's own flattened node, after the
      nodes hoisted out of it. */
  function FlattenRoot(dag: seq<Entry>, root: Entry): seq<Entry>
    requires root.val.Obj?
  {
    var level := FlattenEntries(dag, root.val.entries, "impl." + root.key);
    Update(level.dag, root.key, Obj(level.entries))
  }

  lemma {:induction false} FlattenRootFacts(dag: seq<Entry>, root: Entry)
    requires root.val.Obj?
    ensures var d := FlattenRoot(dag, root);
            && KeySet(dag) + {root.key} <= KeySet(d)
            && (UniqueKeys(dag) ==> UniqueKeys(d))
            && GraphRefs(d) <= GraphRefs(dag) + Names(d) + ValueRefs(root.val)
            && FlatNode(Lookup(d, root.key).value)
            && forall k :: k in KeySet(d) ==> Lookup(d, k) == Lookup(dag, k) || FlatNode(Lookup(d, k).value)
  {
    var level := FlattenEntries(dag, root.val.entries, "impl." + root.key);
    var d := FlattenRoot(dag, root);
    FlattenEntriesKeys(dag, root.val.entries, "impl." + root.key);
    FlattenEntriesRefs(dag, root.val.entries, "impl." + root.key);
    FlattenEntriesFlat(dag, root.val.entries, "impl." + root.key);
    FlattenEntriesDagFlat(dag, root.val.entries, "impl." + root.key);
    GraphRefsUpdate(level.dag, root.key, Obj(level.entries));
    NamesMono(level.dag, d);
    if UniqueKeys(dag) {
      UpdateUnique(level.dag, root.key, Obj(level.entries));
    }
  }

  /** The invariants of the loop of `flatten`. */
  lemma {:induction false} FlattenRootsFacts(dag: seq<Entry>, roots: seq<Entry>)
    requires FlattenRoots(dag, roots).Ok?
    ensures var d := FlattenRoots(dag, roots).value;
            && KeySet(dag) + KeySet(roots) <= KeySet(d)
            && (UniqueKeys(dag) ==> UniqueKeys(d))
            && GraphRefs(d) <= GraphRefs(dag) + Names(d) + GraphRefs(roots)
            && forall k :: k in KeySet(d) ==>
                 (Lookup(d, k) == Lookup(dag, k) && k !in KeySet(roots)) || FlatNode(Lookup(d, k).value)
    decreases |roots|
  {
    if |roots| > 0 {
      var root := roots[0];
      KeySetTail(roots);
      var d1 := FlattenRoot(dag, root);
      FlattenRootFacts(dag, root);
      FlattenRootsFacts(d1, roots[1..]);
      var d := FlattenRoots(dag, roots).value;
      assert d == FlattenRoots(d1, roots[1..]).value;
      NamesMono(d1, d);
    }
  }

  /** `flatten(endpoint)`: every root of the graph, as it stood before flattening, is
      flattened in order. */
  function FlattenEndpoint(endpoint: Endpoint): (r: Result<Endpoint>)
    ensures r.Ok? <==> forall i :: 0 <= i < |endpoint.dag| ==> endpoint.dag[i].val.Obj?
    ensures r.Ok? ==> r.value.outputs == endpoint.outputs
  {
    var dag :- FlattenRoots(endpoint.dag, endpoint.dag);
    Ok(Endpoint(dag, endpoint.outputs))
  }

  // ---------------------------------------------------------------------
  // Properties of flattening.

  /** Flattening closes the graph over names: every reference in the flattened graph
      either names one of its nodes or was already in the graph before, and no node
      is lost. */
  lemma FlattenClosesNames(endpoint: Endpoint)
    requires FlattenEndpoint(endpoint).Ok?
    ensures var flat := FlattenEndpoint(endpoint).value.dag;
            && KeySet(endpoint.dag) <= KeySet(flat)
            && GraphRefs(flat) <= Names(flat) + GraphRefs(endpoint.dag)
  {
    FlattenRootsFacts(endpoint.dag, endpoint.dag);
  }

  /** After flattening no computing node stays nested: every node of the graph is a
      dict whose fields hold only variables, plain data, and plain dicts of the same. */
  lemma FlattenLeavesFlatNodes(endpoint: Endpoint)
    requires FlattenEndpoint(endpoint).Ok?
    ensures var flat := FlattenEndpoint(endpoint).value.dag;
            forall k :: k in KeySet(flat) ==> FlatNode(Lookup(flat, k).value)
  {
    FlattenRootsFacts(endpoint.dag, endpoint.dag);
  }

  /** Flattening a graph whose nodes are already flat changes nothing. */
  lemma {:induction false} FlattenFlatRootsIsIdentity(dag: seq<Entry>, roots: seq<Entry>)
    requires UniqueKeys(dag)
    requires forall i :: 0 <= i < |roots| ==> FlatNode(roots[i].val) && Lookup(dag, roots[i].key) == Some(roots[i].val)
    ensures FlattenRoots(dag, roots) == Ok(dag)
    decreases |roots|
  {
    if |roots| > 0 {
      var root := roots[0];
      FlatEntriesUnchanged(dag, root.val.entries, "impl." + root.key);
      UpdateSame(dag, root.key, root.val);
      FlattenFlatRootsIsIdentity(dag, roots[1..]);
    }
  }

  lemma {:induction false} FlatEntriesUnchanged(dag: seq<Entry>, es: seq<Entry>, prefix: string)
    requires FlatEntries(es)
    ensures FlattenEntries(dag, es, prefix) == Level(dag, es)
    decreases es
  {
    if |es| > 0 {
      var c := es[0].val;
      assert FlatChild(c);
      if Plain(c) {
        FlatEntriesUnchanged(dag, c.entries, FieldName(prefix, es[0].key));
      }
      assert FlatEntries(es[1..]) by {
        assert forall i :: 0 <= i < |es[1..]| ==> es[1..][i] == es[i + 1];
      }
      FlatEntriesUnchanged(dag, es[1..], prefix);
      assert es == [es[0]] + es[1..];
    }
  }

  /** Writing back the value a key already has changes nothing. */
  lemma {:induction false} UpdateSame(d: seq<Entry>, k: string, v: Value)
    requires Lookup(d, k) == Some(v)
    ensures Update(d, k, v) == d
    decreases |d|
  {
    assert d == [d[0]] + d[1..];
    if d[0].key != k {
      assert Lookup(d[1..], k) == Some(v);
      UpdateSame(d[1..], k, v);
      assert Update(d, k, v) == [d[0]] + Update(d[1..], k, v);
    } else {
      assert d[0] == Entry(k, v);
      assert Update(d, k, v) == [Entry(k, v)] + d[1..];
    }
  }

  /** Flattening is idempotent. */
  lemma FlattenIdempotent(endpoint: Endpoint)
    requires UniqueKeys(endpoint.dag)
    requires FlattenEndpoint(endpoint).Ok?
    ensures FlattenEndpoint(FlattenEndpoint(endpoint).value) == FlattenEndpoint(endpoint)
  {
    var flat := FlattenEndpoint(endpoint).value;
    FlattenLeavesFlatNodes(endpoint);
    FlattenRootsFacts(endpoint.dag, endpoint.dag);
    forall i | 0 <= i < |flat.dag|
      ensures FlatNode(flat.dag[i].val) && Lookup(flat.dag, flat.dag[i].key) == Some(flat.dag[i].val)
    {
      LookupUnique(flat.dag, i);
      assert flat.dag[i].key in KeySet(flat.dag);
    }
    FlattenFlatRootsIsIdentity(flat.dag, flat.dag);
  }

  // ---------------------------------------------------------------------
  // Where flattening puts each node of a root.

  /** A root that `flatten` can place without a clash: a dot-free name and fields
      that `flatten_helper` can place. */
  predicate WellNamedRoot(root: Entry)
  {
    Paths.DotFree(root.key) && root.val.Obj? && WellNamedFields(root.val.entries)
  }

  /** Every computing field of `root` is stored in `d` at `impl.<root>.<field>`. */
  predicate RootPlaced(d: seq<Entry>, root: Entry)
  {
    root.val.Obj? &&
    forall j :: 0 <= j < |root.val.entries| ==> PlacedField(d, root.val.entries[j], "impl." + root.key)
  }

  /** A name `impl.<a>.<key>` is neither another dot-free root `b` nor below
      `impl.<b>`. */
  lemma RootsApart(a: string, b: string, key: string)
    requires Paths.DotFree(a) && Paths.DotFree(b) && a != b
    ensures var k := "impl." + a + "." + key;
            k != b && !("impl." + b + "." <= k)
  {
    var k := "impl." + a + "." + key;
    var t := "impl." + b + ".";
    assert k[4] == '.';
    assert k[5..5 + |a|] == a && k[5 + |a|] == '.';
    assert t[5..5 + |b|] == b && t[5 + |b|] == '.';
    if |b| < |a| {
      assert k[5 + |b|] == a[|b|] != '.';
    } else if |a| < |b| {
      assert t[5 + |a|] == b[|a|] != '.';
    }
  }

  /** Flattening one root changes nothing outside its own name and `impl.<root>`. */
  lemma FlattenRootKeeps(dag: seq<Entry>, root: Entry, k: string)
    requires root.val.Obj?
    requires k != root.key && !("impl." + root.key + "." <= k)
    ensures Lookup(FlattenRoot(dag, root), k) == Lookup(dag, k)
  {
    var es, prefix := root.val.entries, "impl." + root.key;
    forall i | 0 <= i < |es| ensures !Under(k, FieldName(prefix, es[i].key)) {
      if Under(k, FieldName(prefix, es[i].key)) {
        UnderField(k, prefix, es[i].key);
      }
    }
    FlattenEntriesKeeps(dag, es, prefix, k);
  }

  /** The loop of `flatten` changes nothing outside the names and `impl.` positions
      of the roots it walks. */
  lemma {:induction false} FlattenRootsKeeps(dag: seq<Entry>, roots: seq<Entry>, k: string)
    requires FlattenRoots(dag, roots).Ok?
    requires forall i :: 0 <= i < |roots| ==> k != roots[i].key && !("impl." + roots[i].key + "." <= k)
    ensures Lookup(FlattenRoots(dag, roots).value, k) == Lookup(dag, k)
    decreases |roots|
  {
    if |roots| > 0 {
      var tail := roots[1..];
      assert forall i :: 0 <= i < |tail| ==> tail[i] == roots[i + 1];
      FlattenRootKeeps(dag, roots[0], k);
      FlattenRootsKeeps(FlattenRoot(dag, roots[0]), tail, k);
    }
  }

  /** After one root is flattened, each of its computing fields is at
      `impl.<root>.<field>`. */
  lemma FlattenRootPlaces(dag: seq<Entry>, root: Entry)
    requires WellNamedRoot(root)
    ensures RootPlaced(FlattenRoot(dag, root), root)
  {
    var es, prefix := root.val.entries, "impl." + root.key;
    FlattenEntriesPlaces(dag, es, prefix);
    forall j | 0 <= j < |es| ensures PlacedField(FlattenRoot(dag, root), es[j], prefix) {
      assert FieldName(prefix, es[j].key)[4] == '.';
    }
  }

  /** The loop of `flatten` places the computing fields of every root, and a later
      root does not overwrite what an earlier one placed. */
  lemma {:induction false} FlattenRootsPlaces(dag: seq<Entry>, roots: seq<Entry>)
    requires UniqueKeys(roots)
    requires forall i :: 0 <= i < |roots| ==> WellNamedRoot(roots[i])
    ensures FlattenRoots(dag, roots).Ok?
    ensures forall i :: 0 <= i < |roots| ==> RootPlaced(FlattenRoots(dag, roots).value, roots[i])
    decreases |roots|
  {
    if |roots| > 0 {
      var root, tail := roots[0], roots[1..];
      var d1 := FlattenRoot(dag, root);
      assert forall i :: 0 <= i < |tail| ==> tail[i] == roots[i + 1];
      FlattenRootsPlaces(d1, tail);
      var d := FlattenRoots(d1, tail).value;
      assert FlattenRoots(dag, roots) == Ok(d);
      FlattenRootPlaces(dag, root);
      forall j | 0 <= j < |root.val.entries|
        ensures PlacedField(d, root.val.entries[j], "impl." + root.key)
      {
        var name := FieldName("impl." + root.key, root.val.entries[j].key);
        forall i | 0 <= i < |tail| ensures name != tail[i].key && !("impl." + tail[i].key + "." <= name) {
          RootsApart(root.key, tail[i].key, root.val.entries[j].key);
        }
        FlattenRootsKeeps(d1, tail, name);
      }
      forall i | 0 < i < |roots| ensures RootPlaced(d, roots[i]) {
        assert roots[i] == tail[i - 1];
      }
    }
  }

  /** `flatten` moves every computing node found in a field of a root to the top level
      under `impl.<root>.<field>`, with its tag and its fields, when root and field
      names are dot-free: no two positions then flatten to the same name, and no root
      is itself named `impl.<...>`. */
  lemma FlattenPlacesFields(endpoint: Endpoint)
    requires UniqueKeys(endpoint.dag)
    requires forall i :: 0 <= i < |endpoint.dag| ==> WellNamedRoot(endpoint.dag[i])
    ensures FlattenEndpoint(endpoint).Ok?
    ensures forall i :: 0 <= i < |endpoint.dag| ==>
              RootPlaced(FlattenEndpoint(endpoint).value.dag, endpoint.dag[i])
  {
    FlattenRootsPlaces(endpoint.dag, endpoint.dag);
  }
}
