/** The executor: `execute_dag` with its inner `visit`, `walk_dict` and output
    shaping (executor.py).

    A flattened graph is evaluated on demand, starting from each returned name.
    Visiting a name first resolves every `variable` node among the node's fields
    (recursively visiting the names they refer to), then dispatches the node, stores
    the result in place of the node and marks the name visited, so that a later
    visit returns the stored value.  The whole run is one computation over a state
    (the graph, the visited set, and the order in which names were dispatched); an
    exception anywhere aborts it. */
module Executor {
  import opened Errors
  import opened Json
  import opened Query
  import opened Handlers
  import opened Flatten

  /** The evaluation state: `nodes` (the graph, whose visited entries hold results),
      `visited`, and `trace`, the names in the order their nodes were dispatched. */
  datatype State = State(nodes: seq<Entry>, visited: set<string>, trace: seq<string>)

  /** A value together with the state after computing it. */
  datatype Visited = Visited(val: Value, st: State)

  /** Walked fields together with the state after walking them. */
  datatype Walked = Walked(entries: seq<Entry>, st: State)

  /** The state before any visit. */
  function Start(dag: seq<Entry>): State
  {
    State(dag, {}, [])
  }

  /** How a node is evaluated once its references are resolved: `dispatch_node` with
      the endpoint's parameters, the registry and the store bound (see `Dispatch`).
      The walk is stated for any such function, which keeps its proofs apart from the
      handlers'. */
  type Dispatcher = Value -> Result<Value>

  function Dispatch(env: Env): Dispatcher
  {
    node => DispatchNode(env, node)
  }

  // ---------------------------------------------------------------------
  // visit and walk_dict.
  //
  // `fuel` stands for Python's recursion limit: each nested `visit` uses one unit,
  // and running out is the `RecursionError` that a cyclic graph ends in.

  /** `visit(node_name)`. */
  function Visit(dispatch: Dispatcher, st: State, name: Value, fuel: nat): (r: Result<Visited>)
    ensures r.Ok? ==> name.Str? && name.s in r.value.st.visited
    decreases fuel, 0, Null
  {
    if !Hashable(name) then Err(TypeError("unhashable type"))
    else if name.Str? && name.s in st.visited then
      (match Lookup(st.nodes, name.s)
       case Some(v) => Ok(Visited(v, st))
       case None => Err(KeyError(name.s)))
    else if fuel == 0 then Err(RecursionLimit)
    else if !name.Str? || name.s !in KeySet(st.nodes) then Err(KeyError(Show(name)))
    else
      var node := Lookup(st.nodes, name.s).value;
      if !node.Obj? then Err(AttributeError("items"))
      else
        var w :- WalkEntries(dispatch, st, node.entries, fuel - 1);
        var r :- dispatch(Obj(w.entries));
        Ok(Visited(r, State(Update(w.st.nodes, name.s, r), w.st.visited + {name.s}, w.st.trace + [name.s])))
  }

  /** One field of `walk_dict`: a `variable` node becomes the value of the node it
      names, any other dict is walked, and everything else is left alone. */
  function WalkChild(dispatch: Dispatcher, st: State, c: Value, fuel: nat): (r: Result<Visited>)
    ensures r.Ok? && !c.Obj? ==> r.value == Visited(c, st)
    decreases fuel, 1, c
  {
    if IsVariable(c) then
      var name :- Subscript(c, "variable_name");
      Visit(dispatch, st, name, fuel)
    else if c.Obj? then
      var w :- WalkEntries(dispatch, st, c.entries, fuel);
      Ok(Visited(Obj(w.entries), w.st))
    else Ok(Visited(c, st))
  }

  /** `walk_dict` over the fields of a dict, in order: each field keeps its key and
      position and only its value may change. */
  function WalkEntries(dispatch: Dispatcher, st: State, es: seq<Entry>, fuel: nat): (r: Result<Walked>)
    ensures r.Ok? ==> |r.value.entries| == |es|
    ensures r.Ok? ==> forall i :: 0 <= i < |es| ==> r.value.entries[i].key == es[i].key
    decreases fuel, 1, es
  {
    if |es| == 0 then Ok(Walked([], st))
    else
      var c :- WalkChild(dispatch, st, es[0].val, fuel);
      var rest :- WalkEntries(dispatch, c.st, es[1..], fuel);
      Ok(Walked([Entry(es[0].key, c.val)] + rest.entries, rest.st))
  }

  // ---------------------------------------------------------------------
  // Output shaping and execute_dag.

  /** One returned record outside development mode: the dict without its `context`;
      a record that is not a dict has no `.items`. */
  function StripContext(o: Value): (r: Result<Value>)
    ensures r.Ok? <==> o.Obj?
    ensures r.Ok? ==> r.value == Obj(Without(o.entries, "context"))
  {
    if o.Obj? then Ok(Obj(Without(o.entries, "context"))) else Err(AttributeError("items"))
  }

  /** The value returned for one output: as computed in development mode, otherwise
      the computed value iterated as a list of records, each stripped of its context. */
  function Shape(devMode: bool, v: Value): (r: Result<Value>)
  {
    if devMode then Ok(v)
    else
      var items :- Iterate(v);
      var out :- Each(StripContext, items);
      Ok(Arr(out))
  }

  /** The outputs computed in order: each name is visited and its value shaped before
      the next name is visited. */
  datatype Run = Run(entries: seq<Entry>, st: State)

  function RunOutputs(dispatch: Dispatcher, st: State, outputs: seq<Value>, devMode: bool, fuel: nat): (r: Result<Run>)
    ensures r.Ok? ==> |r.value.entries| == |outputs|
    ensures r.Ok? ==> forall i :: 0 <= i < |outputs| ==> outputs[i] == Str(r.value.entries[i].key)
    decreases |outputs|
  {
    if |outputs| == 0 then Ok(Run([], st))
    else
      var w :- Visit(dispatch, st, outputs[0], fuel);
      var v :- Shape(devMode, w.val);
      var rest :- RunOutputs(dispatch, w.st, outputs[1..], devMode, fuel);
      Ok(Run([Entry(outputs[0].s, v)] + rest.entries, rest.st))
  }

  /** `execute_dag(endpoint, parameters, functions)`: the dict from each returned name
      to its shaped value, built the way the dict comprehension builds it. */
  function ExecuteDag(env: Env, endpoint: Endpoint, devMode: bool, fuel: nat): (r: Result<Value>)
    ensures r.Ok? ==> r.value.Obj? && UniqueKeys(r.value.entries)
    ensures r.Ok? ==> forall e :: e in endpoint.outputs <==> e.Str? && e.s in KeySet(r.value.entries)
  {
    var run :- RunOutputs(Dispatch(env), Start(endpoint.dag), endpoint.outputs, devMode, fuel);
    MergeUnique([], run.entries);
    Ok(Obj(Merge([], run.entries)))
  }

  // ---------------------------------------------------------------------
  // How the state evolves.

  predicate NoDup(t: seq<string>)
  {
    forall i, j :: 0 <= i < j < |t| ==> t[i] != t[j]
  }

  /** A reachable state: visited names are node names, and `trace` lists each visited
      name exactly once. */
  ghost predicate Good(st: State)
  {
    && st.visited <= KeySet(st.nodes)
    && NoDup(st.trace)
    && forall k :: k in st.visited <==> k in st.trace
  }

  /** `st2` comes after `st1`: the same node names, more names visited, the results of
      names visited in `st1` unchanged, the nodes of names still unvisited in `st2`
      unchanged, and `st1`'s trace a prefix of `st2`'s. */
  ghost predicate Extends(st1: State, st2: State)
  {
    && KeySet(st2.nodes) == KeySet(st1.nodes)
    && st1.visited <= st2.visited
    && (forall k :: k in st1.visited ==> Lookup(st2.nodes, k) == Lookup(st1.nodes, k))
    && (forall k :: k !in st2.visited ==> Lookup(st2.nodes, k) == Lookup(st1.nodes, k))
    && |st1.trace| <= |st2.trace| && st2.trace[..|st1.trace|] == st1.trace
  }

  /** The end of a first visit, after the walk of the node's fields: storing the result
      moves the state forward, keeps it reachable, and adds only the name itself to the
      names visited during the walk. */
  lemma StoreFacts(st: State, ws: State, name: string, r: Value, rank: string -> nat)
    requires Good(st) && Good(ws) && Extends(st, ws)
    requires name !in st.visited && name in KeySet(st.nodes)
    requires forall k :: k in ws.visited && k !in st.visited ==> rank(k) < rank(name)
    ensures var st2 := State(Update(ws.nodes, name, r), ws.visited + {name}, ws.trace + [name]);
            && Extends(st, st2) && Good(st2)
            && Lookup(st2.nodes, name) == Some(r)
            && forall k :: k in st2.visited && k !in st.visited ==> rank(k) <= rank(name)
  {
    var st2 := State(Update(ws.nodes, name, r), ws.visited + {name}, ws.trace + [name]);
    assert name !in ws.visited;
    StoreExtends(ws, name, r);
    StoreGood(ws, name, r);
    ExtendsTrans(st, ws, st2);
  }

  /** Storing the result of a name not yet visited moves the state forward. */
  lemma StoreExtends(st: State, name: string, r: Value)
    requires name !in st.visited && name in KeySet(st.nodes)
    ensures Extends(st, State(Update(st.nodes, name, r), st.visited + {name}, st.trace + [name]))
  {
    assert (st.trace + [name])[..|st.trace|] == st.trace;
  }

  /** Storing the result of a name not yet visited keeps the state reachable. */
  lemma StoreGood(st: State, name: string, r: Value)
    requires Good(st) && name !in st.visited && name in KeySet(st.nodes)
    ensures Good(State(Update(st.nodes, name, r), st.visited + {name}, st.trace + [name]))
  {
  }

  lemma ExtendsRefl(st: State)
    ensures Extends(st, st)
  {
    assert st.trace[..|st.trace|] == st.trace;
  }

  lemma ExtendsTrans(st1: State, st2: State, st3: State)
    requires Extends(st1, st2) && Extends(st2, st3)
    ensures Extends(st1, st3)
  {
    assert st3.trace[..|st1.trace|] == st3.trace[..|st2.trace|][..|st1.trace|];
  }

  // ---------------------------------------------------------------------
  // Acyclic graphs.
  //
  // A graph is acyclic when its names can be ranked so that every reference a node
  // makes goes to a lower rank.  A reference that is not a string cannot name a node;
  // it ranks as 0.

  function RefRank(r: Value, rank: string -> nat): nat
  {
    if r.Str? then rank(r.s) else 0
  }

  /** Every reference among the fields `es` ranks below `bound`. */
  ghost predicate EntriesBelow(es: seq<Entry>, bound: nat, rank: string -> nat)
  {
    forall r :: r in EntriesRefs(es) ==> RefRank(r, rank) < bound
  }

  ghost predicate ChildBelow(c: Value, bound: nat, rank: string -> nat)
  {
    forall r :: r in ChildRefs(c) ==> RefRank(r, rank) < bound
  }

  /** `rank` orders the graph: each node refers only to lower ranks. */
  ghost predicate Acyclic(dag: seq<Entry>, rank: string -> nat)
  {
    forall e :: e in dag && e.val.Obj? ==> EntriesBelow(e.val.entries, rank(e.key), rank)
  }

  /** The unvisited nodes of a state still refer only to lower ranks. */
  ghost predicate Ranked(st: State, rank: string -> nat)
  {
    forall k, v :: Lookup(st.nodes, k) == Some(v) && k !in st.visited && v.Obj? ==> EntriesBelow(v.entries, rank(k), rank)
  }

  lemma AcyclicStart(dag: seq<Entry>, rank: string -> nat)
    requires Acyclic(dag, rank)
    ensures Ranked(Start(dag), rank) && Good(Start(dag))
  {
    forall k, v | Lookup(dag, k) == Some(v) && v.Obj? ensures EntriesBelow(v.entries, rank(k), rank) {
      assert Entry(k, v) in dag;
    }
  }

  lemma RankedExtends(st1: State, st2: State, rank: string -> nat)
    requires Ranked(st1, rank) && Extends(st1, st2)
    ensures Ranked(st2, rank)
  {
  }

  /** What a visit does to the state, in an acyclic graph: it only moves forward, keeps
      the state reachable, leaves the visited name holding the returned value, and visits
      no name ranked above it. */
  lemma {:induction false} VisitFacts(dispatch: Dispatcher, st: State, name: Value, fuel: nat, rank: string -> nat)
    requires Good(st) && Ranked(st, rank)
    ensures Visit(dispatch, st, name, fuel).Ok? ==>
              var w := Visit(dispatch, st, name, fuel).value;
              && Extends(st, w.st) && Good(w.st)
              && Lookup(w.st.nodes, name.s) == Some(w.val)
              && forall k :: k in w.st.visited && k !in st.visited ==> rank(k) <= rank(name.s)
    decreases fuel, 0, Null
  {
    if Visit(dispatch, st, name, fuel).Ok? {
      if name.s in st.visited {
        assert Visit(dispatch, st, name, fuel).value.st == st;
        ExtendsRefl(st);
      } else {
        var node := Lookup(st.nodes, name.s).value;
        var bound := rank(name.s);
        WalkEntriesFacts(dispatch, st, node.entries, fuel - 1, rank, bound);
        var ws := WalkEntries(dispatch, st, node.entries, fuel - 1).value;
        var r := dispatch(Obj(ws.entries)).value;
        var st2 := State(Update(ws.st.nodes, name.s, r), ws.st.visited + {name.s}, ws.st.trace + [name.s]);
        assert Visit(dispatch, st, name, fuel).value == Visited(r, st2);
        StoreFacts(st, ws.st, name.s, r, rank);
      }
    }
  }

  lemma {:induction false} WalkChildFacts(dispatch: Dispatcher, st: State, c: Value, fuel: nat, rank: string -> nat, bound: nat)
    requires Good(st) && Ranked(st, rank) && ChildBelow(c, bound, rank)
    ensures WalkChild(dispatch, st, c, fuel).Ok? ==>
              var w := WalkChild(dispatch, st, c, fuel).value;
              && Extends(st, w.st) && Good(w.st)
              && forall k :: k in w.st.visited && k !in st.visited ==> rank(k) < bound
    decreases fuel, 1, c
  {
    if IsVariable(c) {
      if Subscript(c, "variable_name").Ok? {
        var name := Subscript(c, "variable_name").value;
        assert name in ChildRefs(c);
        VisitFacts(dispatch, st, name, fuel, rank);
      }
    } else if c.Obj? {
      WalkEntriesFacts(dispatch, st, c.entries, fuel, rank, bound);
    }
  }

  lemma {:induction false} WalkEntriesFacts(dispatch: Dispatcher, st: State, es: seq<Entry>, fuel: nat, rank: string -> nat, bound: nat)
    requires Good(st) && Ranked(st, rank) && EntriesBelow(es, bound, rank)
    ensures WalkEntries(dispatch, st, es, fuel).Ok? ==>
              var w := WalkEntries(dispatch, st, es, fuel).value;
              && Extends(st, w.st) && Good(w.st)
              && forall k :: k in w.st.visited && k !in st.visited ==> rank(k) < bound
    decreases fuel, 1, es
  {
    if |es| > 0 {
      assert EntriesRefs(es) == ChildRefs(es[0].val) + EntriesRefs(es[1..]);
      WalkChildFacts(dispatch, st, es[0].val, fuel, rank, bound);
      if WalkChild(dispatch, st, es[0].val, fuel).Ok? {
        var c := WalkChild(dispatch, st, es[0].val, fuel).value;
        RankedExtends(st, c.st, rank);
        WalkEntriesFacts(dispatch, c.st, es[1..], fuel, rank, bound);
        if WalkEntries(dispatch, c.st, es[1..], fuel).Ok? {
          ExtendsTrans(st, c.st, WalkEntries(dispatch, c.st, es[1..], fuel).value.st);
        }
      }
    }
  }

  /** Visiting a name a second time returns the stored value and changes nothing. */
  lemma VisitAgain(dispatch: Dispatcher, st: State, name: Value, fuel: nat, fuel2: nat, rank: string -> nat)
    requires Good(st) && Ranked(st, rank)
    requires Visit(dispatch, st, name, fuel).Ok?
    ensures var w := Visit(dispatch, st, name, fuel).value;
            Visit(dispatch, w.st, name, fuel2) == Ok(w)
  {
    VisitFacts(dispatch, st, name, fuel, rank);
  }

  // ---------------------------------------------------------------------
  // The recursion limit is never what decides the result on an acyclic graph.

  /** With more fuel than the rank of the name, the amount of fuel does not matter. */
  lemma {:induction false} VisitFuel(dispatch: Dispatcher, st: State, name: Value, f1: nat, f2: nat, rank: string -> nat)
    requires Good(st) && Ranked(st, rank)
    requires f1 > RefRank(name, rank) && f2 > RefRank(name, rank)
    ensures Visit(dispatch, st, name, f1) == Visit(dispatch, st, name, f2)
    decreases f1, 0, Null
  {
    if Hashable(name) && name.Str? && name.s !in st.visited && Lookup(st.nodes, name.s).Some? {
      var node := Lookup(st.nodes, name.s).value;
      if node.Obj? {
        WalkEntriesFuel(dispatch, st, node.entries, f1 - 1, f2 - 1, rank, rank(name.s));
      }
    }
    VisitSameWalk(dispatch, st, name, f1, f2);
  }

  /** Two visits with some fuel left differ only through the walks of the node's fields. */
  lemma VisitSameWalk(dispatch: Dispatcher, st: State, name: Value, f1: nat, f2: nat)
    requires f1 > 0 && f2 > 0
    requires Hashable(name) && name.Str? && name.s !in st.visited && Lookup(st.nodes, name.s).Some?
             && Lookup(st.nodes, name.s).value.Obj? ==>
               var es := Lookup(st.nodes, name.s).value.entries;
               WalkEntries(dispatch, st, es, f1 - 1) == WalkEntries(dispatch, st, es, f2 - 1)
    ensures Visit(dispatch, st, name, f1) == Visit(dispatch, st, name, f2)
  {
  }

  lemma {:induction false} WalkChildFuel(dispatch: Dispatcher, st: State, c: Value, f1: nat, f2: nat, rank: string -> nat, bound: nat)
    requires Good(st) && Ranked(st, rank) && ChildBelow(c, bound, rank)
    requires f1 >= bound && f2 >= bound
    ensures WalkChild(dispatch, st, c, f1) == WalkChild(dispatch, st, c, f2)
    decreases f1, 1, c
  {
    if IsVariable(c) {
      if Subscript(c, "variable_name").Ok? {
        var name := Subscript(c, "variable_name").value;
        assert name in ChildRefs(c);
        VisitFuel(dispatch, st, name, f1, f2, rank);
      }
    } else if c.Obj? {
      WalkEntriesFuel(dispatch, st, c.entries, f1, f2, rank, bound);
    }
  }

  lemma {:induction false} WalkEntriesFuel(dispatch: Dispatcher, st: State, es: seq<Entry>, f1: nat, f2: nat, rank: string -> nat, bound: nat)
    requires Good(st) && Ranked(st, rank) && EntriesBelow(es, bound, rank)
    requires f1 >= bound && f2 >= bound
    ensures WalkEntries(dispatch, st, es, f1) == WalkEntries(dispatch, st, es, f2)
    decreases f1, 1, es
  {
    if |es| > 0 {
      assert EntriesRefs(es) == ChildRefs(es[0].val) + EntriesRefs(es[1..]);
      WalkChildFuel(dispatch, st, es[0].val, f1, f2, rank, bound);
      WalkChildFacts(dispatch, st, es[0].val, f1, rank, bound);
      if WalkChild(dispatch, st, es[0].val, f1).Ok? {
        var c := WalkChild(dispatch, st, es[0].val, f1).value;
        RankedExtends(st, c.st, rank);
        WalkEntriesFuel(dispatch, c.st, es[1..], f1, f2, rank, bound);
      }
    }
  }

  /** On a cycle the recursion limit is reached: a node whose only field refers to the
      node itself never finishes, whatever the fuel. */
  lemma {:induction false} SelfReferenceExhausts(dispatch: Dispatcher, st: State, a: string, k: string, fuel: nat)
    requires a !in st.visited
    requires Lookup(st.nodes, a) == Some(Obj([Entry(k, Variable(Str(a)))]))
    ensures Visit(dispatch, st, Str(a), fuel) == Err(RecursionLimit)
    decreases fuel
  {
    if fuel > 0 {
      var v := Variable(Str(a));
      assert Subscript(v, "variable_name") == Ok(Str(a)) by {
        var fields := [Entry(DispatchField, Str(VARIABLE)), Entry("variable_name", Str(a))];
        assert Lookup(v.entries, fields[1].key) == Some(fields[1].val);
      }
      SelfReferenceExhausts(dispatch, st, a, k, fuel - 1);
      assert WalkChild(dispatch, st, v, fuel - 1) == Err(RecursionLimit);
      assert WalkEntries(dispatch, st, [Entry(k, v)], fuel - 1) == Err(RecursionLimit);
    }
  }

  // ---------------------------------------------------------------------
  // What the walk computes: every reference replaced by the referenced result.

  /** A reference reading of `walk_dict`: each `variable` node replaced by the value
      `nodes` holds under its name, other dicts rewritten field by field. */
  function Resolve(c: Value, nodes: seq<Entry>): Value
    decreases c
  {
    if IsVariable(c) then
      match Lookup(c.entries, "variable_name")
      case Some(Str(n)) => (match Lookup(nodes, n) case Some(v) => v case None => c)
      case _ => c
    else if c.Obj? then Obj(ResolveEntries(c.entries, nodes))
    else c
  }

  function ResolveEntries(es: seq<Entry>, nodes: seq<Entry>): seq<Entry>
    decreases es
  {
    if |es| == 0 then [] else [Entry(es[0].key, Resolve(es[0].val, nodes))] + ResolveEntries(es[1..], nodes)
  }

  /** Every reference at or below `c` names a node visited in `st`. */
  ghost predicate ChildResolved(c: Value, st: State)
  {
    forall r :: r in ChildRefs(c) ==> r.Str? && r.s in st.visited
  }

  ghost predicate EntriesResolved(es: seq<Entry>, st: State)
  {
    forall r :: r in EntriesRefs(es) ==> r.Str? && r.s in st.visited
  }

  /** Once its references are visited, resolving a value gives the same result in every
      later state. */
  lemma {:induction false} ResolveStable(c: Value, st1: State, st2: State)
    requires Extends(st1, st2) && ChildResolved(c, st1)
    ensures Resolve(c, st1.nodes) == Resolve(c, st2.nodes)
    decreases c
  {
    if IsVariable(c) {
      match Lookup(c.entries, "variable_name")
      case Some(Str(n)) =>
        assert Str(n) in ChildRefs(c);
      case _ =>
    } else if c.Obj? {
      ResolveEntriesStable(c.entries, st1, st2);
    }
  }

  lemma {:induction false} ResolveEntriesStable(es: seq<Entry>, st1: State, st2: State)
    requires Extends(st1, st2) && EntriesResolved(es, st1)
    ensures ResolveEntries(es, st1.nodes) == ResolveEntries(es, st2.nodes)
    decreases es
  {
    if |es| > 0 {
      assert EntriesRefs(es) == ChildRefs(es[0].val) + EntriesRefs(es[1..]);
      ResolveStable(es[0].val, st1, st2);
      ResolveEntriesStable(es[1..], st1, st2);
    }
  }

  /** A walked field is the field with its references resolved against the state the
      walk ends in, and every reference in it has been visited. */
  lemma {:induction false} WalkChildResolves(dispatch: Dispatcher, st: State, c: Value, fuel: nat, rank: string -> nat, bound: nat)
    requires Good(st) && Ranked(st, rank) && ChildBelow(c, bound, rank)
    ensures WalkChild(dispatch, st, c, fuel).Ok? ==>
              var w := WalkChild(dispatch, st, c, fuel).value;
              w.val == Resolve(c, w.st.nodes) && ChildResolved(c, w.st)
    decreases c
  {
    if IsVariable(c) {
      if Subscript(c, "variable_name").Ok? {
        var name := Subscript(c, "variable_name").value;
        assert ChildRefs(c) == {name};
        VisitFacts(dispatch, st, name, fuel, rank);
      }
    } else if c.Obj? {
      WalkEntriesResolves(dispatch, st, c.entries, fuel, rank, bound);
    }
  }

  lemma {:induction false} WalkEntriesResolves(dispatch: Dispatcher, st: State, es: seq<Entry>, fuel: nat, rank: string -> nat, bound: nat)
    requires Good(st) && Ranked(st, rank) && EntriesBelow(es, bound, rank)
    ensures WalkEntries(dispatch, st, es, fuel).Ok? ==>
              var w := WalkEntries(dispatch, st, es, fuel).value;
              w.entries == ResolveEntries(es, w.st.nodes) && EntriesResolved(es, w.st)
    decreases es
  {
    if |es| > 0 && WalkEntries(dispatch, st, es, fuel).Ok? {
      assert EntriesRefs(es) == ChildRefs(es[0].val) + EntriesRefs(es[1..]);
      WalkChildResolves(dispatch, st, es[0].val, fuel, rank, bound);
      WalkChildFacts(dispatch, st, es[0].val, fuel, rank, bound);
      var c := WalkChild(dispatch, st, es[0].val, fuel).value;
      RankedExtends(st, c.st, rank);
      WalkEntriesResolves(dispatch, c.st, es[1..], fuel, rank, bound);
      WalkEntriesFacts(dispatch, c.st, es[1..], fuel, rank, bound);
      var rest := WalkEntries(dispatch, c.st, es[1..], fuel).value;
      ResolveStable(es[0].val, c.st, rest.st);
    }
  }

  /** The walk of a first visit's node, then the store: the stored nodes resolve the
      node's fields as the walk did. */
  lemma WalkThenStoreResolves(dispatch: Dispatcher, st: State, es: seq<Entry>, fuel: nat, rank: string -> nat, name: string, ws: Walked, r: Value)
    requires Good(st) && Ranked(st, rank) && EntriesBelow(es, rank(name), rank)
    requires name !in st.visited && name in KeySet(st.nodes)
    requires WalkEntries(dispatch, st, es, fuel) == Ok(ws)
    ensures ws.entries == ResolveEntries(es, Update(ws.st.nodes, name, r))
  {
    WalkEntriesResolves(dispatch, st, es, fuel, rank, rank(name));
    WalkEntriesFacts(dispatch, st, es, fuel, rank, rank(name));
    StoreResolves(es, ws.st, name, r);
  }

  /** The walk of a first visit's node, then the store: the name ends the trace, after
      every name the node's fields refer to. */
  lemma WalkThenStoreOrder(dispatch: Dispatcher, st: State, es: seq<Entry>, fuel: nat, rank: string -> nat, name: string, ws: Walked)
    requires Good(st) && Ranked(st, rank) && EntriesBelow(es, rank(name), rank)
    requires name !in st.visited && name in KeySet(st.nodes)
    requires WalkEntries(dispatch, st, es, fuel) == Ok(ws)
    ensures var t := ws.st.trace + [name];
            forall x :: x in EntriesRefs(es) ==> x.Str? && x.s in t[..|t| - 1]
  {
    WalkEntriesResolves(dispatch, st, es, fuel, rank, rank(name));
    WalkEntriesFacts(dispatch, st, es, fuel, rank, rank(name));
    StoreResolves(es, ws.st, name, Null);
  }

  /** The steps of a successful first visit, in the order `visit` takes them. */
  lemma FirstVisitSteps(dispatch: Dispatcher, st: State, name: Value, fuel: nat) returns (ws: Walked, r: Value)
    requires name.Str? && name.s !in st.visited
    requires Visit(dispatch, st, name, fuel).Ok?
    ensures fuel > 0 && name.s in KeySet(st.nodes)
    ensures Lookup(st.nodes, name.s).Some? && Lookup(st.nodes, name.s).value.Obj?
    ensures WalkEntries(dispatch, st, Lookup(st.nodes, name.s).value.entries, fuel - 1) == Ok(ws)
    ensures dispatch(Obj(ws.entries)) == Ok(r)
    ensures Visit(dispatch, st, name, fuel).value
         == Visited(r, State(Update(ws.st.nodes, name.s, r), ws.st.visited + {name.s}, ws.st.trace + [name.s]))
  {
    var node := Lookup(st.nodes, name.s).value;
    ws := WalkEntries(dispatch, st, node.entries, fuel - 1).value;
    r := dispatch(Obj(ws.entries)).value;
  }

  /** A name visited for the first time is dispatched on its node with every reference
      replaced by the referenced node's final result. */
  lemma VisitResolves(dispatch: Dispatcher, st: State, name: Value, fuel: nat, rank: string -> nat)
    requires Good(st) && Ranked(st, rank)
    requires name.Str? && name.s !in st.visited
    requires Visit(dispatch, st, name, fuel).Ok?
    ensures Lookup(st.nodes, name.s).Some? && Lookup(st.nodes, name.s).value.Obj?
    ensures var node := Lookup(st.nodes, name.s).value;
            var w := Visit(dispatch, st, name, fuel).value;
            dispatch(Obj(ResolveEntries(node.entries, w.st.nodes))) == Ok(w.val)
  {
    var ws, r := FirstVisitSteps(dispatch, st, name, fuel);
    var es := Lookup(st.nodes, name.s).value.entries;
    assert EntriesBelow(es, rank(name.s), rank);
    WalkThenStoreResolves(dispatch, st, es, fuel - 1, rank, name.s, ws, r);
  }

  /** Dependencies first: a name visited for the first time is the last one dispatched,
      and every node its fields refer to was dispatched before it. */
  lemma VisitOrder(dispatch: Dispatcher, st: State, name: Value, fuel: nat, rank: string -> nat)
    requires Good(st) && Ranked(st, rank)
    requires name.Str? && name.s !in st.visited
    requires Visit(dispatch, st, name, fuel).Ok?
    ensures Lookup(st.nodes, name.s).Some? && Lookup(st.nodes, name.s).value.Obj?
    ensures var node := Lookup(st.nodes, name.s).value;
            var w := Visit(dispatch, st, name, fuel).value;
            && |w.st.trace| > 0 && w.st.trace[|w.st.trace| - 1] == name.s
            && forall r :: r in EntriesRefs(node.entries) ==> r.Str? && r.s in w.st.trace[..|w.st.trace| - 1]
  {
    var ws, r := FirstVisitSteps(dispatch, st, name, fuel);
    var es := Lookup(st.nodes, name.s).value.entries;
    assert EntriesBelow(es, rank(name.s), rank);
    WalkThenStoreOrder(dispatch, st, es, fuel - 1, rank, name.s, ws);
  }

  /** Storing a result changes neither the resolution of fields whose references were
      all visited before it, nor the order in which those were dispatched. */
  lemma StoreResolves(es: seq<Entry>, ws: State, name: string, r: Value)
    requires Good(ws) && name !in ws.visited && name in KeySet(ws.nodes)
    requires EntriesResolved(es, ws)
    ensures var st2 := State(Update(ws.nodes, name, r), ws.visited + {name}, ws.trace + [name]);
            && ResolveEntries(es, st2.nodes) == ResolveEntries(es, ws.nodes)
            && |st2.trace| > 0 && st2.trace[|st2.trace| - 1] == name
            && forall x :: x in EntriesRefs(es) ==> x.Str? && x.s in st2.trace[..|st2.trace| - 1]
  {
    var st2 := State(Update(ws.nodes, name, r), ws.visited + {name}, ws.trace + [name]);
    assert st2.trace[..|st2.trace| - 1] == ws.trace;
    StoreExtends(ws, name, r);
    ResolveEntriesStable(es, ws, st2);
  }

  // ---------------------------------------------------------------------
  // Output shaping.

  /** Outside development mode an output must be a list (or other iterable) of dicts;
      each record comes back with the same fields except `context`, in the same order. */
  lemma ShapeStrips(v: Value)
    ensures Shape(false, v).Ok? <==> Iterate(v).Ok? && forall i :: 0 <= i < |Iterate(v).value| ==> Iterate(v).value[i].Obj?
    ensures Shape(false, v).Ok? ==>
              var items := Iterate(v).value;
              var out := Shape(false, v).value;
              && out.Arr? && |out.items| == |items|
              && forall i :: 0 <= i < |items| ==>
                   && out.items[i] == Obj(Without(items[i].entries, "context"))
                   && "context" !in KeySet(out.items[i].entries)
                   && forall k :: k != "context" ==> Lookup(out.items[i].entries, k) == Lookup(items[i].entries, k)
  {
    if Iterate(v).Ok? {
      EachElementwise(StripContext, Iterate(v).value);
    }
  }

  /** Every value of a development-mode run can be shaped. */
  predicate Shapes(dev: seq<Entry>)
  {
    forall i :: 0 <= i < |dev| ==> Shape(false, dev[i].val).Ok?
  }

  /** `out` is `dev` with every value shaped. */
  predicate ShapedFrom(out: seq<Entry>, dev: seq<Entry>)
  {
    && |out| == |dev|
    && forall i :: 0 <= i < |dev| ==> Shape(false, dev[i].val).Ok? && out[i] == Entry(dev[i].key, Shape(false, dev[i].val).value)
  }

  lemma ShapesCons(e: Entry, rest: seq<Entry>)
    ensures Shapes([e] + rest) <==> Shape(false, e.val).Ok? && Shapes(rest)
  {
    if Shapes([e] + rest) {
      assert ([e] + rest)[0] == e;
      forall i | 0 <= i < |rest| ensures Shape(false, rest[i].val).Ok? {
        assert ([e] + rest)[i + 1] == rest[i];
      }
    }
    if Shape(false, e.val).Ok? && Shapes(rest) {
      forall i | 0 <= i < |[e] + rest| ensures Shape(false, ([e] + rest)[i].val).Ok? {
        if i > 0 {
          assert ([e] + rest)[i] == rest[i - 1];
        }
      }
    }
  }

  lemma ShapedFromCons(o: Entry, out: seq<Entry>, e: Entry, dev: seq<Entry>)
    requires ShapedFrom(out, dev)
    requires o.key == e.key && Shape(false, e.val) == Ok(o.val)
    ensures ShapedFrom([o] + out, [e] + dev)
  {
    forall i | 0 < i < |[e] + dev|
      ensures ([e] + dev)[i] == dev[i - 1] && ([o] + out)[i] == out[i - 1]
    {
    }
  }

  /** Development mode and the normal mode visit the same names in the same order; the
      normal mode returns each output shaped, and fails exactly when development mode
      fails or some output cannot be shaped. */
  lemma {:induction false} RunModes(dispatch: Dispatcher, st: State, outputs: seq<Value>, fuel: nat)
    ensures var dev := RunOutputs(dispatch, st, outputs, true, fuel);
            RunOutputs(dispatch, st, outputs, false, fuel).Ok? <==> dev.Ok? && Shapes(dev.value.entries)
    ensures var dev := RunOutputs(dispatch, st, outputs, true, fuel);
            var run := RunOutputs(dispatch, st, outputs, false, fuel);
            run.Ok? ==> run.value.st == dev.value.st && ShapedFrom(run.value.entries, dev.value.entries)
    decreases |outputs|
  {
    if |outputs| > 0 && Visit(dispatch, st, outputs[0], fuel).Ok? {
      var w := Visit(dispatch, st, outputs[0], fuel).value;
      var k := outputs[0].s;
      RunModes(dispatch, w.st, outputs[1..], fuel);
      var devRest := RunOutputs(dispatch, w.st, outputs[1..], true, fuel);
      var runRest := RunOutputs(dispatch, w.st, outputs[1..], false, fuel);
      if devRest.Ok? {
        assert RunOutputs(dispatch, st, outputs, true, fuel)
            == Ok(Run([Entry(k, w.val)] + devRest.value.entries, devRest.value.st));
        ShapesCons(Entry(k, w.val), devRest.value.entries);
      }
      if Shape(false, w.val).Ok? && runRest.Ok? {
        var o := Entry(k, Shape(false, w.val).value);
        assert RunOutputs(dispatch, st, outputs, false, fuel)
            == Ok(Run([o] + runRest.value.entries, runRest.value.st));
        ShapedFromCons(o, runRest.value.entries, Entry(k, w.val), devRest.value.entries);
      }
    }
  }

  // ---------------------------------------------------------------------
  // The whole run on an acyclic graph.

  /** Every returned name has been visited; in development mode each returned value is
      the result stored for its name. */
  ghost predicate Stored(entries: seq<Entry>, st: State, devMode: bool)
  {
    forall i :: 0 <= i < |entries| ==>
      && entries[i].key in st.visited
      && (devMode ==> Lookup(st.nodes, entries[i].key) == Some(entries[i].val))
  }

  lemma StoredCons(e: Entry, rest: seq<Entry>, st: State, devMode: bool)
    requires Stored(rest, st, devMode)
    requires e.key in st.visited && (devMode ==> Lookup(st.nodes, e.key) == Some(e.val))
    ensures Stored([e] + rest, st, devMode)
  {
    forall i | 0 < i < |[e] + rest|
      ensures ([e] + rest)[i] == rest[i - 1]
    {
    }
  }

  /** The run only moves the state forward; in development mode each returned value is
      the result stored for its name at the end. */
  lemma {:induction false} RunFacts(dispatch: Dispatcher, st: State, outputs: seq<Value>, devMode: bool, fuel: nat, rank: string -> nat)
    requires Good(st) && Ranked(st, rank)
    ensures RunOutputs(dispatch, st, outputs, devMode, fuel).Ok? ==>
              var run := RunOutputs(dispatch, st, outputs, devMode, fuel).value;
              Extends(st, run.st) && Good(run.st) && Stored(run.entries, run.st, devMode)
    decreases |outputs|
  {
    if |outputs| > 0 && RunOutputs(dispatch, st, outputs, devMode, fuel).Ok? {
      VisitFacts(dispatch, st, outputs[0], fuel, rank);
      var w := Visit(dispatch, st, outputs[0], fuel).value;
      RankedExtends(st, w.st, rank);
      RunFacts(dispatch, w.st, outputs[1..], devMode, fuel, rank);
      var v := Shape(devMode, w.val).value;
      var rest := RunOutputs(dispatch, w.st, outputs[1..], devMode, fuel).value;
      ExtendsTrans(st, w.st, rest.st);
      var e := Entry(outputs[0].s, v);
      assert RunOutputs(dispatch, st, outputs, devMode, fuel).value == Run([e] + rest.entries, rest.st);
      assert e.key in rest.st.visited;
      assert devMode ==> Lookup(rest.st.nodes, e.key) == Lookup(w.st.nodes, e.key);
      StoredCons(e, rest.entries, rest.st, devMode);
    }
  }

  /** Each node of an acyclic graph is dispatched at most once per run, and only node
      names are dispatched. */
  lemma DispatchedOnce(env: Env, endpoint: Endpoint, devMode: bool, fuel: nat, rank: string -> nat)
    requires Acyclic(endpoint.dag, rank)
    requires RunOutputs(Dispatch(env), Start(endpoint.dag), endpoint.outputs, devMode, fuel).Ok?
    ensures var run := RunOutputs(Dispatch(env), Start(endpoint.dag), endpoint.outputs, devMode, fuel).value;
            NoDup(run.st.trace) && forall i :: 0 <= i < |run.st.trace| ==> run.st.trace[i] in KeySet(endpoint.dag)
  {
    AcyclicStart(endpoint.dag, rank);
    RunFacts(Dispatch(env), Start(endpoint.dag), endpoint.outputs, devMode, fuel, rank);
  }

  lemma {:induction false} RunFuel(dispatch: Dispatcher, st: State, outputs: seq<Value>, devMode: bool, f1: nat, f2: nat, rank: string -> nat)
    requires Good(st) && Ranked(st, rank)
    requires forall i :: 0 <= i < |outputs| ==> f1 > RefRank(outputs[i], rank) && f2 > RefRank(outputs[i], rank)
    ensures RunOutputs(dispatch, st, outputs, devMode, f1) == RunOutputs(dispatch, st, outputs, devMode, f2)
    decreases |outputs|
  {
    if |outputs| > 0 {
      VisitFuel(dispatch, st, outputs[0], f1, f2, rank);
      VisitFacts(dispatch, st, outputs[0], f1, rank);
      if Visit(dispatch, st, outputs[0], f1).Ok? {
        var w := Visit(dispatch, st, outputs[0], f1).value;
        RankedExtends(st, w.st, rank);
        RunFuel(dispatch, w.st, outputs[1..], devMode, f1, f2, rank);
      }
    }
  }

  /** On an acyclic graph, any fuel above the ranks of the returned names gives the same
      answer: the recursion limit plays no part. */
  lemma ExecuteDagFuel(env: Env, endpoint: Endpoint, devMode: bool, f1: nat, f2: nat, rank: string -> nat)
    requires Acyclic(endpoint.dag, rank)
    requires forall o :: o in endpoint.outputs ==> f1 > RefRank(o, rank) && f2 > RefRank(o, rank)
    ensures ExecuteDag(env, endpoint, devMode, f1) == ExecuteDag(env, endpoint, devMode, f2)
  {
    AcyclicStart(endpoint.dag, rank);
    RunFuel(Dispatch(env), Start(endpoint.dag), endpoint.outputs, devMode, f1, f2, rank);
  }

  /** In development mode the answer maps each returned name to the result stored for
      it at the end of the run. */
  lemma ExecuteDagDev(env: Env, endpoint: Endpoint, fuel: nat, rank: string -> nat)
    requires Acyclic(endpoint.dag, rank)
    requires ExecuteDag(env, endpoint, true, fuel).Ok?
    ensures var run := RunOutputs(Dispatch(env), Start(endpoint.dag), endpoint.outputs, true, fuel).value;
            var out := ExecuteDag(env, endpoint, true, fuel).value;
            forall o :: o in endpoint.outputs ==> o.Str? && Lookup(out.entries, o.s) == Lookup(run.st.nodes, o.s) && Lookup(out.entries, o.s).Some?
  {
    AcyclicStart(endpoint.dag, rank);
    RunFacts(Dispatch(env), Start(endpoint.dag), endpoint.outputs, true, fuel, rank);
    var run := RunOutputs(Dispatch(env), Start(endpoint.dag), endpoint.outputs, true, fuel).value;
    MergedStored(run.entries, run.st);
    forall o | o in endpoint.outputs
      ensures o.Str? && Lookup(Merge([], run.entries), o.s) == Lookup(run.st.nodes, o.s)
    {
      var i :| 0 <= i < |endpoint.outputs| && endpoint.outputs[i] == o;
      assert run.entries[i].key == o.s;
    }
  }

  /** Collecting stored results into a dict finds each one under its name. */
  lemma MergedStored(entries: seq<Entry>, st: State)
    requires Stored(entries, st, true)
    ensures forall i :: 0 <= i < |entries| ==>
              Lookup(Merge([], entries), entries[i].key) == Lookup(st.nodes, entries[i].key)
  {
    forall i | 0 <= i < |entries|
      ensures Lookup(Merge([], entries), entries[i].key) == Lookup(st.nodes, entries[i].key)
    {
      MergeLookupSome([], entries, entries[i].key);
    }
  }
}
