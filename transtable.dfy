/*
 * Flattening a nested NFA graph into a transition table: the set of state
 * ids, the start state, the accepting states and, per state id, the edges
 * leaving it.
 */
module TransTables {
  import opened Nfa

  /** A node as the traversal meets it: its id and its edges. */
  type Visit = (nat, seq<Edge>)

  // ---------------------------------------------------------------------------
  // The graph as `from_nfa` sees it
  // ---------------------------------------------------------------------------

  /** The ids and edges of a graph's nodes, nested like its sub-graphs.
      `from_nfa` borrows the graph immutably, so the walk reads this value. */
  datatype GraphValue = GraphValue(start: Visit, end: Visit, subGraphs: seq<GraphValue>)

  /** The value of the graph `g` in the current heap. */
  function ValueOf(g: NFAGraph): (v: GraphValue)
    reads NodesOf(g)
    ensures v.start == (g.start.id, g.start.edges) && v.end == (g.end.id, g.end.edges)
    ensures |v.subGraphs| == |g.subGraphs|
    decreases g
  {
    GraphValue((g.start.id, g.start.edges), (g.end.id, g.end.edges),
               seq(|g.subGraphs|, i requires 0 <= i < |g.subGraphs| reads NodesOf(g) =>
                     SubGraphNodes(g, i); ValueOf(g.subGraphs[i])))
  }

  // ---------------------------------------------------------------------------
  // The traversal, as functions of the graph's value
  // ---------------------------------------------------------------------------

  /** The number of graphs in `g`, counting `g` itself. */
  function GraphCount(g: GraphValue): (n: nat)
    ensures n >= 1
    decreases g, 1, 0
  {
    1 + GraphCountUpTo(g, |g.subGraphs|)
  }

  /** The number of graphs in the first `k` sub-graphs of `g`. */
  function GraphCountUpTo(g: GraphValue, k: nat): nat
    requires k <= |g.subGraphs|
    decreases g, 0, k
  {
    if k == 0 then 0 else GraphCountUpTo(g, k - 1) + GraphCount(g.subGraphs[k - 1])
  }

  /** The nodes `append_states` and `append_trans` visit, in their order:
      the start node, the end node, then each sub-graph in turn. */
  function Visits(g: GraphValue): (vs: seq<Visit>)
    ensures |vs| == 2 * GraphCount(g)
    ensures vs[0] == g.start && vs[1] == g.end
    decreases g, 1, 0
  {
    [g.start, g.end] + VisitsUpTo(g, |g.subGraphs|)
  }

  /** The visits of the first `k` sub-graphs of `g`. */
  function VisitsUpTo(g: GraphValue, k: nat): (vs: seq<Visit>)
    requires k <= |g.subGraphs|
    ensures |vs| == 2 * GraphCountUpTo(g, k)
    decreases g, 0, k
  {
    if k == 0 then [] else VisitsUpTo(g, k - 1) + Visits(g.subGraphs[k - 1])
  }

  /** The ids among `vs`. */
  function Ids(vs: seq<Visit>): set<nat>
  {
    set i | 0 <= i < |vs| :: vs[i].0
  }

  /** The state ids of `g`: the start and end ids of it and of every nested
      sub-graph. */
  function StatesOf(g: GraphValue): set<nat>
  {
    Ids(Visits(g))
  }

  /** The edges the visits `vs` contribute to state `id`, in visiting order. */
  function EdgesFor(vs: seq<Visit>, id: nat): seq<Edge>
  {
    if vs == [] then []
    else EdgesFor(vs[..|vs| - 1], id) + (if vs[|vs| - 1].0 == id then vs[|vs| - 1].1 else [])
  }

  /** The number of edges the visits carry. */
  function EdgeSum(vs: seq<Visit>): nat
  {
    if vs == [] then 0 else EdgeSum(vs[..|vs| - 1]) + |vs[|vs| - 1].1|
  }

  // ---------------------------------------------------------------------------
  // The transition map, as a function of the visits
  // ---------------------------------------------------------------------------

  /** The edges listed under `id`, none if `id` is not a key. */
  function Lookup(m: map<nat, seq<Edge>>, id: nat): seq<Edge>
  {
    if id in m then m[id] else []
  }

  /** `entry(id).or_insert(vec![]).append(edges)`. */
  function Append(m: map<nat, seq<Edge>>, v: Visit): map<nat, seq<Edge>>
  {
    m[v.0 := Lookup(m, v.0) + v.1]
  }

  /** `m` after appending the edges of every visit in order. */
  function Inserted(m: map<nat, seq<Edge>>, vs: seq<Visit>): map<nat, seq<Edge>>
  {
    if vs == [] then m else Append(Inserted(m, vs[..|vs| - 1]), vs[|vs| - 1])
  }

  /** The least element of a non-empty set of ids. */
  ghost function MinKey(s: set<nat>): (k: nat)
    requires s != {}
    ensures k in s && forall y :: y in s ==> k <= y
    decreases s
  {
    var x :| x in s;
    if s - {x} == {} then
      assert forall y :: y in s ==> y == x || y in s - {x};
      x
    else
      var r := MinKey(s - {x});
      assert forall y :: y in s ==> y == x || y in s - {x};
      if x <= r then x else r
  }

  /** The total length of all edge lists of `m`, summed in order of ids. */
  ghost function TotalEdges(m: map<nat, seq<Edge>>): nat
    decreases |m|
  {
    if m == map[] then 0
    else
      var k := MinKey(m.Keys);
      |m[k]| + TotalEdges(m - {k})
  }

  // ---------------------------------------------------------------------------
  // The table
  // ---------------------------------------------------------------------------

  class TransTable {
    var start: nat
    var end: set<nat>
    var states: set<nat>
    var trans: map<nat, seq<Edge>>

    /** Every state has an edge list and every edge list belongs to a state. */
    predicate Valid()
      reads this
    {
      trans.Keys == states
    }

    /** `from_nfa`: start at the graph's start node, accept only at its end
        node, and collect the states and edges of all nested graphs. */
    constructor FromNfa(g: NFAGraph)
      ensures start == g.StartId() && end == {g.EndId()}
      ensures states == StatesOf(ValueOf(g))
      ensures trans == Inserted(map[], Visits(ValueOf(g)))
      ensures Valid()
    {
      NodesAllocated(g);
      var v := ValueOf(g);
      start := g.start.id;
      end := {};
      states := {};
      trans := map[];
      new;
      end := end + {g.end.id};
      AppendStates(this, v);
      AppendTrans(this, v);
      InsertedKeys(map[], Visits(v));
    }

    /** `state_count`: for a valid table, also the number of edge lists. */
    function StateCount(): (n: nat)
      reads this
      ensures Valid() ==> n == |trans|
    {
      |states|
    }

    /** `edge_count`: the lengths of all edge lists, summed. */
    method EdgeCount() returns (n: nat)
      ensures n == TotalEdges(trans)
    {
      n := 0;
      var rest := trans;
      while rest != map[]
        invariant n + TotalEdges(rest) == TotalEdges(trans)
        decreases |rest.Keys|
      {
        var k :| k in rest;
        TotalEdgesRemove(rest, k);
        assert (rest - {k}).Keys == rest.Keys - {k};
        n := n + |rest[k]|;
        rest := rest - {k};
      }
    }
  }

  /** `append_states`: adds the start and end ids of `g` and, recursively, of
      its sub-graphs. */
  method AppendStates(table: TransTable, g: GraphValue)
    modifies table
    ensures table.states == old(table.states) + StatesOf(g)
    ensures table.start == old(table.start) && table.end == old(table.end)
    ensures table.trans == old(table.trans)
    decreases g
  {
    table.states := table.states + {g.start.0};
    table.states := table.states + {g.end.0};
    assert Ids(VisitsUpTo(g, 0)) == {};
    for i := 0 to |g.subGraphs|
      invariant table.states == old(table.states) + {g.start.0, g.end.0} + Ids(VisitsUpTo(g, i))
      invariant table.start == old(table.start) && table.end == old(table.end)
      invariant table.trans == old(table.trans)
    {
      AppendStates(table, g.subGraphs[i]);
      IdsAppend(VisitsUpTo(g, i), Visits(g.subGraphs[i]));
    }
    VisitsIds(g);
  }

  /** `append_trans`: appends the edges of the start and end nodes of `g`
      under their ids, then does the same for each sub-graph. */
  method AppendTrans(table: TransTable, g: GraphValue)
    modifies table
    ensures table.trans == Inserted(old(table.trans), Visits(g))
    ensures table.start == old(table.start) && table.end == old(table.end)
    ensures table.states == old(table.states)
    decreases g
  {
    ghost var before := table.trans;
    ghost var head := [g.start, g.end];
    AppendEntry(table, g.start);
    AppendEntry(table, g.end);
    InsertedPair(before, g.start, g.end);
    assert head + VisitsUpTo(g, 0) == head;
    for i := 0 to |g.subGraphs|
      invariant table.trans == Inserted(before, head + VisitsUpTo(g, i))
      invariant table.start == old(table.start) && table.end == old(table.end)
      invariant table.states == old(table.states)
    {
      AppendTrans(table, g.subGraphs[i]);
      VisitsStep(before, head, g, i);
    }
  }

  /** `trans.entry(id).or_insert(vec![]).append(edges)`: the visited node's
      edges go after those already listed under its id. */
  method AppendEntry(table: TransTable, v: Visit)
    modifies table
    ensures table.trans == Append(old(table.trans), v)
    ensures table.start == old(table.start) && table.end == old(table.end)
    ensures table.states == old(table.states)
  {
    var listed := if v.0 in table.trans then table.trans[v.0] else [];
    table.trans := table.trans[v.0 := listed + v.1];
  }

  // ---------------------------------------------------------------------------
  // Properties
  // ---------------------------------------------------------------------------

  lemma IdsAppend(a: seq<Visit>, b: seq<Visit>)
    ensures Ids(a + b) == Ids(a) + Ids(b)
  {
    forall id | id in Ids(a) + Ids(b)
      ensures id in Ids(a + b)
    {
      if id in Ids(a) {
        var i :| 0 <= i < |a| && a[i].0 == id;
        assert (a + b)[i].0 == id;
      } else {
        var i :| 0 <= i < |b| && b[i].0 == id;
        assert (a + b)[|a| + i].0 == id;
      }
    }
  }

  lemma IdsOfPair(a: Visit, b: Visit)
    ensures Ids([a, b]) == {a.0, b.0}
  {
    assert [a, b][0] == a && [a, b][1] == b;
  }

  /** The states of `g` are its own start and end ids and those its
      sub-graphs contribute. */
  lemma VisitsIds(g: GraphValue)
    ensures StatesOf(g) == {g.start.0, g.end.0} + Ids(VisitsUpTo(g, |g.subGraphs|))
  {
    IdsAppend([g.start, g.end], VisitsUpTo(g, |g.subGraphs|));
    IdsOfPair(g.start, g.end);
  }

  lemma InsertedPair(m: map<nat, seq<Edge>>, a: Visit, b: Visit)
    ensures Inserted(m, [a, b]) == Append(Append(m, a), b)
  {
    assert [a][..0] == [];
    assert Inserted(m, [a]) == Append(m, a);
    assert [a, b][..1] == [a];
  }

  /** The loop step of `append_trans`: after the first `i` sub-graphs comes
      sub-graph `i`. */
  lemma VisitsStep(m: map<nat, seq<Edge>>, head: seq<Visit>, g: GraphValue, i: nat)
    requires i < |g.subGraphs|
    ensures Inserted(m, head + VisitsUpTo(g, i + 1))
         == Inserted(Inserted(m, head + VisitsUpTo(g, i)), Visits(g.subGraphs[i]))
  {
    assert head + VisitsUpTo(g, i + 1) == head + VisitsUpTo(g, i) + Visits(g.subGraphs[i]);
    InsertedAppend(m, head + VisitsUpTo(g, i), Visits(g.subGraphs[i]));
  }

  /** Appending a batch of visits after another is appending them all. */
  lemma {:induction false} InsertedAppend(m: map<nat, seq<Edge>>, a: seq<Visit>, b: seq<Visit>)
    ensures Inserted(m, a + b) == Inserted(Inserted(m, a), b)
    decreases |b|
  {
    if b == [] {
      assert a + b == a;
    } else {
      assert (a + b)[..|a + b| - 1] == a + b[..|b| - 1];
      InsertedAppend(m, a, b[..|b| - 1]);
    }
  }

  /** The keys of the map are the keys it had and the ids visited. */
  lemma {:induction false} InsertedKeys(m: map<nat, seq<Edge>>, vs: seq<Visit>)
    ensures Inserted(m, vs).Keys == m.Keys + Ids(vs)
    decreases |vs|
  {
    if vs != [] {
      var init := vs[..|vs| - 1];
      InsertedKeys(m, init);
      IdsAppend(init, [vs[|vs| - 1]]);
      assert init + [vs[|vs| - 1]] == vs;
    }
  }

  /** Edges are appended, never replaced: under each id the map holds what it
      held before followed by the edges of every visit of that id, in order. */
  lemma {:induction false} InsertedEdges(m: map<nat, seq<Edge>>, vs: seq<Visit>, id: nat)
    ensures Lookup(Inserted(m, vs), id) == Lookup(m, id) + EdgesFor(vs, id)
    decreases |vs|
  {
    if vs == [] {
      assert Lookup(m, id) + [] == Lookup(m, id);
    } else {
      InsertedEdges(m, vs[..|vs| - 1], id);
    }
  }

  /** Summing from any key gives the same total as summing from the least. */
  lemma {:induction false} TotalEdgesRemove(m: map<nat, seq<Edge>>, k: nat)
    requires k in m
    ensures TotalEdges(m) == |m[k]| + TotalEdges(m - {k})
    decreases |m.Keys|
  {
    var j := MinKey(m.Keys);
    if j != k {
      var mj := m - {j};
      var mk := m - {k};
      RemoveKey(m, j);
      RemoveKey(m, k);
      TotalEdgesRemove(mj, k);
      TotalEdgesRemove(mk, j);
      RemoveBoth(m, j, k);
    }
  }

  lemma RemoveKey(m: map<nat, seq<Edge>>, k: nat)
    requires k in m
    ensures (m - {k}).Keys == m.Keys - {k} && |(m - {k}).Keys| == |m.Keys| - 1
    ensures forall x :: x in m && x != k ==> x in m - {k} && (m - {k})[x] == m[x]
  {
  }

  lemma RemoveBoth(m: map<nat, seq<Edge>>, j: nat, k: nat)
    ensures (m - {j}) - {k} == (m - {k}) - {j}
  {
  }

  /** Appending `v` adds exactly its edges to the total. */
  lemma AppendTotal(m: map<nat, seq<Edge>>, v: Visit)
    ensures TotalEdges(Append(m, v)) == TotalEdges(m) + |v.1|
  {
    var m' := Append(m, v);
    TotalEdgesRemove(m', v.0);
    assert m' - {v.0} == m - {v.0};
    if v.0 in m {
      TotalEdgesRemove(m, v.0);
    } else {
      assert m - {v.0} == m;
    }
  }

  /** No edge is lost or duplicated: the map's total grows by the edges of
      the visits. */
  lemma {:induction false} InsertedTotal(m: map<nat, seq<Edge>>, vs: seq<Visit>)
    ensures TotalEdges(Inserted(m, vs)) == TotalEdges(m) + EdgeSum(vs)
    decreases |vs|
  {
    if vs != [] {
      InsertedTotal(m, vs[..|vs| - 1]);
      AppendTotal(Inserted(m, vs[..|vs| - 1]), vs[|vs| - 1]);
    }
  }

  lemma {:induction false} IdsBound(vs: seq<Visit>)
    ensures |Ids(vs)| <= |vs|
    decreases |vs|
  {
    if vs != [] {
      var init := vs[..|vs| - 1];
      IdsBound(init);
      IdsAppend(init, [vs[|vs| - 1]]);
      assert init + [vs[|vs| - 1]] == vs;
      assert Ids([vs[|vs| - 1]]) == {vs[|vs| - 1].0};
    }
  }

  /** A table built from `g` has at most two states per graph of `g`; fewer
      when graphs share nodes. */
  lemma StateCountBound(g: GraphValue)
    ensures |StatesOf(g)| <= 2 * GraphCount(g)
  {
    IdsBound(Visits(g));
  }

  /** The states of the first `k` sub-graphs of `g`. */
  function StatesUpTo(g: GraphValue, k: nat): set<nat>
    requires k <= |g.subGraphs|
  {
    if k == 0 then {} else StatesUpTo(g, k - 1) + StatesOf(g.subGraphs[k - 1])
  }

  /** The start and end ids of `g` and of each sub-graph are states of `g`,
      and every state of `g` is one of them. */
  lemma StatesOfStructure(g: GraphValue)
    ensures StatesOf(g) == {g.start.0, g.end.0} + StatesUpTo(g, |g.subGraphs|)
  {
    VisitsIds(g);
    StatesUpToIds(g, |g.subGraphs|);
  }

  lemma {:induction false} StatesUpToIds(g: GraphValue, k: nat)
    requires k <= |g.subGraphs|
    ensures Ids(VisitsUpTo(g, k)) == StatesUpTo(g, k)
    decreases k
  {
    if k > 0 {
      StatesUpToIds(g, k - 1);
      IdsAppend(VisitsUpTo(g, k - 1), Visits(g.subGraphs[k - 1]));
    }
  }

  /** The total `edge_count` reports for a table built from `g` is the number
      of edges of all visited nodes. */
  lemma EdgeCountOfGraph(g: GraphValue)
    ensures TotalEdges(Inserted(map[], Visits(g))) == EdgeSum(Visits(g))
  {
    InsertedTotal(map[], Visits(g));
  }
}
