/*
 * NFA building blocks: nodes with a fresh id and a growing edge list, edges
 * that are labelled with a byte or are epsilon moves, and graphs made of a
 * start node, an end node and nested sub-graphs.
 */
module Nfa {

  newtype byte = x: int | 0 <= x < 256

  datatype Option<T> = None | Some(value: T)

  /** A transition to `nextNode`, on the byte `character` or, when that is
      `None`, without reading input. */
  datatype Edge = Edge(character: Option<byte>, nextNode: nat)

  /** `Edge::new`: the edge to `dest` labelled `ch`. */
  function NewEdge(dest: nat, ch: Option<byte>): (e: Edge)
    ensures e.nextNode == dest && e.character == ch
  {
    Edge(ch, dest)
  }

  /** `Edge::epsilon`: the unlabelled edge to `nextNode`. */
  function Epsilon(nextNode: nat): (e: Edge)
    ensures e == NewEdge(nextNode, None)
    ensures e.character.None? && e.nextNode == nextNode
  {
    Edge(None, nextNode)
  }

  /** The process-wide id sequence: the id the next node will get. */
  class IdSeq {
    var next: nat

    constructor ()
      ensures next == 0
    {
      next := 0;
    }

    /** Hands out the current value and advances the sequence by one. */
    method FetchAdd() returns (id: nat)
      modifies this
      ensures id == old(next) && next == old(next) + 1
    {
      id := next;
      next := next + 1;
    }
  }

  class Node {
    /** Fixed when the node is made. */
    const id: nat
    var edges: seq<Edge>

    /** `Node::new`: takes the next id from `ids`; no edges yet. */
    constructor (ids: IdSeq)
      modifies ids
      ensures id == old(ids.next) && ids.next == old(ids.next) + 1
      ensures edges == []
    {
      var n := ids.FetchAdd();
      id := n;
      edges := [];
      new;
    }

    /** Appends exactly `edge`; the earlier edges stay as they were. */
    method AppendEdge(edge: Edge)
      modifies this
      ensures edges == old(edges) + [edge]
    {
      edges := edges + [edge];
    }

    /** Appends one edge to `dest` labelled `ch`. */
    method Connect(dest: nat, ch: Option<byte>)
      modifies this
      ensures edges == old(edges) + [NewEdge(dest, ch)]
      ensures |edges| == |old(edges)| + 1 && edges[..|old(edges)|] == old(edges)
    {
      AppendEdge(NewEdge(dest, ch));
    }
  }

  /** A start node, an end node and the nested graphs they were built from. */
  datatype NFAGraph = NFAGraph(start: Node, end: Node, subGraphs: seq<NFAGraph>)
  {
    /** `NFAGraph::start_id`: the id of the start node. */
    function StartId(): (id: nat)
      ensures id == start.id
    {
      start.id
    }

    /** `NFAGraph::end_id`: the id of the end node. */
    function EndId(): (id: nat)
      ensures id == end.id
    {
      end.id
    }
  }

  /** Every node of `g` and of its nested sub-graphs. */
  function NodesOf(g: NFAGraph): (ns: set<Node>)
    ensures g.start in ns && g.end in ns
    decreases g
  {
    {g.start, g.end} + set i, n | 0 <= i < |g.subGraphs| && n in NodesOf(g.subGraphs[i]) :: n
  }

  /** The nodes of a sub-graph are nodes of the graph holding it. */
  lemma SubGraphNodes(g: NFAGraph, i: nat)
    requires i < |g.subGraphs|
    ensures NodesOf(g.subGraphs[i]) <= NodesOf(g)
  {
  }

  /** The nodes a graph holds are allocated objects. */
  lemma {:induction false} NodesAllocated(g: NFAGraph)
    ensures forall n :: n in NodesOf(g) ==> allocated(n)
    decreases g
  {
    forall i | 0 <= i < |g.subGraphs|
      ensures forall n :: n in NodesOf(g.subGraphs[i]) ==> allocated(n)
    {
      NodesAllocated(g.subGraphs[i]);
    }
  }

  /** `NFAGraph::new`: two fresh nodes with consecutive ids, no sub-graphs. */
  method NewGraph(ids: IdSeq) returns (g: NFAGraph)
    modifies ids
    ensures fresh(g.start) && fresh(g.end)
    ensures g.start.id == old(ids.next) && g.end.id == old(ids.next) + 1
    ensures g.StartId() != g.EndId() && g.start.id < g.end.id < ids.next
    ensures g.start.edges == [] && g.end.edges == [] && g.subGraphs == []
    ensures ids.next == old(ids.next) + 2
  {
    var start := new Node(ids);
    var end := new Node(ids);
    g := NFAGraph(start, end, []);
  }

  /** `NFAGraph::from_node`: the graph between two given nodes. */
  function FromNode(start: Node, end: Node): (g: NFAGraph)
    reads start, end
    ensures g.start == start && g.end == end
    ensures g.StartId() == start.id && g.EndId() == end.id
    ensures g.subGraphs == []
  {
    NFAGraph(start, end, [])
  }
}
