/** A graph as the analytics code receives it: nodes below n and a list of directed edges, some of which may name no node. */
module Graphs {
  datatype Graph = Graph(n: nat, edges: seq<(nat, nat)>)

  predicate ValidEdge(n: nat, e: (nat, nat)) { e.0 < n && e.1 < n }
}
