/**
 * The dependency graph as an arena: filename -> node record, edges being
 * sets of filenames. Definitions shared by the module map's operations.
 */
module Graphs {
  import opened ModuleMapNodes

  type Graph = map<string, Node>

  /** Every node is stored under its own filename. */
  ghost predicate Keyed(g: Graph) {
    forall k :: k in g ==> g[k].filename == k
  }

  /**
   * The graph consistency the module map can keep: every listed child is a
   * node, and lists its dependant among its parents. (Only this direction:
   * parent entries are added but never withdrawn when a file drops an import.)
   */
  ghost predicate Linked(g: Graph) {
    forall k, c :: k in g && c in g[k].children ==> c in g && k in g[c].parents
  }

  /** What the dependency extractor reports for a file; a file it knows nothing about has none. */
  function Deps(deps: map<string, set<string>>, f: string): set<string> {
    if f in deps then deps[f] else {}
  }

  /**
   * The node the map holds for `x`, or the bare node `ModuleMapNode.create(x)`
   * makes (`BareNodeIsEmpty` shows that is this record).
   */
  function NodeOrBare(g: Graph, x: string): Node {
    if x in g then g[x] else Node(x, {}, {}, {})
  }

  /** Every filename the graph or the extractor mentions. */
  ghost function Universe(g: Graph, deps: map<string, set<string>>): set<string> {
    g.Keys
    + (set k, c | k in g && c in g[k].children :: c)
    + (set k, c | k in deps && c in deps[k] :: c)
  }
}

