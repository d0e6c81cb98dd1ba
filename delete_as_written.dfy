/**
 * `delete(filename)` exactly as module-map.js writes it: the deleted node
 * stays in the map while its children are visited, and is removed only at
 * the very end (`super.delete`). A child left without parents is deleted
 * recursively before that happens, so a cycle of imports can lead the
 * recursion back to a file whose deletion is still under way.
 *
 * The run is a ghost function with a step budget `fuel`: `OutOfFuel` means
 * the budget was spent (in JavaScript, the recursion goes on until the call
 * stack overflows), `TypeError` stands for `this.get(x)` returning
 * `undefined` for a file the map lacks.
 */
module DeletesAsWritten {
  import opened ModuleMapNodes
  import opened Graphs
  import opened Removals

  /** How a run of `delete` ends: with the map and entry files after it, by exhausting the budget, or by throwing. */
  datatype Run = Finished(g: Graph, entryFiles: set<string>) | OutOfFuel | TypeError

  /**
   * The node object `delete(f)` captured: while `f` is still in the map it is
   * the map's own (mutable) node, afterwards the last state it had.
   */
  function Live(g: Graph, f: string, node: Node): Node {
    if f in g then g[f] else node
  }

  /** `delete(f)`: when the map holds `f`, the children loop, then the parents loop, then the removal. */
  ghost function Delete(g: Graph, entryFiles: set<string>, f: string, fuel: nat): Run
    decreases fuel
  {
    if fuel == 0 then OutOfFuel
    else if f !in g then Finished(g, entryFiles)
    else ChildrenLoop(g, entryFiles, f, g[f], {}, fuel - 1)
  }

  /**
   * `node.children.forEach(...)`: each child not visited yet stops listing
   * `f` as a parent and, left with none, is deleted at once.
   */
  ghost function ChildrenLoop(g: Graph, entryFiles: set<string>, f: string, node: Node, done: set<string>, fuel: nat): Run
    decreases fuel
  {
    var node := Live(g, f, node);
    if fuel == 0 then OutOfFuel
    else if node.children - done == {} then ParentsLoop(g, entryFiles, f, node, {}, fuel - 1)
    else
      var c :| c in node.children - done;
      if c !in g then TypeError
      else
        var g1 := g[c := g[c].(parents := g[c].parents - {f})];
        if g1[c].parents != {} then ChildrenLoop(g1, entryFiles, f, node, done + {c}, fuel - 1)
        else
          match Delete(g1, entryFiles, c, fuel - 1)
          case Finished(g2, e2) => ChildrenLoop(g2, e2, f, Live(g1, f, node), done + {c}, fuel - 1)
          case OutOfFuel => OutOfFuel
          case TypeError => TypeError
  }

  /**
   * `node.parents.forEach(...)`: each parent stops listing `f` as a child;
   * then `f` leaves the entry files and the map.
   */
  ghost function ParentsLoop(g: Graph, entryFiles: set<string>, f: string, node: Node, done: set<string>, fuel: nat): Run
    decreases fuel
  {
    var node := Live(g, f, node);
    if fuel == 0 then OutOfFuel
    else if node.parents - done == {} then Finished(g - {f}, entryFiles - {f})
    else
      var p :| p in node.parents - done;
      if p !in g then TypeError
      else ParentsLoop(g[p := g[p].(children := g[p].children - {f})], entryFiles, f, node, done + {p}, fuel - 1)
  }

  /** Two files that import each other, and nothing else. */
  function TwoCycle(a: string, b: string): Graph {
    map[a := Node(a, {}, {b}, {b}), b := Node(b, {}, {a}, {a})]
  }

  /** The same two files after each has lost its parent entry: the state the recursion keeps returning to. */
  function Orphaned(a: string, b: string): Graph {
    map[a := Node(a, {}, {b}, {}), b := Node(b, {}, {a}, {})]
  }

  /** The two-file cycle is a consistent map. */
  lemma TwoCycleLinked(a: string, b: string)
    requires a != b
    ensures Keyed(TwoCycle(a, b)) && Linked(TwoCycle(a, b))
  {
  }

  /**
   * Once both files of the cycle have no parents, deleting either one never
   * finishes: each deletion starts the other's before removing anything.
   */
  lemma {:induction false} OrphanedNeverFinishes(a: string, b: string, entryFiles: set<string>, x: string, fuel: nat)
    requires a != b && (x == a || x == b)
    ensures Delete(Orphaned(a, b), entryFiles, x, fuel) == OutOfFuel
    decreases fuel
  {
    var g := Orphaned(a, b);
    var y := if x == a then b else a;
    if fuel >= 2 {
      assert g[x].children - {} == {y};
      assert g[y].(parents := g[y].parents - {x}) == g[y];
      assert g[y := g[y]] == g;
      if fuel >= 3 {
        OrphanedNeverFinishes(a, b, entryFiles, y, fuel - 2);
      }
      assert ChildrenLoop(g, entryFiles, x, g[x], {}, fuel - 1) == OutOfFuel;
    }
  }

  /**
   * Deleting a file of a two-file import cycle never finishes, whatever the
   * budget: the recursion goes on until the call stack overflows.
   */
  lemma CycleNeverFinishes(a: string, b: string, entryFiles: set<string>, fuel: nat)
    requires a != b
    ensures Delete(TwoCycle(a, b), entryFiles, a, fuel) == OutOfFuel
  {
    var g := TwoCycle(a, b);
    if fuel >= 2 {
      assert g[a].children - {} == {b};
      var g1 := g[b := g[b].(parents := g[b].parents - {a})];
      assert g[b].parents - {a} == {};
      assert g1.Keys == {a, b} && g1[a] == g[a] && g1[b] == Node(b, {}, {a}, {});
      if fuel >= 3 {
        assert g1[b].children - {} == {a};
        var g2 := g1[a := g1[a].(parents := g1[a].parents - {b})];
        assert g1[a].parents - {b} == {};
        assert g2.Keys == Orphaned(a, b).Keys && g2[a] == Orphaned(a, b)[a] && g2[b] == Orphaned(a, b)[b];
        assert g2 == Orphaned(a, b);
        if fuel >= 4 {
          OrphanedNeverFinishes(a, b, entryFiles, a, fuel - 4);
        }
        assert ChildrenLoop(g1, entryFiles, b, g1[b], {}, fuel - 3) == OutOfFuel;
        assert Delete(g1, entryFiles, b, fuel - 2) == OutOfFuel;
      }
      assert ChildrenLoop(g, entryFiles, a, g[a], {}, fuel - 1) == OutOfFuel;
    }
  }

  /**
   * The corrected deletion (`ModuleMaps.ModuleMap.Delete`, which always
   * ends) removes the whole cycle: once `a` is gone, `b` has no parent left.
   */
  lemma CycleRemovedWhole(a: string, b: string, g1: Graph)
    requires a != b && Removal(TwoCycle(a, b), g1, a, {})
    ensures g1 == map[]
  {
    var g0 := TwoCycle(a, b);
    assert a in g0 && a !in g1 && b in g0[a].children;
    assert b !in g1;
    assert g1.Keys == {};
  }

  /**
   * `p` no longer imports `c`, but `c` still lists `p` as a parent: `_populate`
   * replaces the children of a re-read file and never withdraws the parent
   * entries they held.
   */
  function StaleImporter(c: string, p: string): Graph {
    map[p := Node(p, {}, {}, {}), c := Node(c, {}, {}, {p})]
  }

  /** `c` alone, still listing the deleted `p` as a parent. */
  function StaleParent(c: string, p: string): Graph {
    map[c := Node(c, {}, {}, {p})]
  }

  /** Both maps are consistent: consistency runs from children to parents only. */
  lemma StaleLinked(c: string, p: string)
    requires c != p
    ensures Keyed(StaleImporter(c, p)) && Linked(StaleImporter(c, p))
    ensures Keyed(StaleParent(c, p)) && Linked(StaleParent(c, p))
  {
  }

  /** Deleting `p` leaves `c` listing it as a parent. */
  lemma StaleAfterDelete(c: string, p: string, entryFiles: set<string>, fuel: nat)
    requires c != p && fuel >= 3
    ensures Delete(StaleImporter(c, p), entryFiles, p, fuel) == Finished(StaleParent(c, p), entryFiles - {p})
  {
    var g := StaleImporter(c, p);
    assert g[p].children - {} == {};
    assert g[p].parents - {} == {};
    assert (g - {p}).Keys == StaleParent(c, p).Keys;
  }

  /**
   * Deleting `c` afterwards throws: the parents loop looks up `p`, which the
   * map no longer holds.
   */
  lemma StaleParentThrows(c: string, p: string, entryFiles: set<string>, fuel: nat)
    requires c != p && fuel >= 3
    ensures Delete(StaleParent(c, p), entryFiles, c, fuel) == TypeError
  {
    var g := StaleParent(c, p);
    assert g[c].children - {} == {};
    assert g[c].parents - {} == {p};
  }

  /**
   * The corrected deletion (`ModuleMaps.ModuleMap.Delete`) skips the missing
   * parent: deleting `c` from the stale map removes it and ends.
   */
  lemma StaleParentRemoved(c: string, p: string, g1: Graph)
    requires c != p && Removal(StaleParent(c, p), g1, c, {})
    ensures g1 == map[]
  {
    assert g1.Keys <= {c} && c !in g1;
    assert g1.Keys == {};
  }
}
