/**
 * What the ancestor walk of `findAffectedFiles` computes for one changed
 * node: starting from the node's parents, every file reachable by following
 * `parents` links, where a file already counted as affected (`stop`) is
 * not climbed past.
 */
module Ancestries {
  import opened ModuleMapNodes
  import opened Graphs

  /** The parents the walk pushes for `x`; a file the map does not hold has none to give. */
  function ParentsOf(g: Graph, x: string): set<string> {
    if x in g then g[x].parents else {}
  }

  /** Every file some node lists as a parent. */
  ghost function ListedParents(g: Graph): set<string> {
    set k, p | k in g && p in g[k].parents :: p
  }

  /** `path` climbs from one of `start` through parent links, never onto a file of `stop`. */
  ghost predicate Climb(g: Graph, stop: set<string>, start: set<string>, path: seq<string>) {
    && path != []
    && path[0] in start
    && (forall i :: 0 <= i < |path| ==> path[i] !in stop)
    && (forall i :: 0 < i < |path| ==> path[i] in ParentsOf(g, path[i - 1]))
  }

  /** The files the walk adds: those some climb ends at. */
  ghost function Ancestors(g: Graph, stop: set<string>, start: set<string>): set<string> {
    set x | x in start + ListedParents(g) && x !in stop &&
            exists path :: Climb(g, stop, start, path) && path[|path| - 1] == x
  }

  /** `e` holds the start and the parents of each of its files, except files of `stop`. */
  ghost predicate UpClosed(g: Graph, stop: set<string>, start: set<string>, e: set<string>) {
    && (forall p :: p in start && p !in stop ==> p in e)
    && (forall x, p :: x in e && p in ParentsOf(g, x) && p !in stop ==> p in e)
  }

  /** The ancestors are closed, and avoid `stop`. */
  lemma AncestorsClosed(g: Graph, stop: set<string>, start: set<string>)
    ensures UpClosed(g, stop, start, Ancestors(g, stop, start))
    ensures Ancestors(g, stop, start) * stop == {}
  {
    var a := Ancestors(g, stop, start);
    forall p | p in start && p !in stop
      ensures p in a
    {
      assert Climb(g, stop, start, [p]);
    }
    forall x, p | x in a && p in ParentsOf(g, x) && p !in stop
      ensures p in a
    {
      ClimbExtend(g, stop, start, x, p);
    }
  }

  /** A climb to an ancestor extends to any of its parents outside `stop`. */
  lemma ClimbExtend(g: Graph, stop: set<string>, start: set<string>, x: string, p: string)
    requires x in Ancestors(g, stop, start) && p in ParentsOf(g, x) && p !in stop
    ensures p in Ancestors(g, stop, start)
  {
    var path :| Climb(g, stop, start, path) && path[|path| - 1] == x;
    var path' := path + [p];
    assert path'[|path'| - 1] == p;
    assert Climb(g, stop, start, path');
    assert x in g && p in g[x].parents;
  }

  /** Every file on a climb lies in any closed set. */
  lemma {:induction false} ClimbInside(g: Graph, stop: set<string>, start: set<string>, e: set<string>, path: seq<string>)
    requires UpClosed(g, stop, start, e) && Climb(g, stop, start, path)
    ensures path[|path| - 1] in e
    decreases |path|
  {
    if |path| > 1 {
      var prefix := path[..|path| - 1];
      assert Climb(g, stop, start, prefix);
      ClimbInside(g, stop, start, e, prefix);
      assert path[|path| - 1] in ParentsOf(g, prefix[|prefix| - 1]);
    }
  }

  /** The ancestors are the least closed set: any closed set contains them. */
  lemma AncestorsLeast(g: Graph, stop: set<string>, start: set<string>, e: set<string>)
    requires UpClosed(g, stop, start, e)
    ensures Ancestors(g, stop, start) <= e
  {
    forall x | x in Ancestors(g, stop, start)
      ensures x in e
    {
      var path :| Climb(g, stop, start, path) && path[|path| - 1] == x;
      ClimbInside(g, stop, start, e, path);
    }
  }

  /** So a closed set within the ancestors, avoiding `stop`, is exactly the ancestors. */
  lemma AncestorsUnique(g: Graph, stop: set<string>, start: set<string>, e: set<string>)
    requires UpClosed(g, stop, start, e) && e <= Ancestors(g, stop, start)
    ensures e == Ancestors(g, stop, start)
  {
    AncestorsLeast(g, stop, start, e);
  }

  /** `chain` goes down import edges: each file lists the next among its children. */
  ghost predicate ImportChain(g: Graph, chain: seq<string>) {
    forall i :: 0 <= i < |chain| - 1 ==> chain[i] in g && chain[i + 1] in g[chain[i]].children
  }

  /**
   * On a consistent map, every file that imports `s`, directly or through
   * other files, is reached by climbing from the parents of `s`.
   */
  lemma {:induction false} DependantsAreAncestors(g: Graph, chain: seq<string>)
    requires Linked(g) && |chain| >= 2 && ImportChain(g, chain)
    ensures chain[0] in Ancestors(g, {}, ParentsOf(g, chain[|chain| - 1]))
    decreases |chain|
  {
    var s := chain[|chain| - 1];
    var x := chain[0];
    assert x in g && chain[1] in g[x].children;
    if |chain| == 2 {
      assert x in ParentsOf(g, s);
      assert Climb(g, {}, ParentsOf(g, s), [x]);
    } else {
      var rest := chain[1..];
      assert ImportChain(g, rest) by {
        forall i | 0 <= i < |rest| - 1 ensures rest[i] in g && rest[i + 1] in g[rest[i]].children {
          assert rest[i] == chain[i + 1] && rest[i + 1] == chain[i + 2];
        }
      }
      DependantsAreAncestors(g, rest);
      var path :| Climb(g, {}, ParentsOf(g, s), path) && path[|path| - 1] == chain[1];
      var path' := path + [x];
      assert x in ParentsOf(g, chain[1]);
      assert Climb(g, {}, ParentsOf(g, s), path');
      assert path'[|path'| - 1] == x;
      assert x in ListedParents(g);
    }
  }

  /**
   * Not climbing past the files of `stop` loses nothing when those files
   * have no parents (test files that nothing imports): the walk then finds
   * every ancestor.
   */
  lemma StopPrunesNothing(g: Graph, stop: set<string>, start: set<string>)
    requires forall t :: t in stop ==> ParentsOf(g, t) == {}
    ensures stop + Ancestors(g, stop, start) == stop + Ancestors(g, {}, start)
  {
    AncestorsClosed(g, stop, start);
    AncestorsClosed(g, {}, start);
    var a := Ancestors(g, stop, start);
    var full := Ancestors(g, {}, start);
    // Climbing freely stays within `stop` plus the pruned ancestors: a climb
    // reaching a file of `stop` can go no further.
    assert UpClosed(g, {}, start, stop + a);
    AncestorsLeast(g, {}, start, stop + a);
    // Every pruned climb is a free one.
    forall x | x in a
      ensures x in full
    {
      var path :| Climb(g, stop, start, path) && path[|path| - 1] == x;
      assert Climb(g, {}, start, path);
    }
  }

  // ---- The loop invariant of the climb, and its steps ----

  /**
   * The climb so far: `affected` is `stop` plus ancestors the map holds;
   * the stack holds only files of `stop` or ancestors; and every start file
   * and every parent of an added file is added or still on the stack.
   */
  ghost predicate ClimbInv(g: Graph, stop: set<string>, start: set<string>, affected: set<string>, stack: seq<string>) {
    && stop <= affected
    && affected - stop <= Ancestors(g, stop, start)
    && affected - stop <= g.Keys
    && (forall i :: 0 <= i < |stack| ==> stack[i] in stop || stack[i] in Ancestors(g, stop, start))
    && (forall p :: p in start ==> p in affected || p in stack)
    && (forall x, p :: x in affected - stop && p in ParentsOf(g, x) ==> p in affected || p in stack)
  }

  lemma ClimbInvInit(g: Graph, stop: set<string>, start: set<string>, stack: seq<string>)
    requires forall p :: p in stack <==> p in start
    ensures ClimbInv(g, stop, start, stop, stack)
  {
    AncestorsClosed(g, stop, start);
    forall i | 0 <= i < |stack|
      ensures stack[i] in stop || stack[i] in Ancestors(g, stop, start)
    {
      assert stack[i] in start;
    }
  }

  /** Popping a file already affected. */
  lemma ClimbPopSeen(g: Graph, stop: set<string>, start: set<string>, affected: set<string>, rest: seq<string>, p: string)
    requires ClimbInv(g, stop, start, affected, rest + [p]) && p in affected
    ensures ClimbInv(g, stop, start, affected, rest)
  {
    var stack := rest + [p];
    forall i | 0 <= i < |rest|
      ensures rest[i] in stop || rest[i] in Ancestors(g, stop, start)
    {
      assert rest[i] == stack[i];
    }
    forall q | q in stack
      ensures q in rest || q == p
    {
      var k :| 0 <= k < |stack| && stack[k] == q;
      if k < |rest| {
        assert rest[k] == q;
      }
    }
  }

  /** Popping a new file the map holds: it is an ancestor, and its parents are pushed. */
  lemma ClimbPopNew(g: Graph, stop: set<string>, start: set<string>, affected: set<string>, rest: seq<string>, p: string, parents: seq<string>)
    requires ClimbInv(g, stop, start, affected, rest + [p]) && p !in affected && p in g
    requires forall q :: q in parents <==> q in g[p].parents
    ensures p in Ancestors(g, stop, start) && p !in stop
    ensures ClimbInv(g, stop, start, affected + {p}, rest + parents)
  {
    var stack := rest + [p];
    var anc := Ancestors(g, stop, start);
    assert stack[|rest|] == p;
    AncestorsClosed(g, stop, start);
    var stack' := rest + parents;
    forall i | 0 <= i < |stack'|
      ensures stack'[i] in stop || stack'[i] in anc
    {
      if i < |rest| {
        assert stack'[i] == stack[i];
      } else {
        assert stack'[i] == parents[i - |rest|];
        assert stack'[i] in ParentsOf(g, p);
      }
    }
    forall q | q in stack
      ensures q in stack' || q == p
    {
      var k :| 0 <= k < |stack| && stack[k] == q;
      if k < |rest| {
        assert stack'[k] == q;
      }
    }
    forall q | q in ParentsOf(g, p)
      ensures q in stack'
    {
      var k :| 0 <= k < |parents| && parents[k] == q;
      assert stack'[|rest| + k] == q;
    }
  }

  /** Popping a new file the map lacks: an ancestor is missing from the map. */
  lemma ClimbPopMissing(g: Graph, stop: set<string>, start: set<string>, affected: set<string>, rest: seq<string>, p: string)
    requires ClimbInv(g, stop, start, affected, rest + [p]) && p !in affected && p !in g
    ensures !(Ancestors(g, stop, start) <= g.Keys)
  {
    var stack := rest + [p];
    assert stack[|rest|] == p;
  }

  /** An empty stack: the affected set is `stop` plus every ancestor. */
  lemma ClimbDone(g: Graph, stop: set<string>, start: set<string>, affected: set<string>)
    requires ClimbInv(g, stop, start, affected, [])
    ensures affected == stop + Ancestors(g, stop, start)
    ensures Ancestors(g, stop, start) <= g.Keys
  {
    assert UpClosed(g, stop, start, affected - stop);
    AncestorsUnique(g, stop, start, affected - stop);
  }
}
