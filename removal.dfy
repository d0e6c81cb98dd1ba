/**
 * What `delete(filename)` does to the graph, as a relation between the graph
 * before (`g0`) and after (`g1`): the removed files are `g0.Keys - g1.Keys`.
 */
module Removals {
  import opened ModuleMapNodes
  import opened Graphs

  /** Nothing is added, `root` is gone, and survivors keep their filename and entry files. */
  ghost predicate Shrunk(g0: Graph, g1: Graph, root: string) {
    && g1.Keys <= g0.Keys
    && root in g0 && root !in g1
    && (forall x :: x in g1 ==> g1[x].filename == g0[x].filename && g1[x].entryFiles == g0[x].entryFiles)
  }

  /** A survivor loses exactly the children that were removed and listed it as a parent. */
  ghost predicate ChildrenCut(g0: Graph, g1: Graph) {
    forall x, c {:trigger c in g1[x].children} {:trigger c in g0[x].children} :: x in g1 && x in g0 ==>
      (c in g1[x].children <==> c in g0[x].children && !(c in g0 && c !in g1 && x in g0[c].parents))
  }

  /**
   * A survivor loses exactly the parents that were removed and listed it as a
   * child, except `root` while the survivor is still pending.
   */
  ghost predicate ParentsCut(g0: Graph, g1: Graph, root: string, pend: set<string>) {
    forall x, p {:trigger p in g1[x].parents} {:trigger p in g0[x].parents} :: x in g1 && x in g0 ==>
      (p in g1[x].parents <==>
         p in g0[x].parents && !(p in g0 && p !in g1 && x in g0[p].children && !(p == root && x in pend)))
  }

  /** A child of a removed file survives only while it still has a parent. */
  ghost predicate OrphansPruned(g0: Graph, g1: Graph, root: string, pend: set<string>) {
    forall r, c :: r in g0 && r !in g1 && c in g0[r].children && c in g1 && !(r == root && c in pend) ==>
      g1[c].parents != {}
  }

  /** Every removed file other than `root` was a child of a removed file. */
  ghost predicate Cascaded(g0: Graph, g1: Graph, root: string) {
    forall r :: r in g0 && r !in g1 && r != root ==>
      exists q :: q in g0 && q !in g1 && r in g0[q].children
  }

  /**
   * `g1` is `g0` after deleting `root` and cascading. `pend` holds the
   * children of `root` whose parent entry for `root` has not been withdrawn
   * yet (empty once the deletion is finished).
   */
  ghost predicate Removal(g0: Graph, g1: Graph, root: string, pend: set<string>) {
    && Shrunk(g0, g1, root)
    && ChildrenCut(g0, g1)
    && ParentsCut(g0, g1, root, pend)
    && OrphansPruned(g0, g1, root, pend)
    && Cascaded(g0, g1, root)
  }

  /**
   * Every listed parent of `c` is in `s` and lists `c` as a child: withdrawing
   * the files of `s` would leave `c` with no parent.
   */
  ghost predicate LosesAllParents(g0: Graph, s: set<string>, c: string) {
    c in g0 && forall p :: p in g0[c].parents ==> p in s && p in g0 && c in g0[p].children
  }

  /** `s` holds `root` and every child of a member of `s` that the members of `s` orphan. */
  ghost predicate CascadeClosed(g0: Graph, s: set<string>, root: string) {
    && root in s
    && forall q, c :: q in s && q in g0 && c in g0[q].children && LosesAllParents(g0, s, c) ==> c in s
  }

  /**
   * Only what must go is removed: the removed files lie within every set
   * closed under the cascade from `root`, so a file keeping a parent outside
   * the cascade (or one missing from the map) survives.
   */
  ghost predicate Minimal(g0: Graph, g1: Graph, root: string) {
    forall s :: CascadeClosed(g0, s, root) ==> g0.Keys - g1.Keys <= s
  }

  /** The graph after the first step of deleting `root`: the node is gone and its parents no longer list it. */
  lemma RemovalStart(g0: Graph, g1: Graph, root: string)
    requires root in g0
    requires g1.Keys == g0.Keys - {root}
    requires forall x :: x in g1 ==> g1[x] == g0[x].(children := g0[x].children - (if x in g0[root].parents then {root} else {}))
    ensures Removal(g0, g1, root, g0[root].children)
  {
  }

  /** Withdrawing `root` from the parents of a pending child that keeps other parents. */
  lemma RemovalCut(g0: Graph, g1: Graph, g2: Graph, root: string, pend: set<string>, c: string)
    requires Removal(g0, g1, root, pend) && pend <= g0[root].children
    requires c in pend && c in g1
    requires g2 == g1[c := g1[c].(parents := g1[c].parents - {root})]
    requires g2[c].parents != {}
    ensures Removal(g0, g2, root, pend - {c})
  {
    assert g2.Keys == g1.Keys;
    forall x, p | x in g2
      ensures p in g2[x].parents <==>
             p in g0[x].parents && !(p in g0 && p !in g2 && x in g0[p].children && !(p == root && x in pend - {c}))
    {
      if x == c {
        assert p == root ==> root in g0 && root !in g2 && c in g0[root].children;
      }
    }
  }

  /** Removing `root` alone is minimal. */
  lemma MinimalStart(g0: Graph, g1: Graph, root: string)
    requires g1.Keys == g0.Keys - {root}
    ensures Minimal(g0, g1, root)
  {
    forall s | CascadeClosed(g0, s, root)
      ensures g0.Keys - g1.Keys <= s
    {
      assert g0.Keys - g1.Keys <= {root};
    }
  }

  /** Changing a node without removing any keeps the removal minimal. */
  lemma MinimalKept(g0: Graph, g1: Graph, g2: Graph, root: string)
    requires Minimal(g0, g1, root) && g2.Keys == g1.Keys
    ensures Minimal(g0, g2, root)
  {
    forall s | CascadeClosed(g0, s, root)
      ensures g0.Keys - g2.Keys <= s
    {
      assert g0.Keys - g2.Keys == g0.Keys - g1.Keys;
    }
  }

  /**
   * The cascade step keeps the removal minimal: a child orphaned by the
   * withdrawal of `root` lies in every closed set, and every such set is
   * closed for the child's own deletion in the intermediate graph `g2`.
   */
  lemma MinimalCascade(g0: Graph, g1: Graph, g2: Graph, g3: Graph, root: string, pend: set<string>, c: string)
    requires Shrunk(g0, g1, root) && ChildrenCut(g0, g1) && ParentsCut(g0, g1, root, pend) && Minimal(g0, g1, root)
    requires pend <= g0[root].children && c in pend && c in g1
    requires g2 == g1[c := g1[c].(parents := g1[c].parents - {root})] && g2[c].parents == {}
    requires g3.Keys <= g2.Keys && Minimal(g2, g3, c)
    ensures Minimal(g0, g3, root)
  {
    forall s | CascadeClosed(g0, s, root)
      ensures g0.Keys - g3.Keys <= s
    {
      assert g0.Keys - g1.Keys <= s;
      OrphanInClosed(g0, g1, root, pend, c, s);
      ClosedForChild(g0, g1, g2, root, pend, c, s);
      assert g2.Keys - g3.Keys <= s;
      assert g0.Keys - g3.Keys <= (g0.Keys - g1.Keys) + (g2.Keys - g3.Keys);
    }
  }

  /** The child orphaned by withdrawing `root` belongs to every closed set. */
  lemma OrphanInClosed(g0: Graph, g1: Graph, root: string, pend: set<string>, c: string, s: set<string>)
    requires Shrunk(g0, g1, root) && ParentsCut(g0, g1, root, pend)
    requires pend <= g0[root].children && c in pend && c in g1 && g1[c].parents <= {root}
    requires CascadeClosed(g0, s, root) && g0.Keys - g1.Keys <= s
    ensures c in s
  {
    forall p | p in g0[c].parents
      ensures p in s && p in g0 && c in g0[p].children
    {
      if p !in g1[c].parents {
        assert p in g0 && p !in g1;
      }
    }
    assert LosesAllParents(g0, s, c);
  }

  /** A set closed for deleting `root` from `g0` is closed for deleting the orphaned `c` from `g2`. */
  lemma ClosedForChild(g0: Graph, g1: Graph, g2: Graph, root: string, pend: set<string>, c: string, s: set<string>)
    requires Shrunk(g0, g1, root) && ChildrenCut(g0, g1) && ParentsCut(g0, g1, root, pend)
    requires pend <= g0[root].children && c in pend && c in g1
    requires g2 == g1[c := g1[c].(parents := g1[c].parents - {root})]
    requires CascadeClosed(g0, s, root) && g0.Keys - g1.Keys <= s && c in s
    ensures CascadeClosed(g2, s, c)
  {
    forall q, ch | q in s && q in g2 && ch in g2[q].children && LosesAllParents(g2, s, ch)
      ensures ch in s
    {
      assert ch in g1[q].children;
      forall p | p in g0[ch].parents
        ensures p in s && p in g0 && ch in g0[p].children
      {
        if p in g1[ch].parents {
          if ch == c && p == root {
          } else {
            assert p in g2[ch].parents;
            assert ch in g2[p].children;
          }
        }
      }
      assert LosesAllParents(g0, s, ch);
    }
  }

  // The cascade step, one clause of the relation at a time.

  lemma CascadeShrunk(g0: Graph, g1: Graph, g2: Graph, g3: Graph, root: string, c: string)
    requires Shrunk(g0, g1, root) && c in g1
    requires g2 == g1[c := g1[c].(parents := g1[c].parents - {root})]
    requires Shrunk(g2, g3, c)
    ensures Shrunk(g0, g3, root)
  {
  }

  lemma CascadeChildren(g0: Graph, g1: Graph, g2: Graph, g3: Graph, root: string, pend: set<string>, c: string)
    requires Shrunk(g0, g1, root) && ChildrenCut(g0, g1) && ParentsCut(g0, g1, root, pend) && c in g1
    requires g2 == g1[c := g1[c].(parents := g1[c].parents - {root})]
    requires Shrunk(g2, g3, c) && ChildrenCut(g2, g3)
    ensures ChildrenCut(g0, g3)
  {
    forall x, ch | x in g3
      ensures ch in g3[x].children <==> ch in g0[x].children && !(ch in g0 && ch !in g3 && x in g0[ch].parents)
    {
      assert x in g1 && x != root;
      if ch in g2 && ch !in g3 {
        assert x in g2[ch].parents <==> x in g1[ch].parents;
        assert x in g1[ch].parents <==> x in g0[ch].parents;
      }
    }
  }

  lemma CascadeParents(g0: Graph, g1: Graph, g2: Graph, g3: Graph, root: string, pend: set<string>, c: string)
    requires Shrunk(g0, g1, root) && ChildrenCut(g0, g1) && ParentsCut(g0, g1, root, pend) && c in g1
    requires g2 == g1[c := g1[c].(parents := g1[c].parents - {root})]
    requires Shrunk(g2, g3, c) && ParentsCut(g2, g3, c, {})
    ensures ParentsCut(g0, g3, root, pend - {c})
  {
    forall x, p | x in g3
      ensures p in g3[x].parents <==>
             p in g0[x].parents && !(p in g0 && p !in g3 && x in g0[p].children && !(p == root && x in pend - {c}))
    {
      assert x != c && x in g1;
      assert g2[x] == g1[x];
      if p in g2 && p !in g3 {
        assert x in g2[p].children <==> x in g0[p].children;
      }
    }
  }

  lemma CascadeOrphans(g0: Graph, g1: Graph, g2: Graph, g3: Graph, root: string, pend: set<string>, c: string)
    requires Shrunk(g0, g1, root) && ChildrenCut(g0, g1) && OrphansPruned(g0, g1, root, pend) && c in g1
    requires g2 == g1[c := g1[c].(parents := g1[c].parents - {root})]
    requires Shrunk(g2, g3, c) && ParentsCut(g2, g3, c, {}) && OrphansPruned(g2, g3, c, {})
    ensures OrphansPruned(g0, g3, root, pend - {c})
  {
    forall r, ch | r in g0 && r !in g3 && ch in g0[r].children && ch in g3 && !(r == root && ch in pend - {c})
      ensures g3[ch].parents != {}
    {
      assert ch != c && ch in g1;
      if r in g2 {
        assert ch in g2[r].children;
      } else {
        assert g2[ch] == g1[ch];
        assert g1[ch].parents != {};
        var p :| p in g2[ch].parents;
        if p !in g3[ch].parents {
          assert p in g2 && p !in g3 && ch in g2[p].children;
        }
      }
    }
  }

  lemma CascadeRooted(g0: Graph, g1: Graph, g2: Graph, g3: Graph, root: string, pend: set<string>, c: string)
    requires Shrunk(g0, g1, root) && ChildrenCut(g0, g1) && Cascaded(g0, g1, root)
    requires pend <= g0[root].children && c in pend && c in g1
    requires g2 == g1[c := g1[c].(parents := g1[c].parents - {root})]
    requires Shrunk(g2, g3, c) && ChildrenCut(g2, g3) && Cascaded(g2, g3, c)
    ensures Cascaded(g0, g3, root)
  {
    forall r | r in g0 && r !in g3 && r != root
      ensures exists q :: q in g0 && q !in g3 && r in g0[q].children
    {
      if r == c {
        assert root in g0 && root !in g3 && r in g0[root].children;
      } else if r in g2 {
        var q :| q in g2 && q !in g3 && r in g2[q].children;
        assert r in g0[q].children;
      } else {
        var q :| q in g0 && q !in g1 && r in g0[q].children;
        assert q !in g3;
      }
    }
  }

  /**
   * Withdrawing `root` from a pending child left it without parents, and the
   * child was then deleted in turn (`g3`): together, still a deletion of `root`.
   */
  lemma RemovalCascade(g0: Graph, g1: Graph, g2: Graph, g3: Graph, root: string, pend: set<string>, c: string)
    requires Removal(g0, g1, root, pend) && pend <= g0[root].children
    requires c in pend && c in g1
    requires g2 == g1[c := g1[c].(parents := g1[c].parents - {root})]
    requires Removal(g2, g3, c, {})
    ensures Removal(g0, g3, root, pend - {c})
  {
    CascadeShrunk(g0, g1, g2, g3, root, c);
    CascadeChildren(g0, g1, g2, g3, root, pend, c);
    CascadeParents(g0, g1, g2, g3, root, pend, c);
    CascadeOrphans(g0, g1, g2, g3, root, pend, c);
    CascadeRooted(g0, g1, g2, g3, root, pend, c);
  }

  /** One turn of the children loop whose child is deleted in turn: both relations carry over. */
  lemma DetachCascade(g0: Graph, g1: Graph, g2: Graph, g3: Graph, root: string, pend: set<string>, c: string)
    requires Removal(g0, g1, root, pend) && Minimal(g0, g1, root) && pend <= g0[root].children
    requires c in pend && c in g1
    requires g2 == g1[c := g1[c].(parents := g1[c].parents - {root})] && g2[c].parents == {}
    requires Removal(g2, g3, c, {}) && Minimal(g2, g3, c)
    ensures Removal(g0, g3, root, pend - {c}) && Minimal(g0, g3, root)
    ensures g0.Keys - g3.Keys == (g0.Keys - g1.Keys) + (g2.Keys - g3.Keys)
  {
    RemovalCascade(g0, g1, g2, g3, root, pend, c);
    MinimalCascade(g0, g1, g2, g3, root, pend, c);
  }

  /** One turn of the children loop whose child keeps a parent: both relations carry over. */
  lemma DetachCut(g0: Graph, g1: Graph, g2: Graph, root: string, pend: set<string>, c: string)
    requires Removal(g0, g1, root, pend) && Minimal(g0, g1, root) && pend <= g0[root].children
    requires c in pend && c in g1
    requires g2 == g1[c := g1[c].(parents := g1[c].parents - {root})] && g2[c].parents != {}
    ensures Removal(g0, g2, root, pend - {c}) && Minimal(g0, g2, root)
    ensures g2.Keys == g1.Keys
  {
    RemovalCut(g0, g1, g2, root, pend, c);
    MinimalKept(g0, g1, g2, root);
  }

  /** The files a finished deletion removed form a closed set. */
  lemma RemovedClosed(g0: Graph, g1: Graph, root: string)
    requires Shrunk(g0, g1, root) && ParentsCut(g0, g1, root, {}) && OrphansPruned(g0, g1, root, {})
    ensures CascadeClosed(g0, g0.Keys - g1.Keys, root)
  {
    var s := g0.Keys - g1.Keys;
    forall q, c | q in s && q in g0 && c in g0[q].children && LosesAllParents(g0, s, c)
      ensures c in s
    {
    }
  }

  /**
   * A finished, minimal deletion is determined by the graph and the file:
   * the relation leaves an implementation no choice.
   */
  lemma {:induction false} RemovalDetermined(g0: Graph, g1: Graph, g2: Graph, root: string)
    requires Removal(g0, g1, root, {}) && Minimal(g0, g1, root)
    requires Removal(g0, g2, root, {}) && Minimal(g0, g2, root)
    ensures g1 == g2
  {
    RemovedClosed(g0, g1, root);
    RemovedClosed(g0, g2, root);
    assert g0.Keys - g1.Keys <= g0.Keys - g2.Keys;
    assert g0.Keys - g2.Keys <= g0.Keys - g1.Keys;
    assert g1.Keys == g2.Keys;
    forall x | x in g1
      ensures g1[x] == g2[x]
    {
      assert g1[x].children == g2[x].children;
      assert g1[x].parents == g2[x].parents;
    }
  }

  /**
   * On a consistent graph, a finished deletion keeps it consistent, and every
   * survivor's children are its old children minus the removed files: no
   * remaining node still lists a deleted file as a dependency.
   */
  lemma RemovalKeepsLinked(g0: Graph, g1: Graph, root: string)
    requires Linked(g0) && Shrunk(g0, g1, root) && ChildrenCut(g0, g1) && ParentsCut(g0, g1, root, {})
    ensures Linked(g1)
    ensures forall x :: x in g1 ==> g1[x].children == g0[x].children - (g0.Keys - g1.Keys)
  {
    forall k, c | k in g1 && c in g1[k].children
      ensures c in g1 && k in g1[c].parents
    {
      assert k in g0;
      assert c in g0[k].children;
      assert k in g0[c].parents;
    }
    forall x | x in g1
      ensures g1[x].children == g0[x].children - (g0.Keys - g1.Keys)
    {
      assert x in g0;
      forall c | c in g0[x].children && c in g0 && c !in g1
        ensures c !in g1[x].children
      {
        assert x in g0;
        assert x in g0[c].parents;
      }
    }
  }
}
