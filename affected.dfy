/**
 * What `findAffectedFiles` reports for a set of changed files: for each
 * changed node, the node itself, the entry files it is tagged with (and the
 * node, when it is an entry file), and every ancestor climbed from its
 * parents; and, of all those, the entry files.
 */
module AffectedFiles {
  import opened StringOrder
  import opened ModuleMapNodes
  import opened Graphs
  import opened Ancestries

  /** The two sets `findAffectedFiles` returns. */
  datatype Affected = Affected(allFiles: set<string>, entryFiles: set<string>)

  /** What reading `parents` off a missing node throws. */
  const MissingParentError := "TypeError: Cannot read property 'parents' of undefined"

  /** Where the climb for changed file `s` starts from: `s` if it is an entry file, and its entry files. */
  function Own(g: Graph, entryFiles: set<string>, s: string): set<string> {
    (if s in entryFiles then {s} else {}) + NodeOrBare(g, s).entryFiles
  }

  /** The files a change to `s` affects. */
  ghost function AffectedBy(g: Graph, entryFiles: set<string>, s: string): set<string> {
    Own(g, entryFiles, s) + Ancestors(g, Own(g, entryFiles, s), ParentsOf(g, s))
  }

  /** The files a change to any of `changed` affects. */
  ghost function AffectedUnion(g: Graph, entryFiles: set<string>, changed: set<string>): set<string> {
    set s, x | s in changed && x in AffectedBy(g, entryFiles, s) :: x
  }

  /** The `allFiles` answer: the changed files and everything they affect. */
  ghost function AllAffected(g: Graph, entryFiles: set<string>, changed: set<string>): set<string> {
    changed + AffectedUnion(g, entryFiles, changed)
  }

  /** No climb from a changed file reaches a file the map does not hold (which would throw). */
  ghost predicate ClimbsDefined(g: Graph, entryFiles: set<string>, changed: set<string>) {
    forall s :: s in changed ==> Ancestors(g, Own(g, entryFiles, s), ParentsOf(g, s)) <= g.Keys
  }

  /** Adding one changed file adds exactly what it affects. */
  lemma UnionStep(g: Graph, entryFiles: set<string>, changed: set<string>, s: string)
    ensures AffectedUnion(g, entryFiles, changed + {s}) == AffectedUnion(g, entryFiles, changed) + AffectedBy(g, entryFiles, s)
  {
    var u := AffectedUnion(g, entryFiles, changed + {s});
    forall x | x in AffectedBy(g, entryFiles, s)
      ensures x in u
    {
    }
  }

  /** One more changed file whose climb succeeded, accumulated. */
  lemma AccumulateStep(g: Graph, entryFiles: set<string>, seeds: set<string>, done: set<string>,
                       s: string, acc: set<string>, climbed: set<string>)
    requires acc == seeds + AffectedUnion(g, entryFiles, done) && ClimbsDefined(g, entryFiles, done)
    requires climbed == Own(g, entryFiles, s) + Ancestors(g, Own(g, entryFiles, s), ParentsOf(g, s))
    requires Ancestors(g, Own(g, entryFiles, s), ParentsOf(g, s)) <= g.Keys
    ensures acc + climbed == seeds + AffectedUnion(g, entryFiles, done + {s})
    ensures ClimbsDefined(g, entryFiles, done + {s})
  {
    UnionStep(g, entryFiles, done, s);
  }

  /**
   * On a consistent map whose entry files nothing imports, a change to `s`
   * affects every file that imports `s`, directly or through other files.
   */
  lemma DependantsAffected(g: Graph, entryFiles: set<string>, changed: set<string>, chain: seq<string>)
    requires Linked(g) && |chain| >= 2 && ImportChain(g, chain) && chain[|chain| - 1] in changed
    requires forall t :: t in Own(g, entryFiles, chain[|chain| - 1]) ==> ParentsOf(g, t) == {}
    ensures chain[0] in AllAffected(g, entryFiles, changed)
  {
    var s := chain[|chain| - 1];
    var own := Own(g, entryFiles, s);
    DependantsAreAncestors(g, chain);
    StopPrunesNothing(g, own, ParentsOf(g, s));
    assert chain[0] in AffectedBy(g, entryFiles, s);
  }

  /** The changed files themselves are always part of the answer. */
  lemma ChangedAreAffected(g: Graph, entryFiles: set<string>, changed: set<string>)
    ensures changed <= AllAffected(g, entryFiles, changed)
    ensures entryFiles * changed <= AllAffected(g, entryFiles, changed) * entryFiles
  {
  }

  /**
   * A changed entry file that nothing imports and that carries no entry-file
   * tags affects only itself.
   */
  lemma LoneEntryFile(g: Graph, entryFiles: set<string>, s: string)
    requires s in entryFiles && ParentsOf(g, s) == {} && NodeOrBare(g, s).entryFiles <= {s}
    ensures AllAffected(g, entryFiles, {s}) == {s}
  {
    var own := Own(g, entryFiles, s);
    assert own == {s};
    var e: set<string> := {};
    assert UpClosed(g, own, {}, e);
    AncestorsLeast(g, own, {}, e);
    UnionStep(g, entryFiles, {}, s);
    assert AffectedUnion(g, entryFiles, {}) == {};
  }

  /** `[...files].filter(file => keep.has(file))`: the items of `xs` in `keep`, in order. */
  function Filtered(xs: seq<string>, keep: set<string>): (r: seq<string>)
    ensures Elements(r) == Elements(xs) * keep
    ensures |r| <= |xs|
  {
    if xs == [] then []
    else
      var rest := Filtered(xs[1..], keep);
      assert Elements(xs) == {xs[0]} + Elements(xs[1..]) by {
        assert xs == [xs[0]] + xs[1..];
      }
      var head := if xs[0] in keep then [xs[0]] else [];
      assert Elements(head + rest) == Elements(head) + Elements(rest) by {
        forall x | x in head + rest ensures x in head || x in rest { }
      }
      head + rest
  }

  /** Filtering a concatenation filters each part. */
  lemma {:induction false} FilteredAppend(a: seq<string>, b: seq<string>, keep: set<string>)
    ensures Filtered(a + b, keep) == Filtered(a, keep) + Filtered(b, keep)
  {
    if a != [] {
      assert (a + b)[1..] == a[1..] + b;
      FilteredAppend(a[1..], b, keep);
    } else {
      assert a + b == b;
    }
  }

  /** Filtering keeps a list whose items all pass, and so filtering twice is filtering once. */
  lemma {:induction false} FilteredKeeps(xs: seq<string>, keep: set<string>)
    requires forall i :: 0 <= i < |xs| ==> xs[i] in keep
    ensures Filtered(xs, keep) == xs
  {
    if xs != [] {
      FilteredKeeps(xs[1..], keep);
      assert [xs[0]] + xs[1..] == xs;
    }
  }

  lemma {:induction false} FilteredIdempotent(xs: seq<string>, keep: set<string>)
    ensures Filtered(Filtered(xs, keep), keep) == Filtered(xs, keep)
  {
    var r := Filtered(xs, keep);
    forall i | 0 <= i < |r| ensures r[i] in keep {
      assert r[i] in Elements(r);
    }
    FilteredKeeps(r, keep);
  }

  /** `[...s]`: the members of a set, each once. */
  method Spread(s: set<string>) returns (xs: seq<string>)
    ensures Elements(xs) == s && Distinct(xs)
  {
    xs := [];
    var rest := s;
    while rest != {}
      invariant rest <= s
      invariant Elements(xs) == s - rest && Distinct(xs)
      decreases rest
    {
      var x :| x in rest;
      assert x !in Elements(xs);
      assert forall i :: 0 <= i < |xs| ==> xs[i] != x by {
        forall i | 0 <= i < |xs| ensures xs[i] != x {
          assert xs[i] in Elements(xs);
        }
      }
      assert Elements(xs + [x]) == Elements(xs) + {x} by {
        forall y | y in xs + [x] ensures y in xs || y == x { }
      }
      xs := xs + [x];
      rest := rest - {x};
    }
  }
}
