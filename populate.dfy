/**
 * What `_populate(nodes, {force})` does to the module map: a depth-first
 * walk from the seed nodes that (re)resolves children and records each
 * visited node as a parent of its children, tagging them with the entry
 * file the walk started from.
 */
module Populations {
  import opened Wrappers
  import opened ModuleMapNodes
  import opened Graphs

  /**
   * What a run depends on besides its seeds: `force`, the file-entry cache's
   * up-to-date files, the entry files, and the dependency extractor.
   */
  datatype Env = Env(force: bool, upToDate: set<string>, entryFiles: set<string>, deps: map<string, set<string>>)

  /** A stack entry: the node to visit and the entry file it was reached from, if any. */
  datatype Frame = Frame(filename: string, entry: Option<string>)

  function Names(stack: seq<Frame>): set<string> {
    set i | 0 <= i < |stack| :: stack[i].filename
  }

  function Tag(entry: Option<string>): set<string> {
    if entry.Some? then {entry.value} else {}
  }

  /** The children a visit gives `x`: freshly resolved when forced or changed on disk, otherwise those on record. */
  function Resolved(g0: Graph, env: Env, x: string): set<string> {
    if env.force || x !in env.upToDate then Deps(env.deps, x) else NodeOrBare(g0, x).children
  }

  /** `s` holds the resolved children of each of its files. */
  ghost predicate SuccClosed(g0: Graph, env: Env, s: set<string>) {
    forall x :: x in s ==> Resolved(g0, env, x) <= s
  }

  /** The seeds that are entry files: the only entry-file tags a run can add. */
  function EntrySeeds(seeds: set<string>, env: Env): set<string> {
    seeds * env.entryFiles
  }

  /**
   * `g2` is `g` after a visit to `n` that found the children `ch`: `n` gets
   * those children, and each child becomes a node (bare if it was not one)
   * that lists `n` as a parent and carries the visit's entry-file tag.
   */
  ghost predicate VisitedTo(g: Graph, g2: Graph, n: string, ch: set<string>, entry: Option<string>) {
    && g2.Keys == g.Keys + ch
    && Keyed(g2)
    && (forall x :: x in g && x !in ch && x != n ==> g2[x] == g[x])
    && (forall x, c {:trigger c in g2[x].children} :: x in g2 ==>
          (c in g2[x].children <==> if x == n then c in ch else x in g && c in g[x].children))
    && (forall x, p {:trigger p in g2[x].parents} :: x in g2 ==>
          (p in g2[x].parents <==> (x in g && p in g[x].parents) || (x in ch && p == n)))
    && (forall x, t {:trigger t in g2[x].entryFiles} :: x in g2 ==>
          (t in g2[x].entryFiles <==> (x in g && t in g[x].entryFiles) || (x in ch && t in Tag(entry))))
  }

  /**
   * `g2` is `g1` after the inner loop of a visit to `n` linked its children
   * `ch`: children lists are untouched, each child is a node that lists `n`
   * as a parent and carries the visit's entry-file tag.
   */
  ghost predicate LinkedTo(g1: Graph, g2: Graph, n: string, ch: set<string>, entry: Option<string>) {
    && g2.Keys == g1.Keys + ch
    && Keyed(g2)
    && (forall x :: x in g1 && x !in ch ==> g2[x] == g1[x])
    && (forall x, c {:trigger c in g2[x].children} :: x in g2 ==>
          (c in g2[x].children <==> x in g1 && c in g1[x].children))
    && (forall x, p {:trigger p in g2[x].parents} :: x in g2 ==>
          (p in g2[x].parents <==> (x in g1 && p in g1[x].parents) || (x in ch && p == n)))
    && (forall x, t {:trigger t in g2[x].entryFiles} :: x in g2 ==>
          (t in g2[x].entryFiles <==> (x in g1 && t in g1[x].entryFiles) || (x in ch && t in Tag(entry))))
  }

  /** Linking one more child `c`. */
  lemma LinkStep(g1: Graph, g: Graph, n: string, done: set<string>, c: string, entry: Option<string>)
    requires Keyed(g1) && LinkedTo(g1, g, n, done, entry) && c !in done
    ensures var node := NodeOrBare(g, c);
            LinkedTo(g1, g[c := node.(entryFiles := node.entryFiles + Tag(entry), parents := node.parents + {n})], n, done + {c}, entry)
  {
    var node := NodeOrBare(g, c);
    var g' := g[c := node.(entryFiles := node.entryFiles + Tag(entry), parents := node.parents + {n})];
    assert c in g1 ==> node == g1[c];
    assert c !in g1 ==> c !in g;
    LinkStepChildren(g1, g, n, done, c, entry, g');
    LinkStepTags(g1, g, n, done, c, entry, g');
  }

  lemma LinkStepChildren(g1: Graph, g: Graph, n: string, done: set<string>, c: string, entry: Option<string>, g': Graph)
    requires LinkedTo(g1, g, n, done, entry) && c !in done
    requires c in g1 ==> NodeOrBare(g, c) == g1[c]
    requires c !in g1 ==> c !in g
    requires var node := NodeOrBare(g, c);
             g' == g[c := node.(entryFiles := node.entryFiles + Tag(entry), parents := node.parents + {n})]
    ensures forall x :: x in g1 && x !in done + {c} ==> g'[x] == g1[x]
    ensures forall x, ch {:trigger ch in g'[x].children} :: x in g' ==>
              (ch in g'[x].children <==> x in g1 && ch in g1[x].children)
    ensures forall x, p {:trigger p in g'[x].parents} :: x in g' ==>
              (p in g'[x].parents <==> (x in g1 && p in g1[x].parents) || (x in done + {c} && p == n))
  {
    forall x, ch | x in g'
      ensures ch in g'[x].children <==> x in g1 && ch in g1[x].children
    {
      if x != c {
        assert g'[x] == g[x];
      }
    }
    forall x, p | x in g'
      ensures p in g'[x].parents <==> (x in g1 && p in g1[x].parents) || (x in done + {c} && p == n)
    {
      if x != c {
        assert g'[x] == g[x];
      }
    }
  }

  lemma LinkStepTags(g1: Graph, g: Graph, n: string, done: set<string>, c: string, entry: Option<string>, g': Graph)
    requires LinkedTo(g1, g, n, done, entry) && c !in done
    requires c in g1 ==> NodeOrBare(g, c) == g1[c]
    requires c !in g1 ==> c !in g
    requires var node := NodeOrBare(g, c);
             g' == g[c := node.(entryFiles := node.entryFiles + Tag(entry), parents := node.parents + {n})]
    ensures forall x, t {:trigger t in g'[x].entryFiles} :: x in g' ==>
              (t in g'[x].entryFiles <==> (x in g1 && t in g1[x].entryFiles) || (x in done + {c} && t in Tag(entry)))
  {
    forall x, t | x in g'
      ensures t in g'[x].entryFiles <==> (x in g1 && t in g1[x].entryFiles) || (x in done + {c} && t in Tag(entry))
    {
      if x != c {
        assert g'[x] == g[x];
      }
    }
  }

  /**
   * The inner loop of a visit so far, on the stack and the seen set: `base`
   * is the stack it started from and `seen0` the seen set, and the children
   * `done` are handled.
   */
  ghost predicate Pending(base: seq<Frame>, stack: seq<Frame>, seen0: set<string>, seen: set<string>,
                          done: set<string>, entry: Option<string>) {
    && |base| <= |stack| && stack == base + stack[|base|..]
    && seen == seen0 + done
    && Pushed(stack[|base|..], done, seen0, entry)
  }

  /** Handling one more child: pushed, and marked seen, when not seen yet. */
  lemma PendingStep(base: seq<Frame>, stack: seq<Frame>, seen0: set<string>, seen: set<string>,
                    done: set<string>, c: string, entry: Option<string>)
    requires Pending(base, stack, seen0, seen, done, entry) && c !in done
    ensures c !in seen ==> Pending(base, stack + [Frame(c, entry)], seen0, seen + {c}, done + {c}, entry)
    ensures c in seen ==> Pending(base, stack, seen0, seen, done + {c}, entry)
  {
    var pushed := stack[|base|..];
    if c !in seen {
      var s' := stack + [Frame(c, entry)];
      assert s'[|base|..] == pushed + [Frame(c, entry)];
      assert s' == base + s'[|base|..];
      NamesAppend(pushed, Frame(c, entry));
      var p' := pushed + [Frame(c, entry)];
      forall i | 0 <= i < |p'|
        ensures p'[i].entry == entry && p'[i].filename in done + {c} - seen0
      {
        if i < |pushed| {
          assert p'[i] == pushed[i];
        }
      }
    }
  }

  /** Setting the visited node's children, then linking them, is a visit. */
  lemma LinkedVisited(g: Graph, g1: Graph, g2: Graph, n: string, ch: set<string>, entry: Option<string>)
    requires n in g && g1 == g[n := g[n].(children := ch)]
    requires LinkedTo(g1, g2, n, ch, entry)
    ensures VisitedTo(g, g2, n, ch, entry)
  {
    forall x | x in g && x !in ch && x != n
      ensures g2[x] == g[x]
    {
      assert g1[x] == g[x];
    }
  }

  lemma NamesAppend(stack: seq<Frame>, f: Frame)
    ensures Names(stack + [f]) == Names(stack) + {f.filename}
  {
    forall x | x in Names(stack + [f])
      ensures x in Names(stack) + {f.filename}
    {
      var i :| 0 <= i < |stack + [f]| && (stack + [f])[i].filename == x;
      if i < |stack| {
        assert (stack + [f])[i] == stack[i];
      }
    }
    forall x | x in Names(stack)
      ensures x in Names(stack + [f])
    {
      var i :| 0 <= i < |stack| && stack[i].filename == x;
      assert (stack + [f])[i] == stack[i];
    }
    assert (stack + [f])[|stack|] == f;
  }

  /** Growing `s` inside `u` shrinks what is left of `u`: the measure of the walk. */
  lemma Narrowed<T>(u: set<T>, s0: set<T>, s1: set<T>)
    requires s0 <= s1 <= u
    ensures s1 == s0 ==> u - s1 == u - s0
    ensures s1 != s0 ==> u - s1 < u - s0
  {
    if s1 != s0 {
      var x :| x in s1 && x !in s0;
      assert x in u - s0;
    }
  }

  lemma {:induction false} SubsetCard<T>(a: set<T>, b: set<T>)
    requires a <= b
    ensures |a| <= |b|
    decreases b
  {
    if a != {} {
      var x :| x in a;
      SubsetCard(a - {x}, b - {x});
    }
  }

  // ---- The outcome of a run ----

  /** The visited files are the seeds and what their resolved children reach, and nothing more. */
  ghost predicate Reached(g0: Graph, env: Env, seeds: set<string>, visited: set<string>) {
    && seeds <= visited
    && SuccClosed(g0, env, visited)
    && (forall s :: seeds <= s && SuccClosed(g0, env, s) ==> visited <= s)
  }

  /** A file's parents are those it had plus every visited file that now lists it as a child. */
  ghost predicate ParentsAdded(g0: Graph, g: Graph, visited: set<string>) {
    forall x, p {:trigger p in g[x].parents} :: x in g ==>
      (p in g[x].parents <==> p in NodeOrBare(g0, x).parents || (p in visited && p in g && x in g[p].children))
  }

  /** Entry-file tags are never dropped, and only entry seeds are added. */
  ghost predicate TagsBounded(g0: Graph, g: Graph, tags: set<string>) {
    forall x :: x in g ==>
      NodeOrBare(g0, x).entryFiles <= g[x].entryFiles <= NodeOrBare(g0, x).entryFiles + tags
  }

  /**
   * `g` is `g0` after a run that visited `visited`: the visited files are
   * nodes with their resolved children, every other node is untouched.
   */
  ghost predicate Repopulated(g0: Graph, g: Graph, env: Env, seeds: set<string>, visited: set<string>) {
    && g.Keys == g0.Keys + visited
    && (forall x :: x in g && x !in visited ==> x in g0 && g[x] == g0[x])
    && (forall x :: x in visited ==> x in g && g[x].children == Resolved(g0, env, x))
    && ParentsAdded(g0, g, visited)
    && TagsBounded(g0, g, EntrySeeds(seeds, env))
  }

  /** Seeded with a single entry file, a run tags every other file it visits with it. */
  ghost predicate SingleEntryTagged(g: Graph, env: Env, seeds: set<string>, visited: set<string>) {
    forall t :: t in seeds && |seeds| == 1 && t in env.entryFiles ==>
      forall x :: x in visited && x in g && x != t ==> t in g[x].entryFiles
  }

  // ---- The loop invariant of `_populate`, clause by clause ----

  /** Which files are nodes, seen, visited or waiting on the stack. */
  ghost predicate Frontier(g0: Graph, g: Graph, env: Env, seeds: set<string>, stack: seq<Frame>, seen: set<string>, visited: set<string>) {
    && seeds <= g0.Keys
    && g.Keys == g0.Keys + seen
    && visited <= seen
    && seen - visited <= Names(stack)
    && seeds <= visited + Names(stack)
    && Names(stack) <= seeds + seen
    && seen <= Universe(g0, env.deps)
  }

  /** The shape of the map so far. */
  ghost predicate Progress(g0: Graph, g: Graph, env: Env, seen: set<string>, visited: set<string>) {
    && Keyed(g)
    && Untouched(g0, g, seen)
    && ChildrenSoFar(g0, g, env, visited)
    && ParentsAdded(g0, g, visited)
    && (forall x :: x in visited ==> Resolved(g0, env, x) <= seen)
  }

  /** Files not seen yet are as they were. */
  ghost predicate Untouched(g0: Graph, g: Graph, seen: set<string>) {
    forall x :: x in g && x !in seen ==> x in g0 && g[x] == g0[x]
  }

  /** Visited files have their resolved children, the others those they had. */
  ghost predicate ChildrenSoFar(g0: Graph, g: Graph, env: Env, visited: set<string>) {
    forall x :: x in g ==> g[x].children == if x in visited then Resolved(g0, env, x) else NodeOrBare(g0, x).children
  }

  /** The entry-file tags so far, and those the stack still carries. */
  ghost predicate Tagging(g0: Graph, g: Graph, env: Env, seeds: set<string>, stack: seq<Frame>, seen: set<string>) {
    && TagsBounded(g0, g, EntrySeeds(seeds, env))
    && (forall i :: 0 <= i < |stack| ==> Tag(stack[i].entry) <= EntrySeeds(seeds, env))
    && (forall t :: t in seeds && |seeds| == 1 && t in env.entryFiles ==>
          (forall i :: 0 <= i < |stack| ==> stack[i].entry == Some(t)) &&
          (forall x :: x in seen && x in g && x != t ==> t in g[x].entryFiles))
  }

  /** Nothing is seen that every closed superset of the seeds does not hold. */
  ghost predicate Bounded(g0: Graph, env: Env, seeds: set<string>, seen: set<string>) {
    forall s :: seeds <= s && SuccClosed(g0, env, s) ==> seen <= s
  }

  ghost predicate PopulateInv(g0: Graph, g: Graph, env: Env, seeds: set<string>, stack: seq<Frame>, seen: set<string>, visited: set<string>) {
    && Frontier(g0, g, env, seeds, stack, seen, visited)
    && Progress(g0, g, env, seen, visited)
    && Tagging(g0, g, env, seeds, stack, seen)
    && Bounded(g0, env, seeds, seen)
  }

  /** The initial stack: one frame per seed, carrying the seed itself when it is an entry file. */
  ghost predicate SeedFrames(stack: seq<Frame>, seeds: set<string>, entryFiles: set<string>) {
    && Names(stack) == seeds
    && forall i :: 0 <= i < |stack| ==>
         stack[i].entry == if stack[i].filename in entryFiles then Some(stack[i].filename) else None
  }

  /** The frames a visit pushes: unseen children, carrying the visit's entry file. */
  ghost predicate Pushed(pushed: seq<Frame>, ch: set<string>, seen: set<string>, entry: Option<string>) {
    && ch - seen <= Names(pushed)
    && forall i :: 0 <= i < |pushed| ==> pushed[i].entry == entry && pushed[i].filename in ch - seen
  }

  lemma Singleton(s: set<string>, t: string)
    requires t in s && |s| == 1
    ensures s == {t}
  {
    assert |s - {t}| == 0;
  }

  lemma ResolvedInUniverse(g0: Graph, env: Env, x: string)
    ensures Resolved(g0, env, x) <= Universe(g0, env.deps)
  {
    forall c | c in Resolved(g0, env, x)
      ensures c in Universe(g0, env.deps)
    {
      if env.force || x !in env.upToDate {
        assert x in env.deps && c in env.deps[x];
      } else {
        assert x in g0 && c in g0[x].children;
      }
    }
  }

  lemma NamesSplit(stack: seq<Frame>, pushed: seq<Frame>)
    requires stack != []
    ensures Names(stack) == Names(stack[..|stack| - 1]) + {stack[|stack| - 1].filename}
    ensures Names(stack[..|stack| - 1] + pushed) == Names(stack[..|stack| - 1]) + Names(pushed)
  {
    var rest := stack[..|stack| - 1];
    forall x | x in Names(stack)
      ensures x in Names(rest) + {stack[|stack| - 1].filename}
    {
      var i :| 0 <= i < |stack| && stack[i].filename == x;
      if i < |stack| - 1 {
        assert rest[i] == stack[i];
      }
    }
    forall x | x in Names(rest)
      ensures x in Names(stack)
    {
      var i :| 0 <= i < |rest| && rest[i].filename == x;
      assert stack[i] == rest[i];
    }
    forall x | x in Names(rest + pushed)
      ensures x in Names(rest) + Names(pushed)
    {
      var i :| 0 <= i < |rest + pushed| && (rest + pushed)[i].filename == x;
      if i < |rest| {
        assert (rest + pushed)[i] == rest[i];
      } else {
        assert (rest + pushed)[i] == pushed[i - |rest|];
      }
    }
    forall x | x in Names(rest) + Names(pushed)
      ensures x in Names(rest + pushed)
    {
      if x in Names(rest) {
        var i :| 0 <= i < |rest| && rest[i].filename == x;
        assert (rest + pushed)[i] == rest[i];
      } else {
        var i :| 0 <= i < |pushed| && pushed[i].filename == x;
        assert (rest + pushed)[|rest| + i] == pushed[i];
      }
    }
  }

  lemma PopulateInvInit(g0: Graph, env: Env, seeds: set<string>, stack: seq<Frame>)
    requires Keyed(g0) && seeds <= g0.Keys
    requires SeedFrames(stack, seeds, env.entryFiles)
    ensures PopulateInv(g0, g0, env, seeds, stack, {}, {})
  {
    assert Frontier(g0, g0, env, seeds, stack, {}, {});
    assert ParentsAdded(g0, g0, {});
    assert Progress(g0, g0, env, {}, {});
    forall i | 0 <= i < |stack|
      ensures Tag(stack[i].entry) <= EntrySeeds(seeds, env)
    {
      assert stack[i].filename in Names(stack);
    }
    forall t | t in seeds && |seeds| == 1 && t in env.entryFiles
      ensures forall i :: 0 <= i < |stack| ==> stack[i].entry == Some(t)
    {
      forall i | 0 <= i < |stack|
        ensures stack[i].entry == Some(t)
      {
        assert stack[i].filename in Names(stack);
        Singleton(seeds, t);
      }
    }
    assert Tagging(g0, g0, env, seeds, stack, {});
  }

  // One visit: pop `n`, give it its resolved children `ch`, link them, push the unseen ones.

  lemma StepFrontier(g0: Graph, g: Graph, env: Env, seeds: set<string>, stack: seq<Frame>, seen: set<string>, visited: set<string>,
                     g2: Graph, pushed: seq<Frame>)
    requires Frontier(g0, g, env, seeds, stack, seen, visited) && stack != []
    requires Pushed(pushed, Resolved(g0, env, stack[|stack| - 1].filename), seen + {stack[|stack| - 1].filename}, stack[|stack| - 1].entry)
    requires g2.Keys == g.Keys + Resolved(g0, env, stack[|stack| - 1].filename)
    ensures var n := stack[|stack| - 1].filename;
            Frontier(g0, g2, env, seeds, stack[..|stack| - 1] + pushed, seen + {n} + Resolved(g0, env, n), visited + {n})
  {
    var n := stack[|stack| - 1].filename;
    var ch := Resolved(g0, env, n);
    NamesSplit(stack, pushed);
    ResolvedInUniverse(g0, env, n);
    forall x | x in (seen + {n} + ch) - (visited + {n})
      ensures x in Names(stack[..|stack| - 1] + pushed)
    {
      if x !in seen + {n} {
        assert x in Names(pushed);
      } else {
        assert x in Names(stack) && x != n;
      }
    }
  }

  lemma StepParents(g0: Graph, g: Graph, visited: set<string>, n: string, ch: set<string>, g2: Graph)
    requires ParentsAdded(g0, g, visited)
    requires g0.Keys <= g.Keys && n in g && visited <= g.Keys
    requires n in visited ==> g[n].children == ch
    requires forall v :: v in visited ==> g[v].children <= g.Keys
    requires g2.Keys == g.Keys + ch
    requires forall x, c {:trigger c in g2[x].children} :: x in g2 ==>
      (c in g2[x].children <==> if x == n then c in ch else x in g && c in g[x].children)
    requires forall x, p {:trigger p in g2[x].parents} :: x in g2 ==>
      (p in g2[x].parents <==> (x in g && p in g[x].parents) || (x in ch && p == n))
    ensures ParentsAdded(g0, g2, visited + {n})
  {
    forall x, p | x in g2
      ensures p in g2[x].parents <==> p in NodeOrBare(g0, x).parents || (p in visited + {n} && p in g2 && x in g2[p].children)
    {
      assert p in g2[x].parents <==> (x in g && p in g[x].parents) || (x in ch && p == n);
      if p == n {
        assert x in g2[n].children <==> x in ch;
      } else if p in g2 {
        assert x in g2[p].children <==> p in g && x in g[p].children;
      }
      if x in g {
        assert p in g[x].parents <==> p in NodeOrBare(g0, x).parents || (p in visited && p in g && x in g[p].children);
      } else {
        assert x !in g0;
        assert p !in NodeOrBare(g0, x).parents;
        if p in visited && p != n {
          assert x !in g[p].children;
        }
      }
    }
  }

  lemma StepChildren(g0: Graph, g: Graph, env: Env, seen: set<string>, visited: set<string>, n: string, g2: Graph, entry: Option<string>)
    requires ChildrenSoFar(g0, g, env, visited) && Untouched(g0, g, seen)
    requires g.Keys == g0.Keys + seen && visited <= seen && n in g
    requires VisitedTo(g, g2, n, Resolved(g0, env, n), entry)
    ensures ChildrenSoFar(g0, g2, env, visited + {n})
    ensures Untouched(g0, g2, seen + {n} + Resolved(g0, env, n))
  {
    forall x | x in g2
      ensures g2[x].children == if x in visited + {n} then Resolved(g0, env, x) else NodeOrBare(g0, x).children
    {
      var want := if x == n then Resolved(g0, env, n) else if x in g then g[x].children else {};
      forall c
        ensures c in g2[x].children <==> c in want
      {
      }
      if x !in g {
        assert x !in g0 && x != n;
      }
    }
  }

  lemma StepProgress(g0: Graph, g: Graph, env: Env, seen: set<string>, visited: set<string>, n: string, g2: Graph, entry: Option<string>)
    requires Progress(g0, g, env, seen, visited)
    requires g.Keys == g0.Keys + seen && visited <= seen && n in g
    requires VisitedTo(g, g2, n, Resolved(g0, env, n), entry)
    ensures Progress(g0, g2, env, seen + {n} + Resolved(g0, env, n), visited + {n})
  {
    var ch := Resolved(g0, env, n);
    forall x | x in visited
      ensures x in g && g[x].children == Resolved(g0, env, x) && g[x].children <= g.Keys
    {
    }
    StepParents(g0, g, visited, n, ch, g2);
    StepChildren(g0, g, env, seen, visited, n, g2, entry);
  }

  lemma StepTagging(g0: Graph, g: Graph, env: Env, seeds: set<string>, stack: seq<Frame>, seen: set<string>, pushed: seq<Frame>, g2: Graph)
    requires Tagging(g0, g, env, seeds, stack, seen) && stack != []
    requires VisitedTo(g, g2, stack[|stack| - 1].filename, Resolved(g0, env, stack[|stack| - 1].filename), stack[|stack| - 1].entry)
    requires Keyed(g) && g.Keys == g0.Keys + seen && Names(stack) <= seeds + seen && stack[|stack| - 1].filename in g
    requires Pushed(pushed, Resolved(g0, env, stack[|stack| - 1].filename), seen + {stack[|stack| - 1].filename}, stack[|stack| - 1].entry)
    ensures var n := stack[|stack| - 1].filename;
            var ch := Resolved(g0, env, n);
            Tagging(g0, g2, env, seeds, stack[..|stack| - 1] + pushed, seen + {n} + ch)
  {
    var top := stack[|stack| - 1];
    var n := top.filename;
    var ch := Resolved(g0, env, n);
    var stack2 := stack[..|stack| - 1] + pushed;
    assert Tag(top.entry) <= EntrySeeds(seeds, env);
    StepStackTags(stack, pushed, stack2, top.entry, EntrySeeds(seeds, env));
    StepTagsBounded(g0, g, g2, n, ch, top.entry, EntrySeeds(seeds, env));
    StepSingleTagging(g, g2, n, ch, seen, seeds, env.entryFiles, stack, pushed, stack2);
  }

  /** The single-entry-seed clause of `Tagging` survives one visit. */
  lemma StepSingleTagging(g: Graph, g2: Graph, n: string, ch: set<string>, seen: set<string>, seeds: set<string>,
                          entryFiles: set<string>, stack: seq<Frame>, pushed: seq<Frame>, stack2: seq<Frame>)
    requires stack != [] && stack[|stack| - 1].filename == n && n in g
    requires stack2 == stack[..|stack| - 1] + pushed
    requires forall i :: 0 <= i < |pushed| ==> pushed[i].entry == stack[|stack| - 1].entry
    requires VisitedTo(g, g2, n, ch, stack[|stack| - 1].entry)
    requires Names(stack) <= seeds + seen
    requires forall t :: t in seeds && |seeds| == 1 && t in entryFiles ==>
      (forall i :: 0 <= i < |stack| ==> stack[i].entry == Some(t)) &&
      (forall x :: x in seen && x in g && x != t ==> t in g[x].entryFiles)
    ensures forall t :: t in seeds && |seeds| == 1 && t in entryFiles ==>
      (forall i :: 0 <= i < |stack2| ==> stack2[i].entry == Some(t)) &&
      (forall x :: x in seen + {n} + ch && x in g2 && x != t ==> t in g2[x].entryFiles)
  {
    var top := stack[|stack| - 1];
    forall t | t in seeds && |seeds| == 1 && t in entryFiles
      ensures forall i :: 0 <= i < |stack2| ==> stack2[i].entry == Some(t)
      ensures forall x :: x in seen + {n} + ch && x in g2 && x != t ==> t in g2[x].entryFiles
    {
      assert n in Names(stack);
      Singleton(seeds, t);
      StepStackTags(stack, pushed, stack2, top.entry, {t});
      StepSingleEntry(g, g2, n, ch, seen, t);
    }
  }

  /** Frames whose tags stay within `tags` keep doing so when the top is replaced by the pushed frames. */
  lemma StepStackTags(stack: seq<Frame>, pushed: seq<Frame>, stack2: seq<Frame>, entry: Option<string>, tags: set<string>)
    requires stack != [] && stack[|stack| - 1].entry == entry && Tag(entry) <= tags
    requires stack2 == stack[..|stack| - 1] + pushed
    requires forall i :: 0 <= i < |stack| ==> Tag(stack[i].entry) <= tags
    requires forall i :: 0 <= i < |pushed| ==> pushed[i].entry == entry
    ensures forall i :: 0 <= i < |stack2| ==> Tag(stack2[i].entry) <= tags
    ensures (forall i :: 0 <= i < |stack| ==> stack[i].entry == entry) ==>
            forall i :: 0 <= i < |stack2| ==> stack2[i].entry == entry
  {
    forall i | 0 <= i < |stack2|
      ensures stack2[i] == if i < |stack| - 1 then stack[i] else pushed[i - (|stack| - 1)]
    {
    }
  }

  /** With a single entry seed `t` on every frame, a visit keeps every seen file but `t` tagged with `t`. */
  lemma StepSingleEntry(g: Graph, g2: Graph, n: string, ch: set<string>, seen: set<string>, t: string)
    requires VisitedTo(g, g2, n, ch, Some(t))
    requires forall x :: x in seen && x in g && x != t ==> t in g[x].entryFiles
    requires n in g && (n != t ==> n in seen)
    ensures forall x :: x in seen + {n} + ch && x in g2 && x != t ==> t in g2[x].entryFiles
  {
    forall x | x in seen + {n} + ch && x in g2 && x != t
      ensures t in g2[x].entryFiles
    {
      if x !in ch {
        assert x in g;
      }
    }
  }

  /** A visit adds only its own tag, to the children it links. */
  lemma StepTagsBounded(g0: Graph, g: Graph, g2: Graph, n: string, ch: set<string>, entry: Option<string>, tags: set<string>)
    requires TagsBounded(g0, g, tags) && Tag(entry) <= tags && g0.Keys <= g.Keys
    requires VisitedTo(g, g2, n, ch, entry)
    ensures TagsBounded(g0, g2, tags)
  {
    forall x | x in g2
      ensures NodeOrBare(g0, x).entryFiles <= g2[x].entryFiles <= NodeOrBare(g0, x).entryFiles + tags
    {
      if x !in g {
        assert x !in g0;
      }
    }
  }


  lemma StepBounded(g0: Graph, env: Env, seeds: set<string>, seen: set<string>, n: string)
    requires Bounded(g0, env, seeds, seen) && n in seeds + seen
    ensures Bounded(g0, env, seeds, seen + {n} + Resolved(g0, env, n))
  {
  }

  /** The invariant survives one visit. */
  lemma PopulateInvStep(g0: Graph, g: Graph, env: Env, seeds: set<string>, stack: seq<Frame>, seen: set<string>, visited: set<string>,
                        pushed: seq<Frame>, g2: Graph, stack2: seq<Frame>, seen2: set<string>, visited2: set<string>)
    requires PopulateInv(g0, g, env, seeds, stack, seen, visited) && stack != []
    requires VisitedTo(g, g2, stack[|stack| - 1].filename, Resolved(g0, env, stack[|stack| - 1].filename), stack[|stack| - 1].entry)
    requires Pushed(pushed, Resolved(g0, env, stack[|stack| - 1].filename), seen + {stack[|stack| - 1].filename}, stack[|stack| - 1].entry)
    requires stack2 == stack[..|stack| - 1] + pushed
    requires seen2 == seen + {stack[|stack| - 1].filename} + Resolved(g0, env, stack[|stack| - 1].filename)
    requires visited2 == visited + {stack[|stack| - 1].filename}
    ensures PopulateInv(g0, g2, env, seeds, stack2, seen2, visited2)
  {
    var top := stack[|stack| - 1];
    var n := top.filename;
    var ch := Resolved(g0, env, n);
    NamesSplit(stack, pushed);
    assert n in g;
    StepFrontier(g0, g, env, seeds, stack, seen, visited, g2, pushed);
    StepProgress(g0, g, env, seen, visited, n, g2, top.entry);
    StepTagging(g0, g, env, seeds, stack, seen, pushed, g2);
    StepBounded(g0, env, seeds, seen, n);
  }

  /** A visit that sees nothing new pushes nothing: the stack shrinks. */
  lemma StepShrinks(pushed: seq<Frame>, ch: set<string>, seen: set<string>, n: string, entry: Option<string>)
    requires Pushed(pushed, ch, seen + {n}, entry)
    ensures pushed != [] ==> seen + {n} + ch != seen
  {
    if pushed != [] {
      assert pushed[0].filename in ch - (seen + {n});
    }
  }

  /** Once the stack is empty, the run's outcome is established. */
  lemma PopulateInvDone(g0: Graph, g: Graph, env: Env, seeds: set<string>, seen: set<string>, visited: set<string>)
    requires PopulateInv(g0, g, env, seeds, [], seen, visited)
    ensures seen == visited
    ensures Repopulated(g0, g, env, seeds, visited)
    ensures Reached(g0, env, seeds, visited)
    ensures SingleEntryTagged(g, env, seeds, visited)
  {
    assert Names([]) == {};
  }

  // ---- Consistency after a run ----

  /** The nodes outside `s` are consistent: their children are nodes listing them as parents. */
  ghost predicate LinkedOutside(g: Graph, s: set<string>) {
    forall k, c :: k in g && k !in s && c in g[k].children ==> c in g && k in g[c].parents
  }

  /**
   * A run leaves the map consistent provided the nodes it did not visit were:
   * in particular it keeps a consistent map consistent, and a run that visits
   * every node (a forced run from every file) makes any map consistent.
   */
  lemma RepopulatedLinked(g0: Graph, g: Graph, env: Env, seeds: set<string>, visited: set<string>)
    requires Repopulated(g0, g, env, seeds, visited) && SuccClosed(g0, env, visited)
    requires LinkedOutside(g0, visited)
    ensures Linked(g)
  {
    VisitsLinked(g0, g, env, visited);
  }

  lemma VisitsLinked(g0: Graph, g: Graph, env: Env, visited: set<string>)
    requires g.Keys == g0.Keys + visited
    requires forall x :: x in g && x !in visited ==> x in g0 && g[x] == g0[x]
    requires forall x :: x in visited ==> x in g && g[x].children == Resolved(g0, env, x)
    requires ParentsAdded(g0, g, visited) && SuccClosed(g0, env, visited)
    requires LinkedOutside(g0, visited)
    ensures Linked(g)
  {
    forall k, c | k in g && c in g[k].children
      ensures c in g && k in g[c].parents
    {
      if k in visited {
        assert c in Resolved(g0, env, k);
        assert c in visited;
      } else {
        assert g[k] == g0[k];
        assert c in g0 && k in g0[c].parents;
        assert k in NodeOrBare(g0, c).parents;
      }
    }
  }

  /** A run from no seeds visits nothing and changes nothing. */
  lemma NoRun(g: Graph, env: Env)
    ensures Repopulated(g, g, env, {}, {}) && Reached(g, env, {}, {}) && SingleEntryTagged(g, env, {}, {})
  {
    assert ParentsAdded(g, g, {});
  }

  /** A run keeps a consistent map consistent. */
  lemma LinkedKept(g0: Graph, g: Graph, env: Env, seeds: set<string>, visited: set<string>)
    requires Repopulated(g0, g, env, seeds, visited) && Reached(g0, env, seeds, visited) && Linked(g0)
    ensures Linked(g)
  {
    LinkedAnywhere(g0, visited);
    RepopulatedLinked(g0, g, env, seeds, visited);
  }

  lemma LinkedAnywhere(g: Graph, s: set<string>)
    requires Linked(g)
    ensures LinkedOutside(g, s)
  {
  }
}
