/**
 * The module map of watch mode: every known file, what it imports
 * (children), what imports it (parents) and which test files reach it
 * (entry files), plus the two on-disk caches it reconciles with.
 */
module ModuleMaps {
  import opened Wrappers
  import opened StringOrder
  import opened ModuleMapNodes
  import opened Graphs
  import opened Removals
  import opened Populations
  import opened Ancestries
  import opened AffectedFiles

  /** What `_init` throws when called a second time. */
  const AlreadyInitialized := "already initialized"

  /** The map with a bare node added for every entry file it lacks. */
  function WithEntryFiles(g: Graph, entryFiles: set<string>): Graph {
    g + map e | e in entryFiles && e !in g :: Node(e, {}, {}, {})
  }

  /**
   * The nodes `findAffectedFiles` starts from: the files given, or when none
   * are given the files changed since the file-entry cache last recorded them
   * (after dropping the entries of `marked`); in either case only files the
   * map holds.
   */
  function ChangedSeeds(g: Graph, upToDate: set<string>, files: set<string>, marked: set<string>): set<string> {
    (if files == {} then g.Keys - (upToDate - marked) else files) * g.Keys
  }

  lemma EmptyUnion(g: Graph)
    ensures map[] + g == g
  {
    assert (map[] + g).Keys == g.Keys;
  }

  class ModuleMap {
    /** The map itself: filename -> node. */
    var nodes: Graph
    /** Test files, as absolute paths. */
    var entryFiles: set<string>
    /** File-entry cache: the files whose recorded entry is up to date with the disk. */
    var upToDate: set<string>
    /** Module-map cache: the node records last persisted (read back on start-up). */
    var cache: Graph
    var initialized: bool

    ghost predicate Valid()
      reads this
    {
      Keyed(nodes) && Keyed(cache)
    }

    /**
     * `new ModuleMap({entryFiles, reset})` over the caches found on disk
     * (`cache`, `upToDate`): initialises at once. Every entry file then has a
     * node, every node is up to date, and after a reset the map is consistent.
     */
    constructor (entryFiles: set<string>, cache: Graph, upToDate: set<string>, reset: bool, deps: map<string, set<string>>)
      requires Keyed(cache)
      ensures Valid() && initialized && this.entryFiles == entryFiles
      ensures entryFiles <= nodes.Keys <= this.upToDate
      ensures reset ==> Linked(nodes) && this.upToDate == nodes.Keys && this.cache == nodes
      ensures var c0 := if reset then map[] else cache;
        var u0 := if reset then {} else upToDate;
        var g0 := WithEntryFiles(c0, entryFiles);
        && (exists visited :: Repopulated(g0, nodes, Env(true, u0, entryFiles, deps), g0.Keys - u0, visited)
                           && Reached(g0, Env(true, u0, entryFiles, deps), g0.Keys - u0, visited))
        && this.cache == c0 + nodes
        && this.upToDate == u0 + nodes.Keys
    {
      this.nodes := map[];
      this.entryFiles := entryFiles;
      this.upToDate := upToDate;
      this.cache := cache;
      this.initialized := false;
      new;
      var r;
      ghost var visited;
      r, visited := Init(reset, deps);
      if reset {
        EmptyUnion(nodes);
      }
    }

    /**
     * `delete(filename)`: removes the file and withdraws every reference to it;
     * a child left with no parent is deleted in turn. Returns whether the file
     * was in the map.
     */
    method Delete(f: string) returns (existed: bool)
      requires Valid()
      modifies this`nodes, this`entryFiles
      ensures Valid()
      ensures existed <==> f in old(nodes)
      ensures !existed ==> nodes == old(nodes) && entryFiles == old(entryFiles)
      ensures existed ==> Removal(old(nodes), nodes, f, {})
      ensures existed ==> Minimal(old(nodes), nodes, f)
      ensures entryFiles == old(entryFiles) - (old(nodes).Keys - nodes.Keys)
      decreases nodes.Keys, 0
    {
      if f !in nodes {
        return false;
      }
      ghost var g0, e0 := nodes, entryFiles;
      var node := nodes[f];
      nodes := nodes - {f};
      entryFiles := entryFiles - {f};
      ForgetChild(f, node.parents);
      RemovalStart(g0, nodes, f);
      MinimalStart(g0, nodes, f);
      assert g0.Keys - nodes.Keys == {f};
      var pend := node.children;
      while pend != {}
        invariant Valid()
        invariant pend <= g0[f].children
        invariant Removal(g0, nodes, f, pend)
        invariant Minimal(g0, nodes, f)
        invariant entryFiles == e0 - (g0.Keys - nodes.Keys)
        decreases pend
      {
        var c :| c in pend;
        assert f in g0.Keys - nodes.Keys;
        DetachChild(f, c, g0, e0, pend);
        pend := pend - {c};
      }
      return true;
    }

    /**
     * One turn of the children loop of `delete(f)`: the child `c` stops
     * listing `f` as a parent and, if that leaves it with none, is deleted.
     */
    method DetachChild(f: string, c: string, ghost g0: Graph, ghost e0: set<string>, ghost pend: set<string>)
      requires Valid()
      requires Removal(g0, nodes, f, pend) && Minimal(g0, nodes, f)
      requires pend <= g0[f].children && c in pend
      requires entryFiles == e0 - (g0.Keys - nodes.Keys)
      modifies this`nodes, this`entryFiles
      ensures Valid()
      ensures Removal(g0, nodes, f, pend - {c})
      ensures Minimal(g0, nodes, f)
      ensures entryFiles == e0 - (g0.Keys - nodes.Keys)
      decreases nodes.Keys, 1
    {
      if c in nodes {
        ghost var g1 := nodes;
        nodes := nodes[c := nodes[c].(parents := nodes[c].parents - {f})];
        if nodes[c].parents == {} {
          ghost var g2 := nodes;
          var _ := Delete(c);
          DetachCascade(g0, g1, g2, nodes, f, pend, c);
        } else {
          DetachCut(g0, g1, nodes, f, pend, c);
        }
      }
    }

    /**
     * `_populate(seeds, {force})`: a depth-first walk from the seeds. A node
     * whose file changed on disk (or every node, when forced) gets its children
     * from the dependency extractor `deps`; each child becomes a node listing
     * the visited node as a parent, and is tagged with the entry file the walk
     * came from. Returns (as a proof device) the set of visited files.
     */
    method Populate(seeds: set<string>, force: bool, deps: map<string, set<string>>) returns (ghost visited: set<string>)
      requires Valid() && seeds <= nodes.Keys
      modifies this`nodes
      ensures Valid()
      ensures Repopulated(old(nodes), nodes, Env(force, upToDate, entryFiles, deps), seeds, visited)
      ensures Reached(old(nodes), Env(force, upToDate, entryFiles, deps), seeds, visited)
      ensures SingleEntryTagged(nodes, Env(force, upToDate, entryFiles, deps), seeds, visited)
    {
      ghost var g0 := nodes;
      ghost var env := Env(force, upToDate, entryFiles, deps);
      var stack := SeedStack(seeds);
      PopulateInvInit(g0, env, seeds, stack);
      var seen;
      seen, visited := Walk(stack, {}, {}, force, deps, g0, seeds);
      PopulateInvDone(g0, nodes, env, seeds, seen, visited);
    }

    /** The first loop of `_populate`: one frame per seed, carrying the seed itself when it is an entry file. */
    method SeedStack(seeds: set<string>) returns (stack: seq<Frame>)
      ensures SeedFrames(stack, seeds, entryFiles)
    {
      stack := [];
      var rest := seeds;
      while rest != {}
        invariant rest <= seeds
        invariant Names(stack) == seeds - rest
        invariant forall i :: 0 <= i < |stack| ==>
          stack[i].entry == if stack[i].filename in entryFiles then Some(stack[i].filename) else None
        decreases rest
      {
        var s :| s in rest;
        rest := rest - {s};
        NamesAppend(stack, Frame(s, if s in entryFiles then Some(s) else None));
        stack := stack + [Frame(s, if s in entryFiles then Some(s) else None)];
      }
    }

    /** The main loop of `_populate`: visit the top frame until the stack is empty. */
    method Walk(stack: seq<Frame>, seen: set<string>, ghost visited: set<string>, force: bool,
                deps: map<string, set<string>>, ghost g0: Graph, ghost seeds: set<string>)
      returns (seen': set<string>, ghost visited': set<string>)
      requires Valid()
      requires PopulateInv(g0, nodes, Env(force, upToDate, entryFiles, deps), seeds, stack, seen, visited)
      modifies this`nodes
      ensures Valid()
      ensures PopulateInv(g0, nodes, Env(force, upToDate, entryFiles, deps), seeds, [], seen', visited')
    {
      ghost var env := Env(force, upToDate, entryFiles, deps);
      ghost var universe := Universe(g0, deps);
      var stack' := stack;
      seen', visited' := seen, visited;
      while stack' != []
        invariant Valid()
        invariant PopulateInv(g0, nodes, env, seeds, stack', seen', visited')
        decreases universe - seen', |stack'|
      {
        ghost var seen0 := seen';
        stack', seen', visited' := VisitTop(stack', seen', visited', force, deps, env, g0, seeds);
        Narrowed(universe, seen0, seen');
      }
    }

    /**
     * One turn of the main loop of `_populate`: pop a frame, give its node its
     * children (resolved afresh when forced or changed on disk), link them.
     */
    method VisitTop(stack: seq<Frame>, seen: set<string>, ghost visited: set<string>, force: bool,
                    deps: map<string, set<string>>, ghost env: Env, ghost g0: Graph, ghost seeds: set<string>)
      returns (stack': seq<Frame>, seen': set<string>, ghost visited': set<string>)
      requires Valid() && stack != [] && env == Env(force, upToDate, entryFiles, deps)
      requires PopulateInv(g0, nodes, env, seeds, stack, seen, visited)
      modifies this`nodes
      ensures Valid()
      ensures PopulateInv(g0, nodes, env, seeds, stack', seen', visited')
      ensures seen <= seen'
      ensures seen' == seen ==> |stack'| < |stack|
    {
      ghost var g := nodes;
      var top := stack[|stack| - 1];
      var rest := stack[..|stack| - 1];
      var n := top.filename;
      assert n in Names(stack);
      var children := Resolve(n, force, deps, g0, visited);
      ghost var g1 := nodes;
      stack', seen' := LinkChildren(n, children, top.entry, rest, seen + {n});
      visited' := visited + {n};
      LinkedVisited(g, g1, nodes, n, children, top.entry);
      ghost var pushed := stack'[|rest|..];
      assert stack' == rest + pushed;
      assert seen' == seen + {n} + children;
      PopulateInvStep(g0, g, env, seeds, stack, seen, visited, pushed, nodes, stack', seen', visited');
      StepShrinks(pushed, children, seen, n, top.entry);
    }

    /**
     * The children a visit gives node `n`: those the extractor `deps` reports
     * when forced or when the file changed on disk, else the ones it has.
     */
    method Resolve(n: string, force: bool, deps: map<string, set<string>>, ghost g0: Graph, ghost visited: set<string>)
      returns (children: set<string>)
      requires Valid() && n in nodes && ChildrenSoFar(g0, nodes, Env(force, upToDate, entryFiles, deps), visited)
      modifies this`nodes
      ensures Valid()
      ensures children == Resolved(g0, Env(force, upToDate, entryFiles, deps), n)
      ensures nodes == old(nodes)[n := old(nodes)[n].(children := children)]
    {
      if force || n !in upToDate {
        children := Deps(deps, n);
        nodes := nodes[n := nodes[n].(children := children)];
      } else {
        children := nodes[n].children;
        assert nodes == nodes[n := nodes[n].(children := children)];
      }
    }

    /**
     * The inner loop of `_populate` for the visited node `n` and its children
     * `ch`: each child becomes a node (bare if new) tagged with `entry` and
     * listing `n` as a parent; unseen children are pushed and marked seen.
     */
    method LinkChildren(n: string, ch: set<string>, entry: Option<string>, stack: seq<Frame>, seen: set<string>)
      returns (stack': seq<Frame>, seen': set<string>)
      requires Valid() && n in nodes
      modifies this`nodes
      ensures Valid()
      ensures LinkedTo(old(nodes), nodes, n, ch, entry)
      ensures Pending(stack, stack', seen, seen', ch, entry)
    {
      var todo := ch;
      stack', seen' := stack, seen;
      assert stack'[|stack|..] == [];
      while todo != {}
        invariant todo <= ch
        invariant Valid()
        invariant LinkedTo(old(nodes), nodes, n, ch - todo, entry)
        invariant Pending(stack, stack', seen, seen', ch - todo, entry)
        decreases todo
      {
        var c :| c in todo;
        ghost var done := ch - todo;
        todo := todo - {c};
        assert done + {c} == ch - todo;
        stack', seen' := LinkChild(n, c, entry, old(nodes), done, stack, seen, stack', seen');
      }
    }

    /**
     * One child of a visit to `n`: it becomes a node tagged with `entry` that
     * lists `n` as a parent, and is pushed and marked seen when not seen yet.
     */
    method LinkChild(n: string, c: string, entry: Option<string>, ghost g1: Graph, ghost done: set<string>,
                     ghost base: seq<Frame>, ghost seen0: set<string>, stack: seq<Frame>, seen: set<string>)
      returns (stack': seq<Frame>, seen': set<string>)
      requires Valid() && Keyed(g1) && LinkedTo(g1, nodes, n, done, entry) && c !in done
      requires Pending(base, stack, seen0, seen, done, entry)
      modifies this`nodes
      ensures Valid() && LinkedTo(g1, nodes, n, done + {c}, entry)
      ensures Pending(base, stack', seen0, seen', done + {c}, entry)
    {
      var childNode := if c in nodes then nodes[c] else NewNode(c, NoOptions);
      BareNodeIsEmpty(c);
      if entry.Some? {
        childNode := childNode.(entryFiles := childNode.entryFiles + {entry.value});
      }
      childNode := childNode.(parents := childNode.parents + {n});
      assert childNode == NodeOrBare(nodes, c).(entryFiles := NodeOrBare(nodes, c).entryFiles + Tag(entry),
                                                parents := NodeOrBare(nodes, c).parents + {n});
      LinkStep(g1, nodes, n, done, c, entry);
      nodes := nodes[c := childNode];
      PendingStep(base, stack, seen0, seen, done, c, entry);
      if c !in seen {
        stack' := stack + [Frame(c, entry)];
        seen' := seen + {c};
      } else {
        stack', seen' := stack, seen;
      }
    }

    /** The parents loop of `delete`: each listed parent still in the map stops listing `f` as a child. */
    method ForgetChild(f: string, parents: set<string>)
      requires Valid()
      modifies this`nodes
      ensures Valid()
      ensures nodes.Keys == old(nodes).Keys
      ensures forall x :: x in nodes ==>
        nodes[x] == old(nodes)[x].(children := old(nodes)[x].children - (if x in parents then {f} else {}))
    {
      var ps := parents;
      while ps != {}
        invariant ps <= parents
        invariant Valid()
        invariant nodes.Keys == old(nodes).Keys
        invariant forall x :: x in nodes ==>
          nodes[x] == old(nodes)[x].(children := old(nodes)[x].children - (if x in parents - ps then {f} else {}))
        decreases ps
      {
        var p :| p in ps;
        ps := ps - {p};
        if p in nodes {
          nodes := nodes[p := nodes[p].(children := nodes[p].children - {f})];
        }
      }
    }
  
    /** The `files` getter: the filenames of the map, as a set of their own. */
    method Files() returns (list: set<string>)
      ensures list == nodes.Keys
    {
      list := {};
      var rest := nodes.Keys;
      while rest != {}
        invariant rest <= nodes.Keys && list == nodes.Keys - rest
        decreases rest
      {
        var f :| f in rest;
        list := list + {f};
        rest := rest - {f};
      }
    }

    /** The `entryDirs` getter: the directory of each entry file (`dirname` stands for `path.dirname`). */
    function EntryDirs(dirname: string -> string): (dirs: set<string>)
      reads this
      ensures forall f :: f in entryFiles ==> dirname(f) in dirs
      ensures forall d :: d in dirs ==> exists f :: f in entryFiles && dirname(f) == d
    {
      set f | f in entryFiles :: dirname(f)
    }

    /** `filterEntryFiles(files)`: the given files that are entry files, in their order. */
    function FilterEntryFiles(files: seq<string>): (r: seq<string>)
      reads this
      ensures Elements(r) == Elements(files) * entryFiles
    {
      Filtered(files, entryFiles)
    }

    /** `markFileAsChanged(file)`: the file's entry leaves the file-entry cache. */
    method MarkFileAsChanged(file: string)
      modifies this`upToDate
      ensures upToDate == old(upToDate) - {file}
    {
      upToDate := upToDate - {file};
    }

    /** `persistFileEntryCache({files})`: the given files are recorded as up to date. */
    method PersistFileEntryCache(files: set<string>)
      modifies this`upToDate
      ensures upToDate == old(upToDate) + files
    {
      upToDate := upToDate + files;
    }

    /** `resetFileEntryCache()`: the file-entry cache is destroyed. */
    method ResetFileEntryCache()
      modifies this`upToDate
      ensures upToDate == {}
    {
      upToDate := {};
    }

    /** `resetModuleMapCache()`: the module-map cache is destroyed. */
    method ResetModuleMapCache()
      requires Valid()
      modifies this`cache
      ensures Valid() && cache == map[]
    {
      cache := map[];
    }

    /**
     * `persistModuleMapCache()`: every node's record is written to the
     * module-map cache; records of files no longer in the map stay.
     */
    method PersistModuleMapCache()
      requires Valid()
      modifies this`cache
      ensures Valid()
      ensures cache == old(cache) + nodes
    {
      var rest := nodes.Keys;
      while rest != {}
        invariant rest <= nodes.Keys && Valid()
        invariant cache.Keys == old(cache).Keys + (nodes.Keys - rest)
        invariant forall k :: k in cache ==> cache[k] == if k in nodes.Keys - rest then nodes[k] else old(cache)[k]
        decreases rest
      {
        var k :| k in rest;
        cache := cache[k := nodes[k]];
        rest := rest - {k};
      }
    }

    /** `save()`: both caches take the current map. */
    method Save()
      requires Valid()
      modifies this`cache, this`upToDate
      ensures Valid()
      ensures cache == old(cache) + nodes && upToDate == old(upToDate) + nodes.Keys
    {
      PersistModuleMapCache();
      var files := Files();
      PersistFileEntryCache(files);
    }

    /**
     * `mergeFromCache({destructive})`: every record of the module-map cache
     * becomes a node, over the current map or (destructive) an emptied one.
     */
    method MergeFromCache(destructive: bool)
      requires Valid()
      modifies this`nodes
      ensures Valid()
      ensures nodes == (if destructive then map[] else old(nodes)) + cache
    {
      if destructive {
        nodes := map[];
      }
      ghost var base := nodes;
      var rest := cache.Keys;
      while rest != {}
        invariant rest <= cache.Keys && Valid()
        invariant nodes.Keys == base.Keys + (cache.Keys - rest)
        invariant forall k :: k in nodes ==> nodes[k] == if k in cache.Keys - rest then cache[k] else base[k]
        decreases rest
      {
        var k :| k in rest;
        var record := cache[k];
        nodes := nodes[record.filename := record];
        rest := rest - {k};
      }
    }

    /** The entry-file loop of `_init`: a bare node for every entry file the map lacks. */
    method AddMissingEntryFiles()
      requires Valid()
      modifies this`nodes
      ensures Valid()
      ensures nodes == WithEntryFiles(old(nodes), entryFiles)
    {
      var rest := entryFiles;
      while rest != {}
        invariant rest <= entryFiles && Valid()
        invariant nodes.Keys == old(nodes).Keys + (entryFiles - rest)
        invariant forall k :: k in nodes ==> nodes[k] == if k in old(nodes) then old(nodes)[k] else Node(k, {}, {}, {})
        decreases rest
      {
        var e :| e in rest;
        if e !in nodes {
          BareNodeIsEmpty(e);
          nodes := nodes[e := NewNode(e, NoOptions)];
        }
        rest := rest - {e};
      }
    }

    /** `_getChangedFiles()`: the files of the map whose file-entry cache entry is out of date. */
    method ChangedFiles() returns (changed: set<string>)
      ensures changed == nodes.Keys - upToDate
    {
      var files := Files();
      changed := set f | f in files && f !in upToDate;
    }

    /** `getChangedFiles()`: the changed files; then every file is recorded as up to date. */
    method GetChangedFiles() returns (changed: set<string>)
      modifies this`upToDate
      ensures changed == nodes.Keys - old(upToDate)
      ensures upToDate == old(upToDate) + nodes.Keys
    {
      changed := ChangedFiles();
      var files := Files();
      PersistFileEntryCache(files);
    }

    /**
     * `addEntryFile(filename)`: the file becomes an entry file; a file new to
     * the map gets a bare node and a run from it.
     */
    method AddEntryFile(f: string, deps: map<string, set<string>>) returns (ghost visited: set<string>)
      requires Valid()
      modifies this`nodes, this`entryFiles
      ensures Valid()
      ensures entryFiles == old(entryFiles) + {f} && f in nodes
      ensures f in old(nodes) ==> nodes == old(nodes)
      ensures f !in old(nodes) ==>
        && Repopulated(old(nodes)[f := Node(f, {}, {}, {})], nodes, Env(false, upToDate, entryFiles, deps), {f}, visited)
        && Reached(old(nodes)[f := Node(f, {}, {}, {})], Env(false, upToDate, entryFiles, deps), {f}, visited)
        && SingleEntryTagged(nodes, Env(false, upToDate, entryFiles, deps), {f}, visited)
    {
      entryFiles := entryFiles + {f};
      visited := {};
      if f !in nodes {
        BareNodeIsEmpty(f);
        nodes := nodes[f := NewNode(f, NoOptions)];
        visited := Populate({f}, false, deps);
      }
    }

    /**
     * `_init({reset})`: fails when already done. Otherwise (after emptying
     * both caches on `reset`) the map is rebuilt from the module-map cache,
     * every entry file gets a node, a forced run starts from every changed
     * file, and both caches are saved. After a reset the map is consistent.
     */
    method Init(reset: bool, deps: map<string, set<string>>) returns (r: Outcome<string>, ghost visited: set<string>)
      requires Valid()
      modifies this`nodes, this`upToDate, this`cache, this`initialized
      ensures Valid()
      ensures old(initialized) ==> r == Fail(AlreadyInitialized) && unchanged(this)
      ensures !old(initialized) ==> r == Pass && initialized
      ensures !old(initialized) ==>
        var c0 := if reset then map[] else old(cache);
        var u0 := if reset then {} else old(upToDate);
        var g0 := WithEntryFiles(c0, entryFiles);
        && Repopulated(g0, nodes, Env(true, u0, entryFiles, deps), g0.Keys - u0, visited)
        && Reached(g0, Env(true, u0, entryFiles, deps), g0.Keys - u0, visited)
      ensures !old(initialized) ==> cache == (if reset then map[] else old(cache)) + nodes
      ensures !old(initialized) ==> upToDate == (if reset then {} else old(upToDate)) + nodes.Keys
      ensures r == Pass ==> entryFiles <= nodes.Keys <= upToDate
      ensures r == Pass && reset ==> Linked(nodes)
    {
      if initialized {
        return Fail(AlreadyInitialized), {};
      }
      if reset {
        ResetModuleMapCache();
        ResetFileEntryCache();
      }
      Rebuild();
      visited := PopulateChanged(deps);
      Save();
      initialized := true;
      return Pass, visited;
    }

    /** The start of `_init`: the map becomes the module-map cache, plus a bare node per missing entry file. */
    method Rebuild()
      requires Valid()
      modifies this`nodes
      ensures Valid()
      ensures nodes == WithEntryFiles(cache, entryFiles)
    {
      MergeFromCache(true);
      assert nodes == cache by {
        assert map[] + cache == cache;
      }
      AddMissingEntryFiles();
    }

    /**
     * The run of `_init`: forced, from every changed file. When no file is up
     * to date, every node is visited and so the map ends consistent.
     */
    method PopulateChanged(deps: map<string, set<string>>) returns (ghost visited: set<string>)
      requires Valid()
      modifies this`nodes
      ensures Valid()
      ensures Repopulated(old(nodes), nodes, Env(true, upToDate, entryFiles, deps), old(nodes).Keys - upToDate, visited)
      ensures Reached(old(nodes), Env(true, upToDate, entryFiles, deps), old(nodes).Keys - upToDate, visited)
      ensures upToDate == {} ==> Linked(nodes)
    {
      ghost var g0 := nodes;
      ghost var env := Env(true, upToDate, entryFiles, deps);
      var changed := ChangedFiles();
      if changed != {} {
        visited := Populate(changed, true, deps);
      } else {
        visited := {};
        NoRun(g0, env);
      }
      if upToDate == {} {
        assert LinkedOutside(g0, visited);
        RepopulatedLinked(g0, nodes, env, changed, visited);
      }
    }

    /**
     * The climb of `findAffectedFiles` for one changed node: from `start`
     * (its parents) up through parent links, adding each file not yet in
     * the affected set, which starts as `stop`. Reading the parents of a file
     * the map does not hold throws.
     */
    method AncestorWalk(stop: set<string>, start: set<string>) returns (r: Result<set<string>, string>)
      ensures r.Success? <==> Ancestors(nodes, stop, start) <= nodes.Keys
      ensures r.Success? ==> r.value == stop + Ancestors(nodes, stop, start)
      ensures r.Failure? ==> r.error == MissingParentError
    {
      ghost var anc := Ancestors(nodes, stop, start);
      var affected := stop;
      var stack := Spread(start);
      ClimbInvInit(nodes, stop, start, stack);
      while stack != []
        invariant ClimbInv(nodes, stop, start, affected, stack)
        decreases anc - (affected - stop), |stack|
      {
        var p := stack[|stack| - 1];
        var rest := stack[..|stack| - 1];
        assert stack == rest + [p];
        if p in affected {
          ClimbPopSeen(nodes, stop, start, affected, rest, p);
          stack := rest;
        } else if p !in nodes {
          ClimbPopMissing(nodes, stop, start, affected, rest, p);
          return Failure(MissingParentError);
        } else {
          var parents := Spread(nodes[p].parents);
          ClimbPopNew(nodes, stop, start, affected, rest, p, parents);
          Narrowed(anc, affected - stop, affected + {p} - stop);
          assert p in affected + {p} - stop;
          affected := affected + {p};
          stack := rest + parents;
        }
      }
      ClimbDone(nodes, stop, start, affected);
      return Success(affected);
    }

    /**
     * For each changed node in turn, the climb from its parents; the answer
     * accumulates, starting from the changed files themselves.
     */
    method AccumulateAffected(seeds: set<string>) returns (r: Result<set<string>, string>)
      requires seeds <= nodes.Keys
      ensures r.Success? <==> ClimbsDefined(nodes, entryFiles, seeds)
      ensures r.Success? ==> r.value == AllAffected(nodes, entryFiles, seeds)
      ensures r.Failure? ==> r.error == MissingParentError
    {
      var acc := seeds;
      var rest := seeds;
      while rest != {}
        invariant rest <= seeds
        invariant acc == seeds + AffectedUnion(nodes, entryFiles, seeds - rest)
        invariant ClimbsDefined(nodes, entryFiles, seeds - rest)
        decreases rest
      {
        var s :| s in rest;
        var own := (if s in entryFiles then {s} else {}) + nodes[s].entryFiles;
        assert own == Own(nodes, entryFiles, s);
        var climbed := AncestorWalk(own, nodes[s].parents);
        if climbed.Failure? {
          return Failure(climbed.error);
        }
        AccumulateStep(nodes, entryFiles, seeds, seeds - rest, s, acc, climbed.value);
        acc := acc + climbed.value;
        assert (seeds - rest) + {s} == seeds - (rest - {s});
        rest := rest - {s};
      }
      assert seeds - rest == seeds;
      return Success(acc);
    }

    /**
     * `findAffectedFiles({files, markChangedFiles})`: drops the cache entries
     * of `markChangedFiles`; takes the changed files (and persists the
     * file-entry cache) when no files are given; runs from the nodes of those
     * files; and answers every file they affect and, of those, the entry files.
     */
    method FindAffectedFiles(files: set<string>, markChangedFiles: set<string>, deps: map<string, set<string>>)
      returns (r: Result<Affected, string>, ghost visited: set<string>)
      requires Valid()
      modifies this`nodes, this`upToDate
      ensures Valid()
      ensures upToDate == (old(upToDate) - markChangedFiles) + (if files == {} then old(nodes).Keys else {})
      ensures
        var seeds := ChangedSeeds(old(nodes), old(upToDate), files, markChangedFiles);
        && Repopulated(old(nodes), nodes, Env(false, upToDate, entryFiles, deps), seeds, visited)
        && Reached(old(nodes), Env(false, upToDate, entryFiles, deps), seeds, visited)
        && (r.Success? <==> ClimbsDefined(nodes, entryFiles, seeds))
        && (r.Success? ==> r.value == Affected(AllAffected(nodes, entryFiles, seeds), AllAffected(nodes, entryFiles, seeds) * entryFiles))
      ensures r.Failure? ==> r.error == MissingParentError
    {
      MarkFilesAsChanged(markChangedFiles);
      var changed := files;
      if changed == {} {
        changed := GetChangedFiles();
      }
      var seeds := changed * nodes.Keys;
      if changed == {} {
        visited := {};
        NoRun(nodes, Env(false, upToDate, entryFiles, deps));
        assert AffectedUnion(nodes, entryFiles, {}) == {};
        return Success(Affected({}, {})), visited;
      }
      r, visited := AffectedFrom(seeds, deps);
    }

    /** The `markChangedFiles` loop of `findAffectedFiles`. */
    method MarkFilesAsChanged(files: set<string>)
      modifies this`upToDate
      ensures upToDate == old(upToDate) - files
    {
      var rest := files;
      while rest != {}
        invariant rest <= files
        invariant upToDate == old(upToDate) - (files - rest)
        decreases rest
      {
        var f :| f in rest;
        MarkFileAsChanged(f);
        rest := rest - {f};
      }
    }

    /** The part of `findAffectedFiles` after the changed nodes are known: the run, then the climbs. */
    method AffectedFrom(seeds: set<string>, deps: map<string, set<string>>)
      returns (r: Result<Affected, string>, ghost visited: set<string>)
      requires Valid() && seeds <= nodes.Keys
      modifies this`nodes
      ensures Valid()
      ensures Repopulated(old(nodes), nodes, Env(false, upToDate, entryFiles, deps), seeds, visited)
      ensures Reached(old(nodes), Env(false, upToDate, entryFiles, deps), seeds, visited)
      ensures r.Success? <==> ClimbsDefined(nodes, entryFiles, seeds)
      ensures r.Success? ==> r.value == Affected(AllAffected(nodes, entryFiles, seeds), AllAffected(nodes, entryFiles, seeds) * entryFiles)
      ensures r.Failure? ==> r.error == MissingParentError
    {
      visited := Populate(seeds, false, deps);
      r := Answer(seeds);
    }

    /** The answer of `findAffectedFiles` once the run is done: the climbs, then the entry files among the result. */
    method Answer(seeds: set<string>) returns (r: Result<Affected, string>)
      requires seeds <= nodes.Keys
      ensures r.Success? <==> ClimbsDefined(nodes, entryFiles, seeds)
      ensures r.Success? ==> r.value == Affected(AllAffected(nodes, entryFiles, seeds), AllAffected(nodes, entryFiles, seeds) * entryFiles)
      ensures r.Failure? ==> r.error == MissingParentError
    {
      var all := AccumulateAffected(seeds);
      if all.Failure? {
        return Failure(all.error);
      }
      var list := Spread(all.value);
      var entries := FilterEntryFiles(list);
      return Success(Affected(all.value, Elements(entries)));
    }
}
}
