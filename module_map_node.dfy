/**
 * One file of the dependency graph: its name and three sets of filenames
 * (the entry files whose closure reaches it, its dependencies and its
 * dependants). All references are by filename.
 */
module ModuleMapNodes {
  import opened StringOrder

  /** The record a node holds; the module map keeps these by filename. */
  datatype Node = Node(filename: string, entryFiles: set<string>, children: set<string>, parents: set<string>)

  /** The optional lists a node may be created with (arrays or sets in the source). */
  datatype NodeOptions = NodeOptions(entryFiles: seq<string>, children: seq<string>, parents: seq<string>)

  /** Creating a node without options: every list defaults to empty. */
  const NoOptions := NodeOptions([], [], [])

  /** The serialised form: the filename and the three sets as sorted arrays. */
  datatype NodeJson = NodeJson(filename: string, entryFiles: seq<string>, children: seq<string>, parents: seq<string>)

  /** A list keeps no more distinct members than it has items; fewer exactly when it repeats one. */
  lemma {:induction false} ElementsCount(xs: seq<string>)
    ensures |Elements(xs)| <= |xs|
    ensures |Elements(xs)| == |xs| <==> Distinct(xs)
  {
    if xs != [] {
      ElementsCount(xs[1..]);
      assert xs == [xs[0]] + xs[1..];
      assert Elements(xs) == {xs[0]} + Elements(xs[1..]);
      DistinctCons(xs);
      if xs[0] in xs[1..] {
        assert Elements(xs) == Elements(xs[1..]);
      }
    }
  }

  /** No item of `xs` occurs twice. */
  predicate Distinct(xs: seq<string>) {
    forall i, j :: 0 <= i < j < |xs| ==> xs[i] != xs[j]
  }

  lemma DistinctCons(xs: seq<string>)
    requires xs != []
    ensures Distinct(xs) <==> xs[0] !in xs[1..] && Distinct(xs[1..])
  {
    if xs[0] in xs[1..] {
      var k :| 0 <= k < |xs[1..]| && xs[1..][k] == xs[0];
      assert xs[k + 1] == xs[0];
    }
    if Distinct(xs) {
      forall i', j' | 0 <= i' < j' < |xs[1..]| ensures xs[1..][i'] != xs[1..][j'] {
        assert xs[1..][i'] == xs[i' + 1] && xs[1..][j'] == xs[j' + 1];
      }
    }
    if xs[0] !in xs[1..] && Distinct(xs[1..]) {
      forall i, j | 0 <= i < j < |xs| ensures xs[i] != xs[j] {
        if i > 0 {
          assert xs[i] == xs[1..][i - 1] && xs[j] == xs[1..][j - 1];
        } else {
          assert xs[j] == xs[1..][j - 1];
        }
      }
    }
  }

  /**
   * `new ModuleMapNode(filename, opts)`: the filename as given, and each
   * list copied into a set of its own, so repeated items collapse.
   */
  function NewNode(filename: string, opts: NodeOptions): (n: Node)
    ensures n.filename == filename
    ensures forall f :: f in n.entryFiles <==> f in opts.entryFiles
    ensures forall f :: f in n.children <==> f in opts.children
    ensures forall f :: f in n.parents <==> f in opts.parents
    ensures |n.entryFiles| <= |opts.entryFiles| && |n.children| <= |opts.children| && |n.parents| <= |opts.parents|
  {
    ElementsCount(opts.entryFiles);
    ElementsCount(opts.children);
    ElementsCount(opts.parents);
    Node(filename, Elements(opts.entryFiles), Elements(opts.children), Elements(opts.parents))
  }

  /** A node created without options has no entry files, children or parents. */
  lemma BareNodeIsEmpty(filename: string)
    ensures NewNode(filename, NoOptions) == Node(filename, {}, {}, {})
  {
  }

  /** `toJSON()`: the filename and each set as an ascending array of exactly its elements. */
  ghost function ToJson(n: Node): (j: NodeJson)
    ensures j.filename == n.filename
    ensures StrictlySorted(j.entryFiles) && Elements(j.entryFiles) == n.entryFiles
    ensures StrictlySorted(j.children) && Elements(j.children) == n.children
    ensures StrictlySorted(j.parents) && Elements(j.parents) == n.parents
  {
    NodeJson(n.filename, SortedElements(n.entryFiles), SortedElements(n.children), SortedElements(n.parents))
  }

  /**
   * The serialisation does not depend on how the sets were built: any
   * JSON value with sorted arrays of the same elements is the one `ToJson` gives.
   */
  lemma {:induction false} ToJsonCanonical(n: Node, j: NodeJson)
    requires j.filename == n.filename
    requires StrictlySorted(j.entryFiles) && Elements(j.entryFiles) == n.entryFiles
    requires StrictlySorted(j.children) && Elements(j.children) == n.children
    requires StrictlySorted(j.parents) && Elements(j.parents) == n.parents
    ensures j == ToJson(n)
  {
    var k := ToJson(n);
    SortedUnique(j.entryFiles, k.entryFiles);
    SortedUnique(j.children, k.children);
    SortedUnique(j.parents, k.parents);
  }

  /** Reloading a serialised node (as the module map cache does) gives the node back. */
  lemma JsonRoundTrip(n: Node)
    ensures NewNode(ToJson(n).filename, NodeOptions(ToJson(n).entryFiles, ToJson(n).children, ToJson(n).parents)) == n
  {
  }

  /** The node object, whose setters copy what they are given. */
  class ModuleMapNode {
    const filename: string
    var entryFiles: set<string>
    var children: set<string>
    var parents: set<string>

    /** The record this object currently holds. */
    ghost function Value(): Node
      reads this
    {
      Node(filename, entryFiles, children, parents)
    }

    constructor (filename: string, opts: NodeOptions)
      ensures Value() == NewNode(filename, opts)
    {
      this.filename := filename;
      entryFiles := Elements(opts.entryFiles);
      parents := Elements(opts.parents);
      children := Elements(opts.children);
    }

    /** `ModuleMapNode.create(filename, opts)`: the same as the constructor. */
    static method Create(filename: string, opts: NodeOptions) returns (node: ModuleMapNode)
      ensures fresh(node)
      ensures node.Value() == NewNode(filename, opts)
    {
      node := new ModuleMapNode(filename, opts);
    }

    /** The `parents` setter: stores a fresh set of the given items. */
    method SetParents(value: seq<string>)
      modifies this
      ensures parents == Elements(value)
      ensures entryFiles == old(entryFiles) && children == old(children)
    {
      parents := Elements(value);
    }

    /** The `children` setter: stores a fresh set of the given items. */
    method SetChildren(value: seq<string>)
      modifies this
      ensures children == Elements(value)
      ensures entryFiles == old(entryFiles) && parents == old(parents)
    {
      children := Elements(value);
    }

    /** The `entryFiles` setter: stores a fresh set of the given items. */
    method SetEntryFiles(value: seq<string>)
      modifies this
      ensures entryFiles == Elements(value)
      ensures children == old(children) && parents == old(parents)
    {
      entryFiles := Elements(value);
    }

    /** `toJSON()` of this object: its filename and its sets as ascending arrays. */
    ghost function ToJSON(): (j: NodeJson)
      reads this
      ensures j.filename == filename
      ensures StrictlySorted(j.entryFiles) && Elements(j.entryFiles) == entryFiles
      ensures StrictlySorted(j.children) && Elements(j.children) == children
      ensures StrictlySorted(j.parents) && Elements(j.parents) == parents
    {
      ToJson(Value())
    }
  }
}
