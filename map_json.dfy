/**
 * The serialised form of the whole module map (`toJSON()`), the form the
 * module-map cache stores: one entry per file, in ascending filename order,
 * each the node's own serialised form; and reading it back.
 */
module MapJsons {
  import opened StringOrder
  import opened ModuleMapNodes
  import opened Graphs

  type MapJson = seq<(string, NodeJson)>

  function Filenames(r: MapJson): seq<string> {
    seq(|r|, i requires 0 <= i < |r| => r[i].0)
  }

  /** `toJSON()`: the entries sorted by filename, each node serialised. */
  ghost function ToJson(g: Graph): (r: MapJson)
    ensures StrictlySorted(Filenames(r)) && Elements(Filenames(r)) == g.Keys && |r| == |g|
  {
    var ks := SortedElements(g.Keys);
    KeysIn(g, ks);
    Entries(g, ks)
  }

  /** The entries for filenames `ks`, in that order. */
  ghost function Entries(g: Graph, ks: seq<string>): (r: MapJson)
    requires forall i :: 0 <= i < |ks| ==> ks[i] in g
    ensures Filenames(r) == ks
  {
    var r := seq(|ks|, i requires 0 <= i < |ks| => (ks[i], ModuleMapNodes.ToJson(g[ks[i]])));
    assert forall i :: 0 <= i < |ks| ==> Filenames(r)[i] == ks[i];
    r
  }

  lemma KeysIn(g: Graph, ks: seq<string>)
    requires Elements(ks) == g.Keys
    ensures forall i :: 0 <= i < |ks| ==> ks[i] in g
  {
    forall i | 0 <= i < |ks| ensures ks[i] in g {
      assert ks[i] in Elements(ks);
    }
  }

  /**
   * Reading a serialised map back, as `mergeFromCache` does: each entry in
   * turn becomes a node created from the record, stored under the record's
   * filename.
   */
  function Load(r: MapJson): Graph {
    if r == [] then map[]
    else
      var j := r[|r| - 1].1;
      Load(r[..|r| - 1])[j.filename := Decode(j)]
  }

  /**
   * `ModuleMapNode.create(filename, {children, entryFiles, parents})` on one
   * record: each array becomes a set (`DecodeIsCreate`).
   */
  function Decode(j: NodeJson): Node {
    Node(j.filename, Elements(j.entryFiles), Elements(j.children), Elements(j.parents))
  }

  lemma DecodeIsCreate(j: NodeJson)
    ensures Decode(j) == NewNode(j.filename, NodeOptions(j.entryFiles, j.children, j.parents))
  {
  }

  /** The filenames `r` holds entries for. */
  ghost function EntryNames(r: MapJson): set<string> {
    set i | 0 <= i < |r| :: r[i].0
  }

  /** Loading entries that each serialise a node of `g` under its filename gives those nodes of `g`. */
  lemma {:induction false} LoadEntries(g: Graph, r: MapJson)
    requires Keyed(g)
    requires forall i :: 0 <= i < |r| ==> r[i].0 in g && Decode(r[i].1) == g[r[i].0]
    ensures Load(r).Keys == EntryNames(r)
    ensures forall k :: k in Load(r) ==> Load(r)[k] == g[k]
  {
    if r != [] {
      var prefix := r[..|r| - 1];
      var k := r[|r| - 1].0;
      assert forall i :: 0 <= i < |prefix| ==> prefix[i] == r[i];
      LoadEntries(g, prefix);
      assert r[|r| - 1].1.filename == Decode(r[|r| - 1].1).filename == k;
      assert Load(r) == Load(prefix)[k := g[k]];
      assert EntryNames(r) == EntryNames(prefix) + {k} by {
        forall x | x in EntryNames(r) ensures x in EntryNames(prefix) || x == k {
          var i :| 0 <= i < |r| && r[i].0 == x;
          if i < |prefix| {
            assert prefix[i].0 == x;
          }
        }
        forall x | x in EntryNames(prefix) ensures x in EntryNames(r) {
          var i :| 0 <= i < |prefix| && prefix[i].0 == x;
          assert r[i].0 == x;
        }
      }
    }
  }

  /** Each entry of the serialised map is its file's node, serialised. */
  lemma ToJsonEntries(g: Graph, r: MapJson)
    requires r == ToJson(g)
    ensures forall i :: 0 <= i < |r| ==> r[i].0 in g && r[i].1 == ModuleMapNodes.ToJson(g[r[i].0])
  {
    var ks := SortedElements(g.Keys);
    KeysIn(g, ks);
    assert r == Entries(g, ks);
  }

  /** Each entry of the serialised map reads back as its node. */
  lemma EntriesDecode(g: Graph, r: MapJson)
    requires Keyed(g)
    requires forall i :: 0 <= i < |r| ==> r[i].0 in g && r[i].1 == ModuleMapNodes.ToJson(g[r[i].0])
    ensures forall i :: 0 <= i < |r| ==> r[i].0 in g && Decode(r[i].1) == g[r[i].0]
  {
    forall i | 0 <= i < |r| ensures r[i].0 in g && Decode(r[i].1) == g[r[i].0] {
      JsonRoundTrip(g[r[i].0]);
      DecodeIsCreate(r[i].1);
    }
  }

  /** Saving the map to the module-map cache and loading it back gives the map again. */
  lemma CacheRoundTrip(g: Graph)
    requires Keyed(g)
    ensures Load(ToJson(g)) == g
  {
    var r := ToJson(g);
    ToJsonEntries(g, r);
    LoadSerialised(g, r);
  }

  /** Loading entries that serialise every node of `g` under its filename gives `g`. */
  lemma LoadSerialised(g: Graph, r: MapJson)
    requires Keyed(g) && Elements(Filenames(r)) == g.Keys
    requires forall i :: 0 <= i < |r| ==> r[i].0 in g && r[i].1 == ModuleMapNodes.ToJson(g[r[i].0])
    ensures Load(r) == g
  {
    EntriesDecode(g, r);
    LoadEntries(g, r);
    EntryNamesAreFilenames(r);
    assert Load(r).Keys == g.Keys;
  }

  lemma EntryNamesAreFilenames(r: MapJson)
    ensures EntryNames(r) == Elements(Filenames(r))
  {
    var names := Filenames(r);
    forall k | k in Elements(names) ensures k in EntryNames(r) {
      var i :| 0 <= i < |names| && names[i] == k;
      assert r[i].0 == k;
    }
    forall k | k in EntryNames(r) ensures k in Elements(names) {
      var i :| 0 <= i < |r| && r[i].0 == k;
      assert names[i] == k;
    }
  }

  /** The serialised form determines the map: equal forms come from equal maps. */
  lemma ToJsonInjective(g1: Graph, g2: Graph)
    requires Keyed(g1) && Keyed(g2) && ToJson(g1) == ToJson(g2)
    ensures g1 == g2
  {
    CacheRoundTrip(g1);
    CacheRoundTrip(g2);
  }
}
