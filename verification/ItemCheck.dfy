/**
 What the pieces of the item check come to, each without the function that computes it: which node carries the
 key, which layers are checked, which path is descended, and what an accepted proof shows.
 */
module ItemCheck {
  import opened ByteStrings
  import opened Wrappers
  import opened Envelope
  import opened MerkProof
  import opened ItemProof
  import opened Text

  // ---------- The node of a key ----------

  /** The op pushes `node`, which names `key`. */
  predicate Names(op: Option<Op>, key: Bytes, node: Node) {
    (op == Some(Push(node)) || op == Some(PushInverted(node)))
    && match node
       case Hash(_) => false
       case KVHash(_) => false
       case KV(k, _) => k == key
       case KVValueHash(k, _, _) => k == key
       case KVValueHashFeatureType(k, _, _) => k == key
       case KVRefValueHash(k, _, _) => k == key
       case KVDigest(k, _) => k == key
  }

  ghost predicate NamesNone(ops: seq<Option<Op>>, key: Bytes) {
    forall i, node :: 0 <= i < |ops| ==> !Names(ops[i], key, node)
  }

  /** One op pushes `node` for the key, and no other op pushes a node that names it. */
  ghost predicate NamesOnly(ops: seq<Option<Op>>, key: Bytes, node: Node) {
    exists i ::
      && 0 <= i < |ops| && Names(ops[i], key, node)
      && forall j, other :: 0 <= j < |ops| && j != i ==> !Names(ops[j], key, other)
  }

  lemma LastCarried(ops: seq<Option<Op>>, key: Bytes)
    requires ops != []
    ensures var (init, last) := (Carried(ops[..|ops| - 1], key), ops[|ops| - 1]);
            || (Carried(ops, key) == init && forall node :: !Names(last, key, node))
            || (exists node :: Carried(ops, key) == init + [node] && Names(last, key, node)
                               && forall other :: Names(last, key, other) ==> other == node)
  {
    var init, last := Carried(ops[..|ops| - 1], key), ops[|ops| - 1];
    if last.Some? && (last.value.Push? || last.value.PushInverted?) && last.value.node.HasKey()
       && last.value.node.key == key {
      assert Carried(ops, key) == init + [last.value.node] && Names(last, key, last.value.node);
    }
  }

  lemma {:induction false} NoneCarried(ops: seq<Option<Op>>, key: Bytes)
    ensures Carried(ops, key) == [] <==> NamesNone(ops, key)
  {
    if ops != [] {
      hide Names, Carried;
      var init := ops[..|ops| - 1];
      LastCarried(ops, key);
      NoneCarried(init, key);
      assert forall i :: 0 <= i < |init| ==> init[i] == ops[i];
      assert forall i :: 0 <= i < |ops| ==> i < |init| || ops[i] == ops[|ops| - 1];
    }
  }

  /** The one op that names the key is the last, or comes before it. */
  lemma OnlySnoc(ops: seq<Option<Op>>, key: Bytes, node: Node, op: Option<Op>)
    requires ops != [] && op == ops[|ops| - 1]
    ensures NamesOnly(ops, key, node) <==>
            || (NamesOnly(ops[..|ops| - 1], key, node) && forall other :: !Names(op, key, other))
            || (NamesNone(ops[..|ops| - 1], key) && Names(op, key, node))
  {
    hide Names;
    var init, last := ops[..|ops| - 1], |ops| - 1;
    assert forall i :: 0 <= i < |init| ==> init[i] == ops[i];
    if NamesOnly(ops, key, node) {
      var i :| 0 <= i < |ops| && Names(ops[i], key, node)
               && forall j, other :: 0 <= j < |ops| && j != i ==> !Names(ops[j], key, other);
      assert i < last ==> Names(init[i], key, node);
    }
    if NamesOnly(init, key, node) && forall other :: !Names(ops[last], key, other) {
      var i :| 0 <= i < |init| && Names(init[i], key, node)
               && forall j, other :: 0 <= j < |init| && j != i ==> !Names(init[j], key, other);
      assert Names(ops[i], key, node);
      assert forall j :: 0 <= j < |ops| ==> ops[j] == if j < |init| then init[j] else ops[last];
    }
    if NamesNone(init, key) && Names(ops[last], key, node) {
      assert forall j :: 0 <= j < |ops| ==> ops[j] == if j < |init| then init[j] else ops[last];
    }
  }

  lemma {:induction false} CarriedIsOnly(ops: seq<Option<Op>>, key: Bytes, node: Node)
    ensures Carried(ops, key) == [node] <==> NamesOnly(ops, key, node)
  {
    if ops != [] {
      hide Names, Carried, NamesOnly, NamesNone;
      var init, last := ops[..|ops| - 1], ops[|ops| - 1];
      LastCarried(ops, key);
      CarriedIsOnly(init, key, node);
      NoneCarried(init, key);
      OnlySnoc(ops, key, node, last);
      if m :| Carried(ops, key) == Carried(init, key) + [m] && Names(last, key, m) {
        assert Carried(ops, key)[|Carried(init, key)|] == m;
        OneName(last, key, m, node);
      }
    }
  }

  lemma OneName(op: Option<Op>, key: Bytes, m: Node, n: Node)
    requires Names(op, key, m)
    ensures Names(op, key, n) <==> m == n
  {
  }

  // ---------- The layers ----------

  /** The lower layers as a map, each entry read replacing an earlier one of its key. */
  function MapOf(forest: Forest): map<Bytes, Layer> {
    match forest
    case Empty => map[]
    case Lower(key, layer, rest) => map[key := layer] + MapOf(rest)
  }

  lemma {:induction false} LookupIsMap(forest: Forest, key: Bytes)
    ensures LookupLower(forest, key) == if key in MapOf(forest) then Some(MapOf(forest)[key]) else None
  {
    if forest.Lower? {
      LookupIsMap(forest.rest, key);
    }
  }

  ghost predicate KeyChecked(lib: Library, forest: Forest, key: Bytes) {
    LookupLower(forest, key).Some? ==> LayersChecked(lib, LookupLower(forest, key).value)
  }

  lemma {:induction false} ForestIsChecked(lib: Library, forest: Forest)
    ensures ForestChecked(lib, forest) <==> forall key :: KeyChecked(lib, forest, key)
  {
    hide LayersChecked;
    if forest.Lower? {
      var rest := forest.rest;
      ForestIsChecked(lib, rest);
      if ForestChecked(lib, forest) {
        forall key: Bytes
          ensures KeyChecked(lib, forest, key)
        {
          assert KeyChecked(lib, rest, key);
        }
      }
      if forall key :: KeyChecked(lib, forest, key) {
        assert KeyChecked(lib, forest, forest.key);
        forall key: Bytes
          ensures KeyChecked(lib, rest, key)
        {
          assert KeyChecked(lib, forest, key);
        }
      }
    }
  }

  ghost predicate CheckedAt(lib: Library, layer: Layer, path: seq<Bytes>) {
    LayerAt(layer, path).Some? ==> Checked(lib.element, lib.ops(LayerAt(layer, path).value.ops))
  }

  /** The layers checked are those at every path, and so every layer of the decoded maps. */
  lemma {:induction false} LayersAreChecked(lib: Library, layer: Layer)
    ensures LayersChecked(lib, layer) <==> forall path :: CheckedAt(lib, layer, path)
    decreases layer
  {
    hide Checked;
    ForestIsChecked(lib, layer.lower);
    if LayersChecked(lib, layer) {
      forall path: seq<Bytes>
        ensures CheckedAt(lib, layer, path)
      {
        if LayerAt(layer, path).Some? {
          LayerAtChecked(lib, layer, path);
        }
      }
    }
    if forall path :: CheckedAt(lib, layer, path) {
      assert CheckedAt(lib, layer, []);
      forall key: Bytes
        ensures KeyChecked(lib, layer.lower, key)
      {
        if LookupLower(layer.lower, key).Some? {
          var lower := LookupLower(layer.lower, key).value;
          forall path: seq<Bytes>
            ensures CheckedAt(lib, lower, path)
          {
            assert CheckedAt(lib, layer, [key] + path);
            assert ([key] + path)[1..] == path;
          }
          LayersAreChecked(lib, lower);
        }
      }
    }
  }

  // ---------- The path ----------

  /** Along `path` each layer's map has the one key of the next segment, and the last layer's has none. */
  ghost predicate OnlyPath(layer: Layer, path: seq<Bytes>)
    decreases |path|
  {
    if path == [] then layer.lower == Empty
    else
      && MapOf(layer.lower).Keys == {path[0]}
      && OnlyPath(MapOf(layer.lower)[path[0]], path[1..])
  }

  lemma {:induction false} KeysAreSurvivors(forest: Forest)
    ensures |MapOf(forest).Keys| == |Survivors(forest)|
    ensures forest.Lower? ==> forest.key in MapOf(forest).Keys
  {
    if forest.Lower? {
      KeysAreSurvivors(forest.rest);
      LookupIsMap(forest.rest, forest.key);
      assert MapOf(forest).Keys == {forest.key} + MapOf(forest.rest).Keys;
    }
  }

  lemma OneKey(forest: Forest)
    requires forest.Lower?
    ensures |Survivors(forest)| <= 1 <==> MapOf(forest).Keys == {forest.key}
  {
    KeysAreSurvivors(forest);
    Singleton(MapOf(forest).Keys, forest.key);
  }

  lemma Singleton(s: set<Bytes>, x: Bytes)
    requires x in s
    ensures |s| <= 1 <==> s == {x}
  {
    assert s == {x} + (s - {x});
  }

  /** The path returned is the only one there is to descend; none is when a layer has two keys. */
  lemma {:induction false} SinglePathIsOnly(layer: Layer, path: seq<Bytes>)
    ensures SinglePath(layer) == Some(path) <==> OnlyPath(layer, path)
    decreases layer
  {
    if layer.lower.Lower? {
      var key := layer.lower.key;
      OneKey(layer.lower);
      LookupIsMap(layer.lower, key);
      if path != [] {
        SinglePathIsOnly(LookupLower(layer.lower, key).value, path[1..]);
        assert path == [path[0]] + path[1..];
        if MapOf(layer.lower).Keys == {path[0]} {
          assert key in MapOf(layer.lower).Keys;
        }
      }
    }
  }

  // ---------- What is accepted ----------

  /**
   An accepted proof, spelled out: GroveDB returns one result, an Item of those bytes at that path and key; the
   layer there has one node that names the key, a `KV` of an element of those bytes; and one of 63 bytes is of
   a data tree.
   */
  lemma AcceptedShows(lib: Library, proof: Bytes, path: seq<Bytes>, key: Bytes, root: Digest, bytes: Bytes)
    returns (value: Bytes, flags: Option<Bytes>)
    requires Accepted(lib, proof, path, key, root, bytes)
    ensures proof != [] && |proof| <= 0x10_0000
    ensures lib.verify(proof, path, key) == Some((root, [QueryResult(path, key, Some(Item(bytes, flags)))]))
    ensures lib.decode(proof).Some? && lib.decode(proof).value.proveOption
    ensures LayerAt(lib.decode(proof).value.root, path).Some?
    ensures var layer := LayerAt(lib.decode(proof).value.root, path).value;
            layer.lower == Empty && NamesOnly(lib.ops(layer.ops), key, KV(key, value))
    ensures DecodeElement(lib.element, value).Some? && DecodeElement(lib.element, value).value.Item?
            && DecodeElement(lib.element, value).value.bytes == bytes
    ensures |value| == 63 ==> exists id :: path == [Ascii("subgroves"), id, Ascii("data")]
    ensures Bounded(proof) && LayersChecked(lib, lib.decode(proof).value.root)
  {
    hide LayersChecked, HoldsOnlyItems, DecodeElement, Names;
    var ops := lib.ops(LayerAt(lib.decode(proof).value.root, path).value.ops);
    var node := Carried(ops, key)[0];
    assert Carried(ops, key) == [node];
    CarriedIsOnly(ops, key, node);
    NamedKey(ops, key, node);
    value := node.value;
    var results := lib.verify(proof, path, key).value.1;
    flags := results[0].element.value.flags;
    assert results == [results[0]];
    if |value| == 63 {
      DataTreePaths(path);
      assert path == [Ascii("subgroves"), path[1], Ascii("data")];
    }
  }

  /** And nothing else is asked: all of that, of a scanned envelope every layer of which is checked, is accepted. */
  lemma ShownIsAccepted(lib: Library, proof: Bytes, path: seq<Bytes>, key: Bytes, root: Digest, bytes: Bytes,
                        value: Bytes, flags: Option<Bytes>)
    requires proof != [] && Bounded(proof)
    requires lib.verify(proof, path, key) == Some((root, [QueryResult(path, key, Some(Item(bytes, flags)))]))
    requires lib.decode(proof).Some? && lib.decode(proof).value.proveOption
    requires LayersChecked(lib, lib.decode(proof).value.root)
    requires LayerAt(lib.decode(proof).value.root, path).Some?
    requires var layer := LayerAt(lib.decode(proof).value.root, path).value;
             layer.lower == Empty && NamesOnly(lib.ops(layer.ops), key, KV(key, value))
    requires DecodeElement(lib.element, value).Some? && DecodeElement(lib.element, value).value.Item?
             && DecodeElement(lib.element, value).value.bytes == bytes
    requires |value| == 63 ==> exists id :: path == [Ascii("subgroves"), id, Ascii("data")]
    ensures Accepted(lib, proof, path, key, root, bytes)
  {
    hide LayersChecked, HoldsOnlyItems, DecodeElement, Names, Bounded;
    var ops := lib.ops(LayerAt(lib.decode(proof).value.root, path).value.ops);
    CarriedIsOnly(ops, key, KV(key, value));
    DataTreePaths(path);
  }

  lemma NamedKey(ops: seq<Option<Op>>, key: Bytes, node: Node)
    requires NamesOnly(ops, key, node) && node.KV?
    ensures node.key == key
  {
  }
}
