/**
 Soundness of the item check: an accepted proof whose root is the stored state's root proves what the
 state holds, when none of the inputs hashed collide.
 */
module ItemSoundness {
  import opened ByteStrings
  import opened Wrappers
  import opened Envelope
  import opened Hashing
  import opened MerkProof
  import opened Grove
  import opened ItemProof
  import opened Text

  // ---------- What the libraries are trusted for ----------

  function LayerTree(lib: Library, layer: Layer): Option<Tree> {
    Build(lib.ops(layer.ops))
  }

  function LayerRoot(lib: Library, layer: Layer): Digest {
    var tree := LayerTree(lib, layer);
    if tree.Some? then TreeHash(lib.hash, tree.value) else NULL_HASH
  }

  /** The node a layer's root was checked with to bind the layer below it at `key`. */
  ghost predicate BindsLower(lib: Library, tree: Tree, key: Bytes, lower: Layer, node: Node) {
    && node in Nodes(tree) && node.HasValue() && node.key == key
    && EntersAs(lib.hash, node) == CombineHash(lib.hash, ValueHash(lib.hash, node.value), LayerRoot(lib, lower))
  }

  /**
   Every layer along `path` is one tree with no side attached to twice, and each lower layer that is
   present is bound to the layer above it.
   */
  ghost predicate Verified(lib: Library, layer: Layer, path: seq<Bytes>)
    decreases |path|
  {
    && LayerTree(lib, layer).Some?
    && Binary(LayerTree(lib, layer).value)
    && (path != [] && LookupLower(layer.lower, path[0]).Some? ==>
          var lower := LookupLower(layer.lower, path[0]).value;
          && (exists node :: BindsLower(lib, LayerTree(lib, layer).value, path[0], lower, node))
          && Verified(lib, lower, path[1..]))
  }

  /**
   bincode reads an envelope as the grammar does or refuses it, and GroveDB's verifier, when it
   returns a result at a path, has computed the root layer's root and verified the layers along it.
   */
  ghost predicate Trusted(lib: Library) {
    && (forall proof :: Bounded(proof) && lib.decode(proof).Some? ==> lib.decode(proof) == ParseEnvelope(proof))
    && (forall proof, path, key :: lib.verify(proof, path, key).Some? && lib.decode(proof).Some? ==>
                                     var (root, results) := lib.verify(proof, path, key).value;
                                     (exists i :: 0 <= i < |results| && results[i].path == path) ==>
                                       && root == LayerRoot(lib, lib.decode(proof).value.root)
                                       && Verified(lib, lib.decode(proof).value.root, path))
  }

  // ---------- The inputs a proof hashes ----------

  ghost function BindingInputs(lib: Library, tree: Tree, key: Bytes, lower: Layer): set<Bytes> {
    set node | node in Nodes(tree) && BindsLower(lib, tree, key, lower, node) ::
      ValueHash(lib.hash, node.value) + LayerRoot(lib, lower)
  }

  /** Every input hashed to check the layers along `path`. */
  ghost function ProofInputs(lib: Library, layer: Layer, path: seq<Bytes>): set<Bytes>
    decreases |path|
  {
    var tree := LayerTree(lib, layer);
    (if tree.Some? then TreeInputs(lib.hash, tree.value) else {})
    + (if path == [] || LookupLower(layer.lower, path[0]).None? then {}
       else
         var lower := LookupLower(layer.lower, path[0]).value;
         (if tree.Some? then BindingInputs(lib, tree.value, path[0], lower) else {})
         + ProofInputs(lib, lower, path[1..]))
  }

  // ---------- Soundness ----------

  lemma LowerLayerIsSubtree(lib: Library, layer: Layer, key: Bytes, m: Merk, inputs: set<Bytes>)
    requires Verified(lib, layer, [key]) && LayersChecked(lib, layer) && LookupLower(layer.lower, key).Some?
    requires Ordered(m) && LayerRoot(lib, layer) == MerkHash(lib.hash, m)
    requires Get(m, key).Some? && Get(m, key).value.Subtree?
    requires CollisionFree(lib.hash, inputs)
    requires ProofInputs(lib, layer, [key]) <= inputs && MerkInputs(lib.hash, m) <= inputs
    ensures LayerRoot(lib, LookupLower(layer.lower, key).value) == MerkHash(lib.hash, Get(m, key).value.merk)
  {
    var h, tree := lib.hash, LayerTree(lib, layer).value;
    var lower := LookupLower(layer.lower, key).value;
    var node :| BindsLower(lib, tree, key, lower, node);
    var entry := TreeShowsStored(h, tree, m, node, inputs);
    GetFindsEntry(m, key, entry);
    GetInputs(h, m, key);
    var proven := ValueHash(h, node.value) + LayerRoot(lib, lower);
    assert proven in BindingInputs(lib, tree, key, lower);
    var stored := ValueHash(h, entry.element) + MerkHash(h, entry.merk);
    assert stored in EntryInputs(h, entry);
    assert h(proven) == h(stored);
    CombineInputInjective(ValueHash(h, node.value), LayerRoot(lib, lower),
                          ValueHash(h, entry.element), MerkHash(h, entry.merk));
  }

  /** Along a path of stored subtrees, each layer's root is the root of the subtree there. */
  lemma {:induction false} LayersMatchState(lib: Library, layer: Layer, path: seq<Bytes>, m: Merk, inputs: set<Bytes>)
    requires Verified(lib, layer, path) && LayersChecked(lib, layer) && LayerAt(layer, path).Some?
    requires Ordered(m) && LayerRoot(lib, layer) == MerkHash(lib.hash, m) && At(m, path).Some?
    requires CollisionFree(lib.hash, inputs)
    requires ProofInputs(lib, layer, path) <= inputs && MerkInputs(lib.hash, m) <= inputs
    ensures var (last, sub) := (LayerAt(layer, path).value, At(m, path).value);
            && Verified(lib, last, []) && LayersChecked(lib, last)
            && LayerRoot(lib, last) == MerkHash(lib.hash, sub) && Ordered(sub)
            && ProofInputs(lib, last, []) <= inputs && MerkInputs(lib.hash, sub) <= inputs
    decreases |path|
  {
    if path != [] {
      hide Verified, ProofInputs, MerkInputs, LayersChecked, Ordered, CollisionFree, LayerRoot, MerkHash;
      var key := path[0];
      var lower := LookupLower(layer.lower, key).value;
      FirstLayer(lib, layer, path);
      LowerLayerIsSubtree(lib, layer, key, m, inputs);
      LookupChecked(lib, layer.lower, key);
      GetOrdered(m, key);
      GetInputs(lib.hash, m, key);
      LayersMatchState(lib, lower, path[1..], Get(m, key).value.merk, inputs);
    }
  }

  /** The first step of a path, and what is left of it. */
  lemma FirstLayer(lib: Library, layer: Layer, path: seq<Bytes>)
    requires Verified(lib, layer, path) && path != [] && LookupLower(layer.lower, path[0]).Some?
    ensures Verified(lib, layer, [path[0]]) && ProofInputs(lib, layer, [path[0]]) <= ProofInputs(lib, layer, path)
    ensures var lower := LookupLower(layer.lower, path[0]).value;
            Verified(lib, lower, path[1..]) && ProofInputs(lib, lower, path[1..]) <= ProofInputs(lib, layer, path)
  {
    var lower := LookupLower(layer.lower, path[0]).value;
    assert [path[0]][1..] == path[..0];
    assert Verified(lib, lower, path[1..]);
    FirstLayerInputs(lib, lower, path[1..]);
  }

  lemma FirstLayerInputs(lib: Library, layer: Layer, path: seq<Bytes>)
    ensures ProofInputs(lib, layer, []) <= ProofInputs(lib, layer, path)
  {
  }

  lemma {:induction false} CarriedIsPushed(ops: seq<Option<Op>>, key: Bytes, i: nat)
    requires i < |Carried(ops, key)|
    ensures Carried(ops, key)[i] in Pushed(ops) && Carried(ops, key)[i].HasKey() && Carried(ops, key)[i].key == key
  {
    var before := ops[..|ops| - 1];
    PushedSplits(before, [ops[|ops| - 1]]);
    assert before + [ops[|ops| - 1]] == ops;
    if i < |Carried(before, key)| {
      CarriedIsPushed(before, key, i);
    } else {
      assert [ops[|ops| - 1]][1..] == [];
    }
  }

  lemma {:induction false} PushedSplits(a: seq<Option<Op>>, b: seq<Option<Op>>)
    ensures Pushed(a + b) == Pushed(a) + Pushed(b)
    decreases |a|
  {
    if a == [] {
      assert a + b == b;
    } else {
      assert (a + b)[0] == a[0] && (a + b)[1..] == a[1..] + b;
      PushedSplits(a[1..], b);
    }
  }

  /**
   A `KV` node whose value the root binds is the stored Item: only a 63-byte value's hash input is as
   long as a subtree's or a reference's, and such a value is refused unless only Items are stored.
   */
  lemma BoundValueIsStored(h: HashFunction, value: Bytes, entry: Entry, inputs: set<Bytes>)
    requires CollisionFree(h, inputs) && Prefixed(value) in inputs && EntryInputs(h, entry) <= inputs
    requires EntryHash(h, entry) == ValueHash(h, value)
    ensures entry == Plain(value) || (!entry.Plain? && |value| == AMBIGUOUS_ELEMENT_LEN)
  {
    if entry.Plain? {
      PrefixedInjective(entry.element, value);
    } else {
      var lead := if entry.Subtree? then MerkHash(h, entry.merk) else entry.target;
      assert ValueHash(h, entry.element) + lead in EntryInputs(h, entry);
      PairSizedValue(value);
      assert Prefixed(value) == ValueHash(h, entry.element) + lead;
    }
  }

  /**
   Soundness. Let the state be search trees throughout, `path` a path of its subtrees, and a data tree
   hold only plain elements. An accepted proof whose root is the state's root returns the bytes of the
   Item the state holds at that path and key, unless two of the inputs hashed by the proof and the
   state collide, or one hashes to the empty tree's root.
   */
  lemma AcceptedItemIsStored(lib: Library, proof: Bytes, path: seq<Bytes>, key: Bytes, root: Digest, bytes: Bytes,
                             state: Merk)
    returns (element: Bytes)
    requires Trusted(lib) && Accepted(lib, proof, path, key, root, bytes)
    requires root == MerkHash(lib.hash, state)
    requires Ordered(state) && At(state, path).Some?
    requires |path| == 3 && path[0] == Ascii("subgroves") && path[2] == Ascii("data") ==>
               OnlyPlain(At(state, path).value)
    requires CollisionFree(lib.hash,
                           ProofInputs(lib, ParseEnvelope(proof).value.root, path) + MerkInputs(lib.hash, state))
    ensures Get(At(state, path).value, key) == Some(Plain(element))
    ensures DecodeElement(lib.element, element).Some?
            && DecodeElement(lib.element, element).value.Item?
            && DecodeElement(lib.element, element).value.bytes == bytes
  {
    hide HoldsOnlyItems, Ascii;
    DataTreePaths(path);
    var h := lib.hash;
    var top := lib.decode(proof).value.root;
    var inputs := ProofInputs(lib, top, path) + MerkInputs(h, state);
    var results := lib.verify(proof, path, key).value.1;
    assert results[0].path == path;
    LayersMatchState(lib, top, path, state, inputs);
    var layer, sub := LayerAt(top, path).value, At(state, path).value;
    var tree := LayerTree(lib, layer).value;
    var ops := lib.ops(layer.ops);
    CarriedIsPushed(ops, key, 0);
    PushedNodesAreTreeNodes(ops);
    var node := Carried(ops, key)[0];
    var entry := TreeShowsStored(h, tree, sub, node, inputs);
    GetFindsEntry(sub, key, entry);
    GetInputs(h, sub, key);
    NodeInputsIncluded(h, tree, node);
    BoundValueIsStored(h, node.value, entry, inputs);
    if !entry.Plain? {
      GetPlain(sub, key);
    }
    element := node.value;
  }
}
