/**
 Proofs an honest prover builds of any state: in each layer the nodes on the way to a key, the hashes of
 what hangs off it, and each layer bound into the one above. What the checker makes of them is the other
 half of its soundness.
 */
module HonestItem {
  import opened ByteStrings
  import opened Wrappers
  import opened Envelope
  import opened EnvelopeCodec
  import opened Hashing
  import opened MerkProof
  import opened ProofWriting
  import opened Grove
  import opened ItemProof
  import opened ItemSoundness
  import opened Text

  // ---------- Ops for a tree ----------

  /** Ops that build a tree: a left child before its parent, a right one after. */
  function Ops(tree: Tree): (ops: seq<Option<Op>>)
    ensures AllDecode(ops)
  {
    match tree
    case Leaf(node) => [Some(Push(node))]
    case Attach(parent, Left, child) => Ops(child) + Ops(parent) + [Some(Parent)]
    case Attach(parent, Right, child) => Ops(parent) + Ops(child) + [Some(Child)]
  }

  predicate AllDecode(ops: seq<Option<Op>>) {
    forall i :: 0 <= i < |ops| ==> ops[i].Some?
  }

  lemma {:induction false} OpsPush(tree: Tree, stack: seq<Tree>)
    ensures Run(Ops(tree), stack) == Some(stack + [tree])
    decreases tree
  {
    match tree
    case Leaf(node) => RunOne(Push(node), stack);
    case Attach(parent, side, child) =>
      var (first, second) := if side.Left? then (child, parent) else (parent, child);
      var last := if side.Left? then Op.Parent else Op.Child;
      var both := stack + [first] + [second];
      OpsPush(first, stack);
      OpsPush(second, stack + [first]);
      RunAppend(Ops(first), Ops(second), stack);
      RunAppend(Ops(first) + Ops(second), [Some(last)], stack);
      RunOne(last, both);
      assert both[..|both| - 2] == stack;
  }

  /** Every tree is built by its ops. */
  lemma OpsBuild(tree: Tree)
    ensures Build(Ops(tree)) == Some(tree)
  {
    OpsPush(tree, []);
    assert [] + [tree] == [tree];
  }

  lemma {:induction false} CarriedAppend(a: seq<Option<Op>>, b: seq<Option<Op>>, key: Bytes)
    ensures Carried(a + b, key) == Carried(a, key) + Carried(b, key)
  {
    if b == [] {
      assert a + b == a;
    } else {
      var init := b[..|b| - 1];
      CarriedAppend(a, init, key);
      assert (a + b)[..|a + b| - 1] == a + init;
    }
  }

  lemma CarriedOne(op: Op, key: Bytes)
    ensures Carried([Some(op)], key)
         == if (op.Push? || op.PushInverted?) && op.node.HasKey() && op.node.key == key then [op.node] else []
  {
    var ops: seq<Option<Op>> := [Some(op)];
    assert ops[..0] == [];
  }

  lemma CarriedAttach(tree: Tree, key: Bytes)
    requires tree.Attach?
    ensures Carried(Ops(tree), key)
         == if tree.side.Left? then Carried(Ops(tree.child), key) + Carried(Ops(tree.parent), key)
            else Carried(Ops(tree.parent), key) + Carried(Ops(tree.child), key)
  {
    hide Carried;
    var (first, second) := if tree.side.Left? then (tree.child, tree.parent) else (tree.parent, tree.child);
    var last := if tree.side.Left? then Op.Parent else Op.Child;
    CarriedAppend(Ops(first), Ops(second), key);
    CarriedAppend(Ops(first) + Ops(second), [Some(last)], key);
    CarriedOne(last, key);
  }

  // ---------- The tree that shows a key ----------

  /** The node of a key's own entry: an Item's value enters the root, a subtree's only by its hash. */
  function EntryNode(h: HashFunction, key: Bytes, entry: Entry): Node {
    if entry.Plain? then KV(key, entry.element) else KVValueHash(key, entry.element, EntryHash(h, entry))
  }

  /** A child of a shown node: shown itself on the way to the key, else a hash; none when there is none. */
  function WithChild(h: HashFunction, tree: Tree, side: Side, child: Merk, shown: Option<Tree>): Tree {
    if child.NoMerk? then tree
    else Attach(tree, side, if shown.Some? then shown.value else Leaf(Hash(MerkHash(h, child))))
  }

  function Shown(h: HashFunction, m: Merk, key: Bytes): Tree
    requires Get(m, key).Some?
    decreases m
  {
    if key == m.key then
      WithChild(h, WithChild(h, Leaf(EntryNode(h, key, m.entry)), Left, m.left, None), Right, m.right, None)
    else
      var top := Leaf(KVHash(KvHash(h, m.key, EntryHash(h, m.entry))));
      if Less(key, m.key) then
        WithChild(h, WithChild(h, top, Left, m.left, Some(Shown(h, m.left, key))), Right, m.right, None)
      else
        WithChild(h, WithChild(h, top, Left, m.left, None), Right, m.right, Some(Shown(h, m.right, key)))
  }

  /** A child attached on a free side is the one the hash finds there, and changes nothing else. */
  lemma ChildJoins(h: HashFunction, tree: Tree, side: Side, child: Merk, shown: Option<Tree>)
    requires !Top(tree).Hash? && ChildOf(tree, side).None? && Binary(tree) && OpaqueChildless(tree)
    requires shown.Some? ==>
               TreeHash(h, shown.value) == MerkHash(h, child) && Binary(shown.value) && OpaqueChildless(shown.value)
    ensures var joined := WithChild(h, tree, side, child, shown);
            && Top(joined) == Top(tree) && Binary(joined) && OpaqueChildless(joined)
            && ChildHash(h, joined, side) == MerkHash(h, child)
            && forall other: Side :: other != side ==> ChildOf(joined, other) == ChildOf(tree, other)
  {
    HashLeaf(h, MerkHash(h, child));
    assert MerkHash(h, NoMerk) == NULL_HASH;
  }

  /** A tree of a top and at most one child a side hashes to what a Merk node of the same parts does. */
  lemma JoinedTree(h: HashFunction, node: Node, left: Merk, l: Option<Tree>, right: Merk, r: Option<Tree>)
    requires !node.Hash?
    requires l.Some? ==> TreeHash(h, l.value) == MerkHash(h, left) && Binary(l.value) && OpaqueChildless(l.value)
    requires r.Some? ==> TreeHash(h, r.value) == MerkHash(h, right) && Binary(r.value) && OpaqueChildless(r.value)
    ensures var tree := WithChild(h, WithChild(h, Leaf(node), Left, left, l), Right, right, r);
            && Top(tree) == node && Binary(tree) && OpaqueChildless(tree)
            && TreeHash(h, tree) == NodeHash(h, TopKv(h, Leaf(node)), MerkHash(h, left), MerkHash(h, right))
  {
    hide WithChild, MerkHash;
    var inner := WithChild(h, Leaf(node), Left, left, l);
    var tree := WithChild(h, inner, Right, right, r);
    ChildJoins(h, Leaf(node), Left, left, l);
    assert ChildOf(inner, Right) == ChildOf(Leaf(node), Right) == None;
    ChildJoins(h, inner, Right, right, r);
    assert ChildOf(tree, Left) == ChildOf(inner, Left);
  }

  lemma HashLeaf(h: HashFunction, d: Digest)
    ensures TreeHash(h, Leaf(Hash(d))) == d
  {
  }

  /** The tree that shows a key hashes to the Merk's root, for any stored Merk. */
  lemma {:induction false} ShownIsRoot(h: HashFunction, m: Merk, key: Bytes)
    requires Get(m, key).Some?
    ensures var tree := Shown(h, m, key);
            TreeHash(h, tree) == MerkHash(h, m) && Binary(tree) && OpaqueChildless(tree)
    decreases m
  {
    hide Binary, OpaqueChildless, WithChild;
    if key == m.key {
      JoinedTree(h, EntryNode(h, key, m.entry), m.left, None, m.right, None);
    } else {
      var node := KVHash(KvHash(h, m.key, EntryHash(h, m.entry)));
      if Less(key, m.key) {
        ShownIsRoot(h, m.left, key);
        JoinedTree(h, node, m.left, Some(Shown(h, m.left, key)), m.right, None);
      } else {
        ShownIsRoot(h, m.right, key);
        JoinedTree(h, node, m.left, None, m.right, Some(Shown(h, m.right, key)));
      }
    }
  }

  /** What a child adds: the nodes it names, and the values it carries. */
  lemma ChildAdds(h: HashFunction, tree: Tree, side: Side, child: Merk, shown: Option<Tree>, key: Bytes,
                  decoder: ElementDecoder)
    requires shown.Some? ==> child.MerkNode?
    ensures var joined := WithChild(h, tree, side, child, shown);
            var added := if shown.Some? then Carried(Ops(shown.value), key) else [];
            && Carried(Ops(joined), key)
               == (if side.Left? then added + Carried(Ops(tree), key) else Carried(Ops(tree), key) + added)
            && (ValuesDecode(decoder, joined)
                <==> ValuesDecode(decoder, tree) && (shown.Some? ==> ValuesDecode(decoder, shown.value)))
            && Nodes(tree) <= Nodes(joined) && (shown.Some? ==> Nodes(shown.value) <= Nodes(joined))
  {
    hide Carried, DecodeElement;
    if child.MerkNode? {
      var hash := Hash(MerkHash(h, child));
      CarriedOne(Push(hash), key);
      assert Ops(Leaf(hash)) == [Some(Push(hash))];
      CarriedAttach(WithChild(h, tree, side, child, shown), key);
      assert [] + Carried(Ops(tree), key) == Carried(Ops(tree), key) + [] == Carried(Ops(tree), key);
    }
  }

  lemma TopShows(node: Node, key: Bytes)
    ensures Carried(Ops(Leaf(node)), key) == if node.HasKey() && node.key == key then [node] else []
  {
    CarriedOne(Push(node), key);
  }

  /** The tree that shows a key carries its entry once, and no other value. */
  lemma {:induction false} ShownCarries(h: HashFunction, m: Merk, key: Bytes, decoder: ElementDecoder)
    requires Get(m, key).Some?
    ensures var (tree, entry) := (Shown(h, m, key), Get(m, key).value);
            && Carried(Ops(tree), key) == [EntryNode(h, key, entry)]
            && EntryNode(h, key, entry) in Nodes(tree)
            && (ValuesDecode(decoder, tree) <==> DecodeElement(decoder, entry.element).Some?)
    decreases m
  {
    hide Carried, WithChild, DecodeElement, Ops;
    var other := KVHash(KvHash(h, m.key, EntryHash(h, m.entry)));
    var top := Leaf(if key == m.key then EntryNode(h, key, m.entry) else other);
    var l := if key != m.key && Less(key, m.key) then Some(Shown(h, m.left, key)) else None;
    var r := if key != m.key && !Less(key, m.key) then Some(Shown(h, m.right, key)) else None;
    if l.Some? {
      ShownCarries(h, m.left, key, decoder);
    } else if r.Some? {
      ShownCarries(h, m.right, key, decoder);
    }
    TopShows(top.node, key);
    var inner := WithChild(h, top, Left, m.left, l);
    ChildAdds(h, top, Left, m.left, l, key, decoder);
    ChildAdds(h, inner, Right, m.right, r, key, decoder);
    assert Shown(h, m, key) == WithChild(h, inner, Right, m.right, r);
  }

  // ---------- The layers of a proof ----------

  /** How a prover writes ops. */
  type OpWriter = seq<Option<Op>> -> Bytes

  /** The checker's decoder reads back what the prover writes. */
  ghost predicate Reads(lib: Library, write: OpWriter) {
    forall ops :: AllDecode(ops) ==> lib.ops(write(ops)) == ops
  }

  /** The proof of `key` in the subtree at `path` of the state: a layer a segment, and one that shows the key. */
  function ProofLayer(h: HashFunction, write: OpWriter, m: Merk, path: seq<Bytes>, key: Bytes): Layer
    requires At(m, path).Some? && Get(At(m, path).value, key).Some?
    decreases |path|
  {
    if path == [] then Layer(write(Ops(Shown(h, m, key))), Empty)
    else
      Layer(write(Ops(Shown(h, m, path[0]))),
            Lower(path[0], ProofLayer(h, write, Get(m, path[0]).value.merk, path[1..], key), Empty))
  }

  /** The elements a proof along `path` carries decode: those of the subtrees on the way, and the key's. */
  predicate PathDecodes(decoder: ElementDecoder, m: Merk, path: seq<Bytes>, key: Bytes)
    requires At(m, path).Some? && Get(At(m, path).value, key).Some?
    decreases |path|
  {
    if path == [] then DecodeElement(decoder, Get(m, key).value.element).Some?
    else
      && DecodeElement(decoder, Get(m, path[0]).value.element).Some?
      && PathDecodes(decoder, Get(m, path[0]).value.merk, path[1..], key)
  }

  /** The key a layer shows. */
  function ShownKey(path: seq<Bytes>, key: Bytes): Bytes {
    if path == [] then key else path[0]
  }

  lemma LayerIsShown(lib: Library, write: OpWriter, m: Merk, path: seq<Bytes>, key: Bytes)
    requires Reads(lib, write) && At(m, path).Some? && Get(At(m, path).value, key).Some?
    ensures var layer := ProofLayer(lib.hash, write, m, path, key);
            && lib.ops(layer.ops) == Ops(Shown(lib.hash, m, ShownKey(path, key)))
            && LayerTree(lib, layer) == Some(Shown(lib.hash, m, ShownKey(path, key)))
            && LayerRoot(lib, layer) == MerkHash(lib.hash, m)
  {
    hide Shown, Ops;
    var tree := Shown(lib.hash, m, ShownKey(path, key));
    OpsBuild(tree);
    ShownIsRoot(lib.hash, m, ShownKey(path, key));
  }

  /** The layers are what GroveDB's verifier demands: trees, each bound into the one above. */
  lemma {:induction false} LayersVerify(lib: Library, write: OpWriter, m: Merk, path: seq<Bytes>, key: Bytes)
    requires Reads(lib, write) && At(m, path).Some? && Get(At(m, path).value, key).Some?
    ensures Verified(lib, ProofLayer(lib.hash, write, m, path, key), path)
    decreases |path|
  {
    hide Shown, Ops, LayerTree, LayerRoot, Binary, DecodeElement;
    var layer := ProofLayer(lib.hash, write, m, path, key);
    LayerIsShown(lib, write, m, path, key);
    ShownIsRoot(lib.hash, m, ShownKey(path, key));
    if path != [] {
      var entry := Get(m, path[0]).value;
      var lower := ProofLayer(lib.hash, write, entry.merk, path[1..], key);
      assert LookupLower(layer.lower, path[0]) == Some(lower);
      LayersVerify(lib, write, entry.merk, path[1..], key);
      LayerIsShown(lib, write, entry.merk, path[1..], key);
      ShownCarries(lib.hash, m, path[0], lib.element);
      assert BindsLower(lib, LayerTree(lib, layer).value, path[0], lower, EntryNode(lib.hash, path[0], entry));
    }
  }

  lemma {:induction false} LayersPass(lib: Library, write: OpWriter, m: Merk, path: seq<Bytes>, key: Bytes)
    requires Reads(lib, write) && At(m, path).Some? && Get(At(m, path).value, key).Some?
    requires PathDecodes(lib.element, m, path, key)
    ensures LayersChecked(lib, ProofLayer(lib.hash, write, m, path, key))
    decreases |path|
  {
    hide Shown, Ops, DecodeElement, ValuesDecode, OpaqueChildless;
    LayerIsShown(lib, write, m, path, key);
    OpsBuild(Shown(lib.hash, m, ShownKey(path, key)));
    ShownIsRoot(lib.hash, m, ShownKey(path, key));
    ShownCarries(lib.hash, m, ShownKey(path, key), lib.element);
    if path != [] {
      LayersPass(lib, write, Get(m, path[0]).value.merk, path[1..], key);
    }
  }

  lemma {:induction false} DescendsToItem(h: HashFunction, write: OpWriter, m: Merk, path: seq<Bytes>, key: Bytes)
    requires At(m, path).Some? && Get(At(m, path).value, key).Some?
    ensures LayerAt(ProofLayer(h, write, m, path, key), path) == Some(ProofLayer(h, write, At(m, path).value, [], key))
    decreases |path|
  {
    hide Shown, Ops;
    if path != [] {
      var layer, sub := ProofLayer(h, write, m, path, key), Get(m, path[0]).value.merk;
      assert LookupLower(layer.lower, path[0]) == Some(ProofLayer(h, write, sub, path[1..], key));
      DescendsToItem(h, write, sub, path[1..], key);
    }
  }

  lemma {:induction false} LayersCounted(h: HashFunction, write: OpWriter, m: Merk, path: seq<Bytes>, key: Bytes)
    requires At(m, path).Some? && Get(At(m, path).value, key).Some?
    ensures var layer := ProofLayer(h, write, m, path, key);
            Levels(layer) == LayerCount(layer) == |path| + 1
    decreases |path|
  {
    hide Shown, Ops;
    if path != [] {
      LayersCounted(h, write, Get(m, path[0]).value.merk, path[1..], key);
      assert ForestLevels(Empty) == 0 && ForestCount(Empty) == 0;
    }
  }

  // ---------- What the checker makes of it ----------

  /** GroveDB's verifier finds in an honest proof the one Item it proves. */
  ghost predicate Finds(lib: Library, proof: Bytes, state: Merk, path: seq<Bytes>, key: Bytes, element: Element) {
    lib.verify(proof, path, key) == Some((MerkHash(lib.hash, state), [QueryResult(path, key, Some(element))]))
  }

  lemma AcceptedByRule(lib: Library, write: OpWriter, state: Merk, path: seq<Bytes>, key: Bytes, item: Bytes,
                       element: Element)
    requires Reads(lib, write) && At(state, path).Some? && Get(At(state, path).value, key) == Some(Plain(item))
    requires PathDecodes(lib.element, state, path, key)
    requires DecodeElement(lib.element, item) == Some(element) && element.Item?
    requires var layer := ProofLayer(lib.hash, write, state, path, key);
             EncodableLayer(layer)
             && var envelope := EnvelopeV0(layer, true);
             && (Bounded(EncodeEnvelope(envelope)) ==> lib.decode(EncodeEnvelope(envelope)) == Some(envelope))
             && Finds(lib, EncodeEnvelope(envelope), state, path, key, element)
    ensures var layer := ProofLayer(lib.hash, write, state, path, key);
            var proof := EncodeEnvelope(EnvelopeV0(layer, true));
            Accepted(lib, proof, path, key, MerkHash(lib.hash, state), element.bytes)
            <==> |proof| <= MAX_PROOF_BYTES && |path| <= MAX_LAYER_DEPTH
                 && (|item| == AMBIGUOUS_ELEMENT_LEN ==> HoldsOnlyItems(path))
  {
    hide LayersChecked, LayerAt, HoldsOnlyItems, MerkHash, Shown, Ops, DecodeElement, ProofLayer, Bounded, Carried,
      PathDecodes, At, Get, EncodeEnvelope, Reads;
    var envelope := EnvelopeV0(ProofLayer(lib.hash, write, state, path, key), true);
    HonestEnvelopeIsBounded(envelope);
    LayersCounted(lib.hash, write, state, path, key);
    DescendsToItem(lib.hash, write, state, path, key);
    LayersPass(lib, write, state, path, key);
    ItemIsCarried(lib, write, At(state, path).value, key, item);
    EnvelopeNotEmpty(envelope);
  }

  /**
   The checker accepts an honest proof of any Item of any state exactly when it fits: at most 1 MiB, at most 64
   levels down, and not an element of 63 bytes outside a data tree.
   */
  lemma HonestProofIsAccepted(lib: Library, write: OpWriter, state: Merk, path: seq<Bytes>, key: Bytes, item: Bytes,
                              element: Element)
    requires Reads(lib, write) && At(state, path).Some? && Get(At(state, path).value, key) == Some(Plain(item))
    requires PathDecodes(lib.element, state, path, key)
    requires DecodeElement(lib.element, item) == Some(element) && element.Item?
    requires var layer := ProofLayer(lib.hash, write, state, path, key);
             EncodableLayer(layer)
             && var envelope := EnvelopeV0(layer, true);
             && (Bounded(EncodeEnvelope(envelope)) ==> lib.decode(EncodeEnvelope(envelope)) == Some(envelope))
             && Finds(lib, EncodeEnvelope(envelope), state, path, key, element)
    ensures var layer := ProofLayer(lib.hash, write, state, path, key);
            var proof := EncodeEnvelope(EnvelopeV0(layer, true));
            Accepted(lib, proof, path, key, MerkHash(lib.hash, state), element.bytes)
            <==> && |proof| <= 0x10_0000 && |path| <= 64
                 && (|item| == 63 ==>
                       |path| == 3 && path[0] == Ascii("subgroves") && path[2] == Ascii("data"))
  {
    hide Accepted, HoldsOnlyItems, Ascii, MerkHash, DecodeElement, ProofLayer, Bounded, PathDecodes, At, Get,
      EncodeEnvelope, EncodableLayer, Reads, Finds;
    AcceptedByRule(lib, write, state, path, key, item, element);
    DataTreePaths(path);
  }

  lemma ItemIsCarried(lib: Library, write: OpWriter, m: Merk, key: Bytes, item: Bytes)
    requires Reads(lib, write) && Get(m, key) == Some(Plain(item))
    ensures At(m, []) == Some(m)
    ensures var layer := ProofLayer(lib.hash, write, m, [], key);
            layer.lower.Empty? && Carried(lib.ops(layer.ops), key) == [KV(key, item)]
  {
    hide Shown, Ops, Carried, DecodeElement;
    LayerIsShown(lib, write, m, [], key);
    ShownCarries(lib.hash, m, key, lib.element);
  }

  lemma EnvelopeNotEmpty(envelope: EnvelopeV0)
    requires EncodableLayer(envelope.root)
    ensures EncodeEnvelope(envelope) != []
  {
  }
}
