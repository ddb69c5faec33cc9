/**
 The stored state, a Merk tree of Merk trees, and the proof tree of one layer. A proof tree with the
 state's root shows only what the state holds.
 */
module Grove {
  import opened ByteStrings
  import opened Wrappers
  import opened Hashing
  import opened MerkProof

  // ---------- The stored state ----------

  datatype Merk = NoMerk | MerkNode(key: Bytes, entry: Entry, left: Merk, right: Merk)

  /** What a key holds: a plain element, or an element hashed together with what it leads to. */
  datatype Entry =
    | Plain(element: Bytes)
    | Subtree(element: Bytes, merk: Merk)
    | Reference(element: Bytes, target: Digest)

  function EntryHash(h: HashFunction, entry: Entry): Digest
    decreases entry
  {
    if entry.Plain? then ValueHash(h, entry.element)
    else if entry.Subtree? then CombineHash(h, ValueHash(h, entry.element), MerkHash(h, entry.merk))
    else CombineHash(h, ValueHash(h, entry.element), entry.target)
  }

  function MerkHash(h: HashFunction, m: Merk): Digest
    decreases m
  {
    if m.NoMerk? then NULL_HASH
    else NodeHash(h, KvHash(h, m.key, EntryHash(h, m.entry)), MerkHash(h, m.left), MerkHash(h, m.right))
  }

  /** Every input the state's own hash hashes. */
  function EntryInputs(h: HashFunction, entry: Entry): set<Bytes>
    decreases entry
  {
    {Prefixed(entry.element)} + match entry
                                case Plain(_) => {}
                                case Subtree(element, merk) =>
                                  {ValueHash(h, element) + MerkHash(h, merk)} + MerkInputs(h, merk)
                                case Reference(element, target) => {ValueHash(h, element) + target}
  }

  function MerkInputs(h: HashFunction, m: Merk): set<Bytes>
    decreases m
  {
    match m
    case NoMerk => {}
    case MerkNode(key, entry, left, right) =>
      {NodeInput(KvHash(h, key, EntryHash(h, entry)), MerkHash(h, left), MerkHash(h, right)),
       KvInput(key, EntryHash(h, entry))}
      + EntryInputs(h, entry) + MerkInputs(h, left) + MerkInputs(h, right)
  }

  predicate Less(a: Bytes, b: Bytes)
    decreases |b|
  {
    b != [] && (a == [] || a[0] < b[0] || (a[0] == b[0] && Less(a[1..], b[1..])))
  }

  function Keys(m: Merk): set<Bytes> {
    match m
    case NoMerk => {}
    case MerkNode(key, _, left, right) => {key} + Keys(left) + Keys(right)
  }

  /** A search tree at every level of the state. */
  ghost predicate Ordered(m: Merk) {
    match m
    case NoMerk => true
    case MerkNode(key, entry, left, right) =>
      && (forall k :: k in Keys(left) ==> Less(k, key))
      && (forall k :: k in Keys(right) ==> Less(key, k))
      && Ordered(left) && Ordered(right)
      && (entry.Subtree? ==> Ordered(entry.merk))
  }

  function Get(m: Merk, key: Bytes): Option<Entry> {
    match m
    case NoMerk => None
    case MerkNode(k, entry, left, right) =>
      if key == k then Some(entry) else if Less(key, k) then Get(left, key) else Get(right, key)
  }

  /** The subtree at `path`, if every prefix of it holds one. */
  function At(m: Merk, path: seq<Bytes>): Option<Merk>
    decreases |path|
  {
    if path == [] then Some(m)
    else
      var entry :- Get(m, path[0]);
      if entry.Subtree? then At(entry.merk, path[1..]) else None
  }

  predicate OnlyPlain(m: Merk) {
    match m
    case NoMerk => true
    case MerkNode(_, entry, left, right) => entry.Plain? && OnlyPlain(left) && OnlyPlain(right)
  }

  predicate Has(m: Merk, key: Bytes, entry: Entry) {
    m.MerkNode? && ((m.key == key && m.entry == entry) || Has(m.left, key, entry) || Has(m.right, key, entry))
  }

  lemma {:induction false} LessAsymmetric(a: Bytes, b: Bytes)
    ensures !(Less(a, b) && Less(b, a)) && !Less(a, a)
    decreases |a|
  {
    if a != [] {
      LessAsymmetric(a[1..], if b == [] then [] else b[1..]);
    }
  }

  lemma {:induction false} HasKey(m: Merk, key: Bytes, entry: Entry)
    requires Has(m, key, entry)
    ensures key in Keys(m)
  {
    if Has(m.left, key, entry) {
      HasKey(m.left, key, entry);
    } else if Has(m.right, key, entry) {
      HasKey(m.right, key, entry);
    }
  }

  /** A search tree finds at a key the only entry it has there. */
  lemma {:induction false} GetFindsEntry(m: Merk, key: Bytes, entry: Entry)
    requires Ordered(m) && Has(m, key, entry)
    ensures Get(m, key) == Some(entry)
  {
    LessAsymmetric(key, m.key);
    if Has(m.left, key, entry) {
      HasKey(m.left, key, entry);
      GetFindsEntry(m.left, key, entry);
    } else if Has(m.right, key, entry) {
      HasKey(m.right, key, entry);
      GetFindsEntry(m.right, key, entry);
    }
  }

  lemma {:induction false} GetOrdered(m: Merk, key: Bytes)
    requires Ordered(m) && Get(m, key).Some? && Get(m, key).value.Subtree?
    ensures Ordered(Get(m, key).value.merk)
  {
    if key != m.key {
      GetOrdered(if Less(key, m.key) then m.left else m.right, key);
    }
  }

  lemma {:induction false} GetInputs(h: HashFunction, m: Merk, key: Bytes)
    requires Get(m, key).Some?
    ensures EntryInputs(h, Get(m, key).value) <= MerkInputs(h, m)
  {
    if key != m.key {
      GetInputs(h, if Less(key, m.key) then m.left else m.right, key);
    }
  }

  lemma {:induction false} GetPlain(m: Merk, key: Bytes)
    requires OnlyPlain(m) && Get(m, key).Some?
    ensures Get(m, key).value.Plain?
  {
    if key != m.key {
      GetPlain(if Less(key, m.key) then m.left else m.right, key);
    }
  }

  // ---------- The proof tree of a layer ----------

  /** The value hash by which a node enters its layer's root. */
  function EntersAs(h: HashFunction, node: Node): Digest
    requires node.HasKey()
  {
    match node
    case KV(_, value) => ValueHash(h, value)
    case KVValueHash(_, _, valueHash) => valueHash
    case KVValueHashFeatureType(_, _, valueHash) => valueHash
    case KVRefValueHash(_, value, valueHash) => CombineHash(h, valueHash, ValueHash(h, value))
    case KVDigest(_, valueHash) => valueHash
  }

  function ChildOf(tree: Tree, side: Side): (c: Option<Tree>)
    ensures c.Some? ==> c.value < tree
  {
    match tree
    case Leaf(_) => None
    case Attach(parent, s, child) => if s == side then Some(child) else ChildOf(parent, side)
  }

  /** No side of a node is attached to twice. */
  predicate Binary(tree: Tree) {
    match tree
    case Leaf(_) => true
    case Attach(parent, side, child) => ChildOf(parent, side).None? && Binary(parent) && Binary(child)
  }

  function TopKv(h: HashFunction, tree: Tree): Digest
    requires !Top(tree).Hash?
  {
    var node := Top(tree);
    if node.KVHash? then node.kvHash else KvHash(h, node.key, EntersAs(h, node))
  }

  function TreeHash(h: HashFunction, tree: Tree): Digest
    decreases tree, 1
  {
    if Top(tree).Hash? then Top(tree).hash
    else NodeHash(h, TopKv(h, tree), ChildHash(h, tree, Left), ChildHash(h, tree, Right))
  }

  function ChildHash(h: HashFunction, tree: Tree, side: Side): Digest
    decreases tree, 0
  {
    match ChildOf(tree, side)
    case None => NULL_HASH
    case Some(child) => TreeHash(h, child)
  }

  function NodeInputs(h: HashFunction, node: Node): set<Bytes> {
    (if node.HasKey() then {KvInput(node.key, EntersAs(h, node))} else {})
    + (if node.HasValue() then {Prefixed(node.value)} else {})
    + (if node.KVRefValueHash? then {node.valueHash + ValueHash(h, node.value)} else {})
  }

  /** Every input hashed to compute a layer's root. */
  function TreeInputs(h: HashFunction, tree: Tree): set<Bytes>
    decreases tree, 1
  {
    NodeInputs(h, Top(tree))
    + (if Top(tree).Hash? then {}
       else {NodeInput(TopKv(h, tree), ChildHash(h, tree, Left), ChildHash(h, tree, Right))})
    + ChildInputs(h, tree, Left) + ChildInputs(h, tree, Right)
  }

  function ChildInputs(h: HashFunction, tree: Tree, side: Side): set<Bytes>
    decreases tree, 0
  {
    match ChildOf(tree, side)
    case None => {}
    case Some(child) => TreeInputs(h, child)
  }

  lemma {:induction false} ChildKeepsShape(tree: Tree, side: Side)
    requires OpaqueChildless(tree) && Binary(tree) && ChildOf(tree, side).Some?
    ensures OpaqueChildless(ChildOf(tree, side).value) && Binary(ChildOf(tree, side).value)
    ensures !Top(tree).Hash?
  {
    if tree.side != side {
      ChildKeepsShape(tree.parent, side);
    }
  }

  /** In a tree no side of which is attached to twice, every node hangs where the hash looks. */
  lemma {:induction false} NodeIsReached(tree: Tree, node: Node)
    requires Binary(tree) && node in Nodes(tree)
    ensures node == Top(tree)
            || (ChildOf(tree, Left).Some? && node in Nodes(ChildOf(tree, Left).value))
            || (ChildOf(tree, Right).Some? && node in Nodes(ChildOf(tree, Right).value))
  {
    match tree
    case Leaf(_) =>
    case Attach(parent, _, child) =>
      if node in Nodes(parent) {
        NodeIsReached(parent, node);
      }
  }

  /**
   A proof tree that hashes to a stored Merk's root, no opaque node of which has a child, shows a key
   only where the stored Merk has it, with the same value hash.
   */
  lemma {:induction false} TreeShowsStored(h: HashFunction, tree: Tree, m: Merk, node: Node, inputs: set<Bytes>)
    returns (entry: Entry)
    requires CollisionFree(h, inputs) && TreeInputs(h, tree) <= inputs && MerkInputs(h, m) <= inputs
    requires TreeHash(h, tree) == MerkHash(h, m)
    requires OpaqueChildless(tree) && Binary(tree)
    requires node in Nodes(tree) && node.HasKey()
    ensures Has(m, node.key, entry) && EntryHash(h, entry) == EntersAs(h, node)
    decreases tree
  {
    NodeIsReached(tree, node);
    var side := if ChildOf(tree, Left).Some? && node in Nodes(ChildOf(tree, Left).value) then Left else Right;
    if node != Top(tree) {
      ChildKeepsShape(tree, side);
    }
    var treeInput := NodeInput(TopKv(h, tree), ChildHash(h, tree, Left), ChildHash(h, tree, Right));
    assert treeInput in inputs;
    assert m.MerkNode?;
    var mKv := KvHash(h, m.key, EntryHash(h, m.entry));
    assert NodeInput(mKv, MerkHash(h, m.left), MerkHash(h, m.right)) in inputs;
    NodeInputInjective(TopKv(h, tree), ChildHash(h, tree, Left), ChildHash(h, tree, Right),
                       mKv, MerkHash(h, m.left), MerkHash(h, m.right));
    if node == Top(tree) {
      assert KvInput(node.key, EntersAs(h, node)) in NodeInputs(h, node);
      assert KvInput(m.key, EntryHash(h, m.entry)) in inputs;
      KvInputInjective(node.key, EntersAs(h, node), m.key, EntryHash(h, m.entry));
      entry := m.entry;
    } else {
      assert TreeInputs(h, ChildOf(tree, side).value) == ChildInputs(h, tree, side) <= TreeInputs(h, tree);
      entry := TreeShowsStored(h, ChildOf(tree, side).value, if side.Left? then m.left else m.right, node, inputs);
    }
  }

  lemma {:induction false} NodeInputsIncluded(h: HashFunction, tree: Tree, node: Node)
    requires Binary(tree) && node in Nodes(tree)
    ensures NodeInputs(h, node) <= TreeInputs(h, tree)
    decreases tree
  {
    NodeIsReached(tree, node);
    if node != Top(tree) {
      var side := if ChildOf(tree, Left).Some? && node in Nodes(ChildOf(tree, Left).value) then Left else Right;
      ChildIsBinary(tree, side);
      NodeInputsIncluded(h, ChildOf(tree, side).value, node);
      assert TreeInputs(h, ChildOf(tree, side).value) == ChildInputs(h, tree, side);
    }
  }

  lemma {:induction false} ChildIsBinary(tree: Tree, side: Side)
    requires Binary(tree) && ChildOf(tree, side).Some?
    ensures Binary(ChildOf(tree, side).value)
  {
    if tree.side != side {
      ChildIsBinary(tree.parent, side);
    }
  }
}
