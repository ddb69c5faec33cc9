/**
 The ops of one proof layer: a stack machine that builds a tree, and the check that runs the same
 ops with one bit per subtree.
 */
module MerkProof {
  import opened ByteStrings
  import opened Wrappers
  import opened DecodeBudget

  datatype Node =
    | Hash(hash: Digest)
    | KVHash(kvHash: Digest)
    | KV(key: Bytes, value: Bytes)
    | KVValueHash(key: Bytes, value: Bytes, valueHash: Digest)
    | KVValueHashFeatureType(key: Bytes, value: Bytes, valueHash: Digest)
    | KVRefValueHash(key: Bytes, value: Bytes, valueHash: Digest)
    | KVDigest(key: Bytes, valueHash: Digest)
  {
    predicate HasKey() {
      !Hash? && !KVHash?
    }

    predicate HasValue() {
      KV? || KVValueHash? || KVValueHashFeatureType? || KVRefValueHash?
    }
  }

  datatype Op =
    | Push(node: Node)
    | PushInverted(node: Node)
    | Parent | ParentInverted
    | Child | ChildInverted

  datatype Element = Item(bytes: Bytes, flags: Option<Bytes>) | OtherElement(kind: byte)

  /** bincode's decoding of an element: the value and the most it may claim. */
  type ElementDecoder = (Bytes, nat) -> Option<Element>

  /** A node value's element, decoded within a bound set by its own size. */
  function DecodeElement(decoder: ElementDecoder, value: Bytes): Option<Element> {
    if |value| > MAX_ELEMENT_BYTES then None else decoder(value, ElementClass(|value|))
  }

  // ---------- The tree the ops build ----------

  datatype Side = Left | Right

  /** A node and, outermost last, the subtrees attached to it. */
  datatype Tree = Leaf(node: Node) | Attach(parent: Tree, side: Side, child: Tree)

  function Top(tree: Tree): Node {
    match tree
    case Leaf(node) => node
    case Attach(parent, _, _) => Top(parent)
  }

  function Nodes(tree: Tree): multiset<Node> {
    match tree
    case Leaf(node) => multiset{node}
    case Attach(parent, _, child) => Nodes(parent) + Nodes(child)
  }

  /** No child hangs under an opaque `Hash` node. */
  predicate OpaqueChildless(tree: Tree) {
    match tree
    case Leaf(_) => true
    case Attach(parent, _, child) => !Top(parent).Hash? && OpaqueChildless(parent) && OpaqueChildless(child)
  }

  predicate NodeDecodes(decoder: ElementDecoder, node: Node) {
    node.HasValue() ==> DecodeElement(decoder, node.value).Some?
  }

  predicate ValuesDecode(decoder: ElementDecoder, tree: Tree) {
    match tree
    case Leaf(node) => NodeDecodes(decoder, node)
    case Attach(parent, _, child) => ValuesDecode(decoder, parent) && ValuesDecode(decoder, child)
  }

  predicate Sound(decoder: ElementDecoder, tree: Tree) {
    OpaqueChildless(tree) && ValuesDecode(decoder, tree)
  }

  /** One op on a stack of trees. `Parent` ops find the parent on top; `Child` ops find it one below. */
  function Step(op: Op, stack: seq<Tree>): Option<seq<Tree>> {
    match op
    case Push(node) => Some(stack + [Leaf(node)])
    case PushInverted(node) => Some(stack + [Leaf(node)])
    case Parent => Fold(stack, 1, Left)
    case ParentInverted => Fold(stack, 1, Right)
    case Child => Fold(stack, 2, Right)
    case ChildInverted => Fold(stack, 2, Left)
  }

  /** Replaces the two trees at the top by one: the parent, `depth` from the top, with the other attached. */
  function Fold(stack: seq<Tree>, depth: nat, side: Side): Option<seq<Tree>>
    requires depth == 1 || depth == 2
  {
    if |stack| < 2 then None
    else Some(stack[..|stack| - 2] + [Attach(stack[|stack| - depth], side, stack[|stack| - 3 + depth])])
  }

  /** Runs ops as they are decoded; one that doesn't decode (`None`) ends the run. */
  function Run(ops: seq<Option<Op>>, stack: seq<Tree>): Option<seq<Tree>>
    decreases |ops|
  {
    if ops == [] then Some(stack)
    else
      var op :- ops[0];
      var next :- Step(op, stack);
      Run(ops[1..], next)
  }

  /** The one tree the ops build, if they build one. */
  function Build(ops: seq<Option<Op>>): Option<Tree> {
    var stack :- Run(ops, []);
    if |stack| == 1 then Some(stack[0]) else None
  }

  predicate Checked(decoder: ElementDecoder, ops: seq<Option<Op>>) {
    Build(ops).Some? && Sound(decoder, Build(ops).value)
  }

  function Pushed(ops: seq<Option<Op>>): multiset<Node>
    decreases |ops|
  {
    if ops == [] then multiset{}
    else
      (if ops[0].Some? && (ops[0].value.Push? || ops[0].value.PushInverted?)
       then multiset{ops[0].value.node} else multiset{})
      + Pushed(ops[1..])
  }

  function StackNodes(stack: seq<Tree>): multiset<Node> {
    if stack == [] then multiset{} else StackNodes(stack[..|stack| - 1]) + Nodes(stack[|stack| - 1])
  }

  lemma StepNodes(op: Op, stack: seq<Tree>)
    requires Step(op, stack).Some?
    ensures StackNodes(Step(op, stack).value) == StackNodes(stack) + Pushed([Some(op)])
  {
    assert [Some(op)][1..] == [];
    if op.Push? || op.PushInverted? {
      assert (stack + [Leaf(op.node)])[..|stack|] == stack;
    } else if op.Parent? || op.ParentInverted? {
      FoldNodes(stack, 1, if op.Parent? then Left else Right);
    } else {
      FoldNodes(stack, 2, if op.ChildInverted? then Left else Right);
    }
  }

  lemma FoldNodes(stack: seq<Tree>, depth: nat, side: Side)
    requires (depth == 1 || depth == 2) && |stack| >= 2
    ensures StackNodes(Fold(stack, depth, side).value) == StackNodes(stack)
  {
    var below, next := stack[..|stack| - 2], Fold(stack, depth, side).value;
    assert next[..|next| - 1] == below;
    assert stack[..|stack| - 1][..|stack| - 2] == below;
  }

  lemma {:induction false} RunNodes(ops: seq<Option<Op>>, stack: seq<Tree>)
    requires Run(ops, stack).Some?
    ensures StackNodes(Run(ops, stack).value) == StackNodes(stack) + Pushed(ops)
    decreases |ops|
  {
    if ops != [] {
      var op := ops[0].value;
      StepNodes(op, stack);
      assert [Some(op)][1..] == [];
      RunNodes(ops[1..], Step(op, stack).value);
    }
  }

  /** The nodes pushed are exactly the nodes of the final tree, each as often. */
  lemma PushedNodesAreTreeNodes(ops: seq<Option<Op>>)
    requires Build(ops).Some?
    ensures Pushed(ops) == Nodes(Build(ops).value)
  {
    RunNodes(ops, []);
    var stack := Run(ops, []).value;
    assert stack[..0] == [];
    assert StackNodes([]) == multiset{};
  }

  predicate AllSound(decoder: ElementDecoder, stack: seq<Tree>) {
    forall i :: 0 <= i < |stack| ==> Sound(decoder, stack[i])
  }

  lemma StepBackSound(decoder: ElementDecoder, op: Op, stack: seq<Tree>)
    requires Step(op, stack).Some? && AllSound(decoder, Step(op, stack).value)
    ensures AllSound(decoder, stack)
  {
    var next := Step(op, stack).value;
    if op.Push? || op.PushInverted? {
      assert forall i :: 0 <= i < |stack| ==> stack[i] == next[i];
    } else {
      assert Sound(decoder, next[|next| - 1]);
      assert forall i :: 0 <= i < |stack| - 2 ==> stack[i] == next[i];
    }
  }

  /** A tree that is not sound stays so, whatever later ops do with it. */
  lemma {:induction false} RunBackSound(decoder: ElementDecoder, ops: seq<Option<Op>>, stack: seq<Tree>)
    requires Run(ops, stack).Some? && AllSound(decoder, Run(ops, stack).value)
    ensures AllSound(decoder, stack)
    decreases |ops|
  {
    if ops != [] {
      var next := Step(ops[0].value, stack).value;
      RunBackSound(decoder, ops[1..], next);
      StepBackSound(decoder, ops[0].value, stack);
    }
  }

  lemma {:induction false} RunSplits(ops: seq<Option<Op>>, i: nat, stack: seq<Tree>)
    requires i <= |ops|
    ensures Run(ops, stack) == (match Run(ops[..i], stack) case None => None case Some(mid) => Run(ops[i..], mid))
    decreases |ops|
  {
    if i == 0 {
      assert ops[..0] == [] && ops[0..] == ops;
    } else {
      assert ops[..i][0] == ops[0] && ops[..i][1..] == ops[1..][..i - 1] && ops[i..] == ops[1..][i - 1..];
      if ops[0].Some? && Step(ops[0].value, stack).Some? {
        RunSplits(ops[1..], i - 1, Step(ops[0].value, stack).value);
      }
    }
  }

  // ---------- The check ----------

  datatype OpsError = BadOp | BadElement | TooFewNodes | ChildUnderOpaque | NotOneTree

  /** The bits the check keeps: for each subtree, whether its top is an opaque `Hash`. */
  ghost predicate Shadows(stack: seq<bool>, trees: seq<Tree>) {
    |stack| == |trees| && forall i :: 0 <= i < |stack| ==> stack[i] == Top(trees[i]).Hash?
  }

  /** The state the tree machine is in after the first `i` ops, all of them fine so far. */
  ghost predicate Agrees(decoder: ElementDecoder, ops: seq<Option<Op>>, i: nat, stack: seq<bool>)
    requires i <= |ops|
  {
    && Run(ops[..i], []).Some?
    && Shadows(stack, Run(ops[..i], []).value)
    && AllSound(decoder, Run(ops[..i], []).value)
  }

  /** From any op that fails, or leaves an unsound tree, no sound tree can come. */
  lemma FailureIsFinal(decoder: ElementDecoder, ops: seq<Option<Op>>, i: nat, stack: seq<bool>)
    requires i < |ops| && Agrees(decoder, ops, i, stack)
    requires ops[i].None? || Step(ops[i].value, Run(ops[..i], []).value).None?
             || !AllSound(decoder, Step(ops[i].value, Run(ops[..i], []).value).value)
    ensures !Checked(decoder, ops)
  {
    RunSplits(ops, i, []);
    var trees := Run(ops[..i], []).value;
    assert ops[i..][0] == ops[i];
    if Checked(decoder, ops) {
      RunBackSound(decoder, ops[i..][1..], Step(ops[i].value, trees).value);
      assert false;
    }
  }

  lemma StepAgrees(decoder: ElementDecoder, ops: seq<Option<Op>>, i: nat, stack: seq<bool>)
    requires i < |ops| && Agrees(decoder, ops, i, stack) && ops[i].Some?
    ensures Run(ops[..i + 1], []) == Step(ops[i].value, Run(ops[..i], []).value)
  {
    RunSplits(ops[..i + 1], i, []);
    assert ops[..i + 1][..i] == ops[..i] && ops[..i + 1][i..] == [ops[i]];
    assert [ops[i]][1..] == [];
  }

  method CheckOps(decoder: ElementDecoder, ops: seq<Option<Op>>) returns (r: Result<(), OpsError>)
    ensures r.Ok? <==> Checked(decoder, ops)
  {
    // One bit a subtree, which says that its top is opaque.
    var stack: seq<bool> := [];
    for i := 0 to |ops|
      invariant Agrees(decoder, ops, i, stack)
    {
      ghost var trees := Run(ops[..i], []).value;
      if ops[i].None? {
        FailureIsFinal(decoder, ops, i, stack);
        return Err(BadOp);
      }
      var op := ops[i].value;
      StepAgrees(decoder, ops, i, stack);
      if op.Push? || op.PushInverted? {
        var node := op.node;
        assert Sound(decoder, Leaf(node)) <==> NodeDecodes(decoder, node);
        assert Step(op, trees).value[|trees|] == Leaf(node);
        if node.HasValue() {
          var element := DecodeElement(decoder, node.value);
          if element.None? {
            FailureIsFinal(decoder, ops, i, stack);
            return Err(BadElement);
          }
        }
        stack := stack + [node.Hash?];
      } else {
        if |stack| < 2 {
          FailureIsFinal(decoder, ops, i, stack);
          return Err(TooFewNodes);
        }
        var parent := if op.Parent? || op.ParentInverted? then stack[|stack| - 1] else stack[|stack| - 2];
        ghost var next := Step(op, trees).value;
        ghost var joined := next[|next| - 1];
        assert Top(joined.parent).Hash? == parent;
        if parent {
          assert !Sound(decoder, joined);
          FailureIsFinal(decoder, ops, i, stack);
          return Err(ChildUnderOpaque);
        }
        stack := stack[..|stack| - 2] + [parent];
        assert Sound(decoder, joined);
      }
    }
    assert ops[..|ops|] == ops;
    if |stack| != 1 {
      return Err(NotOneTree);
    }
    return Ok(());
  }
}
