/**
 How ops write a proof tree down: every way, and no other. What the stack machine builds is told here without
 the machine.
 */
module ProofWriting {
  import opened Arithmetic
  import opened ByteStrings
  import opened Wrappers
  import opened DecodeBudget
  import opened MerkProof

  /**
   A tree with the order its ops come in. A left child written first is attached by `Parent`, written last by
   `ChildInverted`; a right child written last is attached by `Child`, written first by `ParentInverted`.
   */
  datatype Writing =
    | One(node: Node, inverted: bool)
    | Joined(parent: Writing, side: Side, child: Writing, childFirst: bool)

  function TreeOf(w: Writing): Tree {
    match w
    case One(node, _) => Leaf(node)
    case Joined(parent, side, child, _) => Attach(TreeOf(parent), side, TreeOf(child))
  }

  function OpsOf(w: Writing): seq<Option<Op>> {
    match w
    case One(node, false) => [Some(Push(node))]
    case One(node, true) => [Some(PushInverted(node))]
    case Joined(parent, Left, child, true) => OpsOf(child) + OpsOf(parent) + [Some(Parent)]
    case Joined(parent, Left, child, false) => OpsOf(parent) + OpsOf(child) + [Some(ChildInverted)]
    case Joined(parent, Right, child, true) => OpsOf(child) + OpsOf(parent) + [Some(ParentInverted)]
    case Joined(parent, Right, child, false) => OpsOf(parent) + OpsOf(child) + [Some(Child)]
  }

  // ---------- Every writing builds its tree ----------

  lemma RunAppend(a: seq<Option<Op>>, b: seq<Option<Op>>, stack: seq<Tree>)
    requires Run(a, stack).Some?
    ensures Run(a + b, stack) == Run(b, Run(a, stack).value)
  {
    RunSplits(a + b, |a|, stack);
    assert (a + b)[..|a|] == a && (a + b)[|a|..] == b;
  }

  lemma RunOne(op: Op, stack: seq<Tree>)
    ensures Run([Some(op)], stack) == Step(op, stack)
  {
    var ops: seq<Option<Op>> := [Some(op)];
    assert ops[1..] == [];
  }

  /** The op that joins two trees, the first of which was written first. */
  function Joiner(side: Side, childFirst: bool): Op {
    match (side, childFirst)
    case (Left, true) => Op.Parent
    case (Left, false) => ChildInverted
    case (Right, true) => ParentInverted
    case (Right, false) => Op.Child
  }

  lemma JoinerJoins(stack: seq<Tree>, first: Tree, second: Tree, side: Side, childFirst: bool)
    ensures Step(Joiner(side, childFirst), stack + [first] + [second])
         == Some(stack + [if childFirst then Attach(second, side, first) else Attach(first, side, second)])
  {
    var both := stack + [first] + [second];
    assert both[..|both| - 2] == stack;
  }

  lemma {:induction false} WritingRuns(w: Writing, stack: seq<Tree>)
    ensures Run(OpsOf(w), stack) == Some(stack + [TreeOf(w)])
    decreases w
  {
    match w
    case One(node, inverted) => RunOne(if inverted then PushInverted(node) else Push(node), stack);
    case Joined(parent, side, child, childFirst) =>
      var (first, second) := if childFirst then (child, parent) else (parent, child);
      WritingRuns(first, stack);
      WritingRuns(second, stack + [TreeOf(first)]);
      RunAppend(OpsOf(first), OpsOf(second), stack);
      RunAppend(OpsOf(first) + OpsOf(second), [Some(Joiner(side, childFirst))], stack);
      RunOne(Joiner(side, childFirst), stack + [TreeOf(first)] + [TreeOf(second)]);
      JoinerJoins(stack, TreeOf(first), TreeOf(second), side, childFirst);
      assert OpsOf(w) == OpsOf(first) + OpsOf(second) + [Some(Joiner(side, childFirst))];
  }

  // ---------- Ops that build a tree are a writing of it ----------

  function Trees(ws: seq<Writing>): (trees: seq<Tree>)
    ensures |trees| == |ws| && forall i :: 0 <= i < |ws| ==> trees[i] == TreeOf(ws[i])
  {
    if ws == [] then [] else Trees(ws[..|ws| - 1]) + [TreeOf(ws[|ws| - 1])]
  }

  function AllOps(ws: seq<Writing>): seq<Option<Op>> {
    if ws == [] then [] else AllOps(ws[..|ws| - 1]) + OpsOf(ws[|ws| - 1])
  }

  lemma AllOpsAppend(ws: seq<Writing>, w: Writing)
    ensures AllOps(ws + [w]) == AllOps(ws) + OpsOf(w)
  {
    assert (ws + [w])[..|ws|] == ws;
  }

  /** One step joins the last two writings, or adds one. */
  lemma StepIsWritten(op: Op, ws: seq<Writing>) returns (next: seq<Writing>)
    requires Step(op, Trees(ws)).Some?
    ensures Trees(next) == Step(op, Trees(ws)).value && AllOps(next) == AllOps(ws) + [Some(op)]
  {
    hide AllOps;
    if op.Push? || op.PushInverted? {
      next := ws + [One(op.node, op.PushInverted?)];
      AllOpsAppend(ws, One(op.node, op.PushInverted?));
    } else {
      var below, first, second := ws[..|ws| - 2], ws[|ws| - 2], ws[|ws| - 1];
      var childFirst := op.Parent? || op.ParentInverted?;
      var side := if op.Parent? || op.ChildInverted? then Left else Right;
      var w := if childFirst then Joined(second, side, first, true) else Joined(first, side, second, false);
      next := below + [w];
      assert ws == below + [first] + [second];
      AllOpsAppend(below, first);
      AllOpsAppend(below + [first], second);
      AllOpsAppend(below, w);
      assert OpsOf(w) == OpsOf(first) + OpsOf(second) + [Some(op)];
    }
  }

  lemma {:induction false} RunIsWritten(ops: seq<Option<Op>>, ws: seq<Writing>) returns (all: seq<Writing>)
    requires Run(ops, Trees(ws)).Some?
    ensures Trees(all) == Run(ops, Trees(ws)).value && AllOps(all) == AllOps(ws) + ops
    decreases |ops|
  {
    hide AllOps, Step;
    if ops == [] {
      all := ws;
    } else {
      var next := StepIsWritten(ops[0].value, ws);
      all := RunIsWritten(ops[1..], next);
      assert [ops[0]] + ops[1..] == ops;
    }
  }

  /** Ops build a tree exactly when they are one of the ways to write it. */
  lemma BuiltIsWritten(ops: seq<Option<Op>>, tree: Tree)
    ensures Build(ops) == Some(tree) <==> exists w :: OpsOf(w) == ops && TreeOf(w) == tree
  {
    hide Run, Trees, AllOps;
    if w :| OpsOf(w) == ops && TreeOf(w) == tree {
      WritingRuns(w, []);
      assert [] + [tree] == [tree];
    }
    if Build(ops) == Some(tree) {
      NoTrees();
      var all := RunIsWritten(ops, []);
      OneWriting(all);
      assert OpsOf(all[0]) == ops && TreeOf(all[0]) == tree;
    }
  }

  lemma NoTrees()
    ensures Trees([]) == [] && AllOps([]) == []
  {
  }

  lemma OneWriting(ws: seq<Writing>)
    requires |Trees(ws)| == 1
    ensures |ws| == 1 && AllOps(ws) == OpsOf(ws[0]) && Trees(ws) == [TreeOf(ws[0])]
  {
    assert ws[..0] == [];
  }

  // ---------- What the check asks of a tree ----------

  predicate Within(sub: Tree, tree: Tree) {
    sub == tree || (tree.Attach? && (Within(sub, tree.parent) || Within(sub, tree.child)))
  }

  lemma {:induction false} OpaqueIsChildless(tree: Tree)
    ensures OpaqueChildless(tree) <==> forall sub :: Within(sub, tree) && sub.Attach? ==> !Top(sub.parent).Hash?
  {
    match tree
    case Leaf(_) =>
      assert forall sub :: Within(sub, tree) ==> sub == tree;
    case Attach(parent, _, child) =>
      OpaqueIsChildless(parent);
      OpaqueIsChildless(child);
      assert Within(tree, tree);
      assert forall sub :: Within(sub, parent) || Within(sub, child) ==> Within(sub, tree);
  }

  /** The value a node carries, of the kinds of node that carry one, is an element. */
  predicate CarriesElement(decoder: ElementDecoder, node: Node) {
    match node
    case Hash(_) => true
    case KVHash(_) => true
    case KV(_, value) => DecodeElement(decoder, value).Some?
    case KVValueHash(_, value, _) => DecodeElement(decoder, value).Some?
    case KVValueHashFeatureType(_, value, _) => DecodeElement(decoder, value).Some?
    case KVRefValueHash(_, value, _) => DecodeElement(decoder, value).Some?
    case KVDigest(_, _) => true
  }

  lemma NodeValue(decoder: ElementDecoder, node: Node)
    ensures NodeDecodes(decoder, node) <==> CarriesElement(decoder, node)
  {
    hide DecodeElement;
  }

  lemma {:induction false} NodesDecode(decoder: ElementDecoder, tree: Tree)
    ensures ValuesDecode(decoder, tree) <==> forall node :: node in Nodes(tree) ==> NodeDecodes(decoder, node)
  {
    hide NodeDecodes;
    match tree
    case Leaf(node) =>
      assert forall n :: n in Nodes(tree) <==> n == node;
    case Attach(parent, _, child) =>
      NodesDecode(decoder, parent);
      NodesDecode(decoder, child);
      assert forall n :: n in Nodes(tree) <==> n in Nodes(parent) || n in Nodes(child);
  }

  /** A tree is sound when no child hangs under an opaque hash, and every value carried is an element. */
  lemma SoundMeans(decoder: ElementDecoder, tree: Tree)
    ensures Sound(decoder, tree) <==>
            && (forall sub :: Within(sub, tree) && sub.Attach? ==> !Top(sub.parent).Hash?)
            && forall node :: node in Nodes(tree) ==> CarriesElement(decoder, node)
  {
    hide Within, Nodes, OpaqueChildless, ValuesDecode, NodeDecodes, CarriesElement;
    OpaqueIsChildless(tree);
    NodesDecode(decoder, tree);
    forall node: Node
      ensures NodeDecodes(decoder, node) <==> CarriesElement(decoder, node)
    {
      NodeValue(decoder, node);
    }
  }

  /**
   What the check accepts, with no stack: ops that write, in any of the orders there are, a tree no child of
   which hangs under an opaque hash and each value of which is an element.
   */
  lemma CheckedMeans(decoder: ElementDecoder, ops: seq<Option<Op>>)
    ensures Checked(decoder, ops) <==> exists w :: OpsOf(w) == ops && Sound(decoder, TreeOf(w))
  {
    hide Build, Sound;
    if w :| OpsOf(w) == ops && Sound(decoder, TreeOf(w)) {
      BuiltIsWritten(ops, TreeOf(w));
      assert Build(ops) == Some(TreeOf(w));
    }
    if Checked(decoder, ops) {
      BuiltIsWritten(ops, Build(ops).value);
      var w :| OpsOf(w) == ops && TreeOf(w) == Build(ops).value;
      assert Sound(decoder, TreeOf(w));
    }
  }

  /** An element is decoded under the least power of two that is 32 times its length and 1 KiB at least. */
  lemma ElementIsDecoded(decoder: ElementDecoder, value: Bytes) returns (bits: nat)
    ensures |value| > 0x10_0000 ==> DecodeElement(decoder, value) == None
    ensures |value| <= 0x10_0000 ==>
              && DecodeElement(decoder, value) == decoder(value, Pow2(bits))
              && 10 <= bits <= 25 && 32 * |value| <= Pow2(bits) < 2 * Max(32 * |value|, 1024)
  {
    hide ElementClass;
    bits := 10;
    if |value| <= MAX_ELEMENT_BYTES {
      bits := ElementClassExists(|value|);
    }
  }
}
