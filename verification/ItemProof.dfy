/**
 Verifying that a proof proves one Item at a key: the descent of the envelope, the check of every
 layer, the node that carries the key, and what GroveDB's own verifier then says.
 */
module ItemProof {
  import opened ByteStrings
  import opened Wrappers
  import opened Envelope
  import opened Hashing
  import opened MerkProof
  import opened Text

  const AMBIGUOUS_ELEMENT_LEN := 63
  const DEFAULT_PROVE_OPTION := true

  datatype QueryResult = QueryResult(path: seq<Bytes>, key: Bytes, element: Option<Element>)

  /** What the checker calls but does not define: blake3, bincode, Merk's op decoder, GroveDB's verifier. */
  datatype Library = Library(
    hash: HashFunction,
    decode: Bytes -> Option<EnvelopeV0>,
    ops: Bytes -> seq<Option<Op>>,
    element: ElementDecoder,
    verify: (Bytes, seq<Bytes>, Bytes) -> Option<(Digest, seq<QueryResult>)>)

  // ---------- Layers ----------

  /** The lower layer under `key`; a later entry for a key replaces an earlier one. */
  function LookupLower(forest: Forest, key: Bytes): (r: Option<Layer>)
    ensures r.Some? ==> r.value < forest
  {
    match forest
    case Empty => None
    case Lower(k, layer, rest) =>
      var later := LookupLower(rest, key);
      if later.Some? then later else if k == key then Some(layer) else None
  }

  function LayerAt(layer: Layer, path: seq<Bytes>): Option<Layer>
    decreases |path|
  {
    if path == [] then Some(layer)
    else
      var lower :- LookupLower(layer.lower, path[0]);
      LayerAt(lower, path[1..])
  }

  /** The layers a map of lower layers is left with, each key's last. */
  function Survivors(forest: Forest): seq<Layer> {
    match forest
    case Empty => []
    case Lower(key, layer, rest) =>
      (if LookupLower(rest, key).Some? then [] else [layer]) + Survivors(rest)
  }

  ghost predicate LayersChecked(lib: Library, layer: Layer) {
    Checked(lib.element, lib.ops(layer.ops)) && ForestChecked(lib, layer.lower)
  }

  ghost predicate ForestChecked(lib: Library, forest: Forest) {
    match forest
    case Empty => true
    case Lower(key, layer, rest) =>
      (LookupLower(rest, key).Some? || LayersChecked(lib, layer)) && ForestChecked(lib, rest)
  }

  ghost predicate AllChecked(lib: Library, layers: seq<Layer>) {
    forall i :: 0 <= i < |layers| ==> LayersChecked(lib, layers[i])
  }

  function TotalLayers(layers: seq<Layer>): nat {
    if layers == [] then 0 else TotalLayers(layers[..|layers| - 1]) + LayerCount(layers[|layers| - 1])
  }

  lemma {:induction false} TotalLayersAppend(a: seq<Layer>, b: seq<Layer>)
    ensures TotalLayers(a + b) == TotalLayers(a) + TotalLayers(b)
  {
    if b == [] {
      assert a + b == a;
    } else {
      assert (a + b)[..|a + b| - 1] == a + b[..|b| - 1];
      TotalLayersAppend(a, b[..|b| - 1]);
    }
  }

  lemma {:induction false} SurvivorsBounded(forest: Forest)
    ensures TotalLayers(Survivors(forest)) <= ForestCount(forest)
  {
    match forest
    case Empty =>
    case Lower(key, layer, rest) =>
      SurvivorsBounded(rest);
      var kept := if LookupLower(rest, key).Some? then [] else [layer];
      TotalLayersAppend(kept, Survivors(rest));
      assert [layer][..0] == [];
      assert TotalLayers([layer]) == LayerCount(layer);
  }

  lemma {:induction false} SurvivorsChecked(lib: Library, forest: Forest)
    ensures AllChecked(lib, Survivors(forest)) <==> ForestChecked(lib, forest)
  {
    match forest
    case Empty =>
    case Lower(key, layer, rest) =>
      SurvivorsChecked(lib, rest);
      if LookupLower(rest, key).Some? {
        assert Survivors(forest) == Survivors(rest);
      } else {
        var all := Survivors(forest);
        assert all[0] == layer && all[1..] == Survivors(rest);
        if AllChecked(lib, all) {
          assert forall i :: 0 <= i < |Survivors(rest)| ==> Survivors(rest)[i] == all[i + 1];
        }
      }
  }

  lemma {:induction false} LookupChecked(lib: Library, forest: Forest, key: Bytes)
    requires ForestChecked(lib, forest) && LookupLower(forest, key).Some?
    ensures LayersChecked(lib, LookupLower(forest, key).value)
  {
    if LookupLower(forest.rest, key).Some? {
      LookupChecked(lib, forest.rest, key);
    }
  }

  method CheckAllLayers(lib: Library, root: Layer) returns (r: Result<(), OpsError>)
    ensures r.Ok? <==> LayersChecked(lib, root)
  {
    hide AllChecked, LayersChecked, Checked, Survivors, TotalLayers;
    var layers := [root];
    OneChecked(lib, root);
    while layers != []
      invariant LayersChecked(lib, root) <==> AllChecked(lib, layers)
      decreases TotalLayers(layers)
    {
      var layer, others := layers[|layers| - 1], layers[..|layers| - 1];
      assert layers == others + [layer];
      BothChecked(lib, others, [layer]);
      OneChecked(lib, layer);
      TotalLayersAppend(others, [layer]);
      LayerIsItsParts(lib, layer);
      var _ :- CheckOps(lib.element, lib.ops(layer.ops));
      BothChecked(lib, others, Survivors(layer.lower));
      TotalLayersAppend(others, Survivors(layer.lower));
      layers := others + Survivors(layer.lower);
    }
    NoneChecked(lib);
    return Ok(());
  }

  lemma NoneChecked(lib: Library)
    ensures AllChecked(lib, [])
  {
  }

  lemma OneChecked(lib: Library, layer: Layer)
    ensures AllChecked(lib, [layer]) <==> LayersChecked(lib, layer)
  {
    assert [layer][0] == layer;
  }

  lemma BothChecked(lib: Library, a: seq<Layer>, b: seq<Layer>)
    ensures AllChecked(lib, a + b) <==> AllChecked(lib, a) && AllChecked(lib, b)
  {
    var all := a + b;
    assert forall i :: 0 <= i < |a| ==> a[i] == all[i];
    assert forall i :: 0 <= i < |b| ==> b[i] == all[|a| + i];
  }

  /** A layer is checked with those below it, which are fewer. */
  lemma LayerIsItsParts(lib: Library, layer: Layer)
    ensures LayersChecked(lib, layer) <==>
            Checked(lib.element, lib.ops(layer.ops)) && AllChecked(lib, Survivors(layer.lower))
    ensures TotalLayers(Survivors(layer.lower)) < TotalLayers([layer])
  {
    hide AllChecked, Checked, Survivors;
    SurvivorsChecked(lib, layer.lower);
    SurvivorsBounded(layer.lower);
    assert [layer][..0] == [];
    assert TotalLayers([]) == 0;
  }

  datatype DescentError = NonDefaultOptions | NoLowerLayer(depth: nat) | LayersBelowPath

  /** Looks a layer up segment by segment, and demands that it is the last. */
  method LayerAtPath(envelope: EnvelopeV0, path: seq<Bytes>) returns (r: Result<Layer, DescentError>)
    ensures r.Ok? <==> envelope.proveOption == true
                       && LayerAt(envelope.root, path).Some?
                       && LayerAt(envelope.root, path).value.lower.Empty?
    ensures r.Ok? ==> r.value == LayerAt(envelope.root, path).value
  {
    if envelope.proveOption != DEFAULT_PROVE_OPTION {
      return Err(NonDefaultOptions);
    }
    var layer := envelope.root;
    for depth := 0 to |path|
      invariant LayerAt(envelope.root, path) == LayerAt(layer, path[depth..])
    {
      var lower := LookupLower(layer.lower, path[depth]);
      if lower.None? {
        return Err(NoLowerLayer(depth));
      }
      layer := lower.value;
      assert path[depth..][1..] == path[depth + 1..];
    }
    if !layer.lower.Empty? {
      return Err(LayersBelowPath);
    }
    return Ok(layer);
  }

  /** Follows each layer's one lower layer, for as long as there is one. */
  function SinglePath(layer: Layer): Option<seq<Bytes>> {
    if layer.lower.Empty? then Some([])
    else if |Survivors(layer.lower)| > 1 then None
    else
      var rest :- SinglePath(LookupLower(layer.lower, layer.lower.key).value);
      Some([layer.lower.key] + rest)
  }

  /** Collects the keys of single lower layers, down to a layer without one. */
  method DescendedPath(root: Layer) returns (r: Option<seq<Bytes>>)
    ensures r == SinglePath(root)
  {
    var path: seq<Bytes> := [];
    var layer := root;
    assert SinglePath(root).Some? ==> [] + SinglePath(root).value == SinglePath(root).value;
    while !layer.lower.Empty?
      invariant SinglePath(root) == (match SinglePath(layer) case None => None case Some(rest) => Some(path + rest))
      decreases layer
    {
      if |Survivors(layer.lower)| > 1 {
        return None;
      }
      var key := layer.lower.key;
      ghost var rest := SinglePath(LookupLower(layer.lower, key).value);
      assert rest.Some? ==> path + ([key] + rest.value) == path + [key] + rest.value;
      path := path + [key];
      layer := LookupLower(layer.lower, key).value;
    }
    assert path + [] == path;
    return Some(path);
  }

  /** A path the proof descends leads to its deepest layer, which holds no lower layer. */
  lemma {:induction false} SinglePathDescends(layer: Layer)
    requires SinglePath(layer).Some?
    ensures LayerAt(layer, SinglePath(layer).value).Some?
            && LayerAt(layer, SinglePath(layer).value).value.lower.Empty?
  {
    if !layer.lower.Empty? {
      var key := layer.lower.key;
      var next := LookupLower(layer.lower, key).value;
      SinglePathDescends(next);
      assert SinglePath(layer).value[1..] == SinglePath(next).value;
    }
  }

  // ---------- The item ----------

  /** A subgrove's data tree, where the chain stores only Items. */
  predicate HoldsOnlyItems(path: seq<Bytes>) {
    |path| == 3 && path[0] == SUBGROVES && path[2] == DATA
  }

  /** The data trees are the paths of these three segments, and no other. */
  lemma DataTreePaths(path: seq<Bytes>)
    ensures HoldsOnlyItems(path) <==> |path| == 3 && path[0] == Ascii("subgroves") && path[2] == Ascii("data")
  {
    assert SUBGROVES == Ascii("subgroves") && DATA == Ascii("data");
  }

  const SUBGROVES: Bytes := [115, 117, 98, 103, 114, 111, 118, 101, 115]
  const DATA: Bytes := [100, 97, 116, 97]

  /** The nodes the ops push that name `key`, in order. */
  function Carried(ops: seq<Option<Op>>, key: Bytes): seq<Node> {
    if ops == [] then []
    else Carried(ops[..|ops| - 1], key)
         + (match ops[|ops| - 1]
            case Some(Push(node)) => if node.HasKey() && node.key == key then [node] else []
            case Some(PushInverted(node)) => if node.HasKey() && node.key == key then [node] else []
            case _ => [])
  }

  datatype ItemError =
    | EmptyProof | BadEnvelope | BadDescent(descent: DescentError) | BadLayer(layer: OpsError)
    | UndecodedOp | CarriedTwice | ValueNotBound | NotCarried | Ambiguous
    | NotVerified | NotOneItem | AnotherPathOrKey | AnotherItem

  /** Everything a proof must be for its item to be returned. */
  ghost predicate Accepted(lib: Library, proof: Bytes, path: seq<Bytes>, key: Bytes, root: Digest, bytes: Bytes) {
    && proof != [] && Bounded(proof) && lib.decode(proof).Some?
    && var envelope := lib.decode(proof).value;
    && envelope.proveOption == DEFAULT_PROVE_OPTION
    && LayerAt(envelope.root, path).Some?
    && var layer := LayerAt(envelope.root, path).value;
    && layer.lower.Empty?
    && LayersChecked(lib, envelope.root)
    && var carried := Carried(lib.ops(layer.ops), key);
    && |carried| == 1 && carried[0].KV?
    && var value := carried[0].value;
    && (|value| == AMBIGUOUS_ELEMENT_LEN ==> HoldsOnlyItems(path))
    && lib.verify(proof, path, key).Some?
    && var (verifiedRoot, results) := lib.verify(proof, path, key).value;
    && verifiedRoot == root
    && |results| == 1 && results[0].path == path && results[0].key == key
    && results[0].element.Some? && results[0].element.value.Item? && results[0].element.value.bytes == bytes
    && var element := DecodeElement(lib.element, value);
    && element.Some? && element.value.Item? && element.value.bytes == bytes
  }

  lemma {:induction false} CarriedGrows(ops: seq<Option<Op>>, i: nat, key: Bytes)
    requires i <= |ops|
    ensures |Carried(ops[..i], key)| <= |Carried(ops, key)|
  {
    if i < |ops| {
      assert ops[..|ops| - 1][..i] == ops[..i];
      CarriedGrows(ops[..|ops| - 1], i, key);
    } else {
      assert ops[..i] == ops;
    }
  }

  lemma {:induction false} RunDecodes(ops: seq<Option<Op>>, stack: seq<Tree>, i: nat)
    requires Run(ops, stack).Some? && i < |ops|
    ensures ops[i].Some?
    decreases i
  {
    if i > 0 {
      RunDecodes(ops[1..], Step(ops[0].value, stack).value, i - 1);
    }
  }

  /** The node of the layer's ops that carries `key`, if they push exactly one. */
  method FindCarried(ops: seq<Option<Op>>, key: Bytes) returns (r: Result<Node, ItemError>)
    ensures r.Ok? ==> Carried(ops, key) == [r.value]
    ensures r.Err? ==> |Carried(ops, key)| != 1 || exists i :: 0 <= i < |ops| && ops[i].None?
  {
    var carried: Option<Node> := None;
    for i := 0 to |ops|
      invariant Carried(ops[..i], key) == if carried.Some? then [carried.value] else []
    {
      assert ops[..i + 1][..i] == ops[..i];
      if ops[i].None? {
        return Err(UndecodedOp);
      }
      var op := ops[i].value;
      if !op.Push? && !op.PushInverted? {
        continue;
      }
      var node := op.node;
      if !node.HasKey() || node.key != key {
        continue;
      }
      if carried.Some? {
        CarriedGrows(ops, i + 1, key);
        return Err(CarriedTwice);
      }
      carried := Some(node);
    }
    assert ops[..|ops|] == ops;
    if carried.None? {
      return Err(NotCarried);
    }
    return Ok(carried.value);
  }

  /** The proof envelope: only one the scan passes is decoded. */
  method DecodeEnvelope(lib: Library, proof: Bytes) returns (r: Result<EnvelopeV0, ItemError>)
    ensures r.Ok? <==> Bounded(proof) && lib.decode(proof).Some?
    ensures r.Ok? ==> r.value == lib.decode(proof).value
  {
    var scanned := ScanEnvelope(proof);
    if scanned.Err? {
      return Err(BadEnvelope);
    }
    var envelope := lib.decode(proof);
    if envelope.None? {
      return Err(BadEnvelope);
    }
    return Ok(envelope.value);
  }

  method VerifyItemAtPath(lib: Library, proof: Bytes, path: seq<Bytes>, key: Bytes)
    returns (r: Result<(Digest, Bytes), ItemError>)
    ensures r.Ok? ==> Accepted(lib, proof, path, key, r.value.0, r.value.1)
    ensures r.Err? ==> forall root, bytes :: !Accepted(lib, proof, path, key, root, bytes)
  {
    if proof == [] {
      return Err(EmptyProof);
    }
    var envelope :- DecodeEnvelope(lib, proof);
    var descent := LayerAtPath(envelope, path);
    if descent.Err? {
      return Err(BadDescent(descent.error));
    }
    var layer := descent.value;
    var layers := CheckAllLayers(lib, envelope.root);
    if layers.Err? {
      return Err(BadLayer(layers.error));
    }
    ghost var ops := lib.ops(layer.ops);
    forall i | 0 <= i < |ops|
      ensures ops[i].Some?
    {
      LayerAtChecked(lib, envelope.root, path);
      RunDecodes(ops, [], i);
    }
    var carried :- FindCarried(lib.ops(layer.ops), key);
    if !carried.KV? {
      return Err(ValueNotBound);
    }
    if |carried.value| == AMBIGUOUS_ELEMENT_LEN && !HoldsOnlyItems(path) {
      return Err(Ambiguous);
    }
    var verified := lib.verify(proof, path, key);
    if verified.None? {
      return Err(NotVerified);
    }
    var (root, results) := verified.value;
    if |results| != 1 || results[0].element.None? || !results[0].element.value.Item? {
      return Err(NotOneItem);
    }
    if results[0].path != path || results[0].key != key {
      return Err(AnotherPathOrKey);
    }
    var bytes := results[0].element.value.bytes;
    var element := DecodeElement(lib.element, carried.value);
    if element.None? || !element.value.Item? || element.value.bytes != bytes {
      return Err(AnotherItem);
    }
    return Ok((root, bytes));
  }

  lemma {:induction false} LayerAtChecked(lib: Library, layer: Layer, path: seq<Bytes>)
    requires LayersChecked(lib, layer) && LayerAt(layer, path).Some?
    ensures LayersChecked(lib, LayerAt(layer, path).value)
    decreases |path|
  {
    if path != [] {
      LookupChecked(lib, layer.lower, path[0]);
      LayerAtChecked(lib, LookupLower(layer.lower, path[0]).value, path[1..]);
    }
  }
}
