/**
 What bincode claims while it decodes an envelope the scan accepted, and the claim limit each
 element is decoded under.
 */
module DecodeBudget {
  import opened Arithmetic
  import opened ByteStrings
  import opened Wrappers
  import opened Envelope

  /** The limit for envelopes, where a map entry (a key and a layer) takes `entrySize` bytes of memory. */
  function EnvelopeDecodeLimit(entrySize: nat): nat {
    MAX_PROOF_BYTES + MAX_LAYERS * entrySize
  }

  /** The lengths of all byte strings in a layer: never given back once claimed. */
  function LayerStrings(layer: Layer): nat {
    |layer.ops| + ForestStrings(layer.lower)
  }

  function ForestStrings(forest: Forest): nat {
    match forest
    case Empty => 0
    case Lower(key, layer, rest) => |key| + LayerStrings(layer) + ForestStrings(rest)
  }

  /**
   Whether every claim made while decoding `layer`, from `claimed` on, stays within `limit`: its ops'
   length is claimed, then all entries of its map at once, and each entry is given back as its
   reading starts.
   */
  predicate LayerFits(layer: Layer, claimed: nat, entrySize: nat, limit: nat) {
    && claimed + |layer.ops| <= limit
    && claimed + |layer.ops| + ForestLength(layer.lower) * entrySize <= limit
    && ForestFits(layer.lower, claimed + |layer.ops| + ForestLength(layer.lower) * entrySize, entrySize, limit)
  }

  predicate ForestFits(forest: Forest, claimed: nat, entrySize: nat, limit: nat) {
    match forest
    case Empty => true
    case Lower(key, layer, rest) =>
      && entrySize <= claimed
      && var reading := claimed - entrySize + |key|;
      && reading <= limit
      && LayerFits(layer, reading, entrySize, limit)
      && ForestFits(rest, reading + LayerStrings(layer), entrySize, limit)
  }

  lemma {:induction false} LayerWithinBudget(layer: Layer, claimed: nat, entrySize: nat, limit: nat)
    requires claimed + LayerStrings(layer) + (LayerCount(layer) - 1) * entrySize <= limit
    ensures LayerFits(layer, claimed, entrySize, limit)
    decreases layer
  {
    MapWithinCount(layer.lower, entrySize);
    ForestWithinBudget(layer.lower, claimed + |layer.ops|, entrySize, limit);
  }

  lemma {:induction false} MapWithinCount(forest: Forest, entrySize: nat)
    ensures ForestLength(forest) * entrySize <= ForestCount(forest) * entrySize
  {
    match forest
    case Empty =>
    case Lower(_, layer, rest) =>
      MapWithinCount(rest, entrySize);
      Distribute(1, ForestLength(rest), entrySize);
      Distribute(LayerCount(layer), ForestCount(rest), entrySize);
      Distribute(1, LayerCount(layer) - 1, entrySize);
  }

  lemma Distribute(a: nat, b: nat, size: nat)
    ensures (a + b) * size == a * size + b * size
  {
  }

  /** `strings` is what byte strings have claimed so far; the map's unread entries come on top. */
  lemma {:induction false} ForestWithinBudget(forest: Forest, strings: nat, entrySize: nat, limit: nat)
    requires strings + ForestStrings(forest) + ForestCount(forest) * entrySize <= limit
    ensures ForestFits(forest, strings + ForestLength(forest) * entrySize, entrySize, limit)
    decreases forest
  {
    match forest
    case Empty =>
    case Lower(key, layer, rest) =>
      Distribute(1, ForestLength(rest), entrySize);
      Distribute(1, LayerCount(layer) - 1, entrySize);
      Distribute(LayerCount(layer), ForestCount(rest), entrySize);
      MapWithinCount(rest, entrySize);
      var reading := strings + |key| + ForestLength(rest) * entrySize;
      LayerWithinBudget(layer, reading, entrySize, limit);
      ForestWithinBudget(rest, strings + |key| + LayerStrings(layer), entrySize, limit);
  }

  lemma {:induction false} StringsWithinLayer(b: Bytes, layer: Layer, after: Bytes)
    requires ParseLayer(b) == Some((layer, after))
    ensures LayerStrings(layer) + |after| <= |b|
    decreases layer
  {
    var count := ParseVarint(ParseString(b).value.1).value;
    StringsWithinForest(count.0, count.1, layer.lower, after);
  }

  lemma {:induction false} StringsWithinForest(count: nat, b: Bytes, forest: Forest, after: Bytes)
    requires ParseForest(count, b) == Some((forest, after))
    ensures ForestStrings(forest) + |after| <= |b|
    decreases forest
  {
    hide ParseVarint, ParseString;
    if count > 0 {
      var body := ParseString(b).value.1;
      var more := ParseLayer(body).value.1;
      assert |forest.key| + |body| < |b|;
      assert ParseForest(count - 1, more) == Some((forest.rest, after));
      StringsWithinForest(count - 1, more, forest.rest, after);
      StringsWithinLayer(body, forest.layer, more);
    }
  }

  /** At every point of decoding a scanned envelope, what is claimed is within the decode limit. */
  lemma EnvelopeWithinBudget(proof: Bytes, entrySize: nat)
    requires Bounded(proof)
    ensures LayerFits(ParseEnvelope(proof).value.root, 0, entrySize, 0x10_0000 + 1024 * entrySize)
    ensures EnvelopeDecodeLimit(entrySize) == 0x10_0000 + 1024 * entrySize
  {
    hide ParseVarint, ParseString;
    var root := ParseEnvelope(proof).value.root;
    var (_, body) := ParseVarint(proof).value;
    StringsWithinLayer(body, root, ParseLayer(body).value.1);
    assert (LayerCount(root) - 1) * entrySize <= MAX_LAYERS * entrySize;
    LayerWithinBudget(root, 0, entrySize, EnvelopeDecodeLimit(entrySize));
  }

  // ---------- Elements ----------

  const MAX_ELEMENT_BYTES := MAX_PROOF_BYTES

  /** The smallest power of two at least `n`, found from the power `2^bits` up. */
  function NextPowerOfTwoFrom(n: nat, bits: nat): nat
    decreases n - Pow2(bits)
  {
    if n <= Pow2(bits) then Pow2(bits) else NextPowerOfTwoFrom(n, bits + 1)
  }

  /** The claim limit an element of `length` bytes is decoded under. */
  function ElementClass(length: nat): nat {
    NextPowerOfTwoFrom(Max(length * 32, 1024), 0)
  }

  lemma {:induction false} NextPowerOfTwoIsLeast(n: nat, bits: nat) returns (found: nat)
    requires bits == 0 || Pow2(bits - 1) < n
    ensures bits <= found && NextPowerOfTwoFrom(n, bits) == Pow2(found) && n <= Pow2(found)
    ensures found == 0 || Pow2(found - 1) < n
    decreases n - Pow2(bits)
  {
    if n <= Pow2(bits) {
      found := bits;
    } else {
      found := NextPowerOfTwoIsLeast(n, bits + 1);
    }
  }

  /**
   Every element that fits an envelope falls in one of the sixteen classes the decoder is built for,
   which is at least 32 times its length, and less than twice what that needs.
   */
  lemma ElementClassExists(length: nat) returns (bits: nat)
    requires length <= 0x10_0000
    ensures 10 <= bits <= 25 && ElementClass(length) == Pow2(bits)
    ensures 32 * length <= Pow2(bits) < 2 * Max(32 * length, 1024)
  {
    var needed := Max(length * 32, 1024);
    bits := NextPowerOfTwoIsLeast(needed, 0);
    assert Pow2(10) == 1024;
    assert Pow2(25) == Pow2(20) * 32 && Pow2(20) == Pow2(10) * 1024;
    if bits < 10 {
      Pow2Monotonic(bits, 9);
    }
    if bits > 25 {
      Pow2Monotonic(25, bits - 1);
    }
  }
}
