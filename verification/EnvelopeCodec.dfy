/** The encoding the prover writes, which the grammar of `Envelope` inverts. */
module EnvelopeCodec {
  import opened Arithmetic
  import opened ByteStrings
  import opened Wrappers
  import opened Envelope

  function EncodeVarint(n: nat): Bytes
    requires n < U64_LIMIT
  {
    if n <= 250 then [n]
    else if n < 0x1_0000 then [251] + ToBigEndian(n, 2)
    else if n < 0x1_0000_0000 then [252] + ToBigEndian(n, 4)
    else [253] + ToBigEndian(n, 8)
  }

  function EncodeString(s: Bytes): Bytes
    requires |s| < U64_LIMIT
  {
    EncodeVarint(|s|) + s
  }

  /** Every length and count in the layer fits a u64. */
  predicate EncodableLayer(layer: Layer) {
    |layer.ops| < U64_LIMIT && ForestLength(layer.lower) < U64_LIMIT && EncodableForest(layer.lower)
  }

  predicate EncodableForest(forest: Forest) {
    match forest
    case Empty => true
    case Lower(key, layer, rest) => |key| < U64_LIMIT && EncodableLayer(layer) && EncodableForest(rest)
  }

  function EncodeLayer(layer: Layer): Bytes
    requires EncodableLayer(layer)
  {
    EncodeString(layer.ops) + EncodeVarint(ForestLength(layer.lower)) + EncodeForest(layer.lower)
  }

  function EncodeForest(forest: Forest): Bytes
    requires EncodableForest(forest)
  {
    match forest
    case Empty => []
    case Lower(key, layer, rest) => EncodeString(key) + EncodeLayer(layer) + EncodeForest(rest)
  }

  function EncodeEnvelope(envelope: EnvelopeV0): Bytes
    requires EncodableLayer(envelope.root)
  {
    EncodeVarint(0) + EncodeLayer(envelope.root) + [if envelope.proveOption then 1 else 0]
  }

  lemma VarintRoundTrip(n: nat, tail: Bytes)
    requires n < U64_LIMIT
    ensures ParseVarint(EncodeVarint(n) + tail) == Some((n, tail))
  {
    var b := EncodeVarint(n) + tail;
    if n > 250 {
      var width := TagWidth(b[0]);
      assert Pow256(2) == 0x1_0000 && Pow256(4) == 0x1_0000_0000;
      assert Pow256(8) == Pow256(4) * 0x1_0000_0000;
      BigEndianRoundTrip(n, width);
      assert b[1..1 + width] == ToBigEndian(n, width);
      assert b[1 + width..] == tail;
    }
  }

  lemma StringRoundTrip(s: Bytes, tail: Bytes)
    requires |s| < U64_LIMIT
    ensures ParseString(EncodeString(s) + tail) == Some((s, tail))
  {
    assert EncodeString(s) + tail == EncodeVarint(|s|) + (s + tail);
    VarintRoundTrip(|s|, s + tail);
  }

  lemma {:induction false} LayerRoundTrip(layer: Layer, tail: Bytes)
    requires EncodableLayer(layer)
    ensures ParseLayer(EncodeLayer(layer) + tail) == Some((layer, tail))
    decreases layer
  {
    hide ParseVarint, ParseString, EncodeVarint, EncodeString;
    var count, body := EncodeVarint(ForestLength(layer.lower)), EncodeForest(layer.lower) + tail;
    assert EncodeLayer(layer) + tail == EncodeString(layer.ops) + (count + body);
    StringRoundTrip(layer.ops, count + body);
    VarintRoundTrip(ForestLength(layer.lower), body);
    ForestRoundTrip(layer.lower, tail);
  }

  lemma {:induction false} ForestRoundTrip(forest: Forest, tail: Bytes)
    requires EncodableForest(forest)
    ensures ParseForest(ForestLength(forest), EncodeForest(forest) + tail) == Some((forest, tail))
    decreases forest
  {
    hide ParseVarint, ParseString, EncodeVarint, EncodeString;
    match forest
    case Empty => assert EncodeForest(forest) + tail == tail;
    case Lower(key, layer, rest) =>
      var body, more := EncodeLayer(layer) + (EncodeForest(rest) + tail), EncodeForest(rest) + tail;
      assert EncodeForest(forest) + tail == EncodeString(key) + body;
      StringRoundTrip(key, body);
      LayerRoundTrip(layer, more);
      ForestRoundTrip(rest, tail);
  }

  /** The grammar reads back exactly the envelope that was encoded, so no two share an encoding. */
  lemma EnvelopeRoundTrip(envelope: EnvelopeV0)
    requires EncodableLayer(envelope.root)
    ensures ParseEnvelope(EncodeEnvelope(envelope)) == Some(envelope)
  {
    var flag: Bytes := [if envelope.proveOption then 1 else 0];
    assert EncodeEnvelope(envelope) == EncodeVarint(0) + (EncodeLayer(envelope.root) + flag);
    VarintRoundTrip(0, EncodeLayer(envelope.root) + flag);
    LayerRoundTrip(envelope.root, flag);
  }

  /** The scan refuses no encoded envelope within the limits, and admits none past them. */
  lemma HonestEnvelopeIsBounded(envelope: EnvelopeV0)
    requires EncodableLayer(envelope.root)
    ensures Bounded(EncodeEnvelope(envelope)) <==>
            && |EncodeEnvelope(envelope)| <= 0x10_0000
            && Levels(envelope.root) - 1 <= 64
            && LayerCount(envelope.root) <= 1024
  {
    EnvelopeRoundTrip(envelope);
  }
}
