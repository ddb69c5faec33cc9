/**
 The envelopes the scan accepts, from the writer's side: every way their bytes can be written, integers wider
 than they need to be included, and no other bytes.
 */
module EnvelopeWire {
  import opened ByteStrings
  import opened Wrappers
  import opened Envelope

  // ---------- What can be written ----------

  /** How an integer is written: as its own byte, or after a tag in 2, 4 or 8 bytes. */
  datatype Form = Short | Two | Four | Eight

  predicate Fits(n: nat, form: Form) {
    match form
    case Short => n <= 250
    case Two => n < 0x1_0000
    case Four => n < 0x1_0000_0000
    case Eight => n < 0x1_0000_0000_0000_0000
  }

  function Written(n: nat, form: Form): Bytes
    requires Fits(n, form)
  {
    match form
    case Short => [n]
    case Two => [251] + ToBigEndian(n, 2)
    case Four => [252] + ToBigEndian(n, 4)
    case Eight => [253] + ToBigEndian(n, 8)
  }

  /** A layer with the form of each integer in its bytes. */
  datatype WireLayer = WireLayer(opsForm: Form, ops: Bytes, countForm: Form, lower: WireForest)
  datatype WireForest = WireEmpty | WireLower(keyForm: Form, key: Bytes, layer: WireLayer, rest: WireForest)

  datatype WireEnvelope = WireEnvelope(versionForm: Form, root: WireLayer, proveOption: bool)

  function WireCount(forest: WireForest): nat {
    match forest
    case WireEmpty => 0
    case WireLower(_, _, _, rest) => 1 + WireCount(rest)
  }

  predicate Writable(w: WireLayer) {
    Fits(|w.ops|, w.opsForm) && Fits(WireCount(w.lower), w.countForm) && WritableForest(w.lower)
  }

  predicate WritableForest(forest: WireForest) {
    match forest
    case WireEmpty => true
    case WireLower(form, key, layer, rest) => Fits(|key|, form) && Writable(layer) && WritableForest(rest)
  }

  function LayerBytes(w: WireLayer): Bytes
    requires Writable(w)
  {
    Written(|w.ops|, w.opsForm) + w.ops + Written(WireCount(w.lower), w.countForm) + ForestBytes(w.lower)
  }

  function ForestBytes(forest: WireForest): Bytes
    requires WritableForest(forest)
  {
    match forest
    case WireEmpty => []
    case WireLower(form, key, layer, rest) => Written(|key|, form) + key + LayerBytes(layer) + ForestBytes(rest)
  }

  function LayerOf(w: WireLayer): Layer {
    Layer(w.ops, ForestOf(w.lower))
  }

  function ForestOf(forest: WireForest): Forest {
    match forest
    case WireEmpty => Empty
    case WireLower(_, key, layer, rest) => Lower(key, LayerOf(layer), ForestOf(rest))
  }

  function EnvelopeBytes(w: WireEnvelope): Bytes
    requires Writable(w.root)
  {
    Written(0, w.versionForm) + LayerBytes(w.root) + [if w.proveOption then 1 else 0]
  }

  // ---------- What is written is read ----------

  lemma Widths()
    ensures Pow256(2) == 0x1_0000 && Pow256(4) == 0x1_0000_0000 && Pow256(8) == 0x1_0000_0000_0000_0000
  {
    assert Pow256(4) == 256 * (256 * Pow256(2));
    assert Pow256(8) == 256 * (256 * (256 * (256 * Pow256(4))));
  }

  function Width(form: Form): nat {
    match form
    case Short => 0
    case Two => 2
    case Four => 4
    case Eight => 8
  }

  lemma IntegerIsRead(n: nat, form: Form, tail: Bytes)
    requires Fits(n, form)
    ensures ParseVarint(Written(n, form) + tail) == Some((n, tail))
  {
    var b := Written(n, form) + tail;
    Widths();
    if form != Short {
      hide BigEndian, ToBigEndian, Pow256;
      BigEndianRoundTrip(n, Width(form));
      assert b[1..1 + Width(form)] == ToBigEndian(n, Width(form)) && b[1 + Width(form)..] == tail;
    }
  }

  lemma StringIsRead(s: Bytes, form: Form, tail: Bytes)
    requires Fits(|s|, form)
    ensures ParseString(Written(|s|, form) + s + tail) == Some((s, tail))
  {
    hide ParseVarint, Written;
    assert Written(|s|, form) + s + tail == Written(|s|, form) + (s + tail);
    IntegerIsRead(|s|, form, s + tail);
  }

  lemma {:induction false} LayerIsRead(w: WireLayer, tail: Bytes)
    requires Writable(w)
    ensures ParseLayer(LayerBytes(w) + tail) == Some((LayerOf(w), tail))
    decreases w
  {
    hide ParseVarint, ParseString, Written;
    var count, body := Written(WireCount(w.lower), w.countForm), ForestBytes(w.lower) + tail;
    assert LayerBytes(w) + tail == Written(|w.ops|, w.opsForm) + w.ops + (count + body);
    StringIsRead(w.ops, w.opsForm, count + body);
    IntegerIsRead(WireCount(w.lower), w.countForm, body);
    ForestIsRead(w.lower, tail);
  }

  lemma {:induction false} ForestIsRead(forest: WireForest, tail: Bytes)
    requires WritableForest(forest)
    ensures ParseForest(WireCount(forest), ForestBytes(forest) + tail) == Some((ForestOf(forest), tail))
    decreases forest
  {
    hide ParseVarint, ParseString, Written;
    match forest
    case WireEmpty => assert ForestBytes(forest) + tail == tail;
    case WireLower(form, key, layer, rest) =>
      var more := ForestBytes(rest) + tail;
      assert ForestBytes(forest) + tail == Written(|key|, form) + key + (LayerBytes(layer) + more);
      StringIsRead(key, form, LayerBytes(layer) + more);
      LayerIsRead(layer, more);
      ForestIsRead(rest, tail);
  }

  // ---------- What is read was written ----------

  lemma {:induction false} DigitsRoundTrip(s: Bytes)
    ensures ToBigEndian(BigEndian(s), |s|) == s
  {
    if s != [] {
      DigitsRoundTrip(s[..|s| - 1]);
      assert s == s[..|s| - 1] + [s[|s| - 1]];
    }
  }

  lemma IntegerWasWritten(b: Bytes) returns (form: Form)
    requires ParseVarint(b).Some?
    ensures var (n, rest) := ParseVarint(b).value;
            Fits(n, form) && b == Written(n, form) + rest
  {
    Widths();
    hide BigEndian, ToBigEndian, Pow256;
    var (n, rest) := ParseVarint(b).value;
    if b[0] <= 250 {
      form := Short;
      assert b == [b[0]] + rest;
    } else {
      form := if b[0] == 251 then Two else if b[0] == 252 then Four else Eight;
      var digits := b[1..1 + Width(form)];
      DigitsRoundTrip(digits);
      assert b == [b[0]] + digits + rest;
    }
  }

  lemma StringWasWritten(b: Bytes) returns (form: Form)
    requires ParseString(b).Some?
    ensures var (s, rest) := ParseString(b).value;
            Fits(|s|, form) && b == Written(|s|, form) + s + rest
  {
    hide ParseVarint, Written;
    form := IntegerWasWritten(b);
  }

  lemma {:induction false} LayerWasWritten(b: Bytes) returns (w: WireLayer)
    requires ParseLayer(b).Some?
    ensures Writable(w) && LayerOf(w) == ParseLayer(b).value.0 && b == LayerBytes(w) + ParseLayer(b).value.1
    decreases |b|, 0
  {
    hide ParseVarint, ParseString, Written;
    var (ops, afterOps) := ParseString(b).value;
    var (count, body) := ParseVarint(afterOps).value;
    var opsForm := StringWasWritten(b);
    var countForm := IntegerWasWritten(afterOps);
    var lower := ForestWasWritten(count, body);
    w := WireLayer(opsForm, ops, countForm, lower);
  }

  lemma {:induction false} ForestWasWritten(count: nat, b: Bytes) returns (forest: WireForest)
    requires ParseForest(count, b).Some?
    ensures WritableForest(forest) && WireCount(forest) == count && ForestOf(forest) == ParseForest(count, b).value.0
    ensures b == ForestBytes(forest) + ParseForest(count, b).value.1
    decreases |b|, 1
  {
    hide ParseVarint, ParseString, Written;
    if count == 0 {
      forest := WireEmpty;
    } else {
      var (key, body) := ParseString(b).value;
      var more := ParseLayer(body).value.1;
      var form := StringWasWritten(b);
      var layer := LayerWasWritten(body);
      var rest := ForestWasWritten(count - 1, more);
      forest := WireLower(form, key, layer, rest);
    }
  }

  // ---------- The envelopes ----------

  /** The bytes are one of the ways to write the envelope. */
  ghost predicate Writes(b: Bytes, envelope: EnvelopeV0) {
    exists w: WireEnvelope ::
      && Writable(w.root) && EnvelopeBytes(w) == b
      && envelope == EnvelopeV0(LayerOf(w.root), w.proveOption)
  }

  lemma EnvelopeIsRead(w: WireEnvelope)
    requires Writable(w.root)
    ensures ParseEnvelope(EnvelopeBytes(w)) == Some(EnvelopeV0(LayerOf(w.root), w.proveOption))
  {
    hide ParseVarint, Written, LayerBytes, LayerOf, ParseLayer;
    var flag: Bytes := [if w.proveOption then 1 else 0];
    assert EnvelopeBytes(w) == Written(0, w.versionForm) + (LayerBytes(w.root) + flag);
    IntegerIsRead(0, w.versionForm, LayerBytes(w.root) + flag);
    LayerIsRead(w.root, flag);
  }

  lemma EnvelopeWasWritten(b: Bytes) returns (w: WireEnvelope)
    requires ParseEnvelope(b).Some?
    ensures Writable(w.root) && EnvelopeBytes(w) == b
    ensures ParseEnvelope(b).value == EnvelopeV0(LayerOf(w.root), w.proveOption)
  {
    hide ParseVarint, Written, LayerBytes, LayerOf, ParseLayer;
    var (_, body) := ParseVarint(b).value;
    var versionForm := IntegerWasWritten(b);
    var root := LayerWasWritten(body);
    var tail := ParseLayer(body).value.1;
    w := WireEnvelope(versionForm, root, ParseEnvelope(b).value.proveOption);
    assert tail == [if w.proveOption then 1 else 0];
  }

  /** The grammar reads exactly the bytes that write an envelope, and as that envelope. */
  lemma GrammarIsWire(b: Bytes, envelope: EnvelopeV0)
    ensures ParseEnvelope(b) == Some(envelope) <==> Writes(b, envelope)
  {
    hide ParseEnvelope, EnvelopeBytes;
    if w: WireEnvelope :|
      Writable(w.root) && EnvelopeBytes(w) == b && envelope == EnvelopeV0(LayerOf(w.root), w.proveOption) {
      EnvelopeIsRead(w);
    }
    if ParseEnvelope(b) == Some(envelope) {
      var w := EnvelopeWasWritten(b);
    }
  }

  /** What the scan accepts: bytes that write an envelope, within 1 MiB, 64 levels below the root and 1024 layers. */
  lemma BoundedIsWire(b: Bytes)
    ensures Bounded(b) <==>
            |b| <= 0x10_0000
            && exists envelope ::
                 Writes(b, envelope) && Levels(envelope.root) <= 65 && LayerCount(envelope.root) <= 1024
  {
    hide ParseEnvelope, Writes, Levels, LayerCount;
    forall envelope: EnvelopeV0
      ensures ParseEnvelope(b) == Some(envelope) <==> Writes(b, envelope)
    {
      GrammarIsWire(b, envelope);
    }
  }

  // ---------- Depth and number ----------

  /** The layer has one `depth` levels below it. */
  ghost predicate Reaches(layer: Layer, depth: nat) {
    depth == 0 || ForestReaches(layer.lower, depth - 1)
  }

  ghost predicate ForestReaches(forest: Forest, depth: nat) {
    match forest
    case Empty => false
    case Lower(_, layer, rest) => Reaches(layer, depth) || ForestReaches(rest, depth)
  }

  lemma {:induction false} LevelsAreDepth(layer: Layer, depth: nat)
    ensures Reaches(layer, depth) <==> depth < Levels(layer)
    decreases layer
  {
    if depth > 0 {
      ForestLevelsAreDepth(layer.lower, depth - 1);
    }
  }

  lemma {:induction false} ForestLevelsAreDepth(forest: Forest, depth: nat)
    ensures ForestReaches(forest, depth) <==> depth < ForestLevels(forest)
    decreases forest
  {
    match forest
    case Empty =>
    case Lower(_, layer, rest) =>
      LevelsAreDepth(layer, depth);
      ForestLevelsAreDepth(rest, depth);
  }

  /** A layer and all below it, in the order they are read. */
  function LayersOf(layer: Layer): seq<Layer> {
    [layer] + LayersBelow(layer.lower)
  }

  function LayersBelow(forest: Forest): seq<Layer> {
    match forest
    case Empty => []
    case Lower(_, layer, rest) => LayersOf(layer) + LayersBelow(rest)
  }

  lemma {:induction false} LayersAreCounted(layer: Layer)
    ensures |LayersOf(layer)| == LayerCount(layer)
    decreases layer
  {
    LayersBelowAreCounted(layer.lower);
  }

  lemma {:induction false} LayersBelowAreCounted(forest: Forest)
    ensures |LayersBelow(forest)| == ForestCount(forest)
    decreases forest
  {
    match forest
    case Empty =>
    case Lower(_, layer, rest) =>
      LayersAreCounted(layer);
      LayersBelowAreCounted(rest);
  }
}
