/**
 The bounds-checked scan of a GroveDB proof envelope: a loop over one cursor and a stack of
 counters, proved against a recursive-descent grammar of the same bytes.
 */
module Envelope {
  import opened Arithmetic
  import opened ByteStrings
  import opened Wrappers

  const MAX_LAYER_DEPTH := 64
  const MAX_LAYERS := 1024
  const MAX_PROOF_BYTES := 0x10_0000

  // ---------- The grammar ----------

  /** One layer: its Merk ops, and the layers below it in the order they are encoded. */
  datatype Layer = Layer(ops: Bytes, lower: Forest)
  datatype Forest = Empty | Lower(key: Bytes, layer: Layer, rest: Forest)

  datatype EnvelopeV0 = EnvelopeV0(root: Layer, proveOption: bool)

  /** bincode 2's variable-width integer: one byte below 251, else a tag and 2, 4 or 8 bytes. */
  function ParseVarint(b: Bytes): (r: Option<(nat, Bytes)>)
    ensures r.Some? ==> |r.value.1| < |b|
  {
    if b == [] then None
    else if b[0] <= 250 then Some((b[0], b[1..]))
    else
      var width := TagWidth(b[0]);
      if width == 0 || |b| < 1 + width then None
      else Some((BigEndian(b[1..1 + width]), b[1 + width..]))
  }

  function TagWidth(tag: byte): nat {
    if tag == 251 then 2 else if tag == 252 then 4 else if tag == 253 then 8 else 0
  }

  /** A byte string: its length, which must fit in the bytes left, then its bytes. */
  function ParseString(b: Bytes): (r: Option<(Bytes, Bytes)>)
    ensures r.Some? ==> |r.value.0| + |r.value.1| < |b|
  {
    var (n, rest) :- ParseVarint(b);
    if n > |rest| then None else Some((rest[..n], rest[n..]))
  }

  /** A layer takes at least two bytes: its ops' length and its count of lower layers. */
  function ParseLayer(b: Bytes): (r: Option<(Layer, Bytes)>)
    ensures r.Some? ==> |r.value.1| + 2 <= |b|
    decreases |b|
  {
    var (ops, afterOps) :- ParseString(b);
    var (count, body) :- ParseVarint(afterOps);
    var (lower, rest) :- ParseForest(count, body);
    Some((Layer(ops, lower), rest))
  }

  function ParseForest(count: nat, b: Bytes): (r: Option<(Forest, Bytes)>)
    ensures r.Some? ==> |r.value.1| + 3 * count <= |b|
    decreases |b|
  {
    if count == 0 then Some((Empty, b))
    else
      var (key, body) :- ParseString(b);
      var (layer, more) :- ParseLayer(body);
      var (rest, after) :- ParseForest(count - 1, more);
      Some((Lower(key, layer, rest), after))
  }

  function ParseEnvelope(b: Bytes): Option<EnvelopeV0> {
    var (version, body) :- ParseVarint(b);
    if version != 0 then None
    else
      var (root, tail) :- ParseLayer(body);
      if IsBoolean(tail) then Some(EnvelopeV0(root, tail[0] == 1)) else None
  }

  predicate IsBoolean(tail: Bytes) {
    |tail| == 1 && tail[0] <= 1
  }

  function LayerCount(layer: Layer): (n: nat)
    ensures n > 0
  {
    1 + ForestCount(layer.lower)
  }

  function ForestLength(forest: Forest): nat {
    match forest
    case Empty => 0
    case Lower(_, _, rest) => 1 + ForestLength(rest)
  }

  function ForestCount(forest: Forest): nat {
    match forest
    case Empty => 0
    case Lower(_, layer, rest) => LayerCount(layer) + ForestCount(rest)
  }

  /** How many levels of layers a layer spans, itself included. */
  function Levels(layer: Layer): (n: nat)
    ensures n > 0
  {
    1 + ForestLevels(layer.lower)
  }

  function ForestLevels(forest: Forest): nat {
    match forest
    case Empty => 0
    case Lower(_, layer, rest) => Max(Levels(layer), ForestLevels(rest))
  }

  /** What the scan is to accept: a V0 envelope within the three limits. */
  predicate Bounded(proof: Bytes) {
    && |proof| <= MAX_PROOF_BYTES
    && var envelope := ParseEnvelope(proof);
    && envelope.Some?
    && Levels(envelope.value.root) - 1 <= MAX_LAYER_DEPTH
    && LayerCount(envelope.value.root) <= MAX_LAYERS
  }

  // ---------- What is left to scan ----------

  /** What the open layers still hold: how many layers, the deepest of their levels, and the bytes after. */
  datatype Remaining = Remaining(layers: nat, deepest: nat, after: Bytes)

  /** Reads, innermost first, the lower layers each open layer still announces. */
  function Drain(open: seq<nat>, b: Bytes): Option<Remaining> {
    if open == [] then Some(Remaining(0, 0, b))
    else
      var (forest, rest) :- ParseForest(open[|open| - 1], b);
      var outer :- Drain(open[..|open| - 1], rest);
      Some(Remaining(
             ForestCount(forest) + outer.layers,
             Max(if forest.Empty? then 0 else |open| - 1 + ForestLevels(forest), outer.deepest),
             outer.after))
  }

  /** The scan is between layers: `open` layers are unfinished and `layers` have been read. */
  predicate BetweenLayers(open: seq<nat>, b: Bytes, layers: nat) {
    && var left := Drain(open, b);
    && left.Some?
    && layers + left.value.layers <= MAX_LAYERS
    && left.value.deepest <= MAX_LAYER_DEPTH
    && IsBoolean(left.value.after)
  }

  /** The scan is about to read a layer `|open|` levels below the root. */
  predicate AtLayer(open: seq<nat>, b: Bytes, layers: nat) {
    && var layer := ParseLayer(b);
    && layer.Some?
    && var left := Drain(open, layer.value.1);
    && left.Some?
    && layers + LayerCount(layer.value.0) + left.value.layers <= MAX_LAYERS
    && Max(|open| + Levels(layer.value.0) - 1, left.value.deepest) <= MAX_LAYER_DEPTH
    && IsBoolean(left.value.after)
  }

  lemma LayerOpens(open: seq<nat>, b: Bytes, layers: nat)
    ensures AtLayer(open, b, layers) <==>
            && layers + 1 <= MAX_LAYERS
            && |open| <= MAX_LAYER_DEPTH
            && var ops := ParseString(b);
            && ops.Some?
            && var count := ParseVarint(ops.value.1);
            && count.Some?
            && 3 * count.value.0 <= |count.value.1|
            && BetweenLayers(open + [count.value.0], count.value.1, layers + 1)
  {
    var ops := ParseString(b);
    if ops.Some? {
      var count := ParseVarint(ops.value.1);
      if count.Some? {
        var pushed := open + [count.value.0];
        assert pushed[..|pushed| - 1] == open;
      }
    }
  }

  lemma FinishedLayerCloses(open: seq<nat>, b: Bytes, layers: nat)
    ensures BetweenLayers(open + [0], b, layers) <==> BetweenLayers(open, b, layers)
  {
    var pushed := open + [0];
    assert pushed[..|pushed| - 1] == open;
  }

  lemma LowerLayerStarts(open: seq<nat>, left: nat, b: Bytes, layers: nat)
    requires left > 0
    ensures BetweenLayers(open + [left], b, layers) <==>
            && var key := ParseString(b);
            && key.Some?
            && AtLayer(open + [left - 1], key.value.1, layers)
  {
    hide ParseVarint, ParseString;
    var before, after := open + [left], open + [left - 1];
    assert before[..|open|] == open && after[..|open|] == open;
    var key := ParseString(b);
    if key.Some? {
      var layer := ParseLayer(key.value.1);
      if layer.Some? {
        var rest := ParseForest(left - 1, layer.value.1);
        if rest.Some? {
          assert ParseForest(left, b).value == (Lower(key.value.0, layer.value.0, rest.value.0), rest.value.1);
          assert Drain(before, b).Some? <==> Drain(open, rest.value.1).Some?;
        }
      }
    }
  }

  // ---------- The scan ----------

  datatype ScanError =
    | TooLong | NotV0 | TooManyLayers | TooDeep | TooManyLowerLayers
    | LengthPastEnd | VarintTag | NotABoolean | TrailingBytes

  /** A cursor: what is left to read of an envelope. */
  class Scan {
    var bytes: Bytes

    constructor (proof: Bytes)
      ensures bytes == proof
    {
      bytes := proof;
    }

    method Take(n: nat) returns (r: Result<Bytes, ScanError>)
      modifies this
      ensures r.Ok? <==> n <= |old(bytes)|
      ensures r.Ok? ==> r.value == old(bytes)[..n] && bytes == old(bytes)[n..]
      ensures r.Err? ==> bytes == old(bytes) && r.error == LengthPastEnd
    {
      if n > |bytes| {
        return Err(LengthPastEnd);
      }
      var taken := bytes[..n];
      bytes := bytes[n..];
      return Ok(taken);
    }

    method Skip(n: nat) returns (r: Result<(), ScanError>)
      modifies this
      ensures r.Ok? <==> n <= |old(bytes)|
      ensures r.Ok? ==> bytes == old(bytes)[n..]
    {
      var _ :- Take(n);
      return Ok(());
    }

    method Varint() returns (r: Result<nat, ScanError>)
      modifies this
      ensures r.Ok? <==> ParseVarint(old(bytes)).Some?
      ensures r.Ok? ==> (r.value, bytes) == ParseVarint(old(bytes)).value
    {
      var tag :- Take(1);
      var width := TagWidth(tag[0]);
      if tag[0] <= 250 {
        return Ok(tag[0]);
      } else if width == 0 {
        return Err(VarintTag);
      }
      var digits :- Take(width);
      assert digits == old(bytes)[1..1 + width];
      return Ok(BigEndian(digits));
    }

    /** A length, refused when it runs past the end. */
    method Len() returns (r: Result<nat, ScanError>)
      modifies this
      ensures var parsed := ParseVarint(old(bytes));
              && (r.Ok? <==> parsed.Some? && parsed.value.0 <= |parsed.value.1|)
              && (r.Ok? ==> (r.value, bytes) == parsed.value)
    {
      var n :- Varint();
      if n > |bytes| {
        return Err(LengthPastEnd);
      }
      return Ok(n);
    }
  }

  method ScanEnvelope(proof: Bytes) returns (r: Result<(), ScanError>)
    ensures r.Ok? <==> Bounded(proof)
  {
    hide ParseVarint;
    if |proof| > MAX_PROOF_BYTES {
      return Err(TooLong);
    }
    var scan := new Scan(proof);
    var version :- scan.Varint();
    if version != 0 {
      return Err(NotV0);
    }
    // One counter an open layer, the root's first, of the lower layers it still announces.
    var open: seq<nat> := [];
    var layers := 0;
    assert Bounded(proof) <==> AtLayer(open, scan.bytes, layers);
    label layer:
    while true
      invariant Bounded(proof) <==> AtLayer(open, scan.bytes, layers)
      decreases |scan.bytes|
    {
      LayerOpens(open, scan.bytes, layers);
      layers := layers + 1;
      if layers > MAX_LAYERS {
        return Err(TooManyLayers);
      }
      if |open| > MAX_LAYER_DEPTH {
        return Err(TooDeep);
      }
      var ops :- scan.Len();
      var skipped := scan.Skip(ops);
      assert skipped.Ok?;
      var lower :- scan.Varint();
      // Three one-byte varints are the least a lower layer can be.
      if lower > |scan.bytes| / 3 {
        return Err(TooManyLowerLayers);
      }
      open := open + [lower];
      ghost var body := scan.bytes;
      while open != []
        invariant scan.bytes == body
        invariant Bounded(proof) <==> BetweenLayers(open, scan.bytes, layers)
        invariant layers <= MAX_LAYERS
        decreases |open|
      {
        var left := open[|open| - 1];
        var outer := open[..|open| - 1];
        assert open == outer + [left];
        if left == 0 {
          FinishedLayerCloses(outer, scan.bytes, layers);
          open := outer;
          continue;
        }
        LowerLayerStarts(outer, left, scan.bytes, layers);
        open := outer + [left - 1];
        var key :- scan.Len();
        var passed := scan.Skip(key);
        assert passed.Ok?;
        continue layer;
      }
      break;
    }
    var flag :- scan.Take(1);
    if flag[0] > 1 {
      return Err(NotABoolean);
    }
    if scan.bytes != [] {
      return Err(TrailingBytes);
    }
    return Ok(());
  }
}
