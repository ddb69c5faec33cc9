/** A verified read, end to end: the value served, the proof of it, and the recency of its root. */
module VerifiedRead {
  import opened Arithmetic
  import opened ByteStrings
  import opened Wrappers
  import opened Envelope
  import opened EnvelopeCodec
  import opened Hashing
  import opened MerkProof
  import opened Grove
  import opened ItemProof
  import opened ItemSoundness
  import opened HonestItem
  import opened Text
  import LightClient

  /** A JSON value, by its compact text with sorted keys: equal values have equal texts. */
  type Json = string

  /** The JSON decoder: the value some bytes hold, if they hold one. */
  type JsonDecoder = Bytes -> Option<Json>

  function ServedValue(json: JsonDecoder, bytes: Bytes): Json {
    match json(bytes)
    case Some(value) => value
    case None => HexObject(bytes)
  }

  /** The object of one member, the bytes' hex: the very value that bytes holding its text decode to. */
  function HexObject(bytes: Bytes): Json {
    "{\"hex\":\"" + Hex(bytes) + "\"}"
  }

  /** What is served is the JSON the bytes hold, or, when they hold none, an object of their hex and nothing else. */
  lemma ServedIsMeant(json: JsonDecoder, bytes: Bytes, value: Json)
    ensures value == ServedValue(json, bytes) <==>
            match json(bytes)
            case Some(v) => value == v
            case None => exists t :: IsHex(t) && Unhex(t) == Some(bytes) && value == "{\"hex\":\"" + t + "\"}"
  {
    hide Hex, Unhex, IsHex;
    HexIsHex(bytes);
    forall t: string
      ensures IsHex(t) && Unhex(t) == Some(bytes) <==> t == Hex(bytes)
    {
      if IsHex(t) {
        LowercaseHex(t, bytes);
      }
    }
    assert Unhex(Hex(bytes)) == Some(bytes);
  }

  function SubgroveDataPath(subgroveId: Bytes): (path: seq<Bytes>)
    ensures path == [Ascii("subgroves"), subgroveId, Ascii("data")]
  {
    DataTreePaths([SUBGROVES, subgroveId, DATA]);
    [SUBGROVES, subgroveId, DATA]
  }

  /** What the API answers for a key's proof; each part may be missing. */
  datatype ProofAnswer = ProofAnswer(proofHex: Option<string>, height: Option<nat>)

  datatype ReadError =
    | NotFound | NoProof | NoProofBytes | NoHeight | ProofTooLong | BadHex
    | BadItem(item: ItemError) | AnotherValue | NotRecent(recency: LightClient.RecencyError)

  /**
   `proof` proves an item served as `value`, in a state said to be block `height`'s, and the client finds the
   state's root in `header`.
   */
  ghost predicate ReadVerified(lib: Library, json: JsonDecoder, subgroveId: Bytes, key: Bytes, proof: Bytes,
                               height: nat, view: LightClient.View, latest: nat, lag: nat, value: Json, header: nat)
  {
    exists root: Digest, bytes ::
      && Accepted(lib, proof, SubgroveDataPath(subgroveId), key, root, bytes)
      && value == ServedValue(json, bytes)
      && LightClient.RecentHeader(view.Awaited(height + 1), view.Lookup(), root, height, latest, lag) == Ok(header)
  }

  /** What the API and the endpoints must have answered for a read to return `value` at `header`. */
  ghost predicate ReadAccepted(lib: Library, json: JsonDecoder, subgroveId: Bytes, key: Bytes, served: Option<Json>,
                               answer: Option<ProofAnswer>, view: LightClient.View, minValidators: nat, lag: nat,
                               value: Json, header: nat)
  {
    && served == Some(value)
    && answer.Some? && answer.value.proofHex.Some? && answer.value.height.Some? && answer.value.height.value > 0
    && var (hex, height) := (answer.value.proofHex.value, answer.value.height.value);
    && |hex| <= 2 * MAX_PROOF_BYTES && Unhex(hex).Some?
    && var latest := LightClient.LatestHeight(view.statuses, minValidators, view.heldHeight);
    && latest.Some?
    && ReadVerified(lib, json, subgroveId, key, Unhex(hex).value, height, view, latest.value, lag, value, header)
  }

  /** A proof accepted for one item is accepted for no other, so it decides what a read returns. */
  lemma OneReading(lib: Library, json: JsonDecoder, subgroveId: Bytes, key: Bytes, proof: Bytes, height: nat,
                   view: LightClient.View, latest: nat, lag: nat, value: Json, header: nat, root: Digest, bytes: Bytes)
    requires Accepted(lib, proof, SubgroveDataPath(subgroveId), key, root, bytes)
    ensures ReadVerified(lib, json, subgroveId, key, proof, height, view, latest, lag, value, header)
       <==> value == ServedValue(json, bytes)
            && LightClient.RecentHeader(view.Awaited(height + 1), view.Lookup(), root, height, latest, lag)
               == Ok(header)
  {
    hide LightClient.RecentHeader;
  }

  method GetVerified(lib: Library, json: JsonDecoder, subgroveId: Bytes, key: Bytes, served: Option<Json>,
                     answer: Option<ProofAnswer>, view: LightClient.View, minValidators: nat, lag: nat)
    returns (r: Result<(Json, nat), ReadError>)
    ensures r.Ok? ==>
              ReadAccepted(lib, json, subgroveId, key, served, answer, view, minValidators, lag, r.value.0, r.value.1)
    ensures r.Err? ==> forall value, header ::
                !ReadAccepted(lib, json, subgroveId, key, served, answer, view, minValidators, lag, value, header)
    ensures r.Ok? ==>
              served == Some(r.value.0) && answer.Some? && answer.value.height.Some? && answer.value.height.value > 0
    ensures served.None? ==> r == Err(NotFound)
  {
    hide Accepted, LightClient.RecentHeader, LightClient.LatestHeight, Unhex, SubgroveDataPath;
    if served.None? {
      return Err(NotFound);
    }
    if answer.None? {
      return Err(NoProof);
    }
    if answer.value.proofHex.None? {
      return Err(NoProofBytes);
    }
    if answer.value.height.None? || answer.value.height.value == 0 {
      return Err(NoHeight);
    }
    var hex := answer.value.proofHex.value;
    if |hex| > 2 * MAX_PROOF_BYTES {
      return Err(ProofTooLong);
    }
    var proof := Unhex(hex);
    if proof.None? {
      return Err(BadHex);
    }
    var item := VerifyItemAtPath(lib, proof.value, SubgroveDataPath(subgroveId), key);
    if item.Err? {
      return Err(BadItem(item.error));
    }
    var (root, bytes) := item.value;
    forall latest: nat, value, header: nat
      ensures ReadVerified(lib, json, subgroveId, key, proof.value, answer.value.height.value, view, latest, lag, value,
                           header)
         <==> value == ServedValue(json, bytes)
              && LightClient.RecentHeader(view.Awaited(answer.value.height.value + 1), view.Lookup(), root,
                                          answer.value.height.value, latest, lag) == Ok(header)
    {
      OneReading(lib, json, subgroveId, key, proof.value, answer.value.height.value, view, latest, lag, value, header,
                 root, bytes);
    }
    var proven := ServedValue(json, bytes);
    if proven != served.value {
      return Err(AnotherValue);
    }
    var height := LightClient.VerifyRootAfter(view, minValidators, lag, root, answer.value.height.value);
    if height.Err? {
      return Err(NotRecent(height.error));
    }
    return Ok((proven, height.value));
  }

  /** The chain's headers: each has the root that the block below it left. */
  ghost predicate Commits(lib: Library, chain: LightClient.Chain, states: nat -> Merk) {
    forall b: nat :: chain(b + 1) == MerkHash(lib.hash, states(b))
  }

  /**
   End to end, with header endpoints that answer as the chain does: when `GetVerified` returns `value` at
   `header`, the chain's state after the block before that header holds, in the subgrove's data tree, an
   Item at the key whose bytes are served as `value`, and that state is at most `lag` blocks behind the
   latest height.
   */
  lemma VerifiedReadIsChainState(lib: Library, json: JsonDecoder, subgroveId: Bytes, key: Bytes, served: Option<Json>,
                                 answer: Option<ProofAnswer>, view: LightClient.View, minValidators: nat, lag: nat,
                                 value: Json, header: nat, chain: LightClient.Chain, states: nat -> Merk)
    returns (element: Bytes)
    requires ReadAccepted(lib, json, subgroveId, key, served, answer, view, minValidators, lag, value, header)
    requires Trusted(lib) && Commits(lib, chain, states)
    requires var height := answer.value.height.value;
             LightClient.Honest(chain, view.Awaited(height + 1), view.Lookup(), height)
    requires header > 0 ==>
               var (state, path) := (states(header - 1), SubgroveDataPath(subgroveId));
               var proof := Unhex(answer.value.proofHex.value).value;
               && Ordered(state) && At(state, path).Some? && OnlyPlain(At(state, path).value)
               && CollisionFree(lib.hash,
                                ProofInputs(lib, ParseEnvelope(proof).value.root, path) + MerkInputs(lib.hash, state))
    ensures header > 0
    ensures LightClient.LatestHeight(view.statuses, minValidators, view.heldHeight).value <= header - 1 + lag
    ensures At(states(header - 1), [Ascii("subgroves"), subgroveId, Ascii("data")]).Some?
    ensures Get(At(states(header - 1), [Ascii("subgroves"), subgroveId, Ascii("data")]).value, key)
         == Some(Plain(element))
    ensures DecodeElement(lib.element, element).Some? && DecodeElement(lib.element, element).value.Item?
    ensures var bytes := DecodeElement(lib.element, element).value.bytes;
            match json(bytes)
            case Some(v) => value == v
            case None => exists t :: IsHex(t) && Unhex(t) == Some(bytes) && value == "{\"hex\":\"" + t + "\"}"
  {
    hide Accepted, LightClient.RecentHeader, LightClient.LatestHeight, Unhex, CollisionFree, Ordered, ParseEnvelope;
    var path, height := SubgroveDataPath(subgroveId), answer.value.height.value;
    var proof := Unhex(answer.value.proofHex.value).value;
    var latest := LightClient.LatestHeight(view.statuses, minValidators, view.heldHeight).value;
    var root: Digest, bytes :|
      && Accepted(lib, proof, path, key, root, bytes)
      && value == ServedValue(json, bytes)
      && LightClient.RecentHeader(view.Awaited(height + 1), view.Lookup(), root, height, latest, lag) == Ok(header);
    LightClient.RecentHeaderIsRecent(chain, view.Awaited(height + 1), view.Lookup(), root, height, latest, lag);
    assert chain((header - 1) + 1) == MerkHash(lib.hash, states(header - 1));
    element := AcceptedItemIsStored(lib, proof, path, key, root, bytes, states(header - 1));
    ServedIsMeant(json, bytes, value);
  }

  /** The proof an honest API serves of a key of a subgrove in `state`. */
  function HonestProof(lib: Library, write: OpWriter, state: Merk, subgroveId: Bytes, key: Bytes): Bytes
    requires var path := SubgroveDataPath(subgroveId);
             At(state, path).Some? && Get(At(state, path).value, key).Some?
             && EncodableLayer(ProofLayer(lib.hash, write, state, path, key))
  {
    var layer := ProofLayer(lib.hash, write, state, SubgroveDataPath(subgroveId), key);
    EncodeEnvelope(EnvelopeV0(layer, true))
  }

  /**
   The other half: an honest API and honest endpoints are believed. Take any state the chain has had, any Item of
   it whose proof fits in 1 MiB, and a chain each of whose roots is in one run of headers. When some header
   within the lag still carries the state's root, however old the state is, a read of the Item returns the value
   its bytes are served as, 63-byte elements included. (A lag of 0 takes only a state at least as new as the
   latest height.)
   */
  lemma HonestReadSucceeds(lib: Library, write: OpWriter, json: JsonDecoder, subgroveId: Bytes, key: Bytes, item: Bytes,
                           element: Element, value: Json, state: Merk, height: nat, view: LightClient.View,
                           minValidators: nat, lag: nat, chain: LightClient.Chain)
    returns (header: nat)
    requires var path := SubgroveDataPath(subgroveId);
             && Reads(lib, write) && At(state, path).Some? && Get(At(state, path).value, key) == Some(Plain(item))
             && PathDecodes(lib.element, state, path, key)
             && EncodableLayer(ProofLayer(lib.hash, write, state, path, key))
    requires DecodeElement(lib.element, item) == Some(element) && element.Item?
    requires var (path, proof) := (SubgroveDataPath(subgroveId), HonestProof(lib, write, state, subgroveId, key));
             && |proof| <= MAX_PROOF_BYTES && Finds(lib, proof, state, path, key, element)
             && lib.decode(proof)
                == Some(EnvelopeV0(ProofLayer(lib.hash, write, state, path, key), true))
    requires match json(element.bytes)
             case Some(v) => value == v
             case None => exists t :: IsHex(t) && Unhex(t) == Some(element.bytes) && value == "{\"hex\":\"" + t + "\"}"
    requires 0 < height < U64_MAX && chain(height + 1) == MerkHash(lib.hash, state) && LightClient.Contiguous(chain)
    requires LightClient.Honest(chain, view.Awaited(height + 1), view.Lookup(), height)
    requires var latest := LightClient.LatestHeight(view.statuses, minValidators, view.heldHeight);
             && latest.Some? && height <= latest.value + lag
             && view.Awaited(height + 1).Some?
             && LightClient.ProbesServed(view.Lookup(), MerkHash(lib.hash, state), height, latest.value, lag)
             && (exists g: nat :: latest.value < g + lag && chain(g) == MerkHash(lib.hash, state))
             && (lag > 0 || height >= latest.value)
    ensures ReadAccepted(lib, json, subgroveId, key, Some(value),
                         Some(ProofAnswer(Some(Hex(HonestProof(lib, write, state, subgroveId, key))), Some(height))),
                         view, minValidators, lag, value, header)
  {
    hide Accepted, Unhex, Hex, LightClient.LatestHeight, LightClient.RecentHeader, LightClient.Contiguous, ProofLayer,
      PathDecodes, MerkHash, EncodeEnvelope, Reads, Bounded, DecodeElement, At, Get;
    var path, root := SubgroveDataPath(subgroveId), MerkHash(lib.hash, state);
    var proof := HonestProof(lib, write, state, subgroveId, key);
    var latest := LightClient.LatestHeight(view.statuses, minValidators, view.heldHeight).value;
    HexRoundTrip(proof);
    HonestProofIsAccepted(lib, write, state, path, key, item, element);
    assert Accepted(lib, proof, path, key, root, element.bytes);
    LightClient.TwoProbesSuffice(chain, view.Awaited(height + 1), view.Lookup(), root, height, latest, lag);
    header := LightClient.RecentHeader(view.Awaited(height + 1), view.Lookup(), root, height, latest, lag).value;
    ServedIsMeant(json, element.bytes, value);
    assert ReadVerified(lib, json, subgroveId, key, proof, height, view, latest, lag, value, header);
  }
}
