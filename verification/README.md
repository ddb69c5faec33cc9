# A verified model of the Willow Rust SDK

The SDK reads values from a chain it doesn't run, and writes to it from many writers at once. This project
models the parts of it where a mistake is a wrong answer believed or a write lost or run twice, and proves
what those parts are for. Run `dafny verify dfyconfig.toml` to check it.

## What is modelled

**Proofs of one Item** (`Envelope`, `EnvelopeWire`, `EnvelopeCodec`, `DecodeBudget`, `MerkProof`, `ProofWriting`,
`Hashing`, `Grove`, `ItemProof`, `ItemCheck`, `ItemSoundness`, `HonestItem`). The scan of a proof envelope is the source's loop over one cursor
and a stack of counters, proved equal to a recursive-descent grammar under the three limits. A layer's ops run
on a stack of bits, proved equal to running them on a stack of trees. Both are then described without running
anything: `EnvelopeWire` says what bytes the grammar reads, by writing every form of every field, `ProofWriting` what
ops build a tree, by writing it in each of the orders the six ops allow, and `ItemCheck` what the checks between
the two come to. The stored state is a Merk tree of Merk
trees, hashed at the level of bytes, so that the 63-byte rule comes out of the lengths of hash inputs. The main
result, `ItemSoundness.AcceptedItemIsStored`, says that an accepted proof whose root is the state's root returns
what the state holds. Its other half, `HonestItem.HonestProofIsAccepted`, takes any state and any Item of it, builds
the proof an honest prover does, and says exactly when it is accepted.

The libraries underneath are parameters. `ItemSoundness.Trusted` is what is assumed of them: bincode decodes an
envelope the scan accepts as the grammar does, or refuses it; and when GroveDB's verifier returns a result at a
path it has computed the root layer's root, each layer along the path is one tree no side of whose nodes is
attached to twice, and a lower layer that is present is bound to the layer above it by its combined hash. No
hash is assumed injective. Soundness is stated for any hash under which none of the finitely many inputs hashed
by this proof and this state collide, and none hashes to the empty tree's root.

**Recency and verified reads** (`LightClient`, `VerifiedRead`). The latest height is an order statistic of the
endpoints' answers. Two header probes decide whether any header within the lag carries a root.
`VerifiedRead.VerifiedReadIsChainState` composes both with the proof check, end to end, and
`VerifiedRead.HonestReadSucceeds` says that an honest answer is believed. Endpoints are arbitrary
functions in the methods; that they answer as the chain does is a hypothesis of the lemmas that need it.

**Nonces and submissions** (`Nonces`, `NonceRuns`, `Submissions`, `RefusalForms`, `Protocol`, `ProtocolSafety`,
`ProtocolExactness`, `ProtocolRetry`). The tracker is a class whose methods are the atomic steps its mutex makes them. Clock readings
are arguments. The source reads the clock before it takes the lock, so the results about runs assume that
readings don't go back in lock order (`NonceRuns.TimeGoesOn`). `Protocol` is a step machine of one signing DID:
the tracker, its calls in flight, and a node with a base, a used set, a mempool and holds of its own. A request
reaches the node before its call returns, or never. The node looks in its cache before CheckTx, and names a
nonce that is used or held.

**JSON budgets** (`JsonScan`, `JsonCost`, `JsonAgreement`). The byte loop is proved against a function of the
rest of the input, with no early exit, for any bytes. On every text of RFC 8259 (grammar of section 2, containers
of sections 4 and 5, numbers of section 6, strings of section 7) that function is proved to count the cost of the
syntax tree.

**Files** (`Files`, `FileTransfer`). The Merkle loop, the manifest an upload builds, the check of a manifest, and
the download from a storage node that answers anything.

**Encodings** (`SignedMessages`, `Completeness`). Each builder is inverted by a reader, so equal messages were
built of equal fields; and each message and preimage is also laid out field by field.

**Reconnects** (`Subscriptions`). The loop of a subscription over any network, with a real termination measure.

`Arithmetic`, `ByteStrings`, `Text` and `Wrappers` hold what these share.

## What the proofs found

- At the last base, 2^64 - 1, the window saturates and a take hands out a nonce that is already used
  (`NonceRuns.LastBaseHandsOutDeadNonce`). It does so there and nowhere else
  (`NonceRuns.TakeIsAliveBelowLastBase`).
- No bytes run twice in any run, whatever callers do (`ProtocolSafety.BytesRunAtMostOnce`). That is the node's own nonce
  rule at work: it executes nothing under a used nonce, and no step of the client is needed for it.
- That two different transactions of the client are never at the node under one nonce (no hold of which lapsed) does
  depend on what callers send again. The exact rule is `Protocol.Sendable`: while the nonce is alive, no call under it may
  be unanswered or about to give it back, and no other transaction may be pending under it. Within the rule the property
  holds of every run (`ProtocolSafety.OneTransactionPerNonce`). Outside it, from any state a run reaches and for any
  transaction, the run can go on, keeping to the rule ever after, to break it (`ProtocolExactness.OutsideBreaks`,
  `ProtocolExactness.RuleIsExact`). Sending one lost submission twice at once is enough
  (`ProtocolExactness.SendingTwiceBreaks`), and `rebroadcast` does not check for it.
- The retry the documentation describes keeps the rule: bytes of which the caller last heard that their outcome is
  unknown, sent again one call at a time (`ProtocolRetry.DocumentedRetryIsSafe`). So does any retry whose caller looks only
  at what it sees: no call of its own for the bytes is in flight, and either what it last heard of them didn't give the
  nonce back, or the tracker's `is_held` says that the nonce isn't held (`ProtocolRetry.CheckKeepsRule`,
  `ProtocolRetry.CallersKeepOnePerNonce`). The check and the send are one step of the model.
- A caller that hears that nothing was sent, or that its write was refused and the nonce given back, can rely on it: the
  write never lands unless its bytes are sent again (`ProtocolRetry.GivenUpNeverLands`).
- An honest node's chunks are refused when the first is longer than 2 MiB, which a manifest that passes the check may
  announce. `FileTransfer.HonestDownload` is the exact condition, for a file and chunks of any size.
- With `max_proof_lag_blocks` 0, a root that the chain still carries in a newer header is refused
  (`LightClient.LagZeroRefusesUnchangedRoot`). `LightClient.TwoProbesSuffice` says exactly when the check succeeds.
- The completeness preimage cuts counts to 32 bits, so it is the events' own only below 2^32:
  `Completeness.PreimageReadsBack` is the exact condition and `Completeness.CutCountsCollide` a collision past it.
- Lists of hashes of different lengths can share a Merkle root (`Files.CountMatters`), so a download is bound by the
  root and the count together.
- The repository's README.md:124 and the comment at src/files.rs:188-190 say that a manifest of chunks under 4 KiB in a file of more
  than one is refused. The code doesn't refuse it, and says why at src/files.rs:415-416. The model follows the code.
- The repository's README.md:118 speaks of a 64 KiB bound on a node value. The code's bound is the envelope's, 1 MiB
  (src/grovedb_envelope.rs:74-77). The model follows the code.
- A revoke's subgrove ID may hold a line break (src/signed_messages.rs:273-285). Its message is still told apart from
  every other (`SignedMessages.MessagesAreInjective` covers it).

## Model

| member | source | states |
|---|---|---|
| `Envelope.Scan.Take` | src/grovedb_envelope.rs:210-220 | succeeds exactly when that many bytes are left, returns them and keeps the rest; a failure moves nothing |
| `Envelope.Scan.Skip` | src/grovedb_envelope.rs:222-224 | moves past bytes exactly when that many are left |
| `Envelope.Scan.Varint` | src/grovedb_envelope.rs:226-240 | reads exactly what the grammar's variable-width integer is, and fails on every other input |
| `Envelope.Scan.Len` | src/grovedb_envelope.rs:242-252 | reads a length exactly when it fits in the bytes left after it |
| `Envelope.ScanEnvelope` | src/grovedb_envelope.rs:144-202 | terminates on every input, and accepts exactly the V0 envelopes of the recursive grammar that are at most 1 MiB, 64 levels deep and 1024 layers |
| `Envelope.LayerOpens` | src/grovedb_envelope.rs:158-178 | opening a layer preserves what is left to accept, both ways: the layer and depth limits and the 3-bytes-a-layer pre-check refuse nothing the bounded grammar accepts |
| `Envelope.LowerLayerStarts` | src/grovedb_envelope.rs:179-188 | taking one from the innermost counter and reading its key is the grammar's next lower layer |
| `Envelope.FinishedLayerCloses` | src/grovedb_envelope.rs:180-183 | popping a finished counter changes nothing of what is left to accept |
| `EnvelopeWire.GrammarIsWire` | src/grovedb_envelope.rs:137-143 | the grammar reads a byte string as an envelope if and only if some writing of that envelope is those bytes: each integer in one of its forms, each string and map counted, the version 0 and the flag 0 or 1 |
| `EnvelopeWire.BoundedIsWire` | src/grovedb_envelope.rs:144-202 | what the scan accepts is exactly what writes an envelope in at most 1 MiB, 65 levels and 1024 layers |
| `EnvelopeWire.LevelsAreDepth` | src/grovedb_envelope.rs:52-63 | an envelope has more than d levels if and only if it holds a layer d below the root |
| `EnvelopeWire.LayersAreCounted` | src/grovedb_envelope.rs:52-63 | the layers counted are the entries of all the maps, and the root |
| `EnvelopeCodec.EnvelopeRoundTrip` | src/grovedb_envelope.rs:137-143 | the grammar reads every encoded envelope back as itself, of any shape |
| `EnvelopeCodec.HonestEnvelopeIsBounded` | src/grovedb_envelope.rs:47-63 | an encoded envelope passes the scan exactly when it is within the size, depth and layer limits |
| `DecodeBudget.EnvelopeWithinBudget` | src/grovedb_envelope.rs:68-72 | at every point of decoding any scanned envelope, string lengths claimed plus unread map entries are within the decode limit, whatever an entry's size |
| `DecodeBudget.LayerWithinBudget` | src/grovedb_envelope.rs:68-72 | a layer's claims stay within a limit that covers its strings and one entry for each layer below it |
| `DecodeBudget.NextPowerOfTwoIsLeast` | src/grovedb_envelope.rs:302 | the claim limit is the least power of two that is enough |
| `DecodeBudget.ElementClassExists` | src/grovedb_envelope.rs:274-310 | every element of at most 1 MiB falls in one of the classes 2^10 to 2^25, which is at least 32 times its length and less than twice what is needed |
| `MerkProof.CheckOps` | src/grovedb_envelope.rs:321-371 | the bit stack accepts exactly the ops that build one tree with every `Hash` node childless and every carried value an element |
| `MerkProof.PushedNodesAreTreeNodes` | src/grovedb_envelope.rs:332-366 | the nodes pushed are, as a multiset, the nodes of the final tree |
| `MerkProof.RunBackSound` | src/grovedb_envelope.rs:332-366 | a tree that breaks the rules stays broken whatever ops follow |
| `MerkProof.FailureIsFinal` | src/grovedb_envelope.rs:321-323 | ending the check at the first op that fails refuses nothing that could still be accepted |
| `ProofWriting.BuiltIsWritten` | src/grovedb_envelope.rs:332-366 | ops build a tree if and only if they are one of its writings: a leaf pushed by either push, a left child attached by `Parent` after it or `ChildInverted` before it, a right child by `Child` or `ParentInverted` |
| `ProofWriting.SoundMeans` | src/grovedb_envelope.rs:321-331 | a tree passes exactly when nothing is attached to a `Hash` node anywhere in it and the value of each node that carries one decodes |
| `ProofWriting.CheckedMeans` | src/grovedb_envelope.rs:321-371 | ops are accepted if and only if they write, in any order there is, a tree that passes |
| `ProofWriting.ElementIsDecoded` | src/grovedb_envelope.rs:274-310 | an element of more than 1 MiB is refused unread; any other is decoded under a power of two that is 32 times its length, and 1 KiB, at least, and less than twice that |
| `Hashing.PairSizedValue` | src/grovedb_envelope.rs:79-84 | a value's hash input can be that of two combined hashes exactly when the value is 63 bytes |
| `Hashing.PrefixedInjective` | src/grovedb_envelope.rs:79-84 | a length-prefixed value determines the value |
| `Hashing.KvInputInjective` | src/grovedb_envelope.rs:510-525 | a key and value hash are determined by what is hashed of them |
| `Grove.TreeShowsStored` | src/grovedb_envelope.rs:16-26 | a proof tree that hashes to a stored Merk's root, its opaque nodes childless, shows a key only where the Merk has it, with the same value hash |
| `Grove.NodeIsReached` | src/grovedb_envelope.rs:346-364 | every node of a tree no side of which is attached to twice hangs where the root's hash looks |
| `Grove.GetFindsEntry` | src/grovedb_envelope.rs:390-394 | a stored search tree has one entry at a key, and lookup finds it |
| `ItemProof.LayerAtPath` | src/grovedb_envelope.rs:96-119 | returns the layer at the path exactly when the envelope descends it, has no layer below it and sets the default options |
| `ItemProof.DescendedPath` | src/grovedb_envelope.rs:121-135 | the loop returns the one path of an envelope with at most one lower layer a layer, and refuses any other |
| `ItemProof.SinglePathDescends` | src/grovedb_envelope.rs:121-135 | the path returned leads to the deepest layer, which holds none |
| `ItemCheck.SinglePathIsOnly` | src/grovedb_envelope.rs:121-135 | a path is returned if and only if each layer along it has the one key of the next segment, and the last layer none |
| `ItemCheck.LookupIsMap` | src/grovedb_envelope.rs:105-111 | a layer is found under a key exactly where the map the entries were read into has it: a later entry replaces an earlier one |
| `ItemProof.CheckAllLayers` | src/grovedb_envelope.rs:381-388 | the worklist terminates and accepts exactly when every layer the decoded maps hold passes the op check |
| `ItemCheck.LayersAreChecked` | src/grovedb_envelope.rs:381-388 | every layer is checked if and only if the layer at every path there is passes the op check |
| `ItemProof.DecodeEnvelope` | src/grovedb_envelope.rs:255-272 | decodes exactly the envelopes that the scan accepts and bincode reads |
| `ItemProof.FindCarried` | src/grovedb_envelope.rs:420-441 | finds the node of the key exactly when all ops decode and one pushed node names it |
| `ItemCheck.CarriedIsOnly` | src/grovedb_envelope.rs:420-441 | a node is found for a key if and only if one op pushes it, by either push, it names the key, and no other op pushes a node that does |
| `ItemProof.DataTreePaths` | src/grovedb_envelope.rs:390-394 | the paths that may hold a 63-byte element are those of three segments, `subgroves`, any, and `data` |
| `ItemProof.VerifyItemAtPath` | src/grovedb_envelope.rs:407-478 | returns a root and bytes only of a proof that meets every condition, and refuses only a proof that meets them for no root and bytes |
| `ItemCheck.AcceptedShows` | src/grovedb_envelope.rs:396-478 | an accepted proof is a scanned envelope with every layer checked and the default options, whose layer at the path is the last and names the key once, by a `KV` of an Item of the bytes returned, the one result GroveDB gives; and a 63-byte value is in a data tree |
| `ItemCheck.ShownIsAccepted` | src/grovedb_envelope.rs:396-478 | every proof of which all that holds is accepted: no other condition is asked |
| `ItemSoundness.LayersMatchState` | src/grovedb_envelope.rs:3-11 | along a path of stored subtrees, each layer's root is the root of the subtree there |
| `ItemSoundness.LowerLayerIsSubtree` | src/grovedb_envelope.rs:8-10 | a lower layer bound by its combined hash has the stored subtree's root |
| `ItemSoundness.BoundValueIsStored` | src/grovedb_envelope.rs:79-84 | a value the root binds is the stored element, or it is 63 bytes and a subtree or reference is stored |
| `ItemSoundness.AcceptedItemIsStored` | src/grovedb_envelope.rs:396-406 | soundness: an accepted proof with the state's root returns the bytes of the Item stored at that path and key, if the trees at `subgroves`, any, `data` hold only plain items, and barring a collision among the inputs hashed |
| `HonestItem.OpsBuild` | src/grovedb_envelope.rs:332-366 | every proof tree is built by its ops: left children first, then the parent, then right children |
| `HonestItem.ShownIsRoot` | src/grovedb_envelope.rs:502-533 | for any stored Merk and key, the tree that shows the key hashes to the Merk's root, with opaque nodes childless and no side attached to twice |
| `HonestItem.ShownCarries` | src/grovedb_envelope.rs:420-441 | that tree's ops carry the key's entry once and no other value, so it passes exactly when that entry's element decodes |
| `HonestItem.LayersVerify` | src/grovedb_envelope.rs:502-533 | the layers of an honest proof meet what is assumed of GroveDB's verifier, for any state, path and key |
| `HonestItem.LayerIsShown` | src/grovedb_envelope.rs:502-533 | each honest layer is one tree, and its root is the root of the state's subtree there |
| `HonestItem.HonestProofIsAccepted` | src/grovedb_envelope.rs:396-406 | an honest proof of any Item of any state is accepted exactly when it fits in 1 MiB and 64 levels and the element is not one of 63 bytes outside `subgroves`, any, `data` |
| `LightClient.LatestChainHeight` | src/light_client.rs:961-985 | none exactly when fewer endpoints answer than are needed, or none does; else the height whose lower heights are exactly those the client holds, or that the number needed and a strict majority of the answering endpoints report |
| `LightClient.AnswersAreCounted` | src/light_client.rs:961-985 | the heights counted are as many as the endpoints that answered, and those that reach a height as many as the endpoints that reported at least it |
| `LightClient.MajorityBoundsLatestHeight` | src/light_client.rs:956-985 | with a strict majority honest, and no more than a majority needed, it lies between the lowest and highest honest heights |
| `LightClient.AppHashAfter` | src/light_client.rs:907-938 | the header held, else the first an endpoint serves in any round; an error at the last height |
| `LightClient.AppHashAt` | src/light_client.rs:940-954 | the header held, else the first endpoint's that serves it |
| `LightClient.VerifyRootAfter` | src/light_client.rs:1019-1061 | decides as `RecentHeader` does on what the endpoints serve, with no underflow, whatever they serve |
| `LightClient.RecentHeaderIsRecent` | src/light_client.rs:1001-1018 | a returned header carries the root, and the state before it is at most the lag behind the latest height |
| `LightClient.TwoProbesSuffice` | src/light_client.rs:1001-1061 | with one run of headers a root and the probes asked for served, the check succeeds if and only if the awaited header is served and carries the root, the height is at most the lag ahead of the latest, and some header within the lag carries the root; but for a lag of 0 |
| `LightClient.RefusalsAreTold` | src/light_client.rs:1019-1061 | which error a refusal is: too far ahead, no block after, no header, another root, or too old |
| `LightClient.LagZeroRefusesUnchangedRoot` | src/light_client.rs:1044-1048 | a lag of 0 refuses a root that a newer header carries |
| `VerifiedRead.GetVerified` | src/data.rs:138-218 | returns a value and header only if everything served meets the conditions for them, and refuses only if it does for none |
| `VerifiedRead.OneReading` | src/data.rs:203-210 | an accepted proof decides the one value a read can return |
| `VerifiedRead.ServedIsMeant` | src/data.rs:535-541 | what an Item is served as is exactly the JSON its bytes hold, or, when they hold none, the object `hex` of the one lowercase text that reads back as them |
| `VerifiedRead.VerifiedReadIsChainState` | src/data.rs:124-218 | end to end: the chain's state before the returned header, at most the lag behind the latest height, holds at the key an Item in the tree at `subgroves`, the subgrove, `data`; the value is the JSON of its bytes, or, when they are none, an object of their hex |
| `VerifiedRead.HonestReadSucceeds` | src/data.rs:113-131 | an API and endpoints serving an honest proof of any state, however old, are believed while a header within the lag carries its root, for every Item of it whose proof fits in 1 MiB and the value its bytes are served as |
| `Nonces.StateIsRead` | src/nonces.rs:41-69 | the chain's answer of 11 or 8 bytes is read as its base, and as used exactly the nonces up to the base and those of the 24 after it that its bits mark |
| `Nonces.OtherAnswers` | src/nonces.rs:45-60 | no bytes are an account with nothing used, and any length but 8 and 11 is refused |
| `Nonces.UsedBits` | src/nonces.rs:41-54 | bit i of the chain's answer is bit i % 8 of the byte 8 + i / 8 |
| `Nonces.NonceTracker.Take` | src/nonces.rs:184-202 | the loop's new state and nonce are those of `AfterTake`, and no other account changes |
| `Nonces.NonceTracker.Hold` | src/nonces.rs:206-214 | holds the nonce from now unless it is dead, after dropping lapsed holds |
| `Nonces.NonceTracker.Release` | src/nonces.rs:236-240 | gives the nonce back and changes nothing else |
| `Nonces.NonceTracker.Settle` | src/nonces.rs:217-232 | holds, gives back or kills the nonce by the outcome, and changes no other account |
| `Nonces.NonceTracker.IsHeld` | src/nonces.rs:243-251 | true exactly of a hold not lapsed, and drops those that are |
| `Nonces.LowestFreeIsLowest` | src/nonces.rs:191-196 | the loop finds the least nonce of the range neither used nor held, and none only when there is none |
| `NonceRuns.TakeIsLeast` | src/nonces.rs:181-202 | below the last base, a take returns the least nonce of base+1..=base+24 neither dead nor held, and fails exactly when none is |
| `NonceRuns.TakeIsLeastFree` | src/nonces.rs:181-202 | a take returns the least of the 24 nonces above the greater base that neither the client nor the answer knows used and that was not handed out in the last 120 s, and fails exactly when there is none |
| `NonceRuns.TakeIsAliveBelowLastBase` | src/nonces.rs:189-196 | a nonce taken is dead exactly when the base is the last u64 |
| `NonceRuns.LastBaseHandsOutDeadNonce` | src/nonces.rs:190-191 | at the last base every take hands out the last nonce, which is used |
| `NonceRuns.MergeKillsShown` | src/nonces.rs:166-179 | merging an answer kills exactly the nonces it shows used |
| `NonceRuns.StepKeeps` | src/nonces.rs:166-240 | every step keeps used and held disjoint and above the base, and revives no dead nonce |
| `NonceRuns.DeadOnlyGrows` | src/nonces.rs:166-240 | over every run of takes, holds, settles, releases and reads, with answers however stale, each DID's dead set only grows |
| `NonceRuns.TakenNonceIsGuarded` | src/nonces.rs:166-240 | a nonce taken and not given back is dead, held, or past its hold |
| `NonceRuns.NoTwoLiveWritesShareNonce` | src/nonces.rs:9-15 | in every run over any DIDs, if two takes return one nonce of a DID, it was given back between them or 120 s passed since its last hold |
| `Submissions.OwnRefusalIsRead` | src/nonces.rs:95-118 | the node's refusal of this nonce is read as held or used, whatever text follows it and for any DID without whitespace |
| `Submissions.OtherRefusalIsNotRead` | src/nonces.rs:95-118 | a refusal of another nonce gives this one back, unless the log also ends by saying this one is spent |
| `Submissions.SpentRefusalIsRead` | src/nonces.rs:99-114 | a refusal that ends by saying this nonce is spent never gives it back, whatever comes before |
| `Submissions.SpentNamesOneNonce` | src/nonces.rs:113 | one log says so of one nonce only |
| `RefusalForms.RefusalIsExact` | src/nonces.rs:95-118 | a log is read as held or as used if and only if, trimmed, it is a whole text of that form with this nonce; every other log, whatever it quotes, gives the nonce back |
| `Submissions.QuotedRefusalIsNotRead` | src/nonces.rs:93-98 | a log that starts and ends otherwise and only quotes a refusal says nothing of the nonce |
| `Submissions.CachedBytesAreAdmitted` | src/consensus.rs:767-778 | bytes CometBFT already holds count as accepted, in either part of the error and before any trailing whitespace |
| `Submissions.MempoolTookNothing` | src/consensus.rs:779-795 | a full mempool, or bytes too large for it, in any case of letters and anywhere in the error, is no outcome to wait for |
| `Submissions.ResponseSettles` | src/consensus.rs:656-699 | for each thing that can come back, what the caller is told and what becomes of the nonce: code 0 lands and holds it, another code fails as the log says, a lost answer is unknown and holds it, and what took nothing gives back only a new write's |
| `Submissions.ConsensusClient.SendSigned` | src/consensus.rs:656-699 | settles the account by the answer and tells the caller what the answer means; only a new write gives back a nonce nothing was sent under |
| `Submissions.ConsensusClient.SubmitUnder` | src/consensus.rs:622-637 | a write that can't be encoded gives its nonce back; any other is sent and settled |
| `Submissions.ConsensusClient.SubmitWithNonce` | src/consensus.rs:593-608 | takes, builds, sends and settles; a failed build leaves the account as if the nonce was given back |
| `Submissions.ConsensusClient.SubmitWithGivenNonce` | src/consensus.rs:610-620 | holds the caller's nonce, then sends and settles as a new write |
| `Submissions.ConsensusClient.Rebroadcast` | src/consensus.rs:639-654 | holds the nonce and settles it by the answer; a mempool that took nothing leaves it held and the outcome unknown |
| `ProtocolSafety.NodeInvKept` | src/consensus.rs:595-699 | every step keeps: dead for the client is dead for the node, and no nonce runs twice |
| `ProtocolSafety.SignedInvKept` | src/consensus.rs:595-637 | every step keeps: what the node has was signed, and only a new write is without its bytes |
| `ProtocolSafety.NonceInvKept` | src/nonces.rs:166-240 | every step within the rule keeps, under each nonce at stake: one call open, one transaction pending, of the same bytes, and the client won't hand the nonce out |
| `ProtocolSafety.GivenBackIsGone` | src/nonces.rs:234-240 | a nonce is given back only when no call is open and nothing is pending under it |
| `ProtocolSafety.BytesRunAtMostOnce` | src/consensus.rs:639-650 | in every run with lost answers, full mempools, drops and rebroadcasts of any kind, no bytes run twice and no two transactions run under one nonce |
| `ProtocolSafety.OneTransactionPerNonce` | src/nonces.rs:9-15 | in every run within the rule, unless a hold of the nonce lapsed, no two transactions of the client under it are both pending or executed |
| `ProtocolSafety.CallerMaySend` | src/nonces.rs:242-251 | a nonce not held or known used puts a rebroadcast within the rule, in every run within it; and so, for a caller with a record of all that was signed, does one under which nothing else was |
| `ProtocolRetry.CheckKeepsRule` | src/consensus.rs:639-654 | in every run whose callers send bytes again only with no call for them in flight, and after an outcome that didn't give the nonce back or with the nonce not held, every rebroadcast is within the exact rule |
| `ProtocolRetry.CallersKeepOnePerNonce` | src/consensus.rs:639-654 | in every such run, unless a hold of the nonce lapsed, no two transactions of the client under it are both pending or executed |
| `ProtocolRetry.DocumentedRetryIsSafe` | src/consensus.rs:639-650 | the documented retry, of bytes last heard of as unknown and one call at a time, keeps the rule and one transaction per nonce in every run |
| `ProtocolRetry.RetryInvKept` | src/nonces.rs:166-240 | every step of such callers keeps, under each nonce at stake: one transaction is in flight or may still land, and the tracker holds the nonce for it |
| `ProtocolRetry.TxInvKept` | src/consensus.rs:656-699 | every step keeps, of a transaction sent one call at a time: a call about to give its nonce back has nothing at the node, and what the node has is in flight or may still land |
| `ProtocolRetry.GivenUpNeverLands` | src/consensus.rs:779-781 | a write told as not sent, or refused with its nonce given back, is at no later point pending or executed unless its bytes are sent again, whatever other callers do |
| `ProtocolExactness.OutsideBreaks` | src/consensus.rs:651-698 | from every state any run reaches, a rebroadcast outside the rule can be followed by events, each within it, that end with two transactions pending or executed under one nonce no hold of which lapsed |
| `ProtocolExactness.RuleIsExact` | src/consensus.rs:639-654 | where callers have kept to the rule, a rebroadcast is within it if and only if every run that goes on from there within it keeps one transaction per nonce |
| `ProtocolExactness.SendingTwiceBreaks` | src/consensus.rs:651-654 | a run within the rule, of one write whose request is lost and one rebroadcast, reaches a state where a second rebroadcast at once is outside it and is not safe |
| `ProtocolExactness.WritesReach` | src/nonces.rs:184-202 | the client comes to hand out any nonce in the node's window that it neither holds nor knows used |
| `JsonScan.ScanUnits` | src/http_body.rs:132-195 | on any bytes, terminates in bounds and answers whether the whole input costs at most the limit: early exit changes nothing |
| `JsonScan.OpensContainer` | src/http_body.rs:201-215 | whether a colon and then an array or object follow, whitespace aside |
| `JsonScan.SkipString` | src/http_body.rs:141-148 | ends at the closing quote, over escapes, or past the end |
| `JsonScan.SkipScalar` | src/http_body.rs:177-179 | ends at the last byte of the number or literal |
| `JsonScan.ReadBody` | src/http_body.rs:60-73 | never holds more than the limit, and returns the whole body exactly when it is within it |
| `JsonAgreement.FullScanIsCost` | src/http_body.rs:85-98 | for every JSON text, the units counted are 1 for each string, key, number and literal and 8 for each container |
| `JsonAgreement.ProofScanIsDiscounted` | src/http_body.rs:105-116 | under the proof budget they are the cost less N plus N / 16, with N the numbers inside containers that are values of top-level `proof` members |
| `JsonAgreement.DeepValue` | src/http_body.rs:137-193 | wherever no discount can begin, scanning a value's text adds exactly its cost |
| `JsonCost.KeyOpens` | src/http_body.rs:149-155 | after a key the scanner sees a container exactly when the member's value is one |
| `JsonCost.RawLength` | src/http_body.rs:143-148 | the scanner ends every valid string at its own closing quote |
| `Files.ComputeMerkleRoot` | src/files.rs:462-488 | the loop over levels terminates with the recursive root |
| `Files.PairUp` | src/files.rs:478-484 | hashes consecutive pairs, in order |
| `Files.MerkleRootIsTree` | src/files.rs:462-488 | the loop's root is the top of the tree defined from the root down, each node the hash of its left and then its right child, a missing right child or a lone hash standing twice |
| `Files.RootInjective` | src/files.rs:462-488 | for one number of hashes, equal roots mean equal hashes, barring a collision |
| `Files.CountMatters` | src/files.rs:470-477 | one hash and the same twice share a root, and so do three and the last repeated |
| `FileTransfer.ChunksHoldData` | src/files.rs:456-459 | chunks hold the data in order, none empty and none over the size |
| `FileTransfer.ChunksCount` | src/files.rs:456-459 | there are as many as the size divided, rounded up |
| `FileTransfer.ManifestCheckIsExact` | src/files.rs:417-439 | a manifest passes exactly when its sizes are in bounds and its count is the total size divided by the chunk size, rounded up |
| `FileTransfer.ManifestCheckFits` | src/files.rs:430-432 | the products the check computes fit 64 bits, whatever the manifest |
| `FileTransfer.UploadManifestPasses` | src/files.rs:417-439 | for chunks of any size, an uploader's manifest passes exactly when the file holds 1 byte to 1 GiB in at most 262,144 chunks, and its 32-bit count is then the chunks' |
| `FileTransfer.DefaultManifestPasses` | src/files.rs:80-88 | the manifest this client's upload builds passes exactly when the file holds 1 byte to 1 GiB |
| `FileTransfer.FetchChunk` | src/files.rs:223-253 | takes exactly a whole body within the limit, and names the error the source does |
| `FileTransfer.Download` | src/files.rs:196-294 | returns the bodies joined exactly when `Accepts` holds of the answers: then they are of the manifest's size, root and content hash, each within the chunk size and 2 MiB; its buffer never passes the manifest's total size, whatever the node serves |
| `FileTransfer.AcceptsMeans` | src/files.rs:196-294 | all that is asked of a download, in numbers: 1 byte to 1 GiB, at most 262,144 chunks, as many as the size divided and rounded up, each a whole body within the chunk size and 2 MiB, the size, the root and the content hash |
| `FileTransfer.DownloadIsUpload` | src/files.rs:185-195 | under an uploader's manifest of chunks of any size, an accepted download is the uploaded chunks one by one and the file, barring a collision |
| `FileTransfer.HonestDownload` | src/files.rs:196-256 | for any file and chunk size, a node serving the chunks is believed exactly when the manifest passes and no chunk is longer than 2 MiB, and then the file comes back |
| `FileTransfer.HonestDownloadSucceeds` | src/files.rs:185-195 | a node serving the chunks this client uploads gives back every file of 1 byte to 1 GiB |
| `SignedMessages.MessageReads` | src/signed_messages.rs:44-134 | one reader takes every message of the six kinds back to the fields it signs |
| `SignedMessages.RevocationReads` | src/signed_messages.rs:270-285 | a revoke's message splits one way |
| `SignedMessages.ManifestReads` | src/signed_messages.rs:98-121 | a manifest's message reads back, its encryption included |
| `SignedMessages.MessagesAreInjective` | src/signed_messages.rs:1-22 | two accepted transactions of any kinds with one message are the same kind and agree on every signed field, unless their data collide |
| `SignedMessages.AcceptedFields` | src/signed_messages.rs:34-41 | a message is built exactly when no text field breaks its line, and a revoke's fields can't split another way |
| `SignedMessages.MessageTexts` | src/signed_messages.rs:34-134 | the text of each of the six kinds, line by line |
| `SignedMessages.DidText` | src/signed_messages.rs:270-285 | a DID in a revoke is `did:willow:` and then letters, digits, `-` and `_`, of at most 128 characters in all |
| `Completeness.CanonicalEventSetHash` | src/completeness.rs:74-90 | the nested loops hash exactly the preimage |
| `Completeness.FeedLog` | src/completeness.rs:79-87 | one log's address, counted topics and counted data are fed in order |
| `Completeness.VerifyServedEvents` | src/completeness.rs:97-99 | true exactly when the served logs' hash is the commitment |
| `Completeness.PreimageReadsBack` | src/completeness.rs:55-73 | the preimage reads back as its block and logs exactly when every topic count and data length is below 2^32 |
| `Completeness.PreimageLayout` | src/completeness.rs:55-90 | where the tag, the block, the count and every field of every log stand among the bytes hashed, counts cut to 32 bits |
| `Completeness.VerifiedEventsAreCommitted` | src/completeness.rs:92-99 | served logs that verify against a block's commitment are of that block and are the committed ones: topics, data and order, barring a collision of the two preimages |
| `Completeness.CutCountsCollide` | src/completeness.rs:81-85 | past 2^32 two different logs have one preimage |
| `Subscriptions.SubscriptionTask.SubscriptionLoop` | src/subscriptions.rs:312-398 | on any network, makes every try until the first point at which the run ends; it ends unless more sockets deliver data than it is followed through |
| `Subscriptions.EachTry` | src/subscriptions.rs:312-398 | each try's number is one more than the last's, or 1 after a socket that delivered data; it passes over the indexer of the last socket that opened; and it follows a dropped socket, within the limit, uncancelled |
| `Subscriptions.RunEnds` | src/subscriptions.rs:318-361 | a run ends exactly when its socket was cancelled or completed, reconnecting is off, the tries since the last data are at the limit, or the wait is cancelled |
| `Subscriptions.DelayDoubles` | src/subscriptions.rs:342-351 | the first wait is the backoff, each of the next thirty is twice the one before, and later ones stay the same, none over the cap |
| `Subscriptions.TriesAreBounded` | src/subscriptions.rs:322-340 | since each socket that delivered data at most the limit of tries is made, and so many in all, however many connections are accepted and dropped |
| `Subscriptions.DelaysGrow` | src/subscriptions.rs:342-351 | between sockets that deliver, waits never shrink, and none passes the cap |

## Left out

- HTTP, WebSocket, JSON-RPC and file I/O, timeouts and retries: each call is an answer given as an argument.
- Real hashes, signatures and ciphers: hash functions are arbitrary, and signatures are not modelled.
- grovedb, bincode and serde_json internals: they are parameters under the contract `ItemSoundness.Trusted`. Merk's op
  decoder is one too, so that its large-value ops are not told from the others.
- How GroveDB's verifier hashes a reference's node (`KVRefValueHash`): the model takes one form of it; an accepted item
  is never proven by such a node.
- The prover itself is GroveDB's: `HonestItem` builds proofs in the form the source describes and its tests build
  (src/grovedb_envelope.rs:480-533), with the nodes on the way to the key that a larger tree needs. Proofs that show more
  than the key's own entry a layer are not built, though soundness covers them.
- The memory of decoding that is not a claim against bincode's limit, and stack depth: only the claims are counted.
- Varint forms wider than needed, which the scan and the grammar accept: bincode may refuse them, which the contract allows.
- `verify_header`, `verify_commit_signatures` and `create_vote_sign_bytes`: verified reads don't use them, and no claim is
  made about voting power.
- `LightClient.LatestChainHeight`: the library's in-place sort is a function on values here.
- The clock of `Protocol`: its steps take readings in any order, which allows more runs than there are. The continuations
  `ProtocolExactness` builds read the time of the rebroadcast throughout, so no clock goes back in them.
- `Protocol`: one signing DID and one node; the caller's own choice of nonces (`submit_with_given_nonce`) is a method of
  `Submissions.ConsensusClient` but not an event of the step machine, since a caller that signs the same bytes anew under
  its own nonce is not bound by the tracker. The machine's node may drop, execute and hold at will, and other clients may use
  nonces, but the client is not restarted.
- `NonceRuns.TakeIsLeast`: requires a base below the last u64, where the window saturates; the two lemmas after it say what
  happens there.
- `NonceRuns.NoTwoLiveWritesShareNonce`: requires clock readings that don't go back in lock order, and a base below the last u64.
- `NonceRuns.MergeKillsShown`: requires the answer's window to end below 2^64.
- `NonceRuns.TakeIsLeastFree`: requires the same of the answer's window, and a base of the client's below the last u64.
- The order of `used_nonces`, error texts and the notes a refusal carries.
- `SignedMessages.MessagesAreInjective`: the unsigned fields (signature and key ID), and the registration, grant, rotation,
  storage-node, Transfer and FundSubgrove forms. The first four are built in `willow_types`, which is not part of this model; the
  last two don't check their text for line breaks.
- `validate_did` is in `willow_types`, which is not part of this model; the model's DIDs are what src/signed_messages.rs:171 says
  of them, and so may have an empty name.
- JSON decoding itself, and how invalid UTF-8 is replaced: the scan is of bytes, and is proved on every text of the grammar with
  any bytes from 0x80 up inside strings.
- The parsing of served logs from their JSON and hex (src/completeness.rs:126-171).
- Sending a manifest and its chunks when a file is uploaded, and waiting for its block: only what the manifest holds is modelled.
- What a subscription delivers, its handshake, and discovery of indexers: `Subscriptions` takes how each socket ended.
- State-root continuity, the DID rotation gate, indexer routing and its cache, the token, validator and registration wrappers.
