/**
 Moving a file in chunks: the manifest an upload builds, the check a manifest must pass, and the
 download, which a storage node answers as it likes.
 */
module FileTransfer {
  import opened Arithmetic
  import opened ByteStrings
  import opened Wrappers
  import opened Text
  import opened JsonScan
  import opened Hashing
  import opened Files

  const DEFAULT_CHUNK_SIZE: nat := 262_144
  const MAX_FILE_SIZE: nat := 0x4000_0000
  const MAX_CHUNK_COUNT: nat := 262_144
  /** The most of one chunk a storage node stores. */
  const CHUNK: nat := 0x20_0000

  datatype Manifest = Manifest(totalSize: u64, contentHash: string, chunkCount: u32, chunkSize: u32,
                               chunkMerkleRoot: string)

  datatype TransferError = ProofVerificationFailed | NetworkError | ResponseTooLarge(limit: nat)

  // ---------- Chunks ----------

  function Chunks(data: Bytes, size: nat): seq<Bytes>
    requires size > 0
  {
    if data == [] then []
    else if |data| <= size then [data]
    else [data[..size]] + Chunks(data[size..], size)
  }

  function CeilDiv(n: nat, d: nat): nat
    requires d > 0
  {
    (n + d - 1) / d
  }

  /** A quotient rounded up is the one count whose chunks hold `n` with none to spare. */
  lemma CeilDivIsCount(n: nat, d: nat, count: nat)
    requires n > 0 && d > 0
    ensures count == CeilDiv(n, d) <==> count > 0 && (count - 1) * d < n <= count * d
  {
    var q, r := (n + d - 1) / d, (n + d - 1) % d;
    assert n + d - 1 == q * d + r;
    if count < q {
      Monotonic(count, q - 1, d);
    } else if count > q {
      Monotonic(q, count - 1, d);
    }
  }

  lemma Monotonic(a: nat, b: nat, d: nat)
    requires a <= b
    ensures a * d <= b * d
  {
  }

  /** Chunks hold the data in order, none empty and none over the size. */
  lemma {:induction false} ChunksHoldData(data: Bytes, size: nat)
    requires size > 0
    ensures Concat(Chunks(data, size)) == data
    ensures forall i :: 0 <= i < |Chunks(data, size)| ==> 0 < |Chunks(data, size)[i]| <= size
    decreases |data|
  {
    hide Concat;
    if data == [] {
      ConcatNothing();
    } else if |data| <= size {
      ConcatCons(data, []);
      ConcatNothing();
      assert Chunks(data, size) == [data] + [];
    } else {
      var first, rest := data[..size], Chunks(data[size..], size);
      ChunksHoldData(data[size..], size);
      ConcatCons(first, rest);
      assert data == first + data[size..];
    }
  }

  lemma {:induction false} ConcatCons(first: Bytes, rest: seq<Bytes>)
    ensures Concat([first] + rest) == first + Concat(rest)
  {
    hide Concat;
    if rest == [] {
      ConcatSnoc([], first);
      ConcatNothing();
      assert [first] + rest == [] + [first];
    } else {
      var init, last := rest[..|rest| - 1], rest[|rest| - 1];
      ConcatCons(first, init);
      ConcatSnoc(init, last);
      ConcatSnoc([first] + init, last);
      assert rest == init + [last] && [first] + rest == ([first] + init) + [last];
    }
  }

  lemma ConcatSnoc(pieces: seq<Bytes>, last: Bytes)
    ensures Concat(pieces + [last]) == Concat(pieces) + last
  {
    var all := pieces + [last];
    assert all[..|all| - 1] == pieces;
  }

  lemma ConcatNothing()
    ensures Concat([]) == []
  {
  }

  /** No fewer chunks could hold the data. */
  lemma {:induction false} ChunksCount(data: Bytes, size: nat)
    requires size > 0
    ensures |Chunks(data, size)| == CeilDiv(|data|, size)
    decreases |data|
  {
    if |data| > size {
      hide CeilDiv;
      ChunksCount(data[size..], size);
      OneMore(|data| - size, size);
    } else if data != [] {
      CeilDivIsCount(|data|, size, 1);
    }
  }

  lemma OneMore(n: nat, d: nat)
    requires n > 0 && d > 0
    ensures CeilDiv(n + d, d) == CeilDiv(n, d) + 1
  {
    var q := CeilDiv(n, d);
    CeilDivIsCount(n, d, q);
    CeilDivIsCount(n + d, d, q + 1);
  }

  // ---------- The manifest ----------

  function ChunkHashes(h: HashFunction, chunks: seq<Bytes>): (hashes: seq<Digest>)
    ensures |hashes| == |chunks|
    ensures forall i :: 0 <= i < |chunks| ==> hashes[i] == h(chunks[i])
  {
    if chunks == [] then [] else [h(chunks[0])] + ChunkHashes(h, chunks[1..])
  }

  /**
   The manifest an uploader builds of chunks of `size` bytes; the count of chunks is cut to 32 bits. This client's
   uploads take `DEFAULT_CHUNK_SIZE`; a download meets manifests of any.
   */
  function UploadManifest(h: HashFunction, data: Bytes, size: u32): Manifest
    requires |data| < U64_LIMIT && size > 0
  {
    var chunks := Chunks(data, size);
    Manifest(|data|, Hex(h(data)), |chunks| % U32_LIMIT, size,
             Hex(MerkleRoot(h, ChunkHashes(h, chunks))))
  }

  function CheckManifest(m: Manifest): Result<(), TransferError> {
    if m.totalSize == 0 || m.chunkCount == 0 || m.chunkSize == 0 then Err(ProofVerificationFailed)
    else if m.totalSize > MAX_FILE_SIZE then Err(ProofVerificationFailed)
    else if m.chunkCount > MAX_CHUNK_COUNT then Err(ProofVerificationFailed)
    else if m.totalSize > m.chunkCount * m.chunkSize || m.totalSize <= (m.chunkCount - 1) * m.chunkSize then
      Err(ProofVerificationFailed)
    else Ok(())
  }

  /** A manifest passes exactly when its sizes are in bounds and its count is the size divided, rounded up. */
  lemma ManifestCheckIsExact(m: Manifest)
    ensures CheckManifest(m).Ok? <==>
            && 0 < m.totalSize <= 0x4000_0000 && 0 < m.chunkSize && m.chunkCount <= 262_144
            && m.chunkCount == CeilDiv(m.totalSize, m.chunkSize)
  {
    if m.totalSize > 0 && m.chunkSize > 0 {
      CeilDivIsCount(m.totalSize, m.chunkSize, m.chunkCount);
    }
  }

  /** The products the check computes fit 64 bits, whatever the manifest. */
  lemma ManifestCheckFits(m: Manifest)
    ensures m.chunkCount * m.chunkSize < U64_LIMIT
    ensures m.chunkCount > 0 ==> 0 <= (m.chunkCount - 1) * m.chunkSize < U64_LIMIT
  {
    var top := U32_LIMIT - 1;
    Monotonic(m.chunkCount, top, m.chunkSize);
    Monotonic(m.chunkSize, top, top);
    if m.chunkCount > 0 {
      Monotonic(m.chunkCount - 1, m.chunkCount, m.chunkSize);
    }
  }

  /** An uploader's manifest passes exactly when its file holds 1 byte to 1 GiB and its chunks aren't too many. */
  lemma UploadManifestPasses(h: HashFunction, data: Bytes, size: u32)
    requires |data| < U64_LIMIT && size > 0
    ensures CheckManifest(UploadManifest(h, data, size)).Ok?
       <==> 0 < |data| <= 0x4000_0000 && CeilDiv(|data|, size) <= 262_144
    ensures CheckManifest(UploadManifest(h, data, size)).Ok? ==>
              UploadManifest(h, data, size).chunkCount == |Chunks(data, size)| > 0
  {
    hide MerkleRoot, Hex, ChunkHashes, Chunks, CheckManifest, CeilDiv;
    ManifestCheckIsExact(UploadManifest(h, data, size));
    ChunksCount(data, size);
    if data != [] {
      CountFits(|data|, size);
    }
  }

  lemma CountFits(n: nat, size: nat)
    requires n > 0 && size > 0
    ensures 0 < CeilDiv(n, size) <= n
  {
    CeilDivIsCount(n, size, CeilDiv(n, size));
    Monotonic(1, size, CeilDiv(n, size) - 1);
  }

  /** The manifest this client's upload builds passes exactly when the file holds 1 byte to 1 GiB. */
  lemma DefaultManifestPasses(h: HashFunction, data: Bytes)
    requires |data| < U64_LIMIT
    ensures CheckManifest(UploadManifest(h, data, 262_144)).Ok? <==> 0 < |data| <= 0x4000_0000
  {
    hide UploadManifest, CheckManifest;
    UploadManifestPasses(h, data, DEFAULT_CHUNK_SIZE);
  }

  // ---------- The download ----------

  /** What a storage node answers a request for a chunk with: no answer, a status, or a body in pieces. */
  datatype ChunkAnswer =
    | Unreachable
    | Refused
    | Broken
    | Body(declared: nat, hasLength: bool, pieces: seq<Bytes>)

  type StorageNode = nat -> ChunkAnswer

  function ChunkLimit(m: Manifest): nat {
    if m.chunkSize <= CHUNK then m.chunkSize else CHUNK
  }

  /** A chunk the download takes: a whole body within the limit. */
  predicate Taken(answer: ChunkAnswer, limit: nat) {
    answer.Body? && !(answer.hasLength && answer.declared > limit) && |Concat(answer.pieces)| <= limit
  }

  /** The first `n` bodies a node serves. */
  function Bodies(node: StorageNode, n: nat): (bodies: seq<Bytes>)
    ensures |bodies| == n
    ensures forall i :: 0 <= i < n && node(i).Body? ==> bodies[i] == Concat(node(i).pieces)
  {
    if n == 0 then []
    else
      var last := node(n - 1);
      Bodies(node, n - 1) + [if last.Body? then Concat(last.pieces) else []]
  }

  method FetchChunk(answer: ChunkAnswer, m: Manifest, limit: nat) returns (r: Result<Bytes, TransferError>)
    requires limit == ChunkLimit(m)
    ensures r.Ok? <==> Taken(answer, limit)
    ensures r.Ok? ==> r.value == Concat(answer.pieces) && |r.value| <= limit
    ensures r.Err? && answer.Body? ==>
              r.error == if m.chunkSize <= CHUNK then ProofVerificationFailed else ResponseTooLarge(CHUNK)
    ensures r.Err? && !answer.Body? ==> r.error == NetworkError
  {
    match answer
    case Body(declared, hasLength, pieces) =>
      var body, ok := ReadBody(declared, hasLength, pieces, limit);
      if ok {
        return Ok(body);
      }
      return Err(if limit == m.chunkSize then ProofVerificationFailed else ResponseTooLarge(limit));
    case _ =>
      return Err(NetworkError);
  }

  /** What a download must find in the answers of a node to return the file they hold. */
  predicate Accepts(h: HashFunction, m: Manifest, node: StorageNode) {
    var chunks := Bodies(node, m.chunkCount);
    && CheckManifest(m).Ok?
    && (forall i :: 0 <= i < m.chunkCount ==> Taken(node(i), ChunkLimit(m)))
    && |Concat(chunks)| == m.totalSize
    && Unhex(m.chunkMerkleRoot) == Some(MerkleRoot(h, ChunkHashes(h, chunks)))
    && Unhex(m.contentHash) == Some(h(Concat(chunks)))
  }

  /** All a download asks of a manifest and of what a node answers, in numbers. */
  lemma AcceptsMeans(h: HashFunction, m: Manifest, node: StorageNode)
    ensures Accepts(h, m, node) <==>
            && 0 < m.totalSize <= 0x4000_0000 && 0 < m.chunkSize && m.chunkCount <= 262_144
            && m.chunkCount == CeilDiv(m.totalSize, m.chunkSize)
            && (forall i :: 0 <= i < m.chunkCount ==>
                              var limit := if m.chunkSize <= 0x20_0000 then m.chunkSize else 0x20_0000;
                              && node(i).Body?
                              && !(node(i).hasLength && node(i).declared > limit)
                              && |Concat(node(i).pieces)| <= limit)
            && var chunks := Bodies(node, m.chunkCount);
               && |Concat(chunks)| == m.totalSize
               && Unhex(m.chunkMerkleRoot) == Some(MerkleRoot(h, ChunkHashes(h, chunks)))
               && Unhex(m.contentHash) == Some(h(Concat(chunks)))
  {
    hide CheckManifest, MerkleRoot, Unhex, Concat, ChunkHashes, Bodies, CeilDiv;
    ManifestCheckIsExact(m);
  }

  /** The download accepts exactly what `Accepts` says, and its buffer never outgrows the manifest's total size. */
  method Download(h: HashFunction, m: Manifest, node: StorageNode)
    returns (r: Result<Bytes, TransferError>, ghost peak: nat)
    ensures r.Ok? <==> Accepts(h, m, node)
    ensures r.Ok? ==> r.value == Concat(Bodies(node, m.chunkCount))
    ensures r.Ok? ==> |r.value| == m.totalSize && Unhex(m.contentHash) == Some(h(r.value))
    ensures r.Ok? ==> Unhex(m.chunkMerkleRoot) == Some(MerkleRoot(h, ChunkHashes(h, Bodies(node, m.chunkCount))))
    ensures r.Ok? ==> forall i :: 0 <= i < m.chunkCount ==>
                        && node(i).Body?
                        && |Concat(node(i).pieces)| <= m.chunkSize
                        && |Concat(node(i).pieces)| <= 0x20_0000
    ensures peak <= m.totalSize
  {
    hide CheckManifest, MerkleRoot, Unhex, Concat, Chunks;
    peak := 0;
    var checked := CheckManifest(m);
    if checked.Err? {
      return Err(checked.error), peak;
    }
    var limit := ChunkLimit(m);
    var fileData: Bytes, chunkHashes: seq<Digest> := [], [];
    ConcatNothing();
    for i := 0 to m.chunkCount
      invariant forall k :: 0 <= k < i ==> Taken(node(k), limit)
      invariant fileData == Concat(Bodies(node, i)) && |fileData| <= m.totalSize
      invariant chunkHashes == ChunkHashes(h, Bodies(node, i))
      invariant peak <= m.totalSize
    {
      var fetched := FetchChunk(node(i), m, limit);
      if fetched.Err? {
        return Err(fetched.error), peak;
      }
      var chunk := fetched.value;
      OneMoreBody(h, node, i);
      if |fileData| + |chunk| > m.totalSize {
        TooMuchAlready(node, i + 1, m.chunkCount);
        return Err(ProofVerificationFailed), peak;
      }
      chunkHashes := chunkHashes + [h(chunk)];
      fileData := fileData + chunk;
      peak := if |fileData| > peak then |fileData| else peak;
    }
    var root := ComputeMerkleRoot(h, chunkHashes);
    var expectedRoot := Unhex(m.chunkMerkleRoot);
    if expectedRoot.None? || root != expectedRoot.value {
      return Err(ProofVerificationFailed), peak;
    }
    if |fileData| != m.totalSize {
      return Err(ProofVerificationFailed), peak;
    }
    var expectedHash := Unhex(m.contentHash);
    if expectedHash.None? || h(fileData) != expectedHash.value {
      return Err(ProofVerificationFailed), peak;
    }
    return Ok(fileData), peak;
  }

  lemma {:induction false} HashesSnoc(h: HashFunction, chunks: seq<Bytes>, last: Bytes)
    ensures ChunkHashes(h, chunks + [last]) == ChunkHashes(h, chunks) + [h(last)]
  {
  }

  lemma OneMoreBody(h: HashFunction, node: StorageNode, i: nat)
    requires node(i).Body?
    ensures Concat(Bodies(node, i + 1)) == Concat(Bodies(node, i)) + Concat(node(i).pieces)
    ensures ChunkHashes(h, Bodies(node, i + 1)) == ChunkHashes(h, Bodies(node, i)) + [h(Concat(node(i).pieces))]
  {
    ConcatSnoc(Bodies(node, i), Concat(node(i).pieces));
    HashesSnoc(h, Bodies(node, i), Concat(node(i).pieces));
  }

  lemma BodiesSnoc(node: StorageNode, n: nat)
    ensures exists last :: Bodies(node, n + 1) == Bodies(node, n) + [last]
  {
    var last := if node(n).Body? then Concat(node(n).pieces) else [];
    assert Bodies(node, n + 1) == Bodies(node, n) + [last];
  }

  /** Chunks that have run past a size never come back under it. */
  lemma {:induction false} TooMuchAlready(node: StorageNode, i: nat, n: nat)
    requires i <= n
    ensures |Concat(Bodies(node, i))| <= |Concat(Bodies(node, n))|
    decreases n
  {
    hide Concat, Bodies;
    if i < n {
      TooMuchAlready(node, i, n - 1);
      BodiesSnoc(node, n - 1);
      var last :| Bodies(node, n) == Bodies(node, n - 1) + [last];
      ConcatSnoc(Bodies(node, n - 1), last);
    }
  }

  // ---------- What a download under an uploader's manifest returns ----------

  /** Every input hashed for the root of a list of chunks. */
  ghost function TransferInputs(h: HashFunction, chunks: seq<Bytes>): set<Bytes> {
    (set c | c in chunks) + RootInputs(h, Leaves(ChunkHashes(h, chunks)))
  }

  /** One count of chunks and one root: the same chunks, barring a collision among the inputs hashed. */
  lemma ChunksAreBound(h: HashFunction, a: seq<Bytes>, b: seq<Bytes>)
    requires |a| == |b| > 0
    requires MerkleRoot(h, ChunkHashes(h, a)) == MerkleRoot(h, ChunkHashes(h, b))
    requires NoCollision(h, TransferInputs(h, a) + TransferInputs(h, b))
    ensures a == b
  {
    hide MerkleRoot, RootInputs, RootOf;
    var inputs := TransferInputs(h, a) + TransferInputs(h, b);
    var x, y := ChunkHashes(h, a), ChunkHashes(h, b);
    RootBindsHashes(h, x, y, inputs);
    forall i | 0 <= i < |a|
      ensures a[i] == b[i]
    {
      assert h(a[i]) == x[i] == y[i] == h(b[i]);
      assert a[i] in inputs && b[i] in inputs;
    }
  }

  lemma RootBindsHashes(h: HashFunction, x: seq<Digest>, y: seq<Digest>, inputs: set<Bytes>)
    requires |x| == |y| > 0 && MerkleRoot(h, x) == MerkleRoot(h, y)
    requires NoCollision(h, inputs) && RootInputs(h, Leaves(x)) + RootInputs(h, Leaves(y)) <= inputs
    ensures x == y
  {
    hide RootOf, RootInputs;
    RootInjective(h, Leaves(x), Leaves(y), inputs);
    assert x == Leaves(x)[..|x|] && y == Leaves(y)[..|y|];
  }

  /**
   A download accepted under an uploader's manifest, of chunks of any size, returns the uploaded chunks one by
   one, and the file.
   */
  lemma DownloadIsUpload(h: HashFunction, data: Bytes, size: u32, node: StorageNode)
    requires |data| < U64_LIMIT && size > 0
    requires Accepts(h, UploadManifest(h, data, size), node)
    requires var count := UploadManifest(h, data, size).chunkCount;
             NoCollision(h, TransferInputs(h, Bodies(node, count)) + TransferInputs(h, Chunks(data, size)))
    ensures Bodies(node, UploadManifest(h, data, size).chunkCount) == Chunks(data, size)
    ensures Concat(Bodies(node, UploadManifest(h, data, size).chunkCount)) == data
  {
    hide MerkleRoot, Hex, Unhex, TransferInputs, CheckManifest, Accepts, Chunks, Concat, ChunkHashes, Bodies,
      UploadManifest, NoCollision;
    UploadRoot(h, data, size);
    var m, chunks := UploadManifest(h, data, size), Chunks(data, size);
    AcceptedRoot(h, m, node);
    UploadManifestPasses(h, data, size);
    ChunksHoldData(data, size);
    ChunksAreBound(h, Bodies(node, m.chunkCount), chunks);
  }

  lemma UploadRoot(h: HashFunction, data: Bytes, size: u32)
    requires |data| < U64_LIMIT && size > 0
    ensures Unhex(UploadManifest(h, data, size).chunkMerkleRoot)
         == Some(MerkleRoot(h, ChunkHashes(h, Chunks(data, size))))
  {
    hide Unhex, Hex, MerkleRoot;
    HexRoundTrip(MerkleRoot(h, ChunkHashes(h, Chunks(data, size))));
  }

  lemma AcceptedRoot(h: HashFunction, m: Manifest, node: StorageNode)
    requires Accepts(h, m, node)
    ensures CheckManifest(m).Ok?
    ensures Unhex(m.chunkMerkleRoot) == Some(MerkleRoot(h, ChunkHashes(h, Bodies(node, m.chunkCount))))
  {
  }

  /** The first chunk is the longest: full, or the whole file. */
  lemma {:induction false} FirstChunkLongest(data: Bytes, size: nat)
    requires size > 0 && data != []
    ensures Chunks(data, size) != [] && |Chunks(data, size)[0]| == Min(size, |data|)
    ensures forall i :: 0 <= i < |Chunks(data, size)| ==> |Chunks(data, size)[i]| <= Min(size, |data|)
    decreases |data|
  {
    if |data| > size {
      FirstChunkLongest(data[size..], size);
    }
  }

  /** The node serves the chunks of `data`, each in pieces of any sizes. */
  predicate Serves(node: StorageNode, chunks: seq<Bytes>) {
    forall i :: 0 <= i < |chunks| ==>
                  && node(i).Body? && Concat(node(i).pieces) == chunks[i]
                  && (node(i).hasLength ==> node(i).declared == |chunks[i]|)
  }

  /** The chunks are within the limit a download reads them under exactly when the first is no longer than 2 MiB. */
  lemma ServedAreTaken(h: HashFunction, data: Bytes, size: u32, node: StorageNode)
    requires 0 < |data| < U64_LIMIT && size > 0 && Serves(node, Chunks(data, size))
    ensures Min(size, |data|) <= CHUNK <==>
            forall i :: 0 <= i < |Chunks(data, size)| ==> Taken(node(i), ChunkLimit(UploadManifest(h, data, size)))
  {
    hide Chunks, Concat, MerkleRoot, Hex, ChunkHashes;
    var m, chunks := UploadManifest(h, data, size), Chunks(data, size);
    FirstChunkLongest(data, size);
    if Min(size, |data|) <= CHUNK {
      forall i | 0 <= i < |chunks|
        ensures Taken(node(i), ChunkLimit(m))
      {
        assert |chunks[i]| <= ChunkLimit(m);
      }
    } else {
      assert !Taken(node(0), ChunkLimit(m));
    }
  }

  lemma ServedAreBodies(node: StorageNode, chunks: seq<Bytes>)
    requires Serves(node, chunks)
    ensures Bodies(node, |chunks|) == chunks
  {
    hide Concat;
  }

  /**
   A node that serves the chunks of any file, of any size, is believed exactly when the manifest passes the check
   and no chunk is longer than the 2 MiB a storage node stores: and then it gives the file back.
   */
  lemma HonestDownload(h: HashFunction, data: Bytes, size: u32, node: StorageNode)
    requires |data| < U64_LIMIT && size > 0 && Serves(node, Chunks(data, size))
    ensures Accepts(h, UploadManifest(h, data, size), node)
       <==> && 0 < |data| <= 0x4000_0000 && CeilDiv(|data|, size) <= 262_144
            && Min(size, |data|) <= 0x20_0000
    ensures Accepts(h, UploadManifest(h, data, size), node) ==>
              Concat(Bodies(node, UploadManifest(h, data, size).chunkCount)) == data
  {
    hide MerkleRoot, Hex, Unhex, CheckManifest, Chunks, Concat, CeilDiv, ChunkHashes, Bodies, Taken;
    var m, chunks := UploadManifest(h, data, size), Chunks(data, size);
    UploadManifestPasses(h, data, size);
    if CheckManifest(m).Ok? {
      ChunksHoldData(data, size);
      ServedAreTaken(h, data, size, node);
      ServedAreBodies(node, chunks);
      HexRoundTrip(MerkleRoot(h, ChunkHashes(h, chunks)));
      HexRoundTrip(h(data));
    }
  }

  /** A node serving the chunks this client uploads gives every file of 1 byte to 1 GiB back. */
  lemma HonestDownloadSucceeds(h: HashFunction, data: Bytes, node: StorageNode)
    requires 0 < |data| <= 0x4000_0000 && Serves(node, Chunks(data, 262_144))
    ensures var m := UploadManifest(h, data, 262_144);
            Accepts(h, m, node) && Concat(Bodies(node, m.chunkCount)) == data
  {
    hide UploadManifest, Accepts, Serves, Concat, Bodies;
    HonestDownload(h, data, DEFAULT_CHUNK_SIZE, node);
  }
}
