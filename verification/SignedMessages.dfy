/**
 The text each transaction is signed over, and a reader that takes it back to what was signed.
 */
module SignedMessages {
  import opened ByteStrings
  import opened Wrappers
  import opened Text
  import opened Hashing

  datatype Encryption = Encryption(keyEpoch: nat, nonce: Bytes)

  /** The transactions whose messages this crate builds, with the fields they sign. */
  datatype Tx =
    | StoreData(subgrove: string, key: string, owner: string, data: Bytes, nonce: nat)
    | UpdateData(subgrove: string, key: string, owner: string, data: Bytes, nonce: nat)
    | DeleteData(subgrove: string, key: string, owner: string, nonce: nat)
    | StoreFileManifest(subgrove: string, key: string, owner: string, filename: string, contentType: string,
                        totalSize: nat, contentHash: Digest, chunkCount: nat, chunkSize: nat, chunkMerkleRoot: Digest,
                        encryption: Option<Encryption>, nonce: nat)
    | DeleteFileManifest(subgrove: string, key: string, owner: string, nonce: nat)
    | RevokeSubgroveKey(subgrove: string, revokee: string, sender: string, nonce: nat)

  // ---------- The builders ----------

  const NEWLINE: char := '\n'
  const COLON: char := ':'
  const DID_PREFIX: string := "did:willow:"
  const REVOKE_PREFIX: string := "RevokeSubgroveKey:"

  function Line(tag: string, value: string): string {
    tag + ": " + value
  }

  /** A line of text; a value holding a line break is refused. */
  function Field(tag: string, value: string): Option<string> {
    if NEWLINE in value then None else Some(Line(tag, value))
  }

  function Join(lines: seq<string>, c: char): string {
    if lines == [] then "" else if |lines| == 1 then lines[0] else lines[0] + [c] + Join(lines[1..], c)
  }

  function DataWrite(h: HashFunction, kind: string, subgrove: string, key: string, owner: string, data: Bytes,
                     nonce: nat): Option<string>
  {
    var s :- Field("Subgrove", subgrove);
    var k :- Field("Key", key);
    var o :- Field("Owner", owner);
    Some(Join([kind, s, k, o, Line("DataHash", Hex(h(data))), Line("Nonce", Decimal(nonce))], NEWLINE))
  }

  /** A deletion, of data or of a file manifest. */
  function Deletion(kind: string, subgrove: string, key: string, owner: string, nonce: nat): Option<string> {
    var s :- Field("Subgrove", subgrove);
    var k :- Field("Key", key);
    var o :- Field("Owner", owner);
    Some(Join([kind, s, k, o, Line("Nonce", Decimal(nonce))], NEWLINE))
  }

  function EncryptionText(e: Option<Encryption>): string {
    match e
    case None => "none"
    case Some(Encryption(epoch, nonce)) => Decimal(epoch) + [COLON] + Hex(nonce)
  }

  function FileManifest(tx: Tx): Option<string>
    requires tx.StoreFileManifest?
  {
    var s :- Field("Subgrove", tx.subgrove);
    var k :- Field("Key", tx.key);
    var o :- Field("Owner", tx.owner);
    var f :- Field("Filename", tx.filename);
    var t :- Field("ContentType", tx.contentType);
    Some(Join(["StoreFileManifest", s, k, o, f, t,
               Line("TotalSize", Decimal(tx.totalSize)),
               Line("ContentHash", Hex(tx.contentHash)),
               Line("ChunkCount", Decimal(tx.chunkCount)),
               Line("ChunkSize", Decimal(tx.chunkSize)),
               Line("ChunkMerkleRoot", Hex(tx.chunkMerkleRoot)),
               Line("Encryption", EncryptionText(tx.encryption)),
               Line("Nonce", Decimal(tx.nonce))], NEWLINE))
  }

  predicate IsDidCharacter(c: char) {
    'a' <= c <= 'z' || 'A' <= c <= 'Z' || '0' <= c <= '9' || c == '-' || c == '_'
  }

  predicate IsDid(did: string) {
    && StartsWith(did, DID_PREFIX) && |did| <= 128
    && forall i :: |DID_PREFIX| <= i < |did| ==> IsDidCharacter(did[i])
  }

  function Revocation(subgrove: string, revokee: string, sender: string, nonce: nat): Option<string> {
    if COLON in subgrove || !IsDid(revokee) || !IsDid(sender) then None
    else Some(REVOKE_PREFIX + (subgrove + [COLON] + (revokee + [COLON] + (sender + [COLON] + Decimal(nonce)))))
  }

  /** The message a transaction is signed over, or none when its fields are refused. */
  function Message(h: HashFunction, tx: Tx): Option<string> {
    match tx
    case StoreData(subgrove, key, owner, data, nonce) => DataWrite(h, "StoreData", subgrove, key, owner, data, nonce)
    case UpdateData(subgrove, key, owner, data, nonce) => DataWrite(h, "UpdateData", subgrove, key, owner, data, nonce)
    case DeleteData(subgrove, key, owner, nonce) => Deletion("DeleteData", subgrove, key, owner, nonce)
    case StoreFileManifest(_, _, _, _, _, _, _, _, _, _, _, _) => FileManifest(tx)
    case DeleteFileManifest(subgrove, key, owner, nonce) => Deletion("DeleteFileManifest", subgrove, key, owner, nonce)
    case RevokeSubgroveKey(subgrove, revokee, sender, nonce) => Revocation(subgrove, revokee, sender, nonce)
  }

  // ---------- The reader ----------

  /** What a message says: a transaction's signed fields, its data by digest. */
  datatype Content =
    | DataWritten(kind: string, subgrove: string, key: string, owner: string, dataHash: Bytes, nonce: nat)
    | Deleted(kind: string, subgrove: string, key: string, owner: string, nonce: nat)
    | ManifestStored(subgrove: string, key: string, owner: string, filename: string, contentType: string,
                     totalSize: nat, contentHash: Bytes, chunkCount: nat, chunkSize: nat, chunkMerkleRoot: Bytes,
                     encryption: Option<Encryption>, nonce: nat)
    | KeyRevoked(subgrove: string, revokee: string, sender: string, nonce: nat)

  function Signed(h: HashFunction, tx: Tx): Content {
    match tx
    case StoreData(subgrove, key, owner, data, nonce) => DataWritten("StoreData", subgrove, key, owner, h(data), nonce)
    case UpdateData(subgrove, key, owner, data, nonce) =>
      DataWritten("UpdateData", subgrove, key, owner, h(data), nonce)
    case DeleteData(subgrove, key, owner, nonce) => Deleted("DeleteData", subgrove, key, owner, nonce)
    case StoreFileManifest(subgrove, key, owner, filename, contentType, size, hash, count, chunkSize, root, e, nonce) =>
      ManifestStored(subgrove, key, owner, filename, contentType, size, hash, count, chunkSize, root, e, nonce)
    case DeleteFileManifest(subgrove, key, owner, nonce) => Deleted("DeleteFileManifest", subgrove, key, owner, nonce)
    case RevokeSubgroveKey(subgrove, revokee, sender, nonce) => KeyRevoked(subgrove, revokee, sender, nonce)
  }

  /** The text before the first `c`, and the text after it. */
  function Until(s: string, c: char): (r: Option<(string, string)>)
    ensures r.Some? ==> s == r.value.0 + [c] + r.value.1
  {
    if s == "" then None
    else if s[0] == c then Some(("", s[1..]))
    else
      var rest :- Until(s[1..], c);
      Some(([s[0]] + rest.0, rest.1))
  }

  function Split(s: string, c: char): (parts: seq<string>)
    ensures parts != []
    decreases |s|
  {
    match Until(s, c)
    case None => [s]
    case Some(cut) => [cut.0] + Split(cut.1, c)
  }

  function Unlabel(line: string, tag: string): Option<string> {
    var prefix := tag + ": ";
    if StartsWith(line, prefix) then Some(line[|prefix|..]) else None
  }

  /** The values of lines that must carry the given tags, in order. */
  function Values(lines: seq<string>, tags: seq<string>): Option<seq<string>> {
    if |lines| != |tags| then None
    else if tags == [] then Some([])
    else
      var value :- Unlabel(lines[0], tags[0]);
      var rest :- Values(lines[1..], tags[1..]);
      Some([value] + rest)
  }

  function Number(t: string): Option<nat> {
    if t != "" && IsDecimal(t) then Some(DecimalValue(t)) else None
  }

  function ReadEncryption(t: string): Option<Option<Encryption>> {
    if t == "none" then Some(None)
    else
      var cut :- Until(t, COLON);
      var epoch :- Number(cut.0);
      var nonce :- Unhex(cut.1);
      Some(Some(Encryption(epoch, nonce)))
  }

  const DATA_TAGS: seq<string> := ["Subgrove", "Key", "Owner", "DataHash", "Nonce"]
  const DELETION_TAGS: seq<string> := ["Subgrove", "Key", "Owner", "Nonce"]
  const MANIFEST_TAGS: seq<string> := [
    "Subgrove", "Key", "Owner", "Filename", "ContentType", "TotalSize", "ContentHash", "ChunkCount", "ChunkSize",
    "ChunkMerkleRoot", "Encryption", "Nonce"]

  function ReadDataWrite(kind: string, lines: seq<string>): Option<Content> {
    var v :- Values(lines, DATA_TAGS);
    if |v| != 5 then None
    else
      var hash :- Unhex(v[3]);
      var nonce :- Number(v[4]);
      Some(DataWritten(kind, v[0], v[1], v[2], hash, nonce))
  }

  function ReadDeletion(kind: string, lines: seq<string>): Option<Content> {
    var v :- Values(lines, DELETION_TAGS);
    if |v| != 4 then None
    else
      var nonce :- Number(v[3]);
      Some(Deleted(kind, v[0], v[1], v[2], nonce))
  }

  function ReadManifest(lines: seq<string>): Option<Content> {
    var v :- Values(lines, MANIFEST_TAGS);
    if |v| != 12 then None
    else
      var size :- Number(v[5]);
      var hash :- Unhex(v[6]);
      var count :- Number(v[7]);
      var chunkSize :- Number(v[8]);
      var root :- Unhex(v[9]);
      var e :- ReadEncryption(v[10]);
      var nonce :- Number(v[11]);
      Some(ManifestStored(v[0], v[1], v[2], v[3], v[4], size, hash, count, chunkSize, root, e, nonce))
  }

  /** A DID and the text after the colon that ends it. */
  function ReadDid(s: string): Option<(string, string)> {
    if |s| < |DID_PREFIX| then None
    else
      var cut :- Until(s[|DID_PREFIX|..], COLON);
      Some((s[..|DID_PREFIX|] + cut.0, cut.1))
  }

  function ReadRevocation(s: string): Option<Content> {
    var subgrove :- Until(s, COLON);
    var revokee :- ReadDid(subgrove.1);
    var sender :- ReadDid(revokee.1);
    var nonce :- Number(sender.1);
    Some(KeyRevoked(subgrove.0, revokee.0, sender.0, nonce))
  }

  function ReadLines(lines: seq<string>): Option<Content>
    requires lines != []
  {
    var kind, rest := lines[0], lines[1..];
    if kind == "StoreData" || kind == "UpdateData" then ReadDataWrite(kind, rest)
    else if kind == "DeleteData" || kind == "DeleteFileManifest" then ReadDeletion(kind, rest)
    else if kind == "StoreFileManifest" then ReadManifest(rest)
    else None
  }

  function Read(m: string): Option<Content> {
    if StartsWith(m, REVOKE_PREFIX) then ReadRevocation(m[|REVOKE_PREFIX|..]) else ReadLines(Split(m, NEWLINE))
  }

  // ---------- The reader inverts the builders ----------

  lemma {:induction false} UntilFinds(a: string, c: char, x: string)
    requires c !in a
    ensures Until(a + [c] + x, c) == Some((a, x))
  {
    var s := a + [c] + x;
    if a == "" {
      assert s[0] == c && s[1..] == x;
    } else {
      assert s[1..] == a[1..] + [c] + x && s[0] == a[0] != c;
      UntilFinds(a[1..], c, x);
      assert a == [s[0]] + a[1..];
    }
  }

  lemma {:induction false} UntilMisses(a: string, c: char)
    requires c !in a
    ensures Until(a, c) == None
  {
    if a != "" {
      UntilMisses(a[1..], c);
    }
  }

  lemma {:induction false} SplitJoin(lines: seq<string>, c: char)
    requires lines != [] && forall i :: 0 <= i < |lines| ==> c !in lines[i]
    ensures Split(Join(lines, c), c) == lines
  {
    hide Until;
    if |lines| == 1 {
      UntilMisses(lines[0], c);
    } else {
      UntilFinds(lines[0], c, Join(lines[1..], c));
      SplitJoin(lines[1..], c);
    }
  }

  /** Lines that carry `tags` and `values`. */
  function Lines(tags: seq<string>, values: seq<string>): (lines: seq<string>)
    requires |tags| == |values|
    ensures |lines| == |tags|
    ensures forall i :: 0 <= i < |lines| ==> lines[i] == Line(tags[i], values[i])
  {
    if tags == [] then [] else [Line(tags[0], values[0])] + Lines(tags[1..], values[1..])
  }

  lemma UnlabelLine(tag: string, value: string)
    ensures Unlabel(Line(tag, value), tag) == Some(value)
  {
    var line, prefix := Line(tag, value), tag + ": ";
    assert line[..|prefix|] == prefix && line[|prefix|..] == value;
  }

  lemma LinesUnfold(tags: seq<string>, values: seq<string>)
    requires |tags| == |values| && tags != []
    ensures Lines(tags, values) == [Line(tags[0], values[0])] + Lines(tags[1..], values[1..])
  {
  }

  lemma {:induction false} ValuesOfLines(tags: seq<string>, values: seq<string>)
    requires |tags| == |values|
    ensures Values(Lines(tags, values), tags) == Some(values)
  {
    hide Unlabel, Line;
    if tags != [] {
      var rest := Lines(tags[1..], values[1..]);
      UnlabelLine(tags[0], values[0]);
      ValuesOfLines(tags[1..], values[1..]);
      LinesUnfold(tags, values);
      ValuesCons(Line(tags[0], values[0]), rest, tags, values);
    }
  }

  lemma ValuesCons(line: string, rest: seq<string>, tags: seq<string>, values: seq<string>)
    requires tags != [] && values != [] && Unlabel(line, tags[0]) == Some(values[0])
    requires |rest| == |tags| - 1 && Values(rest, tags[1..]) == Some(values[1..])
    ensures Values([line] + rest, tags) == Some(values)
  {
    hide Unlabel;
    assert ([line] + rest)[1..] == rest;
    assert values == [values[0]] + values[1..];
  }

  predicate Unbroken(lines: seq<string>) {
    forall i :: 0 <= i < |lines| ==> NEWLINE !in lines[i]
  }

  lemma LinesUnbroken(tags: seq<string>, values: seq<string>)
    requires |tags| == |values| && Unbroken(tags) && Unbroken(values)
    ensures Unbroken(Lines(tags, values))
  {
    forall i | 0 <= i < |tags|
      ensures NEWLINE !in Lines(tags, values)[i]
    {
      LineUnbroken(tags[i], values[i]);
    }
  }

  lemma LineUnbroken(tag: string, value: string)
    requires NEWLINE !in tag && NEWLINE !in value
    ensures NEWLINE !in Line(tag, value)
  {
  }

  /** What the lines of a message split back into. */
  lemma LinesComeBack(kind: string, tags: seq<string>, values: seq<string>)
    requires |tags| == |values| && NEWLINE !in kind && Unbroken(tags) && Unbroken(values)
    ensures Split(Join([kind] + Lines(tags, values), NEWLINE), NEWLINE) == [kind] + Lines(tags, values)
    ensures Values(Lines(tags, values), tags) == Some(values)
  {
    hide Split, Join, Lines;
    LinesUnbroken(tags, values);
    SplitJoin([kind] + Lines(tags, values), NEWLINE);
    ValuesOfLines(tags, values);
  }

  lemma DecimalReads(n: nat)
    ensures Number(Decimal(n)) == Some(n) && NEWLINE !in Decimal(n) && COLON !in Decimal(n)
  {
    DecimalRoundTrip(n);
  }

  lemma HexReads(s: Bytes)
    ensures Unhex(Hex(s)) == Some(s) && NEWLINE !in Hex(s)
  {
    HexRoundTrip(s);
    HexIsHex(s);
  }

  lemma EncryptionReads(e: Option<Encryption>)
    ensures ReadEncryption(EncryptionText(e)) == Some(e) && NEWLINE !in EncryptionText(e)
  {
    hide Unhex, Hex, Decimal, Until, Number;
    if e.Some? {
      DecimalReads(e.value.keyEpoch);
      HexReads(e.value.nonce);
      UntilFinds(Decimal(e.value.keyEpoch), COLON, Hex(e.value.nonce));
      var t := EncryptionText(e);
      assert COLON in t by { assert t[|Decimal(e.value.keyEpoch)|] == COLON; }
      assert t != "none" by { assert COLON !in "none"; }
    }
  }

  lemma TagsUnbroken()
    ensures Unbroken(DATA_TAGS) && Unbroken(DELETION_TAGS) && Unbroken(MANIFEST_TAGS)
  {
  }

  lemma JoinStarts(kind: string, rest: seq<string>)
    requires kind != "" && kind[0] != 'R'
    ensures !StartsWith(Join([kind] + rest, NEWLINE), REVOKE_PREFIX)
  {
    var m := Join([kind] + rest, NEWLINE);
    assert m != "" && m[0] == kind[0];
    StartsAlike(m, REVOKE_PREFIX);
  }

  lemma StartsAlike(s: string, prefix: string)
    requires prefix != ""
    ensures StartsWith(s, prefix) ==> s[0] == prefix[0]
  {
    if StartsWith(s, prefix) {
      assert s[..|prefix|][0] == s[0];
    }
  }

  /** The reader of a message in lines gets its kind and its lines. */
  lemma LinesRead(kind: string, tags: seq<string>, values: seq<string>)
    requires |tags| == |values| && Unbroken(tags) && Unbroken(values)
    requires kind != "" && kind[0] != 'R' && NEWLINE !in kind
    ensures Read(Join([kind] + Lines(tags, values), NEWLINE)) == ReadLines([kind] + Lines(tags, values))
    ensures Values(Lines(tags, values), tags) == Some(values)
  {
    hide Split, Join, Lines, ReadLines, StartsWith;
    LinesComeBack(kind, tags, values);
    JoinStarts(kind, Lines(tags, values));
  }

  lemma DataWriteReads(h: HashFunction, kind: string, subgrove: string, key: string, owner: string, data: Bytes,
                       nonce: nat)
    requires kind == "StoreData" || kind == "UpdateData"
    requires DataWrite(h, kind, subgrove, key, owner, data, nonce).Some?
    ensures Read(DataWrite(h, kind, subgrove, key, owner, data, nonce).value)
         == Some(DataWritten(kind, subgrove, key, owner, h(data), nonce))
  {
    hide Join, Line, Values, Read, Hex, Unhex, Decimal, Number;
    var values := [subgrove, key, owner, Hex(h(data)), Decimal(nonce)];
    var lines := Lines(DATA_TAGS, values);
    DecimalReads(nonce);
    HexReads(h(data));
    TagsUnbroken();
    LinesRead(kind, DATA_TAGS, values);
    assert [kind] + lines == [kind, lines[0], lines[1], lines[2], lines[3], lines[4]];
    assert ([kind] + lines)[1..] == lines;
  }

  lemma DeletionReads(kind: string, subgrove: string, key: string, owner: string, nonce: nat)
    requires kind == "DeleteData" || kind == "DeleteFileManifest"
    requires Deletion(kind, subgrove, key, owner, nonce).Some?
    ensures Read(Deletion(kind, subgrove, key, owner, nonce).value) == Some(Deleted(kind, subgrove, key, owner, nonce))
  {
    hide Join, Line, Values, Read, Decimal, Number;
    var values := [subgrove, key, owner, Decimal(nonce)];
    var lines := Lines(DELETION_TAGS, values);
    DecimalReads(nonce);
    TagsUnbroken();
    LinesRead(kind, DELETION_TAGS, values);
    assert [kind] + lines == [kind, lines[0], lines[1], lines[2], lines[3]];
    assert ([kind] + lines)[1..] == lines;
  }

  function ManifestValues(tx: Tx): (values: seq<string>)
    requires tx.StoreFileManifest?
    ensures |values| == |MANIFEST_TAGS|
  {
    [tx.subgrove, tx.key, tx.owner, tx.filename, tx.contentType, Decimal(tx.totalSize), Hex(tx.contentHash),
     Decimal(tx.chunkCount), Decimal(tx.chunkSize), Hex(tx.chunkMerkleRoot), EncryptionText(tx.encryption),
     Decimal(tx.nonce)]
  }

  lemma ManifestTextReads(tx: Tx)
    requires tx.StoreFileManifest?
    ensures Number(Decimal(tx.totalSize)) == Some(tx.totalSize) && Number(Decimal(tx.chunkCount)) == Some(tx.chunkCount)
    ensures Number(Decimal(tx.chunkSize)) == Some(tx.chunkSize) && Number(Decimal(tx.nonce)) == Some(tx.nonce)
    ensures Unhex(Hex(tx.contentHash)) == Some(tx.contentHash)
    ensures Unhex(Hex(tx.chunkMerkleRoot)) == Some(tx.chunkMerkleRoot)
    ensures ReadEncryption(EncryptionText(tx.encryption)) == Some(tx.encryption)
    ensures FileManifest(tx).Some? ==> Unbroken(ManifestValues(tx))
  {
    hide Join, Line, Hex, Unhex, Decimal, Number, ReadEncryption, EncryptionText;
    DecimalReads(tx.totalSize);
    DecimalReads(tx.chunkCount);
    DecimalReads(tx.chunkSize);
    DecimalReads(tx.nonce);
    HexReads(tx.contentHash);
    HexReads(tx.chunkMerkleRoot);
    EncryptionReads(tx.encryption);
  }

  /** The lines of a manifest's message, as tags and values. */
  lemma ManifestLines(tx: Tx)
    requires tx.StoreFileManifest? && FileManifest(tx).Some?
    ensures FileManifest(tx).value == Join(["StoreFileManifest"] + Lines(MANIFEST_TAGS, ManifestValues(tx)), NEWLINE)
  {
    hide Join, Line, Hex, Decimal, EncryptionText;
    var lines := Lines(MANIFEST_TAGS, ManifestValues(tx));
    assert ["StoreFileManifest"] + lines
        == ["StoreFileManifest", lines[0], lines[1], lines[2], lines[3], lines[4], lines[5], lines[6], lines[7],
            lines[8],
            lines[9], lines[10], lines[11]];
  }

  lemma ManifestReads(h: HashFunction, tx: Tx)
    requires tx.StoreFileManifest? && FileManifest(tx).Some?
    ensures Read(FileManifest(tx).value) == Some(Signed(h, tx))
  {
    hide Join, Line, Lines, Values, Read, Hex, Unhex, Decimal, Number, EncryptionText, ReadEncryption, FileManifest;
    var values := ManifestValues(tx);
    var lines := Lines(MANIFEST_TAGS, values);
    ManifestTextReads(tx);
    ManifestLines(tx);
    TagsUnbroken();
    LinesRead("StoreFileManifest", MANIFEST_TAGS, values);
    assert (["StoreFileManifest"] + lines)[1..] == lines;
  }

  lemma DidReads(did: string, rest: string)
    requires IsDid(did)
    ensures ReadDid(did + [COLON] + rest) == Some((did, rest))
  {
    hide Until;
    var s, name := did + [COLON] + rest, did[|DID_PREFIX|..];
    assert did == DID_PREFIX + name && COLON !in name;
    assert s[|DID_PREFIX|..] == name + [COLON] + rest && s[..|DID_PREFIX|] == DID_PREFIX;
    UntilFinds(name, COLON, rest);
  }

  lemma RevocationReads(subgrove: string, revokee: string, sender: string, nonce: nat)
    requires Revocation(subgrove, revokee, sender, nonce).Some?
    ensures Read(Revocation(subgrove, revokee, sender, nonce).value)
         == Some(KeyRevoked(subgrove, revokee, sender, nonce))
  {
    hide Until, IsDid, ReadDid, Decimal, Number, Split, ReadLines;
    var afterRevokee := sender + [COLON] + Decimal(nonce);
    var afterSubgrove := revokee + [COLON] + afterRevokee;
    var s := subgrove + [COLON] + afterSubgrove;
    var m := REVOKE_PREFIX + s;
    assert m[..|REVOKE_PREFIX|] == REVOKE_PREFIX && m[|REVOKE_PREFIX|..] == s;
    UntilFinds(subgrove, COLON, afterSubgrove);
    DidReads(revokee, afterRevokee);
    DidReads(sender, Decimal(nonce));
    DecimalReads(nonce);
  }

  /** The reader takes every message back to what was signed. */
  lemma MessageReads(h: HashFunction, tx: Tx)
    requires Message(h, tx).Some?
    ensures Read(Message(h, tx).value) == Some(Signed(h, tx))
  {
    hide Read, DataWrite, Deletion, FileManifest, Revocation;
    match tx
    case StoreData(subgrove, key, owner, data, nonce) =>
      DataWriteReads(h, "StoreData", subgrove, key, owner, data, nonce);
    case UpdateData(subgrove, key, owner, data, nonce) =>
      DataWriteReads(h, "UpdateData", subgrove, key, owner, data, nonce);
    case DeleteData(subgrove, key, owner, nonce) => DeletionReads("DeleteData", subgrove, key, owner, nonce);
    case StoreFileManifest(_, _, _, _, _, _, _, _, _, _, _, _) => ManifestReads(h, tx);
    case DeleteFileManifest(subgrove, key, owner, nonce) =>
      DeletionReads("DeleteFileManifest", subgrove, key, owner, nonce);
    case RevokeSubgroveKey(subgrove, revokee, sender, nonce) => RevocationReads(subgrove, revokee, sender, nonce);
  }

  ghost function HashedData(tx: Tx): set<Bytes> {
    if tx.StoreData? || tx.UpdateData? then {tx.data} else {}
  }

  /** What a message signs by digest is all that two transactions with one message could differ in. */
  lemma SignedDecides(h: HashFunction, a: Tx, b: Tx)
    requires Signed(h, a) == Signed(h, b)
    requires NoCollision(h, HashedData(a) + HashedData(b))
    ensures a == b
  {
    assert a.StoreData? ==> "StoreData"[0] == 'S';
    assert "UpdateData"[0] == 'U' && |"DeleteData"| != |"DeleteFileManifest"|;
    if a.StoreData? || a.UpdateData? {
      assert a.data in HashedData(a) && b.data in HashedData(b);
    }
  }

  /**
   One message, one transaction: of every kind, two accepted transactions that build the same message
   are the same kind and agree on every signed field, unless the data of the two collide.
   */
  lemma MessagesAreInjective(h: HashFunction, a: Tx, b: Tx)
    requires Message(h, a).Some? && Message(h, a) == Message(h, b)
    requires NoCollision(h, HashedData(a) + HashedData(b))
    ensures a == b
  {
    hide Read, Message, Signed, HashedData, NoCollision;
    MessageReads(h, a);
    MessageReads(h, b);
    SignedDecides(h, a, b);
  }

  /** A field could break its line, or a message its split, if and only if it is refused. */
  lemma AcceptedFields(h: HashFunction, tx: Tx)
    ensures Message(h, tx).Some? <==>
            match tx
            case StoreFileManifest(subgrove, key, owner, filename, contentType, _, _, _, _, _, _, _) =>
              && '\n' !in subgrove && '\n' !in key && '\n' !in owner && '\n' !in filename && '\n' !in contentType
            case RevokeSubgroveKey(subgrove, revokee, sender, _) =>
              ':' !in subgrove && IsDid(revokee) && IsDid(sender)
            case _ => '\n' !in tx.subgrove && '\n' !in tx.key && '\n' !in tx.owner
  {
    hide Join, Line, IsDid, Hex, Decimal, EncryptionText;
    match tx
    case StoreData(_, _, _, _, _) =>
    case UpdateData(_, _, _, _, _) =>
    case _ =>
  }

  /** A DID is the scheme and then letters, digits, `-` and `_`, 128 characters in all at most. */
  lemma DidText(did: string)
    ensures IsDid(did) <==>
            && |did| <= 128 && |did| >= 11 && did[..11] == "did:willow:"
            && forall c :: c in did[11..] ==>
                             'a' <= c <= 'z' || 'A' <= c <= 'Z' || '0' <= c <= '9' || c == '-' || c == '_'
  {
    assert |DID_PREFIX| == 11;
    if |did| >= 11 {
      forall i | 11 <= i < |did|
        ensures did[i] in did[11..]
      {
        assert did[11..][i - 11] == did[i];
      }
    }
  }

  // ---------- The texts themselves ----------

  /** Joins as written out, one line after another. */
  function Lined(lines: seq<string>): string {
    if lines == [] then "" else "\n" + (lines[0] + Lined(lines[1..]))
  }

  lemma {:induction false} JoinIsLined(first: string, lines: seq<string>)
    ensures Join([first] + lines, NEWLINE) == first + Lined(lines)
    decreases |lines|
  {
    var all := [first] + lines;
    assert all[1..] == lines;
    if lines != [] {
      JoinIsLined(lines[0], lines[1..]);
      assert [lines[0]] + lines[1..] == lines;
    }
  }

  lemma EncryptionTexts(e: Option<Encryption>)
    ensures EncryptionText(e)
         == match e
            case None => "none"
            case Some(Encryption(epoch, nonce)) => Decimal(epoch) + ":" + Hex(nonce)
  {
  }

  /** The messages in text, by kind, as the node checks them. */
  lemma MessageTexts(h: HashFunction, tx: Tx)
    requires Message(h, tx).Some?
    ensures Message(h, tx).value ==
            match tx
            case StoreData(subgrove, key, owner, data, nonce) =>
              "StoreData" + Lined(["Subgrove" + ": " + subgrove, "Key" + ": " + key, "Owner" + ": " + owner,
                                   "DataHash" + ": " + Hex(h(data)), "Nonce" + ": " + Decimal(nonce)])
            case UpdateData(subgrove, key, owner, data, nonce) =>
              "UpdateData" + Lined(["Subgrove" + ": " + subgrove, "Key" + ": " + key, "Owner" + ": " + owner,
                                    "DataHash" + ": " + Hex(h(data)), "Nonce" + ": " + Decimal(nonce)])
            case DeleteData(subgrove, key, owner, nonce) =>
              "DeleteData" + Lined(["Subgrove" + ": " + subgrove, "Key" + ": " + key, "Owner" + ": " + owner,
                                    "Nonce" + ": " + Decimal(nonce)])
            case StoreFileManifest(subgrove, key, owner, filename, contentType, size, hash, count, chunkSize, root,
              e, nonce) =>
              "StoreFileManifest" + Lined(["Subgrove" + ": " + subgrove, "Key" + ": " + key, "Owner" + ": " + owner,
                                           "Filename" + ": " + filename, "ContentType" + ": " + contentType,
                                           "TotalSize" + ": " + Decimal(size), "ContentHash" + ": " + Hex(hash),
                                           "ChunkCount" + ": " + Decimal(count),
                                           "ChunkSize" + ": " + Decimal(chunkSize),
                                           "ChunkMerkleRoot" + ": " + Hex(root),
                                           "Encryption" + ": " + EncryptionText(e), "Nonce" + ": " + Decimal(nonce)])
            case DeleteFileManifest(subgrove, key, owner, nonce) =>
              "DeleteFileManifest" + Lined(["Subgrove" + ": " + subgrove, "Key" + ": " + key, "Owner" + ": " + owner,
                                            "Nonce" + ": " + Decimal(nonce)])
            case RevokeSubgroveKey(subgrove, revokee, sender, nonce) =>
              "RevokeSubgroveKey:" + (subgrove + ":" + (revokee + ":" + (sender + ":" + Decimal(nonce))))
  {
    hide Join, Hex, Decimal, EncryptionText, Lined, IsDid;
    match tx
    case StoreData(subgrove, key, owner, data, nonce) =>
      FiveLines("StoreData", Line("Subgrove", subgrove), Line("Key", key), Line("Owner", owner),
                Line("DataHash", Hex(h(data))), Line("Nonce", Decimal(nonce)));
    case UpdateData(subgrove, key, owner, data, nonce) =>
      FiveLines("UpdateData", Line("Subgrove", subgrove), Line("Key", key), Line("Owner", owner),
                Line("DataHash", Hex(h(data))), Line("Nonce", Decimal(nonce)));
    case DeleteData(subgrove, key, owner, nonce) =>
      FourLines("DeleteData", Line("Subgrove", subgrove), Line("Key", key), Line("Owner", owner),
                Line("Nonce", Decimal(nonce)));
    case StoreFileManifest(_, _, _, _, _, _, _, _, _, _, _, _) =>
      ManifestText(tx);
    case DeleteFileManifest(subgrove, key, owner, nonce) =>
      FourLines("DeleteFileManifest", Line("Subgrove", subgrove), Line("Key", key), Line("Owner", owner),
                Line("Nonce", Decimal(nonce)));
    case RevokeSubgroveKey(_, _, _, _) =>
  }

  lemma FourLines(kind: string, a: string, b: string, c: string, d: string)
    ensures Join([kind, a, b, c, d], NEWLINE) == kind + Lined([a, b, c, d])
  {
    hide Join, Lined;
    JoinIsLined(kind, [a, b, c, d]);
    assert [kind] + [a, b, c, d] == [kind, a, b, c, d];
  }

  lemma FiveLines(kind: string, a: string, b: string, c: string, d: string, e: string)
    ensures Join([kind, a, b, c, d, e], NEWLINE) == kind + Lined([a, b, c, d, e])
  {
    hide Join, Lined;
    JoinIsLined(kind, [a, b, c, d, e]);
    assert [kind] + [a, b, c, d, e] == [kind, a, b, c, d, e];
  }

  lemma ManifestText(tx: Tx)
    requires tx.StoreFileManifest? && FileManifest(tx).Some?
    ensures FileManifest(tx).value
         == "StoreFileManifest"
            + Lined(["Subgrove" + ": " + tx.subgrove, "Key" + ": " + tx.key, "Owner" + ": " + tx.owner,
                     "Filename" + ": " + tx.filename, "ContentType" + ": " + tx.contentType,
                     "TotalSize" + ": " + Decimal(tx.totalSize), "ContentHash" + ": " + Hex(tx.contentHash),
                     "ChunkCount" + ": " + Decimal(tx.chunkCount), "ChunkSize" + ": " + Decimal(tx.chunkSize),
                     "ChunkMerkleRoot" + ": " + Hex(tx.chunkMerkleRoot),
                     "Encryption" + ": " + EncryptionText(tx.encryption), "Nonce" + ": " + Decimal(tx.nonce)])
  {
    hide Join, Lined, Hex, Decimal, EncryptionText, Lines;
    var lines := [
      Line("Subgrove", tx.subgrove), Line("Key", tx.key), Line("Owner", tx.owner), Line("Filename", tx.filename),
      Line("ContentType", tx.contentType), Line("TotalSize", Decimal(tx.totalSize)),
      Line("ContentHash", Hex(tx.contentHash)), Line("ChunkCount", Decimal(tx.chunkCount)),
      Line("ChunkSize", Decimal(tx.chunkSize)), Line("ChunkMerkleRoot", Hex(tx.chunkMerkleRoot)),
      Line("Encryption", EncryptionText(tx.encryption)), Line("Nonce", Decimal(tx.nonce))];
    JoinIsLined("StoreFileManifest", lines);
    assert ["StoreFileManifest"] + lines
        == ["StoreFileManifest", lines[0], lines[1], lines[2], lines[3], lines[4], lines[5], lines[6], lines[7],
            lines[8], lines[9], lines[10], lines[11]];
  }
}
