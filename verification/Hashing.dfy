/**
 How Merk hashes values, keys and nodes, over an arbitrary hash function, and what equal hashes say
 when no two inputs in a given finite set collide.
 */
module Hashing {
  import opened ByteStrings

  type HashFunction = Bytes -> Digest

  /** A length as a little-endian base-128 varint. */
  function LengthPrefix(n: nat): (s: Bytes)
    ensures |s| > 0
  {
    if n < 128 then [n] else [128 + n % 128] + LengthPrefix(n / 128)
  }

  function Prefixed(s: Bytes): Bytes {
    LengthPrefix(|s|) + s
  }

  function KvInput(key: Bytes, valueHash: Digest): Bytes {
    Prefixed(key) + valueHash
  }

  function NodeInput(kv: Digest, left: Digest, right: Digest): Bytes {
    kv + left + right
  }

  function ValueHash(h: HashFunction, value: Bytes): Digest {
    h(Prefixed(value))
  }

  function CombineHash(h: HashFunction, a: Digest, b: Digest): Digest {
    h(a + b)
  }

  function KvHash(h: HashFunction, key: Bytes, valueHash: Digest): Digest {
    h(KvInput(key, valueHash))
  }

  function NodeHash(h: HashFunction, kv: Digest, left: Digest, right: Digest): Digest {
    h(NodeInput(kv, left, right))
  }

  /** Among `inputs`, no two hash alike. */
  ghost predicate NoCollision(h: HashFunction, inputs: set<Bytes>) {
    forall a, b :: a in inputs && b in inputs && h(a) == h(b) ==> a == b
  }

  /** Among `inputs`, no two hash alike and none hashes to the hash of nothing. */
  ghost predicate CollisionFree(h: HashFunction, inputs: set<Bytes>) {
    && NoCollision(h, inputs)
    && (forall a :: a in inputs ==> h(a) != NULL_HASH)
  }

  function FirstByte(n: nat): (b: byte)
    ensures b == LengthPrefix(n)[0]
  {
    if n < 128 then n else 128 + n % 128
  }

  lemma {:induction false} LengthPrefixSplits(m: nat, n: nat, x: Bytes, y: Bytes)
    requires LengthPrefix(m) + x == LengthPrefix(n) + y
    ensures m == n && x == y
    decreases m
  {
    PrefixUnfolds(m, x);
    PrefixUnfolds(n, y);
    if m >= 128 {
      hide LengthPrefix;
      LengthPrefixSplits(m / 128, n / 128, x, y);
    }
  }

  lemma PrefixUnfolds(n: nat, x: Bytes)
    ensures var s := LengthPrefix(n) + x;
            s[0] == FirstByte(n) && s[1..] == if n < 128 then x else LengthPrefix(n / 128) + x
  {
  }

  lemma PrefixedInjective(a: Bytes, b: Bytes)
    requires Prefixed(a) == Prefixed(b)
    ensures a == b
  {
    LengthPrefixSplits(|a|, |b|, a, b);
  }

  lemma KvInputInjective(k: Bytes, v: Digest, k': Bytes, v': Digest)
    requires KvInput(k, v) == KvInput(k', v')
    ensures k == k' && v == v'
  {
    assert LengthPrefix(|k|) + (k + v) == KvInput(k, v) == LengthPrefix(|k'|) + (k' + v');
    LengthPrefixSplits(|k|, |k'|, k + v, k' + v');
    assert (k + v)[..|k|] == k && (k' + v')[..|k|] == k';
    assert (k + v)[|k|..] == v && (k' + v')[|k|..] == v';
  }

  /** Where each hash stands in what is hashed for a node, and the key before its value's hash. */
  lemma NodeInputParts(kv: Digest, left: Digest, right: Digest)
    ensures var s := NodeInput(kv, left, right); |s| == 96 && s[..32] == kv && s[32..64] == left && s[64..] == right
  {
  }

  lemma KvInputParts(key: Bytes, valueHash: Digest)
    ensures var s := KvInput(key, valueHash); |s| >= 32 && s[..|s| - 32] == Prefixed(key) && s[|s| - 32..] == valueHash
  {
    hide Prefixed;
  }

  lemma NodeInputInjective(kv: Digest, l: Digest, r: Digest, kv': Digest, l': Digest, r': Digest)
    requires NodeInput(kv, l, r) == NodeInput(kv', l', r')
    ensures kv == kv' && l == l' && r == r'
  {
    hide NodeInput;
    NodeInputParts(kv, l, r);
    NodeInputParts(kv', l', r');
  }

  lemma CombineInputInjective(a: Digest, b: Digest, a': Digest, b': Digest)
    requires a + b == a' + b'
    ensures a == a' && b == b'
  {
    assert (a + b)[..32] == a && (a' + b')[..32] == a' && (a + b)[32..] == b && (a' + b')[32..] == b';
  }

  /**
   The 63-byte rule, from the lengths of the inputs alone: a value's hash input can be that of two
   digests combined exactly when the value is 63 bytes.
   */
  lemma PairSizedValue(value: Bytes)
    ensures (exists a: Digest, b: Digest :: Prefixed(value) == a + b) <==> |value| == 63
  {
    if |value| == 63 {
      var a: Digest, b: Digest := Prefixed(value)[..32], Prefixed(value)[32..];
      assert Prefixed(value) == a + b;
    }
  }
}
