/** Byte strings, 32-byte digests and big-endian integers. */
module ByteStrings {

  type byte = b: int | 0 <= b < 256

  type Bytes = seq<byte>

  const ZEROS_8: Bytes := [0, 0, 0, 0, 0, 0, 0, 0]
  const ZEROS_32: Bytes := ZEROS_8 + ZEROS_8 + ZEROS_8 + ZEROS_8

  type Digest = d: Bytes | |d| == 32 witness ZEROS_32

  /** The root of an empty Merk tree, and the hash of an absent child. */
  const NULL_HASH: Digest := ZEROS_32

  function Pow256(n: nat): (r: nat)
    ensures r > 0
  {
    if n == 0 then 1 else 256 * Pow256(n - 1)
  }

  /** The value of `s` read as a big-endian integer. */
  function BigEndian(s: Bytes): (n: nat)
    ensures n < Pow256(|s|)
  {
    if s == [] then 0 else BigEndian(s[..|s| - 1]) * 256 + s[|s| - 1]
  }

  /** The low `width` bytes of `n`, most significant first. */
  function ToBigEndian(n: nat, width: nat): (s: Bytes)
    ensures |s| == width
  {
    if width == 0 then [] else ToBigEndian(n / 256, width - 1) + [n % 256]
  }

  lemma {:induction false} BigEndianRoundTrip(n: nat, width: nat)
    requires n < Pow256(width)
    ensures BigEndian(ToBigEndian(n, width)) == n
  {
    if width > 0 {
      var s := ToBigEndian(n, width);
      QuotientFits(n, Pow256(width - 1));
      BigEndianRoundTrip(n / 256, width - 1);
      assert s[..width - 1] == ToBigEndian(n / 256, width - 1) && s[width - 1] == n % 256;
    }
  }

  /** The first byte weighs most: 256 to the number of bytes after it. */
  lemma {:induction false} FirstByteWeighsMost(first: byte, rest: Bytes)
    ensures BigEndian([first] + rest) == first * Pow256(|rest|) + BigEndian(rest)
  {
    var s := [first] + rest;
    if rest == [] {
      assert s[..0] == [];
      assert BigEndian(s) == BigEndian(s[..0]) * 256 + s[0];
    } else {
      var init := rest[..|rest| - 1];
      FirstByteWeighsMost(first, init);
      assert s[..|s| - 1] == [first] + init;
      calc {
        BigEndian(s);
        BigEndian([first] + init) * 256 + rest[|rest| - 1];
        (first * Pow256(|init|) + BigEndian(init)) * 256 + rest[|rest| - 1];
        first * Pow256(|init|) * 256 + BigEndian(rest);
        { Reassociate(first, Pow256(|init|)); }
        first * Pow256(|rest|) + BigEndian(rest);
      }
    }
  }

  lemma Reassociate(b: nat, p: nat)
    ensures b * p * 256 == b * (256 * p)
  {
  }

  lemma QuotientFits(n: nat, p: nat)
    requires n < 256 * p
    ensures n / 256 < p
  {
  }
}
