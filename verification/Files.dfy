/**
 The Merkle root of a file's chunk hashes: the loop over levels, the tree it computes the top of, and
 what equal roots say of the hashes below.
 */
module Files {
  import opened ByteStrings
  import opened Hashing

  // ---------- The Merkle root, level by level ----------

  function PairHash(h: HashFunction, left: Digest, right: Digest): Digest {
    var both: Bytes := left + right;
    h(both)
  }

  /** A level of even length: an odd one repeats its last hash. */
  function Padded(level: seq<Digest>): (r: seq<Digest>)
    ensures |r| % 2 == 0 && |r| == |level| + |level| % 2
  {
    if |level| % 2 != 0 then level + [level[|level| - 1]] else level
  }

  /** The hashes of consecutive pairs. */
  function Pairs(h: HashFunction, level: seq<Digest>): (r: seq<Digest>)
    requires |level| % 2 == 0
    ensures |r| == |level| / 2
    ensures forall i :: 0 <= i < |r| ==> r[i] == PairHash(h, level[2 * i], level[2 * i + 1])
  {
    if level == [] then []
    else
      var rest := Pairs(h, level[2..]);
      [PairHash(h, level[0], level[1])] + rest
  }

  function NextLevel(h: HashFunction, level: seq<Digest>): (r: seq<Digest>)
    ensures |r| == (|level| + 1) / 2
  {
    Pairs(h, Padded(level))
  }

  function RootOf(h: HashFunction, level: seq<Digest>): Digest
    requires level != []
    decreases |level|
  {
    if |level| == 1 then level[0] else RootOf(h, NextLevel(h, level))
  }

  /** The leaves the first level is built of: a single hash is paired with itself. */
  function Leaves(hashes: seq<Digest>): seq<Digest> {
    if |hashes| == 1 then hashes + hashes else hashes
  }

  function MerkleRoot(h: HashFunction, hashes: seq<Digest>): Digest {
    if hashes == [] then ZEROS_32 else RootOf(h, Leaves(hashes))
  }

  /** One step up: the hashes of the pairs of a level of even length. */
  method PairUp(h: HashFunction, level: seq<Digest>) returns (next: seq<Digest>)
    requires |level| % 2 == 0
    ensures next == Pairs(h, level)
  {
    hide PairHash;
    next := [];
    for i := 0 to |level| / 2
      invariant |next| == i
      invariant forall j :: 0 <= j < i ==> next[j] == PairHash(h, level[2 * j], level[2 * j + 1])
    {
      next := next + [PairHash(h, level[2 * i], level[2 * i + 1])];
    }
  }

  method ComputeMerkleRoot(h: HashFunction, hashes: seq<Digest>) returns (root: Digest)
    ensures root == MerkleRoot(h, hashes)
    ensures hashes == [] ==> forall i :: 0 <= i < 32 ==> root[i] == 0
  {
    hide PairHash, Pairs;
    if hashes == [] {
      return ZEROS_32;
    }
    var current := hashes;
    if |current| == 1 {
      current := current + [current[0]];
      assert current == hashes + hashes;
    }
    while |current| > 1
      invariant current != [] && RootOf(h, current) == MerkleRoot(h, hashes)
      decreases |current|
    {
      ghost var level := current;
      if |current| % 2 != 0 {
        var last := current[|current| - 1];
        current := current + [last];
      }
      assert current == Padded(level);
      current := PairUp(h, current);
      assert current == NextLevel(h, level);
    }
    return current[0];
  }

  // ---------- The same root, from the top down ----------

  /** How many hashes the level `j` above `n` leaves has. */
  function Width(n: nat, j: nat): (w: nat)
    ensures n > 0 ==> w > 0
  {
    if j == 0 then n else (Width(n, j - 1) + 1) / 2
  }

  /** Node `i` of the level `j` above the leaves: the hash of its two children, a lone child standing for both. */
  function TreeNode(h: HashFunction, leaves: seq<Digest>, j: nat, i: nat): Digest
    requires i < Width(|leaves|, j)
    decreases j
  {
    if j == 0 then leaves[i]
    else
      var left: Bytes := TreeNode(h, leaves, j - 1, 2 * i);
      var right: Bytes := TreeNode(h, leaves, j - 1, Sibling(Width(|leaves|, j - 1), i));
      h(left + right)
  }

  /** The index of node `i`'s right child in a level of `width` nodes. */
  function Sibling(width: nat, i: nat): (r: nat)
    requires i < (width + 1) / 2
    ensures r < width
  {
    if 2 * i + 1 < width then 2 * i + 1 else 2 * i
  }

  function LevelAt(h: HashFunction, leaves: seq<Digest>, j: nat): (level: seq<Digest>)
    ensures |level| == Width(|leaves|, j)
  {
    if j == 0 then leaves else NextLevel(h, LevelAt(h, leaves, j - 1))
  }

  lemma NextLevelNode(h: HashFunction, level: seq<Digest>, i: nat)
    requires i < (|level| + 1) / 2
    ensures NextLevel(h, level)[i] == PairHash(h, level[2 * i], level[Sibling(|level|, i)])
  {
    assert Padded(level)[2 * i] == level[2 * i] && Padded(level)[2 * i + 1] == level[Sibling(|level|, i)];
  }

  lemma {:induction false} LevelIsTree(h: HashFunction, leaves: seq<Digest>, j: nat, i: nat)
    requires i < Width(|leaves|, j)
    ensures LevelAt(h, leaves, j)[i] == TreeNode(h, leaves, j, i)
  {
    hide NextLevel, Padded, Pairs;
    if j > 0 {
      var below := LevelAt(h, leaves, j - 1);
      NextLevelNode(h, below, i);
      LevelIsTree(h, leaves, j - 1, 2 * i);
      LevelIsTree(h, leaves, j - 1, Sibling(|below|, i));
    }
  }

  /** How many levels lead from `n` leaves to one hash. */
  function Height(n: nat): nat {
    if n <= 1 then 0 else 1 + Height((n + 1) / 2)
  }

  lemma {:induction false} RootIsAbove(h: HashFunction, leaves: seq<Digest>, j: nat)
    requires leaves != [] && j <= Height(|leaves|)
    ensures RootOf(h, LevelAt(h, leaves, j)) == RootOf(h, leaves)
    ensures Height(Width(|leaves|, j)) == Height(|leaves|) - j
  {
    hide NextLevel, PairHash, Padded, Pairs;
    if j > 0 {
      RootIsAbove(h, leaves, j - 1);
      var below := LevelAt(h, leaves, j - 1);
      assert |below| > 1;
      assert RootOf(h, below) == RootOf(h, NextLevel(h, below));
    }
  }

  /** The loop over levels computes the top of the tree defined from the top down; one hash is its own sibling. */
  lemma MerkleRootIsTree(h: HashFunction, hashes: seq<Digest>)
    requires hashes != []
    ensures var leaves := if |hashes| == 1 then [hashes[0], hashes[0]] else hashes;
            Width(|leaves|, Height(|leaves|)) == 1
            && MerkleRoot(h, hashes) == TreeNode(h, leaves, Height(|leaves|), 0)
  {
    var leaves := Leaves(hashes);
    RootIsAbove(h, leaves, Height(|leaves|));
    LevelIsTree(h, leaves, Height(|leaves|), 0);
  }

  // ---------- Equal roots, equal leaves ----------

  function PairInputs(level: seq<Digest>): set<Bytes> {
    set i | 0 <= i < (|level| + 1) / 2 :: PairInput(level, i)
  }

  function PairInput(level: seq<Digest>, i: nat): Bytes
    requires i < (|level| + 1) / 2
  {
    var left: Bytes, right: Bytes := level[2 * i], level[Sibling(|level|, i)];
    left + right
  }

  /** Every input hashed on the way from a level to its root. */
  function RootInputs(h: HashFunction, level: seq<Digest>): set<Bytes>
    decreases |level|
  {
    if |level| <= 1 then {} else PairInputs(level) + RootInputs(h, NextLevel(h, level))
  }

  lemma LevelInjective(h: HashFunction, a: seq<Digest>, b: seq<Digest>, inputs: set<Bytes>)
    requires |a| == |b| > 1 && NextLevel(h, a) == NextLevel(h, b)
    requires NoCollision(h, inputs) && PairInputs(a) <= inputs && PairInputs(b) <= inputs
    ensures a == b
  {
    forall i | 0 <= i < |a|
      ensures a[i] == b[i]
    {
      var k := i / 2;
      NextLevelNode(h, a, k);
      NextLevelNode(h, b, k);
      assert PairInput(a, k) in PairInputs(a) && PairInput(b, k) in PairInputs(b);
      var s := Sibling(|a|, k);
      CombineInputInjective(a[2 * k], a[s], b[2 * k], b[s]);
      assert i == 2 * k || i == s;
    }
  }

  /** For one number of leaves, equal roots mean equal leaves, unless two inputs hashed collide. */
  lemma {:induction false} RootInjective(h: HashFunction, a: seq<Digest>, b: seq<Digest>, inputs: set<Bytes>)
    requires |a| == |b| > 0 && RootOf(h, a) == RootOf(h, b)
    requires NoCollision(h, inputs) && RootInputs(h, a) <= inputs && RootInputs(h, b) <= inputs
    ensures a == b
    decreases |a|
  {
    if |a| > 1 {
      RootInjective(h, NextLevel(h, a), NextLevel(h, b), inputs);
      LevelInjective(h, a, b, inputs);
    }
  }

  /** Lists of different lengths can share a root, whatever the hash: the count matters. */
  lemma CountMatters(h: HashFunction, x: Digest, y: Digest, z: Digest)
    ensures MerkleRoot(h, [x]) == MerkleRoot(h, [x, x])
    ensures MerkleRoot(h, [x, y, z]) == MerkleRoot(h, [x, y, z, z])
  {
    assert Leaves([x]) == [x, x];
    assert Padded([x, y, z]) == Padded([x, y, z, z]);
  }
}
