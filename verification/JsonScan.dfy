/**
 The one-pass cost scanner of JSON answers: a byte loop, proved against a function of the bytes not yet
 read, with no early exit.
 */
module JsonScan {
  import opened ByteStrings

  const CONTAINER_COST: nat := 8
  const PROOF_NUMBERS_PER_UNIT: nat := 16

  const QUOTE: byte := 34
  const BACKSLASH: byte := 92
  const OPEN_BRACKET: byte := 91
  const CLOSE_BRACKET: byte := 93
  const OPEN_BRACE: byte := 123
  const CLOSE_BRACE: byte := 125
  const COLON: byte := 58
  const COMMA: byte := 44
  const MINUS: byte := 45
  const PROOF_KEY: Bytes := [112, 114, 111, 111, 102]

  datatype Budget = Full | UnderProof

  /** What the scan has counted: `cheap` proof numbers short of the next unit. */
  datatype Count = Count(units: nat, depth: nat, cheap: nat, underProof: bool)

  predicate IsDigit(c: byte) {
    48 <= c <= 57
  }

  predicate IsLower(c: byte) {
    97 <= c <= 122
  }

  predicate IsScalarByte(c: byte) {
    IsDigit(c) || IsLower(c) || 65 <= c <= 90 || c == 46 || c == 43 || c == MINUS
  }

  predicate IsBlank(c: byte) {
    c == 32 || c == 9 || c == 10 || c == 13
  }

  function SkipBlank(s: Bytes): (r: Bytes)
    ensures |r| <= |s|
  {
    if s != [] && IsBlank(s[0]) then SkipBlank(s[1..]) else s
  }

  predicate StartsContainer(s: Bytes) {
    s != [] && (s[0] == OPEN_BRACKET || s[0] == OPEN_BRACE)
  }

  /** A member's value follows, and it opens with a bracket or brace. */
  predicate OpensContainerAfterColon(s: Bytes) {
    var t := SkipBlank(s);
    t != [] && t[0] == COLON && StartsContainer(SkipBlank(t[1..]))
  }

  /** How many bytes a string spans up to its closing quote; an escape at the end runs one past it. */
  function StringLength(s: Bytes): (n: nat)
    ensures n <= |s| + 1
    decreases |s|
  {
    if s == [] || s[0] == QUOTE then 0
    else if s[0] == BACKSLASH then 2 + StringLength(Drop(s, 2))
    else 1 + StringLength(s[1..])
  }

  function Drop(s: Bytes, n: nat): (r: Bytes)
    ensures |r| == if n <= |s| then |s| - n else 0
  {
    if n <= |s| then s[n..] else []
  }

  function ScalarLength(s: Bytes): (n: nat)
    ensures n <= |s|
  {
    if s != [] && IsScalarByte(s[0]) then 1 + ScalarLength(s[1..]) else 0
  }

  function CountNumber(c: Count): Count {
    if !c.underProof then c.(units := c.units + 1)
    else if c.cheap + 1 == PROOF_NUMBERS_PER_UNIT then c.(units := c.units + 1, cheap := 0)
    else c.(cheap := c.cheap + 1)
  }

  function CountOpen(c: Count): Count {
    c.(units := c.units + CONTAINER_COST, depth := c.depth + 1)
  }

  function CountClose(c: Count): Count {
    var depth := if c.depth == 0 then 0 else c.depth - 1;
    c.(depth := depth, underProof := c.underProof && depth > 1)
  }

  /** A string of contents `raw` with `rest` after its closing quote. */
  function CountString(c: Count, raw: Bytes, rest: Bytes, budget: Budget): Count {
    var proof := budget.UnderProof? && c.depth == 1 && raw == PROOF_KEY && OpensContainerAfterColon(rest);
    c.(units := c.units + 1, underProof := c.underProof || proof)
  }

  /** The string at the start of `s`, just past its opening quote; cut short by the end if need be. */
  function RawString(s: Bytes): Bytes {
    if StringLength(s) <= |s| then s[..StringLength(s)] else s
  }

  /** One token off a nonempty rest: the count after it, and how many bytes it takes. */
  function Token(s: Bytes, c: Count, budget: Budget): (r: (Count, nat))
    requires s != []
    ensures r.1 > 0
  {
    if s[0] == QUOTE then
      var n := StringLength(s[1..]);
      (CountString(c, RawString(s[1..]), Drop(s, n + 2), budget), n + 2)
    else if s[0] == OPEN_BRACKET || s[0] == OPEN_BRACE then (CountOpen(c), 1)
    else if s[0] == CLOSE_BRACKET || s[0] == CLOSE_BRACE then (CountClose(c), 1)
    else if s[0] == MINUS || IsDigit(s[0]) then (CountNumber(c), 1 + ScalarLength(s[1..]))
    else if IsLower(s[0]) then (c.(units := c.units + 1), 1 + ScalarLength(s[1..]))
    else (c, 1)
  }

  /** The count at the end of `s`. */
  function Scanned(s: Bytes, c: Count, budget: Budget): (r: Count)
    ensures r.units >= c.units
    decreases |s|
  {
    if s == [] then c
    else
      var (next, n) := Token(s, c, budget);
      Scanned(Drop(s, n), next, budget)
  }

  lemma NothingLeft(c: Count, budget: Budget)
    ensures Scanned([], c, budget) == c
  {
  }

  const NOTHING := Count(0, 0, 0, false)

  /** The token at `at` of the data, and the rest after it. */
  lemma TokenAt(data: Bytes, at: nat, c: Count, budget: Budget)
    requires at < |data|
    ensures var (next, n) := Token(Drop(data, at), c, budget);
            Scanned(Drop(data, at), c, budget) == Scanned(Drop(data, at + n), next, budget)
  {
    var n := Token(Drop(data, at), c, budget).1;
    assert Drop(Drop(data, at), n) == Drop(data, at + n);
  }

  /** A string whose closing quote would be at `i`; one that runs past the end is no key. */
  lemma StringTokenAt(data: Bytes, at: nat, i: nat, c: Count, budget: Budget)
    requires at < |data| && data[at] == QUOTE && i == at + 1 + StringLength(data[at + 1..])
    ensures var proof := budget.UnderProof? && c.depth == 1 && i <= |data| && data[at + 1..i] == PROOF_KEY
                         && OpensContainerAfterColon(Drop(data, i + 1));
            Token(Drop(data, at), c, budget)
            == (c.(units := c.units + 1, underProof := c.underProof || proof), i + 1 - at)
  {
    var s := Drop(data, at);
    assert s[1..] == data[at + 1..];
    assert Drop(s, StringLength(s[1..]) + 2) == Drop(data, i + 1);
    assert i <= |data| ==> data[at + 1..][..i - at - 1] == data[at + 1..i];
  }

  method OpensContainer(data: Bytes, start: nat) returns (opens: bool)
    ensures opens == OpensContainerAfterColon(Drop(data, start))
  {
    var i := SkipBlanks(data, start);
    if i >= |data| || data[i] != COLON {
      return false;
    }
    assert Drop(data, i)[1..] == Drop(data, i + 1);
    i := SkipBlanks(data, i + 1);
    return i < |data| && (data[i] == OPEN_BRACKET || data[i] == OPEN_BRACE);
  }

  method SkipBlanks(data: Bytes, start: nat) returns (i: nat)
    ensures Drop(data, i) == SkipBlank(Drop(data, start))
    ensures i < |data| ==> !IsBlank(data[i])
  {
    i := start;
    while i < |data| && IsBlank(data[i])
      invariant SkipBlank(Drop(data, i)) == SkipBlank(Drop(data, start))
    {
      assert Drop(data, i)[1..] == Drop(data, i + 1);
      i := i + 1;
    }
  }

  /** The index of a string's closing quote, from just past its opening one; past the end if it has none. */
  method SkipString(data: Bytes, start: nat) returns (i: nat)
    requires start <= |data|
    ensures i == start + StringLength(data[start..])
  {
    i := start;
    while i < |data| && data[i] != QUOTE
      invariant start <= i <= |data| + 1
      invariant start + StringLength(data[start..]) == i + StringLength(Drop(data, i))
      decreases |data| - i
    {
      assert Drop(data, i)[1..] == Drop(data, i + 1) && Drop(Drop(data, i), 2) == Drop(data, i + 2);
      if data[i] == BACKSLASH {
        i := i + 1;
      }
      i := i + 1;
    }
  }

  /** The index of the last byte of a number or literal that starts at `start`. */
  method SkipScalar(data: Bytes, start: nat) returns (i: nat)
    requires start < |data|
    ensures i == start + ScalarLength(data[start + 1..])
  {
    i := start;
    while i + 1 < |data| && IsScalarByte(data[i + 1])
      invariant start <= i < |data|
      invariant start + ScalarLength(data[start + 1..]) == i + ScalarLength(data[i + 1..])
    {
      assert data[i + 1..][1..] == data[i + 2..];
      i := i + 1;
    }
  }

  /** The scan with its early exit, against the count of the whole input. */
  method ScanUnits(data: Bytes, max: nat, budget: Budget) returns (within: bool)
    ensures within <==> Scanned(data, NOTHING, budget).units <= max
  {
    hide StringLength, OpensContainerAfterColon, Scanned, ScalarLength;
    var units: nat, depth: nat, cheap: nat := 0, 0, 0;
    var underProof := false;
    var i := 0;
    assert Drop(data, 0) == data;
    while i < |data|
      invariant Scanned(data, NOTHING, budget) == Scanned(Drop(data, i), Count(units, depth, cheap, underProof), budget)
      invariant units <= max
      decreases |data| - i
    {
      ghost var c := Count(units, depth, cheap, underProof);
      ghost var at := i;
      TokenAt(data, i, c, budget);
      assert Drop(data, i)[0] == data[i] && Drop(data, i)[1..] == data[i + 1..];
      if data[i] == QUOTE {
        units := units + 1;
        var start := i + 1;
        i := SkipString(data, start);
        StringTokenAt(data, at, i, c, budget);
        var opens := OpensContainer(data, i + 1);
        if budget == UnderProof && depth == 1 && i <= |data| && data[start..i] == PROOF_KEY && opens {
          underProof := true;
        }
      } else if data[i] == OPEN_BRACKET || data[i] == OPEN_BRACE {
        units := units + CONTAINER_COST;
        depth := depth + 1;
      } else if data[i] == CLOSE_BRACKET || data[i] == CLOSE_BRACE {
        depth := if depth == 0 then 0 else depth - 1;
        if depth <= 1 {
          underProof := false;
        }
      } else if data[i] == MINUS || IsDigit(data[i]) {
        if underProof {
          cheap := cheap + 1;
          if cheap == PROOF_NUMBERS_PER_UNIT {
            units := units + 1;
            cheap := 0;
          }
        } else {
          units := units + 1;
        }
        i := SkipScalar(data, i);
      } else if IsLower(data[i]) {
        units := units + 1;
        i := SkipScalar(data, i);
      }
      assert Token(Drop(data, at), c, budget) == (Count(units, depth, cheap, underProof), i + 1 - at);
      if units > max {
        return false;
      }
      i := i + 1;
    }
    assert Drop(data, i) == [];
    NothingLeft(Count(units, depth, cheap, underProof), budget);
    return true;
  }

  /** `read`: a body taken a piece at a time never holds more than `limit` bytes, and is all of it or refused. */
  method ReadBody(declared: nat, hasLength: bool, pieces: seq<Bytes>, limit: nat) returns (body: Bytes, ok: bool)
    ensures |body| <= limit
    ensures ok <==> !(hasLength && declared > limit) && |Concat(pieces)| <= limit
    ensures ok ==> body == Concat(pieces)
  {
    body := [];
    if hasLength && declared > limit {
      return body, false;
    }
    for k := 0 to |pieces|
      invariant |body| <= limit && body == Concat(pieces[..k])
    {
      ConcatSplits(pieces, k + 1);
      assert pieces[..k + 1][..k] == pieces[..k];
      if |pieces[k]| > limit - |body| {
        return body, false;
      }
      body := body + pieces[k];
    }
    assert pieces[..|pieces|] == pieces;
    return body, true;
  }

  function Concat(pieces: seq<Bytes>): Bytes {
    if pieces == [] then [] else Concat(pieces[..|pieces| - 1]) + pieces[|pieces| - 1]
  }

  lemma {:induction false} ConcatSplits(pieces: seq<Bytes>, k: nat)
    requires k <= |pieces|
    ensures |Concat(pieces[..k])| <= |Concat(pieces)|
  {
    if k < |pieces| {
      assert pieces[..|pieces| - 1][..k] == pieces[..k];
      ConcatSplits(pieces[..|pieces| - 1], k);
    } else {
      assert pieces[..k] == pieces;
    }
  }
}
