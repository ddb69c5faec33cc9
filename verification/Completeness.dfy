/**
 The commitment to a block's matched events: the bytes it hashes, and what they say of the events.
 */
module Completeness {
  import opened Arithmetic
  import opened ByteStrings
  import opened Wrappers
  import opened Hashing
  import opened Text

  type Address = a: Bytes | |a| == 20 witness ZEROS_8 + ZEROS_8 + [0, 0, 0, 0]

  datatype Log = Log(address: Address, topics: seq<Digest>, data: Bytes)

  /** The ASCII bytes of WILLOW_CRYPTO_EVENTS_V1. */
  const DOMAIN_TAG: Bytes := [
    87, 73, 76, 76, 79, 87, 95, 67, 82, 89, 80, 84, 79, 95, 69, 86, 69, 78, 84, 83, 95, 86, 49]

  // ---------- What is hashed ----------

  /** A length as a big-endian 32-bit integer, cut to its low 32 bits. */
  function U32(n: nat): (s: Bytes)
    ensures |s| == 4
  {
    ToBigEndian(n % U32_LIMIT, 4)
  }

  function Topics(topics: seq<Digest>): (s: Bytes)
    ensures |s| == 32 * |topics|
  {
    if topics == [] then [] else Topics(topics[..|topics| - 1]) + topics[|topics| - 1]
  }

  function LogBytes(log: Log): Bytes {
    log.address + U32(|log.topics|) + Topics(log.topics) + U32(|log.data|) + log.data
  }

  function LogsBytes(logs: seq<Log>): Bytes {
    if logs == [] then [] else LogsBytes(logs[..|logs| - 1]) + LogBytes(logs[|logs| - 1])
  }

  function Preimage(block: nat, logs: seq<Log>): Bytes {
    DOMAIN_TAG + ToBigEndian(block, 8) + ToBigEndian(|logs|, 8) + LogsBytes(logs)
  }

  /** A hash fed in pieces. */
  class Hasher {
    const h: HashFunction
    var fed: Bytes

    constructor (h: HashFunction)
      ensures this.h == h && fed == []
    {
      this.h := h;
      fed := [];
    }

    method Update(piece: Bytes)
      modifies this
      ensures fed == old(fed) + piece
    {
      fed := fed + piece;
    }

    method Finalize() returns (d: Digest)
      ensures d == h(fed)
    {
      return h(fed);
    }
  }

  /** The hasher fed one log, topic by topic. */
  method FeedLog(hasher: Hasher, log: Log)
    modifies hasher
    ensures hasher.fed == old(hasher.fed) + LogBytes(log)
  {
    hide U32;
    var topics := log.topics;
    hasher.Update(log.address);
    hasher.Update(U32(|topics|));
    ghost var before := hasher.fed;
    for i := 0 to |topics|
      invariant hasher.fed == before + Topics(topics[..i])
    {
      hasher.Update(topics[i]);
      assert topics[..i + 1][..i] == topics[..i];
    }
    assert topics[..|topics|] == topics;
    hasher.Update(U32(|log.data|));
    hasher.Update(log.data);
    assert hasher.fed == old(hasher.fed) + LogBytes(log);
  }

  /** The loops over logs and topics hash the preimage. */
  method CanonicalEventSetHash(h: HashFunction, block: nat, logs: seq<Log>) returns (d: Digest)
    ensures d == h(Preimage(block, logs))
  {
    hide LogBytes;
    var hasher := new Hasher(h);
    hasher.Update(DOMAIN_TAG);
    hasher.Update(ToBigEndian(block, 8));
    hasher.Update(ToBigEndian(|logs|, 8));
    ghost var before := hasher.fed;
    for i := 0 to |logs|
      invariant hasher.fed == before + LogsBytes(logs[..i])
    {
      FeedLog(hasher, logs[i]);
      assert logs[..i + 1][..i] == logs[..i];
    }
    assert logs[..|logs|] == logs;
    assert hasher.fed == Preimage(block, logs);
    d := hasher.Finalize();
  }

  method VerifyServedEvents(h: HashFunction, commitment: Digest, block: nat, served: seq<Log>) returns (verified: bool)
    ensures verified <==> h(Preimage(block, served)) == commitment
  {
    var d := CanonicalEventSetHash(h, block, served);
    return d == commitment;
  }

  // ---------- Reading the preimage back ----------

  function ReadTopics(s: Bytes, n: nat): Option<seq<Digest>>
    requires |s| == 32 * n
  {
    if n == 0 then Some([])
    else
      var init :- ReadTopics(s[..32 * (n - 1)], n - 1);
      var last: Digest := s[32 * (n - 1)..];
      Some(init + [last])
  }

  /** One log, and the bytes after it. */
  function ReadLog(s: Bytes): (r: Option<(Log, Bytes)>)
    ensures r.Some? ==> |r.value.1| < |s|
    ensures r.Some? ==> Countable(r.value.0)
  {
    if |s| < 24 then None
    else
      var n := BigEndian(s[20..24]);
      var rest := s[24..];
      if |rest| < 32 * n + 4 then None
      else
        var topics :- ReadTopics(rest[..32 * n], n);
        var m := BigEndian(rest[32 * n..32 * n + 4]);
        var tail := rest[32 * n + 4..];
        if |tail| < m then None
        else
          FourBytes(s[20..24]);
          FourBytes(rest[32 * n..32 * n + 4]);
          ReadTopicsCount(rest[..32 * n], n);
          Some((Log(s[..20], topics, tail[..m]), tail[m..]))
  }

  function ReadLogs(s: Bytes, count: nat): Option<seq<Log>> {
    if count == 0 then if s == [] then Some([]) else None
    else
      var first :- ReadLog(s);
      var rest :- ReadLogs(first.1, count - 1);
      Some([first.0] + rest)
  }

  function ReadPreimage(s: Bytes): Option<(nat, seq<Log>)> {
    if |s| < 39 || s[..23] != DOMAIN_TAG then None
    else
      var logs :- ReadLogs(s[39..], BigEndian(s[31..39]));
      Some((BigEndian(s[23..31]), logs))
  }

  /** A log whose counts fit the 32 bits they are hashed in. */
  predicate Countable(log: Log) {
    |log.topics| < U32_LIMIT && |log.data| < U32_LIMIT
  }

  predicate AllCountable(logs: seq<Log>) {
    forall i :: 0 <= i < |logs| ==> Countable(logs[i])
  }

  lemma Widths()
    ensures Pow256(4) == U32_LIMIT && Pow256(8) == U64_LIMIT
  {
    assert Pow256(2) == 0x1_0000;
    assert Pow256(4) == 256 * (256 * Pow256(2));
    assert Pow256(6) == 256 * (256 * Pow256(4));
    assert Pow256(8) == 256 * (256 * Pow256(6));
  }

  lemma FourBytes(s: Bytes)
    requires |s| == 4
    ensures BigEndian(s) < U32_LIMIT
  {
    Widths();
  }

  lemma {:induction false} ReadTopicsCount(s: Bytes, n: nat)
    requires |s| == 32 * n
    ensures ReadTopics(s, n).Some? && |ReadTopics(s, n).value| == n
  {
    if n > 0 {
      ReadTopicsCount(s[..32 * (n - 1)], n - 1);
    }
  }

  lemma {:induction false} TopicsRead(topics: seq<Digest>)
    ensures ReadTopics(Topics(topics), |topics|) == Some(topics)
  {
    if topics != [] {
      var n := |topics|;
      var init, last := topics[..n - 1], topics[n - 1];
      var s := Topics(topics);
      TopicsRead(init);
      assert s[..32 * (n - 1)] == Topics(init) && s[32 * (n - 1)..] == last;
      assert topics == init + [last];
    }
  }

  lemma U32Reads(n: nat)
    requires n < U32_LIMIT
    ensures BigEndian(U32(n)) == n
  {
    hide BigEndian, ToBigEndian;
    Widths();
    BigEndianRoundTrip(n, 4);
  }

  lemma LogReads(log: Log, after: Bytes)
    requires Countable(log)
    ensures ReadLog(LogBytes(log) + after) == Some((log, after))
  {
    hide U32, BigEndian, Topics, ReadTopics;
    var s := LogBytes(log) + after;
    var n, m := |log.topics|, |log.data|;
    U32Reads(n);
    U32Reads(m);
    TopicsRead(log.topics);
    assert s[..20] == log.address && s[20..24] == U32(n);
    var rest := Topics(log.topics) + U32(m) + log.data + after;
    assert s[24..] == rest;
    assert rest[..32 * n] == Topics(log.topics) && rest[32 * n..32 * n + 4] == U32(m);
    var tail := log.data + after;
    assert rest[32 * n + 4..] == tail;
    assert tail[..m] == log.data && tail[m..] == after;
  }

  lemma {:induction false} LogsBytesCons(first: Log, rest: seq<Log>)
    ensures LogsBytes([first] + rest) == LogBytes(first) + LogsBytes(rest)
  {
    hide LogBytes;
    var all := [first] + rest;
    if rest == [] {
      assert all[..0] == [] && LogsBytes([]) == [];
    } else {
      var init := rest[..|rest| - 1];
      LogsBytesCons(first, init);
      assert all[..|all| - 1] == [first] + init;
    }
  }

  lemma {:induction false} LogsRead(logs: seq<Log>)
    requires AllCountable(logs)
    ensures ReadLogs(LogsBytes(logs), |logs|) == Some(logs)
  {
    hide LogBytes, ReadLog;
    if logs != [] {
      var first, rest := logs[0], logs[1..];
      assert logs == [first] + rest;
      LogsBytesCons(first, rest);
      LogReads(first, LogsBytes(rest));
      LogsRead(rest);
    }
  }

  lemma {:induction false} LogsReadAreCountable(s: Bytes, count: nat)
    requires ReadLogs(s, count).Some?
    ensures AllCountable(ReadLogs(s, count).value)
    decreases count
  {
    hide ReadLog;
    if count > 0 {
      LogsReadAreCountable(ReadLog(s).value.1, count - 1);
    }
  }

  lemma PreimageParts(block: nat, logs: seq<Log>)
    ensures var s := Preimage(block, logs);
            && |s| >= 39 && s[..23] == DOMAIN_TAG && s[23..31] == ToBigEndian(block, 8)
            && s[31..39] == ToBigEndian(|logs|, 8) && s[39..] == LogsBytes(logs)
  {
    hide LogsBytes;
  }

  // ---------- Where each field stands ----------

  /** The bytes of the first `n` logs. */
  function LogsLength(logs: seq<Log>, n: nat): nat
    requires n <= |logs|
  {
    if n == 0 then 0 else LogsLength(logs, n - 1) + 28 + 32 * |logs[n - 1].topics| + |logs[n - 1].data|
  }

  lemma {:induction false} TopicAt(topics: seq<Digest>, i: nat)
    requires i < |topics|
    ensures Topics(topics)[32 * i..32 * (i + 1)] == topics[i]
  {
    var n := |topics| - 1;
    var s, init := Topics(topics), topics[..n];
    assert s == Topics(init) + topics[n];
    if i == n {
      assert s[32 * n..32 * (n + 1)] == topics[n];
    } else {
      TopicAt(init, i);
      assert s[32 * i..32 * (i + 1)] == Topics(init)[32 * i..32 * (i + 1)];
    }
  }

  lemma LogLayout(log: Log, i: nat)
    ensures var s, n := LogBytes(log), |log.topics|;
            && |s| == 28 + 32 * n + |log.data|
            && s[..20] == log.address
            && s[20..24] == ToBigEndian(n % 0x1_0000_0000, 4)
            && (i < n ==> s[24 + 32 * i..24 + 32 * (i + 1)] == log.topics[i])
            && s[24 + 32 * n..28 + 32 * n] == ToBigEndian(|log.data| % 0x1_0000_0000, 4)
            && s[28 + 32 * n..] == log.data
  {
    hide ToBigEndian, Topics;
    var s, n, topics := LogBytes(log), |log.topics|, Topics(log.topics);
    assert s[24..24 + 32 * n] == topics;
    if i < n {
      TopicAt(log.topics, i);
      assert s[24 + 32 * i..24 + 32 * (i + 1)] == topics[32 * i..32 * (i + 1)];
    }
  }

  lemma {:induction false} LogAt(logs: seq<Log>, i: nat)
    requires i < |logs|
    ensures |LogsBytes(logs)| == LogsLength(logs, |logs|)
    ensures LogsLength(logs, i) + |LogBytes(logs[i])| <= |LogsBytes(logs)|
    ensures LogsBytes(logs)[LogsLength(logs, i)..][..|LogBytes(logs[i])|] == LogBytes(logs[i])
  {
    hide LogBytes, LogsLength;
    var n := |logs| - 1;
    var init := logs[..n];
    LogLayout(logs[n], 0);
    LengthOfPrefix(logs, n, n);
    LengthSteps(logs, n);
    var s, head := LogsBytes(logs), LogsBytes(init);
    assert s == head + LogBytes(logs[n]);
    if n == 0 {
      LengthSteps(logs, 0);
      assert s[0..][..|LogBytes(logs[0])|] == LogBytes(logs[0]);
    } else if i == n {
      LogAt(init, 0);
      assert s[|head|..][..|LogBytes(logs[n])|] == LogBytes(logs[n]);
    } else {
      LogAt(init, i);
      LengthOfPrefix(logs, n, i);
      var start, size := LogsLength(logs, i), |LogBytes(logs[i])|;
      assert s[start..][..size] == head[start..][..size];
    }
  }

  lemma LengthSteps(logs: seq<Log>, n: nat)
    requires n < |logs|
    ensures LogsLength(logs, 0) == 0
    ensures LogsLength(logs, n + 1) == LogsLength(logs, n) + 28 + 32 * |logs[n].topics| + |logs[n].data|
  {
  }

  lemma {:induction false} LengthOfPrefix(logs: seq<Log>, m: nat, n: nat)
    requires n <= m <= |logs|
    ensures LogsLength(logs[..m], n) == LogsLength(logs, n)
  {
    if n > 0 {
      LengthOfPrefix(logs, m, n - 1);
    }
  }

  /** Where every field of every log stands among the bytes hashed. */
  lemma PreimageLayout(block: nat, logs: seq<Log>, i: nat, t: nat)
    ensures var s := Preimage(block, logs);
            && |s| == 39 + LogsLength(logs, |logs|)
            && s[..23] == Ascii("WILLOW_CRYPTO_EVENTS_V1")
            && s[23..31] == ToBigEndian(block, 8)
            && s[31..39] == ToBigEndian(|logs|, 8)
    ensures i < |logs| ==>
              var log, start := logs[i], 39 + LogsLength(logs, i);
              var n := |log.topics|;
              && start + 28 + 32 * n + |log.data| <= |Preimage(block, logs)|
              && var s := Preimage(block, logs)[start..][..28 + 32 * n + |log.data|];
                 && s[..20] == log.address
                 && s[20..24] == ToBigEndian(n % 0x1_0000_0000, 4)
                 && (t < n ==> s[24 + 32 * t..24 + 32 * (t + 1)] == log.topics[t])
                 && s[24 + 32 * n..28 + 32 * n] == ToBigEndian(|log.data| % 0x1_0000_0000, 4)
                 && s[28 + 32 * n..] == log.data
  {
    hide LogBytes, LogsBytes, LogsLength, Preimage, ToBigEndian, Ascii;
    PreimageParts(block, logs);
    TagIsText();
    var s := Preimage(block, logs);
    if i < |logs| {
      LogAt(logs, i);
      LogLayout(logs[i], t);
      assert s[39 + LogsLength(logs, i)..] == s[39..][LogsLength(logs, i)..];
    } else if logs == [] {
      NoLogs();
    } else {
      LogAt(logs, 0);
    }
  }

  lemma NoLogs()
    ensures |LogsBytes([])| == 0 && LogsLength([], 0) == 0
  {
  }

  lemma TagIsText()
    ensures DOMAIN_TAG == Ascii("WILLOW_CRYPTO_EVENTS_V1")
  {
  }

  /** The preimage reads back as the block and its logs if and only if every count fits 32 bits. */
  lemma PreimageReadsBack(block: nat, logs: seq<Log>)
    requires block < U64_LIMIT && |logs| < U64_LIMIT
    ensures ReadPreimage(Preimage(block, logs)) == Some((block, logs)) <==> AllCountable(logs)
  {
    hide BigEndian, LogsBytes, ReadLogs, AllCountable, Preimage;
    Widths();
    BigEndianRoundTrip(block, 8);
    BigEndianRoundTrip(|logs|, 8);
    PreimageParts(block, logs);
    if AllCountable(logs) {
      LogsRead(logs);
    }
    if ReadLogs(LogsBytes(logs), |logs|) == Some(logs) {
      LogsReadAreCountable(LogsBytes(logs), |logs|);
    }
  }

  /** Served events that verify against a commitment are those of the block it is of: all of them, in order. */
  lemma VerifiedEventsAreCommitted(h: HashFunction, block: nat, committed: seq<Log>, asked: nat, served: seq<Log>)
    requires block < U64_LIMIT && asked < U64_LIMIT && |committed| < U64_LIMIT && |served| < U64_LIMIT
    requires AllCountable(committed) && AllCountable(served)
    requires h(Preimage(asked, served)) == h(Preimage(block, committed))
    requires NoCollision(h, {Preimage(asked, served), Preimage(block, committed)})
    ensures asked == block && served == committed
  {
    hide Preimage, ReadPreimage, AllCountable;
    PreimageReadsBack(block, committed);
    PreimageReadsBack(asked, served);
  }

  // ---------- Counts over 32 bits ----------

  function Zeros(n: nat): (s: Bytes)
    ensures |s| == n && forall i :: 0 <= i < n ==> s[i] == 0
  {
    if n == 0 then [] else Zeros(n - 1) + [0]
  }

  function ZeroTopics(n: nat): (topics: seq<Digest>)
    ensures |topics| == n
  {
    if n == 0 then [] else ZeroTopics(n - 1) + [ZEROS_32]
  }

  lemma {:induction false} ZeroTopicBytes(n: nat)
    ensures Topics(ZeroTopics(n)) == Zeros(32 * n)
  {
    if n > 0 {
      ZeroTopicBytes(n - 1);
      assert ZeroTopics(n)[..n - 1] == ZeroTopics(n - 1);
    }
  }

  /**
   The cut to 32 bits is where the preimage stops being the events': 2^32 zero topics and no data hash
   as no topics and 2^37 zero bytes of data.
   */
  lemma CutCountsCollide(block: nat, address: Address)
    ensures var many, none := Log(address, ZeroTopics(U32_LIMIT), []), Log(address, [], Zeros(32 * U32_LIMIT));
            many != none && Preimage(block, [many]) == Preimage(block, [none])
  {
    hide Zeros, ZeroTopics, ToBigEndian;
    var many, none := Log(address, ZeroTopics(U32_LIMIT), []), Log(address, [], Zeros(32 * U32_LIMIT));
    ZeroTopicBytes(U32_LIMIT);
    ZeroCount(U32_LIMIT);
    ZeroCount(32 * U32_LIMIT);
    ZeroCount(0);
    assert LogBytes(many) == LogBytes(none);
    LogsBytesCons(many, []);
    LogsBytesCons(none, []);
    assert [many] + [] == [many] && [none] + [] == [none];
  }

  lemma ZeroCount(n: nat)
    requires n % U32_LIMIT == 0
    ensures U32(n) == [0, 0, 0, 0]
  {
  }
}
