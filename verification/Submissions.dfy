/**
 How one submission settles its nonce: the reading of CometBFT's answer, of the node's refusal, and the
 calls of the client around its shared tracker.
 */
module Submissions {
  import opened Arithmetic
  import opened Wrappers
  import opened Text
  import opened Nonces

  // ---------- Reading a refusal ----------

  /** The text after the first whitespace, if there is any. */
  function AfterWhitespace(s: string): Option<string> {
    if s == "" then None else if IsWhitespace(s[0]) then Some(s[1..]) else AfterWhitespace(s[1..])
  }

  /** A heading, a nonce, and what is said of it. */
  function Numbered(heading: string, nonce: u64, rest: string): string {
    heading + (Decimal(nonce) + " " + rest)
  }

  const NONCE := "Nonce "
  const INVALID := "Invalid nonce: "
  const OF := "of "
  const HELD := "is held by a pending transaction"
  const ALREADY_USED := "already used"
  const BELOW_BASE := "<= base nonce"

  predicate SaysHeld(log: string, nonce: u64) {
    var start := Numbered(NONCE, nonce, OF);
    && StartsWith(log, start)
    && var rest := AfterWhitespace(log[|start|..]);
    && rest.Some? && StartsWith(rest.value, HELD)
  }

  /** How a refusal ends that spent the nonce. */
  function Spent(nonce: u64): string {
    "(nonce" + ([' '] + (Decimal(nonce) + " spent)"))
  }

  predicate SaysUsed(log: string, nonce: u64) {
    || StartsWith(log, Numbered(INVALID, nonce, ALREADY_USED))
    || StartsWith(log, Numbered(INVALID, nonce, BELOW_BASE))
    || EndsWith(log, Spent(nonce))
  }

  /** What a refusal says of the nonce its transaction was signed under. */
  function RefusalOutcome(log: string, nonce: u64): NonceOutcome {
    var trimmed := Trim(log);
    if SaysHeld(trimmed, nonce) then Held else if SaysUsed(trimmed, nonce) then Used else Free
  }

  /** The node's own refusals of a nonce, and whatever text follows. */
  datatype NodeLog =
    | HeldLog(nonce: u64, did: string, tail: string)
    | UsedLog(nonce: u64, tail: string)
    | BaseLog(nonce: u64, tail: string)

  function LogStart(log: NodeLog): string {
    match log
    case HeldLog(nonce, did, _) => Numbered("Nonce ", nonce, "of " + (did + " " + "is held by a pending transaction"))
    case UsedLog(nonce, _) => Numbered("Invalid nonce: ", nonce, "already used")
    case BaseLog(nonce, _) => Numbered("Invalid nonce: ", nonce, "<= base nonce")
  }

  function LogText(log: NodeLog): string {
    LogStart(log) + log.tail
  }

  predicate NoWhitespace(s: string) {
    forall i :: 0 <= i < |s| ==> !IsWhitespace(s[i])
  }

  lemma {:induction false} AfterWhitespaceSkips(did: string, rest: string)
    requires NoWhitespace(did)
    ensures AfterWhitespace(did + " " + rest) == Some(rest)
  {
    if did == "" {
      assert did + " " + rest == [' '] + rest;
    } else {
      assert (did + " " + rest)[1..] == did[1..] + " " + rest;
      AfterWhitespaceSkips(did[1..], rest);
    }
  }

  lemma NumberedAppends(heading: string, nonce: u64, x: string, y: string)
    ensures Numbered(heading, nonce, x) + y == Numbered(heading, nonce, x + y)
  {
  }

  /** The number after a heading is determined by the text. */
  lemma NumberIsRead(heading: string, n: u64, x: string, m: u64, y: string)
    requires StartsWith(Numbered(heading, n, x), Numbered(heading, m, y))
    ensures n == m
  {
    var after := Numbered(heading, n, x)[|Numbered(heading, m, y)|..];
    assert Numbered(heading, n, x) == Numbered(heading, m, y) + after;
    NumberedAppends(heading, m, y, after);
    var s, t := Decimal(n) + " " + x, Decimal(m) + " " + (y + after);
    assert (heading + s)[|heading|..] == s && (heading + t)[|heading|..] == t;
    DecimalExcludes(n, ' ');
    DecimalExcludes(m, ' ');
    UniqueSplit(Decimal(n), x, Decimal(m), y + after, ' ');
    DecimalInjective(n, m);
  }

  lemma FirstLetter(s: string, heading: string, nonce: u64, rest: string)
    requires heading != "" && StartsWith(s, Numbered(heading, nonce, rest))
    ensures s != "" && s[0] == heading[0]
  {
    assert s[..|Numbered(heading, nonce, rest)|][0] == s[0];
  }

  lemma StartsOtherwise(s: string, heading: string, nonce: u64, rest: string)
    requires heading != "" && (s == "" || s[0] != heading[0])
    ensures !StartsWith(s, Numbered(heading, nonce, rest))
  {
    if StartsWith(s, Numbered(heading, nonce, rest)) {
      FirstLetter(s, heading, nonce, rest);
    }
  }

  lemma TrimmedLogStarts(log: NodeLog)
    ensures StartsWith(Trim(LogText(log)), LogStart(log))
  {
    var start := LogStart(log);
    assert start[|start| - 1] == 'n' || start[|start| - 1] == 'd' || start[|start| - 1] == 'e';
    TrimKeepsPrefix(start, log.tail);
  }

  lemma OwnHeldIsRead(nonce: u64, did: string, rest: string)
    requires NoWhitespace(did)
    ensures SaysHeld(Numbered(NONCE, nonce, OF + (did + " " + HELD)) + rest, nonce)
  {
    var start, after := Numbered(NONCE, nonce, OF), did + " " + HELD;
    var s := Numbered(NONCE, nonce, OF + after) + rest;
    NumberedAppends(NONCE, nonce, OF, after);
    assert s == start + (did + " " + (HELD + rest));
    assert s[|start|..] == did + " " + (HELD + rest);
    AfterWhitespaceSkips(did, HELD + rest);
  }

  lemma NotHeld(s: string, nonce: u64)
    requires s == "" || s[0] != 'N'
    ensures !SaysHeld(s, nonce)
  {
    StartsOtherwise(s, NONCE, nonce, OF);
  }

  /** The node's refusal of this very nonce is read as it is meant. */
  lemma OwnRefusalIsRead(log: NodeLog)
    requires log.HeldLog? ==> NoWhitespace(log.did)
    ensures RefusalOutcome(LogText(log), log.nonce) == if log.HeldLog? then Held else Used
  {
    hide SaysHeld, Numbered;
    TrimmedLogStarts(log);
    var trimmed := Trim(LogText(log));
    var rest := trimmed[|LogStart(log)|..];
    assert trimmed == LogStart(log) + rest;
    if log.HeldLog? {
      OwnHeldIsRead(log.nonce, log.did, rest);
    } else {
      FirstLetter(trimmed, INVALID, log.nonce, if log.UsedLog? then ALREADY_USED else BELOW_BASE);
      NotHeld(trimmed, log.nonce);
    }
  }

  lemma OtherIsNotHeld(log: NodeLog, s: string, nonce: u64)
    requires log.nonce != nonce && StartsWith(s, LogStart(log))
    ensures !SaysHeld(s, nonce)
  {
    hide Numbered;
    var rest := s[|LogStart(log)|..];
    assert s == LogStart(log) + rest;
    if log.HeldLog? {
      var x := OF + (log.did + " " + HELD);
      NumberedAppends(NONCE, log.nonce, x, rest);
      if StartsWith(s, Numbered(NONCE, nonce, OF)) {
        NumberIsRead(NONCE, log.nonce, x + rest, nonce, OF);
      }
    } else {
      FirstLetter(s, INVALID, log.nonce, if log.UsedLog? then ALREADY_USED else BELOW_BASE);
      NotHeld(s, nonce);
    }
  }

  lemma OtherIsNotInvalid(log: NodeLog, s: string, nonce: u64, why: string)
    requires log.nonce != nonce && StartsWith(s, LogStart(log))
    ensures !StartsWith(s, Numbered(INVALID, nonce, why))
  {
    hide Numbered;
    var rest := s[|LogStart(log)|..];
    assert s == LogStart(log) + rest;
    if log.HeldLog? {
      FirstLetter(s, NONCE, log.nonce, OF + (log.did + " " + HELD));
      StartsOtherwise(s, INVALID, nonce, why);
    } else {
      var said := if log.UsedLog? then ALREADY_USED else BELOW_BASE;
      NumberedAppends(INVALID, log.nonce, said, rest);
      if StartsWith(s, Numbered(INVALID, nonce, why)) {
        NumberIsRead(INVALID, log.nonce, said + rest, nonce, why);
      }
    }
  }

  /** A log that starts with a refusal of another nonce says nothing of this one, unless its end does. */
  lemma OtherRefusalIsNotRead(log: NodeLog, nonce: u64)
    requires log.nonce != nonce
    requires !EndsWith(Trim(LogText(log)), Spent(nonce))
    ensures RefusalOutcome(LogText(log), nonce) == Free
  {
    hide SaysHeld, LogStart, LogText, Numbered, StartsWith;
    TrimmedLogStarts(log);
    OtherIsNotHeld(log, Trim(LogText(log)), nonce);
    OtherIsNotInvalid(log, Trim(LogText(log)), nonce, ALREADY_USED);
    OtherIsNotInvalid(log, Trim(LogText(log)), nonce, BELOW_BASE);
  }

  /** A refusal that ends by saying this nonce is spent never gives it back. */
  lemma SpentRefusalIsRead(head: string, nonce: u64)
    ensures !RefusalOutcome(head + Spent(nonce), nonce).Free?
  {
    TrimKeepsSuffix(head, Spent(nonce));
  }

  /** A log ends by saying so of one nonce only. */
  lemma SpentNamesOneNonce(log: string, m: u64, n: u64)
    requires EndsWith(log, Spent(m)) && EndsWith(log, Spent(n))
    ensures m == n
  {
    SpentEnd(log, m);
    SpentEnd(log, n);
    var x: string, y: string :|
      && log == x + [' '] + Decimal(m) + " spent)"
      && log == y + [' '] + Decimal(n) + " spent)";
    var s, t := x + [' '] + Decimal(m), y + [' '] + Decimal(n);
    assert s == log[..|log| - 7] == t;
    DecimalExcludes(m, ' ');
    DecimalExcludes(n, ' ');
    UniqueLastSplit(x, Decimal(m), y, Decimal(n), ' ');
    DecimalInjective(m, n);
  }

  lemma SpentEnd(log: string, nonce: u64)
    requires EndsWith(log, Spent(nonce))
    ensures exists x: string :: log == x + [' '] + Decimal(nonce) + " spent)"
  {
    var head := log[..|log| - |Spent(nonce)|];
    assert log == head + Spent(nonce);
    assert log == (head + "(nonce") + [' '] + Decimal(nonce) + " spent)";
  }

  /** A log that only quotes such refusals, and starts and ends otherwise, says nothing of the nonce. */
  lemma QuotedRefusalIsNotRead(log: string, nonce: u64)
    requires var s := Trim(log); s == "" || (s[0] != 'N' && s[0] != 'I')
    requires !EndsWith(Trim(log), Spent(nonce))
    ensures RefusalOutcome(log, nonce) == Free
  {
    NotHeld(Trim(log), nonce);
    StartsOtherwise(Trim(log), INVALID, nonce, ALREADY_USED);
    StartsOtherwise(Trim(log), INVALID, nonce, BELOW_BASE);
  }

  // ---------- Reading CometBFT's answer ----------

  /** What came back of one `broadcast_tx_sync`. */
  datatype Response =
    | NotConnected
    | Broken
    | RpcError(message: string, data: string)
    | CheckTx(code: nat, log: string)
    | NoResult

  datatype Answer =
    | Admitted
    | Refused(log: string)
    | NoAnswer
    | NotTaken

  const IN_CACHE := "tx already exists in cache"

  function LowerChar(c: char): char {
    if 'A' <= c <= 'Z' then c - 'A' + 'a' else c
  }

  function Lower(s: string): string {
    if s == "" then "" else [LowerChar(s[0])] + Lower(s[1..])
  }

  const CAPITALS := "ABCDEFGHIJKLMNOPQRSTUVWXYZ"
  const SMALL_LETTERS := "abcdefghijklmnopqrstuvwxyz"

  lemma {:induction false} LowerAt(s: string, i: nat)
    requires i < |s|
    ensures |Lower(s)| == |s| && Lower(s)[i] == LowerChar(s[i])
  {
    if i > 0 {
      LowerAt(s[1..], i - 1);
    } else if |s| > 1 {
      LowerAt(s[1..], 0);
    }
  }

  lemma LettersInOrder(letter: nat)
    requires letter < 26
    ensures CAPITALS[letter] == 'A' + letter as char && SMALL_LETTERS[letter] == 'a' + letter as char
  {
  }

  /** Each capital becomes its small letter, and nothing else changes. */
  lemma LowerLetters(s: string, i: nat, letter: nat)
    requires i < |s| && letter < 26
    ensures |Lower(s)| == |s|
    ensures s[i] == CAPITALS[letter] ==> Lower(s)[i] == SMALL_LETTERS[letter]
    ensures s[i] !in CAPITALS ==> Lower(s)[i] == s[i]
  {
    hide Lower;
    LowerAt(s, i);
    LettersInOrder(letter);
    if 'A' <= s[i] <= 'Z' {
      var k := (s[i] - 'A') as int;
      LettersInOrder(k);
      assert s[i] == CAPITALS[k];
    }
  }

  predicate MempoolRefuses(text: string) {
    Contains(Lower(text), "mempool is full") || Contains(Lower(text), "tx too large")
  }

  function Classify(response: Response): Answer {
    match response
    case NotConnected => NotTaken
    case Broken => NoAnswer
    case RpcError(message, data) =>
      if EndsWith(TrimEnd(data), IN_CACHE) || EndsWith(TrimEnd(message), IN_CACHE) then Admitted
      else if MempoolRefuses(message) || MempoolRefuses(data) then NotTaken
      else NoAnswer
    case CheckTx(code, log) => if code != 0 then Refused(log) else Admitted
    case NoResult => NoAnswer
  }

  /** Bytes CometBFT already holds count as admitted, wherever in the error it says so and whatever else it says. */
  lemma CachedBytesAreAdmitted(head: string, blank: string, other: string)
    requires forall i :: 0 <= i < |blank| ==> IsWhitespace(blank[i])
    ensures Classify(RpcError(other, head + IN_CACHE + blank)) == Admitted
    ensures Classify(RpcError(head + IN_CACHE + blank, other)) == Admitted
  {
    var s := head + IN_CACHE;
    assert s[|s| - 1] == IN_CACHE[|IN_CACHE| - 1] == 'e';
    TrimEndDrops(s, blank);
    assert s[|s| - |IN_CACHE|..] == IN_CACHE;
  }

  lemma {:induction false} LowerParts(a: string, b: string)
    ensures Lower(a + b) == Lower(a) + Lower(b)
  {
    if a == "" {
      assert a + b == b;
    } else {
      assert (a + b)[1..] == a[1..] + b;
      LowerParts(a[1..], b);
    }
  }

  /** A full mempool, or one the bytes are too large for, took nothing, however the words are cased. */
  lemma MempoolTookNothing(head: string, words: string, tail: string, other: string)
    requires Lower(words) == "mempool is full" || Lower(words) == "tx too large"
    requires !EndsWith(TrimEnd(head + words + tail), IN_CACHE) && !EndsWith(TrimEnd(other), IN_CACHE)
    ensures Classify(RpcError(other, head + words + tail)) == Classify(RpcError(head + words + tail, other)) == NotTaken
  {
    var said, text := Lower(words), Lower(head + words + tail);
    LowerParts(head + words, tail);
    LowerParts(head, words);
    var i := |Lower(head)|;
    assert text[i..] == said + Lower(tail);
    assert text[i..][..|said|] == said;
    assert Contains(text, said);
  }

  // ---------- Settling ----------

  /** The account once an answer for `nonce` is settled; `first` when nothing was sent before. */
  function AfterAnswer(a: Account, nonce: u64, answer: Answer, first: bool, now: Time): Account {
    match answer
    case Admitted => AfterSettle(a, nonce, Accepted, now)
    case Refused(log) => AfterSettle(a, nonce, RefusalOutcome(log, nonce), now)
    case NoAnswer => AfterSettle(a, nonce, Unknown, now)
    case NotTaken => if first then AfterRelease(a, nonce) else a
  }

  /** What the caller is told; only an unknown outcome hands it the signed bytes to send again. */
  datatype Outcome = Landed | Failed(refusal: NonceOutcome) | NothingSent | SubmissionUnknown

  function Told(nonce: u64, answer: Answer, first: bool): Outcome {
    match answer
    case Admitted => Landed
    case Refused(log) => Failed(RefusalOutcome(log, nonce))
    case NoAnswer => SubmissionUnknown
    case NotTaken => if first then NothingSent else SubmissionUnknown
  }

  /** The nonce is dead, or held from `now`. */
  lemma HeldFromNow(a: Account, nonce: u64, now: Time)
    ensures var after := AfterHold(a, nonce, now);
            nonce <= after.base || nonce in after.used || (nonce in after.handed && after.handed[nonce] == now)
  {
  }

  /** What the caller is told of each response, and what becomes of the nonce. */
  lemma ResponseSettles(a: Account, nonce: u64, response: Response, first: bool, now: Time)
    ensures var (after, told) := (AfterAnswer(a, nonce, Classify(response), first, now),
                                  Told(nonce, Classify(response), first));
            var held := nonce <= after.base || nonce in after.used
                        || (nonce in after.handed && after.handed[nonce] == now);
            match response
            case CheckTx(code, log) =>
              if code == 0 then told == Landed && held
              else
                && told == Failed(RefusalOutcome(log, nonce))
                && (told.refusal == Held ==> held)
                && (told.refusal == Used ==> (nonce <= after.base || nonce in after.used) && nonce !in after.handed)
                && (told.refusal == Free ==> after == a.(handed := a.handed - {nonce}))
                && told.refusal != Accepted && told.refusal != Unknown
            case Broken => told == SubmissionUnknown && held
            case NoResult => told == SubmissionUnknown && held
            case NotConnected =>
              if first then told == NothingSent && after == a.(handed := a.handed - {nonce})
              else told == SubmissionUnknown && after == a
            case RpcError(message, data) =>
              var cached := EndsWith(TrimEnd(data), "tx already exists in cache")
                            || EndsWith(TrimEnd(message), "tx already exists in cache");
              var untaken := Contains(Lower(message), "mempool is full") || Contains(Lower(message), "tx too large")
                             || Contains(Lower(data), "mempool is full") || Contains(Lower(data), "tx too large");
              if cached then told == Landed && held
              else if !untaken then told == SubmissionUnknown && held
              else if first then told == NothingSent && after == a.(handed := a.handed - {nonce})
              else told == SubmissionUnknown && after == a
  {
    hide AfterHold, RefusalOutcome, EndsWith, Contains, TrimEnd, Lower;
    HeldFromNow(a, nonce, now);
    match response
    case CheckTx(code, log) => RefusalKinds(log, nonce);
    case _ =>
  }

  lemma RefusalKinds(log: string, nonce: u64)
    ensures var outcome := RefusalOutcome(log, nonce);
            outcome == Held || outcome == Used || outcome == Free
  {
  }

  class ConsensusClient {
    const nonces: NonceTracker

    constructor (nonces: NonceTracker)
      ensures this.nonces == nonces
    {
      this.nonces := nonces;
    }

    function Of(did: string): Account
      reads nonces
    {
      nonces.Of(did)
    }

    /** Settles the nonce by what CometBFT answered; the request and the answer are one `response`. */
    method SendSigned(did: string, nonce: u64, response: Response, releaseUnsent: bool, now: Time) returns (r: Outcome)
      requires nonces.Valid() && did in nonces.accounts
      modifies nonces
      ensures nonces.Valid()
      ensures nonces.accounts
           == old(nonces.accounts)[did := AfterAnswer(old(Of(did)), nonce, Classify(response), releaseUnsent, now)]
      ensures r == Told(nonce, Classify(response), releaseUnsent)
    {
      var answer := Classify(response);
      match answer {
        case NotTaken =>
          if !releaseUnsent {
            assert nonces.accounts == nonces.accounts[did := nonces.accounts[did]];
            return SubmissionUnknown;
          }
          nonces.Release(did, nonce);
          return NothingSent;
        case Admitted =>
          nonces.Settle(did, nonce, Accepted, now);
          return Landed;
        case Refused(log) =>
          var outcome := RefusalOutcome(log, nonce);
          nonces.Settle(did, nonce, outcome, now);
          return Failed(outcome);
        case NoAnswer =>
          nonces.Settle(did, nonce, Unknown, now);
          return SubmissionUnknown;
      }
    }

    /** Encodes and sends a write signed under a nonce it holds; one that isn't encoded gives it back. */
    method SubmitUnder(did: string, nonce: u64, encoded: bool, response: Response, settled: Time)
      returns (r: Option<Outcome>)
      requires nonces.Valid() && did in nonces.accounts
      modifies nonces
      ensures nonces.Valid()
      ensures r == if encoded then Some(Told(nonce, Classify(response), true)) else None
      ensures nonces.accounts
           == old(nonces.accounts)[did := if encoded
              then AfterAnswer(old(Of(did)), nonce, Classify(response), true, settled)
              else AfterRelease(old(Of(did)), nonce)]
    {
      hide Classify, Told, AfterAnswer;
      if !encoded {
        nonces.Release(did, nonce);
        return None;
      }
      var outcome := SendSigned(did, nonce, response, true, settled);
      return Some(outcome);
    }

    /** A new write, from its nonce on; without bytes to send, the nonce is free again. */
    method SubmitWithNonce(did: string, state: AccountNonceState, built: bool, encoded: bool, response: Response,
                           taken: Time, settled: Time)
      returns (r: Option<(u64, Outcome)>)
      requires nonces.Valid()
      modifies nonces
      ensures nonces.Valid()
      ensures var (a, nonce) := AfterTake(old(Of(did)), state, taken);
              && (nonce.None? ==> r == None && nonces.accounts == old(nonces.accounts)[did := a])
              && (nonce.Some? && !(built && encoded) ==>
                    r == None && nonces.accounts == old(nonces.accounts)[did := AfterRelease(a, nonce.value)])
              && (nonce.Some? && built && encoded ==>
                    && r == Some((nonce.value, Told(nonce.value, Classify(response), true)))
                    && nonces.accounts
                       == old(nonces.accounts)[did := AfterAnswer(a, nonce.value, Classify(response), true, settled)])
    {
      hide Classify, Told, AfterAnswer, AfterTake;
      var nonce := nonces.Take(did, state, taken);
      if nonce.None? {
        return None;
      }
      if !built {
        nonces.Release(did, nonce.value);
        return None;
      }
      var outcome := SubmitUnder(did, nonce.value, encoded, response, settled);
      return if outcome.Some? then Some((nonce.value, outcome.value)) else None;
    }

    /** A write under a nonce the caller chose. */
    method SubmitWithGivenNonce(did: string, nonce: u64, encoded: bool, response: Response, held: Time, settled: Time)
      returns (r: Option<Outcome>)
      requires nonces.Valid()
      modifies nonces
      ensures nonces.Valid()
      ensures r == if encoded then Some(Told(nonce, Classify(response), true)) else None
      ensures var a := AfterHold(old(Of(did)), nonce, held);
              nonces.accounts
              == old(nonces.accounts)[did := if encoded then AfterAnswer(a, nonce, Classify(response), true, settled)
              else AfterRelease(a, nonce)]
    {
      hide Classify, Told, AfterAnswer, AfterHold;
      nonces.Hold(did, nonce, held);
      r := SubmitUnder(did, nonce, encoded, response, settled);
    }

    /** The same bytes again, under the same nonce. */
    method Rebroadcast(did: string, nonce: u64, response: Response, held: Time, settled: Time) returns (r: Outcome)
      requires nonces.Valid()
      modifies nonces
      ensures nonces.Valid()
      ensures nonces.accounts
           == old(nonces.accounts)[did := AfterAnswer(AfterHold(old(Of(did)), nonce, held), nonce, Classify(response),
                                                      false, settled)]
      ensures r == Told(nonce, Classify(response), false)
    {
      hide Classify, Told, AfterAnswer, AfterHold;
      nonces.Hold(did, nonce, held);
      r := SendSigned(did, nonce, response, false, settled);
    }
  }
}
