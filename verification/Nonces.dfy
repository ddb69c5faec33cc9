/**
 A client's record of nonces for each DID it signs for: a tracker under a lock, each method one atomic
 step. Clock readings are arguments; time is in nanoseconds.
 */
module Nonces {
  import opened Arithmetic
  import opened ByteStrings
  import opened Wrappers

  type Time = nat

  const NONCE_WINDOW: nat := 24
  const NONCE_HOLD: nat := 120_000_000_000

  function SaturatingAdd(a: u64, b: nat): u64 {
    if a + b <= U64_MAX then a + b else U64_MAX
  }

  // ---------- What the chain reports ----------

  predicate Bit(word: nat, i: nat) {
    if i == 0 then word % 2 == 1 else Bit(word / 2, i - 1)
  }

  /** The base, and a word whose bit `i` marks `base + 1 + i` used. */
  datatype AccountNonceState = AccountNonceState(base: u64, used: nat) {
    predicate IsUsed(nonce: u64) {
      nonce <= base || (nonce - base - 1 < NONCE_WINDOW && Bit(used, nonce - base - 1))
    }

    /** What the bits mark used; a nonce past the last u64 becomes the last. */
    function UsedNonces(): set<u64> {
      set i: nat | i < NONCE_WINDOW && Bit(used, i) :: SaturatingAdd(base, 1 + i)
    }
  }

  function FromBytes(value: Bytes): Option<AccountNonceState> {
    if value == [] then Some(AccountNonceState(0, 0))
    else if |value| == 8 || |value| == 11 then
      assert Pow256(8) == U64_MAX + 1;
      Some(AccountNonceState(BigEndian(value[..8]), LittleEndian(value[8..])))
    else None
  }

  function LittleEndian(s: Bytes): nat {
    if s == [] then 0 else s[0] + 256 * LittleEndian(s[1..])
  }

  /** Below bit `k`, a sum of a `k`-bit number and a multiple of `2^k` has the first's bits, from there the second's. */
  lemma {:induction false} BitOfSum(low: nat, high: nat, i: nat, k: nat)
    requires low < Pow2(k)
    ensures Bit(low + Pow2(k) * high, i) == if i < k then Bit(low, i) else Bit(high, i - k)
  {
    if k > 0 {
      var rest := Pow2(k - 1) * high;
      assert Pow2(k) * high == 2 * rest;
      assert (low + 2 * rest) / 2 == low / 2 + rest;
      if i > 0 {
        BitOfSum(low / 2, high, i - 1, k - 1);
      }
    }
  }

  /** The word's bits are the answer's bytes' bits, in order, each byte's lowest first. */
  lemma {:induction false} UsedBits(s: Bytes, i: nat)
    requires i < 8 * |s|
    ensures Bit(LittleEndian(s), i) == Bit(s[i / 8], i % 8)
  {
    assert Pow2(8) == 256;
    BitOfSum(s[0], LittleEndian(s[1..]), i, 8);
    if i >= 8 {
      UsedBits(s[1..], i - 8);
      assert s[1..][(i - 8) / 8] == s[i / 8];
    }
  }

  /** The chain's answer of a base and 3 bytes, or none, is read as that base, and as the nonces its bits mark. */
  lemma StateIsRead(base: u64, bits: Bytes, n: u64)
    requires |bits| == 3 || bits == []
    ensures var state := FromBytes(ToBigEndian(base, 8) + bits);
            && state.Some? && state.value.base == base
            && (state.value.IsUsed(n) <==>
                n <= base || (n - base <= 24 && bits != [] && Bit(bits[(n - base - 1) / 8], (n - base - 1) % 8)))
  {
    hide Bit, LittleEndian, BigEndian, ToBigEndian;
    var value := ToBigEndian(base, 8) + bits;
    assert value[..8] == ToBigEndian(base, 8) && value[8..] == bits;
    EightBytes();
    BigEndianRoundTrip(base, 8);
    if base < n <= base + 24 {
      if bits == [] {
        NoBits(n - base - 1);
        assert bits == [];
      } else {
        UsedBits(bits, n - base - 1);
      }
    }
  }

  lemma NoBits(i: nat)
    ensures !Bit(LittleEndian([]), i)
  {
    ZeroHasNoBits(i);
  }

  lemma {:induction false} ZeroHasNoBits(i: nat)
    ensures !Bit(0, i)
  {
    if i > 0 {
      ZeroHasNoBits(i - 1);
    }
  }

  /** No answer is an account with nothing used, and an answer of any other length is none at all. */
  lemma OtherAnswers(value: Bytes)
    ensures value == [] ==> FromBytes(value) == Some(AccountNonceState(0, 0))
    ensures value != [] && |value| != 8 && |value| != 11 ==> FromBytes(value) == None
  {
  }

  lemma EightBytes()
    ensures Pow256(8) == U64_MAX + 1
  {
    assert Pow256(8) == 256 * (256 * (256 * (256 * Pow256(4))));
    assert Pow256(4) == U32_LIMIT;
  }

  // ---------- One account ----------

  /** How a submission ended, for its nonce. */
  datatype NonceOutcome = Accepted | Free | Held | Used | Unknown

  datatype Account = Account(base: u64, used: set<u64>, handed: map<u64, Time>) {
    /** No transaction can run under the nonce any more, as far as the client knows. */
    predicate Dead(nonce: u64) {
      nonce <= base || nonce in used
    }

    predicate Valid() {
      && (forall n :: n in used ==> n > base)
      && (forall n :: n in handed ==> n !in used && (n > base || base == U64_MAX))
    }

    predicate Window(nonce: u64) {
      base < nonce <= base + NONCE_WINDOW
    }

    /** The nonce can be handed out. */
    predicate Available(nonce: u64) {
      Window(nonce) && !Dead(nonce) && nonce !in handed
    }
  }

  const NEW_ACCOUNT := Account(0, {}, map[])

  /** A reading before `at` counts as no time at all. */
  function Since(now: Time, at: Time): Time {
    if now < at then 0 else now - at
  }

  /** Takes an answer of the chain in, and forgets nonces that became useless to keep: dead ones, and old holds. */
  function Refresh(a: Account, state: Option<AccountNonceState>, now: Time): Account {
    var base := if state.Some? && state.value.base > a.base then state.value.base else a.base;
    var merged := a.used + if state.Some? then state.value.UsedNonces() else {};
    var used := set n | n in merged && n > base;
    var handed := map n | n in a.handed && n > base && n !in used && Since(now, a.handed[n]) < NONCE_HOLD ::
                    a.handed[n];
    Account(base, used, handed)
  }

  /** The lowest of `from..=last` that is neither used nor handed out. */
  function LowestFree(a: Account, from: u64, last: u64): Option<u64>
    decreases last + 1 - from
  {
    if from > last then None
    else if from !in a.used && from !in a.handed then Some(from)
    else if from == last then None
    else LowestFree(a, from + 1, last)
  }

  function AfterTake(a: Account, state: AccountNonceState, now: Time): (Account, Option<u64>) {
    var current := Refresh(a, Some(state), now);
    var nonce := LowestFree(current, SaturatingAdd(current.base, 1), SaturatingAdd(current.base, NONCE_WINDOW));
    if nonce.Some? then (current.(handed := current.handed[nonce.value := now]), nonce) else (current, None)
  }

  function AfterHold(a: Account, nonce: u64, now: Time): Account {
    var current := Refresh(a, None, now);
    if current.Dead(nonce) then current else current.(handed := current.handed[nonce := now])
  }

  function AfterRelease(a: Account, nonce: u64): Account {
    a.(handed := a.handed - {nonce})
  }

  function AfterSettle(a: Account, nonce: u64, outcome: NonceOutcome, now: Time): Account {
    match outcome
    case Free => AfterRelease(a, nonce)
    case Used => AfterRelease(a, nonce).(used := if nonce > a.base then a.used + {nonce} else a.used)
    case _ => AfterHold(a, nonce, now)
  }

  // ---------- The tracker ----------

  class NonceTracker {
    var accounts: map<string, Account>

    constructor ()
      ensures accounts == map[]
    {
      accounts := map[];
    }

    /** The account of `did`, new if nothing is known of it. */
    function Of(did: string): Account
      reads this
    {
      if did in accounts then accounts[did] else NEW_ACCOUNT
    }

    ghost predicate Valid()
      reads this
    {
      forall did :: did in accounts ==> accounts[did].Valid()
    }

    /** A nonce for a new write: the least that is free, if one is. */
    method Take(did: string, state: AccountNonceState, now: Time) returns (r: Option<u64>)
      requires Valid()
      modifies this
      ensures Valid()
      ensures (accounts, r) == (old(accounts)[did := AfterTake(old(Of(did)), state, now).0],
                                AfterTake(old(Of(did)), state, now).1)
    {
      ghost var before := Of(did);
      var account := Refresh(Of(did), Some(state), now);
      var last := SaturatingAdd(account.base, NONCE_WINDOW);
      var nonce := SaturatingAdd(account.base, 1);
      r := None;
      label scan:
      while true
        invariant nonce <= last
        invariant LowestFree(account, SaturatingAdd(account.base, 1), last) == LowestFree(account, nonce, last)
        decreases last - nonce
      {
        if nonce !in account.used && nonce !in account.handed {
          account := account.(handed := account.handed[nonce := now]);
          r := Some(nonce);
          break;
        }
        if nonce == last {
          break;
        }
        nonce := nonce + 1;
      }
      assert (account, r) == AfterTake(before, state, now);
      TakeIsValid(before, state, now);
      accounts := accounts[did := account];
    }

    /** Marks `nonce` taken from now. */
    method Hold(did: string, nonce: u64, now: Time)
      requires Valid()
      modifies this
      ensures Valid() && accounts == old(accounts)[did := AfterHold(old(Of(did)), nonce, now)]
    {
      HoldIsValid(Of(did), nonce, now);
      var account := Refresh(Of(did), None, now);
      if nonce > account.base && nonce !in account.used {
        account := account.(handed := account.handed[nonce := now]);
      }
      accounts := accounts[did := account];
    }

    /** Gives back `nonce`. */
    method Release(did: string, nonce: u64)
      requires Valid()
      modifies this
      ensures Valid()
      ensures accounts == if did in old(accounts) then old(accounts)[did := AfterRelease(old(Of(did)), nonce)]
                          else old(accounts)
    {
      if did in accounts {
        accounts := accounts[did := accounts[did].(handed := accounts[did].handed - {nonce})];
      }
    }

    /** Records what a submission left `nonce` as. */
    method Settle(did: string, nonce: u64, outcome: NonceOutcome, now: Time)
      requires Valid()
      modifies this
      ensures Valid()
      ensures accounts == if outcome.Free? && did !in old(accounts) then old(accounts)
                          else old(accounts)[did := AfterSettle(old(Of(did)), nonce, outcome, now)]
    {
      match outcome {
        case Accepted => Hold(did, nonce, now);
        case Held => Hold(did, nonce, now);
        case Unknown => Hold(did, nonce, now);
        case Free => Release(did, nonce);
        case Used =>
          var account := Of(did).(handed := Of(did).handed - {nonce});
          if nonce > account.base {
            account := account.(used := account.used + {nonce});
          }
          accounts := accounts[did := account];
      }
    }

    /** Whether `nonce` is handed out and its hold hasn't lapsed. */
    method IsHeld(did: string, nonce: u64, now: Time) returns (held: bool)
      requires Valid()
      modifies this
      ensures Valid()
      ensures accounts == if did in old(accounts) then old(accounts)[did := Refresh(old(Of(did)), None, now)]
                          else old(accounts)
      ensures held <==> nonce in Refresh(old(Of(did)), None, now).handed
      ensures held <==> var a := old(Of(did));
                        && nonce in a.handed && nonce > a.base && nonce !in a.used
                        && now < a.handed[nonce] + 120_000_000_000
    {
      if did !in accounts {
        return false;
      }
      accounts := accounts[did := Refresh(accounts[did], None, now)];
      held := nonce in accounts[did].handed;
    }
  }

  // ---------- What every step keeps ----------

  lemma TakeIsValid(a: Account, state: AccountNonceState, now: Time)
    ensures AfterTake(a, state, now).0.Valid()
  {
    var current := Refresh(a, Some(state), now);
    var first := SaturatingAdd(current.base, 1);
    LowestFreeIsLowest(current, first, SaturatingAdd(current.base, NONCE_WINDOW));
  }

  lemma HoldIsValid(a: Account, nonce: u64, now: Time)
    ensures AfterHold(a, nonce, now).Valid()
  {
  }

  lemma {:induction false} LowestFreeIsLowest(a: Account, from: u64, last: u64)
    ensures var r := LowestFree(a, from, last);
            && (r.Some? ==> from <= r.value <= last && r.value !in a.used && r.value !in a.handed
                            && forall n: u64 :: from <= n < r.value ==> n in a.used || n in a.handed)
            && (r.None? ==> forall n: u64 :: from <= n <= last ==> n in a.used || n in a.handed)
    decreases last + 1 - from
  {
    if from < last && (from in a.used || from in a.handed) {
      LowestFreeIsLowest(a, from + 1, last);
    }
  }
}
