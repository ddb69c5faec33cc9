/** What any run of the tracker keeps: dead nonces stay dead, and no two live writes share a nonce. */
module NonceRuns {
  import opened Arithmetic
  import opened Wrappers
  import opened Nonces

  // ---------- One take ----------

  /** The account a take chooses from: what is known once the chain's answer is merged in. */
  function Merged(a: Account, state: AccountNonceState, now: Time): Account {
    Refresh(a, Some(state), now)
  }

  /** A take hands out the least available nonce, and fails exactly when none is. */
  lemma TakeIsLeast(a: Account, state: AccountNonceState, now: Time)
    requires Merged(a, state, now).base < U64_MAX
    ensures var (after, r) := AfterTake(a, state, now);
            var current := Merged(a, state, now);
            && (r.Some? <==> exists n: u64 :: current.Available(n))
            && (r.Some? ==> current.Available(r.value) && forall n: u64 :: current.Available(n) ==> r.value <= n)
            && after.base == current.base && after.used == current.used
            && after.handed == if r.Some? then current.handed[r.value := now] else current.handed
  {
    var current := Merged(a, state, now);
    var first, last := SaturatingAdd(current.base, 1), SaturatingAdd(current.base, NONCE_WINDOW);
    LowestFreeIsLowest(current, first, last);
    var r := LowestFree(current, first, last);
    if r.Some? {
      assert current.Available(r.value);
    }
  }

  /** In the window of the highest base known, used for neither the client nor the answer, and not in hand for 120 s. */
  predicate Free(a: Account, state: AccountNonceState, now: Time, n: u64) {
    && Max(a.base, state.base) < n <= Max(a.base, state.base) + 24
    && n !in a.used && !state.IsUsed(n)
    && !(n in a.handed && now < a.handed[n] + 120_000_000_000)
  }

  lemma FreeIsAvailable(a: Account, state: AccountNonceState, now: Time, n: u64)
    requires state.base + 24 <= U64_MAX
    ensures Merged(a, state, now).Available(n) <==> Free(a, state, now, n)
  {
    MergeKillsShown(a, state, now, n);
  }

  /** So a take hands out the least free nonce of the account and the answer, and fails when there is none. */
  lemma TakeIsLeastFree(a: Account, state: AccountNonceState, now: Time)
    requires a.base < U64_MAX && state.base + 24 <= U64_MAX
    ensures var r := AfterTake(a, state, now).1;
            && (r.Some? <==> exists n: u64 :: Free(a, state, now, n))
            && (r.Some? ==> Free(a, state, now, r.value) && forall n: u64 :: Free(a, state, now, n) ==> r.value <= n)
  {
    assert Merged(a, state, now).base < U64_MAX;
    hide Refresh, AfterTake;
    TakeIsLeast(a, state, now);
    forall n: u64
      ensures Merged(a, state, now).Available(n) <==> Free(a, state, now, n)
    {
      FreeIsAvailable(a, state, now, n);
    }
  }

  /**
   The window arithmetic saturates: at the last base, and only there, a take hands out a nonce that is
   already dead.
   */
  lemma TakeIsAliveBelowLastBase(a: Account, state: AccountNonceState, now: Time)
    requires AfterTake(a, state, now).1.Some?
    ensures Merged(a, state, now).Dead(AfterTake(a, state, now).1.value) <==> Merged(a, state, now).base == U64_MAX
  {
    var current := Merged(a, state, now);
    LowestFreeIsLowest(current, SaturatingAdd(current.base, 1), SaturatingAdd(current.base, NONCE_WINDOW));
  }

  /** At the last base a take never fails, though no nonce is left: it hands out the last nonce each time. */
  lemma LastBaseHandsOutDeadNonce(a: Account, state: AccountNonceState, now: Time)
    requires state.base == U64_MAX
    ensures AfterTake(a, state, now).1 == Some(U64_MAX) && Merged(a, state, now).Dead(U64_MAX)
  {
    var current := Merged(a, state, now);
    assert U64_MAX !in current.used && U64_MAX !in current.handed;
  }

  /** Merging in an answer kills exactly the nonces it shows used, short of the end of the u64s. */
  lemma MergeKillsShown(a: Account, state: AccountNonceState, now: Time, n: u64)
    requires state.base + NONCE_WINDOW <= U64_MAX
    ensures Merged(a, state, now).Dead(n) <==> a.Dead(n) || state.IsUsed(n)
  {
    if n > state.base && n - state.base - 1 < NONCE_WINDOW && Bit(state.used, n - state.base - 1) {
      var i: nat := n - state.base - 1;
      assert SaturatingAdd(state.base, 1 + i) == n;
      assert n in state.UsedNonces();
    }
  }

  // ---------- Runs ----------

  datatype Event =
    | TakeEvent(did: string, state: AccountNonceState, now: Time)
    | HoldEvent(did: string, nonce: u64, now: Time)
    | SettleEvent(did: string, nonce: u64, outcome: NonceOutcome, now: Time)
    | ReleaseEvent(did: string, nonce: u64)
    | IsHeldEvent(did: string, nonce: u64, now: Time)

  type Accounts = map<string, Account>

  function Of(accounts: Accounts, did: string): Account {
    if did in accounts then accounts[did] else NEW_ACCOUNT
  }

  function AccountAfter(a: Account, e: Event): Account {
    match e
    case TakeEvent(_, state, now) => AfterTake(a, state, now).0
    case HoldEvent(_, nonce, now) => AfterHold(a, nonce, now)
    case SettleEvent(_, nonce, outcome, now) => AfterSettle(a, nonce, outcome, now)
    case ReleaseEvent(_, nonce) => AfterRelease(a, nonce)
    case IsHeldEvent(_, _, now) => Refresh(a, None, now)
  }

  function After(accounts: Accounts, e: Event): Accounts {
    accounts[e.did := AccountAfter(Of(accounts, e.did), e)]
  }

  /** The accounts after the first `i` events. */
  function RunTo(start: Accounts, run: seq<Event>, i: nat): Accounts
    requires i <= |run|
  {
    if i == 0 then start else After(RunTo(start, run, i - 1), run[i - 1])
  }

  /** The nonce a take in the run hands out, if it is one and succeeds. */
  function Taken(start: Accounts, run: seq<Event>, i: nat): Option<u64>
    requires i < |run|
  {
    if run[i].TakeEvent? then AfterTake(Of(RunTo(start, run, i), run[i].did), run[i].state, run[i].now).1 else None
  }

  /** One step of any kind, with any answer of the chain however stale, revives no nonce and keeps the account valid. */
  lemma StepKeeps(a: Account, e: Event)
    requires a.Valid()
    ensures AccountAfter(a, e).Valid()
    ensures forall n: u64 :: a.Dead(n) ==> AccountAfter(a, e).Dead(n)
  {
    match e
    case TakeEvent(_, state, now) => TakeIsValid(a, state, now);
    case _ =>
  }

  /** The dead set of every DID only grows, over any run. */
  lemma {:induction false} DeadOnlyGrows(start: Accounts, run: seq<Event>, i: nat, j: nat, did: string)
    requires i <= j <= |run|
    requires forall d :: d in start ==> start[d].Valid()
    ensures Of(RunTo(start, run, j), did).Valid()
    ensures forall n: u64 :: Of(RunTo(start, run, i), did).Dead(n) ==> Of(RunTo(start, run, j), did).Dead(n)
    decreases j
  {
    if i < j {
      DeadOnlyGrows(start, run, i, j - 1, did);
      StepKeeps(Of(RunTo(start, run, j - 1), did), run[j - 1]);
    } else if j > 0 {
      DeadOnlyGrows(start, run, j - 1, j - 1, did);
      StepKeeps(Of(RunTo(start, run, j - 1), did), run[j - 1]);
    }
  }

  /** The event gives the nonce back. */
  predicate GivesBack(e: Event, did: string, n: u64) {
    e.did == did && ((e.ReleaseEvent? && e.nonce == n) || (e.SettleEvent? && e.nonce == n && e.outcome.Free?))
  }

  /** The event starts a hold of the nonce. */
  predicate Holds(e: Event, did: string, n: u64) {
    e.did == did && ((e.HoldEvent? && e.nonce == n)
                     || (e.SettleEvent? && e.nonce == n && !e.outcome.Free? && !e.outcome.Used?))
  }

  /** When the nonce taken by event `i` was last held by an event before `j`. */
  function LastHeld(run: seq<Event>, i: nat, j: nat, n: u64): Time
    requires i < j <= |run| && run[i].TakeEvent?
  {
    if j == i + 1 then run[i].now
    else if Holds(run[j - 1], run[i].did, n) then run[j - 1].now
    else LastHeld(run, i, j - 1, n)
  }

  predicate HasTime(e: Event) {
    !e.ReleaseEvent?
  }

  /** Readings of the clock don't go back in the order the lock is taken. */
  predicate TimeGoesOn(run: seq<Event>) {
    forall i, j :: 0 <= i < j < |run| && HasTime(run[i]) && HasTime(run[j]) ==> run[i].now <= run[j].now
  }

  /** Until it is given back, a taken nonce is dead, or held since its last hold, or was dropped once that lapsed. */
  predicate Guarded(a: Account, n: u64, last: Time, clock: Time) {
    a.Dead(n) || (n in a.handed && a.handed[n] == last) || clock >= last + NONCE_HOLD
  }

  /** The latest clock reading of the events `i..j`. */
  function Clock(run: seq<Event>, i: nat, j: nat): Time
    requires i < j <= |run| && run[i].TakeEvent?
  {
    if j == i + 1 then run[i].now
    else if HasTime(run[j - 1]) then run[j - 1].now
    else Clock(run, i, j - 1)
  }

  lemma {:induction false} ClockBounds(run: seq<Event>, i: nat, j: nat, n: u64)
    requires i < j <= |run| && run[i].TakeEvent? && TimeGoesOn(run)
    ensures LastHeld(run, i, j, n) <= Clock(run, i, j)
    ensures forall k :: j <= k < |run| && HasTime(run[k]) ==> Clock(run, i, j) <= run[k].now
    decreases j
  {
    if j > i + 1 {
      ClockBounds(run, i, j - 1, n);
    }
  }

  lemma {:induction false} TakenNonceIsGuarded(start: Accounts, run: seq<Event>, i: nat, j: nat, n: u64)
    requires i < j <= |run| && TimeGoesOn(run) && Taken(start, run, i) == Some(n)
    requires forall k :: i < k < j ==> !GivesBack(run[k], run[i].did, n)
    ensures Guarded(Of(RunTo(start, run, j), run[i].did), n, LastHeld(run, i, j, n), Clock(run, i, j))
    decreases j
  {
    var did := run[i].did;
    if j > i + 1 {
      TakenNonceIsGuarded(start, run, i, j - 1, n);
      ClockBounds(run, i, j - 1, n);
      var a, e := Of(RunTo(start, run, j - 1), did), run[j - 1];
      if e.did == did {
        GuardedStep(a, e, n, LastHeld(run, i, j - 1, n), Clock(run, i, j - 1));
      }
    }
  }

  lemma GuardedStep(a: Account, e: Event, n: u64, last: Time, clock: Time)
    requires Guarded(a, n, last, clock) && last <= clock
    requires !GivesBack(e, e.did, n) && (HasTime(e) ==> clock <= e.now)
    ensures Guarded(AccountAfter(a, e), n, if Holds(e, e.did, n) then e.now else last,
                    if HasTime(e) then e.now else clock)
  {
    if e.TakeEvent? {
      var current := Merged(a, e.state, e.now);
      LowestFreeIsLowest(current, SaturatingAdd(current.base, 1), SaturatingAdd(current.base, NONCE_WINDOW));
      assert AfterTake(a, e.state, e.now).0.Dead(n) <==> current.Dead(n);
    }
  }

  /**
   No two live writes share a nonce. In any run over any DIDs, if two takes hand out the same nonce of a
   DID, then between them it was given back, or its last hold is 120 s old.
   */
  lemma NoTwoLiveWritesShareNonce(start: Accounts, run: seq<Event>, i: nat, j: nat, n: u64)
    requires i < j < |run| && TimeGoesOn(run) && run[i].did == run[j].did
    requires Taken(start, run, i) == Some(n) && Taken(start, run, j) == Some(n)
    requires Merged(Of(RunTo(start, run, j), run[j].did), run[j].state, run[j].now).base < U64_MAX
    ensures || (exists k :: i < k < j && GivesBack(run[k], run[i].did, n))
            || run[j].now >= LastHeld(run, i, j, n) + 120_000_000_000
  {
    if forall k :: i < k < j ==> !GivesBack(run[k], run[i].did, n) {
      TakenNonceIsGuarded(start, run, i, j, n);
      ClockBounds(run, i, j, n);
      TakeIsLeast(Of(RunTo(start, run, j), run[j].did), run[j].state, run[j].now);
    }
  }
}
