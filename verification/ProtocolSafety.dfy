/** Safety of the submission protocol over every run. */
module ProtocolSafety {
  import opened Arithmetic
  import opened Wrappers
  import opened Nonces
  import opened Submissions
  import opened Protocol

  lemma TakenIsFree(a: Account, state: AccountNonceState, now: Time)
    requires Refresh(a, Some(state), now).base < U64_MAX
    ensures var (after, r) := AfterTake(a, state, now);
            && (forall n: u64 :: after.Dead(n) <==> a.Dead(n) || n <= state.base || n in state.UsedNonces())
            && (forall n: u64 :: n in a.handed && !after.Dead(n) && n !in Lapsing(a, now) ==> n in after.handed)
            && (r.Some? ==> r.value in after.handed && !after.Dead(r.value)
                            && (r.value in a.handed ==> r.value in Lapsing(a, now)))
  {
    var current := Refresh(a, Some(state), now);
    LowestFreeIsLowest(current, SaturatingAdd(current.base, 1), SaturatingAdd(current.base, NONCE_WINDOW));
  }

  /** What an event kills for the client is dead for the node. */
  lemma DeadAgrees(s: State, e: Event, n: u64)
    requires NodeInv(s) && Enabled(s, e) && Next(s, e).account.Dead(n)
    ensures Next(s, e).node.Dead(n)
  {
    hide RefusalOutcome, Told;
    if e.Write? {
      hide AfterTake;
      TakenIsFree(s.account, e.state, e.now);
    }
  }

  lemma NodeInvKept(s: State, e: Event)
    requires NodeInv(s) && Enabled(s, e)
    ensures NodeInv(Next(s, e))
  {
    forall n: u64 | Next(s, e).account.Dead(n)
      ensures Next(s, e).node.Dead(n)
    {
      DeadAgrees(s, e, n);
    }
    hide RefusalOutcome, Told, AfterTake, AfterAnswer, AfterHold, AfterRelease, Refresh;
  }

  /** Between two states of the account, no nonce outside `loose` stops being dead or held. */
  ghost predicate Keeps(a: Account, b: Account, loose: set<u64>) {
    forall n: u64 :: (a.Dead(n) ==> b.Dead(n)) && (n in a.handed && n !in loose ==> n in b.handed || b.Dead(n))
  }

  lemma SettleKeeps(a: Account, n: u64, outcome: NonceOutcome, now: Time)
    ensures Keeps(a, AfterSettle(a, n, outcome, now), Lapsing(a, now) + if outcome.Free? then {n} else {})
    ensures !outcome.Free? ==> n in AfterSettle(a, n, outcome, now).handed || AfterSettle(a, n, outcome, now).Dead(n)
  {
  }

  lemma AnswerKeeps(a: Account, c: Call, now: Time)
    requires c.answer.Some?
    ensures Keeps(a, AfterAnswer(a, c.tx.nonce, c.answer.value, c.first, now),
                  Lapsing(a, now) + if WouldGiveBack(c) then {c.tx.nonce} else {})
  {
    hide RefusalOutcome, AfterSettle, Lapsing;
    var n := c.tx.nonce;
    match c.answer.value
    case Admitted => SettleKeeps(a, n, Accepted, now);
    case Refused(log) => SettleKeeps(a, n, RefusalOutcome(log, n), now);
    case NoAnswer => SettleKeeps(a, n, Unknown, now);
    case NotTaken =>
  }

  // ---------- One nonce ----------

  lemma StakeBefore(s: State, e: Event, n: u64)
    requires Enabled(s, e) && AtStake(Next(s, e), n)
    ensures AtStake(s, n)
  {
    hide RefusalOutcome, Told, AfterTake, AfterAnswer, AfterHold, AfterRelease, Refresh;
  }

  /** An event keeps the nonce in the client's hands, takes it, or gives it back; a write takes one it doesn't hold. */
  lemma HandedAfter(s: State, e: Event, n: u64)
    requires NodeInv(s) && Enabled(s, e) && AtStake(Next(s, e), n)
    ensures n in s.account.handed && !GivesBack(s, e, n) ==> n in Next(s, e).account.handed
    ensures Takes(s, e, n) ==> n !in s.account.handed && n in Next(s, e).account.handed
    ensures e.Rebroadcast? && e.tx.nonce == n ==> n in Next(s, e).account.handed
  {
    hide RefusalOutcome, AfterTake, AfterAnswer, WouldGiveBack;
    NodeInvKept(s, e);
    assert !s.account.Dead(n) && !Next(s, e).account.Dead(n);
    match e
    case Write(state, now, _) => TakenIsFree(s.account, state, now);
    case Settles(call, now) => AnswerKeeps(s.account, s.calls[call], now);
    case _ =>
  }

  predicate Takes(s: State, e: Event, n: u64) {
    e.Write? && AfterTake(s.account, e.state, e.now).1 == Some(n)
  }

  /** The event gives the nonce back to the client. */
  predicate GivesBack(s: State, e: Event, n: u64)
    requires Enabled(s, e)
  {
    (e.BuildFails? || (e.Settles? && WouldGiveBack(s.calls[e.call]))) && s.calls[e.call].tx.nonce == n
  }

  /** An open call after an event was open before it, or is the one it starts. */
  lemma OpenBefore(s: State, e: Event, c: nat, n: u64)
    requires Enabled(s, e) && IsOpen(Next(s, e), c, n)
    ensures (IsOpen(s, c, n) && s.calls[c].tx == Next(s, e).calls[c].tx) || Starts(s, e, c, n)
    ensures Starts(s, e, c, n) ==> c !in s.calls && (e.Rebroadcast? ==> Next(s, e).calls[c] == Call(e.tx, false, None))
  {
    hide RefusalOutcome, Told, AfterTake, AfterAnswer, AfterHold, AfterRelease, Refresh;
  }

  predicate Starts(s: State, e: Event, c: nat, n: u64) {
    (e.Write? && Takes(s, e, n) && e.call == c) || (e.Rebroadcast? && e.tx.nonce == n && e.call == c)
  }

  lemma PendingBefore(s: State, e: Event, y: Tx, n: u64)
    requires Enabled(s, e) && IsPending(Next(s, e), y, n)
    ensures IsPending(s, y, n) || (e.NodeAdmits? && y == s.calls[e.call].tx && IsOpen(s, e.call, n))
  {
    hide RefusalOutcome, Told, AfterTake, AfterAnswer, AfterHold, AfterRelease, Refresh;
  }

  /** An event that starts a call under a nonce at stake finds nothing else there. */
  lemma StartsAlone(s: State, e: Event, c: nat, n: u64)
    requires NodeInv(s) && Enabled(s, e) && Disciplined(s, e)
    requires AtStake(Next(s, e), n) && NonceInv(s, n) && Starts(s, e, c, n)
    ensures !OpenUnder(s, n)
    ensures forall y :: IsPending(s, y, n) ==> e.Rebroadcast? && y == e.tx
  {
    hide RefusalOutcome, Told, AfterTake, AfterAnswer, AfterHold, AfterRelease, Refresh, OneOpen, OnePending, Matching;
    StakeBefore(s, e, n);
    HandedAfter(s, e, n);
  }

  lemma OneOpenKept(s: State, e: Event, n: u64)
    requires NodeInv(s) && Enabled(s, e) && Disciplined(s, e)
    requires AtStake(Next(s, e), n) && NonceInv(s, n)
    ensures OneOpen(Next(s, e), n)
  {
    hide Enabled, Next, RefusalOutcome, NodeInv;
    forall c, d | IsOpen(Next(s, e), c, n) && IsOpen(Next(s, e), d, n)
      ensures c == d
    {
      OpenBefore(s, e, c, n);
      OpenBefore(s, e, d, n);
      if Starts(s, e, c, n) {
        StartsAlone(s, e, c, n);
      } else if Starts(s, e, d, n) {
        StartsAlone(s, e, d, n);
      }
    }
  }

  lemma OnePendingKept(s: State, e: Event, n: u64)
    requires Enabled(s, e) && NonceInv(s, n)
    ensures OnePending(Next(s, e), n)
  {
    hide Enabled, Next, RefusalOutcome;
    forall x, y | IsPending(Next(s, e), x, n) && IsPending(Next(s, e), y, n)
      ensures x == y
    {
      PendingBefore(s, e, x, n);
      PendingBefore(s, e, y, n);
    }
  }

  /** A call that stays open beside a pending transaction of its own bytes still won't give the nonce back. */
  lemma StaysKeeping(s: State, e: Event, c: nat, n: u64)
    requires Enabled(s, e) && IsOpen(s, c, n) && IsOpen(Next(s, e), c, n)
    requires s.calls[c].tx in s.node.pending && !WouldGiveBack(s.calls[c])
    ensures !WouldGiveBack(Next(s, e).calls[c])
  {
    hide RefusalOutcome, Told, AfterTake, AfterAnswer, AfterHold, AfterRelease, Refresh;
  }

  lemma AdmittedIsClosed(s: State, e: Event, n: u64)
    requires Enabled(s, e) && e.NodeAdmits?
    ensures !IsOpen(Next(s, e), e.call, n)
  {
    hide RefusalOutcome;
  }

  lemma MatchingKept(s: State, e: Event, n: u64)
    requires NodeInv(s) && Enabled(s, e) && Disciplined(s, e)
    requires AtStake(Next(s, e), n) && NonceInv(s, n)
    ensures Matching(Next(s, e), n)
  {
    hide Enabled, Next, RefusalOutcome, NodeInv;
    forall c, y | IsOpen(Next(s, e), c, n) && IsPending(Next(s, e), y, n)
      ensures y == Next(s, e).calls[c].tx && !WouldGiveBack(Next(s, e).calls[c])
    {
      OpenBefore(s, e, c, n);
      PendingBefore(s, e, y, n);
      if Starts(s, e, c, n) {
        StartsAlone(s, e, c, n);
        assert e.Rebroadcast?;
      } else if IsPending(s, y, n) {
        StaysKeeping(s, e, c, n);
      } else {
        AdmittedIsClosed(s, e, n);
      }
    }
  }

  lemma HandedKept(s: State, e: Event, n: u64)
    requires NodeInv(s) && Enabled(s, e) && Disciplined(s, e)
    requires AtStake(Next(s, e), n) && NonceInv(s, n)
    requires OpenUnder(Next(s, e), n) || PendingUnder(Next(s, e), n)
    ensures n in Next(s, e).account.handed
  {
    hide Enabled, Next, RefusalOutcome, NodeInv;
    HandedAfter(s, e, n);
    if OpenUnder(Next(s, e), n) {
      var c :| IsOpen(Next(s, e), c, n);
      OpenBefore(s, e, c, n);
      if IsOpen(s, c, n) && GivesBack(s, e, n) {
        GivenBackIsGone(s, e, n);
      }
    } else {
      var y :| IsPending(Next(s, e), y, n);
      PendingBefore(s, e, y, n);
      if GivesBack(s, e, n) {
        GivenBackIsGone(s, e, n);
      }
    }
  }

  /** A call that gives its nonce back leaves nothing under it. */
  lemma GivenBackIsGone(s: State, e: Event, n: u64)
    requires Enabled(s, e) && NonceInv(s, n) && GivesBack(s, e, n)
    ensures !OpenUnder(Next(s, e), n) && !PendingUnder(Next(s, e), n)
  {
    hide RefusalOutcome, Told, AfterTake, AfterAnswer, AfterHold, AfterRelease, Refresh;
    assert IsOpen(s, e.call, n);
    if c :| IsOpen(Next(s, e), c, n) {
      OpenBefore(s, e, c, n);
    }
    if y :| IsPending(Next(s, e), y, n) {
      PendingBefore(s, e, y, n);
    }
  }

  /** Every step within the rule keeps, under a nonce still at stake, what the rule is for. */
  lemma NonceInvKept(s: State, e: Event, n: u64)
    requires NodeInv(s) && Enabled(s, e) && Disciplined(s, e)
    requires AtStake(Next(s, e), n) && NonceInv(s, n)
    ensures NonceInv(Next(s, e), n)
  {
    hide Enabled, Next, NodeInv, OneOpen, OnePending, Matching, OpenUnder, PendingUnder, Disciplined, AtStake;
    OneOpenKept(s, e, n);
    OnePendingKept(s, e, n);
    MatchingKept(s, e, n);
    if OpenUnder(Next(s, e), n) || PendingUnder(Next(s, e), n) {
      HandedKept(s, e, n);
    }
  }

  // ---------- What the node has ----------

  lemma SignedInvKept(s: State, e: Event)
    requires SignedInv(s) && Enabled(s, e)
    ensures SignedInv(Next(s, e))
  {
    hide RefusalOutcome, Told, AfterTake, AfterAnswer, AfterHold, AfterRelease, Refresh;
  }

  lemma AtNodeBefore(s: State, e: Event, x: Tx)
    requires Enabled(s, e) && AtNode(Next(s, e), x)
    ensures AtNode(s, x)
            || (e.NodeAdmits? && x == s.calls[e.call].tx && IsOpen(s, e.call, x.nonce) && !s.node.Dead(x.nonce))
  {
    hide RefusalOutcome, Told, AfterTake, AfterAnswer, AfterHold, AfterRelease, Refresh;
  }

  /** A transaction the node has, under a nonce still alive, is pending. */
  lemma AliveIsPending(s: State, x: Tx)
    requires NodeInv(s) && AtNode(s, x) && !s.node.Dead(x.nonce)
    ensures IsPending(s, x, x.nonce)
  {
  }

  lemma OnePerNonceKept(s: State, e: Event)
    requires NodeInv(s) && OnePerNonce(s) && Enabled(s, e)
    requires forall n: u64 :: AtStake(s, n) ==> NonceInv(s, n)
    ensures OnePerNonce(Next(s, e))
  {
    hide NodeInv, OneOpen, OnePending, OpenUnder, PendingUnder, AtNode, RefusalOutcome;
    var s' := Next(s, e);
    forall x: Tx, y: Tx | AtNode(s', x) && AtNode(s', y) && x.nonce == y.nonce && x.nonce !in s'.lapsed
      ensures x == y
    {
      LapsedBefore(s, e, x.nonce);
      AtNodeBefore(s, e, x);
      AtNodeBefore(s, e, y);
      if !s.node.Dead(x.nonce) {
        assert AtStake(s, x.nonce);
        if AtNode(s, x) {
          AliveIsPending(s, x);
        }
        if AtNode(s, y) {
          AliveIsPending(s, y);
        }
      }
    }
  }

  lemma LapsedBefore(s: State, e: Event, n: u64)
    requires Enabled(s, e) && n !in Next(s, e).lapsed
    ensures n !in s.lapsed
  {
    hide RefusalOutcome, Told, AfterTake, AfterAnswer, AfterHold, AfterRelease, Refresh;
  }

  // ---------- Every run ----------

  /** Whatever callers do. */
  lemma {:induction false} RunKeepsNodeInv(run: Run)
    requires StateOf(run).Some?
    ensures NodeInv(StateOf(run).value) && SignedInv(StateOf(run).value)
  {
    if run.After? {
      hide NodeInv, SignedInv, Enabled, Next;
      RunKeepsNodeInv(run.before);
      NodeInvKept(StateOf(run.before).value, run.event);
      SignedInvKept(StateOf(run.before).value, run.event);
    }
  }

  /** While callers keep to the rule. */
  lemma {:induction false} RunKeepsNonceInv(run: Run)
    requires StateOf(run).Some? && RuleKept(run)
    ensures forall n: u64 :: AtStake(StateOf(run).value, n) ==> NonceInv(StateOf(run).value, n)
    ensures OnePerNonce(StateOf(run).value)
  {
    if run.After? {
      hide NodeInv, NonceInv, AtStake, Enabled, Next, OnePerNonce, Disciplined;
      RunKeepsNonceInv(run.before);
      RunKeepsNodeInv(run.before);
      var s, e := StateOf(run.before).value, run.event;
      OnePerNonceKept(s, e);
      forall n: u64 | AtStake(Next(s, e), n)
        ensures NonceInv(Next(s, e), n)
      {
        StakeBefore(s, e, n);
        NonceInvKept(s, e, n);
      }
    }
  }

  /** Every write's bytes run at most once, and no nonce runs twice, in every run, whatever callers do. */
  lemma BytesRunAtMostOnce(run: Run, j: nat, k: nat)
    requires StateOf(run).Some? && j < k < |StateOf(run).value.node.executed|
    ensures var executed := StateOf(run).value.node.executed;
            executed[j] != executed[k] && executed[j].nonce != executed[k].nonce
  {
    RunKeepsNodeInv(run);
  }

  /**
   Unless a hold of the nonce lapsed, no two different transactions of the client under one nonce are both
   pending or executed, in every run in which callers keep to the rule.
   */
  lemma OneTransactionPerNonce(run: Run, x: Tx, y: Tx)
    requires StateOf(run).Some? && RuleKept(run)
    requires var node := StateOf(run).value.node;
             (x in node.pending || x in node.executed) && (y in node.pending || y in node.executed)
    requires x.nonce == y.nonce && x.nonce !in StateOf(run).value.lapsed
    ensures x == y
  {
    RunKeepsNonceInv(run);
    assert AtNode(StateOf(run).value, x) && AtNode(StateOf(run).value, y);
  }

  /**
   What a caller can check before it sends bytes again: the tracker says the nonce is used, or that it is not
   held; or no call under the nonce is in flight and the client signed nothing else under it.
   */
  lemma CallerMaySend(run: Run, tx: Tx, now: Time)
    requires StateOf(run).Some? && RuleKept(run)
    requires var s := StateOf(run).value;
             || s.account.Dead(tx.nonce)
             || tx.nonce !in s.account.handed
             || ((forall c :: c in s.calls ==> s.calls[c].tx.nonce != tx.nonce)
                 && forall y :: y in s.signed && y.nonce == tx.nonce ==> y == tx)
    ensures Sendable(StateOf(run).value, tx, now)
  {
    RunKeepsNodeInv(run);
    RunKeepsNonceInv(run);
    var s := StateOf(run).value;
    assert forall y :: IsPending(s, y, tx.nonce) ==> AtNode(s, y) && PendingUnder(s, tx.nonce);
  }
}
