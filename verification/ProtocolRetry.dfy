/**
 Callers as the client's documentation tells them to be: they send bytes again one call at a time, and by
 what they heard of them and what the tracker says, without a look at the node. Such callers keep the exact
 rule, and a write they are told is not taken never lands.
 */
module ProtocolRetry {
  import opened Arithmetic
  import opened Wrappers
  import opened Nonces
  import opened Submissions
  import opened Protocol
  import opened ProtocolSafety

  /** What the caller heard gives the nonce back: nothing was sent, or the refusal doesn't concern the nonce. */
  predicate GaveUp(outcome: Outcome) {
    outcome.NothingSent? || (outcome.Failed? && outcome.refusal.Free?)
  }

  /** What callers last heard of `tx` is that it landed, may land, or met its nonce held or used. */
  predicate MayStillLand(s: State, tx: Tx) {
    tx in s.told && !GaveUp(s.told[tx])
  }

  ghost predicate Calling(s: State, tx: Tx) {
    exists c :: CallOf(s, c, tx)
  }

  predicate CallOf(s: State, c: nat, tx: Tx) {
    c in s.calls && s.calls[c].tx == tx
  }

  /** The tracker's answer to `is_held`. */
  predicate SaysHeld(s: State, n: u64, now: Time) {
    n in Refresh(s.account, None, now).handed
  }

  /**
   What a caller sees before it sends `tx` again: no call of its own for it is in flight; and it may still land,
   as after an unknown outcome, or the tracker says that its nonce isn't held.
   */
  ghost predicate Retryable(s: State, tx: Tx, now: Time) {
    !Calling(s, tx) && (MayStillLand(s, tx) || !SaysHeld(s, tx.nonce, now))
  }

  ghost predicate CallersCheck(run: Run) {
    match run
    case Begin => true
    case After(before, event) =>
      && CallersCheck(before) && StateOf(before).Some?
      && (event.Rebroadcast? ==> Retryable(StateOf(before).value, event.tx, event.now))
  }

  // ---------- One transaction ----------

  /** Calls for `tx` come one at a time, and once its nonce is given back, or about to be, the node doesn't have it. */
  ghost predicate TxInv(s: State, tx: Tx) {
    && (forall c, d :: CallOf(s, c, tx) && CallOf(s, d, tx) ==> c == d)
    && (forall c :: CallOf(s, c, tx) && WouldGiveBack(s.calls[c]) ==> !AtNode(s, tx))
    && (AtNode(s, tx) ==> Calling(s, tx) || MayStillLand(s, tx))
    && (tx in s.told ==> tx in s.signed)
  }

  lemma CallBefore(s: State, e: Event, c: nat, tx: Tx)
    requires Enabled(s, e) && CallOf(Next(s, e), c, tx)
    ensures CallOf(s, c, tx) || ((e.Rebroadcast? || e.Write?) && e.call == c && c !in s.calls)
    ensures !CallOf(s, c, tx) && e.Rebroadcast? ==> e.tx == tx && Next(s, e).calls[c] == Call(tx, false, None)
    ensures !CallOf(s, c, tx) && e.Write? ==> tx.id == s.nextId
  {
    hide RefusalOutcome, Told, AfterTake, AfterAnswer, AfterHold, AfterRelease, Refresh;
  }

  /** A transaction just built is known nowhere. */
  lemma NewIsUnknown(s: State, tx: Tx)
    requires SignedInv(s) && TxInv(s, tx) && tx.id == s.nextId
    ensures !Calling(s, tx) && !AtNode(s, tx) && tx !in s.told
  {
  }

  lemma OneCallKept(s: State, e: Event, tx: Tx, c: nat, d: nat)
    requires SignedInv(s) && TxInv(s, tx) && Enabled(s, e)
    requires e.Rebroadcast? && e.tx == tx ==> !Calling(s, tx)
    requires CallOf(Next(s, e), c, tx) && CallOf(Next(s, e), d, tx)
    ensures c == d
  {
    hide Enabled, Next, SignedInv, AtNode, MayStillLand;
    CallBefore(s, e, c, tx);
    CallBefore(s, e, d, tx);
    if e.Write? && tx.id == s.nextId {
      NewIsUnknown(s, tx);
    }
  }

  /** A call comes to give its nonce back only where its bytes are not at the node. */
  lemma GivesBackUnadmitted(s: State, e: Event, tx: Tx, c: nat)
    requires NodeInv(s) && Enabled(s, e) && CallOf(s, c, tx) && CallOf(Next(s, e), c, tx)
    requires WouldGiveBack(Next(s, e).calls[c])
    ensures WouldGiveBack(s.calls[c]) || !AtNode(s, tx)
    ensures !(e.NodeAdmits? && e.call == c)
  {
    hide RefusalOutcome, Told, AfterTake, AfterAnswer, AfterHold, AfterRelease, Refresh;
  }

  lemma GivingBackKept(s: State, e: Event, tx: Tx, c: nat)
    requires NodeInv(s) && SignedInv(s) && TxInv(s, tx) && Enabled(s, e)
    requires CallOf(Next(s, e), c, tx) && WouldGiveBack(Next(s, e).calls[c])
    ensures !AtNode(Next(s, e), tx)
  {
    hide Enabled, Next, NodeInv, SignedInv, MayStillLand, RefusalOutcome;
    CallBefore(s, e, c, tx);
    if CallOf(s, c, tx) {
      GivesBackUnadmitted(s, e, tx, c);
      StaysAway(s, e, tx);
    } else if e.Write? {
      NewIsUnknown(s, tx);
      StaysAway(s, e, tx);
    }
  }

  lemma StaysAway(s: State, e: Event, tx: Tx)
    requires Enabled(s, e) && !AtNode(s, tx)
    requires forall c :: CallOf(s, c, tx) ==> !(e.NodeAdmits? && e.call == c)
    ensures !AtNode(Next(s, e), tx)
  {
    hide RefusalOutcome, Told, AfterTake, AfterAnswer, AfterHold, AfterRelease, Refresh;
    assert e.NodeAdmits? ==> s.calls[e.call].tx != tx || CallOf(s, e.call, tx);
  }

  /** What callers heard of a transaction changes when a call for it is settled. */
  lemma ToldBefore(s: State, e: Event, tx: Tx)
    requires Enabled(s, e)
    ensures MayStillLand(s, tx) && !(e.Settles? && CallOf(s, e.call, tx)) ==> MayStillLand(Next(s, e), tx)
    ensures e.Settles? && CallOf(s, e.call, tx) && !WouldGiveBack(s.calls[e.call]) ==> MayStillLand(Next(s, e), tx)
    ensures e.Settles? && CallOf(s, e.call, tx) && WouldGiveBack(s.calls[e.call]) ==> !MayStillLand(Next(s, e), tx)
    ensures MayStillLand(Next(s, e), tx) ==> MayStillLand(s, tx) || (e.Settles? && CallOf(s, e.call, tx))
  {
    hide RefusalOutcome, AfterTake, AfterAnswer, AfterHold, AfterRelease, Refresh;
  }

  /** A call ends when it is settled, or its build fails. */
  lemma CallAfter(s: State, e: Event, c: nat, tx: Tx)
    requires Enabled(s, e) && CallOf(s, c, tx)
    ensures CallOf(Next(s, e), c, tx) || ((e.Settles? || e.BuildFails?) && e.call == c)
    ensures e.BuildFails? && e.call == c ==> WouldGiveBack(s.calls[c]) && tx !in s.signed
  {
    hide RefusalOutcome, Told, AfterTake, AfterAnswer, AfterHold, AfterRelease, Refresh;
  }

  lemma AtNodeKept(s: State, e: Event, tx: Tx)
    requires TxInv(s, tx) && Enabled(s, e) && AtNode(Next(s, e), tx)
    ensures Calling(Next(s, e), tx) || MayStillLand(Next(s, e), tx)
  {
    hide Enabled, Next, AtNode, MayStillLand, RefusalOutcome, WouldGiveBack;
    AtNodeBefore(s, e, tx);
    ToldBefore(s, e, tx);
    assert e.NodeAdmits? && IsOpen(s, e.call, tx.nonce) && s.calls[e.call].tx == tx ==> CallOf(s, e.call, tx);
    if c :| CallOf(s, c, tx) {
      CallAfter(s, e, c, tx);
      assert CallOf(Next(s, e), c, tx) ==> Calling(Next(s, e), tx);
    }
  }

  lemma ToldIsSigned(s: State, e: Event, tx: Tx)
    requires SignedInv(s) && TxInv(s, tx) && Enabled(s, e) && tx in Next(s, e).told
    ensures tx in Next(s, e).signed
  {
    hide RefusalOutcome, Told, AfterTake, AfterAnswer, AfterHold, AfterRelease, Refresh, AtNode, MayStillLand;
  }

  lemma TxInvKept(s: State, e: Event, tx: Tx)
    requires NodeInv(s) && SignedInv(s) && TxInv(s, tx) && Enabled(s, e)
    requires e.Rebroadcast? && e.tx == tx ==> !Calling(s, tx)
    ensures TxInv(Next(s, e), tx)
  {
    hide Enabled, Next, NodeInv, SignedInv, AtNode, MayStillLand, Calling, WouldGiveBack;
    var t := Next(s, e);
    forall c, d | CallOf(t, c, tx) && CallOf(t, d, tx)
      ensures c == d
    {
      OneCallKept(s, e, tx, c, d);
    }
    forall c | CallOf(t, c, tx) && WouldGiveBack(t.calls[c])
      ensures !AtNode(t, tx)
    {
      GivingBackKept(s, e, tx, c);
    }
    if AtNode(t, tx) {
      AtNodeKept(s, e, tx);
    }
    if tx in t.told {
      ToldIsSigned(s, e, tx);
    }
  }

  // ---------- One nonce ----------

  /** A call for the transaction is in flight, or it may still land. */
  ghost predicate Active(s: State, tx: Tx) {
    Calling(s, tx) || MayStillLand(s, tx)
  }

  /** Under a nonce at stake one transaction is active, and the tracker holds the nonce for it. */
  ghost predicate RetryInv(s: State, n: u64) {
    && (forall x: Tx, y: Tx :: Active(s, x) && Active(s, y) && x.nonce == y.nonce == n ==> x == y)
    && (forall x: Tx :: Active(s, x) && x.nonce == n ==> n in s.account.handed)
  }

  ghost predicate AllTx(s: State) {
    forall tx: Tx :: TxInv(s, tx)
  }

  /** What is active after an event was before it, or is taken up by it. */
  lemma ActiveBefore(s: State, e: Event, x: Tx)
    requires SignedInv(s) && Enabled(s, e) && Active(Next(s, e), x)
    ensures Active(s, x) || (e.Write? && Takes(s, e, x.nonce) && x.id == s.nextId) || (e.Rebroadcast? && e.tx == x)
  {
    hide SignedInv, MayStillLand, Takes, Enabled, Next;
    ToldBefore(s, e, x);
    if c :| CallOf(Next(s, e), c, x) {
      CallBefore(s, e, c, x);
      if !CallOf(s, c, x) && e.Write? {
        WriteCalls(s, e, c, x);
      }
    }
  }

  lemma WriteCalls(s: State, e: Event, c: nat, x: Tx)
    requires Enabled(s, e) && e.Write? && c !in s.calls && CallOf(Next(s, e), c, x)
    ensures Takes(s, e, x.nonce) && x.id == s.nextId
  {
    hide AfterTake;
  }

  /** A nonce at stake that the tracker has in hand is one it says is held. */
  lemma HeldIsSaid(s: State, n: u64, now: Time)
    requires NodeInv(s) && AtStake(s, n) && n in s.account.handed && n !in Lapsing(s.account, now)
    ensures SaysHeld(s, n, now)
  {
  }

  /** An event that takes a transaction up finds no other active under its nonce. */
  lemma TakenUpAlone(s: State, e: Event, x: Tx, y: Tx)
    requires NodeInv(s) && Enabled(s, e) && RetryInv(s, x.nonce) && AtStake(Next(s, e), x.nonce)
    requires (e.Write? && Takes(s, e, x.nonce))
             || (e.Rebroadcast? && e.tx == x && Retryable(s, x, e.now) && !Active(s, x))
    requires y.nonce == x.nonce
    ensures !Active(s, y)
  {
    hide NodeInv, Takes, Calling, MayStillLand, SaysHeld, Lapsing;
    StakeBefore(s, e, x.nonce);
    HandedAfter(s, e, x.nonce);
    if e.Rebroadcast? && x.nonce in s.account.handed {
      HeldIsSaid(s, x.nonce, e.now);
    }
  }

  /** A nonce given back leaves nothing active under it. */
  lemma NoneActive(s: State, e: Event, n: u64, x: Tx)
    requires SignedInv(s) && AllTx(s) && RetryInv(s, n) && Enabled(s, e) && GivesBack(s, e, n) && x.nonce == n
    ensures !Active(Next(s, e), x)
  {
    hide Next, SignedInv, MayStillLand, AtNode, RefusalOutcome;
    var y := s.calls[e.call].tx;
    assert CallOf(s, e.call, y) && TxInv(s, y);
    assert Active(s, y);
    if x != y {
      assert !Active(s, x);
      if Active(Next(s, e), x) {
        ActiveBefore(s, e, x);
      }
    } else {
      GivenUpIsIdle(s, e, y);
    }
  }

  lemma GivenUpIsIdle(s: State, e: Event, y: Tx)
    requires TxInv(s, y) && Enabled(s, e) && (e.BuildFails? || e.Settles?) && CallOf(s, e.call, y)
    requires WouldGiveBack(s.calls[e.call])
    ensures !Active(Next(s, e), y) && !AtNode(Next(s, e), y)
    ensures e.Settles? ==> y in Next(s, e).told && GaveUp(Next(s, e).told[y])
  {
    hide RefusalOutcome, AfterTake, AfterAnswer, AfterHold, AfterRelease, Refresh;
  }

  lemma RetryInvKept(s: State, e: Event, n: u64)
    requires NodeInv(s) && SignedInv(s) && AllTx(s) && Enabled(s, e)
    requires e.Rebroadcast? ==> Retryable(s, e.tx, e.now)
    requires AtStake(Next(s, e), n) && RetryInv(s, n)
    ensures RetryInv(Next(s, e), n)
  {
    hide Enabled, Next, NodeInv, SignedInv, AllTx, Active, Retryable, Takes;
    forall x: Tx, y: Tx | Active(Next(s, e), x) && Active(Next(s, e), y) && x.nonce == y.nonce == n
      ensures x == y
    {
      ActiveBefore(s, e, x);
      ActiveBefore(s, e, y);
      if !Active(s, x) {
        TakenUpAlone(s, e, x, y);
      } else if !Active(s, y) {
        TakenUpAlone(s, e, y, x);
      }
    }
    forall x: Tx | Active(Next(s, e), x) && x.nonce == n
      ensures n in Next(s, e).account.handed
    {
      ActiveBefore(s, e, x);
      HandedAfter(s, e, n);
      if GivesBack(s, e, n) {
        NoneActive(s, e, n, x);
        assert false;
      }
    }
  }

  // ---------- Callers keep the rule ----------

  lemma RetryIsSendable(s: State, tx: Tx, now: Time)
    requires NodeInv(s) && AllTx(s) && Retryable(s, tx, now)
    requires AtStake(s, tx.nonce) ==> RetryInv(s, tx.nonce)
    ensures Sendable(s, tx, now)
  {
    hide NodeInv, MayStillLand, SaysHeld, AtStake, Lapsing, WouldGiveBack;
    var n := tx.nonce;
    if AtStake(s, n) && n !in Lapsing(s.account, now) {
      if c :| IsOpen(s, c, n) {
        assert CallOf(s, c, s.calls[c].tx);
        OnlyActive(s, tx, now, s.calls[c].tx);
      }
      if y :| IsPending(s, y, n) && y != tx {
        assert TxInv(s, y) && AtNode(s, y);
        OnlyActive(s, tx, now, y);
      }
    }
  }

  lemma OnlyActive(s: State, tx: Tx, now: Time, y: Tx)
    requires NodeInv(s) && Retryable(s, tx, now) && RetryInv(s, tx.nonce)
    requires AtStake(s, tx.nonce) && tx.nonce !in Lapsing(s.account, now)
    requires Active(s, y) && y.nonce == tx.nonce
    ensures y == tx && !Calling(s, tx)
  {
    HeldIsSaid(s, tx.nonce, now);
  }

  /** Callers who check what they see keep the exact rule, over every run. */
  lemma {:induction false} CheckKeepsRule(run: Run)
    requires StateOf(run).Some? && CallersCheck(run)
    ensures RuleKept(run) && AllTx(StateOf(run).value)
    ensures forall n: u64 :: AtStake(StateOf(run).value, n) ==> RetryInv(StateOf(run).value, n)
  {
    if run.After? {
      hide NodeInv, SignedInv, AtStake, RetryInv, Enabled, Next, TxInv, Sendable, Retryable;
      var s, e := StateOf(run.before).value, run.event;
      CheckKeepsRule(run.before);
      RunKeepsNodeInv(run.before);
      if e.Rebroadcast? {
        RetryIsSendable(s, e.tx, e.now);
        RetryIsAlone(s, e.tx, e.now);
      }
      forall tx: Tx
        ensures TxInv(Next(s, e), tx)
      {
        TxInvKept(s, e, tx);
      }
      forall n: u64 | AtStake(Next(s, e), n)
        ensures RetryInv(Next(s, e), n)
      {
        StakeBefore(s, e, n);
        RetryInvKept(s, e, n);
      }
    }
  }

  lemma RetryIsAlone(s: State, tx: Tx, now: Time)
    requires Retryable(s, tx, now)
    ensures !Calling(s, tx)
  {
  }

  /**
   Unless a hold of the nonce lapsed, no two different transactions of the client under one nonce are both
   pending or executed, in every run in which callers check what they see.
   */
  lemma CallersKeepOnePerNonce(run: Run, x: Tx, y: Tx)
    requires StateOf(run).Some? && CallersCheck(run)
    requires AtNode(StateOf(run).value, x) && AtNode(StateOf(run).value, y)
    requires x.nonce == y.nonce && x.nonce !in StateOf(run).value.lapsed
    ensures x == y
  {
    hide RuleKept, CallersCheck;
    CheckKeepsRule(run);
    OneTransactionPerNonce(run, x, y);
  }

  /** The documented retry: of bytes the caller last heard the outcome of which is unknown, one call at a time. */
  ghost predicate DocumentedRetries(run: Run) {
    match run
    case Begin => true
    case After(before, event) =>
      && DocumentedRetries(before) && StateOf(before).Some?
      && var s := StateOf(before).value;
      event.Rebroadcast? ==> !Calling(s, event.tx) && event.tx in s.told && s.told[event.tx].SubmissionUnknown?
  }

  lemma {:induction false} DocumentedRetryChecks(run: Run)
    requires DocumentedRetries(run)
    ensures CallersCheck(run)
  {
    if run.After? {
      DocumentedRetryChecks(run.before);
    }
  }

  /** The documented retry keeps the exact rule, and so one transaction per nonce, in every run. */
  lemma DocumentedRetryIsSafe(run: Run)
    requires StateOf(run).Some? && DocumentedRetries(run)
    ensures RuleKept(run) && OnePerNonce(StateOf(run).value)
  {
    hide RuleKept, CallersCheck, DocumentedRetries, OnePerNonce;
    DocumentedRetryChecks(run);
    CheckKeepsRule(run);
    RunKeepsNonceInv(run);
  }

  // ---------- What callers are told ----------

  /** `tx` is sent again only while no call for it is in flight. */
  ghost predicate OneAtATime(run: Run, tx: Tx) {
    match run
    case Begin => true
    case After(before, event) =>
      && OneAtATime(before, tx) && StateOf(before).Some?
      && (event.Rebroadcast? && event.tx == tx ==> !Calling(StateOf(before).value, tx))
  }

  lemma {:induction false} RunKeepsTxInv(run: Run, tx: Tx)
    requires StateOf(run).Some? && OneAtATime(run, tx)
    ensures TxInv(StateOf(run).value, tx)
  {
    if run.After? {
      hide TxInv, NodeInv, SignedInv, Enabled, Next;
      RunKeepsTxInv(run.before, tx);
      RunKeepsNodeInv(run.before);
      TxInvKept(StateOf(run.before).value, run.event, tx);
    } else {
      hide TxInv;
      StartKnowsNothing(tx);
    }
  }

  lemma StartKnowsNothing(tx: Tx)
    ensures TxInv(START, tx)
  {
  }

  /** `later` goes on from `run`, and `tx` is not sent again. */
  predicate NeverResent(later: Run, run: Run, tx: Tx) {
    || later == run
    || (later.After? && NeverResent(later.before, run, tx) && !(later.event.Rebroadcast? && later.event.tx == tx))
  }

  /** Nothing is left of `tx`: callers gave it up, and no call for it is in flight. */
  ghost predicate Over(s: State, tx: Tx) {
    TxInv(s, tx) && tx in s.told && GaveUp(s.told[tx]) && !Calling(s, tx)
  }

  lemma OverKept(s: State, e: Event, tx: Tx)
    requires NodeInv(s) && SignedInv(s) && Over(s, tx) && Enabled(s, e) && !(e.Rebroadcast? && e.tx == tx)
    ensures Over(Next(s, e), tx)
  {
    hide Enabled, Next, NodeInv, AtNode;
    TxInvKept(s, e, tx);
    if c :| CallOf(Next(s, e), c, tx) {
      CallBefore(s, e, c, tx);
      NewIsUnknown(s, tx);
    }
    ToldStays(s, e, tx);
  }

  lemma ToldStays(s: State, e: Event, tx: Tx)
    requires Enabled(s, e) && tx in s.told && !Calling(s, tx)
    ensures tx in Next(s, e).told && Next(s, e).told[tx] == s.told[tx]
  {
    hide RefusalOutcome, Told, AfterTake, AfterAnswer, AfterHold, AfterRelease, Refresh;
    assert e.Settles? ==> CallOf(s, e.call, s.calls[e.call].tx);
  }

  lemma {:induction false} StaysOver(later: Run, run: Run, tx: Tx)
    requires StateOf(run).Some? && Over(StateOf(run).value, tx)
    requires NeverResent(later, run, tx) && StateOf(later).Some?
    ensures Over(StateOf(later).value, tx)
  {
    if later != run {
      hide Over, NodeInv, SignedInv, Enabled, Next;
      StaysOver(later.before, run, tx);
      RunKeepsNodeInv(later.before);
      OverKept(StateOf(later.before).value, later.event, tx);
    }
  }

  /**
   A write of which the caller hears that nothing was sent, or that it was refused and its nonce given back, is at
   no later point pending or executed, unless its bytes are sent again. What other callers do doesn't matter.
   */
  lemma GivenUpNeverLands(before: Run, call: nat, now: Time, later: Run)
    requires StateOf(before).Some? && Enabled(StateOf(before).value, Settles(call, now))
    requires var c := StateOf(before).value.calls[call];
             && OneAtATime(before, c.tx) && GaveUp(Told(c.tx.nonce, c.answer.value, c.first))
             && NeverResent(later, After(before, Settles(call, now)), c.tx)
    requires StateOf(later).Some?
    ensures !AtNode(StateOf(later).value, StateOf(before).value.calls[call].tx)
  {
    hide NodeInv, SignedInv, AtNode, RefusalOutcome, AfterAnswer;
    var s, e := StateOf(before).value, Settles(call, now);
    var tx := s.calls[call].tx;
    RunKeepsTxInv(before, tx);
    RunKeepsNodeInv(before);
    assert CallOf(s, call, tx) && WouldGiveBack(s.calls[call]);
    GivenUpIsIdle(s, e, tx);
    TxInvKept(s, e, tx);
    StaysOver(later, After(before, e), tx);
  }
}
