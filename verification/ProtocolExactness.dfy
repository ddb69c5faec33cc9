/**
 The rule for sending bytes again is exact: sending them outside it, from any state whatever, lets a run
 that keeps to it ever after end with two transactions under one nonce.
 */
module ProtocolExactness {
  import opened Arithmetic
  import opened Wrappers
  import opened Text
  import opened Nonces
  import NonceRuns
  import opened Submissions
  import opened Protocol
  import opened ProtocolSafety

  /** The run goes on from `base`, and callers keep to the rule after it. */
  ghost predicate Continues(run: Run, base: Run) {
    || run == base
    || (run.After? && Continues(run.before, base) && StateOf(run.before).Some?
        && Disciplined(StateOf(run.before).value, run.event))
  }

  ghost predicate StaysSafe(base: Run) {
    forall run :: Continues(run, base) && StateOf(run).Some? ==> OnePerNonce(StateOf(run).value)
  }

  ghost predicate Reached(run: Run, base: Run, s: State) {
    Continues(run, base) && StateOf(run) == Some(s)
  }

  lemma Go(run: Run, base: Run, s: State, e: Event) returns (longer: Run)
    requires Reached(run, base, s) && Enabled(s, e) && !e.Rebroadcast?
    ensures Reached(longer, base, Next(s, e))
  {
    longer := After(run, e);
  }

  // ---------- Steps of the node ----------

  /** All but the node's base, used and held nonces are the same. */
  predicate SameButWindow(s: State, t: State) {
    t == s.(node := t.node) && t.node.pending == s.node.pending && t.node.executed == s.node.executed
  }

  lemma HoldEnds(run: Run, base: Run, s: State, n: u64) returns (longer: Run, t: State)
    requires Reached(run, base, s)
    ensures Reached(longer, base, t) && SameButWindow(s, t)
    ensures t.node.base == s.node.base && t.node.used == s.node.used && t.node.held == s.node.held - {n}
  {
    if n in s.node.held {
      longer := Go(run, base, s, NodeHoldLapses(n));
      t := Next(s, NodeHoldLapses(n));
    } else {
      longer, t := run, s;
    }
  }

  /** Another client uses the next nonce, and the base moves over it. */
  lemma BaseMoves(run: Run, base: Run, s: State, n: u64) returns (longer: Run, t: State)
    requires Reached(run, base, s) && !s.node.Dead(n) && s.node.base + 1 < n
    ensures Reached(longer, base, t) && SameButWindow(s, t)
    ensures t.node.base == s.node.base + 1 && !t.node.Dead(n)
  {
    hide Reached;
    var m: u64 := s.node.base + 1;
    longer, t := HoldEnds(run, base, s, m);
    if m !in t.node.used {
      longer := Go(longer, base, t, Foreign(m, true));
      t := Next(t, Foreign(m, true));
    }
    longer := Go(longer, base, t, BaseAdvances);
    t := Next(t, BaseAdvances);
  }

  /** The node comes to accept a nonce that is alive. */
  lemma {:induction false} WindowOpens(run: Run, base: Run, s: State, n: u64) returns (longer: Run, t: State)
    requires Reached(run, base, s) && !s.node.Dead(n)
    ensures Reached(longer, base, t) && SameButWindow(s, t)
    ensures !t.node.Dead(n) && n <= t.node.base + NONCE_WINDOW && n !in t.node.held
    decreases n - s.node.base
  {
    hide Reached;
    if n <= s.node.base + NONCE_WINDOW {
      longer, t := HoldEnds(run, base, s, n);
    } else {
      longer, t := BaseMoves(run, base, s, n);
      longer, t := WindowOpens(longer, base, t, n);
    }
  }

  /** The node comes to admit a transaction on its way. */
  lemma Lands(run: Run, base: Run, s: State, c: nat) returns (longer: Run, t: State)
    requires Reached(run, base, s) && Sent(s, c)
    requires s.calls[c].tx !in s.node.pending && !s.node.Dead(s.calls[c].tx.nonce)
    ensures Reached(longer, base, t) && !t.node.Dead(s.calls[c].tx.nonce)
    ensures t == s.(node := t.node, calls := s.calls[c := s.calls[c].(answer := Some(Admitted))])
    ensures t.node.pending == s.node.pending + {s.calls[c].tx}
  {
    hide Reached;
    longer, t := WindowOpens(run, base, s, s.calls[c].tx.nonce);
    longer := Go(longer, base, t, NodeAdmits(c));
    t := Next(t, NodeAdmits(c));
  }

  // ---------- Steps of the client ----------

  lemma {:induction false} Above(s: set<nat>) returns (m: nat)
    ensures forall x :: x in s ==> x < m
  {
    if s == {} {
      m := 0;
    } else {
      var x :| x in s;
      var below := Above(s - {x});
      m := Max(below, x + 1);
      assert forall y :: y in s ==> y == x || y in s - {x};
    }
  }

  /** The chain's answer that says no more than its base. */
  function BaseOnly(base: u64): AccountNonceState {
    AccountNonceState(base, 0)
  }

  lemma BaseOnlyShowsNone(base: u64)
    ensures BaseOnly(base).UsedNonces() == {}
  {
    forall i: nat
      ensures !Bit(0, i)
    {
      ZeroHasNoBits(i);
    }
  }

  /** No hold of the client lapses at `now`. */
  predicate Unlapsed(s: State, now: Time) {
    Lapsing(s.account, now) == {}
  }

  /** The account a write chooses from, once it hears the node's base. */
  function Heard(s: State, now: Time): Account {
    Refresh(s.account, Some(BaseOnly(s.node.base)), now)
  }

  lemma HeardKeeps(s: State, n: u64, now: Time)
    requires Unlapsed(s, now)
    ensures Heard(s, now).base == Max(s.account.base, s.node.base)
    ensures Heard(s, now).Dead(n) <==> s.account.Dead(n) || n <= s.node.base
    ensures n in Heard(s, now).handed <==> n in s.account.handed && !Heard(s, now).Dead(n)
  {
    BaseOnlyShowsNone(s.node.base);
  }

  lemma HearingAgain(s: State, t: State, r: u64, now: Time)
    requires Unlapsed(s, now)
    requires t.node == s.node && t.account == Heard(s, now).(handed := Heard(s, now).handed[r := now])
    requires !Heard(s, now).Dead(r)
    ensures Heard(t, now) == t.account && Unlapsed(t, now)
  {
    BaseOnlyShowsNone(s.node.base);
  }

  lemma WriteStep(s: State, call: nat, now: Time)
    requires call !in s.calls && Heard(s, now).base < U64_MAX
    ensures Enabled(s, Write(BaseOnly(s.node.base), now, call))
  {
    BaseOnlyShowsNone(s.node.base);
  }

  /** One write, which takes a nonce no later than one it could hand out. */
  lemma WriteTakes(run: Run, base: Run, s: State, n: u64, now: Time)
    returns (longer: Run, t: State, c: nat, r: u64)
    requires Reached(run, base, s) && Unlapsed(s, now) && Heard(s, now).Available(n)
    ensures Reached(longer, base, t) && c !in s.calls && r <= n && Heard(s, now).Available(r)
    ensures forall m: u64 :: Heard(s, now).Available(m) ==> r <= m
    ensures t == s.(account := Heard(s, now).(handed := Heard(s, now).handed[r := now]),
                 calls := s.calls[c := Call(Tx(r, s.nextId), true, None)], nextId := s.nextId + 1)
  {
    hide Reached, Refresh;
    var state := BaseOnly(s.node.base);
    var above := Above(s.calls.Keys);
    c := above;
    HeardKeeps(s, n, now);
    WriteStep(s, c, now);
    NonceRuns.TakeIsLeast(s.account, state, now);
    r := AfterTake(s.account, state, now).1.value;
    longer := Go(run, base, s, Write(state, now, c));
    t := Next(s, Write(state, now, c));
  }

  /** The client comes to hand out any nonce it neither holds nor knows used, in the node's window. */
  lemma {:induction false} WritesReach(run: Run, base: Run, s: State, n: u64, low: nat, now: Time)
    returns (longer: Run, t: State, c: nat)
    requires Reached(run, base, s) && Unlapsed(s, now) && Heard(s, now).Available(n) && low <= n
    requires forall m: u64 :: Heard(s, now).Available(m) ==> low <= m
    ensures Reached(longer, base, t) && t.node == s.node && t.lapsed == s.lapsed && t.signed == s.signed
    ensures c in t.calls && t.calls[c] == Call(Tx(n, t.calls[c].tx.id), true, None) && s.nextId <= t.calls[c].tx.id
    decreases n - low
  {
    hide Reached, Refresh;
    var r: u64;
    longer, t, c, r := WriteTakes(run, base, s, n, now);
    if r < n {
      HearingAgain(s, t, r, now);
      assert forall m: u64 :: Heard(t, now).Available(m) <==> Heard(s, now).Available(m) && m != r;
      longer, t, c := WritesReach(longer, base, t, n, r + 1, now);
    }
  }

  // ---------- Two transactions under one nonce ----------

  /** The next build is no transaction signed yet. */
  predicate NextIsNew(s: State) {
    forall x :: x in s.signed ==> x.id < s.nextId
  }

  /** The run can go on to break what the rule is for. */
  ghost predicate Breaks(base: Run) {
    exists run :: Continues(run, base) && StateOf(run).Some? && !OnePerNonce(StateOf(run).value)
  }

  lemma Broken(run: Run, base: Run, s: State, x: Tx, y: Tx)
    requires Reached(run, base, s) && x in s.node.pending && y in s.node.pending
    requires x != y && x.nonce == y.nonce && x.nonce !in s.lapsed
    ensures Breaks(base)
  {
    assert AtNode(s, x) && AtNode(s, y);
  }

  /** A transaction is pending and its nonce is not held: a write takes it, and lands beside. */
  lemma ReleasedBreaks(run: Run, base: Run, s: State, tx: Tx, now: Time)
    requires Reached(run, base, s) && Unlapsed(s, now) && tx in s.node.pending && tx.id < s.nextId && NextIsNew(s)
    requires AtStake(s, tx.nonce) && tx.nonce !in s.account.handed && !s.account.Dead(tx.nonce)
    ensures Breaks(base)
  {
    hide Reached, Refresh, Breaks;
    var n := tx.nonce;
    var r, t := WindowOpens(run, base, s, n);
    HeardKeeps(t, n, now);
    var c: nat;
    r, t, c := WritesReach(r, base, t, n, 0, now);
    var other := t.calls[c].tx;
    assert other !in t.signed;
    r := Go(r, base, t, Signs(c));
    t := Next(t, Signs(c));
    if other !in t.node.pending {
      r, t := Lands(r, base, t, c);
    }
    Broken(r, base, t, tx, other);
  }

  /** Another transaction is pending under the nonce of one on its way. */
  lemma RivalBreaks(run: Run, base: Run, s: State, k: nat, y: Tx)
    requires Reached(run, base, s) && Sent(s, k) && y in s.node.pending
    requires y != s.calls[k].tx && y.nonce == s.calls[k].tx.nonce && AtStake(s, y.nonce)
    ensures Breaks(base)
  {
    hide Reached, Breaks;
    var tx := s.calls[k].tx;
    if tx in s.node.pending {
      Broken(run, base, s, tx, y);
    } else {
      var r, t := Lands(run, base, s, k);
      Broken(r, base, t, tx, y);
    }
  }

  /** Another transaction is on its way under the same nonce, or about to be. */
  lemma OtherCallBreaks(run: Run, base: Run, s: State, k: nat, c: nat)
    requires Reached(run, base, s) && Sent(s, k) && c in s.calls && s.calls[c].answer.None? && SignedInv(s)
    requires s.calls[c].tx != s.calls[k].tx && s.calls[c].tx.nonce == s.calls[k].tx.nonce
    requires AtStake(s, s.calls[c].tx.nonce)
    ensures Breaks(base)
  {
    hide Reached, Breaks;
    var r, t, y := run, s, s.calls[c].tx;
    if y !in t.signed {
      r := Go(r, base, t, Signs(c));
      t := Next(t, Signs(c));
    }
    if y !in t.node.pending {
      r, t := Lands(r, base, t, c);
    }
    RivalBreaks(r, base, t, k, y);
  }

  const LOG := "insufficient balance"

  lemma LogGivesBack(n: u64)
    ensures RefusalOutcome(LOG, n) == Free
  {
    assert Trim(LOG) == LOG;
    NotHeld(LOG, n);
    StartsOtherwise(LOG, INVALID, n, ALREADY_USED);
    StartsOtherwise(LOG, INVALID, n, BELOW_BASE);
    EndsOtherwise(LOG, Spent(n));
  }

  /** The same bytes are on their way twice: one is refused, the other admitted, and the refusal frees the nonce. */
  lemma SameBytesBreak(run: Run, base: Run, s: State, k: nat, c: nat, now: Time)
    requires Reached(run, base, s) && Unlapsed(s, now)
    requires Sent(s, k) && Sent(s, c) && k != c && s.calls[c].tx == s.calls[k].tx
    requires NextIsNew(s) && AtStake(s, s.calls[k].tx.nonce) && !s.account.Dead(s.calls[k].tx.nonce)
    ensures Breaks(base)
  {
    hide Reached, Breaks, RefusalOutcome, AfterAnswer;
    var r, t, tx := run, s, s.calls[k].tx;
    if tx in t.node.pending {
      r := Go(r, base, t, Drops(tx));
      t := Next(t, Drops(tx));
    }
    r, t := HoldEnds(r, base, t, tx.nonce);
    LogGivesBack(tx.nonce);
    r := Go(r, base, t, NodeRefuses(k, LOG));
    t := Next(t, NodeRefuses(k, LOG));
    r, t := Lands(r, base, t, c);
    SettledBreaks(r, base, t, k, tx, now);
  }

  /** A transaction is pending, and a call under its nonce is yet to give the nonce back. */
  lemma SettledBreaks(run: Run, base: Run, s: State, c: nat, tx: Tx, now: Time)
    requires Reached(run, base, s) && Unlapsed(s, now) && tx in s.node.pending && tx.id < s.nextId && NextIsNew(s)
    requires c in s.calls && s.calls[c].tx.nonce == tx.nonce && s.calls[c].answer.Some? && WouldGiveBack(s.calls[c])
    requires AtStake(s, tx.nonce) && !s.account.Dead(tx.nonce)
    ensures Breaks(base)
  {
    hide Reached, Breaks, RefusalOutcome;
    var t := Next(s, Settles(c, now));
    var r := Go(run, base, s, Settles(c, now));
    ReleasedBreaks(r, base, t, tx, now);
  }

  /** A call under the nonce of one on its way is yet to give the nonce back. */
  lemma GivingBackBreaks(run: Run, base: Run, s: State, k: nat, c: nat, now: Time)
    requires Reached(run, base, s) && Unlapsed(s, now) && Sent(s, k) && NextIsNew(s)
    requires c in s.calls && s.calls[c].answer.Some? && WouldGiveBack(s.calls[c])
    requires s.calls[c].tx.nonce == s.calls[k].tx.nonce
    requires AtStake(s, s.calls[k].tx.nonce) && !s.account.Dead(s.calls[k].tx.nonce)
    ensures Breaks(base)
  {
    hide Reached, Breaks, RefusalOutcome;
    var r, t, tx := run, s, s.calls[k].tx;
    if tx !in s.node.pending {
      r, t := Lands(run, base, s, k);
    }
    SettledBreaks(r, base, t, c, tx, now);
  }

  // ---------- The rule is exact ----------

  /** Sending bytes outside the rule, from any state a run reaches, lets the run go on to break. */
  lemma OutsideBreaks(before: Run, tx: Tx, now: Time, call: nat)
    requires StateOf(before).Some? && Enabled(StateOf(before).value, Rebroadcast(tx, now, call))
    requires !Sendable(StateOf(before).value, tx, now)
    ensures Breaks(After(before, Rebroadcast(tx, now, call)))
  {
    hide Breaks, RefusalOutcome;
    var s := StateOf(before).value;
    var base := After(before, Rebroadcast(tx, now, call));
    var t := Next(s, Rebroadcast(tx, now, call));
    RunKeepsNodeInv(base);
    assert Reached(base, base, t) && Sent(t, call) && Unlapsed(t, now);
    assert AtStake(t, tx.nonce) && !t.account.Dead(tx.nonce);
    if OpenUnder(s, tx.nonce) {
      var c :| IsOpen(s, c, tx.nonce);
      assert c != call && t.calls[c] == s.calls[c];
      if s.calls[c].answer.Some? {
        GivingBackBreaks(base, base, t, call, c, now);
      } else if s.calls[c].tx == tx {
        SameBytesBreak(base, base, t, call, c, now);
      } else {
        OtherCallBreaks(base, base, t, call, c);
      }
    } else {
      var y :| IsPending(s, y, tx.nonce) && y != tx;
      RivalBreaks(base, base, t, call, y);
    }
  }

  lemma {:induction false} RuleGoesOn(run: Run, base: Run)
    requires Continues(run, base) && RuleKept(base)
    ensures RuleKept(run)
  {
    if run != base {
      RuleGoesOn(run.before, base);
    }
  }

  /**
   The rule is exact. Where callers have kept to it so far, sending bytes again is within it if and only if
   every run that goes on from there, and keeps to it, has at most one transaction under each nonce no hold of
   which lapsed.
   */
  lemma RuleIsExact(before: Run, tx: Tx, now: Time, call: nat)
    requires StateOf(before).Some? && RuleKept(before)
    requires Enabled(StateOf(before).value, Rebroadcast(tx, now, call))
    ensures Sendable(StateOf(before).value, tx, now) <==> StaysSafe(After(before, Rebroadcast(tx, now, call)))
  {
    hide Sendable, Enabled, OnePerNonce, Next;
    var base := After(before, Rebroadcast(tx, now, call));
    if Sendable(StateOf(before).value, tx, now) {
      forall run | Continues(run, base) && StateOf(run).Some?
        ensures OnePerNonce(StateOf(run).value)
      {
        RuleGoesOn(run, base);
        RunKeepsNonceInv(run);
      }
    } else {
      OutsideBreaks(before, tx, now, call);
    }
  }

  // ---------- A state outside the rule ----------

  const LOST := Tx(1, 0)
  const NOTHING := Node(0, {}, {}, {}, [])
  const HOLDING := Account(0, {}, map[1 := 0])

  /** A first write takes nonce 1. */
  lemma FirstTake()
    ensures AfterTake(NEW_ACCOUNT, BaseOnly(0), 0) == (HOLDING, Some(1))
    ensures Lapsing(NEW_ACCOUNT, 0) == {} && Lapsing(HOLDING, 0) == {} && AfterHold(HOLDING, 1, 0) == HOLDING
  {
    BaseOnlyShowsNone(0);
    assert Refresh(NEW_ACCOUNT, Some(BaseOnly(0)), 0) == NEW_ACCOUNT;
  }

  lemma Step(run: Run, s: State, e: Event, t: State) returns (longer: Run)
    requires StateOf(run) == Some(s) && RuleKept(run) && Enabled(s, e) && Disciplined(s, e) && Next(s, e) == t
    ensures longer == After(run, e) && StateOf(longer) == Some(t) && RuleKept(longer)
  {
    longer := After(run, e);
  }

  const TAKEN := State(NOTHING, HOLDING, map[0 := Call(LOST, true, None)], {}, map[], {}, 1)
  const UNKNOWN := State(NOTHING, HOLDING, map[], {LOST}, map[LOST := SubmissionUnknown], {}, 1)
  const SENDING := UNKNOWN.(calls := map[1 := Call(LOST, false, None)])

  /** A write whose request is lost. */
  lemma LostWrite() returns (run: Run)
    ensures StateOf(run) == Some(UNKNOWN) && RuleKept(run)
  {
    hide StateOf, RuleKept, AfterTake, Refresh, Lapsing;
    FirstTake();
    BaseOnlyShowsNone(0);
    var signed := TAKEN.(signed := {LOST});
    var lost := signed.(calls := map[0 := Call(LOST, true, Some(NoAnswer))]);
    HeardKeeps(START, 1, 0);
    StartIsKept();
    WriteStep(START, 0, 0);
    run := Step(Begin, START, Write(BaseOnly(0), 0, 0), TAKEN);
    run := Step(run, TAKEN, Signs(0), signed);
    run := Step(run, signed, NeverArrives(0), lost);
    assert lost.calls - {0} == map[] && UNKNOWN.lapsed == lost.lapsed + Lapsing(lost.account, 0);
    run := Step(run, lost, Settles(0, 0), UNKNOWN);
  }

  lemma StartIsKept()
    ensures StateOf(Begin) == Some(START) && RuleKept(Begin)
  {
  }

  lemma NothingUnder(s: State, tx: Tx, now: Time)
    requires s.node.pending == {} && s.calls == map[]
    ensures Sendable(s, tx, now)
  {
  }

  /**
   The rule is needed: a run that keeps to it, and in which the outcome of one submission is unknown, comes to
   where sending the bytes a second time while they are on their way is outside it.
   */
  lemma SendingTwiceBreaks() returns (before: Run)
    ensures StateOf(before) == Some(SENDING) && RuleKept(before)
    ensures Enabled(SENDING, Rebroadcast(LOST, 0, 2)) && !Sendable(SENDING, LOST, 0)
    ensures !StaysSafe(After(before, Rebroadcast(LOST, 0, 2)))
  {
    hide StateOf, RuleKept, StaysSafe, AfterHold, Lapsing, Refresh;
    FirstTake();
    var lost := LostWrite();
    NothingUnder(UNKNOWN, LOST, 0);
    before := Step(lost, UNKNOWN, Rebroadcast(LOST, 0, 1), SENDING);
    assert IsOpen(SENDING, 1, 1);
    RuleIsExact(before, LOST, 0, 2);
  }
}
