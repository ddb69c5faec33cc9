/**
 The client's tracker, its submissions in flight, and a node with a mempool, as one step machine over one
 signing DID. Each event is one atomic step; steps of different calls interleave freely.
 */
module Protocol {
  import opened Arithmetic
  import opened Wrappers
  import opened Nonces
  import opened Submissions

  /** A signed transaction: its nonce, and which build its bytes come from. */
  datatype Tx = Tx(nonce: u64, id: nat)

  datatype Node = Node(base: u64, used: set<u64>, pending: set<Tx>, held: set<u64>, executed: seq<Tx>) {
    predicate Dead(n: u64) {
      n <= base || n in used
    }
  }

  /** A submission in flight; `first` for a new write, which has not been sent before. */
  datatype Call = Call(tx: Tx, first: bool, answer: Option<Answer>)

  /**
   `signed` are the transactions built and encoded; `told` is what callers heard last of each; `lapsed` are the
   nonces a hold of which was dropped for its age.
   */
  datatype State = State(node: Node, account: Account, calls: map<nat, Call>, signed: set<Tx>, told: map<Tx, Outcome>,
                         lapsed: set<u64>, nextId: nat)

  const START := State(Node(0, {}, {}, {}, []), NEW_ACCOUNT, map[], {}, map[], {}, 0)

  datatype Event =
    | Write(state: AccountNonceState, now: Time, call: nat)
    | Signs(call: nat)
    | BuildFails(call: nat)
    | Rebroadcast(tx: Tx, now: Time, call: nat)
    | NodeAdmits(call: nat)
    | NodeHasIt(call: nat)
    | NodeRefuses(call: nat, log: string)
    | NotTakenIn(call: nat)
    | NeverArrives(call: nat)
    | AnswerLost(call: nat)
    | Settles(call: nat, now: Time)
    | Reads(now: Time)
    | Executes(tx: Tx)
    | Drops(tx: Tx)
    | NodeHoldLapses(n: u64)
    | Foreign(n: u64, executes: bool)
    | BaseAdvances

  /** An answer of the chain, however stale, shows used only what is. */
  predicate Truthful(node: Node, state: AccountNonceState) {
    state.base <= node.base && forall n :: n in state.UsedNonces() ==> node.Dead(n)
  }

  function Lapsing(a: Account, now: Time): set<u64> {
    set n | n in a.handed && Since(now, a.handed[n]) >= NONCE_HOLD
  }

  /** A write that has its nonce, and not yet its bytes. */
  predicate Building(s: State, call: nat) {
    call in s.calls && s.calls[call].first && s.calls[call].answer.None? && s.calls[call].tx !in s.signed
  }

  /** A call whose bytes are on their way, and not yet answered. */
  predicate Sent(s: State, call: nat) {
    call in s.calls && s.calls[call].answer.None? && s.calls[call].tx in s.signed
  }

  /** A call whose settling would give its nonce back. */
  predicate WouldGiveBack(c: Call) {
    || (c.first && (c.answer.None? || c.answer.value.NotTaken?))
    || (c.answer.Some? && c.answer.value.Refused? && RefusalOutcome(c.answer.value.log, c.tx.nonce).Free?)
  }

  /** A call that could still put its transaction in the mempool, or give its nonce back. */
  predicate Open(c: Call) {
    c.answer.None? || WouldGiveBack(c)
  }

  predicate IsOpen(s: State, call: nat, n: u64) {
    call in s.calls && s.calls[call].tx.nonce == n && Open(s.calls[call])
  }

  predicate IsPending(s: State, tx: Tx, n: u64) {
    tx in s.node.pending && tx.nonce == n
  }

  ghost predicate OpenUnder(s: State, n: u64) {
    exists c :: IsOpen(s, c, n)
  }

  ghost predicate PendingUnder(s: State, n: u64) {
    exists y :: IsPending(s, y, n)
  }

  /** Another transaction of the client is pending under the nonce of `tx`. */
  ghost predicate Rivalled(s: State, tx: Tx) {
    exists y :: IsPending(s, y, tx.nonce) && y != tx
  }

  /** A transaction could still land under the nonce, and no hold of it has lapsed. */
  predicate AtStake(s: State, n: u64) {
    n !in s.lapsed && !s.node.Dead(n)
  }

  /**
   The rule for sending `tx` again, at time `now`: nothing is at stake under its nonce, or no call under it is
   open and no other transaction is pending under it.
   */
  ghost predicate Sendable(s: State, tx: Tx, now: Time) {
    AtStake(s, tx.nonce) && tx.nonce !in Lapsing(s.account, now) ==> !OpenUnder(s, tx.nonce) && !Rivalled(s, tx)
  }

  ghost predicate Disciplined(s: State, e: Event) {
    e.Rebroadcast? ==> Sendable(s, e.tx, e.now)
  }

  predicate Enabled(s: State, e: Event) {
    match e
    case Write(state, now, call) =>
      call !in s.calls && Truthful(s.node, state) && Refresh(s.account, Some(state), now).base < U64_MAX
    case Signs(call) => Building(s, call)
    case BuildFails(call) => Building(s, call)
    case Rebroadcast(tx, _, call) => call !in s.calls && tx in s.signed
    case NodeAdmits(call) =>
      && Sent(s, call)
      && var tx := s.calls[call].tx;
      && tx !in s.node.pending && !s.node.Dead(tx.nonce)
      && tx.nonce !in s.node.held && tx.nonce <= s.node.base + NONCE_WINDOW
    case NodeHasIt(call) =>
      Sent(s, call) && (s.calls[call].tx in s.node.pending || s.calls[call].tx in s.node.executed)
    // The node looks in its cache before CheckTx, and names a nonce that is used or held.
    case NodeRefuses(call, log) =>
      && Sent(s, call)
      && var tx := s.calls[call].tx;
      && tx !in s.node.pending
      && (match RefusalOutcome(log, tx.nonce)
          case Used => s.node.Dead(tx.nonce)
          case Held => tx.nonce in s.node.held
          case _ => !s.node.Dead(tx.nonce) && tx.nonce !in s.node.held)
    case NotTakenIn(call) => Sent(s, call)
    case NeverArrives(call) => Sent(s, call)
    case AnswerLost(call) => call in s.calls && s.calls[call].answer.Some?
    case Settles(call, _) => call in s.calls && s.calls[call].answer.Some?
    case Reads(_) => true
    case Executes(tx) => tx in s.node.pending
    case Drops(tx) => tx in s.node.pending
    case NodeHoldLapses(n) => n in s.node.held
    case Foreign(n, _) => !s.node.Dead(n) && n !in s.node.held
    case BaseAdvances => s.node.base < U64_MAX && s.node.base + 1 in s.node.used
  }

  function Answers(s: State, call: nat, answer: Answer): State
    requires call in s.calls
  {
    s.(calls := s.calls[call := s.calls[call].(answer := Some(answer))])
  }

  function Next(s: State, e: Event): State
    requires Enabled(s, e)
  {
    match e
    case Write(state, now, call) =>
      var (a, nonce) := AfterTake(s.account, state, now);
      var taken := s.(account := a, lapsed := s.lapsed + Lapsing(s.account, now));
      if nonce.None? then taken
      else
        taken.(calls := s.calls[call := Call(Tx(nonce.value, s.nextId), true, None)], nextId := s.nextId + 1)
    case Signs(call) => s.(signed := s.signed + {s.calls[call].tx})
    case BuildFails(call) =>
      s.(account := AfterRelease(s.account, s.calls[call].tx.nonce), calls := s.calls - {call})
    case Rebroadcast(tx, now, call) =>
      s.(account := AfterHold(s.account, tx.nonce, now), lapsed := s.lapsed + Lapsing(s.account, now),
      calls := s.calls[call := Call(tx, false, None)])
    case NodeAdmits(call) =>
      var tx := s.calls[call].tx;
      Answers(s, call, Admitted).(node := s.node.(pending := s.node.pending + {tx}, held := s.node.held + {tx.nonce}))
    case NodeHasIt(call) => Answers(s, call, Admitted)
    case NodeRefuses(call, log) => Answers(s, call, Refused(log))
    case NotTakenIn(call) => Answers(s, call, NotTaken)
    case NeverArrives(call) => Answers(s, call, NoAnswer)
    case AnswerLost(call) => Answers(s, call, NoAnswer)
    case Settles(call, now) =>
      var c := s.calls[call];
      s.(account := AfterAnswer(s.account, c.tx.nonce, c.answer.value, c.first, now),
      lapsed := s.lapsed + Lapsing(s.account, now),
      calls := s.calls - {call},
      told := s.told[c.tx := Told(c.tx.nonce, c.answer.value, c.first)])
    case Reads(now) => s.(account := Refresh(s.account, None, now), lapsed := s.lapsed + Lapsing(s.account, now))
    case Executes(tx) =>
      var pending := s.node.pending - {tx};
      if s.node.Dead(tx.nonce) then s.(node := s.node.(pending := pending))
      else s.(node := s.node.(pending := pending, used := s.node.used + {tx.nonce}, executed := s.node.executed + [tx]))
    case Drops(tx) => s.(node := s.node.(pending := s.node.pending - {tx}))
    case NodeHoldLapses(n) => s.(node := s.node.(held := s.node.held - {n}))
    case Foreign(n, executes) =>
      if executes then s.(node := s.node.(used := s.node.used + {n}))
      else s.(node := s.node.(held := s.node.held + {n}))
    case BaseAdvances => s.(node := s.node.(base := s.node.base + 1))
  }

  // ---------- Runs ----------

  /** A run: the events so far, the last one outermost. */
  datatype Run = Begin | After(before: Run, event: Event)

  /** The state a run ends in, if every event of it was enabled where it happened. */
  function StateOf(run: Run): Option<State> {
    match run
    case Begin => Some(START)
    case After(before, event) =>
      var s :- StateOf(before);
      if Enabled(s, event) then Some(Next(s, event)) else None
  }

  /** Callers kept to the rule throughout. */
  ghost predicate RuleKept(run: Run) {
    match run
    case Begin => true
    case After(before, event) => RuleKept(before) && StateOf(before).Some? && Disciplined(StateOf(before).value, event)
  }

  // ---------- The invariant ----------

  /** What is dead for the client is dead for the node; a nonce runs once. */
  ghost predicate NodeInv(s: State) {
    && (forall n: u64 :: s.account.Dead(n) ==> s.node.Dead(n))
    && (forall i :: 0 <= i < |s.node.executed| ==> s.node.Dead(s.node.executed[i].nonce))
    && (forall i, j :: 0 <= i < j < |s.node.executed| ==> s.node.executed[i].nonce != s.node.executed[j].nonce)
    && (forall c :: c in s.calls && s.calls[c].answer.Some? && s.calls[c].answer.value.Refused?
                    && RefusalOutcome(s.calls[c].answer.value.log, s.calls[c].tx.nonce).Used? ==>
                      s.node.Dead(s.calls[c].tx.nonce))
  }

  /** What the node has was signed; what is still being built is a new write's. */
  ghost predicate SignedInv(s: State) {
    && (forall tx :: tx in s.signed ==> tx.id < s.nextId)
    && (forall tx :: AtNode(s, tx) ==> tx in s.signed)
    && (forall c :: c in s.calls ==>
                      && s.calls[c].tx.id < s.nextId
                      && (s.calls[c].tx in s.signed || (s.calls[c].first && s.calls[c].answer.None?)))
  }

  ghost predicate OneOpen(s: State, n: u64) {
    forall c, d :: IsOpen(s, c, n) && IsOpen(s, d, n) ==> c == d
  }

  ghost predicate OnePending(s: State, n: u64) {
    forall x, y :: IsPending(s, x, n) && IsPending(s, y, n) ==> x == y
  }

  ghost predicate Matching(s: State, n: u64) {
    forall c, y :: IsOpen(s, c, n) && IsPending(s, y, n) ==> y == s.calls[c].tx && !WouldGiveBack(s.calls[c])
  }

  /**
   Under a nonce at stake: at most one call is open, at most one transaction is pending, an open call beside it
   is of the same bytes and will not give the nonce back, and the client does not hand the nonce out.
   */
  ghost predicate NonceInv(s: State, n: u64) {
    && OneOpen(s, n) && OnePending(s, n) && Matching(s, n)
    && (OpenUnder(s, n) || PendingUnder(s, n) ==> n in s.account.handed)
  }

  predicate AtNode(s: State, tx: Tx) {
    tx in s.node.pending || tx in s.node.executed
  }

  /** Unless a hold of the nonce lapsed, no two transactions of the client under it are pending or executed. */
  ghost predicate OnePerNonce(s: State) {
    forall x: Tx, y: Tx :: AtNode(s, x) && AtNode(s, y) && x.nonce == y.nonce && x.nonce !in s.lapsed ==> x == y
  }
}
