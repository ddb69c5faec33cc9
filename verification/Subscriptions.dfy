/** The reconnect loop of a subscription, over what the network does. */
module Subscriptions {
  import opened Arithmetic
  import opened Wrappers

  /** The longest duration, in nanoseconds. */
  const DURATION_MAX: nat := U64_MAX * 1_000_000_000 + 999_999_999

  type Duration = n: nat | n <= DURATION_MAX

  /** How a socket ended. */
  datatype PumpExit = Cancelled | ServerComplete | Disconnected(delivered: bool)

  /** What one try to reconnect meets: a cancel in the wait, the endpoint resolved, the handshake, the socket's end. */
  datatype Round = Round(cancelled: bool, resolved: Option<Option<string>>, connects: bool, exit: PumpExit) {
    predicate Opens() {
      resolved.Some? && connects
    }
  }

  type Network = nat -> Round

  datatype Options = Options(reconnect: bool, maxAttempts: Option<nat>, backoff: Duration, maxBackoff: Duration) {
    function Limit(): nat {
      if maxAttempts.Some? then maxAttempts.value else U64_MAX
    }
  }

  /** A try: its number since the last data, the wait before it, and the indexer it passes over. */
  datatype Try = Try(attempt: nat, delay: nat, evicted: Option<string>)

  function Delay(o: Options, attempt: nat): nat
    requires attempt > 0
  {
    Min(Min(o.backoff * Pow2(Min(attempt - 1, 30)), DURATION_MAX), o.maxBackoff)
  }

  // ---------- The run, one try at a time ----------

  /** How the socket open just before try `n` ended, if one was. */
  function ExitBefore(first: PumpExit, net: Network, n: nat): Option<PumpExit> {
    if n == 0 then Some(first) else if net(n - 1).Opens() then Some(net(n - 1).exit) else None
  }

  predicate DeliveredBefore(first: PumpExit, net: Network, n: nat) {
    var exit := ExitBefore(first, net, n);
    exit.Some? && exit.value.Disconnected? && exit.value.delivered
  }

  /** Tries made since a socket last delivered data, before try `n`. */
  function Attempts(first: PumpExit, net: Network, n: nat): nat {
    if n == 0 || DeliveredBefore(first, net, n) then 0 else Attempts(first, net, n - 1) + 1
  }

  /** The indexer of the last socket open before try `n`. */
  function Indexer(did: Option<string>, net: Network, n: nat): Option<string> {
    if n == 0 then did
    else if net(n - 1).Opens() then net(n - 1).resolved.value
    else Indexer(did, net, n - 1)
  }

  /** How many sockets opened by the first `n` tries delivered data. */
  function Deliveries(first: PumpExit, net: Network, n: nat): nat {
    if n == 0 then 0
    else Deliveries(first, net, n - 1) + if DeliveredBefore(first, net, n) then 1 else 0
  }

  /** Whether the run ends instead of making try `n`. */
  predicate Ends(o: Options, first: PumpExit, net: Network, n: nat) {
    var exit := ExitBefore(first, net, n);
    || (exit.Some? && !exit.value.Disconnected?)
    || !o.reconnect
    || Attempts(first, net, n) >= o.Limit()
    || net(n).cancelled
  }

  /** Try `n` of a run whose first socket was the indexer `did`'s. */
  function TryAt(o: Options, first: PumpExit, net: Network, did: Option<string>, n: nat): Try {
    var attempt := Attempts(first, net, n) + 1;
    Try(attempt, Delay(o, attempt), Indexer(did, net, n))
  }

  /** The tries made are the run's first, and the run ends before none of them. */
  ghost predicate Made(o: Options, first: PumpExit, net: Network, did: Option<string>, tries: seq<Try>) {
    forall n :: 0 <= n < |tries| ==> !Ends(o, first, net, n) && tries[n] == TryAt(o, first, net, did, n)
  }

  lemma NothingMade(o: Options, first: PumpExit, net: Network, did: Option<string>)
    ensures Made(o, first, net, did, [])
  {
  }

  lemma MadeOneMore(o: Options, first: PumpExit, net: Network, did: Option<string>, tries: seq<Try>)
    requires Made(o, first, net, did, tries) && !Ends(o, first, net, |tries|)
    ensures Made(o, first, net, did, tries + [TryAt(o, first, net, did, |tries|)])
  {
    hide Ends, TryAt;
  }

  class SubscriptionTask {
    var currentIndexer: Option<string>

    /**
     The loop makes every try until the first at which the run ends. It is followed through `watched` reconnected
     sockets that deliver data: on a network that delivers for ever it has no end, and on every other it ends,
     however many connections are accepted and dropped.
     */
    method SubscriptionLoop(o: Options, first: PumpExit, net: Network, watched: nat)
      returns (tries: seq<Try>, ended: bool)
      requires o.maxAttempts.Some? ==> o.maxAttempts.value <= U64_MAX
      modifies this
      ensures Made(o, first, net, old(currentIndexer), tries)
      ensures ended ==> Ends(o, first, net, |tries|)
      ensures !ended ==> Deliveries(first, net, |tries|) > watched
      ensures currentIndexer == Indexer(old(currentIndexer), net, |tries|)
    {
      hide Delay, Made;
      NothingMade(o, first, net, currentIndexer);
      tries := [];
      var stream := Some(first);
      var attempts, delivering := 0, 0;
      while true
        invariant stream == ExitBefore(first, net, |tries|)
        invariant |tries| == 0 ==> attempts == 0
        invariant |tries| > 0 ==> attempts == Attempts(first, net, |tries| - 1) + 1
        invariant attempts <= o.Limit()
        invariant currentIndexer == Indexer(old(currentIndexer), net, |tries|)
        invariant Made(o, first, net, old(currentIndexer), tries)
        invariant delivering <= watched && delivering == if |tries| == 0 then 0 else Deliveries(first, net, |tries| - 1)
        decreases watched + 1 - Deliveries(first, net, |tries|), o.Limit() - Attempts(first, net, |tries|)
      {
        if stream.Some? {
          match stream.value
          case Cancelled => return tries, true;
          case ServerComplete => return tries, true;
          case Disconnected(delivered) =>
            if delivered {
              attempts := 0;
              if |tries| > 0 {
                delivering := delivering + 1;
                if delivering > watched {
                  return tries, false;
                }
              }
            }
        }
        assert attempts == Attempts(first, net, |tries|);
        if !o.reconnect || attempts >= o.Limit() {
          return tries, true;
        }
        attempts := attempts + 1;
        var delay := Delay(o, attempts);
        var round := net(|tries|);
        if round.cancelled {
          return tries, true;
        }
        MadeOneMore(o, first, net, old(currentIndexer), tries);
        tries := tries + [Try(attempts, delay, currentIndexer)];
        stream := None;
        if round.resolved.None? {
          continue;
        }
        if round.connects {
          currentIndexer := round.resolved.value;
          stream := Some(round.exit);
        }
      }
    }
  }

  // ---------- What a run is, told from one try to the next ----------

  /** The first wait is the backoff; each doubles the one before until the thirty-first; none passes the cap. */
  lemma DelayDoubles(o: Options, attempt: nat)
    requires attempt > 0
    ensures Delay(o, 1) == if o.backoff <= o.maxBackoff then o.backoff else o.maxBackoff
    ensures attempt < 31 ==>
              var doubled := 2 * Delay(o, attempt);
              Delay(o, attempt + 1) == if doubled <= o.maxBackoff then doubled else o.maxBackoff
    ensures attempt >= 31 ==> Delay(o, attempt + 1) == Delay(o, attempt)
  {
    assert Pow2(0) == 1;
    if attempt < 31 {
      assert o.backoff * Pow2(attempt) == 2 * (o.backoff * Pow2(attempt - 1));
      assert Min(attempt, 30) == attempt && Min(attempt - 1, 30) == attempt - 1;
    }
  }

  /**
   Numbers start at 1 and start over only after a socket that delivered data; a try passes over the indexer of the
   last socket that connected; it is made only after a socket that was dropped, within the limit, if nobody cancels.
   */
  lemma EachTry(o: Options, first: PumpExit, net: Network, did: Option<string>, tries: seq<Try>, n: nat)
    requires Made(o, first, net, did, tries) && n < |tries|
    ensures o.reconnect && !net(n).cancelled
    ensures o.maxAttempts.Some? ==> tries[n].attempt <= o.maxAttempts.value
    ensures tries[n].delay == Delay(o, tries[n].attempt)
    ensures n == 0 ==> first.Disconnected? && tries[0].attempt == 1 && tries[0].evicted == did
    ensures n > 0 ==>
              var connected := net(n - 1).resolved.Some? && net(n - 1).connects;
              && (connected ==> net(n - 1).exit.Disconnected?)
              && tries[n].attempt == (if connected && net(n - 1).exit.delivered then 1 else tries[n - 1].attempt + 1)
              && tries[n].evicted == if connected then net(n - 1).resolved.value else tries[n - 1].evicted
  {
    hide Delay;
    assert !Ends(o, first, net, n) && tries[n] == TryAt(o, first, net, did, n);
    if n > 0 {
      assert tries[n - 1] == TryAt(o, first, net, did, n - 1);
    }
  }

  /** What ends a run after the tries made: a socket's end that is final, the options, the limit, or a cancel. */
  lemma RunEnds(o: Options, first: PumpExit, net: Network, did: Option<string>, tries: seq<Try>)
    requires Made(o, first, net, did, tries)
    ensures tries == [] ==>
              (Ends(o, first, net, 0) <==>
               (|| !first.Disconnected?
                || !o.reconnect
                || o.maxAttempts == Some(0)
                || net(0).cancelled))
    ensures tries != [] ==>
              var last, tried := net(|tries| - 1), tries[|tries| - 1].attempt;
              var connected := last.resolved.Some? && last.connects;
              var since := if connected && last.exit.Disconnected? && last.exit.delivered then 0 else tried;
              (Ends(o, first, net, |tries|) <==>
               (|| (connected && !last.exit.Disconnected?)
                || !o.reconnect
                || since >= (if o.maxAttempts.Some? then o.maxAttempts.value else 0xFFFF_FFFF_FFFF_FFFF)
                || net(|tries|).cancelled))
  {
    hide Delay;
    if tries != [] {
      assert tries[|tries| - 1] == TryAt(o, first, net, did, |tries| - 1);
    }
  }

  // ---------- What a run keeps ----------

  /** At most the limit of tries follows each socket that delivered data, and the first: so many in all. */
  lemma {:induction false} TriesAreBounded(o: Options, first: PumpExit, net: Network, n: nat)
    requires forall k :: 0 <= k < n ==> !Ends(o, first, net, k)
    ensures n <= o.Limit() * Deliveries(first, net, n) + Attempts(first, net, n)
    ensures Attempts(first, net, n) <= o.Limit()
    ensures n <= o.Limit() * (Deliveries(first, net, n) + 1)
  {
    if n > 0 {
      TriesAreBounded(o, first, net, n - 1);
      assert !Ends(o, first, net, n - 1);
    }
  }

  /** Between sockets that deliver, waits only grow, and none passes the cap. */
  lemma DelaysGrow(o: Options, first: PumpExit, net: Network, n: nat)
    requires n > 0 && !DeliveredBefore(first, net, n)
    ensures Delay(o, Attempts(first, net, n - 1) + 1) <= Delay(o, Attempts(first, net, n) + 1) <= o.maxBackoff
  {
    var a := Attempts(first, net, n - 1);
    var m, m' := Min(a, 30), Min(a + 1, 30);
    Pow2Monotonic(m, m');
    Scaled(o.backoff, Pow2(m), Pow2(m'));
  }

  lemma Scaled(b: nat, x: nat, y: nat)
    requires x <= y
    ensures b * x <= b * y
  {
  }
}
