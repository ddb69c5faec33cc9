/**
 How recent a proven root is: the chain's latest height as its endpoints report it, and two header
 probes that decide whether any header within the lag carries the root.
 */
module LightClient {
  import opened Arithmetic
  import opened ByteStrings
  import opened Wrappers

  // ---------- The latest height ----------

  /** The heights of the endpoints that answered. */
  function Answered(answers: seq<Option<nat>>): seq<nat> {
    if answers == [] then []
    else (if answers[0].Some? then [answers[0].value] else []) + Answered(answers[1..])
  }

  function Insert(h: nat, s: seq<nat>): (r: seq<nat>)
    ensures multiset(r) == multiset(s) + multiset{h} && |r| == |s| + 1
  {
    if s == [] || h >= s[0] then [h] + s
    else
      assert s == [s[0]] + s[1..];
      [s[0]] + Insert(h, s[1..])
  }

  /** The heights sorted highest first: what the library's sort leaves. */
  function HighestFirst(s: seq<nat>): (r: seq<nat>)
    ensures multiset(r) == multiset(s) && |r| == |s|
  {
    if s == [] then []
    else
      assert s == [s[0]] + s[1..];
      Insert(s[0], HighestFirst(s[1..]))
  }

  predicate Descending(s: seq<nat>) {
    forall i, j :: 0 <= i < j < |s| ==> s[i] >= s[j]
  }

  lemma {:induction false} InsertDescends(h: nat, s: seq<nat>, bound: nat)
    requires Descending(s) && h <= bound && (s != [] ==> s[0] <= bound)
    ensures Descending(Insert(h, s)) && Insert(h, s)[0] <= bound
  {
    if s == [] || h >= s[0] {
      ConsDescends(h, s);
    } else {
      var rest := s[1..];
      assert Descending(rest) by {
        assert forall i :: 0 <= i < |rest| ==> rest[i] == s[i + 1];
      }
      InsertDescends(h, rest, s[0]);
      ConsDescends(s[0], Insert(h, rest));
    }
  }

  lemma ConsDescends(x: nat, s: seq<nat>)
    requires Descending(s) && (s != [] ==> s[0] <= x)
    ensures Descending([x] + s)
  {
    var all := [x] + s;
    assert forall i :: 0 < i < |all| ==> all[i] == s[i - 1] <= s[0] <= x;
  }

  lemma {:induction false} HighestFirstDescends(s: seq<nat>)
    ensures Descending(HighestFirst(s))
  {
    if s != [] {
      HighestFirstDescends(s[1..]);
      var sorted := HighestFirst(s[1..]);
      InsertDescends(s[0], sorted, if sorted == [] then s[0] else Max(s[0], sorted[0]));
    }
  }

  /** How many of the heights have reached `h`. */
  function Reached(s: seq<nat>, h: nat): (n: nat)
    ensures n <= |s|
  {
    if s == [] then 0 else (if s[0] >= h then 1 else 0) + Reached(s[1..], h)
  }

  /** How many answering endpoints a height must have been reached by. */
  function Quorum(needed: nat, answering: nat): nat {
    Max(needed, answering / 2 + 1)
  }

  /** The greatest of `among` that at least `k` of the heights have reached; 0 if there is none. */
  function GreatestReached(heights: seq<nat>, k: nat, among: seq<nat>): nat {
    if among == [] then 0
    else Max(if Reached(heights, among[0]) >= k then among[0] else 0, GreatestReached(heights, k, among[1..]))
  }

  function LatestHeight(answers: seq<Option<nat>>, minValidators: nat, held: nat): Option<nat> {
    var heights, needed := Answered(answers), Max(minValidators, 1);
    if |heights| < needed then None
    else Some(Max(GreatestReached(heights, Quorum(needed, |heights|), heights), held))
  }

  /** The endpoints that answered. */
  function Answering(answers: seq<Option<nat>>): set<nat> {
    set i: nat | i < |answers| && answers[i].Some?
  }

  /** The endpoints that answered a height of at least `h`. */
  function Reporting(answers: seq<Option<nat>>, h: nat): set<nat> {
    set i: nat | i < |answers| && answers[i].Some? && answers[i].value >= h
  }

  /** The heights counted are the endpoints' answers, each as often as it was given. */
  lemma {:induction false} AnswersAreCounted(answers: seq<Option<nat>>, h: nat)
    ensures |Answered(answers)| == |Answering(answers)|
    ensures Reached(Answered(answers), h) == |Reporting(answers, h)|
  {
    if answers != [] {
      var init, last := answers[..|answers| - 1], |answers| - 1;
      hide Answered, Reached, Answering, Reporting;
      AnswersAreCounted(init, h);
      AnsweredSnoc(init, answers[last], h);
      OneMoreAnswer(init, answers[last], h);
      assert init + [answers[last]] == answers;
    } else {
      assert Answering(answers) == {} && Reporting(answers, h) == {};
    }
  }

  lemma OneMoreAnswer(answers: seq<Option<nat>>, last: Option<nat>, h: nat)
    ensures |Answering(answers + [last])| == |Answering(answers)| + if last.Some? then 1 else 0
    ensures |Reporting(answers + [last], h)| == |Reporting(answers, h)| + if last.Some? && last.value >= h then 1 else 0
  {
    var all, n := answers + [last], |answers|;
    assert Answering(all) == Answering(answers) + if last.Some? then {n} else {};
    assert Reporting(all, h) == Reporting(answers, h) + if last.Some? && last.value >= h then {n} else {};
  }

  lemma {:induction false} AnsweredSnoc(answers: seq<Option<nat>>, last: Option<nat>, h: nat)
    ensures |Answered(answers + [last])| == |Answered(answers)| + if last.Some? then 1 else 0
    ensures Reached(Answered(answers + [last]), h)
         == Reached(Answered(answers), h) + if last.Some? && last.value >= h then 1 else 0
  {
    if answers != [] {
      AnsweredSnoc(answers[1..], last, h);
      assert (answers + [last])[0] == answers[0] && (answers + [last])[1..] == answers[1..] + [last];
      AnsweredCons(answers, h);
      AnsweredCons(answers + [last], h);
    } else {
      assert [] + [last] == [last] && [last][1..] == [];
      AnsweredCons([last], h);
    }
  }

  lemma AnsweredCons(answers: seq<Option<nat>>, h: nat)
    requires answers != []
    ensures |Answered(answers)| == |Answered(answers[1..])| + if answers[0].Some? then 1 else 0
    ensures Reached(Answered(answers), h)
         == Reached(Answered(answers[1..]), h) + if answers[0].Some? && answers[0].value >= h then 1 else 0
  {
    var rest := Answered(answers[1..]);
    if answers[0].Some? {
      assert Answered(answers) == [answers[0].value] + rest && Answered(answers)[1..] == rest;
    } else {
      assert Answered(answers) == [] + rest == rest;
    }
  }

  /** Sorted, the height at a quorum's rank is the greatest a quorum reached. */
  method LatestChainHeight(answers: seq<Option<nat>>, minValidators: nat, held: nat) returns (r: Option<nat>)
    ensures r == LatestHeight(answers, minValidators, held)
    ensures r.Some? <==> |Answering(answers)| >= minValidators && Answering(answers) != {}
    ensures r.Some? ==>
              forall h: nat ::
                h <= r.value <==>
                || (|Reporting(answers, h)| >= minValidators && 2 * |Reporting(answers, h)| > |Answering(answers)|)
                || h <= held
  {
    hide HighestFirst, Reached, Answered, GreatestReached;
    var heights := Answered(answers);
    var needed := Max(minValidators, 1);
    forall h: nat
      ensures |Answered(answers)| == |Answering(answers)| && Reached(heights, h) == |Reporting(answers, h)|
    {
      AnswersAreCounted(answers, h);
    }
    assert |Answered(answers)| == |Answering(answers)| by {
      AnswersAreCounted(answers, 0);
    }
    if |heights| < needed {
      return None;
    }
    ghost var all := heights;
    var k := Quorum(needed, |heights|);
    heights := HighestFirst(heights);
    var reached := heights[k - 1];
    RankIsGreatest(all, k);
    return Some(Max(reached, held));
  }

  lemma {:induction false} ReachedInsert(h: nat, s: seq<nat>, x: nat)
    ensures Reached(Insert(h, s), x) == Reached(s, x) + if h >= x then 1 else 0
  {
    if s != [] && h < s[0] {
      ReachedInsert(h, s[1..], x);
      assert Insert(h, s)[1..] == Insert(h, s[1..]);
    } else {
      assert Insert(h, s)[1..] == s;
    }
  }

  lemma {:induction false} ReachedSorted(s: seq<nat>, x: nat)
    ensures Reached(HighestFirst(s), x) == Reached(s, x)
  {
    if s != [] {
      ReachedSorted(s[1..], x);
      ReachedInsert(s[0], HighestFirst(s[1..]), x);
    }
  }

  lemma {:induction false} ReachedAtRank(s: seq<nat>, k: nat, x: nat)
    requires Descending(s) && k < |s|
    ensures s[k] >= x <==> Reached(s, x) >= k + 1
  {
    if k > 0 {
      ReachedAtRank(s[1..], k - 1, x);
      assert s[0] >= s[k];
    } else if s[0] < x {
      NoneReached(s, x);
    }
  }

  lemma {:induction false} NoneReached(s: seq<nat>, x: nat)
    requires forall i :: 0 <= i < |s| ==> s[i] < x
    ensures Reached(s, x) == 0
  {
    if s != [] {
      NoneReached(s[1..], x);
    }
  }

  lemma {:induction false} GreatestOf(heights: seq<nat>, k: nat, among: seq<nat>)
    ensures var g := GreatestReached(heights, k, among);
            && (g == 0 || Reached(heights, g) >= k)
            && forall x :: x in among && Reached(heights, x) >= k ==> x <= g
  {
    hide Reached;
    if among != [] {
      GreatestOf(heights, k, among[1..]);
      assert forall x :: x in among ==> x == among[0] || x in among[1..];
    }
  }

  lemma RankReached(heights: seq<nat>, k: nat, h: nat)
    requires 0 < k <= |heights|
    ensures h <= HighestFirst(heights)[k - 1] <==> Reached(heights, h) >= k
  {
    hide HighestFirst, Reached, Descending;
    HighestFirstDescends(heights);
    ReachedSorted(heights, h);
    ReachedAtRank(HighestFirst(heights), k - 1, h);
  }

  /** The k-th highest is the greatest height that k have reached. */
  lemma RankIsGreatest(heights: seq<nat>, k: nat)
    requires 0 < k <= |heights|
    ensures HighestFirst(heights)[k - 1] == GreatestReached(heights, k, heights)
    ensures forall h: nat :: h <= GreatestReached(heights, k, heights) <==> Reached(heights, h) >= k
  {
    hide HighestFirst, Reached, GreatestReached;
    var sorted := HighestFirst(heights);
    var x, g := sorted[k - 1], GreatestReached(heights, k, heights);
    GreatestOf(heights, k, heights);
    RankReached(heights, k, x);
    RankReached(heights, k, g);
    assert x in multiset(sorted) && multiset(sorted) == multiset(heights);
    assert x in heights;
    forall h: nat
      ensures h <= x <==> Reached(heights, h) >= k
    {
      RankReached(heights, k, h);
    }
  }

  /** The latest height is the greatest that a quorum of the answering endpoints reached, or the client holds. */
  lemma LatestHeightIsQuorumHeight(answers: seq<Option<nat>>, minValidators: nat, held: nat)
    requires LatestHeight(answers, minValidators, held).Some?
    ensures var (heights, latest) := (Answered(answers), LatestHeight(answers, minValidators, held).value);
            var k := Quorum(Max(minValidators, 1), |heights|);
            k <= |heights| && forall h: nat :: h <= latest <==> Reached(heights, h) >= k || h <= held
  {
    hide Reached, Answered, GreatestReached;
    var heights := Answered(answers);
    RankIsGreatest(heights, Quorum(Max(minValidators, 1), |heights|));
  }

  /** The answers of a set of endpoints: which ones are honest, by index into the answered heights. */
  function HonestCount(heights: seq<nat>, honest: set<nat>, from: nat): nat
    requires from <= |heights|
    decreases |heights| - from
  {
    if from == |heights| then 0
    else (if from in honest then 1 else 0) + HonestCount(heights, honest, from + 1)
  }

  lemma {:induction false} HonestReach(heights: seq<nat>, honest: set<nat>, from: nat, low: nat, high: nat)
    requires from <= |heights|
    requires forall i :: from <= i < |heights| && i in honest ==> low <= heights[i] <= high
    ensures Reached(heights[from..], low) >= HonestCount(heights, honest, from)
    ensures Reached(heights[from..], high + 1) <= |heights| - from - HonestCount(heights, honest, from)
    decreases |heights| - from
  {
    if from < |heights| {
      HonestReach(heights, honest, from + 1, low, high);
      assert heights[from..][1..] == heights[from + 1..];
    }
  }

  /**
   With a strict majority of the answering endpoints honest, and no more needed than a majority, the
   latest height lies between the lowest and the highest honest answer.
   */
  lemma MajorityBoundsLatestHeight(answers: seq<Option<nat>>, minValidators: nat, honest: set<nat>, low: nat, high: nat)
    requires LatestHeight(answers, minValidators, 0).Some?
    requires var heights := Answered(answers);
             && 2 * HonestCount(heights, honest, 0) > |heights|
             && Max(minValidators, 1) <= |heights| / 2 + 1
             && forall i :: 0 <= i < |heights| && i in honest ==> low <= heights[i] <= high
    ensures low <= LatestHeight(answers, minValidators, 0).value <= high
  {
    var heights := Answered(answers);
    LatestHeightIsQuorumHeight(answers, minValidators, 0);
    HonestReach(heights, honest, 0, low, high);
    assert heights[0..] == heights;
    assert Reached(heights, low) >= |heights| / 2 + 1;
    assert Reached(heights, high + 1) < |heights| / 2 + 1;
  }

  // ---------- Headers ----------

  /** What one endpoint answers for the app hash in a header, at the time it is asked. */
  type Endpoint = nat -> Option<Bytes>

  /** A lookup of headers' app hashes, which may not find one. */
  type Headers = nat -> Option<Bytes>

  /** The first endpoint's app hash that serves the header at `height`. */
  function FirstServed(endpoints: seq<Endpoint>, height: nat): Option<Bytes> {
    if endpoints == [] then None
    else
      var answer := endpoints[0](height);
      if answer.Some? then answer else FirstServed(endpoints[1..], height)
  }

  function FirstRound(rounds: seq<seq<Endpoint>>, height: nat): Option<Bytes> {
    if rounds == [] then None
    else
      var answer := FirstServed(rounds[0], height);
      if answer.Some? then answer else FirstRound(rounds[1..], height)
  }

  /**
   What the client sees of the chain during one check: the app hashes of headers it holds, its latest header's
   height, the endpoints' heights, and their answers, asked once and in rounds until a deadline.
   */
  datatype View = View(
    held: map<nat, Bytes>,
    heldHeight: nat,
    statuses: seq<Option<nat>>,
    rounds: seq<seq<Endpoint>>,
    endpoints: seq<Endpoint>)
  {
    /** The app hash of a header looked up once. */
    function At(height: nat): Option<Bytes> {
      if height in held then Some(held[height]) else FirstServed(endpoints, height)
    }

    function Lookup(): Headers {
      height => At(height)
    }

    /** The app hash of a header waited for. */
    function Awaited(height: nat): Option<Bytes> {
      if height in held then Some(held[height]) else FirstRound(rounds, height)
    }
  }

  datatype RecencyError = NoLatestHeight | NoBlockAfter | NoHeader | RootMismatch | HeightOutOfRange

  method AskEndpoints(endpoints: seq<Endpoint>, height: nat) returns (r: Option<Bytes>)
    ensures r == FirstServed(endpoints, height)
    ensures r.Some? <==> exists i :: 0 <= i < |endpoints| && endpoints[i](height).Some?
    ensures r.Some? ==> exists i :: 0 <= i < |endpoints| && endpoints[i](height) == r
                                    && forall j :: 0 <= j < i ==> endpoints[j](height).None?
  {
    for i := 0 to |endpoints|
      invariant FirstServed(endpoints, height) == FirstServed(endpoints[i..], height)
      invariant forall j :: 0 <= j < i ==> endpoints[j](height).None?
    {
      var answer := endpoints[i](height);
      if answer.Some? {
        return answer;
      }
      assert endpoints[i..][1..] == endpoints[i + 1..];
    }
    return None;
  }

  method AppHashAt(view: View, height: nat) returns (r: Result<Bytes, RecencyError>)
    ensures r == (match view.At(height) case Some(appHash) => Ok(appHash) case None => Err(NoHeader))
    ensures height in view.held ==> r == Ok(view.held[height])
    ensures height !in view.held ==>
              (r.Ok? <==> exists i :: 0 <= i < |view.endpoints| && view.endpoints[i](height).Some?)
    ensures height !in view.held && r.Ok? ==>
              exists i :: 0 <= i < |view.endpoints| && view.endpoints[i](height) == Some(r.value)
                          && forall j :: 0 <= j < i ==> view.endpoints[j](height).None?
  {
    if height in view.held {
      return Ok(view.held[height]);
    }
    var answer := AskEndpoints(view.endpoints, height);
    return if answer.Some? then Ok(answer.value) else Err(NoHeader);
  }

  /** The app hash of the state after block `height`: polled for in the next block's header. */
  method AppHashAfter(view: View, height: nat) returns (r: Result<Bytes, RecencyError>)
    ensures height >= U64_MAX ==> r == Err(NoBlockAfter)
    ensures height < U64_MAX ==>
              r == match view.Awaited(height + 1) case Some(appHash) => Ok(appHash) case None => Err(NoHeader)
    ensures height < U64_MAX && height + 1 in view.held ==> r == Ok(view.held[height + 1])
    ensures height < U64_MAX && height + 1 !in view.held ==>
              (r.Ok? <==> exists i, j :: 0 <= i < |view.rounds| && 0 <= j < |view.rounds[i]|
                                         && view.rounds[i][j](height + 1).Some?)
    ensures height < U64_MAX && height + 1 !in view.held && r.Ok? ==>
              exists i, j :: 0 <= i < |view.rounds| && 0 <= j < |view.rounds[i]|
                             && view.rounds[i][j](height + 1) == Some(r.value)
                             && (forall l :: 0 <= l < j ==> view.rounds[i][l](height + 1).None?)
                             && forall k, l :: 0 <= k < i && 0 <= l < |view.rounds[k]| ==>
                                                 view.rounds[k][l](height + 1).None?
  {
    if height >= U64_MAX {
      return Err(NoBlockAfter);
    }
    var next := height + 1;
    if next in view.held {
      return Ok(view.held[next]);
    }
    var rounds := view.rounds;
    for i := 0 to |rounds|
      invariant FirstRound(rounds, next) == FirstRound(rounds[i..], next)
      invariant forall k, j :: 0 <= k < i && 0 <= j < |rounds[k]| ==> rounds[k][j](next).None?
    {
      var answer := AskEndpoints(rounds[i], next);
      if answer.Some? {
        return Ok(answer.value);
      }
      assert rounds[i..][1..] == rounds[i + 1..];
    }
    return Err(NoHeader);
  }

  // ---------- Recency ----------

  /** The decision of the check, on the header awaited after `height` and at most two more looked up. */
  function RecentHeader(next: Option<Bytes>, at: Headers, root: Bytes, height: nat, latest: nat, lag: nat):
    Result<nat, RecencyError>
  {
    if height > latest && height - latest > lag then Err(HeightOutOfRange)
    else if height >= U64_MAX then Err(NoBlockAfter)
    else if next.None? then Err(NoHeader)
    else if next.value != root then Err(RootMismatch)
    else if latest < height || latest - height <= lag then Ok(height + 1)
    else if lag == 0 then Err(HeightOutOfRange)
    else if at(latest).None? then Err(NoHeader)
    else if at(latest).value == root then Ok(latest)
    else if at(latest - lag + 1).None? then Err(NoHeader)
    else if at(latest - lag + 1).value == root then Ok(latest - lag + 1)
    else Err(HeightOutOfRange)
  }

  method VerifyRootAfter(view: View, minValidators: nat, lag: nat, root: Bytes, height: nat)
    returns (r: Result<nat, RecencyError>)
    ensures r == match LatestHeight(view.statuses, minValidators, view.heldHeight)
                 case None => Err(NoLatestHeight)
                 case Some(latest) =>
                   RecentHeader(view.Awaited(height + 1), view.Lookup(), root, height, latest, lag)
  {
    var latestHeight := LatestChainHeight(view.statuses, minValidators, view.heldHeight);
    if latestHeight.None? {
      return Err(NoLatestHeight);
    }
    var latest := latestHeight.value;
    if height > latest && height - latest > lag {
      return Err(HeightOutOfRange);
    }
    if height >= U64_MAX {
      return Err(NoBlockAfter);
    }
    var carried :- AppHashAfter(view, height);
    if carried != root {
      return Err(RootMismatch);
    }
    if latest < height || latest - height <= lag {
      return Ok(height + 1);
    }
    if lag > 0 {
      var probes := [latest, latest - lag + 1];
      for i := 0 to 2
        invariant i > 0 ==> view.At(latest).Some? && view.At(latest).value != root
        invariant i > 1 ==> view.At(latest - lag + 1).Some? && view.At(latest - lag + 1).value != root
      {
        var appHash :- AppHashAt(view, probes[i]);
        if appHash == root {
          return Ok(probes[i]);
        }
      }
    }
    return Err(HeightOutOfRange);
  }

  // ---------- What a recent header says ----------

  /** The app hash in the header at each height. */
  type Chain = nat -> Bytes

  /** What is looked up is the chain's. */
  ghost predicate Honest(chain: Chain, next: Option<Bytes>, at: Headers, height: nat) {
    && (next.Some? ==> next.value == chain(height + 1))
    && forall h :: at(h).Some? ==> at(h).value == chain(h)
  }

  /** Each app hash is carried by one run of consecutive headers. */
  ghost predicate Contiguous(chain: Chain) {
    forall a: nat, b: nat, c: nat :: a <= b <= c && chain(a) == chain(c) ==> chain(b) == chain(a)
  }

  /** The headers a check looks up, once `height` is older than the lag, are served: a second if the first won't do. */
  predicate ProbesServed(at: Headers, root: Bytes, height: nat, latest: nat, lag: nat) {
    0 < lag && height + lag < latest ==>
      at(latest).Some? && (at(latest).value == root || at(latest - lag + 1).Some?)
  }

  /** The returned header carries the root, and the state before it is at most `lag` blocks old. */
  lemma RecentHeaderIsRecent(chain: Chain, next: Option<Bytes>, at: Headers, root: Bytes, height: nat, latest: nat,
                             lag: nat)
    requires Honest(chain, next, at, height) && RecentHeader(next, at, root, height, latest, lag).Ok?
    ensures var header := RecentHeader(next, at, root, height, latest, lag).value;
            header >= 1 && chain(header) == root && latest <= header - 1 + lag
  {
    assert at(latest).Some? ==> at(latest).value == chain(latest);
    if 0 < lag <= latest {
      assert at(latest - lag + 1).Some? ==> at(latest - lag + 1).value == chain(latest - lag + 1);
    }
  }

  /**
   Two probes decide for every header. When the headers probed are served, the check succeeds exactly when the
   header after `height` is served and carries the root, `height` is at most the lag ahead of the latest, and a
   header within the lag carries the root; except that a lag of 0 accepts only a height that is at least the
   latest.
   */
  lemma TwoProbesSuffice(chain: Chain, next: Option<Bytes>, at: Headers, root: Bytes, height: nat, latest: nat,
                         lag: nat)
    requires Contiguous(chain) && Honest(chain, next, at, height) && ProbesServed(at, root, height, latest, lag)
    ensures RecentHeader(next, at, root, height, latest, lag).Ok? <==>
            && height < 0xFFFF_FFFF_FFFF_FFFF && height <= latest + lag
            && next == Some(root)
            && (exists g: nat :: latest < g + lag && chain(g) == root)
            && (lag > 0 || height >= latest)
  {
    var decision := RecentHeader(next, at, root, height, latest, lag);
    if decision.Ok? {
      RecentHeaderIsRecent(chain, next, at, root, height, latest, lag);
      assert latest < decision.value + lag && chain(decision.value) == root;
    }
    if next == Some(root) && height + lag < latest && lag > 0 {
      if g: nat :| latest < g + lag && chain(g) == root {
        var oldest := latest - lag + 1;
        assert height + 1 <= oldest <= g;
        assert chain(height + 1) == chain(g) == root;
        assert chain(oldest) == root;
      }
    }
  }

  /** Why a check fails, in the order it looks: only the first reason is told. */
  lemma RefusalsAreTold(next: Option<Bytes>, at: Headers, root: Bytes, height: nat, latest: nat, lag: nat)
    ensures height > latest + lag ==> RecentHeader(next, at, root, height, latest, lag) == Err(HeightOutOfRange)
    ensures height <= latest + lag && height >= U64_MAX ==>
              RecentHeader(next, at, root, height, latest, lag) == Err(NoBlockAfter)
    ensures height <= latest + lag && height < U64_MAX && next.None? ==>
              RecentHeader(next, at, root, height, latest, lag) == Err(NoHeader)
    ensures height <= latest + lag && height < U64_MAX && next.Some? && next.value != root ==>
              RecentHeader(next, at, root, height, latest, lag) == Err(RootMismatch)
    ensures height <= latest + lag && height < U64_MAX && next == Some(root) ==>
              var decision := RecentHeader(next, at, root, height, latest, lag);
              decision.Ok? || decision == Err(HeightOutOfRange) || decision == Err(NoHeader)
  {
  }

  /**
   With a lag of 0 an unchanged root is refused although a header past the latest reported height
   carries it: the state after block 5 is still the chain's in header 7.
   */
  lemma LagZeroRefusesUnchangedRoot(chain: Chain, at: Headers, root: Bytes)
    requires forall h: nat :: chain(h) == root
    ensures Contiguous(chain) && chain(7) == root
    ensures RecentHeader(Some(root), at, root, 5, 6, 0) == Err(HeightOutOfRange)
  {
    assert chain(7) == root;
  }
}
