/** The pool of RPC nodes: round-robin picks that pass over quarantined nodes. */
module RpcPools {
  import opened Wrappers

  type Url = string

  const UNHEALTHY_WINDOW_MS := 60_000
  const FAILURE_THRESHOLD := 3

  datatype Node = Node(url: Url, healthy: bool, unhealthyUntil: int, consecutiveFailures: nat)

  datatype Pool = Pool(nodes: seq<Node>, rrIndex: nat)

  /** Calls, reports and health-check outcomes. A check that fails is dated by when it started. */
  datatype Event =
    | Pick(now: int)
    | Success(url: Url)
    | Failure(url: Url, at: int)
    | CheckPassed(i: nat)
    | CheckFailed(i: nat, startedAt: int)

  predicate Eligible(n: Node, now: int) { n.healthy || now >= n.unhealthyUntil }

  /** What every node satisfies: it is unhealthy exactly from its third failure in a row on. */
  predicate Consistent(p: Pool) {
    && (p.nodes != [] ==> p.rrIndex < |p.nodes|)
    && (forall i :: 0 <= i < |p.nodes| ==> (p.nodes[i].healthy <==> p.nodes[i].consecutiveFailures < FAILURE_THRESHOLD))
  }

  // ----- the rotation -----

  /** The node `d` places after the round-robin index. */
  function At(p: Pool, d: nat): nat
    requires p.rrIndex < |p.nodes| && d < |p.nodes|
  {
    if p.rrIndex + d < |p.nodes| then p.rrIndex + d else p.rrIndex + d - |p.nodes|
  }

  /** How many places node `j` is after the round-robin index. */
  function Distance(p: Pool, j: nat): nat
    requires p.rrIndex < |p.nodes| && j < |p.nodes|
  {
    if p.rrIndex <= j then j - p.rrIndex else j + |p.nodes| - p.rrIndex
  }

  /** The first eligible place from `d` on, or the number of nodes if there is none. */
  function FirstEligible(p: Pool, now: int, d: nat): (r: nat)
    requires p.nodes != [] ==> p.rrIndex < |p.nodes|
    requires d <= |p.nodes|
    ensures d <= r <= |p.nodes|
    ensures forall k :: d <= k < r ==> !Eligible(p.nodes[At(p, k)], now)
    ensures r < |p.nodes| ==> Eligible(p.nodes[At(p, r)], now)
    decreases |p.nodes| - d
  {
    if d < |p.nodes| && !Eligible(p.nodes[At(p, d)], now) then FirstEligible(p, now, d + 1) else d
  }

  /** The `d`-th place from `i` on, going round `n` places. */
  function Turn(i: nat, d: nat, n: nat): (k: nat)
    requires n > 0
    ensures k < n
  {
    (i + d) % n
  }

  lemma WrapsOnce(x: nat, n: nat)
    requires n > 0 && x < 2 * n
    ensures x % n == if x < n then x else x - n
  {
    if x >= n { assert x == n * 1 + (x - n); }
  }

  lemma AtIsTurn(p: Pool, d: nat)
    requires p.rrIndex < |p.nodes| && d < |p.nodes|
    ensures At(p, d) == Turn(p.rrIndex, d, |p.nodes|)
    ensures Next(At(p, d), |p.nodes|) == Turn(p.rrIndex, d + 1, |p.nodes|)
  {
    WrapsOnce(p.rrIndex + d, |p.nodes|);
    WrapsOnce(p.rrIndex + d + 1, |p.nodes|);
  }

  /** What the pool is after a pick that found the node `d` places on, the first one that is healthy or past
      its window. */
  ghost predicate FoundInTurn(p: Pool, now: int, d: nat, q: Pool)
    requires d < |p.nodes|
  {
    var (n, k) := (|p.nodes|, Turn(p.rrIndex, d, |p.nodes|));
    && (forall e :: 0 <= e < d ==>
          !p.nodes[Turn(p.rrIndex, e, n)].healthy && now < p.nodes[Turn(p.rrIndex, e, n)].unhealthyUntil)
    && (p.nodes[k].healthy || now >= p.nodes[k].unhealthyUntil)
    && q.nodes == p.nodes[k := if p.nodes[k].healthy then p.nodes[k]
                               else p.nodes[k].(healthy := true, consecutiveFailures := 0)]
    && q.rrIndex == Turn(p.rrIndex, d + 1, n)
  }

  /** A pick finds nothing exactly when every node is unhealthy and in its window. Otherwise it finds the
      first one in turn that is healthy or past its window, and a node past its window is readmitted. */
  lemma PickMeans(p: Pool, now: int)
    requires Consistent(p)
    ensures Picked(p, now).None?
       <==> forall i :: 0 <= i < |p.nodes| ==> !p.nodes[i].healthy && now < p.nodes[i].unhealthyUntil
    ensures Picked(p, now).None? ==> Step(p, Pick(now)) == p
    ensures Picked(p, now).Some? ==>
              exists d :: 0 <= d < |p.nodes| && FoundInTurn(p, now, d, Step(p, Pick(now)))
                          && Picked(p, now).value == Turn(p.rrIndex, d, |p.nodes|)
  {
    if p.nodes != [] {
      var d := FirstEligible(p, now, 0);
      if d < |p.nodes| {
        forall e | 0 <= e < d ensures !Eligible(p.nodes[Turn(p.rrIndex, e, |p.nodes|)], now) { AtIsTurn(p, e); }
        AtIsTurn(p, d);
        assert FoundInTurn(p, now, d, Step(p, Pick(now)));
      } else {
        forall i | 0 <= i < |p.nodes| ensures !p.nodes[i].healthy && now < p.nodes[i].unhealthyUntil {
          assert At(p, Distance(p, i)) == i;
        }
      }
    }
  }

  function Picked(p: Pool, now: int): Option<nat>
    requires Consistent(p)
  {
    var d := FirstEligible(p, now, 0);
    if d < |p.nodes| then Some(At(p, d)) else None
  }

  function Readmitted(n: Node): Node {
    if n.healthy then n else n.(healthy := true, consecutiveFailures := 0)
  }

  function Next(i: nat, n: nat): nat { if i + 1 < n then i + 1 else 0 }

  lemma RemainderWraps(i: nat, n: nat)
    requires i < n
    ensures i % n == i && (i + 1) % n == Next(i, n)
  {}

  function Recovered(n: Node): Node {
    n.(consecutiveFailures := 0, healthy := true, unhealthyUntil := 0)
  }

  function Failed(n: Node, at: int): Node {
    if n.consecutiveFailures + 1 >= FAILURE_THRESHOLD && n.healthy
    then n.(consecutiveFailures := n.consecutiveFailures + 1, healthy := false,
            unhealthyUntil := at + UNHEALTHY_WINDOW_MS)
    else n.(consecutiveFailures := n.consecutiveFailures + 1)
  }

  /** The first node with this url, or the number of nodes. */
  function Find(nodes: seq<Node>, url: Url): (r: nat)
    ensures r <= |nodes|
    ensures r < |nodes| ==> nodes[r].url == url
    ensures forall i :: 0 <= i < r ==> nodes[i].url != url
  {
    if nodes == [] || nodes[0].url == url then 0 else 1 + Find(nodes[1..], url)
  }

  /** The node that an event is about, if there is one. */
  function Subject(p: Pool, e: Event): nat
    requires Consistent(p)
  {
    match e
    case Pick(now) => if Picked(p, now).Some? then Picked(p, now).value else |p.nodes|
    case Success(url) => Find(p.nodes, url)
    case Failure(url, _) => Find(p.nodes, url)
    case CheckPassed(i) => i
    case CheckFailed(i, _) => i
  }

  function Updated(n: Node, e: Event): Node {
    match e
    case Pick(_) => Readmitted(n)
    case Success(_) => Recovered(n)
    case CheckPassed(_) => Recovered(n)
    case Failure(_, at) => Failed(n, at)
    case CheckFailed(_, startedAt) => Failed(n, startedAt)
  }

  function Step(p: Pool, e: Event): (q: Pool)
    requires Consistent(p)
    ensures Consistent(q) && |q.nodes| == |p.nodes|
  {
    var i := Subject(p, e);
    if i >= |p.nodes| then p
    else Pool(p.nodes[i := Updated(p.nodes[i], e)], if e.Pick? then Next(i, |p.nodes|) else p.rrIndex)
  }

  /** Node `i` is the first one with this url. */
  ghost predicate IsFirst(nodes: seq<Node>, url: Url, i: nat)
    requires i < |nodes|
  {
    nodes[i].url == url && forall j :: 0 <= j < i ==> nodes[j].url != url
  }

  /** One failure more; the third in a row of a healthy node starts a window of a minute from its time. */
  predicate CountsFailure(before: Node, after: Node, at: int) {
    && after.url == before.url && after.consecutiveFailures == before.consecutiveFailures + 1
    && (after.healthy <==> before.healthy && before.consecutiveFailures + 1 < 3)
    && after.unhealthyUntil == if before.healthy && !after.healthy then at + 60_000 else before.unhealthyUntil
  }

  // ----- runs -----

  function Run(p: Pool, events: seq<Event>): Pool
    requires Consistent(p)
    decreases |events|
  {
    if events == [] then p else Run(Step(p, events[0]), events[1..])
  }

  function Picks(events: seq<Event>): nat {
    if events == [] then 0 else (if events[0].Pick? then 1 else 0) + Picks(events[1..])
  }

  /** Some pick of the run returns node `j`. */
  predicate Returns(p: Pool, events: seq<Event>, j: nat)
    requires Consistent(p)
    decreases |events|
  {
    events != [] &&
    ((events[0].Pick? && Picked(p, events[0].now) == Some(j)) || Returns(Step(p, events[0]), events[1..], j))
  }

  /** Node `j` is healthy, or past its window, whenever the run picks. */
  predicate StaysEligible(p: Pool, events: seq<Event>, j: nat)
    requires Consistent(p) && j < |p.nodes|
    decreases |events|
  {
    events == [] ||
    ((events[0].Pick? ==> p.nodes[j].healthy || events[0].now >= p.nodes[j].unhealthyUntil)
     && StaysEligible(Step(p, events[0]), events[1..], j))
  }

  /** A pick either returns node `j` or comes strictly nearer to it. */
  lemma PickApproaches(p: Pool, now: int, j: nat)
    requires Consistent(p) && j < |p.nodes| && (p.nodes[j].healthy || now >= p.nodes[j].unhealthyUntil)
    ensures Picked(p, now).Some?
    ensures Picked(p, now) != Some(j) ==> Distance(Step(p, Pick(now)), j) < Distance(p, j)
  {
    assert At(p, Distance(p, j)) == j;
    var d := FirstEligible(p, now, 0);
    assert d <= Distance(p, j);
  }

  /** A node that stays eligible is returned before the picks outnumber its distance, whatever
      happens to the others in between. */
  lemma {:induction false} ReturnedWithinDistance(p: Pool, events: seq<Event>, j: nat)
    requires Consistent(p) && j < |p.nodes| && StaysEligible(p, events, j)
    requires Picks(events) > Distance(p, j)
    ensures Returns(p, events, j)
    decreases |events|
  {
    var e := events[0];
    if e.Pick? {
      PickApproaches(p, e.now, j);
      if Picked(p, e.now) != Some(j) {
        ReturnedWithinDistance(Step(p, e), events[1..], j);
      }
    } else {
      ReturnedWithinDistance(Step(p, e), events[1..], j);
    }
  }

  /** Bounded wait: any N successive picks of an N-node pool return every node that stays eligible. */
  lemma BoundedWait(p: Pool, events: seq<Event>, j: nat)
    requires Consistent(p) && j < |p.nodes| && StaysEligible(p, events, j)
    requires Picks(events) >= |p.nodes|
    ensures Returns(p, events, j)
  {
    ReturnedWithinDistance(p, events, j);
  }

  /** No success of node `j` is reported in the run, and every pick comes before time `t`. */
  predicate NoSuccessBefore(p: Pool, events: seq<Event>, j: nat, t: int)
    requires Consistent(p)
    decreases |events|
  {
    events == [] ||
    (var e := events[0];
     && (e.Success? || e.CheckPassed? ==> Subject(p, e) != j)
     && (e.Pick? ==> e.now < t)
     && NoSuccessBefore(Step(p, e), events[1..], j, t))
  }

  /** Quarantine is exact: until its window is over, or a success for it comes first, an unhealthy node
      is not returned, and further failures do not move the end of the window. */
  lemma {:induction false} QuarantineHolds(p: Pool, events: seq<Event>, j: nat)
    requires Consistent(p) && j < |p.nodes| && !p.nodes[j].healthy
    requires NoSuccessBefore(p, events, j, p.nodes[j].unhealthyUntil)
    ensures !Returns(p, events, j)
    ensures var q := Run(p, events);
            |q.nodes| == |p.nodes| && !q.nodes[j].healthy && q.nodes[j].unhealthyUntil == p.nodes[j].unhealthyUntil
    decreases |events|
  {
    if events != [] {
      QuarantineHolds(Step(p, events[0]), events[1..], j);
    }
  }

  /** The third failure in a row starts the window. */
  lemma ThirdFailureQuarantines(p: Pool, e: Event)
    requires Consistent(p) && (e.Failure? || e.CheckFailed?) && Subject(p, e) < |p.nodes|
    ensures var (n, m) := (p.nodes[Subject(p, e)], Step(p, e).nodes[Subject(p, e)]);
            var at := if e.Failure? then e.at else e.startedAt;
            && (n.healthy && !m.healthy <==> n.consecutiveFailures == FAILURE_THRESHOLD - 1)
            && (n.healthy && !m.healthy ==> m.unhealthyUntil == at + UNHEALTHY_WINDOW_MS)
  {}

  function HealthyCount(nodes: seq<Node>, now: int): nat {
    if nodes == [] then 0
    else (if nodes[0].healthy || now >= nodes[0].unhealthyUntil then 1 else 0) + HealthyCount(nodes[1..], now)
  }

  lemma {:induction false} CountIsZero(nodes: seq<Node>, now: int)
    ensures HealthyCount(nodes, now) == 0 <==> forall i :: 0 <= i < |nodes| ==> !Eligible(nodes[i], now)
  {
    if nodes != [] {
      CountIsZero(nodes[1..], now);
      assert forall i :: 0 < i < |nodes| ==> nodes[i] == nodes[1..][i - 1];
      assert forall i :: 0 <= i < |nodes[1..]| ==> nodes[1..][i] == nodes[i + 1];
    }
  }

  /** A pick finds nothing exactly when no node counts as healthy at that time. */
  lemma PickFailsIffNoneHealthy(p: Pool, now: int)
    requires Consistent(p)
    ensures Picked(p, now).None? <==> HealthyCount(p.nodes, now) == 0
  {
    CountIsZero(p.nodes, now);
    if Picked(p, now).None? {
      forall i | 0 <= i < |p.nodes| ensures !Eligible(p.nodes[i], now) {
        assert At(p, Distance(p, i)) == i;
      }
    }
  }

  // ----- the counter against the run -----

  /** The event is a success of node `j`, or the pick that readmits it. */
  predicate Clears(p: Pool, e: Event, j: nat)
    requires Consistent(p) && j < |p.nodes|
  {
    Subject(p, e) == j && (e.Success? || e.CheckPassed? || (e.Pick? && !p.nodes[j].healthy))
  }

  /** The event is a failed call or a failed check of node `j`. */
  predicate Fails(p: Pool, e: Event, j: nat)
    requires Consistent(p)
  {
    Subject(p, e) == j && (e.Failure? || e.CheckFailed?)
  }

  predicate NeverCleared(p: Pool, events: seq<Event>, j: nat)
    requires Consistent(p) && j < |p.nodes|
    decreases |events|
  {
    events == [] || (!Clears(p, events[0], j) && NeverCleared(Step(p, events[0]), events[1..], j))
  }

  function FailuresOf(p: Pool, events: seq<Event>, j: nat): nat
    requires Consistent(p)
    decreases |events|
  {
    if events == [] then 0
    else (if Fails(p, events[0], j) then 1 else 0) + FailuresOf(Step(p, events[0]), events[1..], j)
  }

  lemma {:induction false} CounterGrowsByFailures(p: Pool, events: seq<Event>, j: nat)
    requires Consistent(p) && j < |p.nodes| && NeverCleared(p, events, j)
    ensures var q := Run(p, events);
            && Consistent(q) && |q.nodes| == |p.nodes|
            && q.nodes[j].consecutiveFailures == p.nodes[j].consecutiveFailures + FailuresOf(p, events, j)
    decreases |events|
  {
    if events != [] { CounterGrowsByFailures(Step(p, events[0]), events[1..], j); }
  }

  lemma {:induction false} RunInParts(p: Pool, before: seq<Event>, after: seq<Event>)
    requires Consistent(p)
    ensures Consistent(Run(p, before)) && |Run(p, before).nodes| == |p.nodes|
    ensures Run(p, before + after) == Run(Run(p, before), after)
    decreases |before|
  {
    if before == [] {
      assert before + after == after;
    } else {
      assert (before + after)[1..] == before[1..] + after;
      RunInParts(Step(p, before[0]), before[1..], after);
    }
  }

  /** In every run, the counter is the number of failures since the last success or readmission, and the
      node is unhealthy exactly when these are three or more. */
  lemma CounterIsStreak(p: Pool, before: seq<Event>, e: Event, after: seq<Event>, j: nat)
    requires Consistent(p) && j < |p.nodes|
    ensures var q := Run(p, before);
            && Consistent(q) && |q.nodes| == |p.nodes|
            && (Clears(q, e, j) && NeverCleared(Step(q, e), after, j) ==>
                  var last := Run(p, before + [e] + after);
                  && |last.nodes| == |p.nodes|
                  && last.nodes[j].consecutiveFailures == FailuresOf(Step(q, e), after, j)
                  && (last.nodes[j].healthy <==> FailuresOf(Step(q, e), after, j) < FAILURE_THRESHOLD))
  {
    RunInParts(p, before, [e] + after);
    assert before + [e] + after == before + ([e] + after);
    var q := Run(p, before);
    assert ([e] + after)[1..] == after;
    if Clears(q, e, j) && NeverCleared(Step(q, e), after, j) {
      CounterGrowsByFailures(Step(q, e), after, j);
    }
  }

  /** And from the start of a pool, while nothing has cleared the node, all its failures so far. */
  lemma CounterFromStart(p: Pool, events: seq<Event>, j: nat)
    requires Consistent(p) && j < |p.nodes| && p.nodes[j].consecutiveFailures == 0
    requires NeverCleared(p, events, j)
    ensures var q := Run(p, events);
            && |q.nodes| == |p.nodes|
            && q.nodes[j].consecutiveFailures == FailuresOf(p, events, j)
            && (q.nodes[j].healthy <==> FailuresOf(p, events, j) < FAILURE_THRESHOLD)
  {
    CounterGrowsByFailures(p, events, j);
  }

  // ----- the class -----

  class RpcPool {
    var nodes: seq<Node>
    var rrIndex: nat

    function Model(): Pool
      reads this
    {
      Pool(nodes, rrIndex)
    }

    constructor (urls: seq<Url>)
      ensures Consistent(Model()) && rrIndex == 0 && |nodes| == |urls|
      ensures forall i :: 0 <= i < |urls| ==> nodes[i] == Node(urls[i], true, 0, 0)
    {
      rrIndex := 0;
      nodes := seq(|urls|, i requires 0 <= i < |urls| => Node(urls[i], true, 0, 0));
    }

    /** The first node in turn that is healthy or past its window, readmitted if it was not healthy; the index
        moves past it, or all the way round when there is none. */
    method PickNode(now: int) returns (r: Option<Url>)
      requires Consistent(Model())
      modifies this
      ensures var p := old(Model());
              && Model() == Step(p, Pick(now))
              && r == (if Picked(p, now).None? then None else Some(p.nodes[Picked(p, now).value].url))
      ensures r.None? <==> forall i :: 0 <= i < |old(nodes)| ==>
                             !old(nodes)[i].healthy && now < old(nodes)[i].unhealthyUntil
      ensures r.None? ==> nodes == old(nodes) && rrIndex == old(rrIndex)
      ensures r.Some? ==>
                exists d :: 0 <= d < |old(nodes)| && FoundInTurn(old(Model()), now, d, Model())
                            && r.value == old(nodes)[Turn(old(rrIndex), d, |old(nodes)|)].url
    {
      ghost var p := Model();
      r := Rotate(now);
      PickMeans(p, now);
    }

    /** One full rotation at most. */
    method Rotate(now: int) returns (r: Option<Url>)
      requires Consistent(Model())
      modifies this
      ensures var p := old(Model());
              && Model() == Step(p, Pick(now))
              && r == (if Picked(p, now).None? then None else Some(p.nodes[Picked(p, now).value].url))
    {
      var total := |nodes|;
      if total == 0 { return None; }
      ghost var p := Model();
      for i := 0 to total
        invariant nodes == p.nodes && rrIndex == if i < total then At(p, i) else p.rrIndex
        invariant FirstEligible(p, now, 0) == FirstEligible(p, now, i)
      {
        RemainderWraps(rrIndex, total);
        var k := rrIndex % total;
        var node := nodes[k];
        rrIndex := (rrIndex + 1) % total;
        if !node.healthy && now >= node.unhealthyUntil {
          node := node.(healthy := true, consecutiveFailures := 0);
          nodes := nodes[k := node];
        }
        if node.healthy {
          assert nodes == p.nodes[k := Readmitted(p.nodes[k])];
          return Some(node.url);
        }
      }
      return None;
    }

    method ReportSuccess(url: Url)
      requires Consistent(Model())
      modifies this`nodes
      ensures Model() == Step(old(Model()), Success(url))
      ensures forall i :: 0 <= i < |nodes| ==>
                nodes[i] == if IsFirst(old(nodes), url, i)
                            then old(nodes)[i].(consecutiveFailures := 0, healthy := true, unhealthyUntil := 0)
                            else old(nodes)[i]
    {
      var i := FindNode(url);
      if i < |nodes| {
        nodes := nodes[i := nodes[i].(consecutiveFailures := 0, healthy := true, unhealthyUntil := 0)];
      }
    }

    method ReportFailure(url: Url, now: int)
      requires Consistent(Model())
      modifies this`nodes
      ensures Model() == Step(old(Model()), Failure(url, now))
      ensures forall i :: 0 <= i < |nodes| ==>
                if IsFirst(old(nodes), url, i) then CountsFailure(old(nodes)[i], nodes[i], now)
                else nodes[i] == old(nodes)[i]
    {
      var i := FindNode(url);
      if i < |nodes| { Fail(i, now); }
    }

    /** The outcome of a health check of node `i` that started at `startedAt`. */
    method CheckNode(i: nat, startedAt: int, passed: bool)
      requires Consistent(Model()) && i < |nodes|
      modifies this`nodes
      ensures Model() == Step(old(Model()), if passed then CheckPassed(i) else CheckFailed(i, startedAt))
      ensures |nodes| == |old(nodes)| && forall j :: 0 <= j < |nodes| && j != i ==> nodes[j] == old(nodes)[j]
      ensures if passed then nodes[i] == old(nodes)[i].(consecutiveFailures := 0, healthy := true, unhealthyUntil := 0)
              else CountsFailure(old(nodes)[i], nodes[i], startedAt)
    {
      if passed {
        nodes := nodes[i := nodes[i].(consecutiveFailures := 0, healthy := true, unhealthyUntil := 0)];
      } else {
        Fail(i, startedAt);
      }
    }

    method Fail(i: nat, at: int)
      requires i < |nodes|
      modifies this`nodes
      ensures nodes == old(nodes)[i := Failed(old(nodes)[i], at)]
    {
      var node := nodes[i];
      node := node.(consecutiveFailures := node.consecutiveFailures + 1);
      if node.consecutiveFailures >= FAILURE_THRESHOLD && node.healthy {
        node := node.(healthy := false, unhealthyUntil := at + UNHEALTHY_WINDOW_MS);
      }
      nodes := nodes[i := node];
    }

    method FindNode(url: Url) returns (i: nat)
      ensures i == Find(nodes, url)
    {
      i := 0;
      while i < |nodes| && nodes[i].url != url
        invariant 0 <= i <= |nodes|
        invariant Find(nodes, url) == i + Find(nodes[i..], url)
      {
        assert nodes[i..][1..] == nodes[i + 1..];
        i := i + 1;
      }
    }
  }
}
