/** The circuit breaker, judged by its history: every admission, rejection and outcome, in the order
    in which they happened, with calls starting and completing in any interleaving. */
module CircuitBreakers {
  import opened Wrappers

  /** A call is known by a number of its own. A failure is logged with whether it opened the breaker. */
  datatype Entry =
    | Admitted(call: nat, at: int)
    | Rejected(at: int)
    | HalfOpened(at: int)
    | Succeeded(call: nat, at: int)
    | Failed(call: nat, at: int, trips: bool)
    | Reset(at: int)
    | ForcedOpen(at: int)

  type History = seq<Entry>

  predicate Completes(e: Entry, call: nat) { (e.Succeeded? || e.Failed?) && e.call == call }

  /** The call was admitted at `i` and has not completed since. */
  predicate UnderWaySince(h: History, call: nat, i: nat) {
    i < |h| && h[i].Admitted? && h[i].call == call && forall m :: i < m < |h| ==> !Completes(h[m], call)
  }

  /** The calls that were admitted and have not completed. */
  ghost predicate UnderWay(h: History, call: nat) {
    exists i :: UnderWaySince(h, call, i)
  }

  predicate Known(h: History, call: nat) {
    exists i :: 0 <= i < |h| && h[i].Admitted? && h[i].call == call
  }

  /** The failures since the last success, opening or reset. */
  function FailuresInARow(h: History): nat {
    if h == [] then 0
    else
      var before := h[..|h| - 1];
      match Last(h)
      case Failed(_, _, false) => FailuresInARow(before) + 1
      case Admitted(_, _) => FailuresInARow(before)
      case Rejected(_) => FailuresInARow(before)
      case HalfOpened(_) => FailuresInARow(before)
      case _ => 0
  }

  datatype Phase = Closed | Open(since: int) | HalfOpen

  /** The phase that the latest entry with a say in it leaves behind. */
  function PhaseAfter(h: History): Phase {
    if h == [] then Closed
    else
      match Last(h)
      case Succeeded(_, _) => Closed
      case Reset(_) => Closed
      case Failed(_, at, true) => Open(at)
      case ForcedOpen(at) => Open(at)
      case HalfOpened(_) => HalfOpen
      case _ => PhaseAfter(h[..|h| - 1])
  }

  /** What may come next after history `h`. */
  ghost predicate Permitted(h: History, e: Entry, threshold: int, window: int) {
    match e
    case Admitted(call, _) => !PhaseAfter(h).Open? && !Known(h, call)
    case Succeeded(call, _) => UnderWay(h, call)
    case Rejected(at) => PhaseAfter(h).Open? && at - PhaseAfter(h).since < window
    case HalfOpened(at) => PhaseAfter(h).Open? && at - PhaseAfter(h).since >= window
    case Failed(call, _, trips) =>
      UnderWay(h, call) && (trips <==> PhaseAfter(h).HalfOpen? || FailuresInARow(h) + 1 >= threshold)
    case _ => true
  }

  ghost predicate Legal(h: History, threshold: int, window: int) {
    h == [] || (Legal(h[..|h| - 1], threshold, window) && Permitted(h[..|h| - 1], Last(h), threshold, window))
  }

  predicate InOrder(h: History) {
    forall i, j :: 0 <= i < j < |h| ==> h[i].at <= h[j].at
  }

  /** Every entry was permitted by what came before it. */
  lemma {:induction false} LegalAt(h: History, i: nat, threshold: int, window: int)
    requires Legal(h, threshold, window) && i < |h|
    ensures Legal(h[..i], threshold, window) && Permitted(h[..i], h[i], threshold, window)
    decreases |h|
  {
    if i < |h| - 1 {
      LegalAt(h[..|h| - 1], i, threshold, window);
      assert h[..|h| - 1][..i] == h[..i];
    }
  }

  /** The count stays below the threshold. */
  lemma {:induction false} StaysBelowThreshold(h: History, threshold: int, window: int)
    requires Legal(h, threshold, window) && threshold >= 1
    ensures FailuresInARow(h) < threshold
  {
    if h != [] { StaysBelowThreshold(h[..|h| - 1], threshold, window); }
  }

  /** A failure opens the breaker exactly when it is the threshold-th in a row or comes in while the
      breaker is half open. */
  lemma OpensOnThreshold(h: History, i: nat, threshold: int, window: int)
    requires Legal(h, threshold, window) && threshold >= 1 && i < |h| && h[i].Failed?
    ensures h[i].trips <==> PhaseAfter(h[..i]).HalfOpen? || FailuresInARow(h[..i]) + 1 == threshold
  {
    LegalAt(h, i, threshold, window);
    StaysBelowThreshold(h[..i], threshold, window);
  }

  /** The entries that start the count of failures again. */
  predicate Restarts(e: Entry) { e.Succeeded? || e.Reset? || e.ForcedOpen? || (e.Failed? && e.trips) }

  /** Position `i` follows such an entry, or begins the history, and there is no other before `k`. */
  predicate LastRestart(h: History, i: nat, k: nat) {
    i <= k <= |h| && (i == 0 || Restarts(h[i - 1])) && forall n :: i <= n < k ==> !Restarts(h[n])
  }

  /** The failures logged from `i` up to, not including, `k`. */
  function FailuresLogged(h: History, i: nat, k: nat): set<nat>
    requires k <= |h|
  {
    set n | i <= n < k && h[n].Failed?
  }

  lemma OneMoreLogged(h: History, i: nat, k: nat)
    requires i < k <= |h|
    ensures |FailuresLogged(h, i, k)| == |FailuresLogged(h, i, k - 1)| + (if h[k - 1].Failed? then 1 else 0)
  {
    assert FailuresLogged(h, i, k) == FailuresLogged(h, i, k - 1) + (if h[k - 1].Failed? then {k - 1} else {});
  }

  lemma CountOfPrefix(h: History, k: nat)
    requires 0 < k <= |h|
    ensures FailuresInARow(h[..k])
         == if Restarts(h[k - 1]) then 0 else FailuresInARow(h[..k - 1]) + (if h[k - 1].Failed? then 1 else 0)
  {
    assert h[..k][..k - 1] == h[..k - 1];
  }

  /** The count is the number of failures logged since then. */
  lemma {:induction false} CountIsFailures(h: History, i: nat, k: nat)
    requires LastRestart(h, i, k)
    ensures FailuresInARow(h[..k]) == |FailuresLogged(h, i, k)|
    decreases k
  {
    if k > 0 { CountOfPrefix(h, k); }
    if i == k {
      assert FailuresLogged(h, i, k) == {};
    } else {
      CountIsFailures(h, i, k - 1);
      OneMoreLogged(h, i, k);
    }
  }

  /** The breaker is half open exactly when it has been found so since then. */
  lemma {:induction false} HalfOpenSinceRestart(h: History, i: nat, k: nat)
    requires LastRestart(h, i, k)
    ensures PhaseAfter(h[..k]).HalfOpen? <==> exists n :: i <= n < k && h[n].HalfOpened?
    decreases k
  {
    if k > 0 { assert h[..k][..k - 1] == h[..k - 1] && Last(h[..k]) == h[k - 1]; }
    if i < k { HalfOpenSinceRestart(h, i, k - 1); }
  }

  /** So a failure opens the breaker exactly when it has been found half open since the last success, reset or
      opening, or is the threshold-th failure since then. */
  lemma OpensOnCount(h: History, i: nat, k: nat, threshold: int, window: int)
    requires Legal(h, threshold, window) && threshold >= 1
    requires LastRestart(h, i, k) && k < |h| && h[k].Failed?
    ensures h[k].trips <==> (exists n :: i <= n < k && h[n].HalfOpened?)
                            || |set n | i <= n <= k && h[n].Failed?| == threshold
  {
    OpensOnThreshold(h, k, threshold, window);
    CountIsFailures(h, i, k);
    HalfOpenSinceRestart(h, i, k);
    OneMoreLogged(h, i, k + 1);
    assert FailuresLogged(h, i, k + 1) == set n | i <= n <= k && h[n].Failed?;
  }

  predicate Opens(e: Entry) { e.ForcedOpen? || (e.Failed? && e.trips) }

  predicate Closes(e: Entry) { e.Succeeded? || e.Reset? }

  /** Some entry between `i` and `k` closed the breaker, and none after that one opened it. */
  predicate ClosedBetween(h: History, i: nat, k: nat)
    requires k <= |h|
  {
    exists m :: i < m < k && ClosedAt(h, m, k)
  }

  predicate ClosedAt(h: History, m: nat, k: nat)
    requires m < k <= |h|
  {
    Closes(h[m]) && forall n :: m < n < k ==> !Opens(h[n])
  }

  /** While the window of the opening `i` runs, the phase is open unless something has closed the breaker
      and nothing has opened it again. */
  lemma {:induction false} OpenUnlessClosed(h: History, i: nat, k: nat, threshold: int, window: int)
    requires Legal(h, threshold, window) && InOrder(h)
    requires i < k <= |h| && Opens(h[i]) && h[k - 1].at - h[i].at < window
    ensures !PhaseAfter(h[..k]).Open? <==> ClosedBetween(h, i, k)
    ensures PhaseAfter(h[..k]).Open? ==> PhaseAfter(h[..k]).since >= h[i].at
    decreases k
  {
    assert h[..k][..k - 1] == h[..k - 1];
    if i < k - 1 {
      OpenUnlessClosed(h, i, k - 1, threshold, window);
      LegalAt(h, k - 1, threshold, window);
      ClosedOneLater(h, i, k);
    }
  }

  lemma ClosedOneLater(h: History, i: nat, k: nat)
    requires i + 1 < k <= |h|
    ensures ClosedBetween(h, i, k) <==> Closes(h[k - 1]) || (!Opens(h[k - 1]) && ClosedBetween(h, i, k - 1))
  {
    if Closes(h[k - 1]) {
      assert ClosedAt(h, k - 1, k);
    } else {
      if ClosedBetween(h, i, k) {
        var m :| i < m < k && ClosedAt(h, m, k);
        assert ClosedAt(h, m, k - 1) && !Opens(h[k - 1]);
      }
      if !Opens(h[k - 1]) && ClosedBetween(h, i, k - 1) {
        var m :| i < m < k - 1 && ClosedAt(h, m, k - 1);
        assert ClosedAt(h, m, k);
      }
    }
  }

  /** So the window is respected but for that: in the window of an opening, a new call can be admitted
      exactly when something has closed the breaker since and nothing has opened it again. */
  lemma AdmittedIffClosed(h: History, i: nat, call: nat, at: int, threshold: int, window: int)
    requires Legal(h, threshold, window) && InOrder(h) && !Known(h, call)
    requires i < |h| && Opens(h[i]) && Last(h).at <= at < h[i].at + window
    ensures Legal(h + [Admitted(call, at)], threshold, window) <==> ClosedBetween(h, i, |h|)
  {
    OpenUnlessClosed(h, i, |h|, threshold, window);
    assert h[..|h|] == h && (h + [Admitted(call, at)])[..|h|] == h;
  }

  /** The first entry after `i` that closes the breaker, if one does before `k`. */
  lemma FirstClosing(h: History, i: nat, k: nat) returns (m: nat)
    requires i < k <= |h| && exists n :: i < n < k && Closes(h[n])
    ensures i < m < k && Closes(h[m]) && forall n :: i < n < m ==> !Closes(h[n])
  {
    m := i + 1;
    while !Closes(h[m])
      invariant i < m < k && forall n :: i < n < m ==> !Closes(h[n])
      invariant exists n :: m <= n < k && Closes(h[n])
      decreases k - m
    {
      m := m + 1;
    }
  }

  /** While an open window runs and nothing has closed it, only calls admitted before it can succeed. */
  lemma SuccessWasAdmittedBefore(h: History, i: nat, m: nat, threshold: int, window: int) returns (a: nat)
    requires Legal(h, threshold, window) && InOrder(h)
    requires i < m < |h| && Opens(h[i]) && h[m].Succeeded? && h[m].at - h[i].at < window
    requires forall n :: i < n < m ==> !Closes(h[n])
    ensures a < i && h[a].Admitted? && h[a].call == h[m].call
  {
    LegalAt(h, m, threshold, window);
    a :| UnderWaySince(h[..m], h[m].call, a);
    assert h[..m][a] == h[a];
    if a > i {
      OpenUnlessClosed(h, i, a, threshold, window);
      LegalAt(h, a, threshold, window);
      assert false;
    }
  }

  /** Some entry before `i` admitted the call of the success `m`. */
  predicate AdmittedBefore(h: History, i: nat, m: nat)
    requires i <= |h| && m < |h| && h[m].Succeeded?
  {
    exists a :: 0 <= a < i && h[a].Admitted? && h[a].call == h[m].call
  }

  /** No call is admitted while the window of an opening runs, unless something has closed the breaker
      since; and what closed it first was a reset, or a success of a call admitted before the opening. */
  lemma WindowIsRespected(h: History, i: nat, k: nat, threshold: int, window: int)
    requires Legal(h, threshold, window) && InOrder(h)
    requires i < k < |h| && Opens(h[i]) && h[k].Admitted? && h[k].at - h[i].at < window
    ensures exists m ::
              && i < m < k && Closes(h[m]) && (forall n :: i < n < m ==> !Closes(h[n]))
              && (h[m].Reset? || AdmittedBefore(h, i, m))
  {
    if forall m :: i < m < k ==> !Closes(h[m]) {
      OpenUnlessClosed(h, i, k, threshold, window);
      LegalAt(h, k, threshold, window);
      assert false;
    }
    var m := FirstClosing(h, i, k);
    if h[m].Succeeded? {
      var a := SuccessWasAdmittedBefore(h, i, m, threshold, window);
    }
  }

  lemma Append(h: History, e: Entry, threshold: int, window: int)
    requires Legal(h, threshold, window) && Permitted(h, e, threshold, window)
    ensures Legal(h + [e], threshold, window)
  {
    assert (h + [e])[..|h|] == h;
  }

  /** A call that is under way stays so until it completes. */
  lemma StaysUnderWay(h: History, call: nat, e: Entry)
    requires UnderWay(h, call) && !Completes(e, call)
    ensures UnderWay(h + [e], call)
  {
    var i :| UnderWaySince(h, call, i);
    assert UnderWaySince(h + [e], call, i);
  }

  /** That exception is real: a late success reopens the way during the window. */
  lemma LateSuccessCloses(threshold: int, window: int)
    requires threshold >= 2 && window > 2
    ensures var h := [Admitted(0, 0), ForcedOpen(1), Succeeded(0, 2), Admitted(1, 2)];
            Legal(h, threshold, window) && InOrder(h) && h[3].at - h[1].at < window
  {
    var h1 := [] + [Admitted(0, 0)];
    var h2 := h1 + [ForcedOpen(1)];
    var h3 := h2 + [Succeeded(0, 2)];
    assert UnderWaySince(h1, 0, 0);
    StaysUnderWay(h1, 0, ForcedOpen(1));
    Append([], Admitted(0, 0), threshold, window);
    Append(h1, ForcedOpen(1), threshold, window);
    Append(h2, Succeeded(0, 2), threshold, window);
    Append(h3, Admitted(1, 2), threshold, window);
    assert h3 + [Admitted(1, 2)] == [Admitted(0, 0), ForcedOpen(1), Succeeded(0, 2), Admitted(1, 2)];
  }

  /** The history with one admission more for each new call. */
  function Admitting(h: History, calls: seq<nat>, at: int): History
  {
    if calls == [] then h else Admitting(h, calls[..|calls| - 1], at) + [Admitted(Last(calls), at)]
  }

  /** Half open admits any number of calls, not one probe, and they are all under way together. */
  lemma {:induction false} HalfOpenAdmitsMany(h: History, calls: seq<nat>, at: int, threshold: int, window: int)
    requires Legal(h, threshold, window) && PhaseAfter(h).HalfOpen?
    requires forall i, j :: 0 <= i < j < |calls| ==> calls[i] != calls[j]
    requires forall call :: call in calls ==> !Known(h, call)
    ensures var g := Admitting(h, calls, at);
            && Legal(g, threshold, window) && PhaseAfter(g).HalfOpen?
            && (forall call :: Known(g, call) <==> Known(h, call) || call in calls)
            && (forall call :: call in calls ==> UnderWay(g, call))
    decreases |calls|
  {
    if calls != [] {
      var (fewer, last) := (calls[..|calls| - 1], Last(calls));
      HalfOpenAdmitsMany(h, fewer, at, threshold, window);
      var (f, g) := (Admitting(h, fewer, at), Admitting(h, calls, at));
      assert last !in fewer;
      Append(f, Admitted(last, at), threshold, window);
      assert g[..|f|] == f;
      KnownAfterAppend(f, Admitted(last, at));
      assert UnderWaySince(g, last, |f|);
      forall call | call in fewer ensures UnderWay(g, call) { StaysUnderWay(f, call, Admitted(last, at)); }
      assert forall call :: call in calls <==> call in fewer || call == last;
    }
  }

  lemma KnownAfterAppend(h: History, e: Entry)
    ensures forall call :: Known(h + [e], call) <==> Known(h, call) || (e.Admitted? && e.call == call)
  {
    forall call
      ensures Known(h + [e], call) <==> Known(h, call) || (e.Admitted? && e.call == call)
    {
      if Known(h, call) {
        var i :| 0 <= i < |h| && h[i].Admitted? && h[i].call == call;
        assert (h + [e])[i] == h[i];
      }
      if e.Admitted? && e.call == call { assert (h + [e])[|h|] == e; }
    }
  }

  datatype State = CLOSED | OPEN | HALF_OPEN

  class CircuitBreaker {
    var state: State
    var consecutiveFailures: nat
    var openedAt: int
    const threshold: int
    const halfOpenAfterMs: int
    ghost var history: History

    /** The fields are the summary of a legal history. */
    ghost predicate Valid()
      reads this
    {
      && Legal(history, threshold, halfOpenAfterMs)
      && consecutiveFailures == FailuresInARow(history)
      && match PhaseAfter(history)
         case Closed => state == CLOSED
         case Open(since) => state == OPEN && openedAt == since
         case HalfOpen => state == HALF_OPEN
    }

    constructor (threshold: int := 5, halfOpenAfterMs: int := 30_000)
      ensures Valid() && history == [] && this.threshold == threshold && this.halfOpenAfterMs == halfOpenAfterMs
    {
      this.threshold, this.halfOpenAfterMs := threshold, halfOpenAfterMs;
      state, consecutiveFailures, openedAt, history := CLOSED, 0, 0, [];
    }

    ghost method Log(e: Entry)
      modifies this`history
      ensures history == old(history) + [e] && history[..|history| - 1] == old(history)
    {
      history := history + [e];
    }

    /** Looking at the state is what turns open into half open once the window is over. */
    method GetState(now: int) returns (s: State)
      requires Valid()
      modifies this`state, this`history
      ensures Valid() && s == state
      ensures if old(state) == OPEN && now - openedAt >= halfOpenAfterMs
              then s == HALF_OPEN && history == old(history) + [HalfOpened(now)]
              else s == old(state) && history == old(history)
    {
      if state == OPEN && now - openedAt >= halfOpenAfterMs {
        state := HALF_OPEN;
        Log(HalfOpened(now));
      }
      return state;
    }

    /** The start of a call: let through, or refused at once. */
    method Start(call: nat, now: int) returns (admitted: bool)
      requires Valid() && !Known(history, call)
      modifies this`state, this`history
      ensures Valid()
      ensures admitted <==> !(old(state) == OPEN && now - openedAt < halfOpenAfterMs)
      ensures state == if admitted && old(state) == OPEN then HALF_OPEN else old(state)
      ensures old(history) < history && Last(history) == (if admitted then Admitted(call, now) else Rejected(now))
      ensures admitted ==> UnderWay(history, call)
    {
      KnownAfterAppend(history, HalfOpened(now));
      var current := GetState(now);
      admitted := current != OPEN;
      Log(if admitted then Admitted(call, now) else Rejected(now));
      assert admitted ==> UnderWaySince(history, call, |history| - 1);
    }

    /** The completion of a call that is under way, at any later time. */
    method OnSuccess(call: nat, now: int)
      requires Valid() && UnderWay(history, call)
      modifies this
      ensures Valid() && history == old(history) + [Succeeded(call, now)]
      ensures state == CLOSED && consecutiveFailures == 0
    {
      state := CLOSED;
      consecutiveFailures := 0;
      openedAt := 0;
      Log(Succeeded(call, now));
    }

    method OnFailure(call: nat, now: int)
      requires Valid() && UnderWay(history, call)
      modifies this
      ensures Valid()
      ensures var trips := old(state) == HALF_OPEN || old(consecutiveFailures) + 1 >= threshold;
              && history == old(history) + [Failed(call, now, trips)]
              && (if trips then state == OPEN && openedAt == now && consecutiveFailures == 0
                  else state == old(state) && openedAt == old(openedAt)
                       && consecutiveFailures == old(consecutiveFailures) + 1)
    {
      consecutiveFailures := consecutiveFailures + 1;
      if state == HALF_OPEN || consecutiveFailures >= threshold {
        state := OPEN;
        openedAt := now;
        consecutiveFailures := 0;
        Log(Failed(call, now, true));
      } else {
        Log(Failed(call, now, false));
      }
    }

    method ResetBreaker(now: int)
      requires Valid()
      modifies this
      ensures Valid() && history == old(history) + [Reset(now)] && state == CLOSED && consecutiveFailures == 0
    {
      state := CLOSED;
      consecutiveFailures := 0;
      openedAt := 0;
      Log(Reset(now));
    }

    method ForceOpen(now: int)
      requires Valid()
      modifies this
      ensures Valid() && history == old(history) + [ForcedOpen(now)]
      ensures state == OPEN && openedAt == now && consecutiveFailures == 0
    {
      state := OPEN;
      openedAt := now;
      consecutiveFailures := 0;
      Log(ForcedOpen(now));
    }
  }
}
