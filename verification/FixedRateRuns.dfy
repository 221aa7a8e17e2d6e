/** Whole runs of one fixed-rate stream: any operations, at any non-decreasing ledgers.
    A refused operation changes nothing. */
module FixedRateRuns {
  import opened Wrappers
  import opened Machine
  import opened FixedRate

  datatype Op = Claim(bps: U32) | Pause | Resume | Cancel | Clawback | Drain

  datatype Event = Event(now: U32, op: Op)

  /** A payment made by a successful claim or settlement. */
  datatype Receipt = Receipt(op: Op, pay: Payout)

  datatype Outcome = Outcome(final: Option<Schedule>, receipts: seq<Receipt>)

  function EffectOf(s: Schedule, e: Event): Result<Effect, Error>
    requires Reachable(s, e.now)
  {
    match e.op
    case Claim(bps) => ClaimEffect(s, e.now, bps)
    case Pause => PauseEffect(s, e.now)
    case Resume => ResumeEffect(s, e.now)
    case Cancel => CancelEffect(s, e.now)
    case Clawback => Ok(ClawbackEffect(s))
    case Drain => DrainEffect(s, e.now)
  }

  ghost predicate Ordered(now: U32, events: seq<Event>)
    decreases |events|
  {
    events == [] || (now <= events[0].now && Ordered(events[0].now, events[1..]))
  }

  ghost predicate Sound(st: Option<Schedule>, now: U32) {
    st.Some? ==> Reachable(st.value, now)
  }

  function After(s: Schedule, e: Event): Option<Schedule>
    requires Reachable(s, e.now)
  {
    var r := EffectOf(s, e);
    if r.Ok? then r.value.next else Some(s)
  }

  function ReceiptsOf(s: Schedule, e: Event): seq<Receipt>
    requires Reachable(s, e.now)
  {
    var r := EffectOf(s, e);
    if r.Ok? && !e.op.Pause? && !e.op.Resume? then [Receipt(e.op, r.value.pay)] else []
  }

  function LostBy(s: Schedule, e: Event): int
    requires Reachable(s, e.now)
  {
    if e.op.Resume? && EffectOf(s, e).Ok? then s.rate * Overshoot(s, e.now) else 0
  }

  function Paid(rs: seq<Receipt>): int {
    if rs == [] then 0 else rs[0].pay.Sum() + Paid(rs[1..])
  }

  function Unpaid(st: Option<Schedule>): int {
    if st.Some? then Outstanding(st.value) else 0
  }

  /** The step keeps the stream sound and moves value only between what is paid, owed and lost. */
  ghost predicate Conserves(s: Schedule, e: Event)
    requires Reachable(s, e.now)
  {
    && Sound(After(s, e), e.now)
    && Paid(ReceiptsOf(s, e)) + Unpaid(After(s, e)) + LostBy(s, e) == Outstanding(s)
    && Paid(ReceiptsOf(s, e)) >= 0 && Unpaid(After(s, e)) >= 0 && LostBy(s, e) >= 0
  }

  lemma PaidOne(r: Receipt)
    ensures Paid([r]) == r.pay.Sum()
  {
    assert [r][1..] == [];
  }

  lemma ClaimConserves(s: Schedule, e: Event)
    requires Reachable(s, e.now) && e.op.Claim? && EffectOf(s, e).Ok?
    ensures Conserves(s, e)
  {
    ClaimKeepsReachable(s, e.now, e.op.bps);
    PaidOne(ReceiptsOf(s, e)[0]);
  }

  lemma ResumeConserves(s: Schedule, e: Event)
    requires Reachable(s, e.now) && e.op.Resume? && EffectOf(s, e).Ok?
    ensures Conserves(s, e)
  {
    ResumeKeepsReachable(s, e.now);
    MulMono(s.rate, 0, Overshoot(s, e.now));
    VestedBounds(After(s, e).value, e.now);
  }

  lemma SettlingConserves(s: Schedule, e: Event)
    requires Reachable(s, e.now) && (e.op.Cancel? || e.op.Clawback? || e.op.Drain?) && EffectOf(s, e).Ok?
    ensures Conserves(s, e)
  {
    SettlementsAgree(s, e.now, 0);
    VestedBounds(s, e.now);
    PaidOne(ReceiptsOf(s, e)[0]);
  }

  /** Every step conserves, whatever the operation and whether or not it is refused. */
  lemma StepConserves(s: Schedule, e: Event)
    requires Reachable(s, e.now)
    ensures Conserves(s, e)
  {
    if EffectOf(s, e).Err? {
      VestedBounds(s, e.now);
    } else if e.op.Claim? {
      ClaimConserves(s, e);
    } else if e.op.Resume? {
      ResumeConserves(s, e);
    } else if e.op.Pause? {
      PauseKeepsReachable(s, e.now);
      VestedBounds(s, e.now);
    } else {
      SettlingConserves(s, e);
    }
  }

  ghost function Run(st: Option<Schedule>, now: U32, events: seq<Event>): Outcome
    requires Sound(st, now) && Ordered(now, events)
    decreases |events|
  {
    if st.None? || events == [] then Outcome(st, [])
    else
      var (s, e) := (st.value, events[0]);
      ReachableLater(s, now, e.now);
      StepConserves(s, e);
      var rest := Run(After(s, e), e.now, events[1..]);
      Outcome(rest.final, ReceiptsOf(s, e) + rest.receipts)
  }

  /** What saturated resumes of the run put out of reach. */
  ghost function Lost(st: Option<Schedule>, now: U32, events: seq<Event>): int
    requires Sound(st, now) && Ordered(now, events)
    decreases |events|
  {
    if st.None? || events == [] then 0
    else
      var (s, e) := (st.value, events[0]);
      ReachableLater(s, now, e.now);
      StepConserves(s, e);
      LostBy(s, e) + Lost(After(s, e), e.now, events[1..])
  }

  /** Some resume of the run would move the end past the last u32 ledger. */
  ghost predicate Saturates(st: Option<Schedule>, now: U32, events: seq<Event>)
    requires Sound(st, now) && Ordered(now, events)
    decreases |events|
  {
    st.Some? && events != [] &&
    var (s, e) := (st.value, events[0]);
    ReachableLater(s, now, e.now);
    StepConserves(s, e);
    (e.op.Resume? && EffectOf(s, e).Ok? && s.end + (e.now - s.pausedAt.value) > U32_MAX)
    || Saturates(After(s, e), e.now, events[1..])
  }

  lemma {:induction false} PaidConcat(a: seq<Receipt>, b: seq<Receipt>)
    ensures Paid(a + b) == Paid(a) + Paid(b)
  {
    if a == [] {
      assert a + b == b;
    } else {
      assert (a + b)[1..] == a[1..] + b;
      PaidConcat(a[1..], b);
    }
  }

  /** Conservation over every run, and so over every prefix of one. */
  lemma {:induction false} RunConserves(st: Option<Schedule>, now: U32, events: seq<Event>)
    requires Sound(st, now) && Ordered(now, events)
    ensures var o := Run(st, now, events);
            && Paid(o.receipts) + Unpaid(o.final) + Lost(st, now, events) == Unpaid(st)
            && Paid(o.receipts) >= 0 && Unpaid(o.final) >= 0 && Lost(st, now, events) >= 0
    decreases |events|
  {
    if st.Some? {
      VestedBounds(st.value, now);
      if events != [] {
        var (s, e) := (st.value, events[0]);
        ReachableLater(s, now, e.now);
        StepConserves(s, e);
        RunConserves(After(s, e), e.now, events[1..]);
        PaidConcat(ReceiptsOf(s, e), Run(After(s, e), e.now, events[1..]).receipts);
      }
    }
  }

  lemma {:induction false} LossIsSaturation(st: Option<Schedule>, now: U32, events: seq<Event>)
    requires Sound(st, now) && Ordered(now, events)
    ensures Lost(st, now, events) > 0 <==> Saturates(st, now, events)
    decreases |events|
  {
    if st.Some? && events != [] {
      var (s, e) := (st.value, events[0]);
      ReachableLater(s, now, e.now);
      StepConserves(s, e);
      LossIsSaturation(After(s, e), e.now, events[1..]);
      RunConserves(After(s, e), e.now, events[1..]);
      if e.op.Resume? && EffectOf(s, e).Ok? {
        if Overshoot(s, e.now) > 0 { MulStrict(s.rate, 0, Overshoot(s, e.now)); }
      }
    }
  }

  /** From creation to the end of the stream, whatever ended it, recipient, treasury and sponsor
      together receive the whole deposit exactly when no resume saturated, and never more. */
  lemma DepositIsPaidOut(s: Schedule, now: U32, events: seq<Event>)
    requires NewlyCreated(s, now) && Ordered(now, events)
    ensures var o := Run(Some(s), now, events);
            && Paid(o.receipts) <= s.rate * (s.end - s.start)
            && (o.final.None? ==>
                  (Paid(o.receipts) == s.rate * (s.end - s.start) <==> !Saturates(Some(s), now, events)))
  {
    RunConserves(Some(s), now, events);
    LossIsSaturation(Some(s), now, events);
  }

  // ----- pausing only shifts time -----

  /** The never-paused twin: the same stream with every accumulated pause taken out again. */
  function Unshift(s: Schedule, version: U32): Schedule
    requires s.accumulatedPause <= s.start <= s.lastClaimed && s.start <= s.cliff && s.start <= s.end
  {
    var acc := s.accumulatedPause;
    s.(start := s.start - acc, cliff := s.cliff - acc, end := s.end - acc, lastClaimed := s.lastClaimed - acc,
       pausedAt := None, accumulatedPause := 0, version := version)
  }

  /** The ledger the twin is at: the ledger of the pause, or now, less all earlier pauses. */
  function TwinClock(s: Schedule, now: U32): U32
    requires Reachable(s, now)
  {
    Effective(s, now) - s.accumulatedPause
  }

  ghost predicate IsTwin(t: Schedule, s: Schedule, now: U32) {
    && Reachable(s, now)
    && t.version <= s.version
    && t == Unshift(s, t.version)
  }

  lemma TwinIsReachable(t: Schedule, s: Schedule, now: U32)
    requires IsTwin(t, s, now)
    ensures Reachable(t, TwinClock(s, now))
    ensures VestedAt(t, TwinClock(s, now)) == VestedAt(s, Effective(s, now)) && Total(t) == Total(s)
  {}

  /** An unpaused claim is refused for the cliff, or for having nothing to pay, when its twin's is;
      otherwise it pays what its twin's claim pays. The version counter, which pauses also use up,
      is the only thing that can stop it alone. */
  lemma ClaimMatchesTwin(t: Schedule, s: Schedule, now: U32, bps: U32)
    requires IsTwin(t, s, now) && s.pausedAt.None?
    requires Reachable(t, TwinClock(s, now))
    ensures var (r, u) := (ClaimEffect(s, now, bps), ClaimEffect(t, TwinClock(s, now), bps));
            && (r == Err(CliffNotReached) <==> u == Err(CliffNotReached))
            && (r.Ok? ==> u.Ok? && r.value.pay == u.value.pay)
            && (s.version + 1 < U32_MAX ==> (r.Ok? <==> u.Ok?) && (r.Err? ==> r == u))
  {
    TwinIsReachable(t, s, now);
  }

  /** What the twin does for one event: claims and settlements that succeed, at its own clock. */
  ghost function TwinEvents(s: Schedule, e: Event): seq<Event>
    requires Reachable(s, e.now)
  {
    if ReceiptsOf(s, e) == [] then [] else [Event(TwinClock(s, e.now), e.op)]
  }

  ghost function TwinRun(st: Option<Schedule>, now: U32, events: seq<Event>): seq<Event>
    requires Sound(st, now) && Ordered(now, events)
    decreases |events|
  {
    if st.None? || events == [] then []
    else
      var (s, e) := (st.value, events[0]);
      ReachableLater(s, now, e.now);
      StepConserves(s, e);
      TwinEvents(s, e) + TwinRun(After(s, e), e.now, events[1..])
  }

  /** Stream and twin stay in step over one event and write the same receipts for it. */
  ghost predicate InStep(t: Schedule, s: Schedule, e: Event)
    requires Reachable(s, e.now) && Reachable(t, TwinClock(s, e.now)) && Sound(After(s, e), e.now)
  {
    if TwinEvents(s, e) == [] then
      && After(s, e).Some? && IsTwin(t, After(s, e).value, e.now)
      && TwinClock(After(s, e).value, e.now) == TwinClock(s, e.now)
    else
      var te := TwinEvents(s, e)[0];
      && ReceiptsOf(t, te) == ReceiptsOf(s, e)
      && (After(s, e).None? <==> After(t, te).None?)
      && (After(s, e).Some? ==> IsTwin(After(t, te).value, After(s, e).value, e.now)
                                && TwinClock(After(s, e).value, e.now) == TwinClock(s, e.now))
  }

  lemma ClaimInStep(t: Schedule, s: Schedule, e: Event)
    requires IsTwin(t, s, e.now) && e.op.Claim? && Reachable(t, TwinClock(s, e.now)) && Sound(After(s, e), e.now)
    ensures InStep(t, s, e)
  {
    TwinIsReachable(t, s, e.now);
    if s.pausedAt.None? { ClaimMatchesTwin(t, s, e.now, e.op.bps); }
  }

  lemma PauseInStep(t: Schedule, s: Schedule, e: Event)
    requires IsTwin(t, s, e.now) && (e.op.Pause? || e.op.Resume?) && Reachable(t, TwinClock(s, e.now))
             && Sound(After(s, e), e.now)
    requires e.op.Resume? && EffectOf(s, e).Ok? ==> Overshoot(s, e.now) == 0
    ensures InStep(t, s, e)
  {}

  lemma SettlingInStep(t: Schedule, s: Schedule, e: Event)
    requires IsTwin(t, s, e.now) && (e.op.Cancel? || e.op.Clawback?) && Reachable(t, TwinClock(s, e.now))
             && Sound(After(s, e), e.now)
    ensures InStep(t, s, e)
  {
    TwinIsReachable(t, s, e.now);
  }

  /** Every event but a drain keeps them in step. */
  lemma StepMatchesTwin(t: Schedule, s: Schedule, e: Event)
    requires IsTwin(t, s, e.now) && !e.op.Drain?
    requires e.op.Resume? && EffectOf(s, e).Ok? ==> Overshoot(s, e.now) == 0
    requires Reachable(t, TwinClock(s, e.now))
    ensures Sound(After(s, e), e.now) && InStep(t, s, e)
  {
    StepConserves(s, e);
    match e.op {
      case Claim(_) => ClaimInStep(t, s, e);
      case Pause => PauseInStep(t, s, e);
      case Resume => PauseInStep(t, s, e);
      case _ => SettlingInStep(t, s, e);
    }
  }

  /** The twin's clock only moves forward. */
  lemma TwinClockMonotone(s: Schedule, now: U32, later: U32)
    requires Reachable(s, now) && now <= later
    ensures Reachable(s, later) && TwinClock(s, now) <= TwinClock(s, later)
  {}

  lemma RunFromLater(st: Option<Schedule>, now: U32, later: U32, events: seq<Event>)
    requires Sound(st, now) && now <= later && Ordered(later, events)
    ensures Sound(st, later) && Ordered(now, events)
    ensures Run(st, now, events) == Run(st, later, events)
  {
    if st.Some? {
      ReachableLater(st.value, now, later);
    }
  }

  lemma RunOfCons(s: Schedule, now: U32, e: Event, rest: seq<Event>)
    requires Reachable(s, now) && now <= e.now && Ordered(e.now, rest)
    ensures Ordered(now, [e] + rest) && Reachable(s, e.now) && Sound(After(s, e), e.now)
    ensures var tail := Run(After(s, e), e.now, rest);
            Run(Some(s), now, [e] + rest) == Outcome(tail.final, ReceiptsOf(s, e) + tail.receipts)
  {
    ReachableLater(s, now, e.now);
    StepConserves(s, e);
    assert ([e] + rest)[1..] == rest;
  }

  /** A pause is a pure shift of time. Over every run without a drain and without saturation, the
      never-paused twin, at its own clock, makes the same claims and settlements, each of which pays
      the same amounts to the same accounts, and it is over exactly when the paused stream is. */
  lemma {:induction false} PausesOnlyShiftTime(t: Schedule, s: Schedule, now: U32, events: seq<Event>)
    requires Ordered(now, events) && IsTwin(t, s, now)
    requires !Saturates(Some(s), now, events)
    requires forall i :: 0 <= i < |events| ==> !events[i].op.Drain?
    ensures Reachable(t, TwinClock(s, now))
    ensures Ordered(TwinClock(s, now), TwinRun(Some(s), now, events))
    ensures var (o, u) := (Run(Some(s), now, events), Run(Some(t), TwinClock(s, now), TwinRun(Some(s), now, events)));
            && u.receipts == o.receipts
            && (u.final.None? <==> o.final.None?)
    decreases |events|
  {
    TwinIsReachable(t, s, now);
    if events != [] {
      var e := events[0];
      TwinClockMonotone(s, now, e.now);
      TwinIsReachable(t, s, e.now);
      StepConserves(s, e);
      StepMatchesTwin(t, s, e);
      var rest := TwinRun(After(s, e), e.now, events[1..]);
      if TwinEvents(s, e) == [] {
        assert TwinRun(Some(s), now, events) == rest;
        PausesOnlyShiftTime(t, After(s, e).value, e.now, events[1..]);
        RunFromLater(Some(t), TwinClock(s, now), TwinClock(s, e.now), rest);
      } else {
        var te := TwinEvents(s, e)[0];
        assert TwinRun(Some(s), now, events) == [te] + rest;
        if After(s, e).Some? {
          PausesOnlyShiftTime(After(t, te).value, After(s, e).value, e.now, events[1..]);
        }
        RunOfCons(t, TwinClock(s, now), te, rest);
      }
    }
  }

  /** At creation a stream is its own twin. So from creation on, what a stream pays over such a run is what it
      would pay without its pauses, to claims and settlements made by its own clock. */
  lemma CreatedIsItsTwin(s: Schedule, now: U32, events: seq<Event>)
    requires NewlyCreated(s, now) && Ordered(now, events) && !Saturates(Some(s), now, events)
    requires forall i :: 0 <= i < |events| ==> !events[i].op.Drain?
    ensures IsTwin(s, s, now) && TwinClock(s, now) == now
    ensures Ordered(now, TwinRun(Some(s), now, events))
    ensures var (o, u) := (Run(Some(s), now, events), Run(Some(s), now, TwinRun(Some(s), now, events)));
            u.receipts == o.receipts && (u.final.None? <==> o.final.None?)
  {
    PausesOnlyShiftTime(s, s, now, events);
  }

  /** A drain is the exception: it goes by the ledger, not by the twin's clock. While the drain ledger
      fits in u32, it and its twin's drain are both allowed or both refused unless the stream was paused
      before its drain ledger and that ledger has since gone by. When the drain ledger saturates, they
      part exactly at the last ledger, if there was any pause at all. */
  lemma DrainIgnoresPause(s: Schedule, now: U32)
    requires Reachable(s, now)
    ensures var t := Unshift(s, s.version);
            (DrainEffect(s, now).Ok? <==> DrainEffect(t, TwinClock(s, now)).Ok?)
            <==> if s.end + DRAIN_DELAY_LEDGERS <= U32_MAX
                 then !(s.pausedAt.Some? && s.pausedAt.value < s.end + DRAIN_DELAY_LEDGERS <= now)
                 else !(now == U32_MAX && (s.accumulatedPause > 0 || Effective(s, now) < U32_MAX))
  {}

  /** Inputs for both: a stream of ten ledgers paused before its cliff and drained a year later, and one
      resumed after a pause of one ledger which ends at the last but one. */
  lemma DrainExamples(s: Schedule, u: Schedule)
    requires s.rate == 1 && s.start == s.lastClaimed == 0 && s.cliff == 5 && s.end == 10
             && s.claimed == s.totalClaimed == 0
    requires s.pausedAt == Some(2) && s.accumulatedPause == 0
    requires u.rate == 1 && u.start == u.lastClaimed == 1 && u.cliff == 5 && u.end == U32_MAX - 1
             && u.claimed == u.totalClaimed == 0
    requires u.pausedAt == None && u.accumulatedPause == 1
    ensures Reachable(s, 4_000_000) && Reachable(u, U32_MAX)
    ensures DrainEffect(s, 4_000_000).Ok?
            && DrainEffect(Unshift(s, s.version), TwinClock(s, 4_000_000)) == Err(StreamNotExpired)
    ensures DrainEffect(u, U32_MAX).Ok?
            && DrainEffect(Unshift(u, u.version), TwinClock(u, U32_MAX)) == Err(DrainDelayNotExpired)
  {}
}
