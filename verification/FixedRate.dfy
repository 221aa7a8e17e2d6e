/** One fixed-rate stream: its record, what has vested at a ledger, and the effect that each
    entry point has on it, stated through what has vested. The contract computes these effects
    by other formulas; module VestingContract proves that they come to the same. */
module FixedRate {
  import opened Wrappers
  import opened Machine
  import opened TokenBook

  const DRAIN_DELAY_LEDGERS: U32 := 3_153_600
  const MAX_FEE_BPS: U32 := 500

  datatype Error =
    | ScheduleNotFound
    | CliffNotReached
    | NothingToClaim
    | Unauthorized
    | InvalidRecipient
    | DepositOverflow
    | VersionOverflow
    | TransferFailed
    | StreamAlreadyPaused
    | StreamNotPaused
    | StreamNotExpired
    | DrainDelayNotExpired
    | ClawbackNotSupported
    | NotInitialized
    | InvalidRate
    | InvalidCliffDuration
    | InvalidDuration
    | RecipientNotAllowed
    | InvalidToken
    | MetadataTooLong
    | RateTooLow
    | DepositBelowMinimum

  datatype Schedule = Schedule(
    token: Token,
    sponsor: Address,
    rate: I128,
    start: U32,
    cliff: U32,
    end: U32,
    lastClaimed: U32,
    totalClaimed: I128,
    claimed: I128,
    pausedAt: Option<U32>,
    accumulatedPause: U32,
    version: U32)

  /** The deposit that the schedule implies. */
  function Total(s: Schedule): int { s.rate * (s.end - s.start) }

  /** Everything vested up to ledger `e`: nothing before the cliff, linear from the start after it. */
  function VestedAt(s: Schedule, e: int): int {
    if e < s.cliff then 0 else s.rate * (Min(e, s.end) - s.start)
  }

  /** A paused stream stands still at the ledger of the pause. */
  function Effective(s: Schedule, now: U32): U32 {
    if s.pausedAt.Some? then s.pausedAt.value else now
  }

  function Outstanding(s: Schedule): int { Total(s) - s.claimed }

  /** What every stored schedule satisfies at ledger `now`. */
  ghost predicate Reachable(s: Schedule, now: U32) {
    && s.rate > 0
    && s.start <= s.lastClaimed <= s.end
    && s.start <= s.cliff <= s.end
    && s.lastClaimed <= Effective(s, now) <= now
    && (s.lastClaimed == s.start || s.cliff <= s.lastClaimed)
    && s.totalClaimed == s.claimed == s.rate * (s.lastClaimed - s.start)
    && s.rate * (s.end - s.start) <= I128_MAX
    && s.accumulatedPause <= s.start
  }

  /** A newly stored schedule: nothing claimed, not paused, and a deposit that fits. */
  ghost predicate NewlyCreated(s: Schedule, now: U32) {
    && s.rate > 0
    && s.start == s.lastClaimed == now
    && s.start < s.cliff < s.end
    && s.totalClaimed == s.claimed == 0
    && s.pausedAt == None
    && s.accumulatedPause == 0
    && s.version == 1
    && s.rate * (s.end - s.start) <= I128_MAX
  }

  lemma NewlyCreatedIsReachable(s: Schedule, now: U32)
    requires NewlyCreated(s, now)
    ensures Reachable(s, now) && Outstanding(s) == Total(s)
  {}

  // ----- effects of the entry points -----

  /** Tokens leaving the vault on behalf of one stream. */
  datatype Payout = Payout(recipient: int, treasury: int, sponsor: int) {
    function Sum(): int { recipient + treasury + sponsor }
  }

  const NOTHING := Payout(0, 0, 0)

  /** The stream afterwards (`None` once it is settled and removed) and the payout. */
  datatype Effect = Effect(next: Option<Schedule>, pay: Payout)

  function Fee(amount: int, bps: U32): int { amount * bps / 10_000 }

  /** A claim brings the amount claimed up to what has vested, and ends the stream at its last ledger. */
  function ClaimEffect(s: Schedule, now: U32, bps: U32): Result<Effect, Error>
    requires Reachable(s, now)
  {
    VestedBounds(s, now);
    if s.pausedAt.Some? then Err(NothingToClaim)
    else if now < s.cliff then Err(CliffNotReached)
    else if s.version == U32_MAX then Err(VersionOverflow)
    else
      var amount := VestedAt(s, now) - s.claimed;
      if amount == 0 then Err(NothingToClaim)
      else if s.version + 1 == U32_MAX then Err(VersionOverflow)
      else if !FitsI128(amount * bps) then Err(DepositOverflow)
      else
        var pay := Payout(amount - Fee(amount, bps), Fee(amount, bps), 0);
        if now >= s.end then Ok(Effect(None, pay))
        else Ok(Effect(Some(s.(lastClaimed := now, totalClaimed := VestedAt(s, now),
                               claimed := VestedAt(s, now), version := s.version + 2)), pay))
  }

  function PauseEffect(s: Schedule, now: U32): Result<Effect, Error> {
    if s.pausedAt.Some? then Err(StreamAlreadyPaused)
    else if s.version == U32_MAX then Err(VersionOverflow)
    else Ok(Effect(Some(s.(pausedAt := Some(now), version := s.version + 1)), NOTHING))
  }

  /** Moves every ledger of the schedule later by `d`, as far as u32 reaches. */
  function Shift(s: Schedule, d: int): Schedule {
    s.(start := SaturatingU32(s.start + d),
       cliff := SaturatingU32(s.cliff + d),
       end := SaturatingU32(s.end + d),
       lastClaimed := SaturatingU32(s.lastClaimed + d),
       accumulatedPause := SaturatingU32(s.accumulatedPause + d))
  }

  function ResumeEffect(s: Schedule, now: U32): Result<Effect, Error> {
    if s.pausedAt.None? then Err(StreamNotPaused)
    else if s.version == U32_MAX then Err(VersionOverflow)
    else
      var d := SaturatingU32(now - s.pausedAt.value);
      Ok(Effect(Some(Shift(s, d).(pausedAt := None, version := s.version + 1)), NOTHING))
  }

  /** A cancel pays the recipient all that has vested and the sponsor all that has not. */
  function CancelEffect(s: Schedule, now: U32): Result<Effect, Error> {
    if s.version == U32_MAX then Err(VersionOverflow)
    else
      var vested := VestedAt(s, Effective(s, now));
      Ok(Effect(None, Payout(vested - s.claimed, 0, Total(s) - vested)))
  }

  /** A clawback returns all that was not claimed, vested or not. */
  function ClawbackEffect(s: Schedule): Effect {
    Effect(None, Payout(0, 0, Outstanding(s)))
  }

  function DrainEffect(s: Schedule, now: U32): Result<Effect, Error> {
    if now < s.end then Err(StreamNotExpired)
    else if now < SaturatingU32(s.end + DRAIN_DELAY_LEDGERS) then Err(DrainDelayNotExpired)
    else Ok(Effect(None, Payout(0, 0, Outstanding(s))))
  }

  // ----- facts about one stream -----

  /** Once vesting has begun, what has vested never falls behind what was claimed nor passes the deposit. */
  lemma VestedBounds(s: Schedule, now: U32)
    requires Reachable(s, now)
    ensures 0 <= s.claimed <= VestedAt(s, Effective(s, now)) <= Total(s) <= I128_MAX
    ensures Effective(s, now) >= s.cliff ==>
              VestedAt(s, Effective(s, now)) - s.claimed == s.rate * (Min(Effective(s, now), s.end) - s.lastClaimed)
    ensures Outstanding(s) == s.rate * (s.end - s.lastClaimed) >= 0
    ensures Effective(s, now) < s.cliff ==> s.claimed == 0
  {
    var e := Min(Effective(s, now), s.end);
    MulMono(s.rate, 0, s.lastClaimed - s.start);
    MulMono(s.rate, s.lastClaimed - s.start, s.end - s.start);
    MulSub(s.rate, s.end - s.start, s.lastClaimed - s.start);
    if Effective(s, now) >= s.cliff {
      MulMono(s.rate, s.lastClaimed - s.start, e - s.start);
      MulMono(s.rate, e - s.start, s.end - s.start);
      MulSub(s.rate, e - s.start, s.lastClaimed - s.start);
    }
  }

  lemma FeeBounds(amount: int, bps: U32)
    requires amount >= 0
    ensures 0 <= Fee(amount, bps)
    ensures bps <= 10_000 ==> Fee(amount, bps) <= amount
  {
    MulMono(amount, 0, bps);
    if bps <= 10_000 { MulMono(amount, bps, 10_000); }
  }

  /** All four ways to settle hand out the same sum: the part not yet claimed. The floor
      `refund.max(0)` of a cancel never applies, and before the cliff the sponsor gets it all back. */
  lemma SettlementsAgree(s: Schedule, now: U32, bps: U32)
    requires Reachable(s, now)
    ensures ClawbackEffect(s).pay.Sum() == Outstanding(s) == s.rate * (s.end - s.lastClaimed)
    ensures CancelEffect(s, now).Ok? ==>
              && CancelEffect(s, now).value.pay.Sum() == Outstanding(s)
              && CancelEffect(s, now).value.pay.recipient >= 0
              && CancelEffect(s, now).value.pay.sponsor >= 0
              && (Effective(s, now) < s.cliff ==> CancelEffect(s, now).value.pay == Payout(0, 0, Total(s)))
    ensures DrainEffect(s, now).Ok? ==> DrainEffect(s, now).value.pay == ClawbackEffect(s).pay
    ensures ClaimEffect(s, now, bps).Ok? && now >= s.end ==> ClaimEffect(s, now, bps).value.pay.Sum() == Outstanding(s)
  {
    VestedBounds(s, now);
  }

  /** A claim that succeeds: the fee is the rounded-down part of what has vested and was not claimed, the rest is
      the recipient's, and the record says so and is two versions on, or ends from the last ledger on. */
  lemma ClaimMeans(s: Schedule, now: U32, bps: U32)
    requires Reachable(s, now) && ClaimEffect(s, now, bps).Ok?
    ensures var (e, amount) := (ClaimEffect(s, now, bps).value, VestedAt(s, now) - s.claimed);
            && s.pausedAt.None? && now >= s.cliff && amount > 0
            && e.pay.treasury == amount * bps / 10_000
            && e.pay.recipient == amount - e.pay.treasury && e.pay.sponsor == 0
            && (e.next.None? <==> now >= s.end)
            && (e.next.Some? ==>
                  var t := e.next.value;
                  && t.lastClaimed == now && t.claimed == s.claimed + amount
                  && t.totalClaimed == s.totalClaimed + amount && t.version == s.version + 2
                  && t == s.(lastClaimed := now, claimed := t.claimed, totalClaimed := t.totalClaimed,
                             version := t.version))
  {
    VestedBounds(s, now);
  }

  /** Every effect keeps `Reachable`, at any later ledger. */
  lemma ClaimKeepsReachable(s: Schedule, now: U32, bps: U32)
    requires Reachable(s, now)
    ensures var r := ClaimEffect(s, now, bps);
            r.Ok? ==>
              var e := r.value;
              && e.pay.Sum() > 0 && e.pay.treasury >= 0 && e.pay.sponsor == 0
              && (bps <= 10_000 ==> e.pay.recipient >= 0)
              && (e.next.None? ==> e.pay.Sum() == Outstanding(s))
              && (e.next.Some? ==> Reachable(e.next.value, now)
                                   && Outstanding(e.next.value) == Outstanding(s) - e.pay.Sum() > 0)
  {
    VestedBounds(s, now);
    if ClaimEffect(s, now, bps).Ok? { FeeBounds(VestedAt(s, now) - s.claimed, bps); }
    if s.pausedAt.None? && now < s.end {
      MulStrict(s.rate, now - s.start, s.end - s.start);
    }
  }

  lemma PauseKeepsReachable(s: Schedule, now: U32)
    requires Reachable(s, now) && PauseEffect(s, now).Ok?
    ensures var e := PauseEffect(s, now).value;
            e.next.Some? && Reachable(e.next.value, now) && Outstanding(e.next.value) == Outstanding(s)
  {}

  /** How far a resume would push the end past the last u32 ledger. */
  function Overshoot(s: Schedule, now: U32): int {
    if s.pausedAt.Some? then Max(0, s.end + (now - s.pausedAt.value) - U32_MAX) else 0
  }

  /** A resume keeps the deposit exactly when no ledger saturates; otherwise it loses
      the rate times the overshoot, which no settlement will ever pay out. */
  lemma ResumeKeepsReachable(s: Schedule, now: U32)
    requires Reachable(s, now) && ResumeEffect(s, now).Ok?
    ensures var e := ResumeEffect(s, now).value;
            && e.next.Some? && Reachable(e.next.value, now)
            && Outstanding(e.next.value) == Outstanding(s) - s.rate * Overshoot(s, now)
            && Total(e.next.value) == Total(s) - s.rate * Overshoot(s, now)
            && (Total(e.next.value) == Total(s) <==> s.end + (now - s.pausedAt.value) <= U32_MAX)
  {
    var d := now - s.pausedAt.value;
    var t := ResumeEffect(s, now).value.next.value;
    assert t.start == s.start + d && t.lastClaimed == s.lastClaimed + d;
    assert t.end == s.end + d - Overshoot(s, now);
    MulSub(s.rate, s.end - s.start, Overshoot(s, now));
    MulMono(s.rate, 0, Overshoot(s, now));
    if Overshoot(s, now) > 0 { MulStrict(s.rate, 0, Overshoot(s, now)); }
  }

  /** Time passing keeps a stored schedule in order. */
  lemma ReachableLater(s: Schedule, now: U32, later: U32)
    requires Reachable(s, now) && now <= later
    ensures Reachable(s, later)
  {}
}
