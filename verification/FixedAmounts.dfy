/** What the fixed-rate entry points compute, by the contract's own formulas, before they move any token. Each
    is proved to come to the effect that module FixedRate gives through what has vested. */
module FixedAmounts {
  import opened Wrappers
  import opened Machine
  import opened TokenBook
  import opened FixedRate

  // ----- creating -----

  const RATE_DECIMALS := 10_000_000
  const MAX_METADATA_BYTES := 256

  /** What the administrator has configured. */
  datatype Settings = Settings(
    initialized: bool,
    feeBps: U32,
    treasury: Option<Address>,
    minRate: I128,
    minDeposit: I128,
    maxCliffRatioBps: U32)

  /** What a sponsor asks for. */
  datatype Terms = Terms(rate: I128, cliffDuration: U32, totalDuration: U32)

  /** What creation finds out about the recipient, the token and the metadata. */
  datatype Findings = Findings(allowed: bool, validToken: bool, metadataBytes: nat)

  /** What the sponsor deposits: the rate is taken as scaled by RATE_DECIMALS, which no payout does. */
  function Deposit(terms: Terms): int { terms.rate * terms.totalDuration / RATE_DECIMALS }

  /** What the stored schedule will pay out. */
  function Payable(terms: Terms): int { terms.rate * terms.totalDuration }

  predicate Admissible(terms: Terms, settings: Settings, found: Findings, now: U32) {
    && terms.rate > 0 && terms.rate >= settings.minRate
    && 0 < terms.cliffDuration < terms.totalDuration
    && terms.cliffDuration * 10_000 / terms.totalDuration <= settings.maxCliffRatioBps
    && found.allowed && found.validToken && found.metadataBytes <= MAX_METADATA_BYTES
    && now + terms.totalDuration <= U32_MAX
    && Payable(terms) <= I128_MAX
    && Deposit(terms) >= settings.minDeposit
  }

  /** The record that creation stores. */
  function NewSchedule(sponsor: Address, token: Token, terms: Terms, now: U32): Schedule
    requires now + terms.totalDuration <= U32_MAX && terms.cliffDuration <= terms.totalDuration
  {
    Schedule(token, sponsor, terms.rate, now, now + terms.cliffDuration, now + terms.totalDuration,
             now, 0, 0, None, 0, 1)
  }

  lemma NewScheduleFacts(sponsor: Address, token: Token, terms: Terms, now: U32)
    requires terms.rate > 0 && 0 < terms.cliffDuration < terms.totalDuration && now + terms.totalDuration <= U32_MAX
    requires Payable(terms) <= I128_MAX
    ensures var s := NewSchedule(sponsor, token, terms, now);
            NewlyCreated(s, now) && s.token == token && 0 <= Deposit(terms) < Outstanding(s) == Payable(terms)
  {
    assert now + terms.totalDuration - now == terms.totalDuration;
    MulStrict(terms.rate, 0, terms.totalDuration);
  }

  function FeeOn(deposit: int, settings: Settings): int {
    if settings.feeBps == 0 then 0 else Fee(deposit, settings.feeBps)
  }

  /** The sponsor can pay the deposit, and the fee on it can be passed on to the treasury. */
  predicate CanFund(b: Balances, frozen: set<Token>, token: Token, sponsor: Address, deposit: int, settings: Settings) {
    && token !in frozen && deposit <= BalanceOf(b, token, Party(sponsor))
    && (settings.feeBps > 0 ==> settings.treasury.Some? && FitsI128(deposit * settings.feeBps))
    && FeeOn(deposit, settings) <= Max(0, BalanceOf(b, token, Vault) + deposit)
  }

  /** The deposit went to the vault, and the fee from there to the treasury. */
  ghost predicate Funded(before: Balances, after: Balances, token: Token, sponsor: Address, deposit: int,
                         settings: Settings) {
    forall t, h :: BalanceOf(after, t, h) == BalanceOf(before, t, h)
      + Change(token, Party(sponsor), Vault, deposit, t, h)
        + if settings.treasury.Some?
          then Change(token, Vault, Party(settings.treasury.value), FeeOn(deposit, settings), t, h) else 0
  }

  /** The sponsor has paid the deposit, the treasury has received the fee, the vault has the rest, and no other
      balance has changed. A sponsor who is the treasury has paid the difference. */
  lemma FundedMeans(before: Balances, after: Balances, token: Token, sponsor: Address, deposit: int, settings: Settings)
    requires Funded(before, after, token, sponsor, deposit, settings)
    requires settings.feeBps > 0 ==> settings.treasury.Some?
    ensures var fee := deposit * settings.feeBps / 10_000;
            forall t, h ::
              BalanceOf(after, t, h) == BalanceOf(before, t, h)
                - (if t == token && h == Party(sponsor) then deposit else 0)
                + (if t == token && settings.treasury.Some? && h == Party(settings.treasury.value) then fee else 0)
                + (if t == token && h == Vault then deposit - fee else 0)
  {}

  /** What a creation promises beyond what it brings into the vault. */
  function Shortfall(terms: Terms, settings: Settings): int {
    Payable(terms) - (Deposit(terms) - FeeOn(Deposit(terms), settings))
  }

  /** The validation of a new stream. It accepts exactly the admissible terms, and every error names a
      fault that is there. */
  method ValidateTerms(sponsor: Address, token: Token, terms: Terms, settings: Settings, found: Findings, now: U32)
    returns (r: Result<(Schedule, I128), Error>)
    ensures r.Ok? <==> Admissible(terms, settings, found, now)
    ensures r.Ok? ==>
              && r.value.0 == NewSchedule(sponsor, token, terms, now) && r.value.1 == Deposit(terms)
              && NewlyCreated(r.value.0, now) && 0 <= r.value.1 < Total(r.value.0) == Payable(terms)
    ensures r.Ok? ==>
              var (s, deposit) := r.value;
              && s.token == token && s.sponsor == sponsor && s.rate == terms.rate
              && s.start == s.lastClaimed == now
              && s.cliff == now + terms.cliffDuration && s.end == now + terms.totalDuration
              && s.totalClaimed == s.claimed == 0 && s.pausedAt == None && s.accumulatedPause == 0 && s.version == 1
              && deposit == terms.rate * terms.totalDuration / 10_000_000
    ensures r.Ok? ==>
              && terms.rate > 0 && terms.rate >= settings.minRate
              && 0 < terms.cliffDuration < terms.totalDuration
              && terms.cliffDuration * 10_000 / terms.totalDuration <= settings.maxCliffRatioBps
              && found.allowed && found.validToken && found.metadataBytes <= 256
              && now + terms.totalDuration <= U32_MAX && terms.rate * terms.totalDuration <= I128_MAX
              && terms.rate * terms.totalDuration / 10_000_000 >= settings.minDeposit
    ensures r.Err? ==> match r.error
                       case InvalidRate => terms.rate <= 0 || terms.rate < settings.minRate
                       case InvalidCliffDuration => terms.cliffDuration == 0
                       case InvalidDuration =>
                         || terms.totalDuration <= terms.cliffDuration
                         || terms.cliffDuration * 10_000 / terms.totalDuration > settings.maxCliffRatioBps
                       case RecipientNotAllowed => !found.allowed
                       case InvalidToken => !found.validToken
                       case MetadataTooLong => found.metadataBytes > 256
                       case DepositOverflow =>
                         now + terms.totalDuration > U32_MAX || terms.rate * terms.totalDuration > I128_MAX
                       case RateTooLow => terms.rate * terms.totalDuration < settings.minDeposit
                       case DepositBelowMinimum =>
                         terms.rate * terms.totalDuration / 10_000_000 < settings.minDeposit
                         <= terms.rate * terms.totalDuration
                       case _ => false
  {
    var (rate, cliffDuration, totalDuration) := (terms.rate, terms.cliffDuration, terms.totalDuration);
    if rate <= 0 { return Err(InvalidRate); }
    if rate < settings.minRate { return Err(InvalidRate); }
    if cliffDuration == 0 { return Err(InvalidCliffDuration); }
    if totalDuration <= cliffDuration { return Err(InvalidDuration); }
    if cliffDuration * 10_000 / totalDuration > settings.maxCliffRatioBps { return Err(InvalidDuration); }
    if !found.allowed { return Err(RecipientNotAllowed); }
    if !found.validToken { return Err(InvalidToken); }
    if found.metadataBytes > MAX_METADATA_BYTES { return Err(MetadataTooLong); }
    var cliff := CheckedU32(now + cliffDuration);
    if cliff.None? { return Err(DepositOverflow); }
    var end := CheckedU32(now + totalDuration);
    if end.None? { return Err(DepositOverflow); }
    MulStrict(rate, 0, totalDuration);
    var raw := Checked(rate * totalDuration);
    if raw.Some? && raw.value < settings.minDeposit { return Err(RateTooLow); }
    if raw.None? { return Err(DepositOverflow); }
    var deposit: I128 := raw.value / RATE_DECIMALS;
    if deposit < settings.minDeposit { return Err(DepositBelowMinimum); }
    assert now + totalDuration - now == totalDuration;
    return Ok((NewSchedule(sponsor, token, terms, now), deposit));
  }

  /** The protocol fee on a deposit, and who gets it. */
  method CreationFee(deposit: I128, settings: Settings) returns (r: Result<I128, Error>)
    requires deposit >= 0 && settings.feeBps <= MAX_FEE_BPS
    ensures r == if settings.feeBps == 0 then Ok(0)
                 else if settings.treasury.None? then Err(Unauthorized)
                 else if !FitsI128(deposit * settings.feeBps) then Err(DepositOverflow)
                 else Ok(Fee(deposit, settings.feeBps))
    ensures r.Ok? ==> 0 <= r.value == deposit * settings.feeBps / 10_000 <= deposit
  {
    FeeBounds(deposit, settings.feeBps);
    if settings.feeBps > 0 {
      if settings.treasury.None? { return Err(Unauthorized); }
      var scaled := Checked(deposit * settings.feeBps);
      if scaled.None? { return Err(DepositOverflow); }
      return Ok(scaled.value / 10_000);
    }
    return Ok(0);
  }

  // ----- claiming -----

  /** The amount that a claim computes: the whole remainder from the end on, the ledgers since the
      last claim before it. Both are what has vested less what was claimed. */
  method Claimable(s: Schedule, now: U32) returns (r: Result<I128, Error>)
    requires Reachable(s, now) && s.pausedAt.None? && now >= s.cliff
    ensures r == Ok(VestedAt(s, now) - s.claimed) && r.value >= 0
  {
    VestedBounds(s, now);
    var duration: U32 := s.end - s.start;
    var deposited := Checked(s.rate * duration);
    if deposited.None? { return Err(DepositOverflow); }
    if now >= s.end {
      var rest := Checked(deposited.value - s.claimed);
      if rest.None? { return Err(DepositOverflow); }
      return Ok(rest.value);
    }
    var activeEnd: U32 := Min(now, s.end);
    var elapsed: U32 := activeEnd - s.lastClaimed;
    var accrued := Checked(s.rate * elapsed);
    if accrued.None? { return Err(DepositOverflow); }
    return Ok(accrued.value);
  }

  /** The protocol fee, rounded down; the recipient gets the rest. */
  method SplitFee(claimable: I128, feeBps: U32) returns (r: Result<(I128, I128), Error>)
    requires claimable >= 0 && feeBps <= MAX_FEE_BPS
    ensures r == if FitsI128(claimable * feeBps)
                 then Ok((Fee(claimable, feeBps), claimable - Fee(claimable, feeBps)))
                 else Err(DepositOverflow)
    ensures r.Ok? ==> r.value.0 >= 0 && r.value.1 >= 0 && r.value.0 + r.value.1 == claimable
  {
    FeeBounds(claimable, feeBps);
    var fee: I128 := 0;
    if feeBps > 0 {
      var scaled := Checked(claimable * feeBps);
      if scaled.None? { return Err(DepositOverflow); }
      fee := scaled.value / 10_000;
    }
    var net := Checked(claimable - fee);
    if net.None? { return Err(DepositOverflow); }
    return Ok((fee, net.value));
  }

  /** All that one pass of the claim loop computes, before it moves any token. */
  method ClaimSchedule(schedule: Schedule, now: U32, feeBps: U32) returns (r: Result<Effect, Error>)
    requires Reachable(schedule, now) && feeBps <= MAX_FEE_BPS
    ensures r == ClaimEffect(schedule, now, feeBps)
    ensures r.Ok? ==> 0 < r.value.pay.Sum() <= I128_MAX
  {
    var s := schedule;
    if s.pausedAt.Some? { return Err(NothingToClaim); }
    if now < s.cliff { return Err(CliffNotReached); }
    if s.version == U32_MAX { return Err(VersionOverflow); }
    s := s.(version := s.version + 1);
    var due := Claimable(schedule, now);
    var claimable := due.value;
    if claimable == 0 { return Err(NothingToClaim); }
    if s.version == U32_MAX { return Err(VersionOverflow); }
    var split := SplitFee(claimable, feeBps);
    if split.Err? { return Err(split.error); }
    var (fee, net) := split.value;
    var next := RecordClaim(schedule, now, claimable);
    return Ok(Effect(next, Payout(net, fee, 0)));
  }

  /** The record after a claim of `claimable`, two versions on, or none when that was all the rest. */
  method RecordClaim(schedule: Schedule, now: U32, claimable: I128) returns (next: Option<Schedule>)
    requires Reachable(schedule, now) && schedule.pausedAt.None? && now >= schedule.cliff
    requires schedule.version + 1 < U32_MAX && claimable == VestedAt(schedule, now) - schedule.claimed
    ensures now >= schedule.end ==> next == None
    ensures now < schedule.end ==>
              && next.Some? && next.value.totalClaimed == next.value.claimed == VestedAt(schedule, now)
              && next.value == schedule.(lastClaimed := now, totalClaimed := next.value.totalClaimed,
                                         claimed := next.value.claimed, version := schedule.version + 2)
  {
    VestedBounds(schedule, now);
    FullyClaimed(schedule, now);
    var s := schedule.(version := schedule.version + 2);
    s := s.(lastClaimed := Min(now, s.end), totalClaimed := s.totalClaimed + claimable,
            claimed := s.claimed + claimable);
    return if s.claimed >= Total(s) then None else Some(s);
  }

  /** A claim takes the whole deposit exactly from the last ledger on. */
  lemma FullyClaimed(s: Schedule, now: U32)
    requires Reachable(s, now) && now >= s.cliff
    ensures VestedAt(s, now) >= Total(s) <==> now >= s.end
  {
    if now < s.end { MulStrict(s.rate, now - s.start, s.end - s.start); }
  }

  // ----- resuming -----

  method ResumeSchedule(schedule: Schedule, now: U32) returns (r: Result<Schedule, Error>)
    ensures var spec := ResumeEffect(schedule, now);
            if spec.Err? then r == Err(spec.error) else r.Ok? && spec.value.next == Some(r.value)
    ensures r.Ok? <==> schedule.pausedAt.Some? && schedule.version < U32_MAX
    ensures r.Ok? && schedule.pausedAt.value <= now ==>
              var (s, t, d) := (schedule, r.value, now - schedule.pausedAt.value);
              && t.start == Min(s.start + d, U32_MAX) && t.cliff == Min(s.cliff + d, U32_MAX)
              && t.end == Min(s.end + d, U32_MAX) && t.lastClaimed == Min(s.lastClaimed + d, U32_MAX)
              && t.accumulatedPause == Min(s.accumulatedPause + d, U32_MAX)
              && t.pausedAt == None && t.version == s.version + 1
              && (t.token, t.sponsor, t.rate, t.totalClaimed, t.claimed)
                 == (s.token, s.sponsor, s.rate, s.totalClaimed, s.claimed)
  {
    var s := schedule;
    if s.pausedAt.None? { return Err(StreamNotPaused); }
    var d := SaturatingU32(now - s.pausedAt.value);
    s := s.(accumulatedPause := SaturatingU32(s.accumulatedPause + d));
    s := s.(start := SaturatingU32(s.start + d));
    s := s.(cliff := SaturatingU32(s.cliff + d));
    s := s.(end := SaturatingU32(s.end + d));
    s := s.(lastClaimed := SaturatingU32(s.lastClaimed + d));
    s := s.(pausedAt := None);
    if s.version == U32_MAX { return Err(VersionOverflow); }
    return Ok(s.(version := s.version + 1));
  }

  // ----- settling -----

  /** The shares that a cancel computes: the earned ledgers, and the deposit less the claims less those. */
  method CancelShares(schedule: Schedule, now: U32) returns (r: Result<Payout, Error>)
    requires Reachable(schedule, now)
    ensures var spec := CancelEffect(schedule, now);
            r == if spec.Ok? then Ok(spec.value.pay) else Err(spec.error)
    ensures r.Ok? ==>
              && r.value.recipient >= 0 && r.value.treasury == 0 && r.value.sponsor >= 0
              && r.value.Sum() == Outstanding(schedule)
    ensures r.Err? <==> schedule.version == U32_MAX
    ensures r.Ok? ==>
              var vested := VestedAt(schedule, if schedule.pausedAt.Some? then schedule.pausedAt.value else now);
              && r.value.recipient == vested - schedule.claimed
              && r.value.sponsor == schedule.rate * (schedule.end - schedule.start) - vested
  {
    VestedBounds(schedule, now);
    var s := schedule;
    if s.version == U32_MAX { return Err(VersionOverflow); }
    s := s.(version := s.version + 1);
    var duration: U32 := s.end - s.start;
    var deposited := Checked(s.rate * duration);
    if deposited.None? { return Err(DepositOverflow); }
    var effective: U32 := if s.pausedAt.Some? then s.pausedAt.value else now;
    if effective >= s.cliff {
      var activeEnd: U32 := Min(effective, s.end);
      var earnedLedgers: U32 := activeEnd - s.lastClaimed;
      var earned := Checked(s.rate * earnedLedgers);
      if earned.None? { return Err(DepositOverflow); }
      var unclaimed := Checked(deposited.value - s.claimed);
      if unclaimed.None? { return Err(DepositOverflow); }
      var refund := Checked(unclaimed.value - earned.value);
      if refund.None? { return Err(DepositOverflow); }
      return Ok(Payout(earned.value, 0, Max(refund.value, 0)));
    } else {
      var refund := Checked(deposited.value - s.claimed);
      if refund.None? { return Err(DepositOverflow); }
      return Ok(Payout(0, 0, Max(refund.value, 0)));
    }
  }

  /** A clawback computes the ledgers not yet claimed: what the stream is still owed. */
  method ClawbackAmount(s: Schedule, now: U32) returns (r: I128)
    requires Reachable(s, now)
    ensures 0 <= r == Outstanding(s)
  {
    VestedBounds(s, now);
    return s.rate * (s.end - s.lastClaimed);
  }

  /** An emergency drain computes the deposit less the claims: the same. */
  method DrainAmount(s: Schedule, now: U32) returns (r: Result<I128, Error>)
    requires Reachable(s, now)
    ensures var spec := DrainEffect(s, now);
            if spec.Err? then r == Err(spec.error) else r.Ok? && 0 <= r.value == Outstanding(s)
    ensures r == if now < s.end then Err(StreamNotExpired)
                 else if now < Min(s.end + 3_153_600, U32_MAX) then Err(DrainDelayNotExpired)
                 else Ok(s.rate * (s.end - s.start) - s.claimed)
  {
    if now < s.end { return Err(StreamNotExpired); }
    var availableAt := SaturatingU32(s.end + DRAIN_DELAY_LEDGERS);
    if now < availableAt { return Err(DrainDelayNotExpired); }
    VestedBounds(s, now);
    var deposited := Checked(s.rate * (s.end - s.start));
    if deposited.None? { return Err(DepositOverflow); }
    var amount := Checked(deposited.value - s.claimed);
    if amount.None? { return Err(DepositOverflow); }
    return Ok(amount.value);
  }
}
