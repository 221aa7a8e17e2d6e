/** The two fuzz harnesses carry their own copies of the claim amount and of the cancel split. */
module FuzzMirrors {
  import opened Wrappers
  import opened Machine
  import opened FixedRate

  datatype CancelResult = CancelLedgerOverflow | CancelDepositOverflow | Split(recipient: int, sponsor: int)

  function CalculateCancelSplit(current: U32, start: U32, cliffDuration: U32, totalDuration: U32,
                                lastClaimed: U32, rate: I128, claimed: I128): CancelResult
  {
    var cliff := CheckedU32(start + cliffDuration);
    var end := CheckedU32(start + totalDuration);
    if cliff.None? || end.None? then CancelLedgerOverflow
    else
      var deposited := Checked(rate * (end.value - start));
      if deposited.None? then CancelDepositOverflow
      else if current >= cliff.value then
        var activeEnd := Min(current, end.value);
        if activeEnd < lastClaimed then CancelDepositOverflow
        else
          var earned := Checked(rate * (activeEnd - lastClaimed));
          if earned.None? then CancelDepositOverflow
          else
            var refund := SaturatingI128(SaturatingI128(deposited.value - claimed) - earned.value);
            Split(earned.value, Max(refund, 0))
      else
        var remaining := Checked(rate * SaturatingU32(end.value - lastClaimed));
        if remaining.None? then CancelDepositOverflow else Split(0, remaining.value)
  }

  datatype ClaimResult = ClaimPaused | ClaimBeforeCliff | ClaimNothing | ClaimOverflow | Amount(amount: int)

  function CalculateClaimable(current: U32, start: U32, cliffDuration: U32, totalDuration: U32,
                              lastClaimed: U32, rate: I128, claimed: I128, paused: bool): ClaimResult
  {
    var cliff := CheckedU32(start + cliffDuration);
    var end := CheckedU32(start + totalDuration);
    if cliff.None? || end.None? then ClaimOverflow
    else if paused then ClaimPaused
    else if current < cliff.value then ClaimBeforeCliff
    else
      var deposited := Checked(rate * (end.value - start));
      if deposited.None? then ClaimOverflow
      else if current >= end.value then
        var rest := SaturatingI128(deposited.value - claimed);
        if rest == 0 then ClaimNothing else Amount(rest)
      else if current < lastClaimed then ClaimOverflow
      else
        var accrued := Checked(rate * (current - lastClaimed));
        if accrued.None? then ClaimOverflow else if accrued.value == 0 then ClaimNothing else Amount(accrued.value)
  }

  function MirrorOfCancel(s: Schedule, now: U32): CancelResult
    requires Reachable(s, now)
  {
    CalculateCancelSplit(Effective(s, now), s.start, s.cliff - s.start, s.end - s.start, s.lastClaimed, s.rate,
                         s.claimed)
  }

  function MirrorOfClaim(s: Schedule, now: U32): ClaimResult
    requires Reachable(s, now)
  {
    CalculateClaimable(now, s.start, s.cliff - s.start, s.end - s.start, s.lastClaimed, s.rate, s.claimed,
                       s.pausedAt.Some?)
  }

  /** On every stored schedule the harness splits a cancel as the contract does. */
  lemma CancelMirrorAgrees(s: Schedule, now: U32)
    requires Reachable(s, now)
    ensures var e := CancelEffect(s, now);
            if e.Ok? then MirrorOfCancel(s, now) == Split(e.value.pay.recipient, e.value.pay.sponsor)
            else s.version == U32_MAX
  {
    VestedBounds(s, now);
    assert Total(s) == s.rate * (s.end - s.start);
  }

  /** On every stored schedule the harness computes the amount that a claim pays, and refuses when it refuses. */
  lemma ClaimMirrorAgrees(s: Schedule, now: U32)
    requires Reachable(s, now)
    ensures match ClaimEffect(s, now, 0)
            case Ok(e) => MirrorOfClaim(s, now) == Amount(e.pay.Sum())
            case Err(CliffNotReached) => MirrorOfClaim(s, now) == ClaimBeforeCliff
            case Err(NothingToClaim) => MirrorOfClaim(s, now) == if s.pausedAt.Some? then ClaimPaused else ClaimNothing
            case Err(_) => s.version + 1 >= U32_MAX
  {
    VestedBounds(s, now);
    assert Total(s) == s.rate * (s.end - s.start);
  }

  /** The ledgers that a split pays for. */
  function LedgersPaid(current: U32, start: U32, cliffDuration: U32, totalDuration: U32, lastClaimed: U32): int {
    if current >= start + cliffDuration then Min(current, start + totalDuration) - lastClaimed
    else Max(start + totalDuration - lastClaimed, 0)
  }

  /** On arbitrary inputs the harness's claim that neither share is negative holds exactly when the
      rate is not negative or no ledger is paid for. */
  lemma SplitSigns(current: U32, start: U32, cliffDuration: U32, totalDuration: U32, lastClaimed: U32, rate: I128,
                   claimed: I128)
    ensures var r := CalculateCancelSplit(current, start, cliffDuration, totalDuration, lastClaimed, rate, claimed);
            r.Split? ==>
              (r.recipient >= 0 && r.sponsor >= 0
               <==> rate >= 0 || LedgersPaid(current, start, cliffDuration, totalDuration, lastClaimed) == 0)
  {
    var n := LedgersPaid(current, start, cliffDuration, totalDuration, lastClaimed);
    if rate >= 0 && n >= 0 { MulMono(rate, 0, n); }
    if rate < 0 && n > 0 { MulStrict(n, rate, 0); }
  }

  /** An input on which it fails. */
  lemma NegativeRateSplit()
    ensures CalculateCancelSplit(5, 0, 1, 10, 0, -1, 0) == Split(-5, 0)
  {}

  /** The harness's claim that a split pays no more than is left holds, wherever it makes it, exactly
      when the amount claimed leaves the ledgers that the split pays for. */
  lemma SplitFitsRemainder(current: U32, start: U32, cliffDuration: U32, totalDuration: U32, lastClaimed: U32,
                           rate: I128, claimed: I128)
    requires rate > 0 && totalDuration > cliffDuration && start + totalDuration <= U32_MAX
    requires FitsI128(rate * totalDuration) && 0 <= claimed <= rate * totalDuration
    ensures var r := CalculateCancelSplit(current, start, cliffDuration, totalDuration, lastClaimed, rate, claimed);
            r.Split? ==>
              (SaturatingI128(r.recipient + r.sponsor) <= rate * totalDuration - claimed
               <==> claimed <= rate * (totalDuration
                                       - LedgersPaid(current, start, cliffDuration, totalDuration, lastClaimed)))
  {
    var n := LedgersPaid(current, start, cliffDuration, totalDuration, lastClaimed);
    assert start + totalDuration - start == totalDuration;
    MulSub(rate, totalDuration, n);
    if n >= 0 { MulMono(rate, 0, n); }
  }

  /** An input on which it fails: 5 of 10 are left, and the split pays 10. */
  lemma OverpayingSplit()
    ensures CalculateCancelSplit(10, 0, 1, 10, 0, 1, 5) == Split(10, 0)
  {}

  /** The claim harness's bound holds likewise: at the end always, before it exactly when the amount
      claimed leaves the ledgers that the claim pays for. */
  lemma ClaimFitsRemainder(current: U32, start: U32, cliffDuration: U32, totalDuration: U32, lastClaimed: U32,
                           rate: I128, claimed: I128)
    requires rate > 0 && totalDuration > cliffDuration && start + totalDuration <= U32_MAX
    requires FitsI128(rate * totalDuration) && 0 <= claimed <= rate * totalDuration
    ensures var r :=
              CalculateClaimable(current, start, cliffDuration, totalDuration, lastClaimed, rate, claimed, false);
            r.Amount? ==>
              (r.amount <= rate * totalDuration - claimed
               <==> current >= start + totalDuration || claimed <= rate * (totalDuration - (current - lastClaimed)))
  {
    assert start + totalDuration - start == totalDuration;
    MulSub(rate, totalDuration, current - lastClaimed);
  }

  /** An input on which it fails: 2 are left, and the claim pays 5. */
  lemma OverpayingClaim()
    ensures CalculateClaimable(5, 0, 1, 10, 0, 1, 8, false) == Amount(5)
  {}

  /** On arbitrary inputs the claim harness's two assertions on the sign of an amount hold together, exactly
      when there is something left at the end, or the rate is positive before it. */
  lemma ClaimSigns(current: U32, start: U32, cliffDuration: U32, totalDuration: U32, lastClaimed: U32, rate: I128,
                   claimed: I128, paused: bool)
    ensures var r :=
              CalculateClaimable(current, start, cliffDuration, totalDuration, lastClaimed, rate, claimed, paused);
            r.Amount? ==>
              && (r.amount > 0 <==> r.amount >= 0)
              && (r.amount > 0
                  <==> if current >= start + totalDuration then claimed < rate * totalDuration else rate > 0)
  {
    var n := current - lastClaimed;
    assert start + totalDuration - start == totalDuration;
    if rate >= 0 && n >= 0 { MulMono(rate, 0, n); }
    if rate <= 0 && n >= 0 { MulMono(n, rate, 0); }
  }

  /** Inputs on which they fail, before the end and at it. */
  lemma NegativeClaims()
    ensures CalculateClaimable(5, 0, 1, 10, 0, -1, 0, false) == Amount(-5)
    ensures CalculateClaimable(10, 0, 1, 10, 0, 1, 12, false) == Amount(-2)
  {}
}
