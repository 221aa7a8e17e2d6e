/** Milestone streams: shares of the deposit, in basis points, released at given ledgers.
    Each milestone rounds its own amount down. */
module Milestones {
  import opened Wrappers
  import opened Machine
  import opened TokenBook

  const ALL_BPS := 10_000

  datatype Milestone = Milestone(ledger: U32, bps: U32)

  datatype Error =
    | InvalidMilestones
    | ScheduleAlreadyExists
    | DepositBelowMinimum
    | ScheduleNotFound
    | NothingToClaim
    | DepositOverflow
    | TransferFailed

  datatype Schedule = Schedule(
    token: Token,
    sponsor: Address,
    deposited: I128,
    milestones: seq<Milestone>,
    nextIdx: U32,
    totalClaimed: I128)

  function SumBps(ms: seq<Milestone>): nat {
    if ms == [] then 0 else SumBps(ms[..|ms| - 1]) + Last(ms).bps
  }

  predicate Ascending(ms: seq<Milestone>) {
    && (forall i :: 0 <= i < |ms| ==> ms[i].ledger > 0)
    && (forall i, j :: 0 <= i < j < |ms| ==> ms[i].ledger < ms[j].ledger)
  }

  predicate Accepted(ms: seq<Milestone>, maxMilestones: U32) {
    1 <= |ms| <= maxMilestones && Ascending(ms) && SumBps(ms) == ALL_BPS
  }

  function Amount(deposited: int, m: Milestone): int { deposited * m.bps / ALL_BPS }

  /** The amounts of milestones `i` up to, not including, `j`. */
  function Unlocked(deposited: int, ms: seq<Milestone>, i: int, j: int): int
    requires 0 <= i && j <= |ms|
    decreases j - i
  {
    if i >= j then 0 else Unlocked(deposited, ms, i, j - 1) + Amount(deposited, ms[j - 1])
  }

  lemma {:induction false} UnlockedSplit(deposited: int, ms: seq<Milestone>, i: int, k: int, j: int)
    requires 0 <= i <= k <= j <= |ms|
    ensures Unlocked(deposited, ms, i, j) == Unlocked(deposited, ms, i, k) + Unlocked(deposited, ms, k, j)
    decreases j - k
  {
    if k < j { UnlockedSplit(deposited, ms, i, k, j - 1); }
  }

  // ----- rounding -----

  lemma {:induction false} SumBpsOfPrefix(ms: seq<Milestone>, j: nat)
    requires j <= |ms|
    ensures SumBps(ms[..j]) <= SumBps(ms)
    decreases |ms| - j
  {
    if j < |ms| {
      assert ms[..j + 1][..j] == ms[..j];
      SumBpsOfPrefix(ms, j + 1);
    } else {
      assert ms[..j] == ms;
    }
  }

  /** The first `j` amounts together lag behind their exact share by less than one token each. */
  lemma {:induction false} UnlockedBounds(deposited: nat, ms: seq<Milestone>, j: nat)
    requires j <= |ms|
    ensures 0 <= ALL_BPS * Unlocked(deposited, ms, 0, j)
    ensures deposited * SumBps(ms[..j]) - (ALL_BPS - 1) * j <= ALL_BPS * Unlocked(deposited, ms, 0, j)
            <= deposited * SumBps(ms[..j])
  {
    if j > 0 {
      UnlockedBounds(deposited, ms, j - 1);
      assert ms[..j][..j - 1] == ms[..j - 1];
      MulAdd(deposited, SumBps(ms[..j - 1]), ms[j - 1].bps);
      MulMono(deposited, 0, ms[j - 1].bps);
    }
  }

  lemma {:induction false} UnlockedNonNegative(deposited: nat, ms: seq<Milestone>, i: nat, j: nat)
    requires j <= |ms|
    ensures Unlocked(deposited, ms, i, j) >= 0
    decreases j
  {
    if i < j {
      UnlockedNonNegative(deposited, ms, i, j - 1);
      MulMono(deposited, 0, ms[j - 1].bps);
    }
  }

  /** No span of milestones releases more than the deposit; all of them together release at most
      the deposit, and fall short of it by less than the number of milestones. */
  lemma RoundingBound(deposited: nat, ms: seq<Milestone>, maxMilestones: U32, i: nat, j: nat)
    requires Accepted(ms, maxMilestones) && i <= j <= |ms|
    ensures 0 <= Unlocked(deposited, ms, i, j) <= deposited
    ensures 0 <= deposited - Unlocked(deposited, ms, 0, |ms|) < |ms|
  {
    UnlockedSplit(deposited, ms, 0, i, j);
    UnlockedNonNegative(deposited, ms, 0, i);
    UnlockedNonNegative(deposited, ms, i, j);
    UnlockedBounds(deposited, ms, j);
    SumBpsOfPrefix(ms, j);
    MulMono(deposited, SumBps(ms[..j]), ALL_BPS);
    UnlockedBounds(deposited, ms, |ms|);
    assert ms[..|ms|] == ms;
  }

  // ----- claiming -----

  /** The first milestone from `i` on that is not reached at ledger `now`. */
  function Frontier(ms: seq<Milestone>, i: nat, now: U32): (k: nat)
    requires i <= |ms|
    ensures i <= k <= |ms|
    decreases |ms| - i
  {
    if i < |ms| && now >= ms[i].ledger then Frontier(ms, i + 1, now) else i
  }

  /** Everything before the frontier is reached, and nothing from it on. */
  lemma {:induction false} FrontierSeparates(ms: seq<Milestone>, i: nat, now: U32)
    requires i <= |ms| && Ascending(ms)
    ensures forall k :: i <= k < Frontier(ms, i, now) ==> ms[k].ledger <= now
    ensures forall k :: Frontier(ms, i, now) <= k < |ms| ==> ms[k].ledger > now
    decreases |ms| - i
  {
    if i < |ms| && now >= ms[i].ledger { FrontierSeparates(ms, i + 1, now); }
  }

  /** Where a claim may resume: moving on from a later, already reached milestone changes nothing. */
  lemma {:induction false} FrontierFromLater(ms: seq<Milestone>, i: nat, now: U32, later: U32)
    requires i <= |ms| && now <= later
    ensures Frontier(ms, i, now) <= Frontier(ms, i, later) == Frontier(ms, Frontier(ms, i, now), later)
    decreases |ms| - i
  {
    if i < |ms| && now >= ms[i].ledger { FrontierFromLater(ms, i + 1, now, later); }
  }

  /** No product of the span overflows. */
  predicate Fits(deposited: int, ms: seq<Milestone>, i: nat, j: nat)
    requires j <= |ms|
  {
    forall k :: i <= k < j ==> FitsI128(deposited * ms[k].bps)
  }

  ghost predicate Reachable(s: Schedule, now: U32, maxMilestones: U32) {
    && Accepted(s.milestones, maxMilestones)
    && s.deposited >= 0
    && s.nextIdx <= Frontier(s.milestones, 0, now)
    && s.totalClaimed == Unlocked(s.deposited, s.milestones, 0, s.nextIdx)
  }

  datatype Claimed = Claimed(amount: int, nextIdx: nat)

  /** A claim takes exactly the milestones that are reached and not yet claimed. */
  function ClaimEffect(s: Schedule, now: U32): Result<Claimed, Error>
    requires s.nextIdx <= |s.milestones|
  {
    var reached := Frontier(s.milestones, s.nextIdx, now);
    var amount := Unlocked(s.deposited, s.milestones, s.nextIdx, reached);
    if !Fits(s.deposited, s.milestones, s.nextIdx, reached) then Err(DepositOverflow)
    else if amount == 0 then Err(NothingToClaim)
    else Ok(Claimed(amount, reached))
  }

  /** The sum of all claims made at the given ledgers, from milestone `i` on. */
  ghost function PaidOver(s: Schedule, i: U32, ledgers: seq<U32>): int
    requires i <= |s.milestones| <= U32_MAX
    decreases |ledgers|
  {
    if ledgers == [] then 0
    else
      var r := ClaimEffect(s.(nextIdx := i), ledgers[0]);
      if r.Ok? then r.value.amount + PaidOver(s, r.value.nextIdx, ledgers[1..])
      else PaidOver(s, i, ledgers[1..])
  }

  /** However the claims are split, as long as no product overflows, they pay the amounts of all the
      milestones that the last of them reaches. */
  lemma {:induction false} SplitDoesNotMatter(s: Schedule, i: U32, now: U32, ledgers: seq<U32>, maxMilestones: U32)
    requires Accepted(s.milestones, maxMilestones) && s.deposited >= 0 && i <= |s.milestones|
    requires NonDecreasing(now, ledgers) && ledgers != []
    requires Fits(s.deposited, s.milestones, i, Frontier(s.milestones, i, Last(ledgers)))
    ensures PaidOver(s, i, ledgers) == Unlocked(s.deposited, s.milestones, i, Frontier(s.milestones, i, Last(ledgers)))
    decreases |ledgers|
  {
    var (ms, l, rest) := (s.milestones, ledgers[0], ledgers[1..]);
    LastIsLatest(now, ledgers);
    if rest != [] {
      LastIsLatest(l, rest);
      assert Last(ledgers) == Last(rest);
      var (mid, end) := (Frontier(ms, i, l), Frontier(ms, i, Last(ledgers)));
      FrontierFromLater(ms, i, l, Last(ledgers));
      if ClaimEffect(s.(nextIdx := i), l).Ok? {
        SplitDoesNotMatter(s, mid, l, rest, maxMilestones);
        UnlockedSplit(s.deposited, ms, i, mid, end);
      } else {
        SplitDoesNotMatter(s, i, l, rest, maxMilestones);
      }
    }
  }

  /** A claim sequence pays something exactly when one of its claims would pay if made alone. */
  lemma {:induction false} PaysSomething(s: Schedule, i: U32, now: U32, ledgers: seq<U32>, maxMilestones: U32)
    requires Accepted(s.milestones, maxMilestones) && s.deposited >= 0 && i <= |s.milestones|
    requires NonDecreasing(now, ledgers)
    ensures PaidOver(s, i, ledgers) >= 0
    ensures PaidOver(s, i, ledgers) > 0 <==> exists j :: 0 <= j < |ledgers| && PaysAlone(s, i, ledgers[j])
    decreases |ledgers|
  {
    if ledgers != [] {
      var (l, rest) := (ledgers[0], ledgers[1..]);
      UnlockedNonNegative(s.deposited, s.milestones, i, Frontier(s.milestones, i, l));
      if PaysAlone(s, i, l) {
        PaysSomething(s, Frontier(s.milestones, i, l), l, rest, maxMilestones);
        assert PaysAlone(s, i, ledgers[0]);
      } else {
        PaysSomething(s, i, l, rest, maxMilestones);
        assert forall j :: 0 <= j < |rest| ==> rest[j] == ledgers[j + 1];
        if j :| 0 <= j < |rest| && PaysAlone(s, i, rest[j]) {
          assert PaysAlone(s, i, ledgers[j + 1]);
        }
        if exists j :: 0 <= j < |ledgers| && PaysAlone(s, i, ledgers[j]) {
          var j :| 0 <= j < |ledgers| && PaysAlone(s, i, ledgers[j]);
          assert j > 0 && PaysAlone(s, i, rest[j - 1]);
        }
      }
    }
  }

  /** At this ledger no product overflows and there is something to release. */
  predicate PaysAlone(s: Schedule, i: nat, l: U32)
    requires i <= |s.milestones|
  {
    var reached := Frontier(s.milestones, i, l);
    Fits(s.deposited, s.milestones, i, reached) && Unlocked(s.deposited, s.milestones, i, reached) > 0
  }

  /** So a sequence of claims pays something other than its last claim alone exactly when that one
      overflows, and an earlier one does not and has something to release. */
  lemma EarlyClaimsMatter(s: Schedule, i: U32, now: U32, ledgers: seq<U32>, maxMilestones: U32)
    requires Accepted(s.milestones, maxMilestones) && s.deposited >= 0 && i <= |s.milestones|
    requires NonDecreasing(now, ledgers) && ledgers != []
    ensures PaidOver(s, i, ledgers) != PaidOver(s, i, [Last(ledgers)])
       <==> && !Fits(s.deposited, s.milestones, i, Frontier(s.milestones, i, Last(ledgers)))
            && exists j :: 0 <= j < |ledgers| && PaysAlone(s, i, ledgers[j])
  {
    var last := Last(ledgers);
    assert [last][1..] == [];
    if Fits(s.deposited, s.milestones, i, Frontier(s.milestones, i, last)) {
      SplitDoesNotMatter(s, i, now, ledgers, maxMilestones);
      SplitDoesNotMatter(s, i, last, [last], maxMilestones);
    } else {
      PaysSomething(s, i, now, ledgers, maxMilestones);
      assert PaidOver(s, i, [last]) == 0;
    }
  }

  /** That happens: the first milestone is paid to whoever claims it in time, and to nobody after. */
  lemma EarlyClaimExample(s: Schedule)
    requires s.deposited == I128_MAX && s.milestones == [Milestone(10, 1), Milestone(20, 9_999)]
    ensures Accepted(s.milestones, 2)
    ensures PaidOver(s, 0, [10, 20]) == I128_MAX / 10_000 && PaidOver(s, 0, [20]) == 0
  {
    var ms := s.milestones;
    assert ms[..1] == [Milestone(10, 1)] && ms[..1][..0] == [];
    assert SumBps(ms[..1]) == 1 && SumBps(ms) == 10_000;
    assert Frontier(ms, 2, 20) == 2 && Frontier(ms, 1, 20) == 2 && Frontier(ms, 0, 20) == 2;
    assert Frontier(ms, 1, 10) == 1 && Frontier(ms, 0, 10) == 1;
    assert !FitsI128(s.deposited * ms[1].bps);
    assert Unlocked(s.deposited, ms, 0, 1) == I128_MAX / 10_000;
    assert [10, 20][1..] == [20] && [20][1..] == [];
    assert PaidOver(s, 1, [20]) == 0;
  }

  lemma AscendingExtends(ms: seq<Milestone>, i: nat)
    requires i < |ms| && Ascending(ms[..i]) && ms[i].ledger > if i == 0 then 0 else ms[i - 1].ledger
    ensures Ascending(ms[..i + 1])
  {
    var (before, upTo) := (ms[..i], ms[..i + 1]);
    assert upTo == before + [ms[i]];
    if i > 0 { assert before[i - 1] == ms[i - 1]; }
    forall a, b | 0 <= a < b < |upTo| ensures upTo[a].ledger < upTo[b].ledger {
      assert upTo[a] == before[a];
      if b < i { assert upTo[b] == before[b]; } else if a < i - 1 { assert before[a].ledger < before[i - 1].ledger; }
    }
  }

  /** Validates a milestone list: not empty nor too long, ascending ledgers, shares that make up the whole. */
  method ValidateMilestones(ms: seq<Milestone>, maxMilestones: U32) returns (ok: bool)
    ensures ok <==> Accepted(ms, maxMilestones)
    ensures ok <==> && 1 <= |ms| <= maxMilestones && SumBps(ms) == 10_000
                    && (forall i :: 0 <= i < |ms| ==> ms[i].ledger > 0)
                    && (forall i, j :: 0 <= i < j < |ms| ==> ms[i].ledger < ms[j].ledger)
  {
    if |ms| == 0 || |ms| > maxMilestones { return false; }
    var prevLedger: U32 := 0;
    var totalBps: U32 := 0;
    for i := 0 to |ms|
      invariant Ascending(ms[..i])
      invariant prevLedger == if i == 0 then 0 else ms[i - 1].ledger
      invariant totalBps == SumBps(ms[..i])
    {
      if ms[i].ledger <= prevLedger { return false; }
      assert ms[..i + 1][..i] == ms[..i];
      assert SumBps(ms[..i + 1]) == SumBps(ms[..i]) + ms[i].bps by { assert Last(ms[..i + 1]) == ms[i]; }
      AscendingExtends(ms, i);
      var sum := CheckedU32(totalBps + ms[i].bps);
      if sum.None? {
        SumBpsOfPrefix(ms, i + 1);
        return false;
      }
      prevLedger := ms[i].ledger;
      totalBps := sum.value;
    }
    assert ms[..|ms|] == ms;
    return totalBps == ALL_BPS;
  }

  // ----- the amount that a claim computes -----

  /** The claim loop: milestones in order, until one is not reached or overflows. */
  method ReachedMilestones(s: Schedule, now: U32) returns (r: Result<(I128, U32), Error>)
    requires |s.milestones| <= U32_MAX && Reachable(s, now, |s.milestones|)
    ensures var reached := Frontier(s.milestones, s.nextIdx, now);
            if Fits(s.deposited, s.milestones, s.nextIdx, reached)
            then r.Ok? && r.value.0 == Unlocked(s.deposited, s.milestones, s.nextIdx, reached) && r.value.1 == reached
            else r == Err(DepositOverflow)
  {
    var (d, ms) := (s.deposited, s.milestones);
    var claimable: I128 := 0;
    var newIdx: U32 := s.nextIdx;
    while newIdx < |ms|
      invariant s.nextIdx <= newIdx <= |ms|
      invariant Frontier(ms, s.nextIdx, now) == Frontier(ms, newIdx, now)
      invariant Fits(d, ms, s.nextIdx, newIdx)
      invariant claimable == Unlocked(d, ms, s.nextIdx, newIdx)
    {
      if now >= ms[newIdx].ledger {
        var scaled := Checked(d * ms[newIdx].bps);
        if scaled.None? { return Err(DepositOverflow); }
        RoundingBound(d, ms, |ms|, s.nextIdx, newIdx + 1);
        var sum := Checked(claimable + scaled.value / ALL_BPS);
        if sum.None? { return Err(DepositOverflow); }
        claimable := sum.value;
        newIdx := newIdx + 1;
      } else {
        break;
      }
    }
    return Ok((claimable, newIdx));
  }

  /** The record with which a claim leaves the stream. */
  function AfterClaim(s: Schedule, now: U32, maxMilestones: U32): Schedule
    requires Reachable(s, now, maxMilestones) && ClaimEffect(s, now).Ok?
  {
    var c := ClaimEffect(s, now).value;
    ClaimedUpTo(s, now, maxMilestones, c.nextIdx);
    s.(nextIdx := c.nextIdx, totalClaimed := s.totalClaimed + c.amount)
  }

  /** A claim pays something, keeps the record sound, and takes exactly what it pays off the debt. */
  lemma ClaimKeepsReachable(s: Schedule, now: U32, maxMilestones: U32)
    requires Reachable(s, now, maxMilestones) && ClaimEffect(s, now).Ok?
    ensures var (c, t) := (ClaimEffect(s, now).value, AfterClaim(s, now, maxMilestones));
            && Reachable(t, now, maxMilestones) && t.token == s.token
            && 0 < c.amount == DebtOf(s).amount - DebtOf(t).amount <= DebtOf(s).amount
  {
    ClaimedUpTo(s, now, maxMilestones, ClaimEffect(s, now).value.nextIdx);
  }

  lemma ClaimedUpTo(s: Schedule, now: U32, maxMilestones: U32, newIdx: U32)
    requires Reachable(s, now, maxMilestones) && newIdx == Frontier(s.milestones, s.nextIdx, now)
    ensures newIdx == Frontier(s.milestones, 0, now)
    ensures 0 <= Unlocked(s.deposited, s.milestones, s.nextIdx, newIdx)
    ensures Unlocked(s.deposited, s.milestones, 0, newIdx)
              == s.totalClaimed + Unlocked(s.deposited, s.milestones, s.nextIdx, newIdx) <= s.deposited
  {
    UnlockedSplit(s.deposited, s.milestones, 0, s.nextIdx, newIdx);
    RoundingBound(s.deposited, s.milestones, maxMilestones, s.nextIdx, newIdx);
    RoundingBound(s.deposited, s.milestones, maxMilestones, 0, newIdx);
    FrontierThrough(s.milestones, 0, s.nextIdx, now);
  }

  /** Starting at any milestone up to the frontier leads to the same frontier. */
  lemma {:induction false} FrontierThrough(ms: seq<Milestone>, i: nat, k: nat, now: U32)
    requires i <= |ms| && i <= k <= Frontier(ms, i, now)
    ensures k <= |ms| && Frontier(ms, k, now) == Frontier(ms, i, now)
    decreases k - i
  {
    if i < k { FrontierThrough(ms, i + 1, k, now); }
  }

  /** What a claim pays, and the record it leaves. */
  method ComputeClaim(s: Schedule, now: U32, maxMilestones: U32) returns (r: Result<(I128, Schedule), Error>)
    requires Reachable(s, now, maxMilestones)
    ensures var spec := ClaimEffect(s, now);
            if spec.Err? then r == Err(spec.error)
            else r.Ok? && r.value.0 == spec.value.amount && r.value.1 == AfterClaim(s, now, maxMilestones)
    ensures r.Ok? ==>
              var (claimable, next) := r.value;
              && Reachable(next, now, maxMilestones) && next.token == s.token
              && 0 < claimable == DebtOf(s).amount - DebtOf(next).amount <= DebtOf(s).amount
  {
    var reached := ReachedMilestones(s, now);
    if reached.Err? { return Err(reached.error); }
    var (claimable, newIdx) := reached.value;
    if claimable == 0 { return Err(NothingToClaim); }
    ClaimKeepsReachable(s, now, maxMilestones);
    return Ok((claimable, s.(nextIdx := newIdx, totalClaimed := s.totalClaimed + claimable)));
  }

  // ----- what the vault owes -----

  /** What the recipient may still claim, and what rounding will leave behind. */
  function DebtOf(s: Schedule): Debt { Debt(s.token, s.deposited - s.totalClaimed) }

  ghost function DebtsOf(schedules: map<Address, Schedule>): map<Address, Debt> {
    map a | a in schedules :: DebtOf(schedules[a])
  }

  /** When the vault's balance moves by what the recipient is owed more or less, what it holds beyond the
      milestone debts stays the same, in every token. */
  lemma MoveKeepsSurplus(schedules: map<Address, Schedule>, a: Address, s: Schedule,
                         before: Balances, after: Balances, from: Holder, to: Holder, amount: int)
    requires Transferred(before, after, s.token, from, to, amount)
    requires a in schedules ==> schedules[a].token == s.token
    requires Change(s.token, from, to, amount, s.token, Vault)
          == DebtOf(s).amount - (if a in schedules then DebtOf(schedules[a]).amount else 0)
    ensures forall t :: BalanceOf(after, t, Vault) - Owed(DebtsOf(schedules[a := s]), t)
                     == BalanceOf(before, t, Vault) - Owed(DebtsOf(schedules), t)
  {
    var debts := DebtsOf(schedules);
    assert DebtsOf(schedules[a := s]) == Put(debts, a, Some(DebtOf(s)));
    assert Lookup(debts, a) == if a in schedules then Some(DebtOf(schedules[a])) else None;
    MoveMatchesDebt(debts, a, Some(DebtOf(s)), before, after, s.token, from, to, amount);
  }

  lemma DebtsAreNotNegative(schedules: map<Address, Schedule>, now: U32, maxMilestones: U32, token: Token)
    requires forall a :: a in schedules ==> Reachable(schedules[a], now, maxMilestones)
    ensures Owed(DebtsOf(schedules), token) >= 0
    ensures forall a ::
              a in schedules && schedules[a].token == token
              ==> DebtOf(schedules[a]).amount <= Owed(DebtsOf(schedules), token)
  {
    var debts := DebtsOf(schedules);
    forall a | a in debts ensures debts[a].amount >= 0 {
      RoundingBound(schedules[a].deposited, schedules[a].milestones, maxMilestones, 0, schedules[a].nextIdx);
    }
    OwedNonNegative(debts, token);
    forall a | a in schedules && schedules[a].token == token
      ensures DebtOf(schedules[a]).amount <= Owed(debts, token)
    {
      assert Due(debts[a], token) == DebtOf(schedules[a]).amount;
    }
  }
}
