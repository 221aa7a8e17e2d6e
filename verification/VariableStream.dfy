/** One variable-rate stream, and any sequence of claims of it. */
module VariableStream {
  import opened Wrappers
  import opened Machine
  import opened TokenBook
  import opened Segments

  const MAX_SEGMENTS := 10

  datatype Error =
    | NotInitialized
    | InvalidRecipient
    | ScheduleAlreadyExists
    | InvalidSegments
    | DepositOverflow
    | TransferFailed
    | ScheduleNotFound
    | StreamPaused
    | CliffNotReached
    | NothingToClaim

  datatype Schedule = Schedule(
    token: Token,
    sponsor: Address,
    start: U32,
    cliff: U32,
    end: U32,
    lastClaimed: U32,
    deposited: I128,
    claimed: I128,
    totalClaimed: I128,
    segments: seq<Segment>,
    pausedAt: Option<U32>)

  /** The segment lists that creation accepts at ledger `start`. */
  predicate Accepted(segs: seq<Segment>, start: int) {
    && 1 <= |segs| <= MAX_SEGMENTS
    && PositiveRates(segs) && Ascending(segs) && start < segs[0].end
    && Released(segs, start, Last(segs).end) <= I128_MAX
  }

  /** What every stored schedule satisfies at ledger `now`. */
  ghost predicate Reachable(s: Schedule, now: U32) {
    && Accepted(s.segments, s.start)
    && s.end == Last(s.segments).end
    && s.start <= s.cliff
    && s.start <= s.lastClaimed <= now && s.lastClaimed < s.end
    && s.deposited == Released(s.segments, s.start, s.end)
    && s.claimed == s.totalClaimed == Released(s.segments, s.start, s.lastClaimed)
    && s.pausedAt.None?
  }

  function Outstanding(s: Schedule): int { s.deposited - s.claimed }

  datatype Claimed = Claimed(amount: int, next: Option<Schedule>)

  /** A claim releases every ledger since the last one. */
  function ClaimEffect(s: Schedule, now: U32): Result<Claimed, Error>
    requires Reachable(s, now)
  {
    if now < s.cliff then Err(CliffNotReached)
    else if now == s.lastClaimed then Err(NothingToClaim)
    else
      var upTo: U32 := Min(now, s.end);
      ReleaseFacts(s, upTo);
      var amount := Released(s.segments, s.lastClaimed, upTo);
      if now >= s.end then Ok(Claimed(amount, None))
      else
        var claimed := Released(s.segments, s.start, upTo);
        Ok(Claimed(amount, Some(s.(lastClaimed := upTo, claimed := claimed, totalClaimed := claimed))))
  }

  /** Everything released up to `upTo`, and each part of it, fits in the deposit. */
  lemma ReleaseFacts(s: Schedule, upTo: int)
    requires Accepted(s.segments, s.start) && s.end == Last(s.segments).end
    requires s.start <= s.lastClaimed <= upTo <= s.end
    ensures 0 <= Released(s.segments, s.start, s.lastClaimed) <= Released(s.segments, s.start, upTo)
              <= Released(s.segments, s.start, s.end) <= I128_MAX
    ensures Released(s.segments, s.lastClaimed, upTo)
              == Released(s.segments, s.start, upTo) - Released(s.segments, s.start, s.lastClaimed)
    ensures s.lastClaimed < upTo ==> Released(s.segments, s.lastClaimed, upTo) > 0
    ensures upTo < s.end ==> Released(s.segments, s.start, upTo) < Released(s.segments, s.start, s.end)
  {
    ReleasedSplit(s.segments, s.start, s.lastClaimed, upTo);
    ReleasedSplit(s.segments, s.start, upTo, s.end);
    ReleasedSigns(s.segments, s.start, s.lastClaimed);
    ReleasedSigns(s.segments, s.lastClaimed, upTo);
    ReleasedSigns(s.segments, upTo, s.end);
  }

  /** A claim pays something, keeps the record sound, and takes exactly what it pays off the debt. */
  lemma ClaimKeepsReachable(s: Schedule, now: U32)
    requires Reachable(s, now) && ClaimEffect(s, now).Ok?
    ensures var c := ClaimEffect(s, now).value;
            && 0 < c.amount <= Outstanding(s)
            && (c.next.None? ==> c.amount == Outstanding(s))
            && (c.next.Some? ==> Reachable(c.next.value, now)
                                 && Outstanding(c.next.value) == Outstanding(s) - c.amount > 0)
  {
    var upTo := Min(now, s.end);
    ReleaseFacts(s, upTo);
    ReleaseFacts(s, s.end);
  }

  // ----- sequences of claims -----

  /** The sum of all claims made at the given ledgers; a refused claim pays nothing. */
  ghost function PaidOver(s: Schedule, now: U32, ledgers: seq<U32>): int
    requires Reachable(s, now) && NonDecreasing(now, ledgers)
    decreases |ledgers|
  {
    if ledgers == [] then 0
    else
      var r := ClaimEffect(s, ledgers[0]);
      if r.Err? then PaidOver(s, ledgers[0], ledgers[1..])
      else
        ClaimKeepsReachable(s, ledgers[0]);
        r.value.amount + (if r.value.next.None? then 0 else PaidOver(r.value.next.value, ledgers[0], ledgers[1..]))
  }

  /** It does not matter when claims are made, or how often: by the last claim they have paid, in all,
      each ledger's rate from where the stream stood to that claim, or nothing before the cliff. */
  lemma {:induction false} TimingDoesNotMatter(s: Schedule, now: U32, ledgers: seq<U32>)
    requires Reachable(s, now) && NonDecreasing(now, ledgers) && ledgers != []
    ensures PaidOver(s, now, ledgers)
         == if Last(ledgers) < s.cliff then 0 else Released(s.segments, s.lastClaimed, Min(Last(ledgers), s.end))
    decreases |ledgers|
  {
    var (l, rest) := (ledgers[0], ledgers[1..]);
    LastIsLatest(now, ledgers);
    if rest != [] {
      LastIsLatest(l, rest);
      assert Last(ledgers) == Last(rest);
    }
    var r := ClaimEffect(s, l);
    if r.Err? {
      if rest != [] { TimingDoesNotMatter(s, l, rest); }
    } else {
      ClaimKeepsReachable(s, l);
      if r.value.next.Some? && rest != [] {
        TimingDoesNotMatter(r.value.next.value, l, rest);
        ReleasedSplit(s.segments, s.lastClaimed, l, Min(Last(ledgers), s.end));
      }
    }
  }

  /** From creation, a last claim at the end or later has brought out the whole deposit, so the final
      remainder and the walk over the segments agree. */
  lemma WholeDepositIsClaimed(s: Schedule, now: U32, ledgers: seq<U32>)
    requires Reachable(s, now) && s.claimed == 0 && s.lastClaimed == s.start
    requires NonDecreasing(now, ledgers) && ledgers != [] && Last(ledgers) >= Max(s.end, s.cliff)
    ensures PaidOver(s, now, ledgers) == s.deposited
  {
    TimingDoesNotMatter(s, now, ledgers);
  }

  // ----- pricing a segment list -----

  /** Validates a segment list and adds up its deposit. */
  method PriceSegments(segs: seq<Segment>, start: U32) returns (r: Result<I128, Error>)
    requires 1 <= |segs| <= MAX_SEGMENTS
    ensures r.Ok? <==> Accepted(segs, start)
    ensures r.Ok? <==> && (forall i :: 0 <= i < |segs| ==> segs[i].rate > 0)
                       && (forall i, j :: 0 <= i < j < |segs| ==> segs[i].end < segs[j].end)
                       && start < segs[0].end && Released(segs, start, Last(segs).end) <= I128_MAX
    ensures r.Ok? ==> r.value == Released(segs, start, Last(segs).end)
    ensures r.Err? ==> r.error == InvalidSegments || r.error == DepositOverflow
    ensures r == Err(InvalidSegments) ==> !(PositiveRates(segs) && Ascending(segs) && start < segs[0].end)
    ensures r == Err(DepositOverflow) ==>
              exists i :: 0 <= i < |segs| && WellFormed(segs[..i + 1], start)
                && Released(segs, start, segs[i].end) > I128_MAX
  {
    var prevEnd: U32 := start;
    var total: I128 := 0;
    for i := 0 to |segs|
      invariant prevEnd == if i == 0 then start else segs[i - 1].end
      invariant WellFormed(segs[..i], start)
      invariant total == Released(segs, start, prevEnd)
    {
      if segs[i].rate <= 0 { NotAccepted(segs, i, start); return Err(InvalidSegments); }
      if segs[i].end <= prevEnd { NotAccepted(segs, i, start); return Err(InvalidSegments); }
      PriceOne(segs, i, start, prevEnd);
      var deposit := Checked(segs[i].rate * (segs[i].end - prevEnd));
      if deposit.None? { TooMuch(segs, i, start); return Err(DepositOverflow); }
      var sum := Checked(total + deposit.value);
      if sum.None? { TooMuch(segs, i, start); return Err(DepositOverflow); }
      total := sum.value;
      prevEnd := segs[i].end;
    }
    assert segs[..|segs|] == segs;
    return Ok(total);
  }

  predicate WellFormed(segs: seq<Segment>, start: int) {
    PositiveRates(segs) && Ascending(segs) && (segs != [] ==> start < segs[0].end)
  }

  lemma NotAccepted(segs: seq<Segment>, i: nat, start: U32)
    requires i < |segs|
    requires segs[i].rate <= 0 || segs[i].end <= if i == 0 then start else segs[i - 1].end
    ensures !(PositiveRates(segs) && Ascending(segs) && start < segs[0].end)
  {
    if i > 0 && Ascending(segs) { assert segs[i - 1].end < segs[i].end; }
  }

  /** The next segment extends the well-formed prefix and adds its own product to the release. */
  lemma PriceOne(segs: seq<Segment>, i: nat, start: U32, prevEnd: U32)
    requires i < |segs| && WellFormed(segs[..i], start)
    requires prevEnd == if i == 0 then start else segs[i - 1].end
    requires segs[i].rate > 0 && prevEnd < segs[i].end
    ensures WellFormed(segs[..i + 1], start)
    ensures Released(segs, start, segs[i].end)
            == Released(segs, start, prevEnd) + segs[i].rate * (segs[i].end - prevEnd)
    ensures Released(segs, start, prevEnd) >= 0 && segs[i].rate * (segs[i].end - prevEnd) > 0
  {
    var (before, upTo) := (segs[..i], segs[..i + 1]);
    assert upTo == before + [segs[i]];
    if i > 0 {
      assert before[i - 1] == segs[i - 1] && before[0] == segs[0];
      assert forall j :: 0 <= j < i ==> segs[j] == before[j] && before[j].end <= prevEnd;
      assert start < prevEnd;
    }
    ReleasedSplit(segs, start, prevEnd, segs[i].end);
    ReleasedInSegment(segs, i, prevEnd, segs[i].end);
    MulStrict(segs[i].rate, 0, segs[i].end - prevEnd);
    PrefixReleases(segs, i, start, prevEnd);
    ReleasedSigns(before, start, prevEnd);
  }

  /** Up to the end of a prefix, the list releases what the prefix releases. */
  lemma {:induction false} PrefixReleases(segs: seq<Segment>, i: nat, from: int, until: int)
    requires i <= |segs| && (until <= from || (i > 0 && until <= segs[i - 1].end))
    ensures Released(segs, from, until) == Released(segs[..i], from, until)
    decreases until - from
  {
    if from < until {
      PrefixRate(segs, i, until - 1);
      PrefixReleases(segs, i, from, until - 1);
    }
  }

  lemma {:induction false} PrefixRate(segs: seq<Segment>, i: nat, l: int)
    requires 0 < i <= |segs| && l < segs[i - 1].end
    ensures RateAt(segs, l) == RateAt(segs[..i], l)
  {
    if l >= segs[0].end {
      assert segs[..i][1..] == segs[1..][..i - 1];
      PrefixRate(segs[1..], i - 1, l);
    }
  }

  lemma TooMuch(segs: seq<Segment>, i: nat, start: U32)
    requires i < |segs| && WellFormed(segs[..i + 1], start)
    requires Released(segs, start, segs[i].end) > I128_MAX
    ensures !Accepted(segs, start)
  {
    if Accepted(segs, start) {
      if i < |segs| - 1 { assert segs[i].end < Last(segs).end; }
      assert start < segs[i].end by { assert i > 0 ==> segs[0].end < segs[i].end; }
      ReleasedMonotone(segs, start, start, segs[i].end, Last(segs).end);
    }
  }

  // ----- records -----

  /** The record that creation stores. */
  ghost predicate CreatedFrom(s: Schedule, token: Token, sponsor: Address, segs: seq<Segment>, now: U32,
                              cliffDuration: U32) {
    && s.token == token && s.sponsor == sponsor && s.segments == segs
    && s.start == s.lastClaimed == now && s.cliff == now + cliffDuration
    && segs != [] && s.end == Last(segs).end
    && s.deposited == Released(segs, now, s.end)
    && s.claimed == s.totalClaimed == 0 && s.pausedAt.None?
  }

  lemma CreatedIsReachable(s: Schedule, token: Token, sponsor: Address, segs: seq<Segment>, now: U32,
                           cliffDuration: U32)
    requires CreatedFrom(s, token, sponsor, segs, now, cliffDuration) && Accepted(segs, now)
    ensures Reachable(s, now)
  {
    if |segs| > 1 { assert segs[0].end < s.end; }
  }

  // ----- the amounts that a claim and the view compute -----

  /** The remainder from the end on, the walk over the segments before it: the same release. */
  method ClaimableNow(s: Schedule, now: U32) returns (amount: I128)
    requires Reachable(s, now) && now >= s.cliff
    ensures amount == Released(s.segments, s.lastClaimed, Min(now, s.end))
    ensures amount == 0 <==> now == s.lastClaimed
  {
    ReleaseFacts(s, Min(now, s.end));
    ReleaseFacts(s, s.end);
    if now >= s.end {
      amount := s.deposited - s.claimed;
    } else {
      var walked := ComputeChecked(s.segments, s.lastClaimed, now, s.start);
      amount := walked.value;
    }
  }

  /** The record after a claim of `claimable`, or none when that finishes the stream. */
  method Recorded(schedule: Schedule, now: U32, claimable: I128) returns (next: Option<Schedule>)
    requires Reachable(schedule, now) && ClaimEffect(schedule, now).Ok?
    requires claimable == ClaimEffect(schedule, now).value.amount
    ensures next == ClaimEffect(schedule, now).value.next
  {
    ReleaseFacts(schedule, Min(now, schedule.end));
    var s := schedule;
    s := s.(lastClaimed := Min(now, s.end));
    s := s.(totalClaimed := s.totalClaimed + claimable);
    s := s.(claimed := s.claimed + claimable);
    return if s.claimed >= s.deposited then None else Some(s);
  }

  /** The view: what a claim would pay now, or 0, computed with the saturating walk. */
  method ClaimableVariableAmount(found: Option<Schedule>, now: U32) returns (amount: I128)
    requires found.Some? ==> Reachable(found.value, now)
    ensures amount == if found.Some? && ClaimEffect(found.value, now).Ok?
                      then ClaimEffect(found.value, now).value.amount else 0
  {
    amount := 0;
    if found.None? { return; }
    var s := found.value;
    if s.pausedAt.Some? { return; }
    if now < s.cliff { return; }
    ReleaseFacts(s, Min(now, s.end));
    ReleaseFacts(s, s.end);
    if now >= s.end { return s.deposited - s.claimed; }
    amount := ComputeSaturating(s.segments, s.lastClaimed, now, s.start);
  }

  // ----- what the vault owes -----

  function DebtOf(s: Schedule): Debt { Debt(s.token, Outstanding(s)) }

  ghost function DebtsOf(schedules: map<Address, Schedule>): map<Address, Debt> {
    map a | a in schedules :: DebtOf(schedules[a])
  }

  function DebtIf(s: Option<Schedule>): Option<Debt> {
    if s.Some? then Some(DebtOf(s.value)) else None
  }

  /** When the vault's balance moves by what the recipient is owed more or less, what it holds beyond the
      variable-rate debts stays the same, in every token. */
  lemma MoveKeepsSurplus(schedules: map<Address, Schedule>, a: Address, next: Option<Schedule>,
                         before: Balances, after: Balances, token: Token, from: Holder, to: Holder, amount: int)
    requires Transferred(before, after, token, from, to, amount)
    requires (next.Some? ==> next.value.token == token) && (a in schedules ==> schedules[a].token == token)
    requires Change(token, from, to, amount, token, Vault)
          == (if next.Some? then Outstanding(next.value) else 0)
            - (if a in schedules then Outstanding(schedules[a]) else 0)
    ensures forall t :: BalanceOf(after, t, Vault) - Owed(DebtsOf(Put(schedules, a, next)), t)
                     == BalanceOf(before, t, Vault) - Owed(DebtsOf(schedules), t)
  {
    var debts := DebtsOf(schedules);
    assert DebtsOf(Put(schedules, a, next)) == Put(debts, a, DebtIf(next));
    assert Lookup(debts, a) == DebtIf(Lookup(schedules, a));
    MoveMatchesDebt(debts, a, DebtIf(next), before, after, token, from, to, amount);
  }

  /** No stored stream owes less than nothing. */
  lemma DebtsAreNotNegative(schedules: map<Address, Schedule>, now: U32, token: Token)
    requires forall a :: a in schedules ==> Reachable(schedules[a], now)
    ensures Owed(DebtsOf(schedules), token) >= 0
    ensures forall a ::
              a in schedules && schedules[a].token == token
              ==> Outstanding(schedules[a]) <= Owed(DebtsOf(schedules), token)
  {
    var debts := DebtsOf(schedules);
    forall a | a in debts ensures debts[a].amount >= 0 { ReleaseFacts(schedules[a], schedules[a].end); }
    OwedNonNegative(debts, token);
    forall a | a in schedules && schedules[a].token == token
      ensures Outstanding(schedules[a]) <= Owed(debts, token)
    {
      assert Due(debts[a], token) == Outstanding(schedules[a]);
    }
  }
}
