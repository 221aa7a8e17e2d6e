/** The one account that pays all three kinds of stream: what it holds beyond all that is owed, when that
    stays the same, and what follows for a payout when nothing is missing. */
module Accounts {
  import opened Wrappers
  import opened Machine
  import opened TokenBook
  import opened FixedRate
  import opened FixedAmounts
  import opened VestingBooks
  import opened VestingClaims
  import VariableStream
  import Milestones

  datatype Account = Account(
    books: Books,
    variable: map<Address, VariableStream.Schedule>,
    milestones: map<Address, Milestones.Schedule>)

  ghost predicate Sound(c: Account, now: U32, maxMilestones: U32) {
    && Sane(c.books, now)
    && (forall a :: a in c.variable ==> VariableStream.Reachable(c.variable[a], now))
    && (forall a :: a in c.milestones ==> Milestones.Reachable(c.milestones[a], now, maxMilestones))
  }

  /** What the other two kinds of stream are still owed. */
  ghost function OtherDebts(c: Account, token: Token): int {
    Owed(VariableStream.DebtsOf(c.variable), token) + Owed(Milestones.DebtsOf(c.milestones), token)
  }

  /** What the account holds of a token beyond all that is owed in it. */
  ghost function Spare(c: Account, token: Token): int {
    Surplus(c.books, token) - OtherDebts(c, token)
  }

  ghost predicate SpareKept(before: Account, after: Account) {
    forall token :: Spare(after, token) == Spare(before, token)
  }

  /** As long as only fixed-rate streams change, the surplus over them says it all. */
  lemma FixedRateOnly(c: Account, b: Books)
    ensures SpareKept(c, c.(books := b)) <==> SurplusKept(c.books, b)
  {
    var d := c.(books := b);
    FixedRateChanges(c, b);
    if SpareKept(c, d) {
      forall token ensures Surplus(b, token) == Surplus(c.books, token) {
        assert Spare(d, token) == Spare(c, token);
      }
    }
  }

  lemma FixedRateChanges(c: Account, b: Books)
    ensures forall token ::
              Spare(c.(books := b), token)
              == Spare(c, token) + Surplus(b, token) - Surplus(c.books, token)
  {
    forall token
      ensures Spare(c.(books := b), token) == Spare(c, token) + Surplus(b, token) - Surplus(c.books, token)
    {
      assert OtherDebts(c.(books := b), token) == OtherDebts(c, token);
    }
  }

  /** So much more is spare in one token, and as much as before in any other. */
  ghost predicate Freed(before: Account, after: Account, token: Token, amount: int) {
    forall t :: Spare(after, t) == Spare(before, t) + (if t == token then amount else 0)
  }

  /** A record that is replaced by one which owes `less` frees that much. */
  lemma ReplacingChangesSpare(c: Account, k: StreamKey, s: Schedule, less: int)
    requires k in c.books.streams && s.token == c.books.streams[k].token
    requires Outstanding(s) == Outstanding(c.books.streams[k]) - less
    ensures var d := c.(books := Books(c.books.streams[k := s], c.books.balances));
            Freed(c, d, s.token, less) && (less == 0 ==> SpareKept(c, d))
  {
    ReplacingChangesSurplus(c.books, k, s, less);
    FixedRateChanges(c, Books(c.books.streams[k := s], c.books.balances));
  }

  /** The stream that is forgotten was owed just this much, in this token. */
  predicate MakesUpFor(forgotten: Option<Schedule>, token: Token, shortfall: int) {
    forgotten.Some? && forgotten.value.token == token && Outstanding(forgotten.value) == shortfall
  }

  /** So much less is spare in one token, but for what the forgotten stream was owed. */
  ghost predicate ShortBy(before: Account, after: Account, forgotten: Option<Schedule>, token: Token, shortfall: int) {
    forall t :: Spare(after, t) == Spare(before, t) + Owing(forgotten, t) - (if t == token then shortfall else 0)
  }

  /** The account is short by the difference, but for what the forgotten stream was owed; only if that is just as
      much does it make up for it, and without one it does not. */
  ghost predicate FallsShort(before: Account, after: Account, forgotten: Option<Schedule>, token: Token,
                             shortfall: int) {
    && ShortBy(before, after, forgotten, token, shortfall)
    && (SpareKept(before, after) <==> MakesUpFor(forgotten, token, shortfall))
    && (forgotten.None? ==> Spare(after, token) < Spare(before, token))
  }

  /** That is what creation does: it takes a deposit divided by RATE_DECIMALS, less the fee, and promises the
      undivided product. */
  lemma CreationFallsShort(c: Account, recipient: Address, s: Schedule, after: Balances, deposit: int,
                           settings: Settings)
    requires Funded(c.books.balances, after, s.token, s.sponsor, deposit, settings)
    requires 0 <= deposit < Outstanding(s) && (settings.feeBps > 0 ==> settings.treasury.Some?)
    ensures var k := (recipient, 0);
            FallsShort(c, c.(books := Books(c.books.streams[k := s], after)), Lookup(c.books.streams, k), s.token,
                       Outstanding(s) - (deposit - FeeOn(deposit, settings)))
    ensures Outstanding(s) > deposit - FeeOn(deposit, settings)
  {
    var (k, net) := ((recipient, 0), deposit - FeeOn(deposit, settings));
    var b := Books(c.books.streams[k := s], after);
    forall t
      ensures Surplus(b, t) == Surplus(c.books, t) + Owing(Lookup(c.books.streams, k), t)
                               - (if t == s.token then Outstanding(s) - net else 0)
    {
      PutChangesOwed(c.books.streams, k, Some(s), t);
    }
    FixedRateChanges(c, b);
    FeeBounds(deposit, settings.feeBps);
    if SpareKept(c, c.(books := b)) {
      assert Spare(c.(books := b), s.token) == Spare(c, s.token);
    }
  }

  /** A move of as much as a variable-rate stream is owed more or less keeps what is beyond all debts. */
  lemma VariableOnly(c: Account, a: Address, next: Option<VariableStream.Schedule>,
                     after: Balances, token: Token, from: Holder, to: Holder, amount: int)
    requires Transferred(c.books.balances, after, token, from, to, amount)
    requires (next.Some? ==> next.value.token == token) && (a in c.variable ==> c.variable[a].token == token)
    requires Change(token, from, to, amount, token, Vault)
          == (if next.Some? then VariableStream.Outstanding(next.value) else 0)
             - (if a in c.variable then VariableStream.Outstanding(c.variable[a]) else 0)
    ensures SpareKept(c, c.(books := Books(c.books.streams, after), variable := Put(c.variable, a, next)))
  {
    VariableStream.MoveKeepsSurplus(c.variable, a, next, c.books.balances, after, token, from, to, amount);
  }

  lemma MilestonesOnly(c: Account, a: Address, s: Milestones.Schedule, after: Balances, from: Holder, to: Holder,
                       amount: int)
    requires Transferred(c.books.balances, after, s.token, from, to, amount)
    requires a in c.milestones ==> c.milestones[a].token == s.token
    requires Change(s.token, from, to, amount, s.token, Vault)
          == Milestones.DebtOf(s).amount - (if a in c.milestones then Milestones.DebtOf(c.milestones[a]).amount else 0)
    ensures SpareKept(c, c.(books := Books(c.books.streams, after), milestones := c.milestones[a := s]))
  {
    Milestones.MoveKeepsSurplus(c.milestones, a, s, c.books.balances, after, from, to, amount);
  }

  // ----- when nothing is missing -----

  /** As long as nothing is missing in a token, the account holds what any one stream of any kind is still
      owed in it, so that only the token itself can refuse a payout. */
  lemma SpareCovers(c: Account, now: U32, maxMilestones: U32, token: Token)
    requires Sound(c, now, maxMilestones) && Spare(c, token) >= 0
    ensures Surplus(c.books, token) >= 0
    ensures forall k :: k in c.books.streams && c.books.streams[k].token == token
              ==> Outstanding(c.books.streams[k]) <= BalanceOf(c.books.balances, token, Vault)
    ensures forall a :: a in c.variable && c.variable[a].token == token
              ==> VariableStream.Outstanding(c.variable[a]) <= BalanceOf(c.books.balances, token, Vault)
    ensures forall a :: a in c.milestones && c.milestones[a].token == token
              ==> Milestones.DebtOf(c.milestones[a]).amount <= BalanceOf(c.books.balances, token, Vault)
  {
    DebtsAreNotNegative(c.books.streams, now, token);
    VariableStream.DebtsAreNotNegative(c.variable, now, token);
    Milestones.DebtsAreNotNegative(c.milestones, now, maxMilestones, token);
  }

  /** So with nothing missing in their tokens, and no token that refuses, a claim of any streams does not fail in
      a transfer. */
  lemma ClaimsAreCovered(c: Account, env: Env, maxMilestones: U32, recipient: Address, ids: seq<U32>, specific: bool)
    requires Sound(c, env.now, maxMilestones) && env.feeBps <= MAX_FEE_BPS
    requires forall id :: id in ids && (recipient, id) in c.books.streams ==>
               var token := c.books.streams[(recipient, id)].token; token !in env.frozen && Spare(c, token) >= 0
    ensures ClaimEach(c.books, env, recipient, ids, specific, 0) != Err(TransferFailed)
  {
    forall id | id in ids ensures CanBePaid(c.books, env.frozen, (recipient, id)) {
      if (recipient, id) in c.books.streams {
        SpareCovers(c, env.now, maxMilestones, c.books.streams[(recipient, id)].token);
      }
    }
    ClaimEachGoesThrough(c.books, env, recipient, ids, specific, 0);
  }

  /** Nor does a settlement of any one stream, */
  lemma SettlementsAreCovered(c: Account, now: U32, maxMilestones: U32, k: StreamKey)
    requires Sound(c, now, maxMilestones) && k in c.books.streams && Spare(c, c.books.streams[k].token) >= 0
    ensures var (s, held) := (c.books.streams[k], BalanceOf(c.books.balances, c.books.streams[k].token, Vault));
            && ClawbackEffect(s).pay.Sum() <= held
            && (CancelEffect(s, now).Ok? ==> CancelEffect(s, now).value.pay.Sum() <= held)
            && (DrainEffect(s, now).Ok? ==> DrainEffect(s, now).value.pay.Sum() <= held)
  {
    SpareCovers(c, now, maxMilestones, c.books.streams[k].token);
    SettlementsAgree(c.books.streams[k], now, 0);
  }

  /** nor a claim of a variable-rate stream, */
  lemma VariableClaimIsCovered(c: Account, now: U32, maxMilestones: U32, a: Address)
    requires Sound(c, now, maxMilestones) && a in c.variable && Spare(c, c.variable[a].token) >= 0
    requires VariableStream.ClaimEffect(c.variable[a], now).Ok?
    ensures VariableStream.ClaimEffect(c.variable[a], now).value.amount
         <= BalanceOf(c.books.balances, c.variable[a].token, Vault)
  {
    VariableStream.ClaimKeepsReachable(c.variable[a], now);
    SpareCovers(c, now, maxMilestones, c.variable[a].token);
  }

  /** nor one of a milestone stream. */
  lemma MilestoneClaimIsCovered(c: Account, now: U32, maxMilestones: U32, a: Address)
    requires Sound(c, now, maxMilestones) && a in c.milestones && Spare(c, c.milestones[a].token) >= 0
    requires Milestones.ClaimEffect(c.milestones[a], now).Ok?
    ensures Milestones.ClaimEffect(c.milestones[a], now).value.amount
         <= BalanceOf(c.books.balances, c.milestones[a].token, Vault)
  {
    Milestones.ClaimKeepsReachable(c.milestones[a], now, maxMilestones);
    SpareCovers(c, now, maxMilestones, c.milestones[a].token);
  }
}
