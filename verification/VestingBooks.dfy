/** The vault's books for fixed-rate streams: every live stream by recipient and id, and all token
    balances. The functions say what a claim over many streams does to them, and what the vault owes. */
module VestingBooks {
  import opened Wrappers
  import opened Machine
  import opened TokenBook
  import opened FixedRate

  type StreamKey = (Address, U32)

  datatype Books = Books(streams: map<StreamKey, Schedule>, balances: Balances)

  /** What an invocation sees of its surroundings. */
  datatype Env = Env(now: U32, feeBps: U32, treasury: Option<Address>, frozen: set<Token>)

  ghost predicate AllReachable(streams: map<StreamKey, Schedule>, now: U32) {
    forall k :: k in streams ==> Reachable(streams[k], now)
  }

  ghost predicate Sane(b: Books, now: U32) { AllReachable(b.streams, now) }

  // ----- moving the tokens -----

  datatype Parties = Parties(recipient: Address, treasury: Option<Address>, sponsor: Address)

  /** What one account gains by a payout. A party that has several parts in it gains their sum. */
  function Credit(pay: Payout, p: Parties, h: Holder): int {
    match h
    case Vault => -(pay.recipient + pay.treasury + pay.sponsor)
    case Party(a) =>
      (if a == p.recipient then pay.recipient else 0)
      + (if p.treasury == Some(a) then pay.treasury else 0)
      + (if a == p.sponsor then pay.sponsor else 0)
  }

  /** The payout left the vault in `token` and reached the three parties; nothing else moved. */
  ghost predicate Moved(before: Balances, after: Balances, token: Token, p: Parties, pay: Payout) {
    forall t, h :: BalanceOf(after, t, h) == BalanceOf(before, t, h) + (if t == token then Credit(pay, p, h) else 0)
  }

  /** Continues a sequence of transfers out of the vault, unless an earlier one failed. */
  function Send(b: Option<Balances>, frozen: set<Token>, token: Token, to: Address, amount: int): Option<Balances> {
    if b.Some? && amount > 0 then Transfer(b.value, frozen, token, Vault, Party(to), amount) else b
  }

  /** Treasury, then recipient, then sponsor, each only if there is something to send. */
  function PayOut(b: Balances, frozen: set<Token>, token: Token, p: Parties, pay: Payout): Option<Balances>
    requires pay.treasury > 0 ==> p.treasury.Some?
  {
    var first := if pay.treasury > 0 then Send(Some(b), frozen, token, p.treasury.value, pay.treasury) else Some(b);
    Send(Send(first, frozen, token, p.recipient, pay.recipient), frozen, token, p.sponsor, pay.sponsor)
  }

  /** `b` results from sending `spent` out of a vault that held `held`. */
  ghost predicate Spent(b: Option<Balances>, frozen: set<Token>, token: Token, held: int, spent: int) {
    && (b.Some? <==> spent == 0 || (token !in frozen && spent <= held))
    && (b.Some? ==> BalanceOf(b.value, token, Vault) == held - spent)
  }

  lemma SendSpends(b: Option<Balances>, frozen: set<Token>, token: Token, to: Address, amount: int, held: int,
                   spent: int)
    requires Spent(b, frozen, token, held, spent) && amount >= 0 && spent >= 0
    ensures Spent(Send(b, frozen, token, to, amount), frozen, token, held, spent + amount)
  {
    if b.Some? && amount > 0 {
      TransferMoves(b.value, frozen, token, Vault, Party(to), amount, token, Vault);
    }
  }

  /** A payout succeeds exactly when the token allows it and the vault holds the sum. */
  lemma PayOutSucceeds(b: Balances, frozen: set<Token>, token: Token, p: Parties, pay: Payout)
    requires pay.recipient >= 0 && pay.treasury >= 0 && pay.sponsor >= 0
    requires pay.treasury > 0 ==> p.treasury.Some?
    ensures Spent(PayOut(b, frozen, token, p, pay), frozen, token, BalanceOf(b, token, Vault), pay.Sum())
  {
    var held := BalanceOf(b, token, Vault);
    var first := Some(b);
    if pay.treasury > 0 {
      SendSpends(first, frozen, token, p.treasury.value, pay.treasury, held, 0);
      first := Send(first, frozen, token, p.treasury.value, pay.treasury);
    }
    SendSpends(first, frozen, token, p.recipient, pay.recipient, held, pay.treasury);
    var second := Send(first, frozen, token, p.recipient, pay.recipient);
    SendSpends(second, frozen, token, p.sponsor, pay.sponsor, held, pay.treasury + pay.recipient);
  }

  lemma SendMoves(b: Option<Balances>, frozen: set<Token>, token: Token, to: Address, amount: int, t: Token, h: Holder)
    requires amount >= 0
    ensures var r := Send(b, frozen, token, to, amount);
            r.Some? ==>
              && b.Some?
              && BalanceOf(r.value, t, h) == BalanceOf(b.value, t, h) + Change(token, Vault, Party(to), amount, t, h)
  {
    if b.Some? && amount > 0 {
      TransferMoves(b.value, frozen, token, Vault, Party(to), amount, t, h);
    }
  }

  lemma PayOutMoves(b: Balances, frozen: set<Token>, token: Token, p: Parties, pay: Payout)
    requires pay.recipient >= 0 && pay.treasury >= 0 && pay.sponsor >= 0
    requires pay.treasury > 0 ==> p.treasury.Some?
    ensures var r := PayOut(b, frozen, token, p, pay); r.Some? ==> Moved(b, r.value, token, p, pay)
  {
    var r := PayOut(b, frozen, token, p, pay);
    if r.Some? {
      forall t, h
        ensures BalanceOf(r.value, t, h) == BalanceOf(b, t, h) + (if t == token then Credit(pay, p, h) else 0)
      {
        var first := Some(b);
        if pay.treasury > 0 {
          SendMoves(first, frozen, token, p.treasury.value, pay.treasury, t, h);
          first := Send(first, frozen, token, p.treasury.value, pay.treasury);
        }
        SendMoves(first, frozen, token, p.recipient, pay.recipient, t, h);
        SendMoves(Send(first, frozen, token, p.recipient, pay.recipient), frozen, token, p.sponsor, pay.sponsor, t, h);
      }
    }
  }

  /** So three different parties get their own shares, and no token is made or lost. */
  lemma PayOutReaches(b: Balances, frozen: set<Token>, token: Token, p: Parties, pay: Payout)
    requires pay.recipient >= 0 && pay.treasury >= 0 && pay.sponsor >= 0
    requires p.treasury.Some? && p.recipient != p.sponsor && p.treasury.value !in {p.recipient, p.sponsor}
    ensures var r := PayOut(b, frozen, token, p, pay);
            r.Some? ==>
              && BalanceOf(r.value, token, Party(p.recipient))
                 == BalanceOf(b, token, Party(p.recipient)) + pay.recipient
              && BalanceOf(r.value, token, Party(p.sponsor)) == BalanceOf(b, token, Party(p.sponsor)) + pay.sponsor
              && BalanceOf(r.value, token, Party(p.treasury.value))
                 == BalanceOf(b, token, Party(p.treasury.value)) + pay.treasury
              && BalanceOf(r.value, token, Vault)
                 == BalanceOf(b, token, Vault) - pay.recipient - pay.treasury - pay.sponsor
  {
    PayOutMoves(b, frozen, token, p, pay);
  }

  // ----- claiming -----

  function ClaimOne(b: Books, env: Env, recipient: Address, id: U32): Result<(Books, int), Error>
    requires Sane(b, env.now) && env.feeBps <= MAX_FEE_BPS
  {
    var k := (recipient, id);
    if k !in b.streams then Err(ScheduleNotFound)
    else
      var s := b.streams[k];
      var r := ClaimEffect(s, env.now, env.feeBps);
      if r.Err? then Err(r.error)
      else
        var (next, pay) := (r.value.next, r.value.pay);
        ClaimKeepsReachable(s, env.now, env.feeBps);
        if pay.treasury > 0 && env.treasury.None? then Err(Unauthorized)
        else
          var moved := PayOut(b.balances, env.frozen, s.token, Parties(recipient, env.treasury, s.sponsor), pay);
          if moved.None? then Err(TransferFailed)
          else Ok((Books(Put(b.streams, k, next), moved.value), pay.Sum()))
  }

  /** The refusals that a claim of all streams passes over. */
  predicate Skippable(e: Error) { e == ScheduleNotFound || e == NothingToClaim || e == CliffNotReached }

  function ClaimEach(b: Books, env: Env, recipient: Address, ids: seq<U32>, specific: bool, total: I128)
    : Result<(Books, I128), Error>
    requires Sane(b, env.now) && env.feeBps <= MAX_FEE_BPS
    decreases |ids|
  {
    if ids == [] then Ok((b, total))
    else
      var r := ClaimOne(b, env, recipient, ids[0]);
      if r.Err? then
        if Skippable(r.error) && !specific then ClaimEach(b, env, recipient, ids[1..], specific, total)
        else Err(r.error)
      else
        ClaimOneKeepsSane(b, env, recipient, ids[0]);
        if !FitsI128(total + r.value.1) then Err(DepositOverflow)
        else ClaimEach(r.value.0, env, recipient, ids[1..], specific, total + r.value.1)
  }

  /** One step of the walk over the ids. */
  lemma ClaimEachStep(b: Books, env: Env, recipient: Address, ids: seq<U32>, specific: bool, total: I128)
    requires Sane(b, env.now) && env.feeBps <= MAX_FEE_BPS && ids != []
    ensures var (r, all) := (ClaimOne(b, env, recipient, ids[0]), ClaimEach(b, env, recipient, ids, specific, total));
            && (r.Ok? ==> Sane(r.value.0, env.now))
            && all == if r.Err? && (specific || !Skippable(r.error)) then Err(r.error)
                      else if r.Err? then ClaimEach(b, env, recipient, ids[1..], specific, total)
                      else if !FitsI128(total + r.value.1) then Err(DepositOverflow)
                      else ClaimEach(r.value.0, env, recipient, ids[1..], specific, total + r.value.1)
  {
    ClaimOneKeepsSane(b, env, recipient, ids[0]);
  }

  lemma ClaimOneKeepsSane(b: Books, env: Env, recipient: Address, id: U32)
    requires Sane(b, env.now) && env.feeBps <= MAX_FEE_BPS
    ensures var r := ClaimOne(b, env, recipient, id);
            r.Ok? ==> Sane(r.value.0, env.now) && r.value.1 > 0
  {
    var k := (recipient, id);
    if k in b.streams && ClaimOne(b, env, recipient, id).Ok? {
      ClaimKeepsReachable(b.streams[k], env.now, env.feeBps);
    }
  }

  // ----- what the vault owes -----

  function DebtOf(s: Schedule): Debt { Debt(s.token, Outstanding(s)) }

  ghost function DebtsOf(streams: map<StreamKey, Schedule>): map<StreamKey, Debt> {
    map k | k in streams :: DebtOf(streams[k])
  }

  function Owing(s: Option<Schedule>, token: Token): int {
    if s.Some? then Due(DebtOf(s.value), token) else 0
  }

  /** What the vault holds of a token beyond what it still owes in it. */
  ghost function Surplus(b: Books, token: Token): int {
    BalanceOf(b.balances, token, Vault) - Owed(DebtsOf(b.streams), token)
  }

  /** The surplus is the same before and after, in every token. */
  ghost predicate SurplusKept(before: Books, after: Books) {
    forall token :: Surplus(after, token) == Surplus(before, token)
  }

  lemma PutChangesOwed(streams: map<StreamKey, Schedule>, k: StreamKey, s: Option<Schedule>, token: Token)
    ensures Owed(DebtsOf(Put(streams, k, s)), token)
         == Owed(DebtsOf(streams), token) - Owing(Lookup(streams, k), token) + Owing(s, token)
  {
    var d := if s.Some? then Some(DebtOf(s.value)) else None;
    assert DebtsOf(Put(streams, k, s)) == Put(DebtsOf(streams), k, d);
    OwedPut(DebtsOf(streams), k, d, token);
  }

  /** A record replaced by one of the same token that owes `less` gives that much more surplus. */
  lemma ReplacingChangesSurplus(b: Books, k: StreamKey, s: Schedule, less: int)
    requires k in b.streams && s.token == b.streams[k].token && Outstanding(s) == Outstanding(b.streams[k]) - less
    ensures forall token ::
              Surplus(Books(b.streams[k := s], b.balances), token)
              == Surplus(b, token) + (if token == s.token then less else 0)
  {
    forall token
      ensures Surplus(Books(b.streams[k := s], b.balances), token)
              == Surplus(b, token) + (if token == s.token then less else 0)
    {
      PutChangesOwed(b.streams, k, Some(s), token);
    }
  }

  /** A payout of what a stream no longer owes leaves the surplus as it was, in every token. */
  lemma PayingKeepsSurplus(b: Books, k: StreamKey, next: Option<Schedule>, balances: Balances, p: Parties,
                           pay: Payout, token: Token)
    requires k in b.streams
    requires next.Some? ==> next.value.token == b.streams[k].token
    requires Moved(b.balances, balances, b.streams[k].token, p, pay)
    requires pay.Sum() == Outstanding(b.streams[k]) - (if next.Some? then Outstanding(next.value) else 0)
    ensures Surplus(Books(Put(b.streams, k, next), balances), token) == Surplus(b, token)
  {
    PutChangesOwed(b.streams, k, next, token);
  }

  /** The vault holds `amount` less of one token, and as much as before of any other. */
  ghost predicate VaultPaid(before: Balances, after: Balances, token: Token, amount: int) {
    forall t :: BalanceOf(after, t, Vault) == BalanceOf(before, t, Vault) - (if t == token then amount else 0)
  }

  /** A settlement removes the recipient's stream 0 whichever stream it paid. The surplus changes by
      what the removed stream owed less what the paid one owed, so paying stream 1 when there is no
      stream 0 takes the tokens out and leaves the debt. */
  lemma RemovingIdZero(b: Books, k: StreamKey, balances: Balances, token: Token)
    requires k in b.streams && VaultPaid(b.balances, balances, b.streams[k].token, Outstanding(b.streams[k]))
    ensures var c := Books(Put(b.streams, (k.0, 0), None), balances);
            && (k in c.streams <==> k.1 != 0)
            && Surplus(c, token)
               == Surplus(b, token) + Owing(Lookup(b.streams, (k.0, 0)), token) - Owing(Some(b.streams[k]), token)
  {
    PutChangesOwed(b.streams, (k.0, 0), None, token);
  }

  /** Stream 0 owes what the paid stream owes, in the same token, or neither owes anything. */
  predicate OwesAlike(zero: Option<Schedule>, paid: Schedule) {
    || (zero.Some? && zero.value.token == paid.token && Outstanding(zero.value) == Outstanding(paid))
    || (Outstanding(paid) == 0 && (zero.None? || Outstanding(zero.value) == 0))
  }

  /** So a settlement keeps every surplus exactly when stream 0, the one removed, owes what the paid
      stream owes: always for id 0, by coincidence for any other. */
  lemma SurplusKeptIff(b: Books, k: StreamKey, balances: Balances)
    requires k in b.streams && VaultPaid(b.balances, balances, b.streams[k].token, Outstanding(b.streams[k]))
    ensures SurplusKept(b, Books(Put(b.streams, (k.0, 0), None), balances))
       <==> OwesAlike(Lookup(b.streams, (k.0, 0)), b.streams[k])
    ensures k.1 == 0 ==> OwesAlike(Lookup(b.streams, (k.0, 0)), b.streams[k])
  {
    var (c, zero, paid) := (Books(Put(b.streams, (k.0, 0), None), balances), Lookup(b.streams, (k.0, 0)), b.streams[k]);
    forall token
      ensures Surplus(c, token) - Surplus(b, token) == Owing(zero, token) - Owing(Some(paid), token)
    {
      RemovingIdZero(b, k, balances, token);
    }
    if !OwesAlike(zero, paid) {
      var token := if zero.Some? && Outstanding(zero.value) != 0 then zero.value.token else paid.token;
      assert Surplus(c, paid.token) != Surplus(b, paid.token) || Surplus(c, token) != Surplus(b, token);
    }
  }

  /** The vault can and may send `pay` in the stream's token. */
  predicate CanSend(b: Books, frozen: set<Token>, token: Token, amount: int) {
    amount == 0 || (token !in frozen && amount <= BalanceOf(b.balances, token, Vault))
  }

  /** A settlement of stream `k` keeps every surplus exactly when stream 0 was owed what stream `k` was. */
  ghost predicate SettledSurplus(before: Books, after: Books, k: StreamKey)
    requires k in before.streams
  {
    && (SurplusKept(before, after) <==> OwesAlike(Lookup(before.streams, (k.0, 0)), before.streams[k]))
    && (k.1 == 0 ==> SurplusKept(before, after))
  }

  /** All about a settlement: when it goes through, what moves, and what becomes of the surplus. */
  lemma SettlementFacts(b: Books, k: StreamKey, frozen: set<Token>, p: Parties, pay: Payout)
    requires k in b.streams && pay.Sum() == Outstanding(b.streams[k])
    requires pay.recipient >= 0 && pay.treasury == 0 && pay.sponsor >= 0
    ensures var (token, moved) := (b.streams[k].token, PayOut(b.balances, frozen, b.streams[k].token, p, pay));
            && (moved.Some? <==> CanSend(b, frozen, token, Outstanding(b.streams[k])))
            && (moved.Some? ==>
                  && Moved(b.balances, moved.value, token, p, pay)
                  && SettledSurplus(b, Books(Put(b.streams, (k.0, 0), None), moved.value), k))
  {
    var (token, moved) := (b.streams[k].token, PayOut(b.balances, frozen, b.streams[k].token, p, pay));
    PayOutSucceeds(b.balances, frozen, token, p, pay);
    PayOutMoves(b.balances, frozen, token, p, pay);
    if moved.Some? { SurplusKeptIff(b, k, moved.value); }
  }

  /** The same for a refund to the sponsor. */
  lemma RefundFacts(b: Books, k: StreamKey, frozen: set<Token>, sponsor: Address, amount: int)
    requires k in b.streams && 0 <= amount == Outstanding(b.streams[k])
    ensures var token := b.streams[k].token;
            var sent := Send(Some(b.balances), frozen, token, sponsor, amount);
            && (sent.Some? <==> CanSend(b, frozen, token, amount))
            && (sent.Some? ==>
                  && Transferred(b.balances, sent.value, token, Vault, Party(sponsor), amount)
                  && SettledSurplus(b, Books(Put(b.streams, (k.0, 0), None), sent.value), k))
  {
    var token := b.streams[k].token;
    var sent := Send(Some(b.balances), frozen, token, sponsor, amount);
    if sent.Some? {
      forall t, h
        ensures BalanceOf(sent.value, t, h)
             == BalanceOf(b.balances, t, h) + Change(token, Vault, Party(sponsor), amount, t, h)
      {
        SendMoves(Some(b.balances), frozen, token, sponsor, amount, t, h);
      }
      SurplusKeptIff(b, k, sent.value);
    }
  }

  lemma ClaimOneKeepsSurplus(b: Books, env: Env, recipient: Address, id: U32, token: Token)
    requires Sane(b, env.now) && env.feeBps <= MAX_FEE_BPS
    ensures var r := ClaimOne(b, env, recipient, id);
            r.Ok? ==> Surplus(r.value.0, token) == Surplus(b, token)
  {
    var (k, r) := ((recipient, id), ClaimOne(b, env, recipient, id));
    if r.Ok? {
      var s := b.streams[k];
      var e := ClaimEffect(s, env.now, env.feeBps).value;
      ClaimKeepsReachable(s, env.now, env.feeBps);
      PayOutMoves(b.balances, env.frozen, s.token, Parties(recipient, env.treasury, s.sponsor), e.pay);
      PayingKeepsSurplus(b, k, e.next, r.value.0.balances, Parties(recipient, env.treasury, s.sponsor), e.pay, token);
    }
  }

  /** A claim over any list of streams, of any tokens, keeps every record sound and every surplus. */
  lemma {:induction false} ClaimEachKeepsSurplus(b: Books, env: Env, recipient: Address, ids: seq<U32>,
                                                 specific: bool, total: I128, token: Token)
    requires Sane(b, env.now) && env.feeBps <= MAX_FEE_BPS
    ensures var r := ClaimEach(b, env, recipient, ids, specific, total);
            r.Ok? ==>
              && Sane(r.value.0, env.now)
              && Surplus(r.value.0, token) == Surplus(b, token)
              && r.value.1 >= total
    decreases |ids|
  {
    if ids != [] {
      var r := ClaimOne(b, env, recipient, ids[0]);
      if r.Ok? {
        ClaimOneKeepsSane(b, env, recipient, ids[0]);
        ClaimOneKeepsSurplus(b, env, recipient, ids[0], token);
        if FitsI128(total + r.value.1) {
          ClaimEachKeepsSurplus(r.value.0, env, recipient, ids[1..], specific, total + r.value.1, token);
        }
      } else if Skippable(r.error) && !specific {
        ClaimEachKeepsSurplus(b, env, recipient, ids[1..], specific, total, token);
      }
    }
  }

  /** Nothing is owed in less than nothing. */
  lemma DebtsAreNotNegative(streams: map<StreamKey, Schedule>, now: U32, token: Token)
    requires forall k :: k in streams ==> Reachable(streams[k], now)
    ensures Owed(DebtsOf(streams), token) >= 0
    ensures forall k :: k in streams && streams[k].token == token
              ==> 0 <= Outstanding(streams[k]) <= Owed(DebtsOf(streams), token)
  {
    var debts := DebtsOf(streams);
    forall k | k in streams ensures Outstanding(streams[k]) >= 0 { VestedBounds(streams[k], now); }
    OwedNonNegative(debts, token);
    forall k | k in streams && streams[k].token == token
      ensures Outstanding(streams[k]) <= Owed(debts, token)
    {
      assert Due(debts[k], token) == Outstanding(streams[k]);
    }
  }
}
