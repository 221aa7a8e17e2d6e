/** A claim of several streams: what it does to each, who is paid what, and exactly when it succeeds. */
module VestingClaims {
  import opened Wrappers
  import opened Machine
  import opened TokenBook
  import opened FixedRate
  import opened VestingBooks

  // ----- a claim of several streams is as many claims of one -----

  ghost predicate Distinct(ids: seq<U32>) {
    forall i, j :: 0 <= i < j < |ids| ==> ids[i] != ids[j]
  }

  /** What a claim does to one stream, looking at that stream alone. */
  function DueNow(b: Books, env: Env, k: StreamKey): Option<Effect>
    requires Sane(b, env.now)
  {
    if k !in b.streams then None
    else
      var r := ClaimEffect(b.streams[k], env.now, env.feeBps);
      if r.Ok? then Some(r.value) else None
  }

  /** How far a record has come: its version, or beyond all versions when it has ended. */
  function Age(s: Option<Schedule>): int {
    if s.Some? then s.value.version else U32_MAX + 1
  }

  /** A claim of one stream lets that stream grow older and touches no other. */
  lemma ClaimOneAdvancesOne(b: Books, env: Env, recipient: Address, id: U32)
    requires Sane(b, env.now) && env.feeBps <= MAX_FEE_BPS
    ensures var (k, r) := ((recipient, id), ClaimOne(b, env, recipient, id));
            r.Ok? ==>
              && Age(Lookup(r.value.0.streams, k)) > Age(Lookup(b.streams, k))
              && forall j :: j != k ==> Lookup(r.value.0.streams, j) == Lookup(b.streams, j)
  {}

  function SumDue(b: Books, env: Env, recipient: Address, ids: seq<U32>): int
    requires Sane(b, env.now)
  {
    if ids == [] then 0
    else
      var due := DueNow(b, env, (recipient, ids[0]));
      (if due.Some? then due.value.pay.Sum() else 0) + SumDue(b, env, recipient, ids[1..])
  }

  /** Of what is due of the given streams in one token, the part that goes to the recipient. */
  function NetDue(b: Books, env: Env, recipient: Address, ids: seq<U32>, token: Token): int
    requires Sane(b, env.now)
  {
    if ids == [] then 0
    else
      var (k, due) := ((recipient, ids[0]), DueNow(b, env, (recipient, ids[0])));
      (if due.Some? && b.streams[k].token == token then due.value.pay.recipient else 0)
      + NetDue(b, env, recipient, ids[1..], token)
  }

  /** And the part that goes to the treasury. */
  function FeeDue(b: Books, env: Env, recipient: Address, ids: seq<U32>, token: Token): int
    requires Sane(b, env.now)
  {
    if ids == [] then 0
    else
      var (k, due) := ((recipient, ids[0]), DueNow(b, env, (recipient, ids[0])));
      (if due.Some? && b.streams[k].token == token then due.value.pay.treasury else 0)
      + FeeDue(b, env, recipient, ids[1..], token)
  }

  /** In every token the recipient has gained the net amounts of the given streams, the treasury their fees, and
      the vault has lost both; a recipient who is the treasury has gained both. No other balance has changed. */
  ghost predicate PaidEach(b: Books, after: Balances, env: Env, recipient: Address, ids: seq<U32>)
    requires Sane(b, env.now)
  {
    forall t, h ::
      BalanceOf(after, t, h) == BalanceOf(b.balances, t, h)
        + (if h == Party(recipient) then NetDue(b, env, recipient, ids, t) else 0)
        + (if env.treasury.Some? && h == Party(env.treasury.value) then FeeDue(b, env, recipient, ids, t) else 0)
        - (if h == Vault then NetDue(b, env, recipient, ids, t) + FeeDue(b, env, recipient, ids, t) else 0)
  }

  lemma {:induction false} DueFrame(b: Books, c: Books, env: Env, recipient: Address, ids: seq<U32>, token: Token)
    requires Sane(b, env.now) && Sane(c, env.now)
    requires forall id :: id in ids ==> Lookup(b.streams, (recipient, id)) == Lookup(c.streams, (recipient, id))
    ensures NetDue(b, env, recipient, ids, token) == NetDue(c, env, recipient, ids, token)
    ensures FeeDue(b, env, recipient, ids, token) == FeeDue(c, env, recipient, ids, token)
  {
    if ids != [] {
      assert Lookup(b.streams, (recipient, ids[0])) == Lookup(c.streams, (recipient, ids[0]));
      DueFrame(b, c, env, recipient, ids[1..], token);
    }
  }

  /** A claim of one stream pays what is due of it. */
  lemma ClaimOnePays(b: Books, env: Env, recipient: Address, id: U32)
    requires Sane(b, env.now) && env.feeBps <= MAX_FEE_BPS
    ensures var r := ClaimOne(b, env, recipient, id);
            r.Ok? ==> PaidEach(b, r.value.0.balances, env, recipient, [id])
  {
    var r := ClaimOne(b, env, recipient, id);
    if r.Ok? {
      var k := (recipient, id);
      var (s, pay) := (b.streams[k], DueNow(b, env, k).value.pay);
      ClaimKeepsReachable(s, env.now, env.feeBps);
      PayOutMoves(b.balances, env.frozen, s.token, Parties(recipient, env.treasury, s.sponsor), pay);
      forall t
        ensures NetDue(b, env, recipient, [id], t) == (if s.token == t then pay.recipient else 0)
        ensures FeeDue(b, env, recipient, [id], t) == (if s.token == t then pay.treasury else 0)
      {
        assert [id][1..] == [];
      }
    }
  }

  /** Nothing is due of a stream that is passed over. */
  lemma SkippedPaysNothing(b: Books, env: Env, recipient: Address, id: U32)
    requires Sane(b, env.now) && DueNow(b, env, (recipient, id)).None?
    ensures PaidEach(b, b.balances, env, recipient, [id])
  {
    assert [id][1..] == [];
    forall t ensures NetDue(b, env, recipient, [id], t) == FeeDue(b, env, recipient, [id], t) == 0 {}
  }

  /** What was paid first and what was paid then make up what was due of all. */
  lemma PaidOneThenRest(b: Books, c: Books, after: Balances, env: Env, recipient: Address, ids: seq<U32>)
    requires Sane(b, env.now) && Sane(c, env.now) && ids != [] && Distinct(ids)
    requires ClaimedEach(b, c, env, recipient, [ids[0]]) && PaidEach(b, c.balances, env, recipient, [ids[0]])
    requires PaidEach(c, after, env, recipient, ids[1..])
    ensures PaidEach(b, after, env, recipient, ids)
  {
    assert ids[0] !in ids[1..] && [ids[0]][1..] == [];
    forall t
      ensures NetDue(b, env, recipient, ids, t)
           == NetDue(b, env, recipient, [ids[0]], t) + NetDue(c, env, recipient, ids[1..], t)
      ensures FeeDue(b, env, recipient, ids, t)
           == FeeDue(b, env, recipient, [ids[0]], t) + FeeDue(c, env, recipient, ids[1..], t)
    {
      DueFrame(b, c, env, recipient, ids[1..], t);
    }
  }

  /** A claim over distinct ids that succeeds has paid what was due of each of them, to whom it was due. */
  lemma {:induction false} ClaimEachPays(b: Books, env: Env, recipient: Address, ids: seq<U32>, specific: bool,
                                         total: I128, after: Books, sum: I128)
    requires Sane(b, env.now) && env.feeBps <= MAX_FEE_BPS && Distinct(ids)
    requires ClaimEach(b, env, recipient, ids, specific, total) == Ok((after, sum))
    ensures PaidEach(b, after.balances, env, recipient, ids)
    decreases |ids|
  {
    if ids != [] {
      var c, amount := FirstThenOthers(b, env, recipient, ids, specific, total);
      ClaimEachPays(c, env, recipient, ids[1..], specific, total + amount, after, sum);
      PaidOneThenRest(b, c, after.balances, env, recipient, ids);
    }
  }

  lemma {:induction false} SumDueFrame(b: Books, c: Books, env: Env, recipient: Address, ids: seq<U32>)
    requires Sane(b, env.now) && Sane(c, env.now)
    requires forall id :: id in ids ==> Lookup(b.streams, (recipient, id)) == Lookup(c.streams, (recipient, id))
    ensures SumDue(b, env, recipient, ids) == SumDue(c, env, recipient, ids)
  {
    if ids != [] {
      assert Lookup(b.streams, (recipient, ids[0])) == Lookup(c.streams, (recipient, ids[0]));
      SumDueFrame(b, c, env, recipient, ids[1..]);
    }
  }

  ghost predicate ClaimedEach(b: Books, c: Books, env: Env, recipient: Address, ids: seq<U32>)
    requires Sane(b, env.now)
  {
    forall k: StreamKey ::
      Lookup(c.streams, k) == if k.0 == recipient && k.1 in ids && DueNow(b, env, k).Some?
                              then DueNow(b, env, k).value.next
                              else Lookup(b.streams, k)
  }

  /** The effect on the first stream and the effects on the others are the effects on all. */
  lemma OneThenRest(b: Books, c: Books, d: Books, env: Env, recipient: Address, ids: seq<U32>)
    requires Sane(b, env.now) && Sane(c, env.now) && ids != [] && Distinct(ids)
    requires ClaimedEach(b, c, env, recipient, [ids[0]])
    requires ClaimedEach(c, d, env, recipient, ids[1..])
    ensures ClaimedEach(b, d, env, recipient, ids)
    ensures SumDue(c, env, recipient, ids[1..]) == SumDue(b, env, recipient, ids[1..])
  {
    assert ids[0] !in ids[1..];
    assert forall id :: id in ids <==> id == ids[0] || id in ids[1..];
    SumDueFrame(b, c, env, recipient, ids[1..]);
    forall k: StreamKey
      ensures Lookup(d.streams, k) == if k.0 == recipient && k.1 in ids && DueNow(b, env, k).Some?
                                      then DueNow(b, env, k).value.next else Lookup(b.streams, k)
    {
      if k != (recipient, ids[0]) {
        assert Lookup(c.streams, k) == Lookup(b.streams, k);
        assert DueNow(c, env, k) == DueNow(b, env, k);
      }
    }
  }

  /** What one claim does is what is due of that stream; one that is passed over has nothing due. */
  lemma ClaimOneIsDue(b: Books, env: Env, recipient: Address, id: U32)
    requires Sane(b, env.now) && env.feeBps <= MAX_FEE_BPS
    ensures var (r, due) := (ClaimOne(b, env, recipient, id), DueNow(b, env, (recipient, id)));
            && (r.Ok? ==> Sane(r.value.0, env.now) && ClaimedEach(b, r.value.0, env, recipient, [id]))
            && (r.Ok? ==> due.Some? && r.value.1 == due.value.pay.Sum())
            && (r.Err? && Skippable(r.error) ==> due.None? && ClaimedEach(b, b, env, recipient, [id]))
  {
    ClaimOneKeepsSane(b, env, recipient, id);
  }

  /** A claim of several streams that succeeds is a claim of the first, if anything is due of it, and
      then of the others. */
  lemma FirstThenOthers(b: Books, env: Env, recipient: Address, ids: seq<U32>, specific: bool, total: I128)
    returns (c: Books, amount: int)
    requires Sane(b, env.now) && env.feeBps <= MAX_FEE_BPS && ids != []
    requires ClaimEach(b, env, recipient, ids, specific, total).Ok?
    ensures Sane(c, env.now) && ClaimedEach(b, c, env, recipient, [ids[0]])
    ensures PaidEach(b, c.balances, env, recipient, [ids[0]])
    ensures var due := DueNow(b, env, (recipient, ids[0])); amount == if due.Some? then due.value.pay.Sum() else 0
    ensures FitsI128(total + amount)
    ensures ClaimEach(b, env, recipient, ids, specific, total)
            == ClaimEach(c, env, recipient, ids[1..], specific, total + amount)
  {
    ClaimOneIsDue(b, env, recipient, ids[0]);
    ClaimOnePays(b, env, recipient, ids[0]);
    if DueNow(b, env, (recipient, ids[0])).None? { SkippedPaysNothing(b, env, recipient, ids[0]); }
    var r := ClaimOne(b, env, recipient, ids[0]);
    c, amount := if r.Ok? then r.value.0 else b, if r.Ok? then r.value.1 else 0;
  }

  /** A claim that succeeds over distinct ids gives each stream exactly the effect of a claim of it
      alone, leaves every other stream as it was, and returns the sum of the amounts. */
  lemma {:induction false} ClaimEachIsPerStream(b: Books, env: Env, recipient: Address, ids: seq<U32>, specific: bool,
                                                total: I128, after: Books, sum: I128)
    requires Sane(b, env.now) && env.feeBps <= MAX_FEE_BPS && Distinct(ids)
    requires ClaimEach(b, env, recipient, ids, specific, total) == Ok((after, sum))
    ensures sum == total + SumDue(b, env, recipient, ids)
    ensures ClaimedEach(b, after, env, recipient, ids)
    decreases |ids|
  {
    if ids != [] {
      var c, amount := FirstThenOthers(b, env, recipient, ids, specific, total);
      ClaimEachIsPerStream(c, env, recipient, ids[1..], specific, total + amount, after, sum);
      OneThenRest(b, c, after, env, recipient, ids);
    }
  }

  lemma DueAdvances(b: Books, env: Env, k: StreamKey)
    requires Sane(b, env.now)
    ensures DueNow(b, env, k).Some? ==> Age(DueNow(b, env, k).value.next) > Age(Lookup(b.streams, k))
  {}

  /** All of this for a claim that starts from nothing, and when it changes stream 0. */
  lemma ClaimEachInAll(b: Books, env: Env, recipient: Address, ids: seq<U32>, specific: bool)
    requires Sane(b, env.now) && env.feeBps <= MAX_FEE_BPS && Distinct(ids)
    ensures var r := ClaimEach(b, env, recipient, ids, specific, 0);
            r.Ok? ==>
              && r.value.1 == SumDue(b, env, recipient, ids) >= 0
              && ClaimedEach(b, r.value.0, env, recipient, ids)
              && SurplusKept(b, r.value.0)
              && (Age(Lookup(r.value.0.streams, (recipient, 0))) != Age(Lookup(b.streams, (recipient, 0)))
                  <==> 0 in ids && DueNow(b, env, (recipient, 0)).Some?)
  {
    DueAdvances(b, env, (recipient, 0));
    var all := ClaimEach(b, env, recipient, ids, specific, 0);
    if all.Ok? { ClaimEachIsPerStream(b, env, recipient, ids, specific, 0, all.value.0, all.value.1); }
    forall token
      ensures var r := ClaimEach(b, env, recipient, ids, specific, 0);
              r.Ok? ==> r.value.1 >= 0 && Surplus(r.value.0, token) == Surplus(b, token)
    {
      ClaimEachKeepsSurplus(b, env, recipient, ids, specific, 0, token);
    }
    ClaimEachKeepsSurplus(b, env, recipient, ids, specific, 0, 0);
  }

  // ----- when a claim succeeds -----

  /** A claim of this record has something to pay. */
  predicate HasDue(s: Schedule, now: U32) {
    s.pausedAt.None? && now >= s.cliff && VestedAt(s, now) > s.claimed
  }

  /** Nothing in this record but the lack of funds can make a claim fail: it is passed over because it is paused or
      before its cliff; or its version can be raised as often as that takes, and, if it has something to pay,
      the fee can be computed and sent, and its token does not refuse. */
  predicate Unobstructed(s: Schedule, env: Env) {
    || s.pausedAt.Some? || env.now < s.cliff
    || (&& s.version < U32_MAX
        && (HasDue(s, env.now) ==>
              var amount := VestedAt(s, env.now) - s.claimed;
              && s.version + 1 < U32_MAX && FitsI128(amount * env.feeBps)
              && (amount * env.feeBps / 10_000 > 0 ==> env.treasury.Some?)
              && s.token !in env.frozen))
  }

  /** A claim of one stream pays, or is passed over, or fails. */
  lemma ClaimOneSucceedsIff(b: Books, env: Env, recipient: Address, id: U32)
    requires Sane(b, env.now) && env.feeBps <= MAX_FEE_BPS
    ensures var (k, r) := ((recipient, id), ClaimOne(b, env, recipient, id));
            && (r.Ok? <==> && k in b.streams && HasDue(b.streams[k], env.now) && Unobstructed(b.streams[k], env)
                           && VestedAt(b.streams[k], env.now) - b.streams[k].claimed
                              <= BalanceOf(b.balances, b.streams[k].token, Vault))
            && (r.Err? && Skippable(r.error)
                <==> k !in b.streams || (!HasDue(b.streams[k], env.now) && Unobstructed(b.streams[k], env)))
  {
    var k := (recipient, id);
    if k in b.streams {
      var s := b.streams[k];
      VestedBounds(s, env.now);
      var r := ClaimEffect(s, env.now, env.feeBps);
      if r.Ok? {
        var (pay, p) := (r.value.pay, Parties(recipient, env.treasury, s.sponsor));
        ClaimKeepsReachable(s, env.now, env.feeBps);
        if pay.treasury == 0 || env.treasury.Some? {
          PayOutSucceeds(b.balances, env.frozen, s.token, p, pay);
        }
      }
    }
  }

  /** The vault holds what is due of the given streams, in every token. */
  ghost predicate FundsAll(b: Books, env: Env, recipient: Address, ids: seq<U32>)
    requires Sane(b, env.now)
  {
    forall t :: Enough(NetDue(b, env, recipient, ids, t) + FeeDue(b, env, recipient, ids, t),
                       BalanceOf(b.balances, t, Vault))
  }

  predicate Enough(due: int, held: int) { due == 0 || due <= held }

  /** What a claim of the given streams needs: no obstacle in any; if only one is meant, something to pay of it;
      the funds; and a sum that fits. */
  ghost predicate CanClaim(b: Books, env: Env, recipient: Address, ids: seq<U32>, specific: bool, total: I128)
    requires Sane(b, env.now)
  {
    && (forall id :: id in ids && (recipient, id) in b.streams ==> Unobstructed(b.streams[(recipient, id)], env))
    && (specific ==> forall id :: id in ids ==>
                       (recipient, id) in b.streams && HasDue(b.streams[(recipient, id)], env.now))
    && FundsAll(b, env, recipient, ids)
    && total + SumDue(b, env, recipient, ids) <= I128_MAX
  }

  lemma {:induction false} DueIsNotNegative(b: Books, env: Env, recipient: Address, ids: seq<U32>, token: Token)
    requires Sane(b, env.now) && env.feeBps <= MAX_FEE_BPS
    ensures NetDue(b, env, recipient, ids, token) >= 0 && FeeDue(b, env, recipient, ids, token) >= 0
    ensures SumDue(b, env, recipient, ids) >= 0
    ensures (exists id :: id in ids && DueNow(b, env, (recipient, id)).Some?) ==> SumDue(b, env, recipient, ids) > 0
  {
    if ids != [] {
      DueIsNotNegative(b, env, recipient, ids[1..], token);
      var k := (recipient, ids[0]);
      if k in b.streams { ClaimKeepsReachable(b.streams[k], env.now, env.feeBps); }
    }
  }

  /** A claim over distinct ids succeeds exactly when it can: no stream is in its way, and the vault and the
      sum bear all that is due. */
  lemma {:induction false} ClaimEachSucceedsIff(b: Books, env: Env, recipient: Address, ids: seq<U32>, specific: bool,
                                                total: I128)
    requires Sane(b, env.now) && env.feeBps <= MAX_FEE_BPS && Distinct(ids) && total >= 0
    ensures ClaimEach(b, env, recipient, ids, specific, total).Ok?
       <==> CanClaim(b, env, recipient, ids, specific, total)
    decreases |ids|
  {
    if ids == [] {
      NothingIsNeeded(b, env, recipient, specific, total);
    } else {
      var r := ClaimOne(b, env, recipient, ids[0]);
      if r.Ok? {
        ClaimOneKeepsSane(b, env, recipient, ids[0]);
        if FitsI128(total + r.value.1) {
          ClaimEachSucceedsIff(r.value.0, env, recipient, ids[1..], specific, total + r.value.1);
        }
        AfterClaiming(b, env, recipient, ids, specific, total, r.value.0, r.value.1);
      } else {
        if Skippable(r.error) && !specific {
          ClaimEachSucceedsIff(b, env, recipient, ids[1..], specific, total);
        }
        AfterRefusal(b, env, recipient, ids, specific, total, r.error);
      }
    }
  }

  lemma NothingIsNeeded(b: Books, env: Env, recipient: Address, specific: bool, total: I128)
    requires Sane(b, env.now)
    ensures CanClaim(b, env, recipient, [], specific, total)
  {}

  /** If the claims after the first one succeed exactly when they can, so do all. */
  lemma AfterClaiming(b: Books, env: Env, recipient: Address, ids: seq<U32>, specific: bool, total: I128,
                      c: Books, amount: int)
    requires Sane(b, env.now) && env.feeBps <= MAX_FEE_BPS && ids != [] && Distinct(ids) && total >= 0
    requires ClaimOne(b, env, recipient, ids[0]) == Ok((c, amount)) && Sane(c, env.now)
    requires FitsI128(total + amount) ==>
               (ClaimEach(c, env, recipient, ids[1..], specific, total + amount).Ok?
                <==> CanClaim(c, env, recipient, ids[1..], specific, total + amount))
    ensures ClaimEach(b, env, recipient, ids, specific, total).Ok?
       <==> CanClaim(b, env, recipient, ids, specific, total)
  {
    ClaimEachStep(b, env, recipient, ids, specific, total);
    ClaimingNeedsItsPart(b, env, recipient, ids, specific, total);
  }

  lemma AfterRefusal(b: Books, env: Env, recipient: Address, ids: seq<U32>, specific: bool, total: I128, e: Error)
    requires Sane(b, env.now) && env.feeBps <= MAX_FEE_BPS && ids != []
    requires ClaimOne(b, env, recipient, ids[0]) == Err(e)
    requires Skippable(e) && !specific ==>
               (ClaimEach(b, env, recipient, ids[1..], specific, total).Ok?
                <==> CanClaim(b, env, recipient, ids[1..], specific, total))
    ensures ClaimEach(b, env, recipient, ids, specific, total).Ok?
       <==> CanClaim(b, env, recipient, ids, specific, total)
  {
    ClaimEachStep(b, env, recipient, ids, specific, total);
    if Skippable(e) {
      SkippingNeedsNothing(b, env, recipient, ids, specific, total);
    } else {
      FailureWasNoClaim(b, env, recipient, ids, specific, total);
    }
  }

  /** Some of the given streams has something to pay. */
  ghost predicate SomethingDue(b: Books, env: Env, recipient: Address, ids: seq<U32>) {
    exists id :: id in ids && (recipient, id) in b.streams && HasDue(b.streams[(recipient, id)], env.now)
  }

  lemma {:induction false} DueOfSome(b: Books, env: Env, recipient: Address, ids: seq<U32>)
    requires Sane(b, env.now) && env.feeBps <= MAX_FEE_BPS
    ensures SumDue(b, env, recipient, ids) > 0 ==> SomethingDue(b, env, recipient, ids)
  {
    if ids != [] {
      DueOfSome(b, env, recipient, ids[1..]);
      var k := (recipient, ids[0]);
      if DueNow(b, env, k).Some? {
        VestedBounds(b.streams[k], env.now);
        assert ids[0] in ids;
      } else if id :| id in ids[1..] && (recipient, id) in b.streams && HasDue(b.streams[(recipient, id)], env.now) {
        assert id in ids;
      }
    }
  }

  /** So an invocation succeeds, with a sum above zero, exactly when it can and something is due. */
  lemma ClaimSucceedsIff(b: Books, env: Env, recipient: Address, ids: seq<U32>, specific: bool)
    requires Sane(b, env.now) && env.feeBps <= MAX_FEE_BPS && Distinct(ids)
    ensures var r := ClaimEach(b, env, recipient, ids, specific, 0);
            && (r.Ok? ==> r.value.1 >= 0)
            && (r.Ok? && r.value.1 > 0
                <==> CanClaim(b, env, recipient, ids, specific, 0) && SomethingDue(b, env, recipient, ids))
  {
    ClaimEachSucceedsIff(b, env, recipient, ids, specific, 0);
    ClaimEachInAll(b, env, recipient, ids, specific);
    if CanClaim(b, env, recipient, ids, specific, 0) { SumIsDueOfSome(b, env, recipient, ids, specific); }
  }

  lemma SumIsDueOfSome(b: Books, env: Env, recipient: Address, ids: seq<U32>, specific: bool)
    requires Sane(b, env.now) && env.feeBps <= MAX_FEE_BPS && CanClaim(b, env, recipient, ids, specific, 0)
    ensures SumDue(b, env, recipient, ids) > 0 <==> SomethingDue(b, env, recipient, ids)
  {
    DueOfSome(b, env, recipient, ids);
    if SomethingDue(b, env, recipient, ids) {
      var id :| id in ids && (recipient, id) in b.streams && HasDue(b.streams[(recipient, id)], env.now);
      DueIfUnobstructed(b, env, (recipient, id));
      DueIsNotNegative(b, env, recipient, ids, 0);
    }
  }

  lemma DueIfUnobstructed(b: Books, env: Env, k: StreamKey)
    requires Sane(b, env.now) && k in b.streams
    requires HasDue(b.streams[k], env.now) && Unobstructed(b.streams[k], env)
    ensures DueNow(b, env, k).Some?
  {}

  /** For a single stream that is the payout to its three parties. */
  lemma PaidOneIsMoved(b: Books, after: Balances, env: Env, recipient: Address, id: U32, pay: Payout)
    requires Sane(b, env.now) && env.feeBps <= MAX_FEE_BPS && PaidEach(b, after, env, recipient, [id])
    requires DueNow(b, env, (recipient, id)).Some? && DueNow(b, env, (recipient, id)).value.pay == pay
    requires pay.treasury > 0 ==> env.treasury.Some?
    ensures var s := b.streams[(recipient, id)];
            Moved(b.balances, after, s.token, Parties(recipient, env.treasury, s.sponsor), pay)
  {
    var s := b.streams[(recipient, id)];
    ClaimKeepsReachable(s, env.now, env.feeBps);
    forall t
      ensures NetDue(b, env, recipient, [id], t) == (if s.token == t then pay.recipient else 0)
      ensures FeeDue(b, env, recipient, [id], t) == (if s.token == t then pay.treasury else 0)
    {
      assert [id][1..] == [];
    }
  }

  /** A stream that is passed over needs nothing, unless it is the one that is meant. */
  lemma SkippingNeedsNothing(b: Books, env: Env, recipient: Address, ids: seq<U32>, specific: bool, total: I128)
    requires Sane(b, env.now) && env.feeBps <= MAX_FEE_BPS && ids != []
    requires var r := ClaimOne(b, env, recipient, ids[0]); r.Err? && Skippable(r.error)
    ensures CanClaim(b, env, recipient, ids, specific, total)
       <==> !specific && CanClaim(b, env, recipient, ids[1..], specific, total)
  {
    ClaimOneSucceedsIff(b, env, recipient, ids[0]);
    ClaimOneIsDue(b, env, recipient, ids[0]);
    assert forall id :: id in ids <==> id == ids[0] || id in ids[1..];
    assert forall t :: NetDue(b, env, recipient, ids, t) == NetDue(b, env, recipient, ids[1..], t)
                    && FeeDue(b, env, recipient, ids, t) == FeeDue(b, env, recipient, ids[1..], t);
  }

  /** A claim that fails at its first stream could not be made. */
  lemma FailureWasNoClaim(b: Books, env: Env, recipient: Address, ids: seq<U32>, specific: bool, total: I128)
    requires Sane(b, env.now) && env.feeBps <= MAX_FEE_BPS && ids != []
    requires var r := ClaimOne(b, env, recipient, ids[0]); r.Err? && !Skippable(r.error)
    ensures !CanClaim(b, env, recipient, ids, specific, total)
  {
    ClaimOneSucceedsIff(b, env, recipient, ids[0]);
    var s := b.streams[(recipient, ids[0])];
    assert ids[0] in ids;
    if Unobstructed(s, env) {
      DueAtLeastFirst(b, env, recipient, ids);
      assert !Enough(NetDue(b, env, recipient, ids, s.token) + FeeDue(b, env, recipient, ids, s.token),
                     BalanceOf(b.balances, s.token, Vault));
    }
  }

  /** In the first stream's token at least its own amount is due. */
  lemma DueAtLeastFirst(b: Books, env: Env, recipient: Address, ids: seq<U32>)
    requires Sane(b, env.now) && env.feeBps <= MAX_FEE_BPS && ids != [] && (recipient, ids[0]) in b.streams
    requires var s := b.streams[(recipient, ids[0])]; HasDue(s, env.now) && Unobstructed(s, env)
    ensures var s := b.streams[(recipient, ids[0])];
            NetDue(b, env, recipient, ids, s.token) + FeeDue(b, env, recipient, ids, s.token)
            >= VestedAt(s, env.now) - s.claimed > 0
  {
    var s := b.streams[(recipient, ids[0])];
    DueIfUnobstructed(b, env, (recipient, ids[0]));
    DueIsNotNegative(b, env, recipient, ids[1..], s.token);
    ClaimMeans(s, env.now, env.feeBps);
  }

  /** When the first claim has been made, what the others need is what is left of what all needed. */
  lemma ClaimingNeedsItsPart(b: Books, env: Env, recipient: Address, ids: seq<U32>, specific: bool, total: I128)
    requires Sane(b, env.now) && env.feeBps <= MAX_FEE_BPS && ids != [] && Distinct(ids) && total >= 0
    requires ClaimOne(b, env, recipient, ids[0]).Ok?
    ensures var (c, amount) := ClaimOne(b, env, recipient, ids[0]).value;
            && Sane(c, env.now)
            && 0 < amount && SumDue(b, env, recipient, ids) == amount + SumDue(c, env, recipient, ids[1..])
            && (CanClaim(b, env, recipient, ids, specific, total)
                <==> FitsI128(total + amount) && CanClaim(c, env, recipient, ids[1..], specific, total + amount))
  {
    var (c, amount) := ClaimOne(b, env, recipient, ids[0]).value;
    ClaimOneKeepsSane(b, env, recipient, ids[0]);
    ClaimOneAdvancesOne(b, env, recipient, ids[0]);
    ClaimOneIsDue(b, env, recipient, ids[0]);
    ClaimOneSucceedsIff(b, env, recipient, ids[0]);
    assert ids[0] !in ids[1..];
    assert forall id :: id in ids <==> id == ids[0] || id in ids[1..];
    SumDueFrame(b, c, env, recipient, ids[1..]);
    DueIsNotNegative(c, env, recipient, ids[1..], 0);
    forall id | id in ids[1..]
      ensures Lookup(c.streams, (recipient, id)) == Lookup(b.streams, (recipient, id))
    {}
    assert FundsAll(b, env, recipient, ids) <==> FundsAll(c, env, recipient, ids[1..]) by {
      FundingTheRest(b, env, recipient, ids);
    }
  }

  lemma FundingTheRest(b: Books, env: Env, recipient: Address, ids: seq<U32>)
    requires Sane(b, env.now) && env.feeBps <= MAX_FEE_BPS && ids != [] && Distinct(ids)
    requires ClaimOne(b, env, recipient, ids[0]).Ok?
    ensures var c := ClaimOne(b, env, recipient, ids[0]).value.0;
            Sane(c, env.now) && (FundsAll(b, env, recipient, ids) <==> FundsAll(c, env, recipient, ids[1..]))
  {
    var (c, k) := (ClaimOne(b, env, recipient, ids[0]).value.0, (recipient, ids[0]));
    ClaimOneKeepsSane(b, env, recipient, ids[0]);
    ClaimOneAdvancesOne(b, env, recipient, ids[0]);
    ClaimOnePays(b, env, recipient, ids[0]);
    ClaimOneSucceedsIff(b, env, recipient, ids[0]);
    assert ids[0] !in ids[1..] && [ids[0]][1..] == [];
    forall t
      ensures Enough(NetDue(b, env, recipient, ids, t) + FeeDue(b, env, recipient, ids, t),
                     BalanceOf(b.balances, t, Vault))
         <==> Enough(NetDue(c, env, recipient, ids[1..], t) + FeeDue(c, env, recipient, ids[1..], t),
                     BalanceOf(c.balances, t, Vault))
    {
      DueFrame(b, c, env, recipient, ids[1..], t);
      DueIsNotNegative(c, env, recipient, ids[1..], t);
      DueIsNotNegative(b, env, recipient, [ids[0]], t);
    }
  }

  // ----- what stands in the way of a claim -----

  /** The token does not refuse, and the vault holds no less of it than it owes. */
  ghost predicate CanBePaid(b: Books, frozen: set<Token>, k: StreamKey) {
    k in b.streams ==> b.streams[k].token !in frozen && Surplus(b, b.streams[k].token) >= 0
  }

  lemma ClaimOneGoesThrough(b: Books, env: Env, recipient: Address, id: U32)
    requires Sane(b, env.now) && env.feeBps <= MAX_FEE_BPS
    requires CanBePaid(b, env.frozen, (recipient, id))
    ensures ClaimOne(b, env, recipient, id) != Err(TransferFailed)
  {
    var k := (recipient, id);
    if k in b.streams && ClaimEffect(b.streams[k], env.now, env.feeBps).Ok? {
      var s := b.streams[k];
      var pay := ClaimEffect(s, env.now, env.feeBps).value.pay;
      ClaimKeepsReachable(s, env.now, env.feeBps);
      DebtsAreNotNegative(b.streams, env.now, s.token);
      if pay.treasury == 0 || env.treasury.Some? {
        PayOutSucceeds(b.balances, env.frozen, s.token, Parties(recipient, env.treasury, s.sponsor), pay);
      }
    }
  }

  /** A claim of any streams fails in a transfer only when one of their tokens refuses, or the vault holds
      less of one of them than it owes. */
  lemma {:induction false} ClaimEachGoesThrough(b: Books, env: Env, recipient: Address, ids: seq<U32>, specific: bool,
                                                total: I128)
    requires Sane(b, env.now) && env.feeBps <= MAX_FEE_BPS
    requires forall id :: id in ids ==> CanBePaid(b, env.frozen, (recipient, id))
    ensures ClaimEach(b, env, recipient, ids, specific, total) != Err(TransferFailed)
    decreases |ids|
  {
    if ids != [] {
      var r := ClaimOne(b, env, recipient, ids[0]);
      ClaimOneGoesThrough(b, env, recipient, ids[0]);
      if r.Ok? {
        ClaimOneKeepsSane(b, env, recipient, ids[0]);
        forall id | id in ids[1..] ensures CanBePaid(r.value.0, env.frozen, (recipient, id)) {
          ClaimOneKeepsCanBePaid(b, env, recipient, ids[0], (recipient, id));
        }
        if FitsI128(total + r.value.1) {
          ClaimEachGoesThrough(r.value.0, env, recipient, ids[1..], specific, total + r.value.1);
        }
      } else if Skippable(r.error) && !specific {
        ClaimEachGoesThrough(b, env, recipient, ids[1..], specific, total);
      }
    }
  }

  lemma ClaimOneKeepsCanBePaid(b: Books, env: Env, recipient: Address, id: U32, k: StreamKey)
    requires Sane(b, env.now) && env.feeBps <= MAX_FEE_BPS && CanBePaid(b, env.frozen, k)
    ensures var r := ClaimOne(b, env, recipient, id); r.Ok? ==> CanBePaid(r.value.0, env.frozen, k)
  {
    var r := ClaimOne(b, env, recipient, id);
    if r.Ok? && k in r.value.0.streams {
      assert k in b.streams && r.value.0.streams[k].token == b.streams[k].token;
      ClaimOneKeepsSurplus(b, env, recipient, id, b.streams[k].token);
    }
  }
}
