/** The protocol fee over many claims: each claim rounds its own fee down. */
module ClaimFees {
  import opened Wrappers
  import opened Machine
  import opened FixedRate
  import opened FixedRateRuns

  function Sum(amounts: seq<nat>): nat {
    if amounts == [] then 0 else amounts[0] + Sum(amounts[1..])
  }

  function FeesTaken(amounts: seq<nat>, bps: U32): int {
    if amounts == [] then 0 else Fee(amounts[0], bps) + FeesTaken(amounts[1..], bps)
  }

  /** What rounding kept from the treasury so far, in ten-thousandths of a token. */
  function Dust(amounts: seq<nat>, bps: U32): nat {
    if amounts == [] then 0 else amounts[0] * bps % 10_000 + Dust(amounts[1..], bps)
  }

  lemma {:induction false} DustBounds(amounts: seq<nat>, bps: U32)
    ensures Sum(amounts) * bps == 10_000 * FeesTaken(amounts, bps) + Dust(amounts, bps)
    ensures Dust(amounts, bps) <= 9_999 * |amounts|
  {
    if amounts != [] {
      DustBounds(amounts[1..], bps);
      MulAdd(bps, amounts[0], Sum(amounts[1..]));
    }
  }

  /** Splitting an amount into k claims never raises the fee, and lowers it by less than k. */
  lemma FeeSplit(amounts: seq<nat>, bps: U32)
    ensures FeesTaken(amounts, bps) <= Fee(Sum(amounts), bps)
    ensures amounts != [] ==> Fee(Sum(amounts), bps) - FeesTaken(amounts, bps) < |amounts|
  {
    DustBounds(amounts, bps);
  }

  // ----- the fees of a run -----

  /** The gross amounts of the claims among the receipts. */
  function ClaimAmounts(rs: seq<Receipt>): seq<int> {
    if rs == [] then []
    else if rs[0].op.Claim? then [rs[0].pay.Sum()] + ClaimAmounts(rs[1..])
    else ClaimAmounts(rs[1..])
  }

  function TreasuryIncome(rs: seq<Receipt>): int {
    if rs == [] then 0 else rs[0].pay.treasury + TreasuryIncome(rs[1..])
  }

  ghost predicate FixedFee(events: seq<Event>, bps: U32) {
    forall i :: 0 <= i < |events| && events[i].op.Claim? ==> events[i].op.bps == bps
  }

  lemma {:induction false} FeesOfRun(st: Option<Schedule>, now: U32, events: seq<Event>, bps: U32)
    returns (amounts: seq<nat>)
    requires Sound(st, now) && Ordered(now, events) && FixedFee(events, bps)
    ensures ClaimAmounts(Run(st, now, events).receipts) == amounts
    ensures TreasuryIncome(Run(st, now, events).receipts) == FeesTaken(amounts, bps)
    decreases |events|
  {
    amounts := [];
    if st.Some? && events != [] {
      var (s, e) := (st.value, events[0]);
      ReachableLater(s, now, e.now);
      StepConserves(s, e);
      var tail := FeesOfRun(After(s, e), e.now, events[1..], bps);
      var rest := Run(After(s, e), e.now, events[1..]).receipts;
      if ReceiptsOf(s, e) == [] {
        assert Run(st, now, events).receipts == rest;
        amounts := tail;
      } else {
        var r := ReceiptsOf(s, e)[0];
        assert Run(st, now, events).receipts == [r] + rest;
        assert ([r] + rest)[1..] == rest;
        if e.op.Claim? {
          var amount := r.pay.Sum();
          assert amount >= 0 by { assert Paid([r]) == r.pay.Sum(); }
          amounts := [amount] + tail;
          assert amounts[1..] == tail;
        } else {
          amounts := tail;
        }
      }
    }
  }

  /** Over every run at one fee rate, with k claims: the treasury receives at most the fee on all
      that was claimed, and falls short of it by less than k. */
  lemma TreasuryReceivesItsShare(st: Option<Schedule>, now: U32, events: seq<Event>, bps: U32)
    returns (amounts: seq<nat>)
    requires Sound(st, now) && Ordered(now, events) && FixedFee(events, bps)
    ensures ClaimAmounts(Run(st, now, events).receipts) == amounts
    ensures var income := TreasuryIncome(Run(st, now, events).receipts);
            && income <= Fee(Sum(amounts), bps)
            && (amounts == [] ==> income == 0)
            && (amounts != [] ==> Fee(Sum(amounts), bps) - income < |amounts|)
  {
    amounts := FeesOfRun(st, now, events, bps);
    FeeSplit(amounts, bps);
  }
}
