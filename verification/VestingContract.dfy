/** The contract: three kinds of stream and the one account that pays them all. Every entry point states
    what it does to `Spare`, what the account holds beyond all that the contract owes. An error undoes
    everything the invocation did. */
module VestingContract {
  import opened Wrappers
  import opened Machine
  import opened TokenBook
  import opened FixedRate
  import opened FixedAmounts
  import opened VestingBooks
  import opened VestingClaims
  import opened Accounts
  import opened Segments
  import VariableStream
  import Milestones

  class VestingDrips {
    var streams: map<StreamKey, Schedule>
    /** The recipients whose stream 0 is still under the legacy key, the only one `get_schedule` reads. */
    var legacy: set<Address>
    var variable: map<Address, VariableStream.Schedule>
    var milestones: map<Address, Milestones.Schedule>
    var balances: Balances
    var now: U32
    var settings: Settings
    const maxMilestones: U32
    /** The streams of an older deployment that have their own ids; this one stores new streams under id 0. */
    ghost const older: set<StreamKey>

    function Ledgers(): Books
      reads this`streams, this`balances
    {
      Books(streams, balances)
    }

    function Surroundings(frozen: set<Token>): Env
      reads this`now, this`settings
    {
      Env(now, settings.feeBps, settings.treasury, frozen)
    }

    /** The one account, with all that it owes. */
    function All(): Account
      reads this`streams, this`variable, this`milestones, this`balances
    {
      Account(Ledgers(), variable, milestones)
    }

    ghost predicate ValidFixed()
      reads this`streams, this`legacy, this`now, this`settings
    {
      && AllReachable(streams, now)
      && (forall k :: k in streams ==> k.1 == 0 || k in older)
      && (forall a :: a in legacy ==> (a, 0) in streams)
      && settings.feeBps <= MAX_FEE_BPS
    }

    ghost predicate ValidVariable()
      reads this`variable, this`now
    {
      forall a :: a in variable ==> VariableStream.Reachable(variable[a], now)
    }

    ghost predicate ValidMilestones()
      reads this`milestones, this`now
    {
      forall a :: a in milestones ==> Milestones.Reachable(milestones[a], now, maxMilestones)
    }

    ghost predicate Valid()
      reads this`streams, this`legacy, this`variable, this`milestones, this`now, this`settings
    {
      ValidFixed() && ValidVariable() && ValidMilestones()
    }

    /** So what module Accounts says of a sound account holds of this one. */
    lemma AllIsSound()
      requires Valid()
      ensures Sound(All(), now, maxMilestones)
    {}

    /** A deployment that may find the fixed-rate streams of an older one, some of them under legacy keys. */
    constructor (found: map<StreamKey, Schedule>, legacy: set<Address>, balances: Balances, now: U32,
                 settings: Settings, maxMilestones: U32)
      requires settings.feeBps <= MAX_FEE_BPS
      requires forall k :: k in found ==> Reachable(found[k], now)
      requires forall a :: a in legacy ==> (a, 0) in found
      ensures Valid() && streams == found && this.legacy == legacy && variable == map[] && milestones == map[]
      ensures this.balances == balances && this.now == now && this.settings == settings
      ensures this.maxMilestones == maxMilestones && older == found.Keys
    {
      this.streams, this.legacy, this.older := found, legacy, found.Keys;
      this.variable, this.milestones := map[], map[];
      this.balances, this.now, this.settings, this.maxMilestones := balances, now, settings, maxMilestones;
    }

    /** `get_schedule`: stream 0, if it is under the legacy key. */
    function GetSchedule(a: Address): Option<Schedule>
      reads this`streams, this`legacy
    {
      if a in legacy then Lookup(streams, (a, 0)) else None
    }

    /** The ledger clock never goes back. */
    method Advance(ledger: U32)
      requires Valid() && now <= ledger
      modifies this`now
      ensures Valid() && now == ledger
    {
      forall k | k in streams ensures Reachable(streams[k], ledger) { ReachableLater(streams[k], now, ledger); }
      forall a | a in milestones ensures Milestones.Reachable(milestones[a], ledger, maxMilestones) {
        Milestones.FrontierFromLater(milestones[a].milestones, 0, now, ledger);
      }
      now := ledger;
    }

    method Configure(settings: Settings)
      requires Valid() && settings.feeBps <= MAX_FEE_BPS
      modifies this`settings
      ensures Valid() && this.settings == settings
    {
      this.settings := settings;
    }

    // ----- creating a fixed-rate stream -----

    /** Creation takes a deposit that is divided by RATE_DECIMALS, and stores a record that pays out the undivided
        product; and it stores it under id 0, whichever id it has allocated, so that a stream 0 of the recipient is
        forgotten. `CreatedUnfunded` says what that does to the account. */
    method CreateVestingStream(sponsor: Address, recipient: Address, token: Token, terms: Terms, found: Findings,
                               newId: Option<U32>, frozen: set<Token>) returns (r: Result<U32, Error>)
      requires Valid()
      modifies this`streams, this`legacy, this`balances
      ensures Valid()
      ensures r.Err? ==> Ledgers() == old(Ledgers()) && legacy == old(legacy)
      ensures !settings.initialized ==> r == Err(NotInitialized)
      ensures settings.initialized && sponsor == recipient ==> r == Err(InvalidRecipient)
      ensures r.Ok? <==>
                && settings.initialized && sponsor != recipient && Admissible(terms, settings, found, now)
                && newId.Some? && CanFund(old(balances), frozen, token, sponsor, Deposit(terms), settings)
      ensures r.Ok? ==>
                && r.value == newId.value
                && streams == old(streams)[(recipient, 0) := NewSchedule(sponsor, token, terms, now)]
                && legacy == old(legacy) - {recipient}
                && Funded(old(balances), balances, token, sponsor, Deposit(terms), settings)
      ensures r.Ok? ==>
                var s := streams[(recipient, 0)];
                && s.token == token && s.sponsor == sponsor && s.rate == terms.rate
                && s.start == s.lastClaimed == now
                && s.cliff == now + terms.cliffDuration && s.end == now + terms.totalDuration
                && s.totalClaimed == s.claimed == 0 && s.pausedAt == None && s.accumulatedPause == 0 && s.version == 1
      ensures var deposit := terms.rate * terms.totalDuration / 10_000_000;
              var fee := deposit * settings.feeBps / 10_000;
              r.Ok? ==> forall t, h ::
                BalanceOf(balances, t, h) == BalanceOf(old(balances), t, h)
                  - (if t == token && h == Party(sponsor) then deposit else 0)
                  + (if t == token && settings.treasury.Some? && h == Party(settings.treasury.value) then fee else 0)
                  + (if t == token && h == Vault then deposit - fee else 0)
    {
      if !settings.initialized { return Err(NotInitialized); }
      if sponsor == recipient { return Err(InvalidRecipient); }
      var valid := ValidateTerms(sponsor, token, terms, settings, found, now);
      if valid.Err? { return Err(valid.error); }
      if newId.None? { return Err(DepositOverflow); }
      r := Open(recipient, valid.value.0, valid.value.1, newId.value, frozen);
      if r.Ok? { FundedMeans(old(balances), balances, token, sponsor, valid.value.1, settings); }
    }

    /** Takes the deposit, passes the fee on to the treasury, and stores the record under id 0. */
    method Open(recipient: Address, s: Schedule, deposit: I128, newId: U32, frozen: set<Token>)
      returns (r: Result<U32, Error>)
      requires ValidFixed() && NewlyCreated(s, now) && 0 <= deposit
      modifies this`streams, this`legacy, this`balances
      ensures ValidFixed()
      ensures r.Err? ==> Ledgers() == old(Ledgers()) && legacy == old(legacy)
      ensures r.Ok? <==> CanFund(old(balances), frozen, s.token, s.sponsor, deposit, settings)
      ensures r.Ok? ==>
                && r.value == newId
                && streams == old(streams)[(recipient, 0) := s] && legacy == old(legacy) - {recipient}
                && Funded(old(balances), balances, s.token, s.sponsor, deposit, settings)
    {
      var moved := Transfer(balances, frozen, s.token, Party(s.sponsor), Vault, deposit);
      if moved.None? { return Err(TransferFailed); }
      var fee := CreationFee(deposit, settings);
      if fee.Err? { return Err(fee.error); }
      TransferDone(balances, frozen, s.token, Party(s.sponsor), Vault, deposit);
      if fee.value > 0 {
        var paid := Transfer(moved.value, frozen, s.token, Vault, Party(settings.treasury.value), fee.value);
        if paid.None? { return Err(TransferFailed); }
        TransferDone(moved.value, frozen, s.token, Vault, Party(settings.treasury.value), fee.value);
        moved := paid;
      }
      NewlyCreatedIsReachable(s, now);
      balances := moved.value;
      streams := streams[(recipient, 0) := s];
      legacy := legacy - {recipient};
      return Ok(newId);
    }

    // ----- paying -----

    /** Sends the shares of a payout, or nothing at all. */
    method Disburse(token: Token, p: Parties, pay: Payout, frozen: set<Token>) returns (ok: bool)
      requires pay.treasury > 0 ==> p.treasury.Some?
      modifies this`balances
      ensures var spec := PayOut(old(balances), frozen, token, p, pay);
              ok == spec.Some? && balances == if ok then spec.value else old(balances)
    {
      var moved := Some(balances);
      if pay.treasury > 0 { moved := Send(moved, frozen, token, p.treasury.value, pay.treasury); }
      moved := Send(moved, frozen, token, p.recipient, pay.recipient);
      moved := Send(moved, frozen, token, p.sponsor, pay.sponsor);
      ok := moved.Some?;
      if ok { balances := moved.value; }
    }

    // ----- claiming -----

    /** How far the recipient's stream 0 has come. */
    ghost function ZeroAge(a: Address): int
      reads this`streams
    {
      Age(Lookup(streams, (a, 0)))
    }

    /** One pass of the claim loop. */
    method ClaimStream(recipient: Address, id: U32, frozen: set<Token>) returns (r: Result<I128, Error>)
      requires ValidFixed()
      modifies this`streams, this`legacy, this`balances
      ensures ValidFixed()
      ensures var spec := old(ClaimOne(Ledgers(), Surroundings(frozen), recipient, id));
              if spec.Ok? then r == Ok(spec.value.1) && Ledgers() == spec.value.0
              else r == Err(spec.error) && Ledgers() == old(Ledgers())
      ensures ZeroAge(recipient) >= old(ZeroAge(recipient))
      ensures legacy == if ZeroAge(recipient) == old(ZeroAge(recipient)) then old(legacy) else old(legacy) - {recipient}
    {
      ClaimOneAdvancesOne(Ledgers(), Surroundings(frozen), recipient, id);
      ClaimOneKeepsSane(Ledgers(), Surroundings(frozen), recipient, id);
      if (recipient, id) !in streams { return Err(ScheduleNotFound); }
      var s := streams[(recipient, id)];
      var done := ClaimSchedule(s, now, settings.feeBps);
      if done.Err? { return Err(done.error); }
      ClaimKeepsReachable(s, now, settings.feeBps);
      var pay := done.value.pay;
      if pay.treasury > 0 && settings.treasury.None? { return Err(Unauthorized); }
      var ok := Disburse(s.token, Parties(recipient, settings.treasury, s.sponsor), pay, frozen);
      if !ok { return Err(TransferFailed); }
      streams := Put(streams, (recipient, id), done.value.next);
      if id == 0 { legacy := legacy - {recipient}; }
      return Ok(pay.Sum());
    }

    /** One pass of the claim loop with its sum: the claims that remain do the rest. */
    method ClaimNext(recipient: Address, ids: seq<U32>, specific: bool, total: I128, frozen: set<Token>)
      returns (r: Result<I128, Error>)
      requires ValidFixed() && ids != []
      modifies this`streams, this`legacy, this`balances
      ensures ValidFixed()
      ensures var spec := old(ClaimEach(Ledgers(), Surroundings(frozen), recipient, ids, specific, total));
              if r.Err? then spec == Err(r.error)
              else spec == ClaimEach(Ledgers(), Surroundings(frozen), recipient, ids[1..], specific, r.value)
      ensures ZeroAge(recipient) >= old(ZeroAge(recipient))
      ensures legacy == if ZeroAge(recipient) == old(ZeroAge(recipient)) then old(legacy) else old(legacy) - {recipient}
    {
      ClaimEachStep(Ledgers(), Surroundings(frozen), recipient, ids, specific, total);
      var claimed := ClaimStream(recipient, ids[0], frozen);
      if claimed.Err? {
        return if specific || !Skippable(claimed.error) then Err(claimed.error) else Ok(total);
      }
      var sum := Checked(total + claimed.value);
      return if sum.None? then Err(DepositOverflow) else Ok(sum.value);
    }

    /** The claim loop. After an error the caller undoes what the passes before it did. */
    method ClaimStreams(recipient: Address, chosen: seq<U32>, specific: bool, frozen: set<Token>)
      returns (r: Result<I128, Error>)
      requires ValidFixed()
      modifies this`streams, this`legacy, this`balances
      ensures ValidFixed()
      ensures var spec := old(ClaimEach(Ledgers(), Surroundings(frozen), recipient, chosen, specific, 0));
              if spec.Err? then r == Err(spec.error) else r == Ok(spec.value.1) && Ledgers() == spec.value.0
      ensures ZeroAge(recipient) >= old(ZeroAge(recipient))
      ensures legacy == if ZeroAge(recipient) == old(ZeroAge(recipient)) then old(legacy) else old(legacy) - {recipient}
    {
      ghost var (env, age, entries) := (Surroundings(frozen), ZeroAge(recipient), legacy);
      ghost var spec := ClaimEach(Ledgers(), env, recipient, chosen, specific, 0);
      var total: I128 := 0;
      var rest := chosen;
      while rest != []
        invariant ValidFixed() && Surroundings(frozen) == env
        invariant spec == ClaimEach(Ledgers(), env, recipient, rest, specific, total)
        invariant ZeroAge(recipient) >= age
        invariant legacy == if ZeroAge(recipient) == age then entries else entries - {recipient}
        decreases |rest|
      {
        var next := ClaimNext(recipient, rest, specific, total, frozen);
        if next.Err? { return next; }
        total, rest := next.value, rest[1..];
      }
      return Ok(total);
    }

    /** The ids that a claim goes through: the one given, or all. */
    static function Chosen(streamId: Option<U32>, ids: seq<U32>): seq<U32> {
      if streamId.Some? then [streamId.value] else ids
    }

    /** A claim of the chosen streams, undone as a whole by any error. */
    method ClaimChosen(recipient: Address, chosen: seq<U32>, specific: bool, frozen: set<Token>)
      returns (r: Result<I128, Error>)
      requires ValidFixed() && Distinct(chosen)
      modifies this`streams, this`legacy, this`balances
      ensures ValidFixed()
      ensures r.Err? ==> Ledgers() == old(Ledgers()) && legacy == old(legacy)
      ensures SurplusKept(old(Ledgers()), Ledgers())
      ensures r.Ok? ==>
                && r.value == old(SumDue(Ledgers(), Surroundings(frozen), recipient, chosen)) > 0
                && ClaimedEach(old(Ledgers()), Ledgers(), Surroundings(frozen), recipient, chosen)
                && legacy == if 0 in chosen && old(DueNow(Ledgers(), Surroundings(frozen), (recipient, 0))).Some?
                             then old(legacy) - {recipient} else old(legacy)
      ensures r.Ok? <==> old(CanClaim(Ledgers(), Surroundings(frozen), recipient, chosen, specific, 0)
                             && SomethingDue(Ledgers(), Surroundings(frozen), recipient, chosen))
      ensures r.Ok? ==> PaidEach(old(Ledgers()), balances, Surroundings(frozen), recipient, chosen)
      ensures var spec := old(ClaimEach(Ledgers(), Surroundings(frozen), recipient, chosen, specific, 0));
              if spec.Err? then r == Err(spec.error)
              else if spec.value.1 == 0 then r == Err(NothingToClaim)
              else r == Ok(spec.value.1) && Ledgers() == spec.value.0
    {
      ClaimSucceedsIff(Ledgers(), Surroundings(frozen), recipient, chosen, specific);
      var (savedStreams, savedLegacy, savedBalances) := (streams, legacy, balances);
      r := ClaimStreams(recipient, chosen, specific, frozen);
      if r == Ok(0) { r := Err(NothingToClaim); }
      if r.Err? {
        streams, legacy, balances := savedStreams, savedLegacy, savedBalances;
        return;
      }
      ClaimEachInAll(old(Ledgers()), old(Surroundings(frozen)), recipient, chosen, specific);
      ClaimEachPays(old(Ledgers()), old(Surroundings(frozen)), recipient, chosen, specific, 0, Ledgers(), r.value);
    }

    /** Claims one stream, or all of the recipient's streams; `ids` is what the storage enumerates
        for the recipient, in ascending order. */
    method ClaimVested(recipient: Address, streamId: Option<U32>, ids: seq<U32>, frozen: set<Token>)
      returns (r: Result<I128, Error>)
      requires Valid() && Distinct(ids)
      modifies this`streams, this`legacy, this`balances
      ensures Valid()
      ensures r.Err? ==> Ledgers() == old(Ledgers()) && legacy == old(legacy)
      ensures SpareKept(old(All()), All())
      ensures var chosen := Chosen(streamId, ids);
              r.Ok? ==>
                && r.value == old(SumDue(Ledgers(), Surroundings(frozen), recipient, chosen)) > 0
                && ClaimedEach(old(Ledgers()), Ledgers(), Surroundings(frozen), recipient, chosen)
                && legacy == if 0 in chosen && old(DueNow(Ledgers(), Surroundings(frozen), (recipient, 0))).Some?
                             then old(legacy) - {recipient} else old(legacy)
      ensures r.Ok? <==>
                && (streamId.Some? || ids != [])
                && old(CanClaim(Ledgers(), Surroundings(frozen), recipient, Chosen(streamId, ids), streamId.Some?, 0))
                && old(SomethingDue(Ledgers(), Surroundings(frozen), recipient, Chosen(streamId, ids)))
      ensures r.Ok? ==> PaidEach(old(Ledgers()), balances, Surroundings(frozen), recipient, Chosen(streamId, ids))
      ensures var chosen := Chosen(streamId, ids);
              var spec := old(ClaimEach(Ledgers(), Surroundings(frozen), recipient, chosen, streamId.Some?, 0));
              if chosen == [] then r == Err(ScheduleNotFound)
              else if spec.Err? then r == Err(spec.error)
              else if spec.value.1 == 0 then r == Err(NothingToClaim)
              else r == Ok(spec.value.1) && Ledgers() == spec.value.0
    {
      var chosen := Chosen(streamId, ids);
      if chosen == [] { return Err(ScheduleNotFound); }
      r := ClaimChosen(recipient, chosen, streamId.Some?, frozen);
      FixedRateOnly(old(All()), Ledgers());
    }

    /** The view: what a claim of stream 0 could take now, before any fee; 0 when it would be refused. */
    method ClaimableAmount(recipient: Address) returns (r: Result<I128, Error>)
      requires Valid()
      ensures var s := GetSchedule(recipient);
              r == Ok(if s.Some? && s.value.pausedAt.None? && now >= s.value.cliff
                      then VestedAt(s.value, now) - s.value.claimed else 0)
    {
      var s := GetSchedule(recipient);
      r := Ok(0);
      if s.Some? && s.value.pausedAt.None? && now >= s.value.cliff {
        r := Claimable(s.value, now);
      }
    }

    // ----- pause and resume, which find only a stream under its legacy key, and move it to id 0 -----

    /** `set_schedule` of a stream found under its legacy key, which owes `less` than before. */
    method StoreBack(recipient: Address, s: Schedule, ghost less: int)
      requires ValidFixed() && recipient in legacy && Reachable(s, now) && s.token == streams[(recipient, 0)].token
      requires Outstanding(s) == Outstanding(streams[(recipient, 0)]) - less
      modifies this`streams, this`legacy
      ensures ValidFixed() && streams == old(streams)[(recipient, 0) := s] && legacy == old(legacy) - {recipient}
      ensures Freed(old(All()), All(), s.token, less) && (less == 0 ==> SpareKept(old(All()), All()))
    {
      ReplacingChangesSpare(All(), (recipient, 0), s, less);
      streams := streams[(recipient, 0) := s];
      legacy := legacy - {recipient};
    }

    method PauseStream(sponsor: Address, recipient: Address) returns (r: Result<(), Error>)
      requires Valid()
      modifies this`streams, this`legacy
      ensures Valid()
      ensures SpareKept(old(All()), All())
      ensures r.Err? ==> streams == old(streams) && legacy == old(legacy)
      ensures r.Ok? ==> legacy == old(legacy) - {recipient}
      ensures var s := old(GetSchedule(recipient));
              if s.None? then r == Err(ScheduleNotFound)
              else if s.value.sponsor != sponsor then r == Err(Unauthorized)
              else
                var spec := PauseEffect(s.value, now);
                if spec.Err? then r == Err(spec.error)
                else r == Ok(()) && streams == Put(old(streams), (recipient, 0), spec.value.next)
      ensures var found := old(GetSchedule(recipient));
              && (r.Ok? <==> found.Some? && found.value.sponsor == sponsor && found.value.pausedAt.None?
                             && found.value.version < U32_MAX)
              && (r.Ok? ==> streams == old(streams)[(recipient, 0) := found.value.(pausedAt := Some(now),
                                                                                   version := found.value.version + 1)])
    {
      var k := (recipient, 0);
      var found := GetSchedule(recipient);
      if found.None? { return Err(ScheduleNotFound); }
      var s := found.value;
      if s.sponsor != sponsor { return Err(Unauthorized); }
      if s.pausedAt.Some? { return Err(StreamAlreadyPaused); }
      s := s.(pausedAt := Some(now));
      if s.version == U32_MAX { return Err(VersionOverflow); }
      s := s.(version := s.version + 1);
      PauseKeepsReachable(streams[k], now);
      StoreBack(recipient, s, 0);
      return Ok(());
    }

    /** A resume leaves every surplus alone unless it saturates; then the surplus grows by what the
        stream will never pay. */
    method ResumeStream(sponsor: Address, recipient: Address) returns (r: Result<(), Error>)
      requires Valid()
      modifies this`streams, this`legacy
      ensures Valid()
      ensures r.Err? ==> SpareKept(old(All()), All())
      ensures r.Ok? ==>
                var s := old(GetSchedule(recipient));
                s.Some? &&
                var lost := s.value.rate * Overshoot(s.value, now);
                Freed(old(All()), All(), s.value.token, lost) && (lost == 0 ==> SpareKept(old(All()), All()))
      ensures r.Err? ==> streams == old(streams) && legacy == old(legacy)
      ensures r.Ok? ==> legacy == old(legacy) - {recipient}
      ensures var s := old(GetSchedule(recipient));
              if s.None? then r == Err(ScheduleNotFound)
              else if s.value.sponsor != sponsor then r == Err(Unauthorized)
              else
                var spec := ResumeEffect(s.value, now);
                if spec.Err? then r == Err(spec.error)
                else r == Ok(()) && streams == Put(old(streams), (recipient, 0), spec.value.next)
    {
      var k := (recipient, 0);
      var found := GetSchedule(recipient);
      if found.None? { return Err(ScheduleNotFound); }
      var s := found.value;
      if s.sponsor != sponsor { return Err(Unauthorized); }
      var resumed := ResumeSchedule(s, now);
      if resumed.Err? { return Err(resumed.error); }
      s := resumed.value;
      ResumeKeepsReachable(streams[k], now);
      StoreBack(recipient, s, streams[k].rate * Overshoot(streams[k], now));
      return Ok(());
    }

    // ----- settling -----

    /** Pays for stream `k`, and removes the recipient's stream with id 0. */
    method PayAndRemove(k: StreamKey, p: Parties, pay: Payout, frozen: set<Token>) returns (ok: bool)
      requires ValidFixed() && k in streams && pay.treasury == 0
      modifies this`streams, this`legacy, this`balances
      ensures ValidFixed()
      ensures legacy == if ok then old(legacy) - {k.0} else old(legacy)
      ensures var moved := PayOut(old(balances), frozen, old(streams)[k].token, p, pay);
              if moved.None? then !ok && Ledgers() == old(Ledgers())
              else ok && Ledgers() == Books(Put(old(streams), (k.0, 0), None), moved.value)
    {
      ok := Disburse(streams[k].token, p, pay, frozen);
      if ok {
        streams := Put(streams, (k.0, 0), None);
        legacy := legacy - {k.0};
      }
    }

    /** The common end of every settlement: pay the stream's remainder, then remove the recipient's
        stream with id 0. That is the stream just paid exactly when its own id is 0. */
    method Settle(k: StreamKey, sponsor: Address, pay: Payout, frozen: set<Token>) returns (ok: bool)
      requires ValidFixed() && k in streams
      requires pay.recipient >= 0 && pay.treasury == 0 && pay.sponsor >= 0 && pay.Sum() == Outstanding(streams[k])
      modifies this`streams, this`legacy, this`balances
      ensures ValidFixed()
      ensures legacy == if ok then old(legacy) - {k.0} else old(legacy)
      ensures ok <==> CanSend(old(Ledgers()), frozen, old(streams)[k].token, Outstanding(old(streams)[k]))
      ensures !ok ==> Ledgers() == old(Ledgers())
      ensures ok ==>
                && streams == Put(old(streams), (k.0, 0), None)
                && Moved(old(balances), balances, old(streams)[k].token, Parties(k.0, None, sponsor), pay)
                && SettledSurplus(old(Ledgers()), Ledgers(), k)
    {
      SettlementFacts(Ledgers(), k, frozen, Parties(k.0, None, sponsor), pay);
      ok := PayAndRemove(k, Parties(k.0, None, sponsor), pay, frozen);
    }

    /** The same for a settlement that returns all of it to the sponsor. */
    method Refund(k: StreamKey, sponsor: Address, amount: I128, frozen: set<Token>) returns (ok: bool)
      requires ValidFixed() && k in streams && 0 <= amount == Outstanding(streams[k])
      modifies this`streams, this`legacy, this`balances
      ensures ValidFixed()
      ensures legacy == if ok then old(legacy) - {k.0} else old(legacy)
      ensures ok <==> CanSend(old(Ledgers()), frozen, old(streams)[k].token, amount)
      ensures !ok ==> Ledgers() == old(Ledgers())
      ensures ok ==>
                && streams == Put(old(streams), (k.0, 0), None)
                && Transferred(old(balances), balances, old(streams)[k].token, Vault, Party(sponsor), amount)
                && SettledSurplus(old(Ledgers()), Ledgers(), k)
    {
      var token := streams[k].token;
      var sent := Send(Some(balances), frozen, token, sponsor, amount);
      ok := sent.Some?;
      if ok {
        RefundFacts(Ledgers(), k, frozen, sponsor, amount);
        balances := sent.value;
        streams := Put(streams, (k.0, 0), None);
        legacy := legacy - {k.0};
      }
    }

    /** Pays out the named stream, but removes the stream with id 0. */
    method CancelStream(sponsor: Address, recipient: Address, id: U32, frozen: set<Token>)
      returns (r: Result<(), Error>)
      requires Valid()
      modifies this`streams, this`legacy, this`balances
      ensures Valid()
      ensures r.Err? ==> Ledgers() == old(Ledgers()) && legacy == old(legacy)
      ensures r.Ok? ==> legacy == old(legacy) - {recipient}
      ensures var k := (recipient, id);
              if sponsor == recipient then r == Err(InvalidRecipient)
              else if k !in old(streams) then r == Err(ScheduleNotFound)
              else if old(streams)[k].sponsor != sponsor then r == Err(Unauthorized)
              else
                var (s, spec) := (old(streams)[k], CancelEffect(old(streams)[k], now));
                if spec.Err? then r == Err(spec.error)
                else if !CanSend(old(Ledgers()), frozen, s.token, Outstanding(s)) then r == Err(TransferFailed)
                else
                  && r == Ok(())
                  && streams == Put(old(streams), (recipient, 0), None)
                  && Moved(old(balances), balances, s.token, Parties(recipient, None, sponsor), spec.value.pay)
      ensures r.Ok? ==>
                var s := old(streams)[(recipient, id)];
                var vested := VestedAt(s, if s.pausedAt.Some? then s.pausedAt.value else now);
                forall t, h ::
                  BalanceOf(balances, t, h) == BalanceOf(old(balances), t, h)
                    + (if t == s.token && h == Party(recipient) then vested - s.claimed else 0)
                    + (if t == s.token && h == Party(sponsor) then s.rate * (s.end - s.start) - vested else 0)
                    - (if t == s.token && h == Vault then s.rate * (s.end - s.start) - s.claimed else 0)
      ensures r.Ok? ==> ((recipient, id) !in streams <==> id == 0)
      ensures r.Ok? ==>
                var (zero, paid) := (old(Lookup(streams, (recipient, 0))), old(streams)[(recipient, id)]);
                SpareKept(old(All()), All()) <==> OwesAlike(zero, paid)
      ensures r.Ok? ==> id == 0 || (recipient, id) in older
      ensures id == 0 || (recipient, id) !in older ==> SpareKept(old(All()), All())
    {
      var k := (recipient, id);
      if sponsor == recipient { return Err(InvalidRecipient); }
      if k !in streams { return Err(ScheduleNotFound); }
      var s := streams[k];
      if s.sponsor != sponsor { return Err(Unauthorized); }
      var shares := CancelShares(s, now);
      if shares.Err? { return Err(shares.error); }
      var ok := Settle(k, sponsor, shares.value, frozen);
      FixedRateOnly(old(All()), Ledgers());
      r := if ok then Ok(()) else Err(TransferFailed);
    }

    /** Returns the rest of the stream to its sponsor, if the token supports clawback. */
    method ClawbackStream(sponsor: Address, recipient: Address, id: U32, clawable: bool, frozen: set<Token>)
      returns (r: Result<(), Error>)
      requires Valid()
      modifies this`streams, this`legacy, this`balances
      ensures Valid()
      ensures r.Err? ==> Ledgers() == old(Ledgers()) && legacy == old(legacy)
      ensures r.Ok? ==> legacy == old(legacy) - {recipient}
      ensures var k := (recipient, id);
              if k !in old(streams) then r == Err(ScheduleNotFound)
              else if old(streams)[k].sponsor != sponsor then r == Err(Unauthorized)
              else if !clawable then r == Err(ClawbackNotSupported)
              else
                var s := old(streams)[k];
                if !CanSend(old(Ledgers()), frozen, s.token, Outstanding(s)) then r == Err(TransferFailed)
                else
                  && r == Ok(())
                  && streams == Put(old(streams), (recipient, 0), None)
                  && Transferred(old(balances), balances, s.token, Vault, Party(sponsor), Outstanding(s))
      ensures r.Ok? ==> ((recipient, id) !in streams <==> id == 0)
      ensures r.Ok? ==>
                var (zero, paid) := (old(Lookup(streams, (recipient, 0))), old(streams)[(recipient, id)]);
                SpareKept(old(All()), All()) <==> OwesAlike(zero, paid)
      ensures r.Ok? ==> id == 0 || (recipient, id) in older
      ensures id == 0 || (recipient, id) !in older ==> SpareKept(old(All()), All())
    {
      var k := (recipient, id);
      if k !in streams { return Err(ScheduleNotFound); }
      var s := streams[k];
      if s.sponsor != sponsor { return Err(Unauthorized); }
      if !clawable { return Err(ClawbackNotSupported); }
      var remaining := ClawbackAmount(s, now);
      var ok := Refund(k, sponsor, remaining, frozen);
      FixedRateOnly(old(All()), Ledgers());
      r := if ok then Ok(()) else Err(TransferFailed);
    }

    /** Recovers the rest of a stream that ended long ago. It does not look at a pause. */
    method EmergencyDrain(sponsor: Address, recipient: Address, frozen: set<Token>) returns (r: Result<(), Error>)
      requires Valid()
      modifies this`streams, this`legacy, this`balances
      ensures Valid()
      ensures r.Err? ==> Ledgers() == old(Ledgers()) && legacy == old(legacy)
      ensures r.Ok? ==> legacy == old(legacy) - {recipient}
      ensures var found := old(GetSchedule(recipient));
              if found.None? then r == Err(ScheduleNotFound)
              else if found.value.sponsor != sponsor then r == Err(Unauthorized)
              else
                var (s, spec) := (found.value, DrainEffect(found.value, now));
                if spec.Err? then r == Err(spec.error)
                else if !CanSend(old(Ledgers()), frozen, s.token, Outstanding(s)) then r == Err(TransferFailed)
                else
                  && r == Ok(())
                  && streams == Put(old(streams), (recipient, 0), None)
                  && Transferred(old(balances), balances, s.token, Vault, Party(sponsor), Outstanding(s))
      ensures SpareKept(old(All()), All())
    {
      var k := (recipient, 0);
      var found := GetSchedule(recipient);
      if found.None? { return Err(ScheduleNotFound); }
      var s := found.value;
      if s.sponsor != sponsor { return Err(Unauthorized); }
      var amount := DrainAmount(s, now);
      if amount.Err? { return Err(amount.error); }
      var ok := Refund(k, sponsor, amount.value, frozen);
      FixedRateOnly(old(All()), Ledgers());
      r := if ok then Ok(()) else Err(TransferFailed);
    }

    // ----- variable-rate streams -----

    /** Takes the deposit of a variable-rate stream, and stores it. The deposit is what it will pay. */
    method CreateVariableRateStream(sponsor: Address, recipient: Address, token: Token, cliffDuration: U32,
                                    segments: seq<Segment>, frozen: set<Token>)
      returns (r: Result<(), VariableStream.Error>)
      requires Valid()
      modifies this`variable, this`balances
      ensures Valid()
      ensures SpareKept(old(All()), All())
      ensures r.Err? ==> variable == old(variable) && balances == old(balances)
      ensures if !settings.initialized then r == Err(VariableStream.NotInitialized)
              else if sponsor == recipient then r == Err(VariableStream.InvalidRecipient)
              else if recipient in old(variable) || (recipient, 0) in streams
              then r == Err(VariableStream.ScheduleAlreadyExists)
              else if |segments| == 0 || |segments| > 10
              then r == Err(VariableStream.InvalidSegments)
              else if now + cliffDuration > U32_MAX then r == Err(VariableStream.DepositOverflow)
              else if !VariableStream.Accepted(segments, now)
              then r == Err(VariableStream.InvalidSegments) || r == Err(VariableStream.DepositOverflow)
              else if token in frozen
                      || BalanceOf(old(balances), token, Party(sponsor)) < Released(segments, now, Last(segments).end)
              then r == Err(VariableStream.TransferFailed)
              else
                && r == Ok(())
                && recipient in variable && variable == old(variable)[recipient := variable[recipient]]
                && VariableStream.CreatedFrom(variable[recipient], token, sponsor, segments, now, cliffDuration)
                && variable[recipient].cliff == now + cliffDuration && variable[recipient].end == Last(segments).end
                && variable[recipient].start == variable[recipient].lastClaimed == now
                && variable[recipient].token == token && variable[recipient].sponsor == sponsor
                && variable[recipient].segments == segments
                && variable[recipient].deposited == Released(segments, now, Last(segments).end)
                && variable[recipient].claimed == variable[recipient].totalClaimed == 0
                && Transferred(old(balances), balances, token, Party(sponsor), Vault, variable[recipient].deposited)
    {
      if !settings.initialized { return Err(VariableStream.NotInitialized); }
      if sponsor == recipient { return Err(VariableStream.InvalidRecipient); }
      if recipient in variable || (recipient, 0) in streams { return Err(VariableStream.ScheduleAlreadyExists); }
      if |segments| == 0 || |segments| > VariableStream.MAX_SEGMENTS { return Err(VariableStream.InvalidSegments); }
      var cliff := CheckedU32(now + cliffDuration);
      if cliff.None? { return Err(VariableStream.DepositOverflow); }
      var deposit := VariableStream.PriceSegments(segments, now);
      if deposit.Err? { return Err(deposit.error); }
      ReleasedSigns(segments, now, Last(segments).end);
      var s := VariableStream.Schedule(token, sponsor, now, cliff.value, Last(segments).end, now, deposit.value, 0, 0,
                                       segments, None);
      VariableStream.CreatedIsReachable(s, token, sponsor, segments, now, cliffDuration);
      var ok := MoveVariable(recipient, token, Party(sponsor), Vault, deposit.value, Some(s), frozen);
      if !ok { return Err(VariableStream.TransferFailed); }
      return Ok(());
    }

    /** Pays what has been released since the last claim. */
    method ClaimVariableVested(recipient: Address, frozen: set<Token>) returns (r: Result<I128, VariableStream.Error>)
      requires Valid()
      modifies this`variable, this`balances
      ensures Valid()
      ensures SpareKept(old(All()), All())
      ensures r.Err? ==> variable == old(variable) && balances == old(balances)
      ensures if recipient !in old(variable) then r == Err(VariableStream.ScheduleNotFound)
              else
                var (s, spec) := (old(variable)[recipient], VariableStream.ClaimEffect(old(variable)[recipient], now));
                if spec.Err? then r == Err(spec.error)
                else if s.token in frozen || BalanceOf(old(balances), s.token, Vault) < spec.value.amount
                then r == Err(VariableStream.TransferFailed)
                else
                  && r == Ok(spec.value.amount)
                  && variable == Put(old(variable), recipient, spec.value.next)
                  && Transferred(old(balances), balances, s.token, Vault, Party(recipient), spec.value.amount)
    {
      if recipient !in variable { return Err(VariableStream.ScheduleNotFound); }
      var s := variable[recipient];
      if s.pausedAt.Some? { return Err(VariableStream.StreamPaused); }
      if now < s.cliff { return Err(VariableStream.CliffNotReached); }
      var claimable := VariableStream.ClaimableNow(s, now);
      if claimable == 0 { return Err(VariableStream.NothingToClaim); }
      VariableStream.ClaimKeepsReachable(s, now);
      var next := VariableStream.Recorded(s, now, claimable);
      var ok := MoveVariable(recipient, s.token, Vault, Party(recipient), claimable, next, frozen);
      if !ok { return Err(VariableStream.TransferFailed); }
      return Ok(claimable);
    }

    /** Moves `amount`, the difference in what the recipient is owed, and stores the record that owes it. */
    method MoveVariable(recipient: Address, token: Token, from: Holder, to: Holder, amount: I128,
                        next: Option<VariableStream.Schedule>, frozen: set<Token>) returns (ok: bool)
      requires ValidVariable() && from != to && amount >= 0
      requires next.Some? ==> VariableStream.Reachable(next.value, now) && next.value.token == token
      requires recipient in variable ==> variable[recipient].token == token
      requires Change(token, from, to, amount, token, Vault)
            == (if next.Some? then VariableStream.Outstanding(next.value) else 0)
               - (if recipient in variable then VariableStream.Outstanding(variable[recipient]) else 0)
      modifies this`variable, this`balances
      ensures ValidVariable()
      ensures SpareKept(old(All()), All())
      ensures ok <==> token !in frozen && amount <= BalanceOf(old(balances), token, from)
      ensures if ok
              then variable == Put(old(variable), recipient, next)
                   && Transferred(old(balances), balances, token, from, to, amount)
              else variable == old(variable) && balances == old(balances)
    {
      var moved := Transfer(balances, frozen, token, from, to, amount);
      ok := moved.Some?;
      if ok {
        TransferDone(balances, frozen, token, from, to, amount);
        VariableOnly(All(), recipient, next, moved.value, token, from, to, amount);
        balances := moved.value;
        variable := Put(variable, recipient, next);
      }
    }

    /** The view: what a claim would pay now, or 0. */
    method ClaimableVariableAmount(recipient: Address) returns (amount: I128)
      requires Valid()
      ensures amount == if recipient in variable && VariableStream.ClaimEffect(variable[recipient], now).Ok?
                        then VariableStream.ClaimEffect(variable[recipient], now).value.amount else 0
    {
      amount := VariableStream.ClaimableVariableAmount(Lookup(variable, recipient), now);
    }

    // ----- milestone streams -----

    method CreateMilestoneStream(sponsor: Address, recipient: Address, token: Token, deposit: I128,
                                 list: seq<Milestones.Milestone>, frozen: set<Token>)
      returns (r: Result<(), Milestones.Error>)
      requires Valid()
      modifies this`milestones, this`balances
      ensures Valid()
      ensures SpareKept(old(All()), All())
      ensures r.Err? ==> milestones == old(milestones) && balances == old(balances)
      ensures if recipient in old(milestones) then r == Err(Milestones.ScheduleAlreadyExists)
              else if !Milestones.Accepted(list, maxMilestones) then r == Err(Milestones.InvalidMilestones)
              else if deposit < settings.minDeposit then r == Err(Milestones.DepositBelowMinimum)
              else if token in frozen || deposit < 0 || BalanceOf(old(balances), token, Party(sponsor)) < deposit
              then r == Err(Milestones.TransferFailed)
              else
                && r == Ok(())
                && milestones == old(milestones)[recipient := Milestones.Schedule(token, sponsor, deposit, list, 0, 0)]
                && Transferred(old(balances), balances, token, Party(sponsor), Vault, deposit)
    {
      if recipient in milestones { return Err(Milestones.ScheduleAlreadyExists); }
      var valid := Milestones.ValidateMilestones(list, maxMilestones);
      if !valid { return Err(Milestones.InvalidMilestones); }
      if deposit < settings.minDeposit { return Err(Milestones.DepositBelowMinimum); }
      if deposit < 0 { return Err(Milestones.TransferFailed); }
      var s := Milestones.Schedule(token, sponsor, deposit, list, 0, 0);
      var ok := MoveMilestone(recipient, Party(sponsor), Vault, deposit, s, frozen);
      if !ok { return Err(Milestones.TransferFailed); }
      return Ok(());
    }

    /** Pays the milestones that are reached and not yet claimed. */
    method ClaimMilestone(recipient: Address, frozen: set<Token>) returns (r: Result<I128, Milestones.Error>)
      requires Valid()
      modifies this`milestones, this`balances
      ensures Valid()
      ensures SpareKept(old(All()), All())
      ensures r.Err? ==> milestones == old(milestones) && balances == old(balances)
      ensures if recipient !in old(milestones) then r == Err(Milestones.ScheduleNotFound)
              else
                var (s, spec) := (old(milestones)[recipient], Milestones.ClaimEffect(old(milestones)[recipient], now));
                if spec.Err? then r == Err(spec.error)
                else if s.token in frozen || BalanceOf(old(balances), s.token, Vault) < spec.value.amount
                then r == Err(Milestones.TransferFailed)
                else
                  && r == Ok(spec.value.amount)
                  && milestones == old(milestones)[recipient := Milestones.AfterClaim(s, now, maxMilestones)]
                  && Transferred(old(balances), balances, s.token, Vault, Party(recipient), spec.value.amount)
    {
      if recipient !in milestones { return Err(Milestones.ScheduleNotFound); }
      var s := milestones[recipient];
      var claim := Milestones.ComputeClaim(s, now, maxMilestones);
      if claim.Err? { return Err(claim.error); }
      var (claimable, next) := claim.value;
      var ok := MoveMilestone(recipient, Vault, Party(recipient), claimable, next, frozen);
      if !ok { return Err(Milestones.TransferFailed); }
      return Ok(claimable);
    }

    method MoveMilestone(recipient: Address, from: Holder, to: Holder, amount: I128, s: Milestones.Schedule,
                         frozen: set<Token>) returns (ok: bool)
      requires ValidMilestones() && from != to && amount >= 0
      requires Milestones.Reachable(s, now, maxMilestones)
      requires recipient in milestones ==> milestones[recipient].token == s.token
      requires Change(s.token, from, to, amount, s.token, Vault)
            == Milestones.DebtOf(s).amount
               - (if recipient in milestones then Milestones.DebtOf(milestones[recipient]).amount else 0)
      modifies this`milestones, this`balances
      ensures ValidMilestones()
      ensures SpareKept(old(All()), All())
      ensures ok <==> s.token !in frozen && amount <= BalanceOf(old(balances), s.token, from)
      ensures if ok
              then milestones == old(milestones)[recipient := s]
                   && Transferred(old(balances), balances, s.token, from, to, amount)
              else milestones == old(milestones) && balances == old(balances)
    {
      var moved := Transfer(balances, frozen, s.token, from, to, amount);
      ok := moved.Some?;
      if ok {
        TransferDone(balances, frozen, s.token, from, to, amount);
        MilestonesOnly(All(), recipient, s, moved.value, from, to, amount);
        balances := moved.value;
        milestones := milestones[recipient := s];
      }
    }
  }

  // ----- what does not hold of the entry points -----

  /** A pause writes the stream back under id 0, where `get_schedule` does not look. So no later resume,
      pause, drain or view finds it, and no claim pays it while it is paused. */
  method PausedForGood(vault: VestingDrips, sponsor: Address, recipient: Address, later: U32, ids: seq<U32>,
                       frozen: set<Token>)
    returns (paused: bool, resumed: Result<(), Error>, drained: Result<(), Error>, claimed: Result<I128, Error>,
             shown: Result<I128, Error>)
    requires vault.Valid() && later >= vault.now && Distinct(ids)
    modifies vault
    ensures paused <==> old(vault.GetSchedule(recipient).Some? && vault.GetSchedule(recipient).value.sponsor == sponsor
                            && PauseEffect(vault.GetSchedule(recipient).value, vault.now).Ok?)
    ensures paused ==>
              && resumed == Err(ScheduleNotFound) && drained == Err(ScheduleNotFound)
              && claimed == Err(NothingToClaim) && shown == Ok(0)
              && (recipient, 0) in vault.streams && vault.streams[(recipient, 0)].pausedAt == Some(old(vault.now))
  {
    var pausing := vault.PauseStream(sponsor, recipient);
    paused := pausing.Ok?;
    vault.Advance(later);
    resumed := vault.ResumeStream(sponsor, recipient);
    drained := vault.EmergencyDrain(sponsor, recipient, frozen);
    claimed := vault.ClaimVested(recipient, Some(0), ids, frozen);
    shown := vault.ClaimableAmount(recipient);
  }

  method CancelledOnce(vault: VestingDrips, sponsor: Address, recipient: Address, id: U32, frozen: set<Token>)
    returns (r: Result<(), Error>)
    requires vault.Valid() && sponsor != recipient && id != 0 && (recipient, id) in vault.streams
    requires vault.streams[(recipient, id)].sponsor == sponsor && vault.streams[(recipient, id)].version < U32_MAX
    requires Outstanding(vault.streams[(recipient, id)]) == 0 || vault.streams[(recipient, id)].token !in frozen
    requires Outstanding(vault.streams[(recipient, id)])
             <= BalanceOf(vault.balances, vault.streams[(recipient, id)].token, Vault)
    modifies vault`streams, vault`legacy, vault`balances
    ensures vault.Valid() && r == Ok(()) && vault.streams == Put(old(vault.streams), (recipient, 0), None)
    ensures var s := old(vault.streams[(recipient, id)]);
            BalanceOf(vault.balances, s.token, Vault) == BalanceOf(old(vault.balances), s.token, Vault) - Outstanding(s)
  {
    r := vault.CancelStream(sponsor, recipient, id, frozen);
  }

  /** A stream with an id other than 0 is paid by a cancel and stays. So the same cancel succeeds again
      and pays the same again, as often as the vault can: twice, when it holds the amount twice. */
  method CancelledTwice(vault: VestingDrips, sponsor: Address, recipient: Address, id: U32, frozen: set<Token>)
    returns (first: Result<(), Error>, second: Result<(), Error>)
    requires vault.Valid() && sponsor != recipient && id != 0 && (recipient, id) in vault.streams
    requires vault.streams[(recipient, id)].sponsor == sponsor && vault.streams[(recipient, id)].version < U32_MAX
    requires Outstanding(vault.streams[(recipient, id)]) == 0 || vault.streams[(recipient, id)].token !in frozen
    requires 2 * Outstanding(vault.streams[(recipient, id)])
             <= BalanceOf(vault.balances, vault.streams[(recipient, id)].token, Vault)
    modifies vault`streams, vault`legacy, vault`balances
    ensures vault.Valid() && vault.streams == Put(old(vault.streams), (recipient, 0), None)
    ensures first == second == Ok(())
    ensures (recipient, id) in vault.streams && vault.streams[(recipient, id)] == old(vault.streams[(recipient, id)])
    ensures var s := old(vault.streams[(recipient, id)]);
            BalanceOf(vault.balances, s.token, Vault)
              == BalanceOf(old(vault.balances), s.token, Vault) - 2 * Outstanding(s)
  {
    VestedBounds(vault.streams[(recipient, id)], vault.now);
    first := CancelledOnce(vault, sponsor, recipient, id, frozen);
    second := CancelledOnce(vault, sponsor, recipient, id, frozen);
  }

  /** An input, from its deployment on: an older contract has left a stream 1 that is owed 10, and the account holds
      20. Two cancels in a row empty it, and the stream is still there. */
  method CancelledTwiceExample(s: Schedule)
    returns (vault: VestingDrips, first: Result<(), Error>, second: Result<(), Error>)
    requires s == Schedule(0, 5, 1, 100, 105, 110, 100, 0, 0, None, 0, 1)
    ensures vault.Valid() && first == second == Ok(())
    ensures vault.streams == map[(7, 1) := s] && BalanceOf(vault.balances, 0, Vault) == 0
    ensures Outstanding(s) == 10
  {
    var settings := Settings(true, 0, None, 1, 1, 10_000);
    vault := new VestingDrips(map[(7, 1) := s], {}, map[(0, Vault) := 20], 103, settings, 10);
    first, second := CancelledTwice(vault, 5, 7, 1, {});
  }

  /** What creation does to the account that it does not fund. */
  method CreatedUnfunded(vault: VestingDrips, sponsor: Address, recipient: Address, token: Token, terms: Terms,
                         found: Findings, newId: Option<U32>, frozen: set<Token>) returns (r: Result<U32, Error>)
    requires vault.Valid()
    modifies vault
    ensures r.Ok? ==>
              && Shortfall(terms, vault.settings) > 0
              && FallsShort(old(vault.All()), vault.All(), old(Lookup(vault.streams, (recipient, 0))), token,
                            Shortfall(terms, vault.settings))
  {
    ghost var before := vault.All();
    r := vault.CreateVestingStream(sponsor, recipient, token, terms, found, newId, frozen);
    if r.Ok? {
      var s := NewSchedule(sponsor, token, terms, vault.now);
      NewScheduleFacts(sponsor, token, terms, vault.now);
      CreationFallsShort(before, recipient, s, vault.balances, Deposit(terms), vault.settings);
    }
  }

  /** A stream of one token a ledger, scaled by RATE_DECIMALS: ten tokens are deposited, and a hundred million
      are claimed at its end. */
  lemma TenFunded(terms: Terms, s: Schedule)
    requires terms == Terms(RATE_DECIMALS, 1, 10) && s == NewSchedule(5, 0, terms, 100)
    ensures Admissible(terms, Settings(true, 0, None, 1, 1, 10_000), Findings(true, true, 0), 100)
    ensures Deposit(terms) == 10
    ensures Reachable(s, 110) && ClaimEffect(s, 110, 0) == Ok(Effect(None, Payout(100_000_000, 0, 0)))
  {}

  /** So when that is the first stream of a deployment, its claim fails although the token does not refuse. */
  method UnfundedExample(ghost s: Schedule) returns (created: Result<U32, Error>, claimed: Result<I128, Error>)
    requires s == NewSchedule(5, 0, Terms(RATE_DECIMALS, 1, 10), 100)
    ensures created == Ok(0) && claimed == Err(TransferFailed)
  {
    var terms := Terms(RATE_DECIMALS, 1, 10);
    TenFunded(terms, s);
    var settings := Settings(true, 0, None, 1, 1, 10_000);
    var vault := new VestingDrips(map[], {}, map[(0, Party(5)) := 10], 100, settings, 10);
    created := vault.CreateVestingStream(5, 7, 0, terms, Findings(true, true, 0), Some(0), {});
    assert vault.streams == map[(7, 0) := s] && BalanceOf(vault.balances, 0, Vault) == 10;
    vault.Advance(110);
    claimed := vault.ClaimVested(7, Some(0), [], {});
  }

  /** A stream of ten ledgers which is paused after its first one and resumed three ledgers later has its end
      moved as far as u32 reaches, one ledger instead of three: of the 45 tokens that it owed, ten are lost. */
  lemma SaturatedResume(s: Schedule, t: Schedule)
    requires s == Schedule(0, 5, 5, U32_MAX - 10, U32_MAX - 9, U32_MAX - 1, U32_MAX - 10, 0, 0, Some(U32_MAX - 9), 0, 1)
    requires t == Schedule(0, 5, 5, U32_MAX - 7, U32_MAX - 6, U32_MAX, U32_MAX - 7, 0, 0, None, 3, 2)
    ensures Reachable(s, U32_MAX - 9) && ResumeEffect(s, U32_MAX - 6) == Ok(Effect(Some(t), NOTHING))
    ensures Outstanding(s) == 45 && ClawbackEffect(t).pay == Payout(0, 0, 35)
  {}

  /** So when an older deployment has left such a stream paused, its resume and then its clawback return 35 and
      leave 10 in the account that are nobody's. */
  method SaturatedResumeExample(s: Schedule, ghost t: Schedule)
    returns (vault: VestingDrips, resumed: Result<(), Error>, settled: Result<(), Error>)
    requires s == Schedule(0, 5, 5, U32_MAX - 10, U32_MAX - 9, U32_MAX - 1, U32_MAX - 10, 0, 0, Some(U32_MAX - 9), 0, 1)
    requires t == Schedule(0, 5, 5, U32_MAX - 7, U32_MAX - 6, U32_MAX, U32_MAX - 7, 0, 0, None, 3, 2)
    ensures resumed == settled == Ok(()) && vault.Valid() && vault.streams == map[]
    ensures BalanceOf(vault.balances, 0, Party(5)) == 35 && BalanceOf(vault.balances, 0, Vault) == 10
  {
    SaturatedResume(s, t);
    var settings := Settings(true, 0, None, 1, 1, 10_000);
    vault := new VestingDrips(map[(7, 0) := s], {7}, map[(0, Vault) := 45], U32_MAX - 9, settings, 10);
    vault.Advance(U32_MAX - 6);
    resumed := vault.ResumeStream(5, 7);
    assert vault.streams == map[(7, 0) := t];
    settled := vault.ClawbackStream(5, 7, 0, true, {});
  }
}
