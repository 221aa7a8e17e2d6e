/** The stream-status machine of the backend: the service's table of transitions, the database trigger
    that checks and records each change, and the bulk expiry. */
module StreamStatus {
  import opened Wrappers

  type Address = nat

  datatype Status = Active | PreCliff | Expired | Cancelled | Drained | ClawedBack

  datatype TriggeringEvent =
    | StreamCreated | TokensClaimed | StreamCancelled | StreamDrained | StreamClawedBack | BackgroundExpiryJob

  datatype Error = StreamNotFound | InvalidTransition(from: Status, to: Status)

  // ----- the transition tables -----

  /** The table in the service. */
  function ValidTransitions(from: Status): seq<Status> {
    match from
    case Active => [Cancelled, Expired, ClawedBack]
    case PreCliff => [Status.Active, Cancelled, Expired, ClawedBack]
    case Expired => [Drained]
    case _ => []
  }

  predicate IsValidTransition(from: Status, to: Status) {
    from == to || to in ValidTransitions(from)
  }

  /** The check of the first migration. */
  predicate CheckBeforeClawback(from: Status, to: Status) {
    || from == to
    || (from == Active && (to == Cancelled || to == Expired))
    || (from == PreCliff && (to == Active || to == Cancelled || to == Expired))
    || (from == Expired && to == Drained)
  }

  /** The check of the database trigger, as the later migration replaced it. */
  predicate CheckTransition(from: Status, to: Status) {
    || from == to
    || (from == Active && (to == Cancelled || to == Expired || to == ClawedBack))
    || (from == PreCliff && (to == Active || to == Cancelled || to == Expired || to == ClawedBack))
    || (from == Expired && to == Drained)
  }

  function Rank(s: Status): nat {
    match s
    case PreCliff => 0
    case Active => 1
    case Expired => 2
    case _ => 3
  }

  predicate Terminal(s: Status) { s == Cancelled || s == Drained || s == ClawedBack }

  /** Service and trigger allow the same transitions, which are these eight changes; the first migration's
      check differs from them exactly on the clawbacks. Every real change raises the rank. */
  lemma TablesAgree(from: Status, to: Status)
    ensures IsValidTransition(from, to) <==> CheckTransition(from, to)
    ensures CheckTransition(from, to) && from != to <==>
            (from, to) in {(PreCliff, Active), (PreCliff, Cancelled), (PreCliff, Expired), (PreCliff, ClawedBack),
                           (Active, Cancelled), (Active, Expired), (Active, ClawedBack), (Expired, Drained)}
    ensures CheckTransition(from, to) && !CheckBeforeClawback(from, to)
            <==> to == ClawedBack && (from == Active || from == PreCliff)
    ensures CheckTransition(from, to) && from != to ==> Rank(from) < Rank(to)
  {}

  /** The terminal states are exactly those that nothing leaves. */
  lemma TerminalMeansStuck(from: Status)
    ensures Terminal(from) <==> forall to :: CheckTransition(from, to) ==> to == from
  {
    assert CheckTransition(Active, Cancelled) && CheckTransition(PreCliff, Active) && CheckTransition(Expired, Drained);
  }

  // ----- the audit trail -----

  datatype AuditRow = AuditRow(from: Status, to: Status, event: Option<TriggeringEvent>, ledger: Option<int>)

  /** The rows lead, one allowed change after the other, from the first status to the last. */
  predicate Chain(trail: seq<AuditRow>, first: Status, last: Status) {
    if trail == [] then first == last
    else
      var row := Last(trail);
      && row.to == last
      && row.from != row.to && CheckTransition(row.from, row.to)
      && Chain(trail[..|trail| - 1], first, row.from)
  }

  /** Replaying a trail gives the current status, after at most three changes; a stream that starts
      in a terminal state has no changes at all. */
  lemma {:induction false} TrailIsShort(trail: seq<AuditRow>, first: Status, last: Status)
    requires Chain(trail, first, last)
    ensures |trail| <= Rank(last) - Rank(first) <= 3
    ensures Terminal(first) ==> trail == [] && last == first
  {
    if trail != [] {
      var row := Last(trail);
      TablesAgree(row.from, row.to);
      TrailIsShort(trail[..|trail| - 1], first, row.from);
      if Terminal(first) { TerminalMeansStuck(first); }
    }
  }

  /** Row `i` of a trail starts where row `i - 1` ended, the first one at the first status. */
  lemma {:induction false} RowsLinkUp(trail: seq<AuditRow>, first: Status, last: Status, i: nat)
    requires Chain(trail, first, last) && i < |trail|
    ensures trail[i].from == if i == 0 then first else trail[i - 1].to
    ensures Rank(first) <= Rank(trail[i].from) < Rank(trail[i].to) <= Rank(last)
    decreases |trail|
  {
    var row := Last(trail);
    TablesAgree(row.from, row.to);
    TrailIsShort(trail[..|trail| - 1], first, row.from);
    if i < |trail| - 1 {
      RowsLinkUp(trail[..|trail| - 1], first, row.from, i);
    } else if i > 0 {
      assert Last(trail[..|trail| - 1]) == trail[i - 1];
    }
  }

  /** A trail never has the same change twice, so the row that carries a given change is the only one. */
  lemma {:induction false} ChangesAreUnique(trail: seq<AuditRow>, first: Status, last: Status, i: nat, j: nat)
    requires Chain(trail, first, last) && i < j < |trail|
    ensures Rank(trail[i].to) <= Rank(trail[j].from)
    ensures (trail[i].from, trail[i].to) != (trail[j].from, trail[j].to)
    decreases j
  {
    RowsLinkUp(trail, first, last, i);
    RowsLinkUp(trail, first, last, j);
    if i < j - 1 {
      ChangesAreUnique(trail, first, last, i, j - 1);
      RowsLinkUp(trail, first, last, j - 1);
    }
  }

  lemma Extended(trail: seq<AuditRow>, first: Status, last: Status, row: AuditRow)
    requires Chain(trail, first, last) && row.from == last && row.from != row.to && CheckTransition(row.from, row.to)
    ensures Chain(trail + [row], first, row.to)
  {
    assert (trail + [row])[..|trail|] == trail;
  }

  /** The trail with event data added to its latest row; what is not given stays as it was. */
  function Annotated(trail: seq<AuditRow>, event: Option<TriggeringEvent>, ledger: Option<int>): seq<AuditRow>
    requires trail != []
  {
    var row := Last(trail);
    trail[..|trail| - 1] + [row.(event := if event.Some? then event else row.event,
                                 ledger := if ledger.Some? then ledger else row.ledger)]
  }

  lemma AnnotatedAfterAppend(trail: seq<AuditRow>, from: Status, to: Status, event: Option<TriggeringEvent>,
                             ledger: Option<int>)
    ensures Annotated(trail + [AuditRow(from, to, None, None)], event, ledger)
            == trail + [AuditRow(from, to, event, ledger)]
  {
    assert (trail + [AuditRow(from, to, None, None)])[..|trail|] == trail;
  }

  // ----- the tables -----

  datatype Row = Row(status: Status, updatedAt: int, endLedger: int)

  /** What the trigger does to a row and its trail when the status changes at time `now`. */
  function Changed(row: Row, to: Status, now: int): Row { row.(status := to, updatedAt := now) }

  predicate Expirable(row: Row, currentLedger: int) {
    (row.status == Active || row.status == PreCliff) && row.endLedger < currentLedger
  }

  class StatusTables {
    var rows: map<Address, Row>
    var audit: map<Address, seq<AuditRow>>
    /** The status each stream was inserted with. */
    ghost var initial: map<Address, Status>

    /** Every trail replays from the initial status to the current one. */
    ghost predicate Valid()
      reads this
    {
      && audit.Keys == rows.Keys == initial.Keys
      && forall a :: a in rows ==> Chain(audit[a], initial[a], rows[a].status)
    }

    constructor ()
      ensures Valid() && rows == map[]
    {
      rows, audit, initial := map[], map[], map[];
    }

    method Insert(a: Address, status: Status, endLedger: int, now: int)
      requires Valid() && a !in rows
      modifies this
      ensures Valid()
      ensures rows == old(rows)[a := Row(status, now, endLedger)] && audit == old(audit)[a := []]
      ensures initial == old(initial)[a := status]
    {
      rows := rows[a := Row(status, now, endLedger)];
      audit := audit[a := []];
      initial := initial[a := status];
    }

    /** `UPDATE vesting_streams SET status`, with the trigger around it: the trigger checks the change,
        appends an audit row without event data, and dates the change. */
    method UpdateStatus(a: Address, to: Status, now: int) returns (ok: bool)
      requires Valid() && a in rows
      modifies this`rows, this`audit
      ensures Valid()
      ensures ok <==> CheckTransition(old(rows)[a].status, to)
      ensures !ok || old(rows)[a].status == to ==> rows == old(rows) && audit == old(audit)
      ensures ok && old(rows)[a].status != to ==>
                && rows == old(rows)[a := old(rows)[a].(status := to, updatedAt := now)]
                && audit == old(audit)[a := old(audit)[a] + [AuditRow(old(rows)[a].status, to, None, None)]]
    {
      var from := rows[a].status;
      if from != to {
        if !CheckTransition(from, to) { return false; }
        Extended(audit[a], initial[a], from, AuditRow(from, to, None, None));
        audit := audit[a := audit[a] + [AuditRow(from, to, None, None)]];
        rows := rows[a := rows[a].(status := to, updatedAt := now)];
      }
      return true;
    }

    /** The service: identity changes nothing, an invalid change is refused before it reaches the
        database, and a valid one adds exactly one audit row, which carries the event data given. */
    method TransitionStreamStatus(a: Address, to: Status, event: Option<TriggeringEvent>, ledger: Option<int>, now: int)
      returns (r: Result<Row, Error>)
      requires Valid()
      modifies this`rows, this`audit
      ensures Valid()
      ensures if a !in old(rows) then r == Err(StreamNotFound)
              else if !IsValidTransition(old(rows)[a].status, to)
              then r == Err(InvalidTransition(old(rows)[a].status, to))
              else a in rows && r == Ok(rows[a]) && rows[a].status == to
      ensures r.Err? || (a in old(rows) && old(rows)[a].status == to) ==> rows == old(rows) && audit == old(audit)
      ensures r.Ok? && a in old(rows) && old(rows)[a].status != to ==>
                && rows == old(rows)[a := old(rows)[a].(status := to, updatedAt := now)]
                && audit == old(audit)[a := old(audit)[a] + [AuditRow(old(rows)[a].status, to, event, ledger)]]
    {
      if a !in rows { return Err(StreamNotFound); }
      var from := rows[a].status;
      if from == to { return Ok(rows[a]); }
      if !IsValidTransition(from, to) { return Err(InvalidTransition(from, to)); }
      assert CheckTransition(from, to) by { TablesAgree(from, to); }
      ApplyChange(a, to, event, ledger, now);
      return Ok(rows[a]);
    }

    /** The update and, if there is any event data, the second statement which adds it to the audit row. */
    method ApplyChange(a: Address, to: Status, event: Option<TriggeringEvent>, ledger: Option<int>, now: int)
      requires Valid() && a in rows && rows[a].status != to && CheckTransition(rows[a].status, to)
      modifies this`rows, this`audit
      ensures Valid()
      ensures rows == old(rows)[a := old(rows)[a].(status := to, updatedAt := now)]
      ensures audit == old(audit)[a := old(audit)[a] + [AuditRow(old(rows)[a].status, to, event, ledger)]]
    {
      var from := rows[a].status;
      AnnotatedAfterAppend(audit[a], from, to, event, ledger);
      var ok := UpdateStatus(a, to, now);
      if event.Some? || ledger.Some? {
        AnnotateLatest(a, from, to, event, ledger);
      }
    }

    /** Adds event data to the latest audit row of a change; `COALESCE` keeps what is already there. */
    method AnnotateLatest(a: Address, from: Status, to: Status, event: Option<TriggeringEvent>, ledger: Option<int>)
      requires Valid() && a in rows
      requires audit[a] != [] && (Last(audit[a]).from, Last(audit[a]).to) == (from, to)
      modifies this`audit
      ensures Valid()
      ensures audit == old(audit)[a := Annotated(old(audit)[a], event, ledger)]
    {
      var trail := audit[a];
      var i := LatestMatch(trail, from, to, initial[a], rows[a].status);
      assert i == |trail| - 1;
      var row := trail[i];
      row := row.(event := if event.Some? then event else row.event,
                  ledger := if ledger.Some? then ledger else row.ledger);
      assert trail[i := row] == trail[..i] + [row];
      audit := audit[a := trail[i := row]];
      Extended(trail[..i], initial[a], from, row);
    }

    /** The latest audit row of one change. In a trail there is only one, so no order of rows with
        equal time stamps can pick another. */
    static method LatestMatch(trail: seq<AuditRow>, from: Status, to: Status, ghost first: Status, ghost last: Status)
      returns (i: nat)
      requires Chain(trail, first, last)
      requires exists k :: 0 <= k < |trail| && (trail[k].from, trail[k].to) == (from, to)
      ensures i < |trail| && (trail[i].from, trail[i].to) == (from, to)
      ensures forall k :: 0 <= k < |trail| && (trail[k].from, trail[k].to) == (from, to) ==> k == i
    {
      i := |trail|;
      while i > 0 && (trail[i - 1].from, trail[i - 1].to) != (from, to)
        invariant 0 <= i <= |trail|
        invariant forall k :: i <= k < |trail| ==> (trail[k].from, trail[k].to) != (from, to)
      {
        i := i - 1;
      }
      i := i - 1;
      forall k | 0 <= k < |trail| && (trail[k].from, trail[k].to) == (from, to) ensures k == i {
        if k < i { ChangesAreUnique(trail, first, last, k, i); }
      }
    }

    /** The expiry job: one statement over every row, with the trigger for each row it changes. */
    method ExpireStreams(currentLedger: int, now: int) returns (count: nat)
      requires Valid()
      modifies this`rows, this`audit
      ensures Valid()
      ensures count == |set a | a in old(rows) && old(rows)[a].status in {Active, PreCliff}
                                && old(rows)[a].endLedger < currentLedger|
      ensures rows.Keys == old(rows).Keys
      ensures forall a :: a in rows ==>
                if old(rows)[a].status in {Active, PreCliff} && old(rows)[a].endLedger < currentLedger
                then rows[a] == old(rows)[a].(status := Expired, updatedAt := now)
                     && audit[a] == old(audit)[a] + [AuditRow(old(rows)[a].status, Expired, None, None)]
                else rows[a] == old(rows)[a] && audit[a] == old(audit)[a]
    {
      TrailsAfterExpiry(rows, audit, initial, currentLedger);
      RowsAfter(rows, audit, currentLedger, now);
      var hit := set a | a in rows && Expirable(rows[a], currentLedger);
      audit := AuditAfterExpiry(rows, audit, currentLedger);
      rows := RowsAfterExpiry(rows, currentLedger, now);
      return |hit|;
    }
  }

  function RowsAfterExpiry(rows: map<Address, Row>, currentLedger: int, now: int): map<Address, Row> {
    map a | a in rows :: if Expirable(rows[a], currentLedger) then Changed(rows[a], Expired, now) else rows[a]
  }

  /** The trigger's audit rows for every row that expires. */
  function AuditAfterExpiry(rows: map<Address, Row>, audit: map<Address, seq<AuditRow>>,
                            currentLedger: int): map<Address, seq<AuditRow>>
    requires audit.Keys == rows.Keys
  {
    map a | a in rows ::
      if Expirable(rows[a], currentLedger) then audit[a] + [AuditRow(rows[a].status, Expired, None, None)] else audit[a]
  }

  lemma RowsAfter(rows: map<Address, Row>, audit: map<Address, seq<AuditRow>>, currentLedger: int, now: int)
    requires audit.Keys == rows.Keys
    ensures var (newRows, newAudit) := (RowsAfterExpiry(rows, currentLedger, now),
                                        AuditAfterExpiry(rows, audit, currentLedger));
            && newRows.Keys == newAudit.Keys == rows.Keys
            && forall a :: a in newRows ==>
                 if rows[a].status in {Active, PreCliff} && rows[a].endLedger < currentLedger
                 then newRows[a] == rows[a].(status := Expired, updatedAt := now)
                      && newAudit[a] == audit[a] + [AuditRow(rows[a].status, Expired, None, None)]
                 else newRows[a] == rows[a] && newAudit[a] == audit[a]
    ensures (set a | a in rows && Expirable(rows[a], currentLedger))
         == (set a | a in rows && rows[a].status in {Active, PreCliff} && rows[a].endLedger < currentLedger)
  {}

  lemma TrailsAfterExpiry(rows: map<Address, Row>, audit: map<Address, seq<AuditRow>>, initial: map<Address, Status>,
                          currentLedger: int)
    requires audit.Keys == rows.Keys == initial.Keys
    requires forall a :: a in rows ==> Chain(audit[a], initial[a], rows[a].status)
    ensures forall a :: a in rows ==>
              Chain(AuditAfterExpiry(rows, audit, currentLedger)[a], initial[a],
                    if Expirable(rows[a], currentLedger) then Expired else rows[a].status)
  {
    forall a | a in rows && Expirable(rows[a], currentLedger)
      ensures Chain(AuditAfterExpiry(rows, audit, currentLedger)[a], initial[a], Expired)
    {
      Extended(audit[a], initial[a], rows[a].status, AuditRow(rows[a].status, Expired, None, None));
    }
  }
}
