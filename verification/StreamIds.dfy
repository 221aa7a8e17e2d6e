/** Stream ids in the contract's keyed storage: one counter per recipient, one entry per id, and the
    legacy entry of older deployments, which stands for id 0. */
module StreamIds {
  import opened Wrappers
  import opened Machine
  import opened TokenBook

  datatype Error = DepositOverflow

  predicate StrictlyAscending(ids: seq<U32>) {
    forall i, j :: 0 <= i < j < |ids| ==> ids[i] < ids[j]
  }

  class StreamStore<Schedule> {
    var byId: map<(Address, U32), Schedule>
    var legacy: map<Address, Schedule>
    var nextId: map<Address, U32>
    /** Every id that next_stream_id has handed out. */
    ghost var issued: set<(Address, U32)>

    predicate Live(a: Address, id: U32)
      reads this
    {
      (a, id) in byId || (id == 0 && a in legacy)
    }

    /** Live and issued ids stay below the counter; without a counter there is at most the legacy entry.
        No stream is stored under both keys of id 0. */
    ghost predicate Valid()
      reads this
    {
      && (forall k :: k in byId ==> k.1 == U32_MAX || (k.0 in nextId && k.1 < nextId[k.0]))
      && (forall k :: k in issued ==> k.0 in nextId && k.1 < nextId[k.0])
      && (forall a :: a in nextId ==> nextId[a] > 0)
      && (forall a :: a in legacy ==> (a, 0) !in byId)
    }

    /** The storage of an older deployment, or of a new one when `legacy` is empty. */
    constructor (legacy: map<Address, Schedule>)
      ensures Valid() && byId == map[] && this.legacy == legacy && nextId == map[] && issued == {}
    {
      this.byId, this.legacy, this.nextId, this.issued := map[], legacy, map[], {};
    }

    /** Allocates an id which is not live and was never allocated before; it fails only at the last u32. */
    method NextStreamId(a: Address) returns (r: Result<U32, Error>)
      requires Valid()
      modifies this`nextId, this`issued
      ensures Valid()
      ensures r.Ok? ==>
                && !Live(a, r.value) && (a, r.value) !in old(issued)
                && issued == old(issued) + {(a, r.value)}
                && (r.value == 0 <==> a !in old(nextId) && a !in legacy)
                && nextId == old(nextId)[a := r.value + 1]
      ensures r.Err? ==> nextId == old(nextId) && issued == old(issued)
      ensures r.Err? <==> a in old(nextId) && old(nextId)[a] == U32_MAX
    {
      var next: U32 := if a in nextId then nextId[a] else if a in legacy then 1 else 0;
      var following := CheckedU32(next + 1);
      if following.None? { return Err(DepositOverflow); }
      nextId := nextId[a := following.value];
      issued := issued + {(a, next)};
      return Ok(next);
    }

    /** Stores a stream, moves a legacy entry under its id, and keeps the counter ahead. */
    method SetScheduleById(a: Address, id: U32, s: Schedule)
      requires Valid()
      modifies this`byId, this`legacy, this`nextId
      ensures Valid()
      ensures byId == old(byId)[(a, id) := s]
      ensures legacy == if id == 0 then old(legacy) - {a} else old(legacy)
      ensures nextId == if id == U32_MAX || (a in old(nextId) && old(nextId)[a] > id) then old(nextId)
                        else old(nextId)[a := id + 1]
      ensures forall b: Address, i: U32 :: Live(b, i) <==> old(Live(b, i)) || (b, i) == (a, id)
    {
      byId := byId[(a, id) := s];
      if id == 0 { legacy := legacy - {a}; }
      var following := CheckedU32(id + 1);
      if following.Some? {
        var stored: U32 := if a in nextId then nextId[a] else 0;
        if stored < following.value { nextId := nextId[a := following.value]; }
      }
    }

    method RemoveScheduleById(a: Address, id: U32)
      requires Valid()
      modifies this`byId, this`legacy
      ensures Valid()
      ensures byId == old(byId) - {(a, id)} && legacy == if id == 0 then old(legacy) - {a} else old(legacy)
      ensures forall b: Address, i: U32 :: Live(b, i) <==> old(Live(b, i)) && (b, i) != (a, id)
    {
      byId := byId - {(a, id)};
      if id == 0 { legacy := legacy - {a}; }
    }

    /** The recipient's live ids in ascending order, and all of them but the last u32, which the
        counter cannot pass. */
    method GetStreamIds(a: Address) returns (ids: seq<U32>)
      requires Valid()
      ensures StrictlyAscending(ids)
      ensures forall id: U32 :: id in ids <==> Live(a, id) && id != U32_MAX
    {
      ids := [];
      var next: U32 := if a in nextId then nextId[a] else 0;
      for id := 0 to next
        invariant StrictlyAscending(ids)
        invariant forall j :: 0 <= j < |ids| ==> ids[j] < id
        invariant forall i: U32 :: i in ids <==> i < id && Live(a, i)
      {
        if (a, id) in byId || (id == 0 && a in legacy) {
          ids := ids + [id];
        }
      }
      if next == 0 && ((a, 0) in byId || a in legacy) {
        ids := ids + [0];
      }
    }

    /** `has_schedule` looks under both keys of id 0. */
    method HasSchedule(a: Address) returns (b: bool)
      ensures b == Live(a, 0)
    {
      b := (a, 0) in byId || a in legacy;
    }

    /** `get_schedule` looks under the legacy key alone. So it finds a live stream 0 exactly when that
        has not been written back since the older deployment. */
    method GetSchedule(a: Address) returns (r: Option<Schedule>)
      requires Valid()
      ensures Live(a, 0) ==> (r.Some? <==> (a, 0) !in byId)
      ensures !Live(a, 0) ==> r.None?
      ensures r.Some? ==> r.value == legacy[a]
    {
      r := if a in legacy then Some(legacy[a]) else None;
    }

    /** Whatever was there before: a stream 0 that has just been stored is there, and is not found. */
    method StoredIsNotFound(a: Address, s: Schedule) returns (has: bool, found: Option<Schedule>)
      requires Valid()
      modifies this`byId, this`legacy, this`nextId
      ensures Valid() && has && found.None? && (a, 0) in byId && byId[(a, 0)] == s
    {
      SetScheduleById(a, 0, s);
      has := HasSchedule(a);
      found := GetSchedule(a);
    }

    /** How creation uses the ids: it allocates one, returns it, and stores the stream under id 0. The
        id it returns names the stream, or any live one, exactly when this is the recipient's first
        stream ever; a later creation replaces a stream 0 that is still live. */
    method Create(a: Address, s: Schedule) returns (r: Result<U32, Error>)
      requires Valid()
      modifies this`byId, this`legacy, this`nextId, this`issued
      ensures Valid()
      ensures r.Ok? ==> byId == old(byId)[(a, 0) := s] && legacy == old(legacy) - {a}
      ensures r.Ok? ==> (Live(a, r.value) <==> a !in old(nextId) && a !in old(legacy))
      ensures old(Live(a, 0)) ==> a in old(nextId) || a in old(legacy)
      ensures r.Err? ==> byId == old(byId) && legacy == old(legacy) && nextId == old(nextId)
    {
      r := NextStreamId(a);
      if r.Ok? { SetScheduleById(a, 0, s); }
    }
  }
}
