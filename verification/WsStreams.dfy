/** WebSocket connections: admission and accounting per source IP, heartbeats, and the replay buffer. */
module WsStreams {
  import opened Wrappers
  import opened Machine

  type Ip = string
  type Recipient = string
  type ConnectionId = nat

  const MAX_MISSED_HEARTBEATS := 2
  const EVENT_BUFFER_SIZE := 100

  /** One admitted connection: `listening` while its callback is on the local bus. */
  datatype Connection = Connection(ip: Ip, closed: bool, missedHeartbeats: nat, listening: bool)

  type Connections = map<ConnectionId, Connection>

  /** The admitted connections of an address that are not yet cleaned up. */
  function OpenFrom(cs: Connections, ip: Ip): set<ConnectionId> {
    set c | c in cs && cs[c].ip == ip && !cs[c].closed
  }

  lemma AdmittingOpensOne(cs: Connections, c: ConnectionId, conn: Connection, ip: Ip)
    requires c !in cs && !conn.closed
    ensures |OpenFrom(cs[c := conn], ip)| == |OpenFrom(cs, ip)| + (if ip == conn.ip then 1 else 0)
  {
    assert OpenFrom(cs[c := conn], ip) == if ip == conn.ip then OpenFrom(cs, ip) + {c} else OpenFrom(cs, ip);
  }

  lemma ClosingEndsOne(cs: Connections, c: ConnectionId, conn: Connection, ip: Ip)
    requires c in cs && !cs[c].closed && conn.closed && conn.ip == cs[c].ip
    ensures |OpenFrom(cs[c := conn], ip)| == |OpenFrom(cs, ip)| - (if ip == conn.ip then 1 else 0)
  {
    assert OpenFrom(cs[c := conn], ip) == if ip == conn.ip then OpenFrom(cs, ip) - {c} else OpenFrom(cs, ip);
  }

  lemma UpdatingKeepsOpen(cs: Connections, c: ConnectionId, conn: Connection, ip: Ip)
    requires c in cs && conn.closed == cs[c].closed && conn.ip == cs[c].ip
    ensures OpenFrom(cs[c := conn], ip) == OpenFrom(cs, ip)
  {}

  function CountOf(counts: map<Ip, nat>, ip: Ip): nat {
    if ip in counts then counts[ip] else 0
  }

  /** No address is kept with a count of zero. */
  ghost predicate NoZeros(counts: map<Ip, nat>) {
    forall ip :: ip in counts ==> counts[ip] > 0
  }

  /** Without zeros the counts determine the map. */
  lemma SameCounts(a: map<Ip, nat>, b: map<Ip, nat>)
    requires NoZeros(a) && NoZeros(b) && forall ip: Ip :: CountOf(a, ip) == CountOf(b, ip)
    ensures a == b
  {
    forall ip: Ip ensures ip in a <==> ip in b { assert CountOf(a, ip) == CountOf(b, ip); }
    forall ip | ip in a ensures a[ip] == b[ip] { assert CountOf(a, ip) == CountOf(b, ip); }
  }

  /** The counts are exact: an address is counted when it has open connections, with their number,
      which is at most the limit. */
  ghost predicate Exact(cs: Connections, counts: map<Ip, nat>, limit: int) {
    && (forall ip: Ip :: |OpenFrom(cs, ip)| == CountOf(counts, ip))
    && NoZeros(counts)
    && (forall ip: Ip :: CountOf(counts, ip) > 0 ==> CountOf(counts, ip) <= limit)
  }

  // ----- heartbeats -----

  /** Ends a connection, once. */
  function Ended(conn: Connection): Connection {
    if conn.closed then conn else conn.(closed := true, listening := false)
  }

  /** One heartbeat on a live socket: a third one in a row without a pong ends the connection. */
  function Beat(conn: Connection): Connection {
    var missed := conn.(missedHeartbeats := conn.missedHeartbeats + 1);
    if missed.missedHeartbeats > MAX_MISSED_HEARTBEATS then Ended(missed) else missed
  }

  function Beats(conn: Connection, n: nat): Connection {
    if n == 0 then conn else Beat(Beats(conn, n - 1))
  }

  /** After a pong a connection survives exactly two more unanswered heartbeats. */
  lemma {:induction false} SilenceEndsConnection(conn: Connection, n: nat)
    requires !conn.closed && conn.missedHeartbeats == 0
    ensures Beats(conn, n).closed <==> n > 2
    ensures n <= MAX_MISSED_HEARTBEATS ==> Beats(conn, n) == conn.(missedHeartbeats := n)
  {
    if n > 0 { SilenceEndsConnection(conn, n - 1); }
  }

  // ----- a callback that is put on the bus too late -----

  /** What can happen to an admitted connection. */
  datatype ConnectionEvent = Subscribed | Ponged | Ticked(socketOpen: bool) | CleanedUp

  function AfterEvent(conn: Connection, e: ConnectionEvent): Connection {
    match e
    case Subscribed => conn.(listening := true)
    case Ponged => conn.(missedHeartbeats := 0)
    case Ticked(socketOpen) => if socketOpen then Beat(conn) else Ended(conn)
    case CleanedUp => Ended(conn)
  }

  function AfterAll(conn: Connection, events: seq<ConnectionEvent>): Connection {
    if events == [] then conn else AfterEvent(AfterAll(conn, events[..|events| - 1]), Last(events))
  }

  function LiveTicks(n: nat): seq<ConnectionEvent> {
    seq(n, i requires 0 <= i < n => Ticked(true))
  }

  lemma {:induction false} TicksAreBeats(conn: Connection, events: seq<ConnectionEvent>, n: nat)
    ensures AfterAll(conn, events + LiveTicks(n)) == Beats(AfterAll(conn, events), n)
  {
    if n == 0 {
      assert events + LiveTicks(0) == events;
    } else {
      TicksAreBeats(conn, events, n - 1);
      var all := events + LiveTicks(n);
      assert all[..|all| - 1] == events + LiveTicks(n - 1) && Last(all) == Ticked(true);
    }
  }

  /** Whatever has come before, as long as it is open: after a pong a connection survives exactly two more
      heartbeats that are not answered. */
  lemma PongThenSilence(conn: Connection, events: seq<ConnectionEvent>, n: nat)
    requires !AfterAll(conn, events).closed
    ensures AfterAll(conn, events + [Ponged] + LiveTicks(n)).closed <==> n > 2
  {
    var ponged := events + [Ponged];
    assert ponged[..|ponged| - 1] == events && Last(ponged) == Ponged;
    TicksAreBeats(conn, ponged, n);
    SilenceEndsConnection(AfterAll(conn, ponged), n);
  }

  /** Between any two heartbeats on a live socket there is a pong. */
  ghost predicate AnswersEveryPing(events: seq<ConnectionEvent>) {
    forall i, j :: 0 <= i < j < |events| && events[i] == Ticked(true) && events[j] == Ticked(true)
      ==> exists m :: i < m < j && events[m] == Ponged
  }

  /** The position after the last pong, or the first one. */
  ghost predicate SincePong(events: seq<ConnectionEvent>, i: nat) {
    i <= |events| && (i == 0 || events[i - 1] == Ponged) && forall n :: i <= n < |events| ==> events[n] != Ponged
  }

  /** The heartbeats from position `i` on. */
  function TicksFrom(events: seq<ConnectionEvent>, i: nat): set<nat> {
    set n | i <= n < |events| && events[n].Ticked?
  }

  lemma OneMoreTick(events: seq<ConnectionEvent>, i: nat)
    requires i < |events|
    ensures |TicksFrom(events, i)| == |TicksFrom(events[..|events| - 1], i)| + (if Last(events).Ticked? then 1 else 0)
  {
    var last := |events| - 1;
    assert TicksFrom(events, i) == TicksFrom(events[..last], i) + (if events[last].Ticked? then {last} else {});
  }

  /** While a connection is open, it has missed as many heartbeats as have come since its last pong. */
  lemma {:induction false} MissedSincePong(conn: Connection, events: seq<ConnectionEvent>, i: nat)
    requires conn.missedHeartbeats == 0 && SincePong(events, i) && !AfterAll(conn, events).closed
    ensures AfterAll(conn, events).missedHeartbeats == |TicksFrom(events, i)|
    decreases |events|
  {
    if i == |events| {
      assert TicksFrom(events, i) == {};
    } else {
      var fewer := events[..|events| - 1];
      assert SincePong(fewer, i);
      MissedSincePong(conn, fewer, i);
      OneMoreTick(events, i);
    }
  }

  /** A connection that answers every ping is never closed by a heartbeat: only a cleanup or a socket that is
      gone can end it. */
  lemma {:induction false} AnsweringKeepsOpen(conn: Connection, events: seq<ConnectionEvent>)
    requires !conn.closed && conn.missedHeartbeats == 0 && AnswersEveryPing(events)
    requires forall n :: 0 <= n < |events| ==> events[n] != CleanedUp && events[n] != Ticked(false)
    ensures !AfterAll(conn, events).closed
  {
    if events != [] {
      var (fewer, last) := (events[..|events| - 1], |events| - 1);
      forall i, j | 0 <= i < j < |fewer| && fewer[i] == Ticked(true) && fewer[j] == Ticked(true)
        ensures exists m :: i < m < j && fewer[m] == Ponged
      {
        var m :| i < m < j && events[m] == Ponged;
        assert fewer[m] == Ponged;
      }
      AnsweringKeepsOpen(conn, fewer);
      if events[last] == Ticked(true) {
        var i := LastPong(fewer);
        MissedSincePong(conn, fewer, i);
        forall m | i <= m < last ensures events[m] != Ponged { assert fewer[m] != Ponged; }
        forall n | i <= n < |fewer| ensures !fewer[n].Ticked? {
          assert events[n] == fewer[n];
        }
        assert TicksFrom(fewer, i) == {};
      }
    }
  }

  lemma LastPong(events: seq<ConnectionEvent>) returns (i: nat)
    ensures SincePong(events, i)
  {
    i := |events|;
    while i > 0 && events[i - 1] != Ponged
      invariant 0 <= i <= |events| && forall n :: i <= n < |events| ==> events[n] != Ponged
    {
      i := i - 1;
    }
  }

  /** The connection subscribes at a time when it is already closed. */
  predicate SubscribesLate(conn: Connection, events: seq<ConnectionEvent>) {
    exists i :: 0 <= i < |events| && events[i].Subscribed? && AfterAll(conn, events[..i]).closed
  }

  /** A closed connection keeps its callback on the bus exactly when it subscribed after it was closed. */
  lemma {:induction false} LateSubscriberStays(conn: Connection, events: seq<ConnectionEvent>)
    requires !conn.closed
    ensures var last := AfterAll(conn, events);
            last.closed && last.listening <==> SubscribesLate(conn, events)
  {
    if events != [] {
      var fewer := events[..|events| - 1];
      LateSubscriberStays(conn, fewer);
      assert forall i :: 0 <= i < |fewer| ==> fewer[i] == events[i] && fewer[..i] == events[..i];
      if SubscribesLate(conn, fewer) {
        var i :| 0 <= i < |fewer| && fewer[i].Subscribed? && AfterAll(conn, fewer[..i]).closed;
        assert events[i].Subscribed? && events[..i] == fewer[..i];
      }
      if SubscribesLate(conn, events) && !SubscribesLate(conn, fewer) {
        assert Last(events).Subscribed? && AfterAll(conn, fewer).closed;
      }
      if Last(events).Subscribed? && AfterAll(conn, fewer).closed {
        assert events[|events| - 1].Subscribed? && events[..|events| - 1] == fewer;
      }
    }
  }

  /** And then nothing takes it off again: no cleanup, no tick, whatever comes. */
  lemma {:induction false} NothingEndsIt(conn: Connection, events: seq<ConnectionEvent>)
    requires conn.closed && conn.listening
    ensures AfterAll(conn, events).closed && AfterAll(conn, events).listening
  {
    if events != [] { NothingEndsIt(conn, events[..|events| - 1]); }
  }

  lemma LateSubscriberExample(ip: Ip)
    ensures AfterAll(Connection(ip, false, 0, false), [CleanedUp, Subscribed]) == Connection(ip, true, 0, true)
  {
    var conn := Connection(ip, false, 0, false);
    assert [CleanedUp, Subscribed][..1] == [CleanedUp] && [CleanedUp][..0] == [];
    assert AfterAll(conn, [CleanedUp]) == Ended(conn);
  }

  class Server {
    var ipCount: map<Ip, nat>
    var connections: Connections
    const maxConnectionsPerIp: int

    ghost predicate Valid()
      reads this
    {
      Exact(connections, ipCount, maxConnectionsPerIp)
    }

    constructor (maxConnectionsPerIp: int := 100)
      ensures Valid() && connections == map[] && ipCount == map[] && this.maxConnectionsPerIp == maxConnectionsPerIp
    {
      ipCount, connections := map[], map[];
      this.maxConnectionsPerIp := maxConnectionsPerIp;
    }

    /** Counts one connection more for the address, and none for any other. */
    method IncrementIpCount(ip: Ip) returns (count: nat)
      modifies this`ipCount
      ensures count == CountOf(ipCount, ip)
      ensures forall other: Ip ::
                CountOf(ipCount, other)
                == CountOf(old(ipCount), other) + (if other == ip then 1 else 0)
      ensures NoZeros(old(ipCount)) ==> NoZeros(ipCount)
    {
      var current := if ip in ipCount then ipCount[ip] else 0;
      ipCount := ipCount[ip := current + 1];
      return current + 1;
    }

    /** Counts one connection less for the address, down to no entry at all, and undoes an increment. */
    method DecrementIpCount(ip: Ip)
      modifies this`ipCount
      ensures forall other: Ip :: CountOf(ipCount, other) == CountOf(old(ipCount), other)
                                    - (if other == ip && CountOf(old(ipCount), other) > 0 then 1 else 0)
      ensures NoZeros(old(ipCount)) ==> NoZeros(ipCount)
    {
      var current := if ip in ipCount then ipCount[ip] else 1;
      if current <= 1 {
        ipCount := ipCount - {ip};
      } else {
        ipCount := ipCount[ip := current - 1];
      }
    }

    /** Admits a connection unless its address already has the maximum open; a refusal leaves no trace. */
    method Connect(c: ConnectionId, ip: Ip) returns (admitted: bool)
      requires Valid() && c !in connections
      modifies this`ipCount, this`connections
      ensures Valid()
      ensures admitted <==> |OpenFrom(old(connections), ip)| < maxConnectionsPerIp
      ensures connections == if admitted then old(connections)[c := Connection(ip, false, 0, false)]
                             else old(connections)
      ensures !admitted ==> ipCount == old(ipCount)
    {
      var count := IncrementIpCount(ip);
      if count > maxConnectionsPerIp {
        DecrementIpCount(ip);
        SameCounts(ipCount, old(ipCount));
        return false;
      }
      var conn := Connection(ip, false, 0, false);
      forall other: Ip
        ensures |OpenFrom(connections[c := conn], other)| == CountOf(ipCount, other)
      {
        AdmittingOpensOne(connections, c, conn, other);
      }
      connections := connections[c := conn];
      return true;
    }

    /** Close, error and timeout all end here. The first call closes the connection, takes it off the
        count and off the bus; every later one changes nothing, not even a callback that was put on
        the bus after the close. */
    method Cleanup(c: ConnectionId)
      requires Valid() && c in connections
      modifies this`ipCount, this`connections
      ensures Valid()
      ensures old(connections)[c].closed ==> connections == old(connections) && ipCount == old(ipCount)
      ensures connections == old(connections)[c := AfterEvent(old(connections)[c], CleanedUp)]
      ensures !old(connections)[c].closed ==> connections[c] == old(connections)[c].(closed := true, listening := false)
    {
      var conn := connections[c];
      if conn.closed { return; }
      var done := conn.(closed := true, listening := false);
      assert |OpenFrom(connections, conn.ip)| > 0 by { assert c in OpenFrom(connections, conn.ip); }
      DecrementIpCount(conn.ip);
      forall other: Ip
        ensures |OpenFrom(connections[c := done], other)| == CountOf(ipCount, other)
      {
        ClosingEndsOne(connections, c, done, other);
      }
      connections := connections[c := done];
    }

    /** Sets a connection's own variables, which count for nothing in the accounting. */
    method Update(c: ConnectionId, conn: Connection)
      requires Valid() && c in connections && conn.ip == connections[c].ip && conn.closed == connections[c].closed
      modifies this`connections
      ensures Valid() && connections == old(connections)[c := conn]
    {
      forall other: Ip { UpdatingKeepsOpen(connections, c, conn, other); }
      connections := connections[c := conn];
    }

    /** The end of the set-up: the callback goes on the local bus, whether or not the connection is
        still open by then. */
    method Subscribe(c: ConnectionId)
      requires Valid() && c in connections
      modifies this`connections
      ensures Valid() && connections == old(connections)[c := AfterEvent(old(connections)[c], Subscribed)]
      ensures connections[c] == old(connections)[c].(listening := true)
    {
      Update(c, connections[c].(listening := true));
    }

    method Pong(c: ConnectionId)
      requires Valid() && c in connections
      modifies this`connections
      ensures Valid() && connections == old(connections)[c := AfterEvent(old(connections)[c], Ponged)]
      ensures connections[c] == old(connections)[c].(missedHeartbeats := 0)
    {
      Update(c, connections[c].(missedHeartbeats := 0));
    }

    /** One tick of a connection's heartbeat timer. */
    method Heartbeat(c: ConnectionId, socketOpen: bool)
      requires Valid() && c in connections
      modifies this`ipCount, this`connections
      ensures Valid()
      ensures connections == old(connections)[c := AfterEvent(old(connections)[c], Ticked(socketOpen))]
      ensures var (before, after) := (old(connections)[c], connections[c]);
              && (after.closed <==> before.closed || !socketOpen || before.missedHeartbeats >= 2)
              && (socketOpen ==> after.missedHeartbeats == before.missedHeartbeats + 1)
              && (after.closed && !before.closed ==> !after.listening)
    {
      if !socketOpen {
        Cleanup(c);
        return;
      }
      Update(c, connections[c].(missedHeartbeats := connections[c].missedHeartbeats + 1));
      if connections[c].missedHeartbeats > MAX_MISSED_HEARTBEATS {
        Cleanup(c);
      }
    }
  }

  // ----- the replay buffer -----

  /** `buffer` holds the latest messages of `published`, newest first. */
  ghost predicate Latest(buffer: seq<string>, published: seq<string>) {
    && |buffer| == Min(|published|, 100)
    && forall i :: 0 <= i < |buffer| ==> buffer[i] == published[|published| - 1 - i]
  }

  class LocalBus {
    var buffers: map<Recipient, seq<string>>
    /** Everything published to a recipient, in order. */
    ghost var published: map<Recipient, seq<string>>

    ghost predicate Valid()
      reads this
    {
      buffers.Keys == published.Keys && forall r :: r in buffers ==> Latest(buffers[r], published[r])
    }

    constructor ()
      ensures Valid() && published == map[]
    {
      buffers, published := map[], map[];
    }

    method Publish(r: Recipient, msg: string)
      requires Valid()
      modifies this
      ensures Valid()
      ensures published == old(published)[r := (if r in old(published) then old(published)[r] else []) + [msg]]
    {
      var buffer := if r in buffers then buffers[r] else [];
      ghost var sent := if r in published then published[r] else [];
      buffer := [msg] + buffer;
      if |buffer| > EVENT_BUFFER_SIZE { buffer := buffer[..|buffer| - 1]; }
      assert Latest(buffer, sent + [msg]);
      buffers := buffers[r := buffer];
      published := published[r := sent + [msg]];
    }

    /** Replays the buffer oldest first: the last hundred messages, in the order of publication. */
    method Replay(r: Recipient) returns (sent: seq<string>)
      requires Valid()
      ensures r !in published ==> sent == []
      ensures r in published ==> sent == published[r][Max(0, |published[r]| - 100)..]
    {
      var buffer := if r in buffers then buffers[r] else [];
      sent := [];
      var i := |buffer|;
      while i > 0
        invariant 0 <= i <= |buffer|
        invariant |sent| == |buffer| - i
        invariant forall k :: 0 <= k < |sent| ==> sent[k] == buffer[|buffer| - 1 - k]
      {
        i := i - 1;
        sent := sent + [buffer[i]];
      }
    }
  }
}
