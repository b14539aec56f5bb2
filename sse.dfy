/**
 * `SseService` (app/services/sse_service.py): the registry of Server-Sent-Events clients, the
 * SSE wire frame, the fan-out of lease events to every client's queue, and the handler that
 * re-reads the leases, diffs them against the cache and broadcasts the differences.
 *
 * What the service reaches outside itself is passed in: the clock is `now`, the outcome of
 * `DhcpService.get_all_leases` is `source`, `get_dns_pools` is `pools`, the Flask development
 * switch is `devMode`, `json.dumps` is `json`, and which `queue.put` calls raise is `failures`,
 * a set of (event index, client id) pairs. `DhcpService` as written defines neither
 * `get_dns_pools` nor `set_modified_lease_data`; the model takes both calls to return normally
 * and `set_modified_lease_data` to leave what `get_all_leases` reads unchanged.
 */
module Sse {
  import opened Wrappers
  import opened Text
  import opened Numbers
  import opened Pools
  import opened Leases
  import opened LeaseParser
  import opened Changes
  import opened LeaseModifier

  /** A client's `queue.Queue`: the messages put on it so far, oldest first. */
  class MessageQueue {
    var items: seq<string>

    constructor ()
      ensures items == []
    {
      items := [];
    }
  }

  /** The per-client record `add_client` stores: two clock readings and the queue. */
  datatype Connection = Connection(connectedAt: int, lastHeartbeat: int, queue: MessageQueue)

  // ---------------------------------------------------------------- the SSE frame

  /** `_format_sse_message`'s text for one event: three field lines and a blank line. */
  function SseFrame(eventType: string, data: string, id: nat): string
  {
    "event: " + eventType + "\n" + "data: " + data + "\n" + "id: " + NatToString(id) + "\n" + "\n"
  }

  /** The fields an SSE client reads back out of a frame. */
  datatype Frame = Frame(eventType: string, data: string, id: nat)

  /** How an SSE client reads one frame: split at line ends, strip the field names. */
  function ParseFrame(s: string): (r: Option<Frame>)
    ensures r.Some? ==> |SplitOn(s, '\n')| == 5
  {
    var lines := SplitOn(s, '\n');
    if |lines| == 5 && StartsWith(lines[0], "event: ") && StartsWith(lines[1], "data: ")
      && StartsWith(lines[2], "id: ") && AllDigits(lines[2][4..]) && |lines[2]| > 4
      && lines[3] == "" && lines[4] == ""
    then Some(Frame(lines[0][7..], lines[1][6..], DigitsValue(lines[2][4..])))
    else None
  }

  /** The frame is its five lines joined by line ends. */
  lemma FrameLines(eventType: string, data: string, id: nat)
    ensures SseFrame(eventType, data, id)
      == Join(["event: " + eventType, "data: " + data, "id: " + NatToString(id), "", ""], '\n')
  {
    var l0, l1, l2 := "event: " + eventType, "data: " + data, "id: " + NatToString(id);
    assert Join(["", ""], '\n') == "\n";
    assert Join([l2, "", ""], '\n') == l2 + "\n" + "\n";
    assert Join([l1, l2, "", ""], '\n') == l1 + "\n" + l2 + "\n" + "\n";
    assert Join([l0, l1, l2, "", ""], '\n') == l0 + "\n" + l1 + "\n" + l2 + "\n" + "\n";
  }

  /**
   * A frame whose event name and data have no line end reads back as exactly the name, the
   * data and the id it was written with.
   */
  lemma ParseSseFrame(eventType: string, data: string, id: nat)
    requires '\n' !in eventType && '\n' !in data
    ensures ParseFrame(SseFrame(eventType, data, id)) == Some(Frame(eventType, data, id))
  {
    var digits := NatToString(id);
    var lines := ["event: " + eventType, "data: " + data, "id: " + digits, "", ""];
    FrameLines(eventType, data, id);
    assert '\n' !in digits by {
      assert forall i :: 0 <= i < |digits| ==> IsDigit(digits[i]);
    }
    SplitJoin(lines, '\n');
    assert lines[0][7..] == eventType && lines[1][6..] == data && lines[2][4..] == digits;
    NatToStringValue(id);
  }

  /** Frames with different contents or ids are different strings. */
  lemma FramesDistinct(t1: string, d1: string, n1: nat, t2: string, d2: string, n2: nat)
    requires '\n' !in t1 && '\n' !in d1 && '\n' !in t2 && '\n' !in d2
    requires (t1, d1, n1) != (t2, d2, n2)
    ensures SseFrame(t1, d1, n1) != SseFrame(t2, d2, n2)
  {
    ParseSseFrame(t1, d1, n1);
    ParseSseFrame(t2, d2, n2);
  }

  /** The frame `broadcast_lease_events` builds for one event under message id `id`. */
  function EventMessage(e: LeaseEvent, id: nat, now: int, json: EventDict -> string): string
  {
    SseFrame(EventTypeName(e.eventType), json(EventToDict(e, now)), id)
  }

  /** The frames for a list of events when the counter stood at `counter` before the first. */
  function Messages(events: seq<LeaseEvent>, counter: nat, now: int, json: EventDict -> string): (r: seq<string>)
    ensures |r| == |events|
  {
    seq(|events|, i requires 0 <= i < |events| => EventMessage(events[i], counter + i + 1, now, json))
  }

  /**
   * With a `json` that never emits a raw line end (`json.dumps` escapes them), the k-th frame
   * reads back as the k-th event's type and data under id `counter + k + 1`: ids rise by one
   * per event.
   */
  lemma MessagesReadBack(events: seq<LeaseEvent>, counter: nat, now: int, json: EventDict -> string, k: nat)
    requires forall x :: '\n' !in json(x)
    requires k < |events|
    ensures ParseFrame(Messages(events, counter, now, json)[k])
      == Some(Frame(EventTypeName(events[k].eventType), json(EventToDict(events[k], now)), counter + k + 1))
  {
    var e := events[k];
    ParseSseFrame(EventTypeName(e.eventType), json(EventToDict(e, now)), counter + k + 1);
  }

  /** No two frames of one broadcast are equal: their ids differ. */
  lemma MessagesDistinct(events: seq<LeaseEvent>, counter: nat, now: int, json: EventDict -> string, i: nat, j: nat)
    requires forall x :: '\n' !in json(x)
    requires i < j < |events|
    ensures Messages(events, counter, now, json)[i] != Messages(events, counter, now, json)[j]
  {
    MessagesReadBack(events, counter, now, json, i);
    MessagesReadBack(events, counter, now, json, j);
  }

  // ---------------------------------------------------------------- delivery failures

  /**
   * The index of the first event whose `put` raises for `client`, or `n` when none of the
   * first `n` does; the client is dropped after that event.
   */
  function FirstFailure(client: string, failures: set<(nat, string)>, n: nat): (k: nat)
    ensures k <= n
  {
    if n == 0 then 0
    else
      var k := FirstFailure(client, failures, n - 1);
      if k < n - 1 then k else if (n - 1, client) in failures then n - 1 else n
  }

  /** `FirstFailure` is the least failing index below `n`, if there is one. */
  lemma {:induction false} FirstFailureLeast(client: string, failures: set<(nat, string)>, n: nat)
    ensures forall j :: 0 <= j < FirstFailure(client, failures, n) ==> (j, client) !in failures
    ensures FirstFailure(client, failures, n) < n ==> (FirstFailure(client, failures, n), client) in failures
  {
    if n > 0 {
      FirstFailureLeast(client, failures, n - 1);
    }
  }

  /** Without failures every client receives every message. */
  lemma {:induction false} NoFailuresAllDelivered(client: string, n: nat)
    ensures FirstFailure(client, {}, n) == n
  {
    if n > 0 {
      NoFailuresAllDelivered(client, n - 1);
    }
  }

  /** The clients still connected after `n` events: those none of whose puts failed. */
  function Survivors(conns: map<string, Connection>, failures: set<(nat, string)>, n: nat): (r: map<string, Connection>)
    ensures forall c :: c in r ==> c in conns && r[c] == conns[c]
  {
    map c | c in conns && FirstFailure(c, failures, n) == n :: conns[c]
  }

  /** A client survives exactly when none of its puts failed. */
  lemma SurvivesIffNoFailure(conns: map<string, Connection>, failures: set<(nat, string)>, n: nat, c: string)
    requires c in conns
    ensures c in Survivors(conns, failures, n) <==> forall j :: 0 <= j < n ==> (j, c) !in failures
  {
    FirstFailureLeast(c, failures, n);
  }

  /** The clients dropped for the `n`-th event are removed from the survivors of the events before it. */
  lemma SurvivorsStep(conns: map<string, Connection>, failures: set<(nat, string)>, n: nat, failed: set<string>)
    requires forall c :: c in failed <==> c in Survivors(conns, failures, n) && (n, c) in failures
    ensures Survivors(conns, failures, n) - failed == Survivors(conns, failures, n + 1)
  {
    var before := Survivors(conns, failures, n);
    assert (before - failed).Keys == Survivors(conns, failures, n + 1).Keys;
  }

  /** Distinct clients hold distinct queues. */
  ghost predicate DistinctQueues(conns: map<string, Connection>)
  {
    forall a, b :: a in conns && b in conns && a != b ==> conns[a].queue != conns[b].queue
  }

  /** The survivors of distinct clients hold distinct queues. */
  lemma SurvivorsDistinct(conns: map<string, Connection>, failures: set<(nat, string)>, n: nat)
    requires DistinctQueues(conns)
    ensures DistinctQueues(Survivors(conns, failures, n))
  {
  }

  /** A client no longer among `conns` owns none of their queues. */
  lemma QueueOutside(initial: map<string, Connection>, conns: map<string, Connection>, c: string)
    requires DistinctQueues(initial) && c in initial && c !in conns
    requires forall x :: x in conns ==> x in initial && conns[x] == initial[x]
    ensures initial[c].queue !in (set x | x in conns :: conns[x].queue)
  {
  }

  // ---------------------------------------------------------------- the service

  class SseService {
    var connections: map<string, Connection>
    var cachedLeases: LeaseTable
    var messageIdCounter: nat
    var devModifier: DevLeaseModifier?

    /** Every client has a queue of its own, and the cache is keyed by IP. */
    ghost predicate Valid()
      reads this
    {
      DistinctQueues(connections) && cachedLeases.Valid()
    }

    /** The queues of the connected clients. */
    ghost function Queues(): set<MessageQueue>
      reads this
    {
      set c | c in connections :: connections[c].queue
    }

    /** The modifier's pools, counter and devices, as a modifier made now from `pools` would have them. */
    ghost function ModifierState(pools: seq<Pool>): (seq<Pool>, nat, seq<string>)
      reads this, devModifier
    {
      if devModifier == null then (pools, 0, [])
      else (devModifier.pools, devModifier.modificationCounter, devModifier.generatedDevices)
    }

    /** No clients, an empty cache, the counter at zero, no modifier yet. */
    constructor ()
      ensures Valid()
      ensures connections == map[] && cachedLeases == LeaseTable([], map[])
      ensures messageIdCounter == 0 && devModifier == null
    {
      connections := map[];
      cachedLeases := LeaseTable([], map[]);
      messageIdCounter := 0;
      devModifier := null;
    }

    /** `add_client`: a fresh empty queue, registered under `clientId` (replacing any earlier one). */
    method AddClient(clientId: string, now: int) returns (q: MessageQueue)
      requires Valid()
      modifies this`connections
      ensures Valid()
      ensures fresh(q) && q.items == []
      ensures connections == old(connections)[clientId := Connection(now, now, q)]
      ensures |connections| == |old(connections)| + (if clientId in old(connections) then 0 else 1)
    {
      q := new MessageQueue();
      connections := connections[clientId := Connection(now, now, q)];
    }

    /** `remove_client`: forget the client if it is registered; nothing else changes. */
    method RemoveClient(clientId: string)
      requires DistinctQueues(connections)
      modifies this`connections
      ensures DistinctQueues(connections)
      ensures connections == old(connections) - {clientId}
      ensures clientId !in connections
      ensures |connections| == |old(connections)| - (if clientId in old(connections) then 1 else 0)
    {
      if clientId in connections {
        connections := connections - {clientId};
        assert connections.Keys == old(connections).Keys - {clientId};
      } else {
        assert connections == old(connections) - {clientId};
      }
    }

    /** `get_active_connections_count`. */
    method ActiveConnectionsCount() returns (n: nat)
      ensures n == |connections|
      ensures n == 0 <==> connections == map[]
    {
      n := |connections|;
    }

    /** `_format_sse_message`: raise the counter, then frame the event under the new value. */
    method FormatSseMessage(eventType: string, data: string) returns (msg: string)
      modifies this`messageIdCounter
      ensures messageIdCounter == old(messageIdCounter) + 1
      ensures msg == SseFrame(eventType, data, messageIdCounter)
    {
      messageIdCounter := messageIdCounter + 1;
      var messageId := NatToString(messageIdCounter);
      msg := "event: " + eventType + "\n";
      msg := msg + "data: " + data + "\n";
      msg := msg + "id: " + messageId + "\n";
      msg := msg + "\n";
    }

    /** The inner loop of `broadcast_lease_events`: put `msg` on every queue, collect the clients whose put raised. */
    method PutAll(msg: string, index: nat, failures: set<(nat, string)>) returns (failed: set<string>)
      requires DistinctQueues(connections)
      modifies Queues()
      ensures forall c :: c in failed <==> c in connections && (index, c) in failures
      ensures forall c :: c in connections ==>
        connections[c].queue.items == old(connections[c].queue.items) + (if (index, c) in failures then [] else [msg])
    {
      var conns := connections;
      assert DistinctQueues(conns);
      var remaining := conns.Keys;
      failed := {};
      while remaining != {}
        invariant remaining <= conns.Keys
        invariant forall c :: c in failed <==> c in conns && c !in remaining && (index, c) in failures
        invariant forall c :: c in remaining ==> conns[c].queue.items == old(conns[c].queue.items)
        invariant forall c :: c in conns && c !in remaining ==>
          conns[c].queue.items == old(conns[c].queue.items) + (if (index, c) in failures then [] else [msg])
        decreases |remaining|
      {
        var c :| c in remaining;
        var q := conns[c].queue;
        if (index, c) in failures {
          failed := failed + {c};
        } else {
          assert q in Queues();
          q.items := q.items + [msg];
        }
        remaining := remaining - {c};
      }
    }

    /** The clean-up loop of `broadcast_lease_events`: `remove_client` for each failed client. */
    method RemoveClients(failed: set<string>)
      requires DistinctQueues(connections)
      modifies this`connections
      ensures DistinctQueues(connections)
      ensures connections == old(connections) - failed
    {
      var rest := failed;
      while rest != {}
        invariant DistinctQueues(connections)
        invariant rest <= failed
        invariant forall c :: c in connections <==> c in old(connections) && (c !in failed || c in rest)
        invariant forall c :: c in connections ==> connections[c] == old(connections)[c]
        decreases |rest|
      {
        var c :| c in rest;
        RemoveClient(c);
        rest := rest - {c};
      }
      assert connections == old(connections) - failed;
    }

    /**
     * `broadcast_lease_events`: with no clients nothing happens. Otherwise each event is
     * framed under the next message id, whether or not anyone is left to receive it, and put
     * on every remaining queue; a client whose put raises misses that frame and is dropped.
     */
    method BroadcastLeaseEvents(events: seq<LeaseEvent>, now: int, json: EventDict -> string, failures: set<(nat, string)>)
      requires Valid()
      modifies this`connections, this`messageIdCounter, Queues()
      ensures Valid()
      ensures messageIdCounter == old(messageIdCounter) + (if old(connections) == map[] then 0 else |events|)
      ensures connections == Survivors(old(connections), failures, |events|)
      ensures forall c :: c in old(connections) ==>
        old(connections)[c].queue.items == old(connections[c].queue.items)
          + Messages(events, old(messageIdCounter), now, json)[..FirstFailure(c, failures, |events|)]
    {
      if connections == map[] {
        return;
      }
      ghost var start := map c | c in connections :: connections[c].queue.items;
      DeliverEvents(events, now, json, failures, connections, start);
    }

    /** The outer loop of `broadcast_lease_events`, from a non-empty set of clients `initial`. */
    method DeliverEvents(events: seq<LeaseEvent>, now: int, json: EventDict -> string, failures: set<(nat, string)>,
                         ghost initial: map<string, Connection>, ghost start: map<string, seq<string>>)
      requires DistinctQueues(connections) && connections == initial && DistinctQueues(initial)
      requires forall c :: c in initial ==> c in start && initial[c].queue.items == start[c]
      modifies this`connections, this`messageIdCounter, Queues()
      ensures DistinctQueues(connections)
      ensures messageIdCounter == old(messageIdCounter) + |events|
      ensures connections == Survivors(initial, failures, |events|)
      ensures forall c :: c in initial ==>
        initial[c].queue.items == start[c] + Messages(events, old(messageIdCounter), now, json)[..FirstFailure(c, failures, |events|)]
    {
      ghost var msgs := Messages(events, messageIdCounter, now, json);
      var i := 0;
      while i < |events|
        invariant 0 <= i <= |events|
        invariant messageIdCounter == old(messageIdCounter) + i
        invariant connections == Survivors(initial, failures, i)
        invariant forall c :: c in initial ==> initial[c].queue.items == start[c] + msgs[..FirstFailure(c, failures, i)]
      {
        SurvivorsDistinct(initial, failures, i);
        DeliverEvent(events, now, json, failures, i, initial, start, old(messageIdCounter), msgs);
        i := i + 1;
      }
      SurvivorsDistinct(initial, failures, i);
    }

    /** One pass of the outer loop of `broadcast_lease_events`: frame the event, then deliver it. */
    method DeliverEvent(events: seq<LeaseEvent>, now: int, json: EventDict -> string, failures: set<(nat, string)>, i: nat,
                        ghost initial: map<string, Connection>, ghost start: map<string, seq<string>>,
                        ghost base: nat, ghost msgs: seq<string>)
      requires DistinctQueues(connections) && DistinctQueues(initial) && i < |events|
      requires msgs == Messages(events, base, now, json) && messageIdCounter == base + i
      requires connections == Survivors(initial, failures, i)
      requires forall c :: c in initial ==> c in start && initial[c].queue.items == start[c] + msgs[..FirstFailure(c, failures, i)]
      modifies this`connections, this`messageIdCounter, Queues()
      ensures DistinctQueues(connections) && Queues() <= old(Queues())
      ensures messageIdCounter == old(messageIdCounter) + 1
      ensures connections == Survivors(initial, failures, i + 1)
      ensures forall c :: c in initial ==> initial[c].queue.items == start[c] + msgs[..FirstFailure(c, failures, i + 1)]
    {
      var msg := FormatSseMessage(EventTypeName(events[i].eventType), json(EventToDict(events[i], now)));
      assert msg == msgs[i];
      Deliver(initial, start, msgs, msg, i, failures);
    }

    /** One pass of the outer loop of `broadcast_lease_events`, for the message `msgs[i]`. */
    method Deliver(ghost initial: map<string, Connection>, ghost start: map<string, seq<string>>, ghost msgs: seq<string>,
                   msg: string, i: nat, failures: set<(nat, string)>)
      requires DistinctQueues(connections) && DistinctQueues(initial) && i < |msgs| && msg == msgs[i]
      requires connections == Survivors(initial, failures, i)
      requires forall c :: c in initial ==> c in start && initial[c].queue.items == start[c] + msgs[..FirstFailure(c, failures, i)]
      modifies this`connections, Queues()
      ensures DistinctQueues(connections) && Queues() <= old(Queues())
      ensures connections == Survivors(initial, failures, i + 1)
      ensures forall c :: c in initial ==> initial[c].queue.items == start[c] + msgs[..FirstFailure(c, failures, i + 1)]
    {
      ghost var before := connections;
      var failed := PutAll(msg, i, failures);
      RemoveClients(failed);
      SurvivorsStep(initial, failures, i, failed);
      forall c | c in initial
        ensures initial[c].queue.items == start[c] + msgs[..FirstFailure(c, failures, i + 1)]
      {
        if c in before {
          assert msgs[..i + 1] == msgs[..i] + [msg];
        } else {
          QueueOutside(initial, before, c);
        }
      }
    }

    /** `_cache_current_leases`: the cache becomes the list keyed by IP, the last lease per IP winning. */
    method CacheCurrentLeases(leases: seq<Lease>)
      requires Valid()
      modifies this`cachedLeases
      ensures Valid() && cachedLeases == KeyByIp(leases)
    {
      cachedLeases := KeyByIp(leases);
    }

    /**
     * `process_lease_change_notification`. In development mode the modifier is created on
     * first use, before the lease file is read, and the list read is put through it. A failed
     * read changes nothing else. Otherwise the changes against the cache are broadcast (when
     * there are any) and the cache is replaced by the list.
     */
    method ProcessLeaseChangeNotification(devMode: bool, pools: seq<Pool>, source: Result<seq<Lease>, LeaseFileError>,
                                          d: Draws, now: int, json: EventDict -> string, failures: set<(nat, string)>)
      requires Valid() && d.InRange()
      modifies this`connections, this`messageIdCounter, this`cachedLeases, this`devModifier, Queues(), devModifier
      ensures Valid()
      ensures devMode && old(devModifier) == null ==> fresh(devModifier)
      ensures !devMode || old(devModifier) != null ==> devModifier == old(devModifier)
      ensures source.Failure? ==>
        && connections == old(connections) && cachedLeases == old(cachedLeases)
        && messageIdCounter == old(messageIdCounter)
        && ModifierState(pools) == old(ModifierState(pools))
        && forall c :: c in connections ==> connections[c].queue.items == old(connections[c].queue.items)
      ensures source.Success? ==>
        var (mPools, mCounter, mDevices) := old(ModifierState(pools));
        var outcome := ModifyOutcome(mPools, mCounter, mDevices, source.value, d, now);
        var current := if devMode then outcome.0 else source.value;
        var events := DetectLeaseChanges(current, old(cachedLeases), now);
        && cachedLeases == KeyByIp(current)
        && ModifierState(pools) == (if devMode then (mPools, outcome.1, outcome.2) else old(ModifierState(pools)))
        && messageIdCounter == old(messageIdCounter) + (if old(connections) == map[] then 0 else |events|)
        && connections == Survivors(old(connections), failures, |events|)
        && forall c :: c in old(connections) ==>
          old(connections)[c].queue.items == old(connections[c].queue.items)
            + Messages(events, old(messageIdCounter), now, json)[..FirstFailure(c, failures, |events|)]
    {
      EnsureModifier(devMode, pools);
      if source.Failure? {
        return;
      }
      RefreshFromLeases(devMode, pools, source.value, d, now, json, failures);
    }

    /** The lazy creation of the modifier in development mode; its state reads as before. */
    method EnsureModifier(devMode: bool, pools: seq<Pool>)
      modifies this`devModifier
      ensures devMode ==> devModifier != null
      ensures devMode && old(devModifier) == null ==> fresh(devModifier)
      ensures !devMode || old(devModifier) != null ==> devModifier == old(devModifier)
      ensures ModifierState(pools) == old(ModifierState(pools))
    {
      if devMode && devModifier == null {
        devModifier := new DevLeaseModifier(pools);
      }
    }

    /** The part of `process_lease_change_notification` after a successful read. */
    method RefreshFromLeases(devMode: bool, pools: seq<Pool>, base: seq<Lease>,
                             d: Draws, now: int, json: EventDict -> string, failures: set<(nat, string)>)
      requires Valid() && d.InRange() && (devMode ==> devModifier != null)
      modifies this`connections, this`messageIdCounter, this`cachedLeases, Queues(), devModifier
      ensures Valid() && devModifier == old(devModifier)
      ensures var (mPools, mCounter, mDevices) := old(ModifierState(pools));
        var outcome := ModifyOutcome(mPools, mCounter, mDevices, base, d, now);
        var current := if devMode then outcome.0 else base;
        var events := DetectLeaseChanges(current, old(cachedLeases), now);
        && cachedLeases == KeyByIp(current)
        && ModifierState(pools) == (if devMode then (mPools, outcome.1, outcome.2) else old(ModifierState(pools)))
        && messageIdCounter == old(messageIdCounter) + (if old(connections) == map[] then 0 else |events|)
        && connections == Survivors(old(connections), failures, |events|)
        && forall c :: c in old(connections) ==>
          old(connections)[c].queue.items == old(connections[c].queue.items)
            + Messages(events, old(messageIdCounter), now, json)[..FirstFailure(c, failures, |events|)]
    {
      var current := ModifiedLeases(devMode, pools, base, d, now);
      BroadcastChanges(current, now, json, failures);
    }

    /** `_get_fake_modified_leases` once the modifier exists, or the list as read outside development mode. */
    method ModifiedLeases(devMode: bool, pools: seq<Pool>, base: seq<Lease>, d: Draws, now: int) returns (current: seq<Lease>)
      requires d.InRange() && (devMode ==> devModifier != null)
      modifies devModifier
      ensures var (mPools, mCounter, mDevices) := old(ModifierState(pools));
        var outcome := ModifyOutcome(mPools, mCounter, mDevices, base, d, now);
        && current == (if devMode then outcome.0 else base)
        && ModifierState(pools) == (if devMode then (mPools, outcome.1, outcome.2) else old(ModifierState(pools)))
    {
      current := base;
      if devMode {
        current := devModifier.ModifyLeases(current, d, now);
      }
    }

    /** The part of `process_lease_change_notification` after the list is read: diff, broadcast, cache. */
    method BroadcastChanges(current: seq<Lease>, now: int, json: EventDict -> string, failures: set<(nat, string)>)
      requires Valid()
      modifies this`connections, this`messageIdCounter, this`cachedLeases, Queues()
      ensures Valid()
      ensures cachedLeases == KeyByIp(current)
      ensures var events := DetectLeaseChanges(current, old(cachedLeases), now);
        && messageIdCounter == old(messageIdCounter) + (if old(connections) == map[] then 0 else |events|)
        && connections == Survivors(old(connections), failures, |events|)
        && forall c :: c in old(connections) ==>
          old(connections)[c].queue.items == old(connections[c].queue.items)
            + Messages(events, old(messageIdCounter), now, json)[..FirstFailure(c, failures, |events|)]
    {
      var events := DetectLeaseChangesLoop(current, cachedLeases, now);
      if events != [] {
        BroadcastLeaseEvents(events, now, json, failures);
      } else {
        assert connections == Survivors(connections, failures, 0);
      }
      CacheCurrentLeases(current);
    }
  }
}
