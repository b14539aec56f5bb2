/**
 * The snapshot diff of `SseService` (app/services/sse_service.py) and the event records it
 * produces (app/models/lease_update_event.py). Snapshots are dictionaries keyed by IP address;
 * Python dictionaries iterate in insertion order, so a snapshot keeps its key order.
 */
module Changes {
  import opened Wrappers
  import opened Leases

  /** A `{ip: lease}` dictionary: its keys in insertion order and its entries. */
  datatype LeaseTable = LeaseTable(order: seq<string>, byIp: map<string, Lease>)
  {
    /** Each key once, exactly the keys of the map, each entry stored under its own IP. */
    predicate Valid()
    {
      && (forall i, j :: 0 <= i < j < |order| ==> order[i] != order[j])
      && (forall ip :: ip in byIp ==> ip in order)
      && (forall ip :: ip in order ==> ip in byIp)
      && (forall ip :: ip in byIp ==> byIp[ip].ipAddress == ip)
    }
  }

  /** `d[lease.ip_address] = lease`: a new key goes last, an existing key keeps its place. */
  function Insert(t: LeaseTable, l: Lease): (r: LeaseTable)
    requires t.Valid()
    ensures r.Valid()
    ensures r.byIp == t.byIp[l.ipAddress := l]
    ensures r.order == if l.ipAddress in t.byIp then t.order else t.order + [l.ipAddress]
  {
    LeaseTable(if l.ipAddress in t.byIp then t.order else t.order + [l.ipAddress], t.byIp[l.ipAddress := l])
  }

  /**
   * `{lease.ip_address: lease for lease in leases}`: one entry per distinct IP, each key placed
   * where its IP first occurs.
   */
  function KeyByIp(leases: seq<Lease>): (t: LeaseTable)
    ensures t.Valid()
  {
    if leases == [] then LeaseTable([], map[])
    else Insert(KeyByIp(leases[..|leases| - 1]), leases[|leases| - 1])
  }

  /** The keys are exactly the IPs of the list. */
  lemma {:induction false} KeyByIpKeys(leases: seq<Lease>)
    ensures forall ip :: ip in KeyByIp(leases).byIp <==> exists i :: 0 <= i < |leases| && leases[i].ipAddress == ip
    decreases |leases|
  {
    if leases != [] {
      var n := |leases| - 1;
      var front := leases[..n];
      KeyByIpKeys(front);
      assert forall i :: 0 <= i < n ==> front[i] == leases[i];
      forall ip | ip in KeyByIp(leases).byIp
        ensures exists i :: 0 <= i < |leases| && leases[i].ipAddress == ip
      {
        if ip != leases[n].ipAddress {
          var i :| 0 <= i < n && front[i].ipAddress == ip;
          assert leases[i].ipAddress == ip;
        }
      }
    }
  }

  /** A key of the table of the first `n` leases occurs among them. */
  lemma KeyOccurs(leases: seq<Lease>, n: nat, ip: string)
    requires n <= |leases| && ip in KeyByIp(leases[..n]).byIp
    ensures exists h :: 0 <= h < n && leases[h].ipAddress == ip
  {
    KeyByIpKeys(leases[..n]);
    var h :| 0 <= h < n && leases[..n][h].ipAddress == ip;
    assert leases[h] == leases[..n][h];
  }

  /** An IP that is not a key of that table occurs nowhere among the first `n` leases. */
  lemma KeyAbsent(leases: seq<Lease>, n: nat, ip: string)
    requires n <= |leases| && ip !in KeyByIp(leases[..n]).byIp
    ensures forall h :: 0 <= h < n ==> leases[h].ipAddress != ip
  {
    KeyByIpKeys(leases[..n]);
    assert forall h :: 0 <= h < n ==> leases[h] == leases[..n][h];
  }

  /** Duplicate IPs collapse and the last lease with an IP is the one kept. */
  lemma {:induction false} KeyByIpLastWins(leases: seq<Lease>, i: nat)
    requires i < |leases| && LastWithIp(leases, i)
    ensures leases[i].ipAddress in KeyByIp(leases).byIp
    ensures KeyByIp(leases).byIp[leases[i].ipAddress] == leases[i]
    decreases |leases|
  {
    var n := |leases| - 1;
    if i < n {
      var front := leases[..n];
      assert front[i] == leases[i];
      assert LastWithIp(front, i);
      KeyByIpLastWins(front, i);
      assert leases[n].ipAddress != leases[i].ipAddress;
    }
  }

  /** No later lease in the list has the same IP as `leases[i]`. */
  predicate LastWithIp(leases: seq<Lease>, i: nat)
    requires i < |leases|
  {
    forall j :: i < j < |leases| ==> leases[j].ipAddress != leases[i].ipAddress
  }

  /** `ip` occurs in `leases` for the first time at index `k`. */
  predicate FirstAt(leases: seq<Lease>, ip: string, k: nat)
  {
    k < |leases| && leases[k].ipAddress == ip && forall h :: 0 <= h < k ==> leases[h].ipAddress != ip
  }

  /** A first occurrence before `n` is also the first occurrence in the first `n` leases. */
  lemma FirstAtFront(leases: seq<Lease>, n: nat, ip: string, a: nat, h: nat)
    requires n <= |leases| && h < n && leases[h].ipAddress == ip && FirstAt(leases, ip, a)
    ensures FirstAt(leases[..n], ip, a)
  {
  }

  /**
   * The keys come in the order in which their IPs first occur in the list: a key placed before
   * another first occurs earlier. With `KeyByIpKeys` this fixes the key order completely.
   */
  lemma {:induction false} KeyByIpOrder(leases: seq<Lease>, p: nat, q: nat, a: nat, b: nat)
    requires p < q < |KeyByIp(leases).order|
    requires FirstAt(leases, KeyByIp(leases).order[p], a) && FirstAt(leases, KeyByIp(leases).order[q], b)
    ensures a < b
    decreases |leases|
  {
    var n := |leases| - 1;
    var front := leases[..n];
    var t := KeyByIp(front);
    var last := leases[n].ipAddress;
    var order := KeyByIp(leases).order;
    assert order == if last in t.byIp then t.order else t.order + [last];
    var x, y := order[p], order[q];
    assert x == t.order[p] && x in t.byIp;
    KeyOccurs(leases, n, x);
    var hp :| 0 <= hp < n && leases[hp].ipAddress == x;
    FirstAtFront(leases, n, x, a, hp);
    if q < |t.order| {
      assert y == t.order[q] && y in t.byIp;
      KeyOccurs(leases, n, y);
      var hq :| 0 <= hq < n && leases[hq].ipAddress == y;
      FirstAtFront(leases, n, y, b, hq);
      KeyByIpOrder(front, p, q, a, b);
    } else {
      assert y == last && y !in t.byIp;
      KeyAbsent(leases, n, y);
    }
  }

  // ---------------------------------------------------------------- events

  datatype EventType = LeaseAdded | LeaseRemoved | LeaseUpdated | LeaseExpired

  /** The `event_type` strings. */
  function EventTypeName(t: EventType): (s: string)
    ensures '\n' !in s && |s| > 6 && s[..6] == "lease_"
  {
    match t
    case LeaseAdded => "lease_added"
    case LeaseRemoved => "lease_removed"
    case LeaseUpdated => "lease_updated"
    case LeaseExpired => "lease_expired"
  }

  lemma EventTypeNamesDistinct(a: EventType, b: EventType)
    requires EventTypeName(a) == EventTypeName(b)
    ensures a == b
  {
    assert EventTypeName(a)[6] == EventTypeName(b)[6];
    assert EventTypeName(a)[8] == EventTypeName(b)[8];
  }

  /** `LeaseUpdateEvent`: the kind, the lease it is about, and when it was detected. */
  datatype LeaseEvent = LeaseEvent(eventType: EventType, lease: Lease, timestamp: int)

  /** The JSON object of an event; the timestamp stays as seconds. */
  datatype EventDict = EventDict(eventType: string, lease: LeaseDict, timestamp: int)

  /** `LeaseUpdateEvent.to_dict`, with the lease's activity judged at `now`. */
  function EventToDict(e: LeaseEvent, now: int): (d: EventDict)
    ensures d.eventType == EventTypeName(e.eventType)
    ensures d.lease == e.lease.ToDict(now) && d.lease.ipAddress == e.lease.ipAddress
    ensures d.timestamp == e.timestamp
  {
    EventDict(EventTypeName(e.eventType), e.lease.ToDict(now), e.timestamp)
  }

  // ---------------------------------------------------------------- comparisons

  /** `_lease_attributes_changed`: mac, hostname, expiry, client id or static flag differ. */
  predicate AttributesChanged(current: Lease, cached: Lease)
  {
    || current.macAddress != cached.macAddress
    || current.hostname != cached.hostname
    || current.leaseTime != cached.leaseTime
    || current.clientId != cached.clientId
    || current.isStatic != cached.isStatic
  }

  /** Unchanged attributes mean equal leases up to the IP and the pool name, which are not compared. */
  lemma AttributesChangedMeaning(current: Lease, cached: Lease)
    ensures !AttributesChanged(current, cached) <==> current.(ipAddress := cached.ipAddress, poolName := cached.poolName) == cached
  {
  }

  /** `_lease_became_expired`: inactive now, while the cached copy is active now. */
  predicate BecameExpired(current: Lease, cached: Lease, now: int)
  {
    !current.IsActive(now) && cached.IsActive(now)
  }

  /** A lease can only have become expired if its expiry changed, to a time not after `now`. */
  lemma ExpiredIsChanged(current: Lease, cached: Lease, now: int)
    requires BecameExpired(current, cached, now)
    ensures AttributesChanged(current, cached)
    ensures current.leaseTime != 0 && current.leaseTime <= now
  {
  }

  // ---------------------------------------------------------------- the diff

  /** The three loops of `_detect_lease_changes`. */
  datatype Phase = AddedPhase | RemovedPhase | CommonPhase

  /** The snapshot a phase walks: the cached one for removals, the current one otherwise. */
  function Walked(phase: Phase, current: LeaseTable, cached: LeaseTable): LeaseTable
  {
    if phase == RemovedPhase then cached else current
  }

  predicate Covers(phase: Phase, ips: seq<string>, current: LeaseTable, cached: LeaseTable)
  {
    forall ip :: ip in ips ==> ip in Walked(phase, current, cached).byIp
  }

  /** What one phase emits for one IP of the snapshot it walks. */
  function IpEvents(phase: Phase, ip: string, current: LeaseTable, cached: LeaseTable, now: int): (r: seq<LeaseEvent>)
    requires ip in Walked(phase, current, cached).byIp
    ensures |r| <= 2
    ensures |r| == 2 ==> r[0].eventType == LeaseUpdated && r[1].eventType == LeaseExpired
    ensures forall e :: e in r ==> e.lease == Walked(phase, current, cached).byIp[ip] && e.timestamp == now
  {
    match phase
    case AddedPhase =>
      if ip in cached.byIp then [] else [LeaseEvent(LeaseAdded, current.byIp[ip], now)]
    case RemovedPhase =>
      if ip in current.byIp then [] else [LeaseEvent(LeaseRemoved, cached.byIp[ip], now)]
    case CommonPhase =>
      if ip !in cached.byIp then []
      else
        var c, o := current.byIp[ip], cached.byIp[ip];
        (if AttributesChanged(c, o) then [LeaseEvent(LeaseUpdated, c, now)] else [])
          + (if BecameExpired(c, o, now) then [LeaseEvent(LeaseExpired, c, now)] else [])
  }

  /** What one phase emits for the IPs `ips`, in their order. */
  function PhaseEvents(phase: Phase, ips: seq<string>, current: LeaseTable, cached: LeaseTable, now: int): seq<LeaseEvent>
    requires Covers(phase, ips, current, cached)
  {
    if ips == [] then []
    else
      var front := ips[..|ips| - 1];
      assert forall ip :: ip in front ==> ip in ips;
      PhaseEvents(phase, front, current, cached, now) + IpEvents(phase, ips[|ips| - 1], current, cached, now)
  }

  /**
   * `_detect_lease_changes` against the cached snapshot: additions in current order, removals
   * in cached order, then per common IP its update and its expiry.
   */
  function DetectChanges(current: LeaseTable, cached: LeaseTable, now: int): seq<LeaseEvent>
    requires current.Valid() && cached.Valid()
  {
    PhaseEvents(AddedPhase, current.order, current, cached, now)
      + PhaseEvents(RemovedPhase, cached.order, current, cached, now)
      + PhaseEvents(CommonPhase, current.order, current, cached, now)
  }

  /** The diff of a fresh lease list: it is keyed by IP first. */
  function DetectLeaseChanges(currentLeases: seq<Lease>, cached: LeaseTable, now: int): seq<LeaseEvent>
    requires cached.Valid()
  {
    DetectChanges(KeyByIp(currentLeases), cached, now)
  }

  // ---------------------------------------------------------------- what the diff means

  /** When an event is due: the reference description of the four kinds. */
  predicate Justified(e: LeaseEvent, current: LeaseTable, cached: LeaseTable, now: int)
  {
    var ip := e.lease.ipAddress;
    e.timestamp == now &&
    match e.eventType
    case LeaseAdded => ip in current.byIp && ip !in cached.byIp && current.byIp[ip] == e.lease
    case LeaseRemoved => ip in cached.byIp && ip !in current.byIp && cached.byIp[ip] == e.lease
    case LeaseUpdated =>
      ip in current.byIp && ip in cached.byIp && current.byIp[ip] == e.lease && AttributesChanged(e.lease, cached.byIp[ip])
    case LeaseExpired =>
      ip in current.byIp && ip in cached.byIp && current.byIp[ip] == e.lease && BecameExpired(e.lease, cached.byIp[ip], now)
  }

  /** The kinds a phase can emit. */
  predicate OfPhase(phase: Phase, t: EventType)
  {
    match phase
    case AddedPhase => t == LeaseAdded
    case RemovedPhase => t == LeaseRemoved
    case CommonPhase => t == LeaseUpdated || t == LeaseExpired
  }

  /** One IP's events are justified ones of the phase's kinds, and every justified one is there. */
  lemma IpEventsJustified(phase: Phase, ip: string, current: LeaseTable, cached: LeaseTable, now: int, e: LeaseEvent)
    requires current.Valid() && cached.Valid()
    requires ip in Walked(phase, current, cached).byIp
    ensures e in IpEvents(phase, ip, current, cached, now) <==>
      e.lease.ipAddress == ip && OfPhase(phase, e.eventType) && Justified(e, current, cached, now)
  {
  }

  /** An event is in a phase's output exactly when one of the walked IPs emits it. */
  lemma {:induction false} PhaseMember(phase: Phase, ips: seq<string>, current: LeaseTable, cached: LeaseTable, now: int, e: LeaseEvent)
    requires current.Valid() && cached.Valid() && Covers(phase, ips, current, cached)
    ensures e in PhaseEvents(phase, ips, current, cached, now) <==>
      e.lease.ipAddress in ips && e in IpEvents(phase, e.lease.ipAddress, current, cached, now)
    decreases |ips|
  {
    if ips != [] {
      var front, last := ips[..|ips| - 1], ips[|ips| - 1];
      assert forall ip :: ip in front ==> ip in ips;
      assert ips == front + [last];
      PhaseMember(phase, front, current, cached, now, e);
      if e in IpEvents(phase, last, current, cached, now) {
        assert e.lease.ipAddress == last by {
          var w := Walked(phase, current, cached);
          assert e.lease == w.byIp[last];
        }
      }
    }
  }

  /** Every IP a phase's events are about is one of the IPs it walked. */
  lemma PhaseIps(phase: Phase, ips: seq<string>, current: LeaseTable, cached: LeaseTable, now: int)
    requires current.Valid() && cached.Valid() && Covers(phase, ips, current, cached)
    ensures forall e :: e in PhaseEvents(phase, ips, current, cached, now) ==> e.lease.ipAddress in ips
  {
    forall e | e in PhaseEvents(phase, ips, current, cached, now)
      ensures e.lease.ipAddress in ips
    {
      PhaseMember(phase, ips, current, cached, now, e);
    }
  }

  /**
   * The four kinds, both directions: an event is emitted exactly when it is justified. Added,
   * updated and expired events carry the current lease, removed ones the cached lease.
   */
  lemma DetectedExactly(current: LeaseTable, cached: LeaseTable, now: int, e: LeaseEvent)
    requires current.Valid() && cached.Valid()
    ensures e in DetectChanges(current, cached, now) <==> Justified(e, current, cached, now)
  {
    var ip := e.lease.ipAddress;
    PhaseMember(AddedPhase, current.order, current, cached, now, e);
    PhaseMember(RemovedPhase, cached.order, current, cached, now, e);
    PhaseMember(CommonPhase, current.order, current, cached, now, e);
    if ip in current.order {
      IpEventsJustified(AddedPhase, ip, current, cached, now, e);
      IpEventsJustified(CommonPhase, ip, current, cached, now, e);
    }
    if ip in cached.order {
      IpEventsJustified(RemovedPhase, ip, current, cached, now, e);
    }
  }

  /** `ips[p]` is `a` and `ips[q]` is `b` for some `p <= q`. */
  predicate NotAfter(ips: seq<string>, a: string, b: string)
  {
    exists p, q :: 0 <= p <= q < |ips| && ips[p] == a && ips[q] == b
  }

  /** Events follow the order of `ips`, and no IP has two events of one kind. */
  predicate OrderedBy(ips: seq<string>, ev: seq<LeaseEvent>)
  {
    && OnePerKind(ev)
    && forall i, j :: 0 <= i < j < |ev| ==> NotAfter(ips, ev[i].lease.ipAddress, ev[j].lease.ipAddress)
  }

  /** Peeling the last walked IP off a phase. */
  lemma PhaseEventsSnoc(phase: Phase, ips: seq<string>, i: nat, current: LeaseTable, cached: LeaseTable, now: int)
    requires i < |ips| && Covers(phase, ips, current, cached)
    ensures Covers(phase, ips[..i], current, cached) && Covers(phase, ips[..i + 1], current, cached)
    ensures PhaseEvents(phase, ips[..i + 1], current, cached, now)
      == PhaseEvents(phase, ips[..i], current, cached, now) + IpEvents(phase, ips[i], current, cached, now)
  {
    assert ips[..i + 1][..i] == ips[..i];
    assert forall ip :: ip in ips[..i + 1] ==> ip in ips;
  }

  /** A phase only emits its own kinds. */
  lemma PhaseKinds(phase: Phase, ips: seq<string>, current: LeaseTable, cached: LeaseTable, now: int)
    requires current.Valid() && cached.Valid() && Covers(phase, ips, current, cached)
    ensures forall e :: e in PhaseEvents(phase, ips, current, cached, now) ==> OfPhase(phase, e.eventType)
  {
    forall e | e in PhaseEvents(phase, ips, current, cached, now)
      ensures OfPhase(phase, e.eventType)
    {
      PhaseMember(phase, ips, current, cached, now, e);
      IpEventsJustified(phase, e.lease.ipAddress, current, cached, now, e);
    }
  }

  /** The events one IP emits are all about that IP. */
  lemma IpEventsAbout(phase: Phase, ip: string, current: LeaseTable, cached: LeaseTable, now: int)
    requires current.Valid() && cached.Valid()
    requires ip in Walked(phase, current, cached).byIp
    ensures forall e :: e in IpEvents(phase, ip, current, cached, now) ==> e.lease.ipAddress == ip
  {
    var w := Walked(phase, current, cached);
    assert w.byIp[ip].ipAddress == ip;
  }

  /** Appending one IP's events keeps the order, given that IP was not walked before. */
  lemma OrderedSnoc(front: seq<string>, last: string, pre: seq<LeaseEvent>, tail: seq<LeaseEvent>)
    requires OrderedBy(front, pre) && last !in front
    requires forall e :: e in pre ==> e.lease.ipAddress in front
    requires forall e :: e in tail ==> e.lease.ipAddress == last
    requires |tail| <= 2 && (|tail| == 2 ==> tail[0].eventType != tail[1].eventType)
    ensures OrderedBy(front + [last], pre + tail)
  {
    var ips, ev := front + [last], pre + tail;
    var n := |front|;
    forall i, j | 0 <= i < j < |ev|
      ensures NotAfter(ips, ev[i].lease.ipAddress, ev[j].lease.ipAddress)
      ensures ev[i].lease.ipAddress != ev[j].lease.ipAddress || ev[i].eventType != ev[j].eventType
    {
      if j < |pre| {
        assert ev[i] == pre[i] && ev[j] == pre[j];
        assert NotAfter(front, pre[i].lease.ipAddress, pre[j].lease.ipAddress);
        var p, q :| 0 <= p <= q < |front| && front[p] == pre[i].lease.ipAddress && front[q] == pre[j].lease.ipAddress;
        assert ips[p] == front[p] && ips[q] == front[q];
      } else if i < |pre| {
        assert ev[i] == pre[i] && ev[j] == tail[j - |pre|];
        assert pre[i] in pre && tail[j - |pre|] in tail;
        var a := pre[i].lease.ipAddress;
        var p :| 0 <= p < |front| && front[p] == a;
        assert ips[p] == a && ips[n] == last;
      } else {
        assert ev[i] == tail[i - |pre|] && ev[j] == tail[j - |pre|];
        assert tail[i - |pre|] in tail && tail[j - |pre|] in tail;
        assert ips[n] == last;
      }
    }
  }

  /**
   * Within a phase events follow the order of the walked IPs, and no IP has two events of
   * one kind.
   */
  lemma {:induction false} PhaseOrdered(phase: Phase, ips: seq<string>, current: LeaseTable, cached: LeaseTable, now: int)
    requires current.Valid() && cached.Valid() && Covers(phase, ips, current, cached)
    requires forall i, j :: 0 <= i < j < |ips| ==> ips[i] != ips[j]
    ensures OrderedBy(ips, PhaseEvents(phase, ips, current, cached, now))
    decreases |ips|
  {
    if ips != [] {
      var n := |ips| - 1;
      var front, last := ips[..n], ips[n];
      PhaseEventsSnoc(phase, ips, n, current, cached, now);
      assert ips[..n + 1] == ips && front + [last] == ips;
      assert last !in front;
      PhaseOrdered(phase, front, current, cached, now);
      PhaseIps(phase, front, current, cached, now);
      IpEventsAbout(phase, last, current, cached, now);
      OrderedSnoc(front, last, PhaseEvents(phase, front, current, cached, now), IpEvents(phase, last, current, cached, now));
    }
  }

  /** A phase emits nothing when each walked IP emits nothing. */
  lemma {:induction false} PhaseSilent(phase: Phase, ips: seq<string>, current: LeaseTable, cached: LeaseTable, now: int)
    requires Covers(phase, ips, current, cached)
    requires forall ip :: ip in ips ==> IpEvents(phase, ip, current, cached, now) == []
    ensures PhaseEvents(phase, ips, current, cached, now) == []
    decreases |ips|
  {
    if ips != [] {
      var n := |ips| - 1;
      PhaseEventsSnoc(phase, ips, n, current, cached, now);
      assert ips[..n + 1] == ips;
      assert forall ip :: ip in ips[..n] ==> ip in ips;
      PhaseSilent(phase, ips[..n], current, cached, now);
    }
  }

  /** Comparing a snapshot with itself finds nothing. */
  lemma NoChangeNoEvents(t: LeaseTable, now: int)
    requires t.Valid()
    ensures DetectChanges(t, t, now) == []
  {
    forall phase: Phase, ip | ip in t.order
      ensures IpEvents(phase, ip, t, t, now) == []
    {
      var l := t.byIp[ip];
      assert !AttributesChanged(l, l) && !BecameExpired(l, l, now);
    }
    PhaseSilent(AddedPhase, t.order, t, t, now);
    PhaseSilent(RemovedPhase, t.order, t, t, now);
    PhaseSilent(CommonPhase, t.order, t, t, now);
  }

  /** Reading the same leases as are cached emits no events. */
  lemma SameLeasesNoEvents(leases: seq<Lease>, now: int)
    ensures DetectLeaseChanges(leases, KeyByIp(leases), now) == []
  {
    NoChangeNoEvents(KeyByIp(leases), now);
  }

  function Rank(t: EventType): nat
  {
    match t
    case LeaseAdded => 0
    case LeaseRemoved => 1
    case _ => 2
  }

  /** The rank of every event is the rank of its phase. */
  lemma PhaseRanks(current: LeaseTable, cached: LeaseTable, now: int)
    requires current.Valid() && cached.Valid()
    ensures forall e :: e in PhaseEvents(AddedPhase, current.order, current, cached, now) ==> Rank(e.eventType) == 0
    ensures forall e :: e in PhaseEvents(RemovedPhase, cached.order, current, cached, now) ==> Rank(e.eventType) == 1
    ensures forall e :: e in PhaseEvents(CommonPhase, current.order, current, cached, now) ==> Rank(e.eventType) == 2
  {
    PhaseKinds(AddedPhase, current.order, current, cached, now);
    PhaseKinds(RemovedPhase, cached.order, current, cached, now);
    PhaseKinds(CommonPhase, current.order, current, cached, now);
  }

  /** All additions come first, then all removals, then updates and expiries. */
  lemma KindOrder(current: LeaseTable, cached: LeaseTable, now: int)
    requires current.Valid() && cached.Valid()
    ensures var ev := DetectChanges(current, cached, now);
      forall i, j :: 0 <= i < j < |ev| ==> Rank(ev[i].eventType) <= Rank(ev[j].eventType)
  {
    var a := PhaseEvents(AddedPhase, current.order, current, cached, now);
    var r := PhaseEvents(RemovedPhase, cached.order, current, cached, now);
    var c := PhaseEvents(CommonPhase, current.order, current, cached, now);
    PhaseRanks(current, cached, now);
    PartRanks(a, r, c);
  }

  /** Where the three phases sit in the concatenation. */
  lemma PartRanks(a: seq<LeaseEvent>, r: seq<LeaseEvent>, c: seq<LeaseEvent>)
    requires forall e :: e in a ==> Rank(e.eventType) == 0
    requires forall e :: e in r ==> Rank(e.eventType) == 1
    requires forall e :: e in c ==> Rank(e.eventType) == 2
    ensures var ev := a + r + c;
      forall i :: 0 <= i < |ev| ==> Rank(ev[i].eventType) == if i < |a| then 0 else if i < |a| + |r| then 1 else 2
  {
    var ev := a + r + c;
    forall i | 0 <= i < |ev|
      ensures Rank(ev[i].eventType) == if i < |a| then 0 else if i < |a| + |r| then 1 else 2
    {
      if i < |a| {
        assert ev[i] == a[i] && a[i] in a;
      } else if i < |a| + |r| {
        assert ev[i] == r[i - |a|] && r[i - |a|] in r;
      } else {
        assert ev[i] == c[i - |a| - |r|] && c[i - |a| - |r|] in c;
      }
    }
  }

  /** No IP gets two events of one kind from one diff. */
  lemma OneEventPerKindAndIp(current: LeaseTable, cached: LeaseTable, now: int)
    requires current.Valid() && cached.Valid()
    ensures OnePerKind(DetectChanges(current, cached, now))
  {
    var a := PhaseEvents(AddedPhase, current.order, current, cached, now);
    var r := PhaseEvents(RemovedPhase, cached.order, current, cached, now);
    var c := PhaseEvents(CommonPhase, current.order, current, cached, now);
    PhaseOrdered(AddedPhase, current.order, current, cached, now);
    PhaseOrdered(RemovedPhase, cached.order, current, cached, now);
    PhaseOrdered(CommonPhase, current.order, current, cached, now);
    PhaseRanks(current, cached, now);
    PartsOnePerKind(a, r, c);
  }

  /** No two events share both IP and kind. */
  predicate OnePerKind(ev: seq<LeaseEvent>)
  {
    forall i, j :: 0 <= i < j < |ev| ==>
      ev[i].lease.ipAddress != ev[j].lease.ipAddress || ev[i].eventType != ev[j].eventType
  }

  lemma PartsOnePerKind(a: seq<LeaseEvent>, r: seq<LeaseEvent>, c: seq<LeaseEvent>)
    requires OnePerKind(a) && OnePerKind(r) && OnePerKind(c)
    requires forall e :: e in a ==> Rank(e.eventType) == 0
    requires forall e :: e in r ==> Rank(e.eventType) == 1
    requires forall e :: e in c ==> Rank(e.eventType) == 2
    ensures OnePerKind(a + r + c)
  {
    var ev := a + r + c;
    PartRanks(a, r, c);
    forall i, j | 0 <= i < j < |ev|
      ensures ev[i].lease.ipAddress != ev[j].lease.ipAddress || ev[i].eventType != ev[j].eventType
    {
      if j < |a| {
        assert ev[i] == a[i] && ev[j] == a[j];
      } else if i >= |a| + |r| {
        assert ev[i] == c[i - |a| - |r|] && ev[j] == c[j - |a| - |r|];
      } else if i >= |a| && j < |a| + |r| {
        assert ev[i] == r[i - |a|] && ev[j] == r[j - |a|];
      } else {
        assert Rank(ev[i].eventType) != Rank(ev[j].eventType);
      }
    }
  }

  /** Every expiry is the event right after the update of the same lease. */
  predicate ExpiryAfterUpdate(ev: seq<LeaseEvent>)
  {
    forall i :: 0 <= i < |ev| && ev[i].eventType == LeaseExpired ==>
      i > 0 && ev[i - 1] == ev[i].(eventType := LeaseUpdated)
  }

  /**
   * For an IP in both snapshots the update comes before the expiry; in fact an expiry is
   * always directly preceded by that lease's update.
   */
  lemma {:induction false} ExpiryFollowsUpdate(ips: seq<string>, current: LeaseTable, cached: LeaseTable, now: int)
    requires current.Valid() && cached.Valid() && Covers(CommonPhase, ips, current, cached)
    ensures ExpiryAfterUpdate(PhaseEvents(CommonPhase, ips, current, cached, now))
    decreases |ips|
  {
    if ips != [] {
      var n := |ips| - 1;
      var last := ips[n];
      PhaseEventsSnoc(CommonPhase, ips, n, current, cached, now);
      assert ips[..n + 1] == ips;
      ExpiryFollowsUpdate(ips[..n], current, cached, now);
      var pre := PhaseEvents(CommonPhase, ips[..n], current, cached, now);
      var tail := IpEvents(CommonPhase, last, current, cached, now);
      if last in cached.byIp {
        var c, o := current.byIp[last], cached.byIp[last];
        if BecameExpired(c, o, now) {
          ExpiredIsChanged(c, o, now);
          assert tail == [LeaseEvent(LeaseUpdated, c, now), LeaseEvent(LeaseExpired, c, now)];
        } else {
          assert forall k :: 0 <= k < |tail| ==> tail[k].eventType == LeaseUpdated;
        }
      }
      var ev := pre + tail;
      forall i | 0 <= i < |ev| && ev[i].eventType == LeaseExpired
        ensures i > 0 && ev[i - 1] == ev[i].(eventType := LeaseUpdated)
      {
        if i < |pre| {
          assert ev[i] == pre[i];
          assert i > 0;
          assert ev[i - 1] == pre[i - 1];
        } else {
          assert ev[i] == tail[i - |pre|];
        }
      }
    }
  }

  /** Expiries in a whole diff follow their update. */
  lemma ExpiryFollowsUpdateInDiff(current: LeaseTable, cached: LeaseTable, now: int)
    requires current.Valid() && cached.Valid()
    ensures ExpiryAfterUpdate(DetectChanges(current, cached, now))
  {
    var a := PhaseEvents(AddedPhase, current.order, current, cached, now);
    var r := PhaseEvents(RemovedPhase, cached.order, current, cached, now);
    var c := PhaseEvents(CommonPhase, current.order, current, cached, now);
    ExpiryFollowsUpdate(current.order, current, cached, now);
    PhaseRanks(current, cached, now);
    var ev := a + r + c;
    PartRanks(a, r, c);
    forall i | |a| + |r| <= i < |ev| && ev[i].eventType == LeaseExpired
      ensures i > 0 && ev[i - 1] == ev[i].(eventType := LeaseUpdated)
    {
      var k := i - |a| - |r|;
      assert ev[i] == c[k];
      assert k > 0 && c[k - 1] == c[k].(eventType := LeaseUpdated);
      assert ev[i - 1] == c[k - 1];
    }
  }

  /** The third loop's step for one IP, spelled out. */
  lemma CommonIpEvents(ip: string, current: LeaseTable, cached: LeaseTable, now: int)
    requires ip in current.byIp
    ensures ip !in cached.byIp ==> IpEvents(CommonPhase, ip, current, cached, now) == []
    ensures ip in cached.byIp ==>
      var c, o := current.byIp[ip], cached.byIp[ip];
      var u := LeaseEvent(LeaseUpdated, c, now);
      var x := LeaseEvent(LeaseExpired, c, now);
      IpEvents(CommonPhase, ip, current, cached, now) ==
        if AttributesChanged(c, o) then (if BecameExpired(c, o, now) then [] + [u] + [x] else [] + [u])
        else (if BecameExpired(c, o, now) then [] + [x] else [])
  {
  }

  /** First loop of `_detect_lease_changes`: IPs of the current snapshot not in the cached one. */
  method CollectAdded(current: LeaseTable, cached: LeaseTable, now: int) returns (events: seq<LeaseEvent>)
    requires Covers(AddedPhase, current.order, current, cached)
    ensures events == PhaseEvents(AddedPhase, current.order, current, cached, now)
  {
    events := [];
    var i := 0;
    while i < |current.order|
      invariant 0 <= i <= |current.order|
      invariant Covers(AddedPhase, current.order[..i], current, cached)
      invariant events == PhaseEvents(AddedPhase, current.order[..i], current, cached, now)
    {
      var ip := current.order[i];
      assert ip in current.order;
      PhaseEventsSnoc(AddedPhase, current.order, i, current, cached, now);
      if ip !in cached.byIp {
        events := events + [LeaseEvent(LeaseAdded, current.byIp[ip], now)];
      }
      i := i + 1;
    }
    assert current.order[..i] == current.order;
  }

  /** Second loop: IPs of the cached snapshot gone from the current one. */
  method CollectRemoved(current: LeaseTable, cached: LeaseTable, now: int) returns (events: seq<LeaseEvent>)
    requires Covers(RemovedPhase, cached.order, current, cached)
    ensures events == PhaseEvents(RemovedPhase, cached.order, current, cached, now)
  {
    events := [];
    var i := 0;
    while i < |cached.order|
      invariant 0 <= i <= |cached.order|
      invariant Covers(RemovedPhase, cached.order[..i], current, cached)
      invariant events == PhaseEvents(RemovedPhase, cached.order[..i], current, cached, now)
    {
      var ip := cached.order[i];
      assert ip in cached.order;
      PhaseEventsSnoc(RemovedPhase, cached.order, i, current, cached, now);
      if ip !in current.byIp {
        events := events + [LeaseEvent(LeaseRemoved, cached.byIp[ip], now)];
      }
      i := i + 1;
    }
    assert cached.order[..i] == cached.order;
  }

  /** Third loop: per IP in both, an update if attributes differ, then an expiry if it expired. */
  method CollectCommon(current: LeaseTable, cached: LeaseTable, now: int) returns (events: seq<LeaseEvent>)
    requires Covers(CommonPhase, current.order, current, cached)
    ensures events == PhaseEvents(CommonPhase, current.order, current, cached, now)
  {
    events := [];
    var i := 0;
    while i < |current.order|
      invariant 0 <= i <= |current.order|
      invariant Covers(CommonPhase, current.order[..i], current, cached)
      invariant events == PhaseEvents(CommonPhase, current.order[..i], current, cached, now)
    {
      var ip := current.order[i];
      assert ip in current.order;
      PhaseEventsSnoc(CommonPhase, current.order, i, current, cached, now);
      var found := CommonEvents(ip, current, cached, now);
      events := events + found;
      i := i + 1;
    }
    assert current.order[..i] == current.order;
  }

  /** The body of the third loop for one IP: its update, then its expiry. */
  method CommonEvents(ip: string, current: LeaseTable, cached: LeaseTable, now: int) returns (found: seq<LeaseEvent>)
    requires ip in current.byIp
    ensures found == IpEvents(CommonPhase, ip, current, cached, now)
  {
    CommonIpEvents(ip, current, cached, now);
    found := [];
    if ip in cached.byIp {
      var currentLease, cachedLease := current.byIp[ip], cached.byIp[ip];
      if AttributesChanged(currentLease, cachedLease) {
        found := found + [LeaseEvent(LeaseUpdated, currentLease, now)];
      }
      if BecameExpired(currentLease, cachedLease, now) {
        found := found + [LeaseEvent(LeaseExpired, currentLease, now)];
      }
    }
  }

  /** `_detect_lease_changes`: key the fresh list by IP, then the three loops in turn. */
  method DetectLeaseChangesLoop(currentLeases: seq<Lease>, cached: LeaseTable, now: int) returns (events: seq<LeaseEvent>)
    requires cached.Valid()
    ensures events == DetectLeaseChanges(currentLeases, cached, now)
  {
    var current := KeyByIp(currentLeases);
    var added := CollectAdded(current, cached, now);
    var removed := CollectRemoved(current, cached, now);
    var common := CollectCommon(current, cached, now);
    events := added + removed + common;
  }
}
