/**
 * `DevLeaseModifier` (app/services/dev_lease_modifier.py): in development mode, each re-read of
 * a non-empty lease list applies one fake change, in the fixed rotation add, remove, expire,
 * hostname. Its random choices arrive as a `Draws` record; `random.choice(xs)` is
 * `xs[pick % len(xs)]`.
 */
module LeaseModifier {
  import opened Wrappers
  import opened Text
  import opened Numbers
  import opened Ipv4
  import opened Pools
  import opened Leases
  import opened LeaseParser

  datatype ModificationType = Add | Remove | Expire | Hostname

  /** `["add", "remove", "expire", "hostname"]`. */
  const Rotation: seq<ModificationType> := [Add, Remove, Expire, Hostname]

  /** The random values one call may consume. */
  datatype Draws = Draws(
    poolPick: nat,          // random.choice(self.dhcp_pools)
    ipOffset: nat,          // random.randint(0, ip_range), reduced modulo the range size
    macOctets: seq<nat>,    // five random.randint(0, 255)
    hoursOffset: nat,       // random.randint(1, 4)
    leasePick: nat,         // random.choice over leases or dynamic indices
    minutesChange: int,     // random.randint(-30, 120)
    hostnameNumber: nat)    // random.randint(1, 999)
  {
    /** The ranges `randint` guarantees. */
    predicate InRange()
    {
      && |macOctets| == 5 && (forall k :: 0 <= k < 5 ==> macOctets[k] < 256)
      && 1 <= hoursOffset <= 4
      && -30 <= minutesChange <= 120
      && 1 <= hostnameNumber <= 999
    }
  }

  /** The type chosen once the counter has been raised to `counter`. */
  function TypeFor(counter: nat): (t: ModificationType)
    ensures t == Rotation[counter % 4]
  {
    Rotation[counter % 4]
  }

  /** Counter values 1, 2, 3, 4 give remove, expire, hostname, add, and the cycle repeats. */
  lemma RotationCycle(counter: nat)
    ensures TypeFor(counter + 1) == [Remove, Expire, Hostname, Add][counter % 4]
    ensures TypeFor(counter + 4) == TypeFor(counter)
  {
  }

  // ---------------------------------------------------------------- building blocks

  /** `_copy_lease`: a new record with every field, pool name included, copied. */
  function CopyLease(l: Lease): (r: Lease)
    ensures r.ipAddress == l.ipAddress && r.macAddress == l.macAddress && r.hostname == l.hostname
    ensures r.leaseTime == l.leaseTime && r.clientId == l.clientId && r.isStatic == l.isStatic
    ensures r.poolName == l.poolName
  {
    Lease(l.ipAddress, l.macAddress, l.hostname, l.leaseTime, l.clientId, l.isStatic, l.poolName)
  }

  /** `[self._copy_lease(lease) for lease in base_leases]`: equal contents, in order. */
  function CopyAll(leases: seq<Lease>): (r: seq<Lease>)
    ensures r == leases
  {
    if leases == [] then [] else [CopyLease(leases[0])] + CopyAll(leases[1..])
  }

  /**
   * `_generate_random_ip_in_pool`: start plus the offset, both ends read strictly; `None` when
   * an end does not parse or the range is reversed (`randint` raises `ValueError`).
   */
  function GenerateRandomIpInPool(pool: Pool, offset: nat): (r: Option<string>)
    ensures r.Some? <==>
      ParseIPv4(pool.startIp).Some? && ParseIPv4(pool.endIp).Some? && ParseIPv4(pool.startIp).value <= ParseIPv4(pool.endIp).value
    ensures r.Some? ==> pool.ContainsIp(r.value)
  {
    match (ParseIPv4(pool.startIp), ParseIPv4(pool.endIp))
    case (Some(s), Some(e)) =>
      if e < s then None
      else
        var x := s + offset % (e - s + 1);
        ParseFormat(x);
        Some(FormatIPv4(x))
    case _ => None
  }

  /** The six pieces of a fake MAC: "02" then each random octet as two lower-case hex digits. */
  function MacPieces(octets: seq<nat>): (r: seq<string>)
    requires |octets| == 5 && forall k :: 0 <= k < 5 ==> octets[k] < 256
    ensures |r| == 6 && r[0] == "02"
    ensures forall k :: 0 <= k < 6 ==> |r[k]| == 2 && IsLowerHex(r[k][0]) && IsLowerHex(r[k][1])
    ensures forall k :: 0 <= k < 6 ==> AllHex(r[k])
    ensures forall k :: 0 <= k < 5 ==> 16 * HexValue(r[k + 1][0]) + HexValue(r[k + 1][1]) == octets[k]
  {
    ["02", Hex2(octets[0]), Hex2(octets[1]), Hex2(octets[2]), Hex2(octets[3]), Hex2(octets[4])]
  }

  /** `_generate_fake_mac`: the pieces joined by ':'. */
  function FakeMac(octets: seq<nat>): string
    requires |octets| == 5 && forall k :: 0 <= k < 5 ==> octets[k] < 256
  {
    Join(MacPieces(octets), ':')
  }

  predicate AllHex(s: string)
  {
    forall i :: 0 <= i < |s| ==> IsLowerHex(s[i])
  }

  /** The pieces written one after the other. */
  function Concat(pieces: seq<string>): string
  {
    if pieces == [] then "" else pieces[0] + Concat(pieces[1..])
  }

  /** Two-character pieces concatenate to twice as many characters. */
  lemma {:induction false} ConcatLength(pieces: seq<string>)
    requires forall k :: 0 <= k < |pieces| ==> |pieces[k]| == 2
    ensures |Concat(pieces)| == 2 * |pieces|
    decreases |pieces|
  {
    if pieces != [] {
      ConcatLength(pieces[1..]);
    }
  }

  /** Hex pieces concatenate to a hex string. */
  lemma {:induction false} ConcatHex(pieces: seq<string>)
    requires forall k :: 0 <= k < |pieces| ==> AllHex(pieces[k])
    ensures AllHex(Concat(pieces))
    decreases |pieces|
  {
    if pieces != [] {
      ConcatHex(pieces[1..]);
      var a, b := pieces[0], Concat(pieces[1..]);
      assert forall i :: 0 <= i < |a + b| ==> (a + b)[i] == if i < |a| then a[i] else b[i - |a|];
    }
  }

  /** `Pairs` cuts concatenated two-character pieces apart again. */
  lemma {:induction false} ConcatPairs(pieces: seq<string>)
    requires |pieces| >= 1
    requires forall k :: 0 <= k < |pieces| ==> |pieces[k]| == 2
    ensures |Concat(pieces)| == 2 * |pieces|
    ensures Pairs(Concat(pieces)) == pieces
    decreases |pieces|
  {
    ConcatLength(pieces);
    var c := Concat(pieces);
    if |pieces| == 1 {
      assert c == pieces[0];
    } else {
      var rest := pieces[1..];
      ConcatPairs(rest);
      assert c[..2] == pieces[0];
      assert c[2..] == Concat(rest);
      assert pieces == [pieces[0]] + rest;
    }
  }

  /** A hex string has no separator and nothing to lower-case. */
  lemma HexIsNormal(s: string)
    requires AllHex(s)
    ensures ':' !in s && '-' !in s
    ensures forall i :: 0 <= i < |s| ==> LowerChar(s[i]) == s[i]
  {
  }

  /** A fake MAC splits at ':' into its six pieces. */
  lemma FakeMacSplit(octets: seq<nat>)
    requires |octets| == 5 && forall k :: 0 <= k < 5 ==> octets[k] < 256
    ensures SplitOn(FakeMac(octets), ':') == MacPieces(octets)
  {
    var pieces := MacPieces(octets);
    forall k | 0 <= k < |pieces| ensures ':' !in pieces[k] {
      HexIsNormal(pieces[k]);
    }
    SplitJoin(pieces, ':');
  }

  /** A fake MAC is already in the normal form `_normalize_mac_address` produces. */
  lemma FakeMacNormal(octets: seq<nat>)
    requires |octets| == 5 && forall k :: 0 <= k < 5 ==> octets[k] < 256
    ensures NormalizeMac(FakeMac(octets)) == Some(FakeMac(octets))
  {
    var pieces := MacPieces(octets);
    ConcatPairs(pieces);
    ConcatHex(pieces);
    HexIsNormal(Concat(pieces));
    NormalFormFixed(Concat(pieces));
  }

  /** `[i for i, lease in enumerate(leases) if not lease.is_static]`. */
  function DynamicIndices(leases: seq<Lease>): (r: seq<nat>)
    ensures forall k :: 0 <= k < |r| ==> r[k] < |leases| && !leases[r[k]].isStatic
    ensures forall i :: 0 <= i < |leases| && !leases[i].isStatic ==> i in r
  {
    if leases == [] then []
    else
      var n := |leases| - 1;
      var front := DynamicIndices(leases[..n]);
      assert forall i :: 0 <= i < n ==> leases[..n][i] == leases[i];
      front + (if leases[n].isStatic then [] else [n])
  }

  /** `_remove_random_dynamic_lease`: drop one randomly chosen non-static lease, if there is one. */
  function RemoveRandomDynamicLease(leases: seq<Lease>, pick: nat): (r: seq<Lease>)
  {
    var dynamic := DynamicIndices(leases);
    if dynamic == [] then leases
    else
      var k := dynamic[pick % |dynamic|];
      leases[..k] + leases[k + 1..]
  }

  /** The static leases of a list, in order. */
  function StaticLeases(leases: seq<Lease>): seq<Lease>
  {
    if leases == [] then [] else (if leases[0].isStatic then [leases[0]] else []) + StaticLeases(leases[1..])
  }

  lemma {:induction false} StaticLeasesAppend(a: seq<Lease>, b: seq<Lease>)
    ensures StaticLeases(a + b) == StaticLeases(a) + StaticLeases(b)
    decreases |a|
  {
    if a != [] {
      assert (a + b)[1..] == a[1..] + b;
      StaticLeasesAppend(a[1..], b);
    } else {
      assert a + b == b;
    }
  }

  /** Deleting a non-static lease leaves the static leases as they were. */
  lemma StaticDrop(leases: seq<Lease>, k: nat)
    requires k < |leases| && !leases[k].isStatic
    ensures StaticLeases(leases[..k] + leases[k + 1..]) == StaticLeases(leases)
  {
    assert leases == leases[..k] + [leases[k]] + leases[k + 1..];
    StaticLeasesAppend(leases[..k] + [leases[k]], leases[k + 1..]);
    StaticLeasesAppend(leases[..k], [leases[k]]);
    StaticLeasesAppend(leases[..k], leases[k + 1..]);
    assert StaticLeases([leases[k]]) == [] by {
      assert [leases[k]][1..] == [];
    }
  }

  /** Removal keeps every static lease, in order. */
  lemma RemoveKeepsStatic(leases: seq<Lease>, pick: nat)
    ensures StaticLeases(RemoveRandomDynamicLease(leases, pick)) == StaticLeases(leases)
  {
    var dynamic := DynamicIndices(leases);
    if dynamic != [] {
      StaticDrop(leases, dynamic[pick % |dynamic|]);
    }
  }

  /**
   * Removal deletes exactly one non-static lease when there is one, and changes nothing when
   * every lease is static.
   */
  lemma RemoveDeletesOne(leases: seq<Lease>, pick: nat)
    ensures (forall i :: 0 <= i < |leases| ==> leases[i].isStatic) ==> RemoveRandomDynamicLease(leases, pick) == leases
    ensures (exists i :: 0 <= i < |leases| && !leases[i].isStatic) ==>
      exists k :: 0 <= k < |leases| && !leases[k].isStatic && RemoveRandomDynamicLease(leases, pick) == leases[..k] + leases[k + 1..]
  {
    var dynamic := DynamicIndices(leases);
    if dynamic != [] {
      var k := dynamic[pick % |dynamic|];
      assert !leases[k].isStatic;
    }
  }

  /**
   * `_modify_lease_expiration`: a random lease, unless static, has its expiry moved by
   * `minutes`; an expiry outside the `datetime` range raises `OverflowError`, which leaves the
   * list as it was.
   */
  function ModifyLeaseExpiration(leases: seq<Lease>, pick: nat, minutes: int): (r: seq<Lease>)
    ensures |r| == |leases|
  {
    if leases == [] then leases
    else
      var k := pick % |leases|;
      var lease := leases[k];
      if lease.isStatic then leases
      else
        var t := lease.leaseTime + 60 * minutes;
        if t < MinTimestamp || t > MaxTimestamp then leases
        else leases[k := lease.(leaseTime := t)]
  }

  /** `leases` and `r` agree everywhere except possibly at index `k`. */
  predicate SameExceptAt(leases: seq<Lease>, r: seq<Lease>, k: nat)
  {
    |r| == |leases| && k < |leases| && forall i :: 0 <= i < |leases| && i != k ==> r[i] == leases[i]
  }

  /** Expiry change touches at most one lease, only its expiry, never a static one. */
  lemma ExpirationChangesOne(leases: seq<Lease>, pick: nat, minutes: int)
    requires leases != []
    ensures var r := ModifyLeaseExpiration(leases, pick, minutes);
      exists k: nat :: SameExceptAt(leases, r, k) &&
        (r[k] == leases[k] || (!leases[k].isStatic && r[k] == leases[k].(leaseTime := leases[k].leaseTime + 60 * minutes)))
  {
    var k := pick % |leases|;
    assert SameExceptAt(leases, ModifyLeaseExpiration(leases, pick, minutes), k);
  }

  /** The name `_modify_hostname` gives: `modified-hostname-K`. */
  function ModifiedHostname(number: nat): string
  {
    "modified-hostname-" + NatToString(number)
  }

  /** `_modify_hostname`: a random lease, static or not, gets a new hostname. */
  function ModifyHostname(leases: seq<Lease>, pick: nat, number: nat): (r: seq<Lease>)
    ensures |r| == |leases|
  {
    if leases == [] then leases
    else
      var k := pick % |leases|;
      leases[k := leases[k].(hostname := ModifiedHostname(number))]
  }

  /** Hostname change touches exactly one lease, and only its hostname. */
  lemma HostnameChangesOne(leases: seq<Lease>, pick: nat, number: nat)
    requires leases != []
    ensures var r := ModifyHostname(leases, pick, number);
      exists k: nat :: SameExceptAt(leases, r, k) && r[k] == leases[k].(hostname := ModifiedHostname(number))
  {
    var k := pick % |leases|;
    assert SameExceptAt(leases, ModifyHostname(leases, pick, number), k);
  }

  /** The name given to the `n`-th generated device. */
  function DeviceName(n: nat): string
  {
    "test-device-" + NatToString(n)
  }

  /** The drawn pool reads and is not reversed, so an address is drawn from it. */
  predicate IpDrawn(pools: seq<Pool>, d: Draws)
  {
    pools != [] && GenerateRandomIpInPool(pools[d.poolPick % |pools|], d.ipOffset).Some?
  }

  /** An address is drawn and the expiry it would get lies in the `datetime` range. */
  predicate Generates(pools: seq<Pool>, d: Draws, now: int)
  {
    IpDrawn(pools, d) && MinTimestamp <= now + 3600 * d.hoursOffset <= MaxTimestamp
  }

  /**
   * `_generate_fake_lease` on the pools and the devices generated so far: the new lease (or
   * `None`) and the new device list. The device name is recorded before the expiry is
   * computed, so an expiry past the `datetime` range gives `None` with the name recorded.
   */
  function FakeLease(pools: seq<Pool>, devices: seq<string>, d: Draws, now: int): (r: (Option<Lease>, seq<string>))
    requires d.InRange()
    ensures r.1 == devices || r.1 == devices + [DeviceName(|devices| + 1)]
    ensures pools == [] ==> r == (None, devices)
    ensures r.0.Some? ==> r.1 == devices + [DeviceName(|devices| + 1)]
    ensures r.0.Some? <==> Generates(pools, d, now)
    ensures r.1 == devices + [DeviceName(|devices| + 1)] <==> IpDrawn(pools, d)
  {
    if pools == [] then (None, devices)
    else
      var pool := pools[d.poolPick % |pools|];
      match GenerateRandomIpInPool(pool, d.ipOffset)
      case None => (None, devices)
      case Some(ip) =>
        var hostname := DeviceName(|devices| + 1);
        var recorded := devices + [hostname];
        var expiry := now + 3600 * d.hoursOffset;
        if expiry < MinTimestamp || expiry > MaxTimestamp then (None, recorded)
        else (Some(Lease(ip, FakeMac(d.macOctets), hostname, expiry, None, false, Some(pool.poolName))), recorded)
  }

  /**
   * A generated lease is dynamic, has no client id, is named after the next device number,
   * has a normalised MAC and an IP inside the pool it names, and expires one to four hours on.
   */
  lemma FakeLeaseMeaning(pools: seq<Pool>, devices: seq<string>, d: Draws, now: int)
    requires d.InRange() && FakeLease(pools, devices, d, now).0.Some?
    ensures var l := FakeLease(pools, devices, d, now).0.value;
      && l.hostname == DeviceName(|devices| + 1)
      && !l.isStatic && l.clientId.None?
      && (exists p :: p in pools && p.ContainsIp(l.ipAddress) && l.poolName == Some(p.poolName))
      && NormalizeMac(l.macAddress) == Some(l.macAddress)
      && now + 3600 <= l.leaseTime <= now + 4 * 3600
  {
    FakeLeaseIs(pools, devices, d, now);
    var pool := pools[d.poolPick % |pools|];
    var ip := GenerateRandomIpInPool(pool, d.ipOffset);
    assert pool in pools && pool.ContainsIp(ip.value);
    FakeMacNormal(d.macOctets);
  }

  /** The lease `FakeLease` generates, written out. */
  lemma FakeLeaseIs(pools: seq<Pool>, devices: seq<string>, d: Draws, now: int)
    requires d.InRange() && FakeLease(pools, devices, d, now).0.Some?
    ensures pools != [] && GenerateRandomIpInPool(pools[d.poolPick % |pools|], d.ipOffset).Some?
    ensures var pool := pools[d.poolPick % |pools|];
      FakeLease(pools, devices, d, now).0.value
        == Lease(GenerateRandomIpInPool(pool, d.ipOffset).value, FakeMac(d.macOctets), DeviceName(|devices| + 1),
                 now + 3600 * d.hoursOffset, None, false, Some(pool.poolName))
  {
  }

  /** The whole of `modify_leases` on values: the leases returned, the new counter, the new devices. */
  function ModifyOutcome(pools: seq<Pool>, counter: nat, devices: seq<string>, base: seq<Lease>, d: Draws, now: int): (r: (seq<Lease>, nat, seq<string>))
    requires d.InRange()
  {
    if base == [] then ([], counter, devices)
    else
      var copies := CopyAll(base);
      match TypeFor(counter + 1)
      case Add =>
        var (lease, recorded) := FakeLease(pools, devices, d, now);
        (if lease.Some? then copies + [lease.value] else copies, counter + 1, recorded)
      case Remove => (RemoveRandomDynamicLease(copies, d.leasePick), counter + 1, devices)
      case Expire => (ModifyLeaseExpiration(copies, d.leasePick, d.minutesChange), counter + 1, devices)
      case Hostname => (ModifyHostname(copies, d.leasePick, d.hostnameNumber), counter + 1, devices)
  }

  /** An empty list comes back empty, and the rotation does not move. */
  lemma EmptyInput(pools: seq<Pool>, counter: nat, devices: seq<string>, d: Draws, now: int)
    requires d.InRange()
    ensures ModifyOutcome(pools, counter, devices, [], d, now) == ([], counter, devices)
  {
  }

  /** The very first change on a fresh modifier is a removal. */
  lemma FirstCallRemoves(pools: seq<Pool>, base: seq<Lease>, d: Draws, now: int)
    requires d.InRange() && base != []
    ensures ModifyOutcome(pools, 0, [], base, d, now) == (RemoveRandomDynamicLease(base, d.leasePick), 1, [])
  {
  }

  /** Every static lease of the input survives every call. */
  lemma StaticNeverRemoved(pools: seq<Pool>, counter: nat, devices: seq<string>, base: seq<Lease>, d: Draws, now: int, i: nat)
    requires d.InRange() && i < |base| && base[i].isStatic
    ensures base[i] in ModifyOutcome(pools, counter, devices, base, d, now).0
        || (TypeFor(counter + 1) == Hostname && base[i].(hostname := ModifiedHostname(d.hostnameNumber)) in ModifyOutcome(pools, counter, devices, base, d, now).0)
  {
    var r := ModifyOutcome(pools, counter, devices, base, d, now).0;
    match TypeFor(counter + 1)
    case Add => {
      var (lease, recorded) := FakeLease(pools, devices, d, now);
      assert base[i] == (if lease.Some? then base + [lease.value] else base)[i];
    }
    case Remove => {
      RemoveKeepsStatic(base, d.leasePick);
      StaticMember(base, i);
      StaticLeasesIn(RemoveRandomDynamicLease(base, d.leasePick), base[i]);
    }
    case Expire => {
      var k := d.leasePick % |base|;
      if k != i {
        assert r[i] == base[i];
      } else {
        assert r == base;
      }
    }
    case Hostname => {
      var k := d.leasePick % |base|;
      if k != i {
        assert r[i] == base[i];
      } else {
        assert r[i] == base[i].(hostname := ModifiedHostname(d.hostnameNumber));
      }
    }
  }

  lemma {:induction false} StaticMember(leases: seq<Lease>, i: nat)
    requires i < |leases| && leases[i].isStatic
    ensures leases[i] in StaticLeases(leases)
    decreases |leases|
  {
    if i > 0 {
      StaticMember(leases[1..], i - 1);
    }
  }

  lemma {:induction false} StaticLeasesIn(leases: seq<Lease>, l: Lease)
    requires l in StaticLeases(leases)
    ensures l in leases
    decreases |leases|
  {
    if leases != [] && l != leases[0] {
      StaticLeasesIn(leases[1..], l);
    }
  }

  /**
   * Adding appends one dynamic lease named after the next device number, whose IP lies in one
   * of the pools, exactly when the drawn pool yields an address and its expiry is in range;
   * otherwise the list comes back as it was. The device is recorded exactly when an address
   * was drawn.
   */
  lemma AddStep(pools: seq<Pool>, counter: nat, devices: seq<string>, base: seq<Lease>, d: Draws, now: int)
    requires d.InRange() && base != [] && TypeFor(counter + 1) == Add
    ensures var (r, c, devs) := ModifyOutcome(pools, counter, devices, base, d, now);
      && c == counter + 1
      && (pools == [] ==> r == base && devs == devices)
      && (devs == (if IpDrawn(pools, d) then devices + [DeviceName(|devices| + 1)] else devices))
      && (!Generates(pools, d, now) ==> r == base)
      && (Generates(pools, d, now) ==>
            && |r| == |base| + 1 && r[..|base|] == base
            && r[|base|].hostname == DeviceName(|devices| + 1) && !r[|base|].isStatic
            && (exists p :: p in pools && p.ContainsIp(r[|base|].ipAddress)))
  {
    var (lease, recorded) := FakeLease(pools, devices, d, now);
    if lease.Some? {
      FakeLeaseMeaning(pools, devices, d, now);
      assert (base + [lease.value])[..|base|] == base;
    }
  }

  // ---------------------------------------------------------------- the object

  class DevLeaseModifier {
    const pools: seq<Pool>
    var modificationCounter: nat
    var generatedDevices: seq<string>

    /** `DevLeaseModifier(dhcp_pools)`: counter at zero, no devices generated yet. */
    constructor (pools: seq<Pool>)
      ensures this.pools == pools && modificationCounter == 0 && generatedDevices == []
    {
      this.pools := pools;
      modificationCounter := 0;
      generatedDevices := [];
    }

    /** `_get_next_modification_type`: raise the counter, then index the rotation with it. */
    method NextModificationType() returns (t: ModificationType)
      modifies this`modificationCounter
      ensures modificationCounter == old(modificationCounter) + 1
      ensures t == Rotation[modificationCounter % 4]
    {
      modificationCounter := modificationCounter + 1;
      t := Rotation[modificationCounter % |Rotation|];
    }

    /** `_generate_fake_lease`: the name is recorded once an IP has been found. */
    method GenerateFakeLease(d: Draws, now: int) returns (lease: Option<Lease>)
      requires d.InRange()
      modifies this`generatedDevices
      ensures (lease, generatedDevices) == FakeLease(pools, old(generatedDevices), d, now)
    {
      lease := None;
      if pools != [] {
        var pool := pools[d.poolPick % |pools|];
        var ip := GenerateRandomIpInPool(pool, d.ipOffset);
        if ip.Some? {
          var hostname := DeviceName(|generatedDevices| + 1);
          generatedDevices := generatedDevices + [hostname];
          var expiry := now + 3600 * d.hoursOffset;
          var mac := FakeMac(d.macOctets);
          if MinTimestamp <= expiry <= MaxTimestamp {
            lease := Some(Lease(ip.value, mac, hostname, expiry, None, false, Some(pool.poolName)));
          }
        }
      }
    }

    /** `modify_leases`: copy the list, pick the next type, apply it to the copy. */
    method ModifyLeases(base: seq<Lease>, d: Draws, now: int) returns (leases: seq<Lease>)
      requires d.InRange()
      modifies this
      ensures (leases, modificationCounter, generatedDevices)
        == ModifyOutcome(pools, old(modificationCounter), old(generatedDevices), base, d, now)
    {
      if base == [] {
        return [];
      }
      leases := CopyAll(base);
      var t := NextModificationType();
      match t
      case Add =>
        var lease := GenerateFakeLease(d, now);
        if lease.Some? {
          leases := leases + [lease.value];
        }
      case Remove =>
        leases := RemoveRandomDynamicLease(leases, d.leasePick);
      case Expire =>
        leases := ModifyLeaseExpiration(leases, d.leasePick, d.minutesChange);
      case Hostname =>
        leases := ModifyHostname(leases, d.leasePick, d.hostnameNumber);
    }
  }
}
