/**
 * `DhcpLease` (app/models/dhcp_lease.py): one lease record. The expiry `leaseTime` is a Unix
 * timestamp in seconds; `0` means the lease never expires. The clock is the `now` argument.
 */
module Leases {
  import opened Wrappers

  /** The placeholder dnsmasq writes for an unknown hostname or client id. */
  const Unknown: string := "*"

  datatype Lease = Lease(
    ipAddress: string,
    macAddress: string,
    hostname: string,
    leaseTime: int,
    clientId: Option<string>,
    isStatic: bool,
    poolName: Option<string>)
  {
    /** `is_active`: expiry 0 never expires, any other expiry is active strictly before it. */
    predicate IsActive(now: int)
    {
      leaseTime == 0 || now < leaseTime
    }

    /** `to_dict` without the ISO rendering of the expiry, which stays as seconds. */
    function ToDict(now: int): (d: LeaseDict)
      ensures d.ipAddress == ipAddress && d.macAddress == macAddress
      ensures d.hostname == (if hostname == Unknown then None else Some(hostname))
      ensures d.clientId.None? <==> clientId.None? || clientId == Some(Unknown)
      ensures d.clientId.Some? ==> clientId == Some(d.clientId.value)
      ensures d.leaseTime == leaseTime
      ensures d.isActive == IsActive(now) && d.isStatic == isStatic
    {
      LeaseDict(
        ipAddress,
        macAddress,
        if hostname == Unknown then None else Some(hostname),
        leaseTime,
        if clientId == Some(Unknown) then None else clientId,
        IsActive(now),
        isStatic)
    }
  }

  /** The JSON object of a lease; `None` is JSON `null`. */
  datatype LeaseDict = LeaseDict(
    ipAddress: string,
    macAddress: string,
    hostname: Option<string>,
    leaseTime: int,
    clientId: Option<string>,
    isActive: bool,
    isStatic: bool)

  /** `DhcpLease(...)` with the constructor's defaults: not static, no client id unless given. */
  function NewLease(ipAddress: string, macAddress: string, hostname: string, leaseTime: int, clientId: Option<string>): (l: Lease)
    ensures l.ipAddress == ipAddress && l.macAddress == macAddress && l.hostname == hostname
    ensures l.leaseTime == leaseTime && l.clientId == clientId
    ensures !l.isStatic && l.poolName.None?
  {
    Lease(ipAddress, macAddress, hostname, leaseTime, clientId, false, None)
  }

  /** A lease with expiry 0 is active at every time. */
  lemma NeverExpires(l: Lease, now: int)
    requires l.leaseTime == 0
    ensures l.IsActive(now)
  {
  }

  /** Any other lease is active exactly before its expiry, static or not. */
  lemma ActiveBeforeExpiry(l: Lease, now: int)
    requires l.leaseTime != 0
    ensures l.IsActive(now) <==> now < l.leaseTime
    ensures l.IsActive(now) == l.(isStatic := !l.isStatic).IsActive(now)
  {
  }

  /** A lease active at time `t` was active at every earlier time. */
  lemma ActiveMonotone(l: Lease, earlier: int, t: int)
    requires earlier <= t && l.IsActive(t)
    ensures l.IsActive(earlier)
  {
  }
}
