/**
 * `DhcpPool` (app/models/dhcp_pool.py): one configured address range. Its constructor stores
 * the fields and computes `total_addresses` once; `contains_ip` and `to_dict` read the fields.
 */
module Pools {
  import opened Wrappers
  import opened Ipv4

  datatype Pool = Pool(
    poolName: string,
    startIp: string,
    endIp: string,
    netmask: string,
    leaseDuration: Option<int>,
    totalAddresses: int)
  {
    /**
     * `contains_ip`: the address and both ends parse strictly and the address lies between
     * them as 32-bit integers; any parse failure gives false.
     */
    predicate ContainsIp(ip: string)
    {
      match (ParseIPv4(ip), ParseIPv4(startIp), ParseIPv4(endIp))
      case (Some(x), Some(s), Some(e)) => s <= x <= e
      case _ => false
    }

    /** `to_dict`: the six fields, unchanged. */
    function ToDict(): (d: PoolDict)
      ensures d.poolName == poolName && d.startIp == startIp && d.endIp == endIp
      ensures d.netmask == netmask && d.leaseDuration == leaseDuration
      ensures d.totalAddresses == totalAddresses
    {
      PoolDict(poolName, startIp, endIp, netmask, leaseDuration, totalAddresses)
    }
  }

  /** The JSON object of a pool; `leaseDuration == None` is JSON null. */
  datatype PoolDict = PoolDict(
    poolName: string,
    startIp: string,
    endIp: string,
    netmask: string,
    leaseDuration: Option<int>,
    totalAddresses: int)

  /**
   * `_calculate_total_addresses`: `int(end) - int(start) + 1` when both ends parse, else 0.
   * Nothing clamps it, so a reversed range gives zero or a negative count.
   */
  function CalculateTotalAddresses(startIp: string, endIp: string): (r: int)
    ensures ParseIPv4(startIp).Some? && ParseIPv4(endIp).Some? ==>
              r == ParseIPv4(endIp).value - ParseIPv4(startIp).value + 1
    ensures ParseIPv4(startIp).None? || ParseIPv4(endIp).None? ==> r == 0
    ensures r > 0 <==> ParseIPv4(startIp).Some? && ParseIPv4(endIp).Some? && ParseIPv4(startIp).value <= ParseIPv4(endIp).value
  {
    match (ParseIPv4(startIp), ParseIPv4(endIp))
    case (Some(s), Some(e)) => (e as int) - (s as int) + 1
    case _ => 0
  }

  /** `DhcpPool(...)`: the fields as given, with the address count fixed at construction. */
  function NewPool(poolName: string, startIp: string, endIp: string, netmask: string, leaseDuration: Option<int>): (p: Pool)
    ensures p.poolName == poolName && p.startIp == startIp && p.endIp == endIp
    ensures p.netmask == netmask && p.leaseDuration == leaseDuration
    ensures p.totalAddresses == CalculateTotalAddresses(startIp, endIp)
  {
    Pool(poolName, startIp, endIp, netmask, leaseDuration, CalculateTotalAddresses(startIp, endIp))
  }

  /** A reversed range is not clamped: its count is at most zero. */
  lemma ReversedRangeNotClamped(startIp: string, endIp: string)
    requires ParseIPv4(startIp).Some? && ParseIPv4(endIp).Some?
    requires ParseIPv4(endIp).value < ParseIPv4(startIp).value
    ensures CalculateTotalAddresses(startIp, endIp) <= 0
  {
  }

  /** `contains_ip` accepts exactly the canonical spellings of the addresses in the range. */
  lemma {:induction false} ContainsIpCanonical(p: Pool, ip: string)
    requires ParseIPv4(p.startIp).Some? && ParseIPv4(p.endIp).Some?
    ensures p.ContainsIp(ip) <==>
      exists x: nat :: ParseIPv4(p.startIp).value <= x <= ParseIPv4(p.endIp).value && x < AddressSpace && ip == FormatIPv4(x)
  {
    var s, e := ParseIPv4(p.startIp).value, ParseIPv4(p.endIp).value;
    if p.ContainsIp(ip) {
      var x := ParseIPv4(ip).value;
      FormatParse(ip);
      assert s <= x <= e && x < AddressSpace && ip == FormatIPv4(x);
    }
    if exists x: nat :: s <= x <= e && x < AddressSpace && ip == FormatIPv4(x) {
      var x: nat :| s <= x <= e && x < AddressSpace && ip == FormatIPv4(x);
      ParseFormat(x);
    }
  }

  /** With a positive count, both ends of the range are in the pool. */
  lemma EndpointsContained(poolName: string, startIp: string, endIp: string, netmask: string, leaseDuration: Option<int>)
    requires NewPool(poolName, startIp, endIp, netmask, leaseDuration).totalAddresses > 0
    ensures NewPool(poolName, startIp, endIp, netmask, leaseDuration).ContainsIp(startIp)
    ensures NewPool(poolName, startIp, endIp, netmask, leaseDuration).ContainsIp(endIp)
  {
  }

  /** `lo <= x <= hi`, named so that sets of addresses have something to match on. */
  predicate Within(lo: int, x: int, hi: int)
  {
    lo <= x <= hi
  }

  lemma {:induction false} RangeCardinality(lo: int, hi: int)
    requires lo <= hi + 1
    ensures |set x: int | lo <= x <= hi && Within(lo, x, hi)| == hi - lo + 1
    decreases hi - lo + 1
  {
    if lo <= hi {
      var below := hi - 1;
      RangeCardinality(lo, below);
      assert (set x: int | lo <= x <= hi && Within(lo, x, hi)) == (set x: int | lo <= x <= below && Within(lo, x, below)) + {hi};
    } else {
      assert (set x: int | lo <= x <= hi && Within(lo, x, hi)) == {};
    }
  }

  /** With a positive count, exactly `total_addresses` addresses are in the pool. */
  lemma {:induction false} CountContained(poolName: string, startIp: string, endIp: string, netmask: string, leaseDuration: Option<int>)
    requires NewPool(poolName, startIp, endIp, netmask, leaseDuration).totalAddresses > 0
    ensures var p := NewPool(poolName, startIp, endIp, netmask, leaseDuration);
      |set x: nat | x < AddressSpace && p.ContainsIp(FormatIPv4(x))| == p.totalAddresses
  {
    var p := NewPool(poolName, startIp, endIp, netmask, leaseDuration);
    var s, e := ParseIPv4(startIp).value, ParseIPv4(endIp).value;
    var inPool := set x: nat | x < AddressSpace && p.ContainsIp(FormatIPv4(x));
    var range := set x: int | s <= x <= e && Within(s, x, e);
    forall x: nat | x < AddressSpace
      ensures p.ContainsIp(FormatIPv4(x)) <==> s <= x <= e
    {
      ParseFormat(x);
    }
    assert inPool == range;
    RangeCardinality(s, e);
  }
}
