/**
 * The strict dotted-quad reading of Python's `ipaddress.IPv4Address(str)` and its `str()`,
 * used by the pool model for `int(IPv4Address(s))` and `str(IPv4Address(n))`.
 */
module Ipv4 {
  import opened Wrappers
  import opened Text
  import opened Numbers

  /** Number of IPv4 addresses: addresses are the integers below this. */
  const AddressSpace: nat := 0x1_0000_0000

  /**
   * One octet as `ipaddress` reads it: one to three ASCII digits, no leading zero
   * (except "0" itself), value at most 255.
   */
  function ParseOctet(s: string): (r: Option<nat>)
    ensures r.Some? ==> r.value < 256
  {
    if |s| == 0 then None
    else if !AllDigits(s) then None
    else if |s| > 3 then None
    else if s != "0" && s[0] == '0' then None
    else if DigitsValue(s) > 255 then None
    else Some(DigitsValue(s))
  }

  /** The 32-bit integer of four octets, most significant first. */
  function ToWord(a: nat, b: nat, c: nat, d: nat): (n: nat)
    requires a < 256 && b < 256 && c < 256 && d < 256
    ensures n < AddressSpace
  {
    ((a * 256 + b) * 256 + c) * 256 + d
  }

  /** The four octets of a 32-bit integer (`n.to_bytes(4, 'big')`). */
  function Octets(n: nat): (r: seq<nat>)
    requires n < AddressSpace
    ensures |r| == 4 && r[0] < 256 && r[1] < 256 && r[2] < 256 && r[3] < 256
    ensures ToWord(r[0], r[1], r[2], r[3]) == n
  {
    var q1 := n / 256;
    var q2 := q1 / 256;
    var q3 := q2 / 256;
    [q3, q2 % 256, q1 % 256, n % 256]
  }

  /** `int(IPv4Address(s))`, or `None` where the constructor raises `AddressValueError`. */
  function ParseIPv4(s: string): (r: Option<nat>)
    ensures r.Some? ==> r.value < AddressSpace
  {
    if |s| == 0 then None
    else
      var parts := SplitOn(s, '.');
      if |parts| != 4 then None
      else
        match (ParseOctet(parts[0]), ParseOctet(parts[1]), ParseOctet(parts[2]), ParseOctet(parts[3]))
        case (Some(a), Some(b), Some(c), Some(d)) => Some(ToWord(a, b, c, d))
        case _ => None
  }

  /** `str(IPv4Address(n))`: the four octets in decimal joined by dots. */
  function FormatIPv4(n: nat): string
    requires n < AddressSpace
  {
    var o := Octets(n);
    Join([NatToString(o[0]), NatToString(o[1]), NatToString(o[2]), NatToString(o[3])], '.')
  }

  lemma OctetsOfWord(a: nat, b: nat, c: nat, d: nat)
    requires a < 256 && b < 256 && c < 256 && d < 256
    ensures Octets(ToWord(a, b, c, d)) == [a, b, c, d]
  {
    var n := ToWord(a, b, c, d);
    assert n / 256 == (a * 256 + b) * 256 + c;
    assert n / 256 / 256 == a * 256 + b;
    assert n / 256 / 256 / 256 == a;
  }

  lemma ParseOctetOfString(k: nat)
    requires k < 256
    ensures ParseOctet(NatToString(k)) == Some(k)
  {
    NatToStringValue(k);
    NatToStringCanonical(k);
    NatToStringShort(k);
  }

  /** The strict reader accepts only the canonical spelling of an octet. */
  lemma ParseOctetCanonical(s: string)
    requires ParseOctet(s).Some?
    ensures s == NatToString(ParseOctet(s).value)
  {
    CanonicalDigits(s);
  }

  lemma NoDotInNumber(k: nat)
    ensures '.' !in NatToString(k)
  {
  }

  /** Round trip: the strict reader reads back what `str` writes. */
  lemma {:induction false} ParseFormat(n: nat)
    requires n < AddressSpace
    ensures ParseIPv4(FormatIPv4(n)) == Some(n)
  {
    var o := Octets(n);
    var parts := [NatToString(o[0]), NatToString(o[1]), NatToString(o[2]), NatToString(o[3])];
    NoDotInNumber(o[0]);
    NoDotInNumber(o[1]);
    NoDotInNumber(o[2]);
    NoDotInNumber(o[3]);
    SplitJoin(parts, '.');
    ParseOctetOfString(o[0]);
    ParseOctetOfString(o[1]);
    ParseOctetOfString(o[2]);
    ParseOctetOfString(o[3]);
    assert |FormatIPv4(n)| > 0;
  }

  /** The other round trip: every string the strict reader accepts is canonical, so reading is injective. */
  lemma {:induction false} FormatParse(s: string)
    requires ParseIPv4(s).Some?
    ensures FormatIPv4(ParseIPv4(s).value) == s
  {
    var parts := SplitOn(s, '.');
    var a, b, c, d := ParseOctet(parts[0]).value, ParseOctet(parts[1]).value, ParseOctet(parts[2]).value, ParseOctet(parts[3]).value;
    ParseOctetCanonical(parts[0]);
    ParseOctetCanonical(parts[1]);
    ParseOctetCanonical(parts[2]);
    ParseOctetCanonical(parts[3]);
    OctetsOfWord(a, b, c, d);
    JoinSplit(s, '.');
    assert parts == [parts[0], parts[1], parts[2], parts[3]];
  }

  /** Different addresses have different spellings. */
  lemma FormatInjective(m: nat, n: nat)
    requires m < AddressSpace && n < AddressSpace
    requires FormatIPv4(m) == FormatIPv4(n)
    ensures m == n
  {
    ParseFormat(m);
    ParseFormat(n);
  }
}
