/**
 * The pool used by the repository's tests: 192.168.1.10 to 192.168.1.20 holds eleven
 * addresses, both ends are inside, the neighbours and another subnet are outside.
 */
module PoolExample {
  import opened Wrappers
  import opened Text
  import opened Numbers
  import opened Ipv4
  import opened Pools

  lemma Strings192And168()
    ensures NatToString(192) == "192" && NatToString(168) == "168"
  {
    assert NatToString(19) == "19" && NatToString(16) == "16";
  }

  lemma ParsesAs(s: string, a: nat, b: nat, c: nat, d: nat)
    requires a < 256 && b < 256 && c < 256 && d < 256
    requires s == Join([NatToString(a), NatToString(b), NatToString(c), NatToString(d)], '.')
    ensures ParseIPv4(s) == Some(ToWord(a, b, c, d))
  {
    OctetsOfWord(a, b, c, d);
    ParseFormat(ToWord(a, b, c, d));
  }

  /** 192.168.`third`.`last` reads as the expected 32-bit number. */
  lemma ParseTestAddress(third: nat, last: nat, s: string, n: nat)
    requires 1 <= third <= 2 && 9 <= last <= 21
    requires s == "192.168." + NatToString(third) + "." + NatToString(last)
    requires n == ToWord(192, 168, third, last)
    ensures ParseIPv4(s) == Some(n)
  {
    Strings192And168();
    Join4(NatToString(192), NatToString(168), NatToString(third), NatToString(last), '.');
    ParsesAs(s, 192, 168, third, last);
  }

  lemma ParseThird1Last10()
    ensures ParseIPv4("192.168.1.10") == Some(3232235786)
  {
    assert NatToString(1) == "1" && NatToString(10) == "10";
    ParseTestAddress(1, 10, "192.168.1.10", 3232235786);
  }

  lemma ParseThird1Last20()
    ensures ParseIPv4("192.168.1.20") == Some(3232235796)
  {
    assert NatToString(1) == "1" && NatToString(20) == "20";
    ParseTestAddress(1, 20, "192.168.1.20", 3232235796);
  }

  lemma ParseThird1Last15()
    ensures ParseIPv4("192.168.1.15") == Some(3232235791)
  {
    assert NatToString(1) == "1" && NatToString(15) == "15";
    ParseTestAddress(1, 15, "192.168.1.15", 3232235791);
  }

  lemma ParseThird1Last9()
    ensures ParseIPv4("192.168.1.9") == Some(3232235785)
  {
    assert NatToString(1) == "1" && NatToString(9) == "9";
    ParseTestAddress(1, 9, "192.168.1.9", 3232235785);
  }

  lemma ParseThird1Last21()
    ensures ParseIPv4("192.168.1.21") == Some(3232235797)
  {
    assert NatToString(1) == "1" && NatToString(21) == "21";
    ParseTestAddress(1, 21, "192.168.1.21", 3232235797);
  }

  lemma ParseThird2Last15()
    ensures ParseIPv4("192.168.2.15") == Some(3232236047)
  {
    assert NatToString(2) == "2" && NatToString(15) == "15";
    ParseTestAddress(2, 15, "192.168.2.15", 3232236047);
  }

  /** The concrete pool of the tests: size 11, .10 and .20 inside, .9, .21 and 192.168.2.15 outside. */
  lemma TestPool()
    ensures var p := NewPool("test", "192.168.1.10", "192.168.1.20", "255.255.255.0", Some(86400));
      && p.totalAddresses == 11
      && p.ContainsIp("192.168.1.10") && p.ContainsIp("192.168.1.15") && p.ContainsIp("192.168.1.20")
      && !p.ContainsIp("192.168.1.9") && !p.ContainsIp("192.168.1.21") && !p.ContainsIp("192.168.2.15")
      && p.ToDict().totalAddresses == 11 && p.ToDict().leaseDuration == Some(86400)
  {
    ParseThird1Last10();
    ParseThird1Last20();
    ParseThird1Last15();
    ParseThird1Last9();
    ParseThird1Last21();
    ParseThird2Last15();
  }
}
