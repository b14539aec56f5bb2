/**
 * The dnsmasq lease-file reader of `DhcpService` (app/services/dhcp_service.py). A lease line is
 * `<expiry> <mac> <ip> <hostname> [<client id>] ...`, separated by whitespace; the file is
 * given as its sequence of lines.
 */
module LeaseParser {
  import opened Wrappers
  import opened Text
  import opened Numbers
  import opened Ipv4
  import opened Leases

  /** Seconds of 0001-01-01T00:00:00 and of 9999-12-31T23:59:59: the range of `datetime`. */
  const MinTimestamp: int := -62135596800
  const MaxTimestamp: int := 253402300799

  // ---------------------------------------------------------------- IP check

  /** One part of `_validate_ip_address`: `int(part)` succeeds and lies in 0..255. */
  predicate LenientOctet(part: string)
  {
    var v := PyInt(part);
    v.Some? && 0 <= v.value <= 255
  }

  /** `_validate_ip_address` as a predicate: false exactly where it raises `ValueError`. */
  predicate ValidateIpAddress(ip: string)
  {
    var parts := SplitOn(ip, '.');
    |parts| == 4 && LenientOctet(parts[0]) && LenientOctet(parts[1]) && LenientOctet(parts[2]) && LenientOctet(parts[3])
  }

  /** Every address the strict reader accepts passes the lenient check. */
  lemma StrictImpliesLenient(ip: string)
    requires ParseIPv4(ip).Some?
    ensures ValidateIpAddress(ip)
  {
    var parts := SplitOn(ip, '.');
    PyIntOfDigits(parts[0]);
    PyIntOfDigits(parts[1]);
    PyIntOfDigits(parts[2]);
    PyIntOfDigits(parts[3]);
  }

  /** A decimal number of at most 255, written with plain digits. */
  predicate OctetDigits(x: string)
  {
    |x| >= 1 && AllDigits(x) && DigitsValue(x) < 256
  }

  /** A dotted quad whose first number carries a '+' sign, such as "+1.2.3.4". */
  function SignedQuad(a: string, b: string, c: string, d: string): string
  {
    Join([['+'] + a, b, c, d], '.')
  }

  lemma SignedQuadParts(a: string, b: string, c: string, d: string)
    requires OctetDigits(a) && OctetDigits(b) && OctetDigits(c) && OctetDigits(d)
    ensures SplitOn(SignedQuad(a, b, c, d), '.') == [['+'] + a, b, c, d]
  {
    var parts := [['+'] + a, b, c, d];
    forall k | 0 <= k < 4
      ensures '.' !in parts[k]
    {
      assert forall i :: 0 <= i < |parts[k]| ==> parts[k][i] == '+' || IsDigit(parts[k][i]);
    }
    SplitJoin(parts, '.');
  }

  lemma SignedQuadAcceptedLeniently(a: string, b: string, c: string, d: string)
    requires OctetDigits(a) && OctetDigits(b) && OctetDigits(c) && OctetDigits(d)
    ensures ValidateIpAddress(SignedQuad(a, b, c, d))
  {
    SignedQuadParts(a, b, c, d);
    PyIntOfPlusDigits(a);
    PyIntOfDigits(b);
    PyIntOfDigits(c);
    PyIntOfDigits(d);
  }

  lemma SignedQuadRejectedStrictly(a: string, b: string, c: string, d: string)
    requires OctetDigits(a) && OctetDigits(b) && OctetDigits(c) && OctetDigits(d)
    ensures ParseIPv4(SignedQuad(a, b, c, d)).None?
  {
    SignedQuadParts(a, b, c, d);
    assert !IsDigit((['+'] + a)[0]);
    assert ParseOctet(['+'] + a).None?;
  }

  /**
   * `int()` takes a sign that `ipaddress` refuses: an address such as "+1.2.3.4" passes the
   * lease check but is not an IPv4 address.
   */
  lemma LenientAcceptsSign(a: string, b: string, c: string, d: string)
    requires OctetDigits(a) && OctetDigits(b) && OctetDigits(c) && OctetDigits(d)
    ensures ValidateIpAddress(SignedQuad(a, b, c, d))
    ensures ParseIPv4(SignedQuad(a, b, c, d)).None?
  {
    SignedQuadAcceptedLeniently(a, b, c, d);
    SignedQuadRejectedStrictly(a, b, c, d);
  }

  // ---------------------------------------------------------------- MAC normalisation

  /** `mac.replace(':', '').replace('-', '').lower()`. */
  function MacClean(mac: string): (c: string)
    ensures ':' !in c && '-' !in c
    ensures forall i :: 0 <= i < |c| ==> LowerChar(c[i]) == c[i]
  {
    var bare := RemoveChar(RemoveChar(mac, ':'), '-');
    var c := Lower(bare);
    assert forall i :: 0 <= i < |c| ==> c[i] == LowerChar(bare[i]) && bare[i] != ':' && bare[i] != '-';
    c
  }

  /** `mac_clean[i:i+2] for i in range(0, len, 2)`: consecutive two-character pieces. */
  function Pairs(c: string): (r: seq<string>)
    requires |c| >= 2 && |c| % 2 == 0
    ensures |r| == |c| / 2
    ensures forall k :: 0 <= k < |r| ==> r[k] == c[2 * k..2 * k + 2]
    decreases |c|
  {
    if |c| == 2 then [c] else [c[..2]] + Pairs(c[2..])
  }

  /** The pieces joined by ':' are one and a half times as long, less the missing last colon. */
  lemma {:induction false} JoinPairsLength(c: string)
    requires |c| >= 2 && |c| % 2 == 0
    ensures |Join(Pairs(c), ':')| == |c| + |c| / 2 - 1
    decreases |c|
  {
    if |c| > 2 {
      JoinPairsLength(c[2..]);
      assert Pairs(c)[1..] == Pairs(c[2..]);
    }
  }

  /** Dropping the colons from the joined pieces gives the pieces back in one string. */
  lemma {:induction false} RemoveColonsJoinPairs(c: string)
    requires |c| >= 2 && |c| % 2 == 0 && ':' !in c
    ensures RemoveChar(Join(Pairs(c), ':'), ':') == c
    decreases |c|
  {
    if |c| > 2 {
      var head, tail := c[..2], Join(Pairs(c[2..]), ':');
      assert Pairs(c) == [head] + Pairs(c[2..]);
      assert Join(Pairs(c), ':') == head + [':'] + tail;
      RemoveColonsJoinPairs(c[2..]);
      RemoveCharConcat(head + [':'], tail, ':');
      RemoveCharConcat(head, [':'], ':');
      assert RemoveChar([':'], ':') == [];
      assert ':' !in head;
      assert head + c[2..] == c;
    }
  }

  lemma PairsHaveNoColon(c: string)
    requires |c| >= 2 && |c| % 2 == 0 && ':' !in c
    ensures forall k :: 0 <= k < |Pairs(c)| ==> ':' !in Pairs(c)[k]
  {
    forall k | 0 <= k < |Pairs(c)|
      ensures ':' !in Pairs(c)[k]
    {
      assert Pairs(c)[k] == c[2 * k..2 * k + 2];
      assert forall j :: 0 <= j < 2 ==> Pairs(c)[k][j] == c[2 * k + j];
    }
  }

  /**
   * `_normalize_mac_address`: `None` (ValueError) unless exactly twelve characters remain after
   * the separators are dropped; otherwise those twelve in pairs joined by ':' (17 characters).
   * No check that the characters are hex digits.
   */
  function NormalizeMac(mac: string): (r: Option<string>)
    ensures r.Some? <==> |MacClean(mac)| == 12
    ensures r.Some? ==> |r.value| == 17
    ensures r.Some? ==> SplitOn(r.value, ':') == Pairs(MacClean(mac)) && |Pairs(MacClean(mac))| == 6
    ensures r.Some? ==> RemoveChar(r.value, ':') == MacClean(mac)
  {
    var c := MacClean(mac);
    if |c| != 12 then None
    else
      JoinPairsLength(c);
      PairsHaveNoColon(c);
      SplitJoin(Pairs(c), ':');
      RemoveColonsJoinPairs(c);
      Some(Join(Pairs(c), ':'))
  }

  /** Twelve lower-case, separator-free characters in colon-joined pairs are already normal. */
  lemma NormalFormFixed(c: string)
    requires |c| == 12 && ':' !in c && '-' !in c
    requires forall i :: 0 <= i < |c| ==> LowerChar(c[i]) == c[i]
    ensures NormalizeMac(Join(Pairs(c), ':')) == Some(Join(Pairs(c), ':'))
  {
    var m := Join(Pairs(c), ':');
    RemoveColonsJoinPairs(c);
    assert RemoveChar(c, '-') == c;
    assert Lower(c) == c;
    assert MacClean(m) == c;
  }

  /** Normalising a normalised address changes nothing. */
  lemma NormalizeMacIdempotent(mac: string)
    requires NormalizeMac(mac).Some?
    ensures NormalizeMac(NormalizeMac(mac).value) == NormalizeMac(mac)
  {
    NormalFormFixed(MacClean(mac));
  }

  /** Any twelve characters without separators are accepted, hex digits or not. */
  lemma TwelveAccepted(mac: string)
    requires |mac| == 12 && ':' !in mac && '-' !in mac
    ensures NormalizeMac(mac).Some? && MacClean(mac) == Lower(mac)
  {
  }

  /** No hex-digit check: "zzzzzzzzzzzz" normalises. */
  lemma NoHexCheck()
    ensures NormalizeMac("zzzzzzzzzzzz").Some?
  {
    TwelveAccepted("zzzzzzzzzzzz");
  }

  // ---------------------------------------------------------------- one line

  /** `_parse_lease_line` after `split()`: `None` where it returns `None` or raises. */
  function ParseFields(parts: seq<string>): (r: Option<Lease>)
    ensures |parts| < 4 ==> r.None?
    ensures r.Some? <==>
      && |parts| >= 4
      && PyInt(parts[0]).Some? && MinTimestamp <= PyInt(parts[0]).value <= MaxTimestamp
      && ValidateIpAddress(parts[2])
      && NormalizeMac(parts[1]).Some?
    ensures r.Some? ==>
      && r.value.leaseTime == PyInt(parts[0]).value
      && Some(r.value.macAddress) == NormalizeMac(parts[1])
      && r.value.ipAddress == parts[2]
      && r.value.hostname == parts[3]
      && r.value.clientId == (if |parts| > 4 then Some(parts[4]) else None)
      && !r.value.isStatic && r.value.poolName.None?
  {
    if |parts| < 4 then None
    else
      var timestamp := PyInt(parts[0]);
      if timestamp.None? || !(MinTimestamp <= timestamp.value <= MaxTimestamp) then None
      else if !ValidateIpAddress(parts[2]) then None
      else
        match NormalizeMac(parts[1])
        case None => None
        case Some(mac) =>
          Some(NewLease(parts[2], mac, parts[3], timestamp.value, if |parts| > 4 then Some(parts[4]) else None))
  }

  /** `_parse_lease_line(line)`. */
  function ParseLeaseLine(line: string): (r: Option<Lease>)
    ensures |Fields(line)| < 4 ==> r.None?
  {
    ParseFields(Fields(line))
  }

  /** A line of space-separated words is read field by field: its words are the parts. */
  lemma ParseLeaseLineOfWords(ws: seq<string>)
    requires |ws| >= 1
    requires forall k :: 0 <= k < |ws| ==> |ws[k]| > 0 && NoSpace(ws[k])
    ensures ParseLeaseLine(Join(ws, ' ')) == ParseFields(ws)
  {
    FieldsOfWords(ws);
  }

  /** Fields after the fifth never matter. */
  lemma ExtraFieldsIgnored(parts: seq<string>)
    requires |parts| > 5
    ensures ParseFields(parts) == ParseFields(parts[..5])
  {
  }

  /** Expiry 0 reads as a lease that never expires, still not marked static. */
  lemma ZeroExpiryNotStatic(parts: seq<string>, now: int)
    requires ParseFields(parts).Some? && ParseFields(parts).value.leaseTime == 0
    ensures ParseFields(parts).value.IsActive(now) && !ParseFields(parts).value.isStatic
  {
  }

  // ---------------------------------------------------------------- the whole file

  /** The leases one raw line contributes: none for blank, comment or unparsable lines, else one. */
  function LineLeases(line: string): seq<Lease>
  {
    var stripped := Strip(line);
    if stripped == [] || StartsWith(stripped, "#") then []
    else
      match ParseLeaseLine(stripped)
      case Some(lease) => [lease]
      case None => []
  }

  /** A line yields at most one lease, and none exactly when it is blank, a comment or unparsable. */
  lemma LineLeasesMeaning(line: string)
    ensures |LineLeases(line)| <= 1
    ensures LineLeases(line) == [] <==> Strip(line) == [] || StartsWith(Strip(line), "#") || ParseLeaseLine(Strip(line)).None?
  {
  }

  /** What `f` yields for each line, concatenated in line order. */
  function Collect(f: string -> seq<Lease>, lines: seq<string>): seq<Lease>
  {
    if lines == [] then [] else Collect(f, lines[..|lines| - 1]) + f(lines[|lines| - 1])
  }

  /** Collecting is line by line: two pieces of a file collect to the two collections. */
  lemma {:induction false} CollectAppend(f: string -> seq<Lease>, a: seq<string>, b: seq<string>)
    ensures Collect(f, a + b) == Collect(f, a) + Collect(f, b)
    decreases |b|
  {
    if b == [] {
      assert a + b == a;
    } else {
      var front, last := b[..|b| - 1], b[|b| - 1];
      assert (a + b)[..|a + b| - 1] == a + front;
      assert (a + b)[|a + b| - 1] == last;
      CollectAppend(f, a, front);
    }
  }

  /** One more line adds what that line yields at the end. */
  lemma CollectStep(f: string -> seq<Lease>, lines: seq<string>, i: nat)
    requires i < |lines|
    ensures Collect(f, lines[..i + 1]) == Collect(f, lines[..i]) + f(lines[i])
  {
    assert lines[..i + 1][..i] == lines[..i];
  }

  /** The leases of a file, in line order. */
  function ParsedLeases(lines: seq<string>): seq<Lease>
  {
    Collect(LineLeases, lines)
  }

  /** Reading is line by line: the leases of two pieces of a file are those of each piece. */
  lemma ParsedLeasesAppend(a: seq<string>, b: seq<string>)
    ensures ParsedLeases(a + b) == ParsedLeases(a) + ParsedLeases(b)
  {
    CollectAppend(LineLeases, a, b);
  }

  /** At most one lease per line. */
  lemma {:induction false} AtMostOnePerLine(lines: seq<string>)
    ensures |ParsedLeases(lines)| <= |lines|
    decreases |lines|
  {
    if lines != [] {
      LineLeasesMeaning(lines[|lines| - 1]);
      AtMostOnePerLine(lines[..|lines| - 1]);
    }
  }

  /**
   * A line that yields nothing (blank, a comment, or one that fails to parse) is skipped
   * without disturbing the lines around it.
   */
  lemma SkippedLine(before: seq<string>, line: string, after: seq<string>)
    requires LineLeases(line) == []
    ensures ParsedLeases(before + [line] + after) == ParsedLeases(before) + ParsedLeases(after)
  {
    CollectSkip(LineLeases, before, line, after);
  }

  /** `f` yielding nothing for a line means it leaves no trace in the collection. */
  lemma CollectSkip(f: string -> seq<Lease>, before: seq<string>, line: string, after: seq<string>)
    requires f(line) == []
    ensures Collect(f, before + [line] + after) == Collect(f, before) + Collect(f, after)
  {
    CollectAppend(f, before, [line]);
    assert Collect(f, [line]) == Collect(f, []) + f(line) by {
      assert [line][..0] == [];
    }
    CollectAppend(f, before + [line], after);
  }

  /** The body of `parse_lease_file`'s loop for one raw line. */
  method ParseLine(rawLine: string) returns (found: seq<Lease>)
    ensures found == LineLeases(rawLine)
  {
    found := [];
    var line := Strip(rawLine);
    if line == [] || StartsWith(line, "#") {
      return;
    }
    var lease := ParseLeaseLine(line);
    if lease.Some? {
      found := [lease.value];
    }
  }

  /** `parse_lease_file`: the loop over the lines, appending each line's lease. */
  method ParseLeaseFile(lines: seq<string>) returns (leases: seq<Lease>)
    ensures leases == ParsedLeases(lines)
  {
    leases := [];
    var i := 0;
    while i < |lines|
      invariant 0 <= i <= |lines|
      invariant leases == Collect(LineLeases, lines[..i])
    {
      var found := ParseLine(lines[i]);
      CollectStep(LineLeases, lines, i);
      leases := leases + found;
      i := i + 1;
    }
    assert lines[..i] == lines;
  }

  /** What opening the lease file finds. */
  datatype LeaseFile = Missing | Unreadable | Undecodable | Present(lines: seq<string>)

  /** The exceptions `get_all_leases` lets through. */
  datatype LeaseFileError = FileNotFound(path: string) | PermissionDenied(path: string) | ReadError(path: string)

  /** `get_all_leases`: a missing file fails before any parsing; otherwise the parsed leases. */
  method GetAllLeases(path: string, file: LeaseFile) returns (r: Result<seq<Lease>, LeaseFileError>)
    ensures file.Missing? <==> r == Failure(FileNotFound(path))
    ensures file.Unreadable? <==> r == Failure(PermissionDenied(path))
    ensures file.Undecodable? <==> r == Failure(ReadError(path))
    ensures file.Present? ==> r == Success(ParsedLeases(file.lines))
  {
    match file
    case Missing => r := Failure(FileNotFound(path));
    case Unreadable => r := Failure(PermissionDenied(path));
    case Undecodable => r := Failure(ReadError(path));
    case Present(lines) =>
      var leases := ParseLeaseFile(lines);
      r := Success(leases);
  }

  /** An existing empty file holds no leases. */
  lemma EmptyFile()
    ensures ParsedLeases([]) == []
  {
  }
}
