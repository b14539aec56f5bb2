# DHCP lease monitor

This is a verified Dafny model of the core of a small Flask service. The service reads dnsmasq's
lease file, describes the configured DHCP pools, and pushes lease changes to browsers over
Server-Sent Events (SSE). The model covers:

- **The lease-file reader** of `DhcpService`. Its input is the file as a sequence of lines. A
  line is split into fields, the IPv4 address gets a lenient check, and the MAC address is
  normalised to lower case with colons. A bad line is skipped and never stops the file.
- **The two value records.** `DhcpPool` does 32-bit address-range arithmetic. `DhcpLease` has
  the "expiry 0 never expires" rule and JSON rendering with `*` shown as null.
- **The live-update engine** `SseService`. It is a class that owns:
  - a registry of clients, each with its own message queue;
  - a message-id counter that numbers the SSE frames `event:`/`data:`/`id:` (section 9.2 of
    the WHATWG HTML Living Standard);
  - a fan-out that drops a client whose `put` fails once the loop for that event ends;
  - a snapshot cache that is diffed against each new read.
- **The diff.** It classifies changes into `lease_added`, `lease_removed`, `lease_updated` and
  `lease_expired`, keyed by IP. It is specified by a pure function and computed by the three
  loops of the source.
- **The development-mode `DevLeaseModifier`.** It is a class whose counter picks the next step
  in a rotation of add, remove, expire and hostname. Each step rewrites a copy of the lease
  list. Its random choices arrive as a `Draws` record.
- **`ResponseHelper`**: the success and error bodies of the API.

Modules, one per concern:

| module | file | content |
|---|---|---|
| `Wrappers` | wrappers.dfy | `Option`, `Result` |
| `Text` | text.dfy | Python `str` operations: `strip`, `split`, `split(sep)`, `join`, `replace`, `lower` |
| `Numbers` | numbers.dfy | Python `int(s)`, `str(n)` and the `02x` format |
| `Ipv4` | ipv4.dfy | the strict reader of `ipaddress.IPv4Address` and its `str` |
| `Pools` | pools.dfy | `DhcpPool` |
| `PoolExample` | pool_example.dfy | the concrete pool of the repository's tests |
| `Leases` | leases.dfy | `DhcpLease` |
| `LeaseParser` | lease_parser.dfy | the lease-file reader of `DhcpService` |
| `Changes` | changes.dfy | the snapshot diff and `LeaseUpdateEvent` |
| `LeaseModifier` | lease_modifier.dfy | `DevLeaseModifier` |
| `Sse` | sse.dfy | `SseService` |
| `Responses` | responses.dfy | `ResponseHelper` |

Times are Unix seconds, and the clock is a parameter `now`. JSON serialisation is an opaque
function `json` from an event's dictionary to a string. Which `queue.put` calls raise is a
parameter: a set of (event index, client id) pairs.

Some external reads become parameters of `ProcessLeaseChangeNotification`:
- the outcome of `get_all_leases` is `source`;
- `get_dns_pools` is `pools`;
- the Flask development-mode switch is `devMode`.

Points where the code's behaviour is easy to misread:

- **IP check.** The lease reader's IP check is `int()` applied to each dotted part. It accepts
  more than a strict IPv4 reader does: a sign, underscores between digits and leading zeros.
  `int()` would also accept blanks around a part, but the address comes from a `split()`
  field, which never holds a blank, so that case cannot arise inside the lease reader. `LeaseParser.LenientAcceptsSign` shows that an address such as
  `+1.2.3.4` passes the check but is not an IPv4 address. `DhcpPool` and `DevLeaseModifier`
  use the strict reader.
- **Static leases.** The lease reader never marks a lease static, even one with expiry 0.
- **Updates and expiries.** The diff compares the expiry. So a lease that became expired
  always also produces a `lease_updated` event, placed directly before its `lease_expired`
  event (`Changes.ExpiredIsChanged`, `Changes.ExpiryFollowsUpdateInDiff`).
- **Pool name.** In app/models/dhcp_lease.py the `DhcpLease` constructor has no `pool_name`
  parameter. `DevLeaseModifier` nevertheless passes one when it copies a lease and when it
  generates one. As that class stands, those calls (app/services/dev_lease_modifier.py:116 and
  :239) raise `TypeError`, and reading `lease.pool_name` off a parsed lease raises
  `AttributeError`. The model takes the constructor to accept and store a pool name, so the lease
  record carries an optional `poolName`. The diff does not compare it, and `to_dict` does not
  show it.
- **Missing service methods.** The `DhcpService` of app/services/dhcp_service.py has neither
  `get_dns_pools` nor `set_modified_lease_data`, and its constructor takes one argument while
  app/api/v1/dhcp_routes.py:30 passes two. As that class stands, every development-mode
  refresh raises `AttributeError` at app/services/sse_service.py:257 or :267, and the handler's
  `except` at lines 90-91 swallows it, so nothing is diffed, broadcast or cached. The model
  follows the development-mode flow of app/services/sse_service.py:249-270 as the code calls
  it: both methods return normally, the pools are the parameter `pools`, and
  `set_modified_lease_data` does not change what the next `get_all_leases` reads.

## Model

| member | source | states |
|---|---|---|
| `Text.Strip` | app/services/dhcp_service.py:67 | `line.strip()`: the result neither starts nor ends with a blank |
| `Text.LStrip` | app/services/dhcp_service.py:67 | the result is a suffix of the input; only blanks were dropped, and the result does not start with one |
| `Text.RStrip` | app/services/dhcp_service.py:67 | the result is a prefix of the input; only blanks were dropped, and the result does not end with one |
| `Text.Fields` | app/services/dhcp_service.py:96 | `line.split()`: every field is non-empty and blank-free; a blank-free line is one field; a field starts where the text does |
| `Text.FieldsConcat` | app/services/dhcp_service.py:96 | a blank cuts the text: the fields of the whole are those of the left part, then those of the right |
| `Text.FieldsOfWords` | app/services/dhcp_service.py:96 | non-empty blank-free words joined by spaces split back into exactly those words: `"a b c d".split()` has four fields |
| `Text.SplitOn` | app/services/dhcp_service.py:142 | `split('.')`: always at least one piece, and no piece contains the separator |
| `Text.SplitOnPrefix` | app/services/dhcp_service.py:142 | a separator-free prefix stays glued to the first piece |
| `Text.SplitJoin` | app/services/dhcp_service.py:171 | splitting undoes joining when no piece holds the separator |
| `Text.JoinSplit` | app/services/dhcp_service.py:142 | joining undoes splitting: splitting loses nothing |
| `Text.Join4` | app/services/dhcp_service.py:142 | a four-piece join written out |
| `Text.RemoveChar` | app/services/dhcp_service.py:164 | `replace(c, '')`: no `c` remains, every character comes from the input, and an input without `c` is unchanged |
| `Text.RemoveCharConcat` | app/services/dhcp_service.py:164 | `replace` works piecewise over a concatenation |
| `Text.Lower` | app/services/dhcp_service.py:164 | `lower()` keeps the length and lower-cases each character |
| `Text.LowerIdempotent` | app/services/dhcp_service.py:164 | lower-casing twice is lower-casing once |
| `Numbers.DigitValue` | app/services/dhcp_service.py:112 | a digit's value is below ten |
| `Numbers.DigitChar` | app/services/sse_service.py:133 | the digit written for a value reads back as that value |
| `Numbers.NatToString` | app/services/sse_service.py:133 | `str(n)` is a non-empty string of digits |
| `Numbers.NatToStringValue` | app/services/sse_service.py:133 | reading back what `str(n)` wrote gives `n` |
| `Numbers.NatToStringCanonical` | app/services/sse_service.py:133 | `str(n)` has no leading zero, and is `"0"` exactly for zero |
| `Numbers.NatToStringShort` | app/services/dev_lease_modifier.py:219 | below 1000 at most three digits |
| `Numbers.DigitsValuePositive` | app/services/dhcp_service.py:148 | digits with a non-zero lead denote a positive number |
| `Numbers.CanonicalDigits` | app/services/dhcp_service.py:148 | digits without a leading zero are what `str` writes for their value |
| `Numbers.StripUnpadded` | app/services/dhcp_service.py:67 | `strip()` leaves a string alone when neither end is a blank |
| `Numbers.IntStripUnpadded` | app/services/dhcp_service.py:148 | `int()` skips nothing when neither end is whitespace it ignores |
| `Numbers.IntLStrip` | app/services/dhcp_service.py:148 | `int()` skips a leading run of its whitespace: the rest is a suffix that starts with none |
| `Numbers.IntRStrip` | app/services/dhcp_service.py:148 | `int()` skips a trailing run of its whitespace: the rest is a prefix that ends with none |
| `Numbers.IntStrip` | app/services/dhcp_service.py:148 | what `int()` reads neither starts nor ends with whitespace it ignores |
| `Numbers.PyIntOfField` | app/services/dhcp_service.py:146-148 | on a blank-free `split()` field, `int()` reads the field as it is, whichever whitespace set is used |
| `Numbers.IntKeepsSeparator` | app/services/dhcp_service.py:148 | `int()` refuses `'\x1c5'`, which `strip()` would reduce to `5` |
| `Numbers.DigitsGrouped` | app/services/dhcp_service.py:148 | plain digits are a valid digit group, worth their value |
| `Numbers.PyIntOfDigits` | app/services/dhcp_service.py:112 | `int()` of plain digits is their value |
| `Numbers.PyIntOfPlusDigits` | app/services/dhcp_service.py:148 | `int()` accepts a leading `+` on plain digits |
| `Numbers.PyIntOfNatToString` | app/services/dhcp_service.py:112 | `int(str(n)) == n` |
| `Numbers.HexDigit` | app/services/dev_lease_modifier.py:157 | the hex digit for a value is lower-case and reads back as the value |
| `Numbers.Hex2` | app/services/dev_lease_modifier.py:157 | `f"{x:02x}"`: two lower-case hex digits that read back as `x` |
| `Numbers.PyInt` | app/services/dhcp_service.py:112 | `int(s)`: skip the whitespace `int()` ignores, then read an optional sign and a digit group |
| `Numbers.SignedValue` | app/services/dhcp_service.py:112 | a leading `-` negates the digit group, a leading `+` is dropped |
| `Numbers.GroupedValue` | app/services/dhcp_service.py:112 | digits with single underscores between them, read without the underscores; anything else fails |
| `Ipv4.ParseOctet` | app/models/dhcp_pool.py:43-44 | an octet the strict reader accepts is below 256 |
| `Ipv4.ToWord` | app/models/dhcp_pool.py:45 | four octets make a 32-bit number |
| `Ipv4.Octets` | app/services/dev_lease_modifier.py:140-141 | the four octets of a 32-bit number recombine to it |
| `Ipv4.ParseIPv4` | app/models/dhcp_pool.py:43-45 | `int(IPv4Address(s))` is below 2^32 |
| `Ipv4.FormatIPv4` | app/services/dev_lease_modifier.py:140-141 | `str(IPv4Address(n))`: the four octets in decimal, joined by dots |
| `Ipv4.OctetsOfWord` | app/services/dev_lease_modifier.py:140-141 | splitting a combined word gives the octets back |
| `Ipv4.ParseOctetOfString` | app/models/dhcp_pool.py:43-44 | the strict reader reads back an octet `str` wrote |
| `Ipv4.ParseOctetCanonical` | app/models/dhcp_pool.py:43-44 | the strict reader accepts only the canonical spelling of an octet |
| `Ipv4.NoDotInNumber` | app/services/dev_lease_modifier.py:141 | a decimal number contains no dot |
| `Ipv4.ParseFormat` | app/services/dev_lease_modifier.py:140-141 | round trip: the strict reader reads back what `str(IPv4Address(n))` writes |
| `Ipv4.FormatParse` | app/models/dhcp_pool.py:59-61 | round trip the other way: every accepted spelling is the canonical one |
| `Ipv4.FormatInjective` | app/services/dev_lease_modifier.py:140-141 | different addresses have different spellings |
| `Pools.Pool.ToDict` | app/models/dhcp_pool.py:66-79 | `to_dict` returns the six fields unchanged |
| `Pools.CalculateTotalAddresses` | app/models/dhcp_pool.py:36-47 | `int(end) - int(start) + 1` when both ends parse, else 0; positive exactly when both parse and start <= end |
| `Pools.Pool.ContainsIp` | app/models/dhcp_pool.py:49-64 | true exactly when the address and both ends parse strictly and the address lies from start to end; any parse failure is false |
| `Pools.NewPool` | app/models/dhcp_pool.py:27-34 | the constructor stores the fields and fixes `total_addresses` once, from the two ends |
| `Pools.ReversedRangeNotClamped` | app/models/dhcp_pool.py:45 | a reversed range has a count of at most zero: nothing clamps it |
| `Pools.ContainsIpCanonical` | app/models/dhcp_pool.py:49-64 | `contains_ip` holds exactly for the canonical spellings of the numbers from start to end |
| `Pools.EndpointsContained` | app/models/dhcp_pool.py:36-64 | with a positive count both ends are in the pool |
| `Pools.RangeCardinality` | app/models/dhcp_pool.py:45 | the integers from `lo` to `hi` number `hi - lo + 1` |
| `Pools.CountContained` | app/models/dhcp_pool.py:36-64 | with a positive count exactly `total_addresses` addresses are contained |
| `PoolExample.Strings192And168` | test/test_dhcp_service.py:92-98 | the decimal spellings used by the test addresses |
| `PoolExample.ParsesAs` | test/test_dhcp_service.py:92-98 | a dotted quad of canonical octets reads as their combined word |
| `PoolExample.ParseTestAddress` | test/test_dhcp_service.py:103-108 | each 192.168.x.y test address reads as its number |
| `PoolExample.ParseThird1Last10` | test/test_dhcp_service.py:94 | 192.168.1.10 reads as 3232235786 |
| `PoolExample.ParseThird1Last20` | test/test_dhcp_service.py:95 | 192.168.1.20 reads as 3232235796 |
| `PoolExample.ParseThird1Last15` | test/test_dhcp_service.py:104 | 192.168.1.15 reads as 3232235791 |
| `PoolExample.ParseThird1Last9` | test/test_dhcp_service.py:107 | 192.168.1.9 reads as 3232235785 |
| `PoolExample.ParseThird1Last21` | test/test_dhcp_service.py:108 | 192.168.1.21 reads as 3232235797 |
| `PoolExample.ParseThird2Last15` | test/test_dhcp_service.py:109 | 192.168.2.15 reads as 3232236047 |
| `PoolExample.TestPool` | tests/test_dhcp_service.py:93-110 | the test pool holds 11 addresses; .10, .15 and .20 are in; .9, .21 and 192.168.2.15 are out; `to_dict` shows 11 and 86400 |
| `Leases.Lease.ToDict` | app/models/dhcp_lease.py:36-50 | ip and mac verbatim; hostname null exactly for `*`; client id null exactly for none or `*`; `is_active` as judged now; static flag verbatim |
| `Leases.NewLease` | app/models/dhcp_lease.py:10-34 | the constructor's defaults: not static, client id only when given |
| `Leases.Lease.IsActive` | app/models/dhcp_lease.py:52-72 | expiry 0 is always active; otherwise active while now is before the expiry |
| `Leases.NeverExpires` | app/models/dhcp_lease.py:68-69 | expiry 0 is active at every time |
| `Leases.ActiveBeforeExpiry` | app/models/dhcp_lease.py:52-72 | otherwise active exactly before the expiry, whatever the static flag |
| `Leases.ActiveMonotone` | app/models/dhcp_lease.py:72 | active at `t` implies active at every earlier time |
| `LeaseParser.StrictImpliesLenient` | app/services/dhcp_service.py:133-152 | every strictly valid IPv4 address passes the lease reader's check |
| `LeaseParser.LenientOctet` | app/services/dhcp_service.py:146-152 | a part is fine when `int()` reads it and the value is from 0 to 255 |
| `LeaseParser.ValidateIpAddress` | app/services/dhcp_service.py:133-152 | exactly four dot-separated parts, each a lenient octet |
| `LeaseParser.SignedQuadParts` | app/services/dhcp_service.py:142 | a `+`-signed quad splits into its four parts |
| `LeaseParser.SignedQuadAcceptedLeniently` | app/services/dhcp_service.py:142-152 | `_validate_ip_address` accepts a `+`-signed quad |
| `LeaseParser.SignedQuadRejectedStrictly` | app/models/dhcp_pool.py:59-61 | `ipaddress` rejects a `+`-signed quad |
| `LeaseParser.LenientAcceptsSign` | app/services/dhcp_service.py:133-152 | the lease check is strictly weaker than `ipaddress`: a signed quad passes one and fails the other |
| `LeaseParser.MacClean` | app/services/dhcp_service.py:164 | no `:` or `-` remains, and nothing is left to lower-case |
| `LeaseParser.Pairs` | app/services/dhcp_service.py:171 | consecutive two-character slices, half as many as characters |
| `LeaseParser.JoinPairsLength` | app/services/dhcp_service.py:171 | the joined pairs have length 3n/2 - 1 |
| `LeaseParser.RemoveColonsJoinPairs` | app/services/dhcp_service.py:164-171 | dropping the colons from the joined pairs gives the cleaned text back |
| `LeaseParser.PairsHaveNoColon` | app/services/dhcp_service.py:171 | no pair of colon-free text holds a colon |
| `LeaseParser.NormalizeMac` | app/services/dhcp_service.py:154-173 | fails exactly when the cleaned text is not 12 characters; otherwise 17 characters whose colon-split is the six pairs and whose colon-free form is the cleaned text |
| `LeaseParser.NormalFormFixed` | app/services/dhcp_service.py:164-173 | text already in normal form normalises to itself |
| `LeaseParser.NormalizeMacIdempotent` | app/services/dhcp_service.py:164-173 | normalising a normalised MAC changes nothing |
| `LeaseParser.TwelveAccepted` | app/services/dhcp_service.py:167-171 | any twelve separator-free characters are accepted, lower-cased |
| `LeaseParser.NoHexCheck` | app/services/dhcp_service.py:167-171 | there is no hex check: `zzzzzzzzzzzz` normalises |
| `LeaseParser.ParseFields` | app/services/dhcp_service.py:96-131 | fewer than four fields give none; otherwise a lease exactly when the expiry is an integer in the `datetime` range, the IP passes the check and the MAC normalises; IP and hostname verbatim, client id from field 5 if present, not static |
| `LeaseParser.ParseLeaseLine` | app/services/dhcp_service.py:96-101 | a line with fewer than four fields yields nothing |
| `LeaseParser.ParseLeaseLineOfWords` | app/services/dhcp_service.py:96-131 | a line of space-separated words is read with those words as its fields |
| `LeaseParser.ExtraFieldsIgnored` | app/services/dhcp_service.py:105-109 | fields after the fifth never matter |
| `LeaseParser.ZeroExpiryNotStatic` | app/services/dhcp_service.py:121-127 | expiry 0 gives an always-active lease that is still not marked static |
| `LeaseParser.LineLeases` | app/services/dhcp_service.py:67-82 | one pass of the loop: blank and `#` lines give nothing, otherwise the parsed lease if there is one |
| `LeaseParser.Collect` | app/services/dhcp_service.py:66-82 | the leases of the lines, one line after another |
| `LeaseParser.ParsedLeases` | app/services/dhcp_service.py:63-85 | the leases the file's loop collects |
| `LeaseParser.LineLeasesMeaning` | app/services/dhcp_service.py:67-82 | a line yields at most one lease, and none exactly when it is blank, a comment or unparsable |
| `LeaseParser.CollectAppend` | app/services/dhcp_service.py:66-82 | collecting over two pieces of a file is collecting over each |
| `LeaseParser.CollectStep` | app/services/dhcp_service.py:66-76 | one more line appends that line's leases |
| `LeaseParser.ParsedLeasesAppend` | app/services/dhcp_service.py:66-82 | the leases of a file are those of its pieces, in line order |
| `LeaseParser.AtMostOnePerLine` | app/services/dhcp_service.py:66-82 | at most one lease per line |
| `LeaseParser.SkippedLine` | app/services/dhcp_service.py:70-82 | a line that yields nothing leaves no trace and does not disturb its neighbours |
| `LeaseParser.CollectSkip` | app/services/dhcp_service.py:70-82 | a line yielding nothing drops out of the collection |
| `LeaseParser.ParseLine` | app/services/dhcp_service.py:67-82 | one pass of the loop yields that line's leases |
| `LeaseParser.ParseLeaseFile` | app/services/dhcp_service.py:63-85 | the loop returns the leases of the file, in line order |
| `LeaseParser.GetAllLeases` | app/services/dhcp_service.py:23-49 | a missing file fails with FileNotFoundError before any parsing, and unreadable or undecodable files fail with their errors; otherwise the parsed leases |
| `LeaseParser.EmptyFile` | app/services/dhcp_service.py:63-85 | an existing empty file yields no leases |
| `Changes.Insert` | app/services/sse_service.py:156 | a dict store: a new key goes last, an existing key keeps its place and gets the new value |
| `Changes.KeyByIp` | app/services/sse_service.py:156 | the dict comprehension gives a well-formed table: distinct keys, each entry under its own IP |
| `Changes.KeyByIpKeys` | app/services/sse_service.py:156 | its keys are exactly the IPs of the list |
| `Changes.KeyByIpLastWins` | app/services/sse_service.py:156 | for duplicate IPs the last lease wins |
| `Changes.KeyOccurs` | app/services/sse_service.py:156 | a key of the table of a list prefix occurs in that prefix |
| `Changes.KeyAbsent` | app/services/sse_service.py:156 | an IP that is not a key occurs nowhere in that prefix |
| `Changes.FirstAtFront` | app/services/sse_service.py:156 | a first occurrence inside a prefix is the first occurrence in the prefix |
| `Changes.KeyByIpOrder` | app/services/sse_service.py:156 | the keys come in the order of their IPs' first occurrence in the list, so the added loop walks the current list's order and the removed loop the cached list's order |
| `Changes.EventTypeName` | app/services/sse_service.py:162-180 | the four `lease_*` names, free of line ends |
| `Changes.EventTypeNamesDistinct` | app/services/sse_service.py:162-180 | the four names are distinct |
| `Changes.EventToDict` | app/models/lease_update_event.py:24-34 | type name, the lease's dictionary and the timestamp |
| `Changes.AttributesChanged` | app/services/sse_service.py:184-200 | mac, hostname, expiry, client id or static flag differ |
| `Changes.AttributesChangedMeaning` | app/services/sse_service.py:184-200 | unchanged means equal except for IP and pool name, which are not compared |
| `Changes.BecameExpired` | app/services/sse_service.py:202-215 | the lease is inactive now while its cached copy is active now |
| `Changes.ExpiredIsChanged` | app/services/sse_service.py:194-215 | a lease that became expired has a changed, non-zero expiry not after now |
| `Changes.IpEvents` | app/services/sse_service.py:159-180 | one IP yields at most two events, an update first when two, all about that IP's lease at `now` |
| `Changes.IpEventsJustified` | app/services/sse_service.py:159-215 | one IP's events are exactly the justified events of the phase's kinds |
| `Changes.Justified` | app/services/sse_service.py:156-215 | the independent meaning of each kind: added for an IP only in the current table, removed for one only in the cache, updated for changed attributes, expired for a lease that became inactive |
| `Changes.PhaseEvents` | app/services/sse_service.py:159-180 | one loop: the events of each walked IP, in walk order |
| `Changes.DetectChanges` | app/services/sse_service.py:156-182 | the added loop, then the removed loop, then the common loop |
| `Changes.DetectLeaseChanges` | app/services/sse_service.py:143-182 | the list keyed by IP, diffed against the cache |
| `Changes.PhaseMember` | app/services/sse_service.py:159-180 | an event is in a phase's output exactly when a walked IP emits it |
| `Changes.PhaseIps` | app/services/sse_service.py:159-180 | a phase's events are about walked IPs |
| `Changes.DetectedExactly` | app/services/sse_service.py:156-215 | both directions of all four rules: added exactly for an IP new to the current snapshot, removed for one gone from it, updated for changed attributes, expired for a lease that became inactive |
| `Changes.PhaseEventsSnoc` | app/services/sse_service.py:160-180 | a phase over one more IP appends that IP's events |
| `Changes.PhaseKinds` | app/services/sse_service.py:159-180 | each loop emits only its own kinds |
| `Changes.IpEventsAbout` | app/services/sse_service.py:159-180 | one IP's events are about that IP |
| `Changes.OrderedSnoc` | app/services/sse_service.py:160-180 | appending a new IP's events keeps the walk order |
| `Changes.PhaseOrdered` | app/services/sse_service.py:160-180 | within a loop events follow the dict order, and no IP has two events of one kind |
| `Changes.PhaseSilent` | app/services/sse_service.py:160-180 | a loop whose IPs emit nothing emits nothing |
| `Changes.NoChangeNoEvents` | app/services/sse_service.py:156-182 | a snapshot diffed against itself gives no events |
| `Changes.SameLeasesNoEvents` | app/services/sse_service.py:80-88 | reading the leases that are cached emits nothing |
| `Changes.PhaseRanks` | app/services/sse_service.py:159-180 | added, removed and updated/expired belong to the first, second and third loop |
| `Changes.KindOrder` | app/services/sse_service.py:159-180 | all additions, then all removals, then updates and expiries |
| `Changes.PartRanks` | app/services/sse_service.py:159-180 | where the three loops' outputs sit in the list |
| `Changes.OneEventPerKindAndIp` | app/services/sse_service.py:159-180 | no IP gets two events of one kind |
| `Changes.PartsOnePerKind` | app/services/sse_service.py:159-180 | the three loops never repeat an (IP, kind) pair together |
| `Changes.ExpiryFollowsUpdate` | app/services/sse_service.py:170-180 | in the third loop every expiry directly follows the same lease's update |
| `Changes.ExpiryFollowsUpdateInDiff` | app/services/sse_service.py:156-182 | in a whole diff every expiry directly follows its update |
| `Changes.CommonIpEvents` | app/services/sse_service.py:171-180 | the third loop's events for one IP, written out |
| `Changes.CollectAdded` | app/services/sse_service.py:160-162 | the first loop computes the added phase |
| `Changes.CollectRemoved` | app/services/sse_service.py:165-167 | the second loop computes the removed phase |
| `Changes.CollectCommon` | app/services/sse_service.py:170-180 | the third loop computes the common phase |
| `Changes.CommonEvents` | app/services/sse_service.py:171-180 | one IP's update, then its expiry |
| `Changes.DetectLeaseChangesLoop` | app/services/sse_service.py:143-182 | the method computes the specification `DetectLeaseChanges` |
| `LeaseModifier.TypeFor` | app/services/dev_lease_modifier.py:72-76 | the rotation indexed by the counter modulo 4 |
| `LeaseModifier.RotationCycle` | app/services/dev_lease_modifier.py:72-76 | counters 1, 2, 3, 4 give remove, expire, hostname, add, and the cycle repeats |
| `LeaseModifier.CopyLease` | app/services/dev_lease_modifier.py:223-240 | every field is copied, pool name included |
| `LeaseModifier.CopyAll` | app/services/dev_lease_modifier.py:44 | the copied list has equal contents, in order |
| `LeaseModifier.GenerateRandomIpInPool` | app/services/dev_lease_modifier.py:123-145 | an address exactly when both ends parse and the range is not reversed, and it then lies in the pool |
| `LeaseModifier.MacPieces` | app/services/dev_lease_modifier.py:155-157 | `02` then five pairs of lower-case hex digits that read back as the random octets |
| `LeaseModifier.ConcatLength` | app/services/dev_lease_modifier.py:155-159 | two-character pieces concatenate to twice as many characters |
| `LeaseModifier.ConcatHex` | app/services/dev_lease_modifier.py:155-159 | hex pieces concatenate to hex text |
| `LeaseModifier.ConcatPairs` | app/services/dev_lease_modifier.py:155-159 | cutting the concatenation into pairs gives the pieces back |
| `LeaseModifier.HexIsNormal` | app/services/dev_lease_modifier.py:157 | hex text has no separator and nothing to lower-case |
| `LeaseModifier.FakeMacSplit` | app/services/dev_lease_modifier.py:155-159 | a fake MAC splits at `:` into its six pieces |
| `LeaseModifier.FakeMac` | app/services/dev_lease_modifier.py:147-159 | the six pieces joined by colons |
| `LeaseModifier.FakeMacNormal` | app/services/dev_lease_modifier.py:147-159 | a fake MAC is already in the normal form of `_normalize_mac_address` |
| `LeaseModifier.DynamicIndices` | app/services/dev_lease_modifier.py:168 | exactly the indices of the non-static leases |
| `LeaseModifier.RemoveRandomDynamicLease` | app/services/dev_lease_modifier.py:161-178 | the drawn non-static lease is popped; a list without one stays as it was |
| `LeaseModifier.StaticLeasesAppend` | app/services/dev_lease_modifier.py:168-176 | the static leases of a concatenation are those of each part |
| `LeaseModifier.StaticDrop` | app/services/dev_lease_modifier.py:176 | popping a non-static lease keeps the static leases |
| `LeaseModifier.RemoveKeepsStatic` | app/services/dev_lease_modifier.py:161-178 | removal keeps every static lease, in order |
| `LeaseModifier.RemoveDeletesOne` | app/services/dev_lease_modifier.py:168-178 | exactly one non-static lease is deleted when one exists; an all-static list is unchanged |
| `LeaseModifier.ModifyLeaseExpiration` | app/services/dev_lease_modifier.py:180-203 | the length is kept |
| `LeaseModifier.ExpirationChangesOne` | app/services/dev_lease_modifier.py:186-201 | at most one lease changes, only in its expiry, by the drawn minutes, and never a static one |
| `LeaseModifier.ModifyHostname` | app/services/dev_lease_modifier.py:205-221 | the length is kept |
| `LeaseModifier.HostnameChangesOne` | app/services/dev_lease_modifier.py:211-219 | exactly one lease changes, only in its hostname, to `modified-hostname-K` |
| `LeaseModifier.ModifiedHostname` | app/services/dev_lease_modifier.py:219 | `modified-hostname-` and the drawn number |
| `LeaseModifier.DeviceName` | app/services/dev_lease_modifier.py:101-103 | `test-device-` and the device's number |
| `LeaseModifier.IpDrawn` | app/services/dev_lease_modifier.py:89-95 | the drawn pool yields an address |
| `LeaseModifier.Generates` | app/services/dev_lease_modifier.py:89-117 | an address is drawn and `now` plus the drawn hours is a valid `datetime` |
| `LeaseModifier.FakeLease` | app/services/dev_lease_modifier.py:78-121 | a lease exactly when `Generates`; the next device name recorded exactly when an address was drawn; no pools gives none and no new device |
| `LeaseModifier.FakeLeaseIs` | app/services/dev_lease_modifier.py:90-117 | the generated lease written out field by field |
| `LeaseModifier.FakeLeaseMeaning` | app/services/dev_lease_modifier.py:84-117 | a generated lease is dynamic, has no client id, is named `test-device-N`, has a normal MAC, lies in the pool it names, and expires one to four hours on |
| `LeaseModifier.ModifyOutcome` | app/services/dev_lease_modifier.py:30-70 | an empty list changes nothing; otherwise the counter rises and the drawn step rewrites the copied list |
| `LeaseModifier.EmptyInput` | app/services/dev_lease_modifier.py:39-41 | an empty list comes back empty, and the counter does not move |
| `LeaseModifier.FirstCallRemoves` | app/services/dev_lease_modifier.py:72-76 | the first change of a fresh modifier is a removal |
| `LeaseModifier.StaticNeverRemoved` | app/services/dev_lease_modifier.py:30-70 | every static lease of the input survives each call, renamed at most |
| `LeaseModifier.StaticMember` | app/services/dev_lease_modifier.py:168 | a static lease is among the static leases |
| `LeaseModifier.StaticLeasesIn` | app/services/dev_lease_modifier.py:168 | the static leases come from the list |
| `LeaseModifier.AddStep` | app/services/dev_lease_modifier.py:52-55 | add appends one dynamic lease named after the next device and inside a pool exactly when `Generates`, else leaves the copies as they were; the device list grows exactly when an address was drawn |
| `LeaseModifier.DevLeaseModifier.constructor` | app/services/dev_lease_modifier.py:16-25 | counter at zero, no devices yet |
| `LeaseModifier.DevLeaseModifier.NextModificationType` | app/services/dev_lease_modifier.py:72-76 | the counter rises by one, then indexes the rotation |
| `LeaseModifier.DevLeaseModifier.GenerateFakeLease` | app/services/dev_lease_modifier.py:78-121 | the lease and the new device list are those of `FakeLease` |
| `LeaseModifier.DevLeaseModifier.ModifyLeases` | app/services/dev_lease_modifier.py:30-70 | the leases, new counter and new devices are those of `ModifyOutcome` |
| `Sse.MessageQueue.constructor` | app/services/sse_service.py:42 | a new queue is empty |
| `Sse.FrameLines` | app/services/sse_service.py:136-139 | the frame is its five lines joined by line ends |
| `Sse.SseFrame` | app/services/sse_service.py:136-139 | the `event:`, `data:` and `id:` lines, then a blank line |
| `Sse.EventMessage` | app/services/sse_service.py:104-105 | an event framed under its type name, with its JSON as the data |
| `Sse.ParseFrame` | app/services/sse_service.py:136-139 | a frame that reads back has exactly five lines |
| `Sse.ParseSseFrame` | app/services/sse_service.py:132-141 | round trip: a client reads back exactly the event name, the data and the id |
| `Sse.FramesDistinct` | app/services/sse_service.py:132-141 | frames with different contents or ids differ |
| `Sse.Messages` | app/services/sse_service.py:104-105 | one frame per event |
| `Sse.MessagesReadBack` | app/services/sse_service.py:104-105 | the k-th frame carries the k-th event under id counter + k + 1: ids rise by one |
| `Sse.MessagesDistinct` | app/services/sse_service.py:104-105 | no two frames of one broadcast are equal |
| `Sse.FirstFailure` | app/services/sse_service.py:108-116 | the event after which a client is dropped is one of the events broadcast, or the end |
| `Sse.FirstFailureLeast` | app/services/sse_service.py:108-120 | the first failing event index is the least one |
| `Sse.NoFailuresAllDelivered` | app/services/sse_service.py:104-116 | without failures every client gets every frame |
| `Sse.Survivors` | app/services/sse_service.py:118-120 | survivors are registered clients, with their records unchanged |
| `Sse.SurvivesIffNoFailure` | app/services/sse_service.py:108-120 | a client survives exactly when none of its puts failed |
| `Sse.SurvivorsStep` | app/services/sse_service.py:118-120 | removing one event's failed clients gives the next survivors |
| `Sse.SurvivorsDistinct` | app/services/sse_service.py:118-120 | survivors keep distinct queues |
| `Sse.QueueOutside` | app/services/sse_service.py:109-112 | a dropped client's queue is no registered client's queue |
| `Sse.SseService.constructor` | app/services/sse_service.py:26-31 | no clients, empty cache, counter at zero, no modifier |
| `Sse.SseService.AddClient` | app/services/sse_service.py:33-49 | a fresh empty queue under the id; the count rises by one for a new id and stays for a re-added one |
| `Sse.SseService.RemoveClient` | app/services/sse_service.py:51-59 | the id is gone and no other client is touched; the count drops by one only when it was registered |
| `Sse.SseService.ActiveConnectionsCount` | app/services/sse_service.py:61-67 | the number of registered clients |
| `Sse.SseService.FormatSseMessage` | app/services/sse_service.py:122-141 | the counter rises by one and the frame carries the new value |
| `Sse.SseService.PutAll` | app/services/sse_service.py:108-116 | every client's queue gets the frame unless its put fails; the failed clients are exactly those |
| `Sse.SseService.RemoveClients` | app/services/sse_service.py:118-120 | exactly the failed clients are removed |
| `Sse.SseService.BroadcastLeaseEvents` | app/services/sse_service.py:93-120 | no clients: nothing changes; otherwise the counter rises by the number of events, survivors are those that never failed, and each queue gains the frames up to the first failure |
| `Sse.SseService.DeliverEvents` | app/services/sse_service.py:104-120 | the loop over the events delivers the frames in event order |
| `Sse.SseService.DeliverEvent` | app/services/sse_service.py:105-120 | one event is framed once and delivered |
| `Sse.SseService.Deliver` | app/services/sse_service.py:108-120 | one event's frame reaches exactly the clients that do not fail, then they are dropped |
| `Sse.SseService.CacheCurrentLeases` | app/services/sse_service.py:217-224 | the cache becomes the list keyed by IP |
| `Sse.SseService.ProcessLeaseChangeNotification` | app/services/sse_service.py:69-91 | a failed read changes nothing but the lazy modifier; otherwise the diff against the cache is broadcast and the cache becomes the new list |
| `Sse.SseService.EnsureModifier` | app/services/sse_service.py:256-258 | the modifier is created once, in development mode |
| `Sse.SseService.RefreshFromLeases` | app/services/sse_service.py:73-88 | after a read: modify, diff, broadcast, cache |
| `Sse.SseService.ModifiedLeases` | app/services/sse_service.py:73-77 | the list as read, or the modifier's outcome in development mode |
| `Sse.SseService.BroadcastChanges` | app/services/sse_service.py:80-88 | the diff is broadcast if non-empty and the cache is replaced |
| `Responses.SuccessResponse` | app/utils/__init__.py:26-36 | the data itself |
| `Responses.ErrorResponse` | app/utils/__init__.py:38-54 | `error` is the message; `details` is present exactly for non-empty details; no other keys |
| `Responses.ReadError` | app/utils/__init__.py:38-54 | a body reads back exactly when it has an `error` key |
| `Responses.ErrorRoundTrip` | app/utils/__init__.py:38-54 | an error body reads back as its message and details, with empty details read as none |
| `Responses.ErrorResponseInjective` | app/utils/__init__.py:38-54 | equal bodies have equal messages and (non-empty) details |

## Left out

- ISO 8601 rendering (`isoformat() + 'Z'`) of expiries and event timestamps. Both stay as Unix
  seconds.
- The local time zone of `datetime.fromtimestamp` and `datetime.now`. Times are Unix seconds
  compared directly.
- Separate clock reads. The source reads the clock at each of these points:
  - app/services/sse_service.py:153, for the event timestamp;
  - the two reads at app/services/sse_service.py:44-45 in `add_client`;
  - every `is_active()` call (app/models/dhcp_lease.py:64), both in the diff and inside
    `to_dict` when the event message is built (app/services/sse_service.py:105);
  - app/services/dev_lease_modifier.py:107.

  The model uses one instant `now` for all reads made while one call is handled. The `datetime` range is taken as years 1 to 9999 in UTC.
- Python `int()` on non-ASCII digits, and its limit of 4300 digits. Only ASCII digits are
  modelled. Blanks for `strip()` and `split()` are Python's full Unicode whitespace set
  (`Text.IsSpace`). `int()` ignores the same set except U+001C to U+001F, which make it fail
  (`Numbers.IsIntSpace`, `Numbers.IntKeepsSeparator`). Inside the lease reader `int()` only
  sees blank-free `split()` fields, where the two agree (`Numbers.PyIntOfField`).
- `Text.Lower`: only ASCII letters are lower-cased, while Python's `lower()` covers all of
  Unicode and can change the length of a string (`'İ'.lower()` has two characters). Such a
  MAC field could pass or fail the 12-character check of `_normalize_mac_address` differently
  (app/services/dhcp_service.py:164-168).
- Universal-newline reading and UTF-8 decoding of the lease file. The file is given as its
  lines. A decoding failure is the `Undecodable` case of `GetAllLeases`.
- Logging, and the `try`/`except` that wraps `process_lease_change_notification` for errors
  the model cannot raise.
- `generate_client_id` (`uuid4`): client ids are parameters.
- The Flask check `_is_dev_mode_with_fake_changes`: it is the `devMode` parameter.
- `DhcpService.set_modified_lease_data`: the shown `DhcpService` does not define it (see
  "Missing service methods" above). The model takes the call to return normally and to leave
  what `get_all_leases` reads unchanged.
- `get_dns_pools` and the dnsmasq configuration parser: the pools are a parameter.
- MAC vendor lookup and the `vendor` field.
- Concurrency. Request threads touch the registry in the source; the model is sequential.
- The SSE route's polling loop and heartbeat, which drain the queues. `lastHeartbeat` is
  stored but never updated.
- Randomness and `random.seed(42)`. Every draw is a field of `Draws`. `random.choice(xs)` is
  `xs[pick % len(xs)]`.
- In-place list updates in `DevLeaseModifier`. `leases.pop`, `lease.lease_time = ...` and
  `lease.hostname = ...` act on the fresh copies, so they are modelled as functions from the
  copied list to the new list. The input list cannot be touched either way.
- `json.dumps`: the opaque function `json`. The frame round trips assume its output has no
  raw line end, as `json.dumps` escapes them.
