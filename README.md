# Rogue DHCP responder: address allocation

This project models the address-allocation state machine of `RogueDHCPServer`
(`rogue_dhcp_server.py`), a DHCP responder that answers every client on a
link with addresses from its own pool. It uses its own machine as gateway,
server identifier and default name server.

The state is an ordered pool of free addresses, `available_ips`, and a
table from client MAC to address, `allocated_ips`:

- the pool is the text form of every host of the configured CIDR block,
  ascending, with host bits masked off (`strict=False`);
- the table starts empty.

A DHCPDISCOVER (message type 1) pops the pool's head. It records that
address for the sender, replacing any earlier entry, and answers with an
Offer. A DHCPREQUEST (message type 3) from a MAC in the table is answered
with an Ack for the recorded address. Every other packet is ignored.
Replies are structured values rather than bytes:

- Ethernet, IP, UDP and BOOTP headers, using the field names of section 2
  of RFC 2131;
- the option list message type, server identifier, subnet mask, router,
  name server, lease time and end (sections 9.6, 9.7, 3.3, 3.5, 3.8, 9.2
  and 3.2 of RFC 2132).

The name server is the first configured DNS entry that passes `is_valid_ip`,
or the gateway when none does.

Files:

- `text.dfy` (module `Text`): Python's `str.split(sep)`, `str.strip()` and
  `str(n)`, with their inverses `Join` and `DecValue`.
- `ipv4.dfy` (module `IPv4`): `str(IPv4Address)`, and `ip_network(...,
  strict=False).hosts()` on a parsed network.
- `dhcp.dfy` (module `Dhcp`): inbound packets, how the source reads their
  message type, and the reply frames.
- `config.dfy` (module `Config`): the configuration and the `dns_servers`
  split and strip of `load_config`.
- `responder.dfy` (module `Responder`): two parts.
  - The handlers as functions of the old state (`Discover`, `Request`,
    `Process`) and the capture loop over a finite run of packets (`Serve`),
    with the lemmas about them.
  - The class `RogueDhcpServer`. Its methods update `availableIps` and
    `allocatedIps` in place and are proved equal to those functions.
- `scenarios.dfy` (module `Scenarios`): the configuration 192.168.50.0/29
  with gateway 192.168.50.1, worked through.

Conservation is the invariant `Responder.Accounted`. It says:

- the initial pool equals the addresses offered so far followed by the
  remaining pool;
- the initial pool has no duplicates;
- every address in the table was offered.

From it follow the properties below:

- no address is offered twice;
- every offered address came from the initial pool;
- table addresses are never still free;
- Offers sent plus addresses left equal the initial pool size.

The source reads the message type as `packet[DHCP].options[0][1]`, whatever
the first option is, and the model keeps that. A decoded option here is a
`(name, value)` pair or a bare name. Among those shapes, an empty option
list and a one-character bare name raise `IndexError`, and a longer bare
name reads as its second character. The exception leaves the capture loop
and ends the process. `Serve` therefore stops at the first `Raised`
outcome.

A client's table entry is not write-once: `allocated_ips[client_mac]` is
assigned on every Discover that finds a free address
(`rogue_dhcp_server.py:53`). A repeated Discover from one MAC replaces the
entry, and the earlier address is lost (`Responder.RediscoverLeaks`).

The `name_server` key the code uses selects option 6, "Domain Name
Server" (section 3.8 of RFC 2132), so `Dhcp.OptionCode` gives 6.

## Model

| member | source | states |
|---|---|---|
| Text.Split | rogue_dhcp_server.py:176 | `split(',')` yields at least one part, and no part contains the separator |
| Text.JoinSplit | rogue_dhcp_server.py:176 | joining the parts of a split with the separator gives back the original string |
| Text.SplitCount | rogue_dhcp_server.py:176 | a split has exactly one more part than the string has separators |
| Text.SplitJoin | rogue_dhcp_server.py:176 | splitting a join of separator-free parts gives back those parts |
| Text.IsSpace | rogue_dhcp_server.py:176 | the characters `str.isspace()` accepts, which `strip()` removes; no ensures of its own, it fixes what `Text.Strip` and `Text.LeadingSpaces` mean |
| Text.Strip | rogue_dhcp_server.py:176 | `strip()` returns a contiguous infix that neither starts nor ends with whitespace, with only whitespace around it |
| Text.StripKeepsOnly | rogue_dhcp_server.py:176 | every character of a stripped string occurs in the original |
| Text.StripIdempotent | rogue_dhcp_server.py:176 | stripping twice gives the same result as stripping once |
| Text.DecRoundTrip | rogue_dhcp_server.py:41 | reading back the decimal text of an octet gives the octet |
| Text.DecInjective | rogue_dhcp_server.py:41 | two numbers have the same decimal text exactly when they are equal |
| Text.Dec | rogue_dhcp_server.py:41 | `str(n)` of an octet: a non-empty digit string without leading zero; `Text.DecRoundTrip` and `Text.DecInjective` characterise it |
| IPv4.Octets | rogue_dhcp_server.py:41 | an address splits into four bytes below 256 that recombine to the address |
| IPv4.RenderInjective | rogue_dhcp_server.py:41 | two addresses render as the same dotted-quad text exactly when they are equal |
| IPv4.Render | rogue_dhcp_server.py:41 | `str(IPv4Address)`: four decimal octets joined with dots; no ensures of its own, characterised by `IPv4.RenderSplits` and `IPv4.RenderInjective` |
| IPv4.NetworkAddress | rogue_dhcp_server.py:40 | `strict=False` masking gives an address in the network with its host bits zero, at or below the given address, whose block holds the given address and fits in the 32-bit space |
| IPv4.Hosts | rogue_dhcp_server.py:40-41 | `hosts()` is strictly ascending |
| IPv4.HostsExact | rogue_dhcp_server.py:40-41 | for prefixes up to /30, an address is a host exactly when it lies in the block and is neither the network nor the broadcast address; the host count is block size minus two |
| IPv4.HostStringsDistinct | rogue_dhcp_server.py:41 | the initial pool lists no address twice |
| IPv4.HostStrings | rogue_dhcp_server.py:41 | the initial pool, one text per host in `hosts()` order; no ensures of its own, characterised by `IPv4.HostStringsDistinct` and `IPv4.HostStringsExact` |
| IPv4.HostStringsExact | rogue_dhcp_server.py:40-41 | for prefixes up to /30, the pool holds an address's text exactly when the address is a host of the block; the gateway is not held back |
| Dhcp.FirstOptionValue | rogue_dhcp_server.py:158 | `options[0][1]`: nothing is read without a DHCP layer; the read raises exactly on an empty option list or a bare first name shorter than two characters; a first pair gives its value, and a longer bare name its second character |
| Dhcp.MarkerFirstHasNoType | rogue_dhcp_server.py:158 | a bare first option name never reads as a message type |
| Config.DnsServersShape | rogue_dhcp_server.py:176 | the DNS list has one entry per comma-separated field; no entry holds a comma; stripping an entry again changes nothing |
| Config.DnsServersSingle | rogue_dhcp_server.py:176 | a value without commas yields one entry, the value stripped |
| Config.DnsServersPair | rogue_dhcp_server.py:176 | a value with one comma yields its two fields, each stripped |
| Config.DnsServersOfFields | rogue_dhcp_server.py:176 | any number of comma-free fields joined by commas read back as those fields, each stripped, in order |
| Config.DnsServers | rogue_dhcp_server.py:176 | `[s.strip() for s in raw.split(',')]`; no ensures of its own, characterised by `Config.DnsServersShape`, `Config.DnsServersOfFields`, `Config.DnsServersSingle` and `Config.DnsServersPair` |
| Responder.ValidDns | rogue_dhcp_server.py:91 | the filtered DNS list holds exactly the configured entries that pass the validity check |
| Responder.NameServerFirstValid | rogue_dhcp_server.py:103 | the name server is the first configured entry that passes the validity check |
| Responder.NameServerFallback | rogue_dhcp_server.py:132 | when no entry passes the check, the name server is the gateway |
| Responder.NameServerFor | rogue_dhcp_server.py:91-103 | `valid_dns[0] if valid_dns else self.gateway`; no ensures of its own, characterised by `Responder.NameServerFirstValid` and `Responder.NameServerFallback` |
| Responder.FramesWellFormed | rogue_dhcp_server.py:93-135 | Offer and Ack share one shape: broadcast Ethernet and IP destinations, ports 67 to 68, op 2, gateway as IP source, `siaddr`, server id and router, and options in the order 53, 54, 1, 3, 6, 51, 255 with the chosen name server |
| Responder.OfferFrame | rogue_dhcp_server.py:93-106 | the Offer record; no ensures of its own, characterised by `Responder.FramesWellFormed` and `Responder.OfferAckDiffer` |
| Responder.AckFrame | rogue_dhcp_server.py:122-135 | the Ack record; no ensures of its own, characterised by `Responder.FramesWellFormed` and `Responder.OfferAckDiffer` |
| Responder.OfferAckDiffer | rogue_dhcp_server.py:93-135 | an Ack equals the Offer with only the message type and `yiaddr` replaced |
| Responder.ProcessPops | rogue_dhcp_server.py:51-53 | a Discover with a non-empty pool pops the head into the sender's entry and offers it; any other packet leaves pool and table unchanged and offers nothing |
| Responder.DiscoverEffect | rogue_dhcp_server.py:44-53 | a Discover with a non-empty pool removes only the head, maps the sender to it (replacing any entry, other entries kept) and offers it with the request's xid; with an empty pool nothing changes and nothing is sent |
| Responder.RequestEffect | rogue_dhcp_server.py:112-117 | a Request from a MAC in the table gets a well-formed Ack for the recorded address with the request's xid; one from any other MAC gets no reply |
| Responder.HandlersCheckType | rogue_dhcp_server.py:44 | each handler re-checks its type: given any other packet it sends nothing and changes nothing |
| Responder.ProcessDispatch | rogue_dhcp_server.py:156-162 | type 1 goes to Discover and type 3 to Request; every other packet, including types 2 and 5 and packets without DHCP, changes nothing; processing raises exactly when the read of `options[0][1]` does; only types 1 and 3 are answered |
| Responder.RepliesIgnored | rogue_dhcp_server.py:164-165 | a captured Offer or Ack (message type 2 or 5) changes nothing and gets no answer |
| Responder.MarkerFirstIgnored | rogue_dhcp_server.py:156-162 | a packet whose first option is a bare name is never dispatched: it raises when the name is shorter than two characters, and is ignored otherwise |
| Responder.Discover | rogue_dhcp_server.py:43-53 | `handle_dhcp_discover` on a state value; no ensures of its own, characterised by `Responder.DiscoverEffect`, `Responder.ProcessPops` and `Responder.HandlersCheckType` |
| Responder.Request | rogue_dhcp_server.py:111-117 | `handle_dhcp_request` on a state value; no ensures of its own, characterised by `Responder.RequestEffect` and `Responder.HandlersCheckType` |
| Responder.Process | rogue_dhcp_server.py:156-162 | `process_packet` on a state value; no ensures of its own, characterised by `Responder.ProcessDispatch`, `Responder.ProcessReplies` and `Responder.ProcessAccounted` |
| Responder.Serve | rogue_dhcp_server.py:153 | the capture loop over a finite run, stopping at the first raise; no ensures of its own, characterised by `Responder.ServeAccounted`, `Responder.ServeConserves`, `Responder.ServeTable` and `Responder.DiscoversExhaust` |
| Responder.ProcessReplies | rogue_dhcp_server.py:156-162 | every reply echoes the sender's xid and MAC; it is an Offer exactly for a Discover (carrying the pool head) and an Ack exactly for a Request (carrying the table entry) |
| Responder.OfferThenAck | rogue_dhcp_server.py:53 | a Discover followed by a Request from the same MAC gets an Ack for the address just offered |
| Responder.AccountedMeans | rogue_dhcp_server.py:52-53 | under the invariant, offered addresses come from the initial pool, none twice; table addresses are not free; offered plus free equals the initial pool size |
| Responder.InitialAccounted | rogue_dhcp_server.py:36-41 | a fresh responder satisfies the invariant with nothing offered |
| Responder.ProcessAccounted | rogue_dhcp_server.py:52-53 | handling one packet preserves the invariant, with the offered list extended by what was offered |
| Responder.ServeAccounted | rogue_dhcp_server.py:153 | any run of packets preserves the invariant |
| Responder.ServeConserves | rogue_dhcp_server.py:41-53 | after any run from a fresh responder, the Offers carry distinct addresses in pool order, their count plus the remaining pool equals the initial pool size, and no table address is still free |
| Responder.DiscoversExhaust | rogue_dhcp_server.py:51-53 | in a run of Discovers, exactly the first pool-size ones get Offers, carrying the pool in order; the rest get no reply |
| Responder.ProcessTable | rogue_dhcp_server.py:53 | one packet changes a MAC's table entry only by offering that MAC an address |
| Responder.ServeTable | rogue_dhcp_server.py:53 | after a run, a MAC's entry is the address last offered to it, or the earlier entry if it was offered none |
| Responder.RequestAfterServe | rogue_dhcp_server.py:116-117 | after any run from a fresh responder, a Request gets an Ack for the address last offered to its MAC, with its own xid, or no reply if that MAC was offered none |
| Responder.RediscoverLeaks | rogue_dhcp_server.py:52-53 | a second Discover from one MAC gets the next address and overwrites the entry; the first address is no longer in the pool or the table |
| Responder.RogueDhcpServer.constructor | rogue_dhcp_server.py:29-41 | the fields hold the configuration, the server address is the gateway, the pool is the block's host texts, the table is empty, and the invariant holds |
| Responder.RogueDhcpServer.HandleDiscover | rogue_dhcp_server.py:43-109 | the new pool, table and outcome are those of `Discover` on the old state; the invariant is kept |
| Responder.RogueDhcpServer.HandleRequest | rogue_dhcp_server.py:111-139 | the outcome is that of `Request`; nothing is modified |
| Responder.RogueDhcpServer.ProcessPacket | rogue_dhcp_server.py:156-162 | the new state and outcome are those of `Process` on the old state; the invariant is kept |
| Responder.RogueDhcpServer.Start | rogue_dhcp_server.py:141-153 | the loop over the captured packets ends in the state and outcomes of `Serve`, stopping at the first raise; the invariant is kept |
| Scenarios.Pool29Hosts | rogue_dhcp_server.py:40-41 | 192.168.50.0/29 gives the pool 192.168.50.1 to 192.168.50.6, ascending |
| Scenarios.NameServerExample | rogue_dhcp_server.py:91-103 | with DNS list ["not-an-ip", "8.8.8.8", "1.1.1.1"], the name server is 8.8.8.8 |
| Scenarios.DnsValueWithSpace | rogue_dhcp_server.py:176 | "a, b" reads as the two bare names, as in "8.8.8.8, 1.1.1.1" |
| Scenarios.PoolRunsOut | rogue_dhcp_server.py:51-53 | seven Discovers on the /29 pool: six Offers for .1 to .6 in turn, then no reply and an empty pool |
| Scenarios.GatewayOffered | rogue_dhcp_server.py:37-53 | with gateway 192.168.50.1, a fresh responder offers the gateway's own address to the first client, naming 8.8.8.8 as name server |

## Left out

- Packet capture and sending (`sniff`, `sendp`) are raw-socket I/O. The
  capture loop is modelled over a finite sequence of already captured
  packets, and a sent frame is an outcome value.
- `get_if_hwaddr(interface)` is a system call. The interface's hardware
  address is a constructor parameter.
- `is_valid_ip` rests on `socket.inet_aton`, a foreign call that accepts
  more than dotted quads (for example "1.2"). It is an uninterpreted
  parameter `isValidIp`, and no claim about address syntax is made.
- Byte serialisation by scapy's layer composition, including `mac2str`, is
  library code. `chaddr` carries the client MAC text as it arrived. Option
  values are symbolic; the model does not encode their bytes.
- Parsing the `ip_pool` string with `ipaddress.ip_network` is library code,
  and so is its `ValueError` on malformed input. The configuration holds
  the parsed network (address and prefix length).
- `hosts()` of a /31 or /32 follows the CPython `ipaddress` behaviour: both
  addresses, or the single address. The exclusion properties
  (`IPv4.HostsExact`, `IPv4.HostStringsExact`) are stated for prefixes up
  to /30.
- Reading `config.ini` (`configparser`, `getint`), `argparse`, the
  `__main__` exception handler and exit code, the default `lease_time=300`
  (`load_config` always supplies one), and all logging and printing are
  plumbing, not allocation logic.
- Option entries of other shapes are not represented. The model knows a
  `(name, value)` pair and a bare name. Other decoded shapes, such as a
  one-element tuple or a raw-bytes entry left by a truncated option, have
  their own behaviour under `options[0][1]` that is not modelled.
- `Network` is IPv4 only. `ip_network` also accepts IPv6 CIDR blocks, which
  the model does not cover.
- `threading` and `time` are imported but unused; nothing is concurrent.
- The message-type comparison `== 1` / `== 3` is modelled on a decoded
  integer value. Python's `True == 1` coincidence, for a boolean option
  value, is not modelled.
- Responder.RogueDhcpServer.Start: does not state the ghost record of
  offered addresses after the run. `Valid()` still holds at the end, and
  `Responder.ServeAccounted` states conservation for the same run.
