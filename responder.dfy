/**
 * The responder's address-allocation state machine: an ordered pool of
 * free addresses that Discover consumes from the front, and a table from
 * client hardware address to the address last offered to it, which
 * Request reads.  The first half states each step as a function of the
 * old state; the class `RogueDhcpServer` is the object the source
 * mutates, proved against those functions.
 */
module Responder {
  import opened Wrappers
  import opened Text
  import opened IPv4
  import opened Dhcp
  import opened Config

  /**
   * What the responder is built from: its configuration, the hardware
   * address of its interface (`get_if_hwaddr`), and the address check
   * `is_valid_ip`, which rests on `socket.inet_aton` and is left
   * uninterpreted.
   */
  datatype Context = Context(config: ServerConfig, hwAddr: Mac, isValidIp: string -> bool)

  /** The server's own address is the configured gateway. */
  function ServerIp(ctx: Context): string
  {
    ctx.config.gateway
  }

  /** The allocation state: free addresses in pool order, and the MAC table. */
  datatype Leases = Leases(available: seq<string>, table: map<Mac, string>)

  /** The state a freshly built responder starts in. */
  function InitialLeases(config: ServerConfig): Leases
  {
    Leases(HostStrings(config.ipPool), map[])
  }

  /** The effect of handling one packet on the outside world. */
  datatype Outcome =
    | NoReply            // nothing is sent
    | Sent(frame: Frame) // one frame is sent
    | Raised             // IndexError escapes the handler

  // ---------------------------------------------------------------------
  // The name-server option
  // ---------------------------------------------------------------------

  /** `[ip for ip in dns_servers if is_valid_ip(ip)]` */
  function ValidDns(dns: seq<string>, valid: string -> bool): (r: seq<string>)
    ensures |r| <= |dns|
    ensures forall x :: x in r <==> x in dns && valid(x)
  {
    if dns == [] then []
    else (if valid(dns[0]) then [dns[0]] else []) + ValidDns(dns[1..], valid)
  }

  /** `valid_dns[0] if valid_dns else gateway` */
  function NameServerFor(dns: seq<string>, valid: string -> bool, gateway: string): string
  {
    var v := ValidDns(dns, valid);
    if v != [] then v[0] else gateway
  }

  /** The first entry that passes the check is the one advertised. */
  lemma {:induction false} NameServerFirstValid(dns: seq<string>, valid: string -> bool,
                                                gateway: string, k: nat)
    requires k < |dns| && valid(dns[k])
    requires forall j :: 0 <= j < k ==> !valid(dns[j])
    ensures NameServerFor(dns, valid, gateway) == dns[k]
  {
    if k > 0 {
      NameServerFirstValid(dns[1..], valid, gateway, k - 1);
    }
  }

  /** When no entry passes the check, the gateway is advertised. */
  lemma NameServerFallback(dns: seq<string>, valid: string -> bool, gateway: string)
    requires forall i :: 0 <= i < |dns| ==> !valid(dns[i])
    ensures NameServerFor(dns, valid, gateway) == gateway
  {
    var v := ValidDns(dns, valid);
    if v != [] {
      assert v[0] in v;
    }
  }

  function ChosenNameServer(ctx: Context): string
  {
    NameServerFor(ctx.config.dnsServers, ctx.isValidIp, ctx.config.gateway)
  }

  // ---------------------------------------------------------------------
  // Reply construction
  // ---------------------------------------------------------------------

  /** The Offer the Discover handler builds. */
  function OfferFrame(ctx: Context, xid: Xid, offeredIp: string, clientMac: Mac): Frame
  {
    Frame(EtherHeader(ctx.hwAddr, BroadcastMac),
          IpHeader(ServerIp(ctx), BroadcastIp),
          UdpHeader(ServerPort, ClientPort),
          Bootp(BootReply, xid, offeredIp, ServerIp(ctx), clientMac),
          [MessageType(Offer),
           ServerId(ServerIp(ctx)),
           SubnetMask(ctx.config.subnetMask),
           Router(ctx.config.gateway),
           NameServer(ChosenNameServer(ctx)),
           LeaseTime(ctx.config.leaseTime),
           End])
  }

  /** The Ack the Request handler builds. */
  function AckFrame(ctx: Context, xid: Xid, assignedIp: string, clientMac: Mac): Frame
  {
    Frame(EtherHeader(ctx.hwAddr, BroadcastMac),
          IpHeader(ServerIp(ctx), BroadcastIp),
          UdpHeader(ServerPort, ClientPort),
          Bootp(BootReply, xid, assignedIp, ServerIp(ctx), clientMac),
          [MessageType(Ack),
           ServerId(ServerIp(ctx)),
           SubnetMask(ctx.config.subnetMask),
           Router(ctx.config.gateway),
           NameServer(ChosenNameServer(ctx)),
           LeaseTime(ctx.config.leaseTime),
           End])
  }

  /**
   * The fixed shape every reply has: link and network broadcast
   * destinations, ports 67 to 68, a BOOTREPLY from the gateway, and the
   * options message-type, server identifier, subnet mask, router, name
   * server, lease time and end, in that order.
   */
  predicate WellFormedReply(ctx: Context, f: Frame, kind: MessageKind)
  {
    && f.ether.src == ctx.hwAddr && f.ether.dst == BroadcastMac
    && f.ip.src == ctx.config.gateway && f.ip.dst == BroadcastIp
    && f.udp.sport == ServerPort && f.udp.dport == ClientPort
    && f.bootp.op == BootReply && f.bootp.siaddr == ctx.config.gateway
    && OptionCodes(f.options) == [53, 54, 1, 3, 6, 51, 255]
    && f.options[0] == MessageType(kind)
    && f.options[1] == ServerId(ctx.config.gateway)
    && f.options[2] == SubnetMask(ctx.config.subnetMask)
    && f.options[3] == Router(ctx.config.gateway)
    && f.options[4] == NameServer(ChosenNameServer(ctx))
    && f.options[5] == LeaseTime(ctx.config.leaseTime)
  }

  /** The Offer and the Ack both have the fixed reply shape. */
  lemma FramesWellFormed(ctx: Context, xid: Xid, ip: string, mac: Mac)
    ensures WellFormedReply(ctx, OfferFrame(ctx, xid, ip, mac), Offer)
    ensures WellFormedReply(ctx, AckFrame(ctx, xid, ip, mac), Ack)
    ensures OfferFrame(ctx, xid, ip, mac).bootp == Bootp(BootReply, xid, ip, ctx.config.gateway, mac)
    ensures AckFrame(ctx, xid, ip, mac).bootp == Bootp(BootReply, xid, ip, ctx.config.gateway, mac)
  {
    var o, a := OfferFrame(ctx, xid, ip, mac), AckFrame(ctx, xid, ip, mac);
    assert OptionCodes(o.options) == [53, 54, 1, 3, 6, 51, 255];
    assert OptionCodes(a.options) == [53, 54, 1, 3, 6, 51, 255];
  }

  /** An Offer and an Ack differ only in the message type and the address carried. */
  lemma OfferAckDiffer(ctx: Context, xid: Xid, offeredIp: string, assignedIp: string, mac: Mac)
    ensures var o := OfferFrame(ctx, xid, offeredIp, mac);
            AckFrame(ctx, xid, assignedIp, mac) ==
              o.(bootp := o.bootp.(yiaddr := assignedIp), options := o.options[0 := MessageType(Ack)])
  {
  }

  /** The outcome carries an Offer. */
  predicate IsOffer(o: Outcome)
  {
    o.Sent? && o.frame.options != [] && o.frame.options[0] == MessageType(Offer)
  }

  /** The outcome carries an Ack. */
  predicate IsAck(o: Outcome)
  {
    o.Sent? && o.frame.options != [] && o.frame.options[0] == MessageType(Ack)
  }

  // ---------------------------------------------------------------------
  // The handlers, as functions of the old state
  // ---------------------------------------------------------------------

  /** `handle_dhcp_discover` */
  function Discover(ctx: Context, s: Leases, p: Packet): (Leases, Outcome)
  {
    match FirstOptionValue(p)
    case NoDhcpLayer => (s, NoReply)
    case RaisesIndexError => (s, Raised)
    case Selected(v) =>
      if v != Number(DhcpDiscover) || s.available == [] then (s, NoReply)
      else
        var offeredIp := s.available[0];
        (Leases(s.available[1..], s.table[p.etherSrc := offeredIp]),
         Sent(OfferFrame(ctx, p.xid, offeredIp, p.etherSrc)))
  }

  /** `handle_dhcp_request`; it never changes the state. */
  function Request(ctx: Context, s: Leases, p: Packet): Outcome
  {
    match FirstOptionValue(p)
    case NoDhcpLayer => NoReply
    case RaisesIndexError => Raised
    case Selected(v) =>
      if v != Number(DhcpRequest) || p.etherSrc !in s.table then NoReply
      else Sent(AckFrame(ctx, p.xid, s.table[p.etherSrc], p.etherSrc))
  }

  /** `process_packet`: classify by the first option's value and dispatch. */
  function Process(ctx: Context, s: Leases, p: Packet): (Leases, Outcome)
  {
    match FirstOptionValue(p)
    case NoDhcpLayer => (s, NoReply)
    case RaisesIndexError => (s, Raised)
    case Selected(v) =>
      if v == Number(DhcpDiscover) then Discover(ctx, s, p)
      else if v == Number(DhcpRequest) then (s, Request(ctx, s, p))
      else (s, NoReply)
  }

  /**
   * The capture loop of `start` over a finite run of captured packets: each
   * is processed in turn, and an exception escaping a handler ends the
   * loop (and, in the source, the process).
   */
  function Serve(ctx: Context, s: Leases, ps: seq<Packet>): (Leases, seq<Outcome>)
    decreases |ps|
  {
    if ps == [] then (s, [])
    else
      var (s1, o) := Process(ctx, s, ps[0]);
      if o.Raised? then (s1, [o])
      else
        var (s2, os) := Serve(ctx, s1, ps[1..]);
        (s2, [o] + os)
  }

  function Min(a: int, b: int): int
  {
    if a < b then a else b
  }

  /**
   * What one packet does to the pool and the table: a Discover with a
   * non-empty pool pops the pool's head into the sender's entry and offers
   * it; every other packet leaves both alone and offers nothing.
   */
  lemma ProcessPops(ctx: Context, s: Leases, p: Packet)
    ensures var (s', o) := Process(ctx, s, p);
            if HasMessageType(p, DhcpDiscover) && s.available != [] then
              && s' == Leases(s.available[1..], s.table[p.etherSrc := s.available[0]])
              && IsOffer(o) && o.frame.bootp.yiaddr == s.available[0]
            else s' == s && !IsOffer(o) && (HasMessageType(p, DhcpDiscover) ==> o == NoReply)
  {
  }

  /** One turn of the capture loop, given what processing its packet gave. */
  lemma ServeCons(ctx: Context, s: Leases, p: Packet, rest: seq<Packet>, s1: Leases, o: Outcome)
    requires Process(ctx, s, p).0 == s1 && Process(ctx, s, p).1 == o
    ensures o.Raised? ==> Serve(ctx, s, [p] + rest) == (s1, [o])
    ensures !o.Raised? ==>
              Serve(ctx, s, [p] + rest) == (Serve(ctx, s1, rest).0, [o] + Serve(ctx, s1, rest).1)
  {
    assert ([p] + rest)[0] == p && ([p] + rest)[1..] == rest;
  }

  // ---------------------------------------------------------------------
  // One packet
  // ---------------------------------------------------------------------

  /**
   * A Discover with a non-empty pool takes the pool's first address,
   * records it for the sender (replacing any earlier entry), and offers it
   * with the request's transaction id; with an empty pool nothing changes
   * and nothing is sent.
   */
  lemma DiscoverEffect(ctx: Context, s: Leases, p: Packet)
    requires HasMessageType(p, DhcpDiscover)
    ensures var (s', o) := Discover(ctx, s, p);
            if s.available == [] then s' == s && o == NoReply
            else
              && s'.available == s.available[1..]
              && s'.table.Keys == s.table.Keys + {p.etherSrc}
              && s'.table[p.etherSrc] == s.available[0]
              && (forall m :: m in s.table && m != p.etherSrc ==> s'.table[m] == s.table[m])
              && IsOffer(o) && WellFormedReply(ctx, o.frame, Offer)
              && o.frame.bootp.yiaddr == s.available[0]
              && o.frame.bootp.xid == p.xid && o.frame.bootp.chaddr == p.etherSrc
  {
    FramesWellFormed(ctx, p.xid, if s.available == [] then "" else s.available[0], p.etherSrc);
  }

  /**
   * A Request from a MAC in the table is acknowledged with the table's
   * address and the request's transaction id; from any other MAC it gets
   * no reply.
   */
  lemma RequestEffect(ctx: Context, s: Leases, p: Packet)
    requires HasMessageType(p, DhcpRequest)
    ensures var o := Request(ctx, s, p);
            if p.etherSrc !in s.table then o == NoReply
            else
              && IsAck(o) && WellFormedReply(ctx, o.frame, Ack)
              && o.frame.bootp.yiaddr == s.table[p.etherSrc]
              && o.frame.bootp.xid == p.xid && o.frame.bootp.chaddr == p.etherSrc
  {
    if p.etherSrc in s.table {
      FramesWellFormed(ctx, p.xid, s.table[p.etherSrc], p.etherSrc);
    }
  }

  /**
   * Each handler checks the message type itself: given any other packet
   * it sends nothing and changes nothing (an unreadable first option
   * still raises).
   */
  lemma HandlersCheckType(ctx: Context, s: Leases, p: Packet)
    requires !FirstOptionValue(p).RaisesIndexError?
    ensures !HasMessageType(p, DhcpDiscover) ==> Discover(ctx, s, p) == (s, NoReply)
    ensures !HasMessageType(p, DhcpRequest) ==> Request(ctx, s, p) == NoReply
  {
  }

  /**
   * Dispatch: type 1 goes to the Discover handler, type 3 to the Request
   * handler, and every other packet, with or without a DHCP layer, changes
   * nothing and is not answered, unless reading its type raises.
   */
  lemma ProcessDispatch(ctx: Context, s: Leases, p: Packet)
    ensures HasMessageType(p, DhcpDiscover) ==> Process(ctx, s, p) == Discover(ctx, s, p)
    ensures HasMessageType(p, DhcpRequest) ==> Process(ctx, s, p) == (s, Request(ctx, s, p))
    ensures !HasMessageType(p, DhcpDiscover) ==> Process(ctx, s, p).0 == s
    ensures FirstOptionValue(p).RaisesIndexError? <==> Process(ctx, s, p).1.Raised?
    ensures Process(ctx, s, p).1.Sent? ==>
              HasMessageType(p, DhcpDiscover) || HasMessageType(p, DhcpRequest)
  {
  }

  /**
   * An Offer or Ack on the wire, its message type decoded to the value of
   * section 9.6 of RFC 2132 (2 or 5), is ignored: such captured replies,
   * the responder's own included, change nothing and get no answer.
   */
  lemma RepliesIgnored(ctx: Context, s: Leases, p: Packet, k: MessageKind)
    requires p.dhcp.Some? && p.dhcp.value != []
    requires p.dhcp.value[0] == Pair("message-type", Number(MessageTypeValue(k)))
    ensures Process(ctx, s, p) == (s, NoReply)
  {
  }

  /** A bare first option name, such as "end", is never dispatched. */
  lemma MarkerFirstIgnored(ctx: Context, s: Leases, p: Packet)
    requires p.dhcp.Some? && p.dhcp.value != [] && p.dhcp.value[0].Marker?
    ensures Process(ctx, s, p) == (s, if |p.dhcp.value[0].name| < 2 then Raised else NoReply)
  {
  }

  /**
   * Every reply is a well-formed Offer answering a Discover or a
   * well-formed Ack answering a Request, addressed to the sender.
   */
  lemma ProcessReplies(ctx: Context, s: Leases, p: Packet)
    ensures var o := Process(ctx, s, p).1;
            o.Sent? ==>
              && o.frame.bootp.xid == p.xid && o.frame.bootp.chaddr == p.etherSrc
              && (IsOffer(o) <==> HasMessageType(p, DhcpDiscover))
              && (IsOffer(o) ==> WellFormedReply(ctx, o.frame, Offer)
                                 && s.available != [] && o.frame.bootp.yiaddr == s.available[0])
              && (IsAck(o) <==> HasMessageType(p, DhcpRequest))
              && (IsAck(o) ==> WellFormedReply(ctx, o.frame, Ack)
                               && p.etherSrc in s.table
                               && o.frame.bootp.yiaddr == s.table[p.etherSrc])
  {
    if HasMessageType(p, DhcpDiscover) {
      DiscoverEffect(ctx, s, p);
    } else if HasMessageType(p, DhcpRequest) {
      RequestEffect(ctx, s, p);
    }
  }

  /** A Discover followed by a Request from the same MAC is acknowledged with the offered address. */
  lemma OfferThenAck(ctx: Context, s: Leases, discover: Packet, request: Packet)
    requires HasMessageType(discover, DhcpDiscover) && HasMessageType(request, DhcpRequest)
    requires request.etherSrc == discover.etherSrc && s.available != []
    ensures var (s', offer) := Process(ctx, s, discover);
            var ack := Process(ctx, s', request).1;
            && IsOffer(offer) && IsAck(ack)
            && ack.frame.bootp.yiaddr == offer.frame.bootp.yiaddr == s.available[0]
            && ack.frame.bootp.xid == request.xid
  {
    DiscoverEffect(ctx, s, discover);
    RequestEffect(ctx, Process(ctx, s, discover).0, request);
  }

  // ---------------------------------------------------------------------
  // Runs of packets: what was offered, and to whom
  // ---------------------------------------------------------------------

  /** The addresses carried by the Offers among `outs`, in order. */
  function OfferedIps(outs: seq<Outcome>): seq<string>
  {
    if outs == [] then []
    else (if IsOffer(outs[0]) then [outs[0].frame.bootp.yiaddr] else []) + OfferedIps(outs[1..])
  }

  function OfferCount(outs: seq<Outcome>): nat
  {
    if outs == [] then 0 else (if IsOffer(outs[0]) then 1 else 0) + OfferCount(outs[1..])
  }

  lemma {:induction false} OfferedIpsAppend(a: seq<Outcome>, b: seq<Outcome>)
    ensures OfferedIps(a + b) == OfferedIps(a) + OfferedIps(b)
  {
    if a != [] {
      var head := if IsOffer(a[0]) then [a[0].frame.bootp.yiaddr] else [];
      assert (a + b)[0] == a[0] && (a + b)[1..] == a[1..] + b;
      assert OfferedIps(a + b) == head + OfferedIps(a[1..] + b);
      OfferedIpsAppend(a[1..], b);
    } else {
      assert a + b == b;
    }
  }

  /** The address one outcome offers, if it is an Offer. */
  function OfferedBy(o: Outcome): seq<string>
  {
    if IsOffer(o) then [o.frame.bootp.yiaddr] else []
  }

  lemma {:induction false} OfferCountIsLength(outs: seq<Outcome>)
    ensures OfferCount(outs) == |OfferedIps(outs)|
  {
    if outs != [] {
      OfferCountIsLength(outs[1..]);
    }
  }

  /** The address last offered to `m` among `outs`, if any. */
  function LastOfferTo(outs: seq<Outcome>, m: Mac): Option<string>
  {
    if outs == [] then None
    else
      var later := LastOfferTo(outs[1..], m);
      if later.Some? then later
      else if IsOffer(outs[0]) && outs[0].frame.bootp.chaddr == m then Some(outs[0].frame.bootp.yiaddr)
      else None
  }

  function Lookup(table: map<Mac, string>, m: Mac): Option<string>
  {
    if m in table then Some(table[m]) else None
  }

  /**
   * The conservation invariant: the initial pool is exactly what has been
   * offered followed by what is still free, it lists no address twice, and
   * every address in the table is one that was offered.
   */
  predicate Accounted(pool0: seq<string>, offered: seq<string>, s: Leases)
  {
    && pool0 == offered + s.available
    && Distinct(pool0)
    && forall m :: m in s.table ==> s.table[m] in offered
  }

  /** What the invariant guarantees at any point of a run. */
  lemma AccountedMeans(pool0: seq<string>, offered: seq<string>, s: Leases)
    requires Accounted(pool0, offered, s)
    ensures |offered| + |s.available| == |pool0|
    ensures forall a :: a in offered ==> a in pool0
    ensures Distinct(offered) && Distinct(s.available)
    ensures forall m :: m in s.table ==> s.table[m] !in s.available
  {
    forall i, j | 0 <= i < j < |offered| ensures offered[i] != offered[j] {
      assert pool0[i] == offered[i] && pool0[j] == offered[j];
    }
    forall i, j | 0 <= i < j < |s.available| ensures s.available[i] != s.available[j] {
      assert pool0[|offered| + i] == s.available[i] && pool0[|offered| + j] == s.available[j];
    }
    forall m | m in s.table ensures s.table[m] !in s.available {
      var i :| 0 <= i < |offered| && offered[i] == s.table[m];
      forall j | 0 <= j < |s.available| ensures s.available[j] != offered[i] {
        assert pool0[i] == offered[i] && pool0[|offered| + j] == s.available[j];
      }
    }
  }

  /** A responder starts accounted for: nothing offered, the whole pool free. */
  lemma InitialAccounted(config: ServerConfig)
    ensures Accounted(HostStrings(config.ipPool), [], InitialLeases(config))
  {
    HostStringsDistinct(config.ipPool);
  }

  /** Handling one packet keeps the invariant, the offered list growing by what was offered. */
  lemma ProcessAccounted(ctx: Context, pool0: seq<string>, offered: seq<string>, s: Leases, p: Packet)
    requires Accounted(pool0, offered, s)
    ensures var (s', o) := Process(ctx, s, p);
            Accounted(pool0, offered + OfferedIps([o]), s')
  {
    var (s', o) := Process(ctx, s, p);
    assert OfferedIps([o]) == OfferedBy(o) + OfferedIps([]);
    ProcessPops(ctx, s, p);
    if HasMessageType(p, DhcpDiscover) && s.available != [] {
      assert offered + [s.available[0]] + s.available[1..] == offered + s.available;
    }
  }

  /**
   * Conservation over any run: every address offered came from the pool,
   * in pool order, none twice; pool left plus Offers sent is the old pool;
   * and the table keeps only offered addresses.
   */
  lemma {:induction false} ServeAccounted(ctx: Context, pool0: seq<string>, offered: seq<string>,
                                          s: Leases, ps: seq<Packet>)
    requires Accounted(pool0, offered, s)
    ensures var (s', outs) := Serve(ctx, s, ps);
            Accounted(pool0, offered + OfferedIps(outs), s')
    decreases |ps|
  {
    if ps != [] {
      var (s1, o) := Process(ctx, s, ps[0]);
      ProcessAccounted(ctx, pool0, offered, s, ps[0]);
      if !o.Raised? {
        var (s2, os) := Serve(ctx, s1, ps[1..]);
        ServeAccounted(ctx, pool0, offered + OfferedIps([o]), s1, ps[1..]);
        OfferedIpsAppend([o], os);
      }
    }
  }

  /**
   * From a fresh responder: the Offers hand out a prefix of the initial
   * pool, each address once, and no address in the table is still free.
   */
  lemma ServeConserves(ctx: Context, ps: seq<Packet>)
    ensures var (s', outs) := Serve(ctx, InitialLeases(ctx.config), ps);
            var pool0 := HostStrings(ctx.config.ipPool);
            && OfferedIps(outs) + s'.available == pool0
            && OfferCount(outs) + |s'.available| == |pool0|
            && Distinct(OfferedIps(outs))
            && (forall m :: m in s'.table ==>
                  s'.table[m] in OfferedIps(outs) && s'.table[m] !in s'.available)
  {
    var (s', outs) := Serve(ctx, InitialLeases(ctx.config), ps);
    var pool0 := HostStrings(ctx.config.ipPool);
    InitialAccounted(ctx.config);
    ServeAccounted(ctx, pool0, [], InitialLeases(ctx.config), ps);
    assert [] + OfferedIps(outs) == OfferedIps(outs);
    AccountedMeans(pool0, OfferedIps(outs), s');
    OfferCountIsLength(outs);
  }

  lemma {:induction false} DiscoversAnswered(ctx: Context, s: Leases, ps: seq<Packet>)
    requires forall i :: 0 <= i < |ps| ==> HasMessageType(ps[i], DhcpDiscover)
    ensures |Serve(ctx, s, ps).1| == |ps|
    ensures forall i :: 0 <= i < |ps| ==> (IsOffer(Serve(ctx, s, ps).1[i]) <==> i < |s.available|)
    ensures forall i :: |s.available| <= i < |ps| ==> Serve(ctx, s, ps).1[i] == NoReply
    decreases |ps|
  {
    if ps != [] {
      var p, rest := ps[0], ps[1..];
      assert ps == [p] + rest;
      var (s1, o) := Process(ctx, s, p);
      ProcessPops(ctx, s, p);
      ServeCons(ctx, s, p, rest, s1, o);
      DiscoversAnswered(ctx, s1, rest);
      var os := Serve(ctx, s1, rest).1;
      forall i | 1 <= i < |ps| ensures Serve(ctx, s, ps).1[i] == os[i - 1] {
      }
    }
  }

  lemma {:induction false} DiscoversOfferPool(ctx: Context, s: Leases, ps: seq<Packet>)
    requires forall i :: 0 <= i < |ps| ==> HasMessageType(ps[i], DhcpDiscover)
    ensures OfferedIps(Serve(ctx, s, ps).1) == s.available[..Min(|ps|, |s.available|)]
    decreases |ps|
  {
    if ps != [] {
      var p, rest := ps[0], ps[1..];
      assert ps == [p] + rest;
      var (s1, o) := Process(ctx, s, p);
      ProcessPops(ctx, s, p);
      ServeCons(ctx, s, p, rest, s1, o);
      DiscoversOfferPool(ctx, s1, rest);
      var os := Serve(ctx, s1, rest).1;
      var outs := [o] + os;
      assert outs[0] == o && outs[1..] == os;
      assert OfferedIps(outs) == OfferedBy(o) + OfferedIps(os);
      if s.available != [] {
        assert s.available[..Min(|ps|, |s.available|)]
            == [s.available[0]] + s1.available[..Min(|rest|, |s1.available|)];
      }
    }
  }

  /**
   * Exhaustion: in a run of Discovers, exactly the first |pool| get an
   * Offer, carrying the pool's addresses in order, and the rest get no
   * reply.
   */
  lemma DiscoversExhaust(ctx: Context, s: Leases, ps: seq<Packet>)
    requires forall i :: 0 <= i < |ps| ==> HasMessageType(ps[i], DhcpDiscover)
    ensures |Serve(ctx, s, ps).1| == |ps|
    ensures forall i :: 0 <= i < |ps| ==> (IsOffer(Serve(ctx, s, ps).1[i]) <==> i < |s.available|)
    ensures forall i :: |s.available| <= i < |ps| ==> Serve(ctx, s, ps).1[i] == NoReply
    ensures OfferedIps(Serve(ctx, s, ps).1) == s.available[..Min(|ps|, |s.available|)]
  {
    DiscoversAnswered(ctx, s, ps);
    DiscoversOfferPool(ctx, s, ps);
  }

  /** One packet changes the table entry of `m` only by an Offer to `m`. */
  lemma ProcessTable(ctx: Context, s: Leases, p: Packet, m: Mac)
    ensures var (s', o) := Process(ctx, s, p);
            Lookup(s'.table, m) ==
              if IsOffer(o) && o.frame.bootp.chaddr == m then Some(o.frame.bootp.yiaddr)
              else Lookup(s.table, m)
  {
    ProcessReplies(ctx, s, p);
    if HasMessageType(p, DhcpDiscover) {
      DiscoverEffect(ctx, s, p);
    }
  }

  /** After a run, the table holds for `m` the address last offered to `m`, if any. */
  lemma {:induction false} ServeTable(ctx: Context, s: Leases, ps: seq<Packet>, m: Mac)
    ensures var (s', outs) := Serve(ctx, s, ps);
            var last := LastOfferTo(outs, m);
            Lookup(s'.table, m) == if last.Some? then last else Lookup(s.table, m)
    decreases |ps|
  {
    if ps != [] {
      var (s1, o) := Process(ctx, s, ps[0]);
      ProcessTable(ctx, s, ps[0], m);
      if !o.Raised? {
        ServeTable(ctx, s1, ps[1..], m);
        var (s2, os) := Serve(ctx, s1, ps[1..]);
        assert ([o] + os)[1..] == os;
      } else {
        assert [o][1..] == [];
      }
    }
  }

  /**
   * A Request after any run from a fresh responder: a MAC that was never
   * offered an address gets no reply, and one that was gets an Ack with
   * the address last offered to it and the Request's own transaction id.
   */
  lemma RequestAfterServe(ctx: Context, ps: seq<Packet>, request: Packet)
    requires HasMessageType(request, DhcpRequest)
    ensures var (s', outs) := Serve(ctx, InitialLeases(ctx.config), ps);
            var o := Process(ctx, s', request).1;
            match LastOfferTo(outs, request.etherSrc)
            case None => o == NoReply
            case Some(a) => IsAck(o) && o.frame.bootp.yiaddr == a && o.frame.bootp.xid == request.xid
  {
    var (s', outs) := Serve(ctx, InitialLeases(ctx.config), ps);
    ServeTable(ctx, InitialLeases(ctx.config), ps, request.etherSrc);
    RequestEffect(ctx, s', request);
  }

  /**
   * A second Discover from the same MAC is offered the next address and
   * overwrites the entry; the first address is then neither free nor in
   * the table, so it is never handed out again.
   */
  lemma RediscoverLeaks(ctx: Context, pool0: seq<string>, offered: seq<string>, s: Leases,
                        p: Packet, q: Packet)
    requires Accounted(pool0, offered, s)
    requires HasMessageType(p, DhcpDiscover) && HasMessageType(q, DhcpDiscover)
    requires p.etherSrc == q.etherSrc && |s.available| >= 2
    ensures var s1 := Process(ctx, s, p).0;
            var s2 := Process(ctx, s1, q).0;
            && s2.table[q.etherSrc] == s.available[1]
            && s2.available == s.available[2..]
            && s.available[0] !in s2.available
            && forall m :: m in s2.table ==> s2.table[m] != s.available[0]
  {
    var s1 := Process(ctx, s, p).0;
    ProcessPops(ctx, s, p);
    ProcessPops(ctx, s1, q);
    AccountedMeans(pool0, offered, s);
    assert s.available[0] != s.available[1];
    assert s.available[2..] == s.available[1..][1..];
    assert forall k :: 0 <= k < |s.available[2..]| ==> s.available[2..][k] == s.available[k + 2];
  }

  // ---------------------------------------------------------------------
  // The responder object
  // ---------------------------------------------------------------------

  /**
   * `RogueDHCPServer`: the configuration fields, the pool `available_ips`
   * and the table `allocated_ips`.  The ghost fields record the initial
   * pool and the addresses offered so far, for the conservation invariant.
   */
  class RogueDhcpServer {
    const interface: string
    const ipPool: Network
    const subnetMask: string
    const gateway: string
    const dnsServers: seq<string>
    const leaseTime: int
    const serverIp: string
    const hwAddr: Mac
    const isValidIp: string -> bool

    var allocatedIps: map<Mac, string>
    var availableIps: seq<string>

    ghost const initialIps: seq<string>
    ghost var offeredIps: seq<string>

    function Ctx(): Context
    {
      Context(ServerConfig(interface, ipPool, subnetMask, gateway, dnsServers, leaseTime),
              hwAddr, isValidIp)
    }

    function State(): Leases
      reads this
    {
      Leases(availableIps, allocatedIps)
    }

    ghost predicate Valid()
      reads this
    {
      serverIp == gateway && Accounted(initialIps, offeredIps, State())
    }

    /** `__init__`: the pool is the network's hosts as text, the table empty. */
    constructor (config: ServerConfig, hwAddr: Mac, isValidIp: string -> bool)
      ensures Valid()
      ensures Ctx().config == config && this.hwAddr == hwAddr && this.isValidIp == isValidIp
      ensures serverIp == config.gateway
      ensures State() == InitialLeases(config)
      ensures initialIps == HostStrings(config.ipPool) && offeredIps == []
    {
      interface := config.interface;
      ipPool := config.ipPool;
      subnetMask := config.subnetMask;
      gateway := config.gateway;
      dnsServers := config.dnsServers;
      leaseTime := config.leaseTime;
      allocatedIps := map[];
      serverIp := config.gateway;
      this.hwAddr := hwAddr;
      this.isValidIp := isValidIp;
      availableIps := HostStrings(config.ipPool);
      initialIps := HostStrings(config.ipPool);
      offeredIps := [];
      new;
      InitialAccounted(config);
    }

    /** `handle_dhcp_discover` */
    method HandleDiscover(packet: Packet) returns (out: Outcome)
      requires Valid()
      modifies this
      ensures Valid()
      ensures State() == Discover(Ctx(), old(State()), packet).0
      ensures out == Discover(Ctx(), old(State()), packet).1
      ensures offeredIps == old(offeredIps) + OfferedBy(out)
    {
      var sel := FirstOptionValue(packet);
      if sel.RaisesIndexError? {
        return Raised;
      }
      out := NoReply;
      if sel == Selected(Number(DhcpDiscover)) {
        var clientMac := packet.etherSrc;
        var transactionId := packet.xid;
        if availableIps != [] {
          var offeredIp := availableIps[0];
          availableIps := availableIps[1..];
          allocatedIps := allocatedIps[clientMac := offeredIp];
          offeredIps := offeredIps + [offeredIp];
          out := Sent(OfferFrame(Ctx(), transactionId, offeredIp, clientMac));
          ProcessAccounted(Ctx(), initialIps, old(offeredIps), old(State()), packet);
        }
      }
    }

    /** `handle_dhcp_request` */
    method HandleRequest(packet: Packet) returns (out: Outcome)
      requires Valid()
      ensures out == Request(Ctx(), State(), packet)
    {
      var sel := FirstOptionValue(packet);
      if sel.RaisesIndexError? {
        return Raised;
      }
      out := NoReply;
      if sel == Selected(Number(DhcpRequest)) {
        var clientMac := packet.etherSrc;
        var transactionId := packet.xid;
        if clientMac in allocatedIps {
          var assignedIp := allocatedIps[clientMac];
          out := Sent(AckFrame(Ctx(), transactionId, assignedIp, clientMac));
        }
      }
    }

    /** `process_packet` */
    method ProcessPacket(packet: Packet) returns (out: Outcome)
      requires Valid()
      modifies this
      ensures Valid()
      ensures State() == Process(Ctx(), old(State()), packet).0
      ensures out == Process(Ctx(), old(State()), packet).1
      ensures offeredIps == old(offeredIps) + OfferedBy(out)
    {
      var sel := FirstOptionValue(packet);
      if sel.RaisesIndexError? {
        return Raised;
      }
      out := NoReply;
      if sel.Selected? {
        var messageType := sel.v;
        if messageType == Number(DhcpDiscover) {
          out := HandleDiscover(packet);
        } else if messageType == Number(DhcpRequest) {
          out := HandleRequest(packet);
        }
      }
    }

    /**
     * The capture loop of `start`, over the packets captured so far; it
     * stops at the first packet whose handling raises.
     */
    method Start(captured: seq<Packet>) returns (outs: seq<Outcome>)
      requires Valid()
      modifies this
      ensures Valid()
      ensures State() == Serve(Ctx(), old(State()), captured).0
      ensures outs == Serve(Ctx(), old(State()), captured).1
    {
      outs := [];
      var i := 0;
      ghost var run := Serve(Ctx(), old(State()), captured);
      assert captured[0..] == captured;
      while i < |captured|
        invariant 0 <= i <= |captured|
        invariant Valid()
        invariant run.0 == Serve(Ctx(), State(), captured[i..]).0
        invariant run.1 == outs + Serve(Ctx(), State(), captured[i..]).1
        decreases |captured| - i
      {
        ghost var before := State();
        var out := ProcessPacket(captured[i]);
        assert captured[i..] == [captured[i]] + captured[i + 1..];
        ServeCons(Ctx(), before, captured[i], captured[i + 1..], State(), out);
        if out.Raised? {
          outs := outs + [out];
          return;
        }
        outs := outs + [out];
        i := i + 1;
      }
      assert captured[i..] == [] && outs + [] == outs;
    }
  }
}
