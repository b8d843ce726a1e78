/**
 * The parts of a DHCP frame the responder reads and writes, as structured
 * values rather than bytes.  Field names follow the BOOTP message layout of
 * section 2 of RFC 2131; option codes follow RFC 2132.
 */
module Dhcp {
  import opened Wrappers

  /** A hardware address in the colon-separated text form `Ether.src` has. */
  type Mac = string

  /** The BOOTP transaction identifier, a 32-bit field. */
  type Xid = x: int | 0 <= x < 0x1_0000_0000

  const BroadcastMac: Mac := "ff:ff:ff:ff:ff:ff"
  const BroadcastIp: string := "255.255.255.255"

  /** UDP ports of section 4.1 of RFC 2131. */
  const ServerPort: nat := 67
  const ClientPort: nat := 68

  /** BOOTP `op` value of a reply (BOOTREPLY, section 2 of RFC 2131). */
  const BootReply: nat := 2

  /** Message-type values of section 9.6 of RFC 2132 that the responder inspects. */
  const DhcpDiscover: int := 1
  const DhcpRequest: int := 3

  // ---------------------------------------------------------------------
  // Inbound packets
  // ---------------------------------------------------------------------

  /** The value part of a decoded option, compared with `==` against an int. */
  datatype OptionValue =
    | Number(n: int)      // a decoded integer, such as the message type
    | Str(s: string)      // a text value
    | Other               // anything else: an address, bytes, a list

  /**
   * One entry of a decoded option list: a `(name, value)` pair, or a bare
   * name such as `"end"` or `"pad"`.
   */
  datatype DhcpOption =
    | Pair(name: string, value: OptionValue)
    | Marker(name: string)

  /**
   * A captured frame: the Ethernet source, the BOOTP transaction id, and the
   * decoded DHCP option list when the frame has a DHCP layer.
   */
  datatype Packet = Packet(etherSrc: Mac, xid: Xid, dhcp: Option<seq<DhcpOption>>)

  /** What `packet[DHCP].options[0][1]` evaluates to. */
  datatype Selector =
    | NoDhcpLayer          // the packet has no DHCP layer; nothing is read
    | RaisesIndexError     // the option list, or its first entry, is too short
    | Selected(v: OptionValue)

  /**
   * The value the source takes for the message type: the second component
   * of the first option, whatever that option is.  For a bare name this
   * indexes the string, so `"end"` gives `"n"`.
   */
  function FirstOptionValue(p: Packet): (sel: Selector)
    ensures sel.NoDhcpLayer? <==> p.dhcp.None?
    ensures sel.RaisesIndexError? <==>
              (p.dhcp.Some? && (p.dhcp.value == [] ||
                                (p.dhcp.value[0].Marker? && |p.dhcp.value[0].name| < 2)))
    ensures p.dhcp.Some? && p.dhcp.value != [] && p.dhcp.value[0].Pair? ==>
              sel == Selected(p.dhcp.value[0].value)
    ensures p.dhcp.Some? && p.dhcp.value != [] && p.dhcp.value[0].Marker? &&
            |p.dhcp.value[0].name| >= 2 ==>
              sel == Selected(Str([p.dhcp.value[0].name[1]]))
  {
    match p.dhcp
    case None => NoDhcpLayer
    case Some(options) =>
      if options == [] then RaisesIndexError
      else match options[0]
        case Pair(_, v) => Selected(v)
        case Marker(name) => if |name| < 2 then RaisesIndexError else Selected(Str([name[1]]))
  }

  /** `packet.haslayer(DHCP) and packet[DHCP].options[0][1] == t`, without the exception. */
  predicate HasMessageType(p: Packet, t: int)
  {
    FirstOptionValue(p) == Selected(Number(t))
  }

  /** A bare first name, such as "end" or "pad", never reads as a message type. */
  lemma MarkerFirstHasNoType(p: Packet, t: int)
    requires p.dhcp.Some? && p.dhcp.value != [] && p.dhcp.value[0].Marker?
    ensures !HasMessageType(p, t)
  {
  }

  // ---------------------------------------------------------------------
  // Reply frames
  // ---------------------------------------------------------------------

  datatype MessageKind = Offer | Ack

  /** The message-type value of section 9.6 of RFC 2132. */
  function MessageTypeValue(k: MessageKind): nat
  {
    match k
    case Offer => 2
    case Ack => 5
  }

  /** The options a reply carries, in the order the source lists them. */
  datatype ReplyOption =
    | MessageType(kind: MessageKind)
    | ServerId(addr: string)
    | SubnetMask(mask: string)
    | Router(addr: string)
    | NameServer(addr: string)
    | LeaseTime(seconds: int)
    | End

  /**
   * The option code each entry is encoded with: RFC 2132 sections 9.6,
   * 9.7, 3.3, 3.5, 3.8 (the option the source's `name_server` key selects,
   * "Domain Name Server"), 9.2 and 3.2.
   */
  function OptionCode(o: ReplyOption): nat
  {
    match o
    case MessageType(_) => 53
    case ServerId(_) => 54
    case SubnetMask(_) => 1
    case Router(_) => 3
    case NameServer(_) => 6
    case LeaseTime(_) => 51
    case End => 255
  }

  function OptionCodes(os: seq<ReplyOption>): (codes: seq<nat>)
    ensures |codes| == |os|
    ensures forall i :: 0 <= i < |os| ==> codes[i] == OptionCode(os[i])
  {
    if os == [] then [] else [OptionCode(os[0])] + OptionCodes(os[1..])
  }

  datatype EtherHeader = EtherHeader(src: Mac, dst: Mac)
  datatype IpHeader = IpHeader(src: string, dst: string)
  datatype UdpHeader = UdpHeader(sport: nat, dport: nat)

  /**
   * The BOOTP fields the source sets.  `chaddr` carries the client's
   * hardware address as the text it arrived in; its conversion to six raw
   * bytes is not part of this model.
   */
  datatype Bootp = Bootp(op: nat, xid: Xid, yiaddr: string, siaddr: string, chaddr: Mac)

  /** `Ether / IP / UDP / BOOTP / DHCP(options)` */
  datatype Frame = Frame(ether: EtherHeader, ip: IpHeader, udp: UdpHeader,
                         bootp: Bootp, options: seq<ReplyOption>)
}
