/**
 * Concrete runs of the responder on a sample configuration: pool
 * 192.168.50.0/29, gateway 192.168.50.1, DNS list "8.8.8.8".
 */
module Scenarios {
  import opened Text
  import opened IPv4
  import opened Dhcp
  import opened Config
  import opened Responder

  /** 192.168.50.0 as a 32-bit value. */
  const Base: Ip4 := 3232248320

  lemma OctetsIn50(d: nat)
    requires 1 <= d <= 6
    ensures Octets(Base + d) == [192, 168, 50, d]
  {
  }

  lemma DecimalOctetsIn50(d: nat)
    requires 1 <= d <= 6
    ensures DecimalOctets(Base + d) == ["192", "168", "50", [DigitChar(d)]]
  {
    OctetsIn50(d);
    assert Dec(192) == "192";
    assert Dec(168) == "168";
    assert Dec(50) == "50";
  }

  lemma JoinFour(a: string, b: string, c: string, d: string)
    ensures Join([a, b, c, d], '.') == a + "." + b + "." + c + "." + d
  {
    var parts := [a, b, c, d];
    assert parts[1..] == [b, c, d] && parts[2..] == [c, d] && parts[3..] == [d];
    assert Join([d], '.') == d;
    assert Join([c, d], '.') == c + "." + d;
    assert Join([b, c, d], '.') == b + "." + (c + "." + d);
  }

  lemma RenderIn50(d: nat)
    requires 1 <= d <= 6
    ensures Render(Base + d) == "192.168.50." + [DigitChar(d)]
  {
    DecimalOctetsIn50(d);
    JoinFour("192", "168", "50", [DigitChar(d)]);
  }

  /** 192.168.50.0/29 is already aligned and spans eight addresses. */
  lemma Block29(n: Network)
    requires n == Network(Base, 29)
    ensures NetworkAddress(n) == Base && BlockSize(n) == 8
  {
    assert Pow2(3) == 8;
    assert Shl(404031040, 3) == Base;
    ShiftUnique(Base, 3, 404031040, 0);
  }

  const Pool29: seq<string> :=
    ["192.168.50.1", "192.168.50.2", "192.168.50.3", "192.168.50.4", "192.168.50.5", "192.168.50.6"]

  lemma Pool29Entry(d: nat)
    requires 1 <= d <= 6
    ensures Pool29[d - 1] == "192.168.50." + [DigitChar(d)]
  {
  }

  lemma PoolEntry29(n: Network, d: nat)
    requires n == Network(Base, 29) && 1 <= d <= 6
    ensures |HostStrings(n)| == 6
    ensures HostStrings(n)[d - 1] == Pool29[d - 1]
  {
    Block29(n);
    assert Hosts(n)[d - 1] == Base + d;
    RenderIn50(d);
    Pool29Entry(d);
  }

  /**
   * The pool of 192.168.50.0/29 is .1 to .6 in ascending order, the
   * gateway address .1 included.
   */
  lemma Pool29Hosts(n: Network)
    requires n == Network(Base, 29)
    ensures HostStrings(n) == Pool29
  {
    var p := HostStrings(n);
    PoolEntry29(n, 1);
    PoolEntry29(n, 2);
    PoolEntry29(n, 3);
    PoolEntry29(n, 4);
    PoolEntry29(n, 5);
    PoolEntry29(n, 6);
    assert forall i :: 0 <= i < 6 ==> p[i] == Pool29[i];
  }

  /** A DNS list whose first entry is not an address advertises its second. */
  lemma NameServerExample(valid: string -> bool, gateway: string)
    requires !valid("not-an-ip") && valid("8.8.8.8")
    ensures NameServerFor(["not-an-ip", "8.8.8.8", "1.1.1.1"], valid, gateway) == "8.8.8.8"
  {
    var dns := ["not-an-ip", "8.8.8.8", "1.1.1.1"];
    NameServerFirstValid(dns, valid, gateway, 1);
  }

  lemma StripEnds(s: string)
    requires s != [] && !IsSpace(s[0]) && !IsSpace(s[|s| - 1])
    ensures Strip(s) == s && Strip([' '] + s) == s
  {
    StripKeepsTrimmed(s);
    assert ([' '] + s)[1..] == s;
    assert LeadingSpaces([' '] + s) == 1 + LeadingSpaces(s);
  }

  /**
   * A value written "a, b", two names with a space after the comma, reads
   * as the two bare names: for instance "8.8.8.8, 1.1.1.1".
   */
  lemma DnsValueWithSpace(x: string, y: string)
    requires ',' !in x && ',' !in y
    requires x != [] && !IsSpace(x[0]) && !IsSpace(x[|x| - 1])
    requires y != [] && !IsSpace(y[0]) && !IsSpace(y[|y| - 1])
    ensures DnsServers(x + [',', ' '] + y) == [x, y]
  {
    assert x + [',', ' '] + y == x + [','] + ([' '] + y);
    DnsServersPair(x, [' '] + y);
    StripEnds(x);
    StripEnds(y);
  }

  /**
   * Seven Discovers on the /29 pool: the first six are offered .1 to .6 in
   * turn, the first of them the gateway's own address, and the seventh gets
   * no reply.
   */
  lemma PoolRunsOut(ctx: Context, ps: seq<Packet>)
    requires ctx.config.ipPool == Network(Base, 29)
    requires |ps| == 7 && forall i :: 0 <= i < 7 ==> HasMessageType(ps[i], DhcpDiscover)
    ensures var (s', outs) := Serve(ctx, InitialLeases(ctx.config), ps);
            && OfferedIps(outs) == Pool29
            && |outs| == 7 && outs[6] == NoReply
            && s'.available == []
  {
    Pool29Hosts(ctx.config.ipPool);
    DiscoversExhaust(ctx, InitialLeases(ctx.config), ps);
    ServeConserves(ctx, ps);
  }

  /**
   * With gateway 192.168.50.1 and DNS list ["8.8.8.8"], the first Discover
   * a fresh responder sees is offered the gateway's own address, from the
   * gateway, naming 8.8.8.8 as its name server.
   */
  lemma GatewayOffered(ctx: Context, p: Packet)
    requires ctx.config.ipPool == Network(Base, 29) && ctx.config.gateway == "192.168.50.1"
    requires ctx.config.dnsServers == ["8.8.8.8"] && ctx.isValidIp("8.8.8.8")
    requires HasMessageType(p, DhcpDiscover)
    ensures var o := Process(ctx, InitialLeases(ctx.config), p).1;
            && IsOffer(o)
            && o.frame.bootp.yiaddr == ctx.config.gateway
            && o.frame.bootp.siaddr == ctx.config.gateway
            && o.frame.options[4] == NameServer("8.8.8.8")
  {
    Pool29Hosts(ctx.config.ipPool);
    DiscoverEffect(ctx, InitialLeases(ctx.config), p);
    NameServerFirstValid(ctx.config.dnsServers, ctx.isValidIp, ctx.config.gateway, 0);
  }
}
