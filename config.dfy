/**
 * The configuration `load_config` hands to the responder, and the one
 * computation it performs on its way: turning the comma-separated
 * `dns_servers` value into a list of names.
 */
module Config {
  import opened Text
  import opened IPv4

  /**
   * The `DHCP` section as the responder's constructor receives it.  The
   * `ip_pool` value is held as the network `ip_network` parses it to.
   */
  datatype ServerConfig = ServerConfig(
    interface: string,
    ipPool: Network,
    subnetMask: string,
    gateway: string,
    dnsServers: seq<string>,
    leaseTime: int)

  /** `[s.strip() for s in raw.split(',')]` */
  function DnsServers(raw: string): (servers: seq<string>)
  {
    var parts := Split(raw, ',');
    seq(|parts|, i requires 0 <= i < |parts| => Strip(parts[i]))
  }

  /**
   * One entry per comma-separated field, none holding a comma, and none
   * changed by stripping it again.
   */
  lemma DnsServersShape(raw: string)
    ensures |DnsServers(raw)| == Occurrences(raw, ',') + 1
    ensures forall i :: 0 <= i < |DnsServers(raw)| ==>
              ',' !in DnsServers(raw)[i] && Strip(DnsServers(raw)[i]) == DnsServers(raw)[i]
  {
    var parts, servers := Split(raw, ','), DnsServers(raw);
    SplitCount(raw, ',');
    forall i | 0 <= i < |servers|
      ensures ',' !in servers[i] && Strip(servers[i]) == servers[i]
    {
      if ',' in servers[i] {
        StripKeepsOnly(parts[i], ',');
      }
      StripIdempotent(parts[i]);
    }
  }

  /** A value without commas yields a single entry, the stripped value. */
  lemma DnsServersSingle(raw: string)
    requires ',' !in raw
    ensures DnsServers(raw) == [Strip(raw)]
  {
    SplitWithoutSeparator(raw, ',');
  }

  lemma SplitPair(x: string, y: string)
    requires ',' !in x && ',' !in y
    ensures Split(x + [','] + y, ',') == [x, y]
  {
    SplitAfterPart(x, y, ',');
    SplitWithoutSeparator(y, ',');
  }

  lemma DnsOfTwoFields(raw: string, x: string, y: string)
    requires Split(raw, ',') == [x, y]
    ensures DnsServers(raw) == [Strip(x), Strip(y)]
  {
  }

  /** A value with one comma yields its two fields, each stripped. */
  lemma DnsServersPair(x: string, y: string)
    requires ',' !in x && ',' !in y
    ensures DnsServers(x + [','] + y) == [Strip(x), Strip(y)]
  {
    SplitPair(x, y);
    DnsOfTwoFields(x + [','] + y, x, y);
  }

  /**
   * Any number of comma-free fields joined with commas reads back as those
   * fields, each stripped, in order.
   */
  lemma DnsServersOfFields(fields: seq<string>)
    requires |fields| >= 1
    requires forall k :: 0 <= k < |fields| ==> ',' !in fields[k]
    ensures |DnsServers(Join(fields, ','))| == |fields|
    ensures forall i :: 0 <= i < |fields| ==> DnsServers(Join(fields, ','))[i] == Strip(fields[i])
  {
    SplitJoin(fields, ',');
  }
}
