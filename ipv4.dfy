/**
 * IPv4 addresses and networks as Python's `ipaddress` module presents them
 * to the responder: `str(IPv4Address)` gives the dotted-quad text that the
 * pool holds, and `ip_network(cidr, strict=False).hosts()` gives the
 * pool's addresses in ascending order.
 */
module IPv4 {
  import opened Text

  const AddressCount: int := 0x1_0000_0000

  /** A 32-bit address as an integer, as `int(IPv4Address)` gives it. */
  type Ip4 = a: int | 0 <= a < 0x1_0000_0000

  type PrefixLen = p: int | 0 <= p <= 32

  /** No string occurs twice in `s`. */
  predicate Distinct(s: seq<string>)
  {
    forall i, j :: 0 <= i < j < |s| ==> s[i] != s[j]
  }

  // ---------------------------------------------------------------------
  // Arithmetic helpers
  // ---------------------------------------------------------------------

  function Pow2(k: nat): (r: nat)
    ensures r >= 1
  {
    if k == 0 then 1 else 2 * Pow2(k - 1)
  }

  lemma {:induction false} Pow2Add(a: nat, b: nat)
    ensures Pow2(a) * Pow2(b) == Pow2(a + b)
  {
    if a > 0 {
      Pow2Add(a - 1, b);
      assert Pow2(a) * Pow2(b) == 2 * (Pow2(a - 1) * Pow2(b));
    }
  }

  lemma {:induction false} Pow2Monotone(a: nat, b: nat)
    requires a <= b
    ensures Pow2(a) <= Pow2(b)
  {
    if a < b {
      Pow2Monotone(a, b - 1);
    }
  }

  lemma Pow2Of32()
    ensures Pow2(32) == AddressCount
  {
    assert Pow2(2) == 4;
    Pow2Add(2, 2);
    Pow2Add(4, 4);
    Pow2Add(8, 8);
    Pow2Add(16, 16);
  }

  // Bit shifts by `h` positions, written with halving and doubling only.

  /** `x >> h` */
  function Shr(x: nat, h: nat): nat
  {
    if h == 0 then x else Shr(x / 2, h - 1)
  }

  /** `x << h` */
  function Shl(x: nat, h: nat): nat
  {
    if h == 0 then x else 2 * Shl(x, h - 1)
  }

  /** `x & ((1 << h) - 1)`: the low `h` bits of `x`. */
  function Low(x: nat, h: nat): nat
  {
    if h == 0 then 0 else x % 2 + 2 * Low(x / 2, h - 1)
  }

  /** Every number is its high part shifted back plus its low `h` bits. */
  lemma {:induction false} ShiftSplit(x: nat, h: nat)
    ensures x == Shl(Shr(x, h), h) + Low(x, h)
    ensures Low(x, h) < Pow2(h)
  {
    if h > 0 {
      ShiftSplit(x / 2, h - 1);
    }
  }

  /** High part and low bits are determined by the number. */
  lemma {:induction false} ShiftUnique(x: nat, h: nat, q: nat, r: nat)
    requires x == Shl(q, h) + r && r < Pow2(h)
    ensures Shr(x, h) == q && Low(x, h) == r
  {
    if h > 0 {
      assert x / 2 == Shl(q, h - 1) + r / 2;
      ShiftUnique(x / 2, h - 1, q, r / 2);
    }
  }

  lemma {:induction false} ShlNext(q: nat, h: nat)
    ensures Shl(q + 1, h) == Shl(q, h) + Pow2(h)
  {
    if h > 0 {
      ShlNext(q, h - 1);
    }
  }

  lemma {:induction false} ShlMonotone(q: nat, q': nat, h: nat)
    requires q <= q'
    ensures Shl(q, h) <= Shl(q', h)
  {
    if h > 0 {
      ShlMonotone(q, q', h - 1);
    }
  }

  lemma {:induction false} ShlPow2(k: nat, h: nat)
    ensures Shl(Pow2(k), h) == Pow2(k + h)
  {
    if h > 0 {
      ShlPow2(k, h - 1);
    }
  }

  // ---------------------------------------------------------------------
  // str(IPv4Address)
  // ---------------------------------------------------------------------

  /** The four bytes of `a`, most significant first. */
  function Octets(a: Ip4): (o: seq<nat>)
    ensures |o| == 4 && forall i :: 0 <= i < 4 ==> o[i] < 256
    ensures a == ((o[0] * 256 + o[1]) * 256 + o[2]) * 256 + o[3]
  {
    var b := a / 256;
    var c := b / 256;
    [c / 256, c % 256, b % 256, a % 256]
  }

  function DecimalOctets(a: Ip4): seq<string>
  {
    var o := Octets(a);
    [Dec(o[0]), Dec(o[1]), Dec(o[2]), Dec(o[3])]
  }

  /** `str(IPv4Address(a))`: the octets in decimal, joined with dots. */
  function Render(a: Ip4): string
  {
    Join(DecimalOctets(a), '.')
  }

  /** Splitting a rendered address at its dots gives its four decimal octets. */
  lemma RenderSplits(a: Ip4)
    ensures Split(Render(a), '.') == DecimalOctets(a)
  {
    var parts := DecimalOctets(a);
    forall k | 0 <= k < |parts| ensures '.' !in parts[k] {
      DecHasNo(Octets(a)[k], '.');
    }
    SplitJoin(parts, '.');
  }

  /** Two addresses have the same text exactly when they are the same address. */
  lemma RenderInjective(a: Ip4, b: Ip4)
    ensures Render(a) == Render(b) <==> a == b
  {
    if Render(a) == Render(b) {
      RenderSplits(a);
      RenderSplits(b);
      var oa, ob := Octets(a), Octets(b);
      assert DecimalOctets(a) == DecimalOctets(b);
      forall k | 0 <= k < 4 ensures oa[k] == ob[k] {
        assert Dec(oa[k]) == DecimalOctets(a)[k];
        DecInjective(oa[k], ob[k]);
      }
    }
  }

  // ---------------------------------------------------------------------
  // ip_network(cidr, strict=False) and hosts()
  // ---------------------------------------------------------------------

  /** A CIDR block as `ip_network` parses it: an address and a prefix length. */
  datatype Network = Network(address: Ip4, prefixLen: PrefixLen)

  /** Number of host bits: the bits the prefix leaves free. */
  function HostBits(n: Network): nat
  {
    32 - n.prefixLen
  }

  /** Number of addresses in the block. */
  function BlockSize(n: Network): nat
  {
    Pow2(HostBits(n))
  }

  /**
   * The network address: the given address with its host bits cleared,
   * which is what `strict=False` makes `ip_network` do instead of failing.
   * It is the start of the aligned block that holds the given address.
   */
  function NetworkAddress(n: Network): (r: Ip4)
    ensures r <= n.address < r + BlockSize(n) <= AddressCount
    ensures Contains(n, r) && Low(r, HostBits(n)) == 0
  {
    BlockFits(n);
    var r := Shl(Shr(n.address, HostBits(n)), HostBits(n));
    ShiftUnique(r, HostBits(n), Shr(n.address, HostBits(n)), 0);
    r
  }

  lemma BlockFits(n: Network)
    ensures var h := HostBits(n);
            var start := Shl(Shr(n.address, h), h);
            start <= n.address < start + Pow2(h) <= AddressCount
  {
    var h := HostBits(n);
    var q := Shr(n.address, h);
    ShiftSplit(n.address, h);
    ShlPow2(n.prefixLen, h);
    Pow2Of32();
    if q >= Pow2(n.prefixLen) {
      ShlMonotone(Pow2(n.prefixLen), q, h);
    }
    ShlMonotone(q + 1, Pow2(n.prefixLen), h);
    ShlNext(q, h);
  }

  function BroadcastAddress(n: Network): Ip4
  {
    NetworkAddress(n) + BlockSize(n) - 1
  }

  /** `a` lies in the block: it shares the network's leading `prefixLen` bits. */
  predicate Contains(n: Network, a: Ip4)
  {
    Shr(a, HostBits(n)) == Shr(n.address, HostBits(n))
  }

  /**
   * `network.hosts()`: every address strictly between the network and the
   * broadcast address, ascending.  A /31 has both of its addresses and a
   * /32 its single one, as `ipaddress` special-cases them.
   */
  function Hosts(n: Network): (hs: seq<Ip4>)
    ensures forall i, j :: 0 <= i < j < |hs| ==> hs[i] < hs[j]
  {
    var net := NetworkAddress(n);
    if n.prefixLen == 32 then [n.address]
    else if n.prefixLen == 31 then [net, net + 1]
    else
      Pow2Monotone(2, 32 - n.prefixLen);
      seq(BlockSize(n) - 2, i requires 0 <= i < BlockSize(n) - 2 => net + 1 + i)
  }

  /** `[str(ip) for ip in network.hosts()]`: the responder's initial pool. */
  function HostStrings(n: Network): (pool: seq<string>)
  {
    var hs := Hosts(n);
    seq(|hs|, i requires 0 <= i < |hs| => Render(hs[i]))
  }

  /**
   * For a prefix of at most 30 bits, the hosts are exactly the addresses of
   * the block other than the network and the broadcast address.
   */
  lemma HostsExact(n: Network, a: Ip4)
    requires n.prefixLen <= 30
    ensures |Hosts(n)| == BlockSize(n) - 2
    ensures a in Hosts(n) <==>
              Contains(n, a) && a != NetworkAddress(n) && a != BroadcastAddress(n)
  {
    var h, net := HostBits(n), NetworkAddress(n);
    var q := Shr(n.address, h);
    var hs := Hosts(n);
    if a in hs {
      var i :| 0 <= i < |hs| && hs[i] == a;
      ShiftUnique(a, h, q, 1 + i);
    }
    if Contains(n, a) && a != net && a != BroadcastAddress(n) {
      ShiftSplit(a, h);
      assert hs[Low(a, h) - 1] == a;
    }
  }

  /** The pool lists no address twice. */
  lemma HostStringsDistinct(n: Network)
    ensures Distinct(HostStrings(n))
  {
    var hs, pool := Hosts(n), HostStrings(n);
    forall i, j | 0 <= i < j < |pool| ensures pool[i] != pool[j] {
      RenderInjective(hs[i], hs[j]);
    }
  }

  /**
   * The initial pool of a block of prefix at most 30: one text per host,
   * and the text of an address is in it exactly when the address is in
   * the block and is neither its network nor its broadcast address.  In
   * particular an in-block gateway address is not held back.
   */
  lemma HostStringsExact(n: Network, a: Ip4)
    requires n.prefixLen <= 30
    ensures |HostStrings(n)| == BlockSize(n) - 2
    ensures Render(a) in HostStrings(n) <==>
              Contains(n, a) && a != NetworkAddress(n) && a != BroadcastAddress(n)
  {
    HostsExact(n, a);
    var hs, pool := Hosts(n), HostStrings(n);
    if Render(a) in pool {
      var i :| 0 <= i < |pool| && pool[i] == Render(a);
      RenderInjective(hs[i], a);
    }
    if a in hs {
      var i :| 0 <= i < |hs| && hs[i] == a;
      assert pool[i] == Render(a);
    }
  }
}
