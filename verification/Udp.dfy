/** UDP over IPv4: RFC 768 and section 3.1 of RFC 791 (kernel/net/udp.c, ipv4.c, net_if.c).
 *
 *  A packet is its bytes from the IPv4 header on. Lengths are 16-bit in the headers, while
 *  the buffer itself may be longer, as in the kernel.
 */
module UdpSpec {
  import opened Checksum
  import opened Options

  const UDP_HDR: nat := 8
  const IP_HDR: nat := 20
  const PROTO_UDP: Byte := 17

  type Ip = s: seq<Byte> | |s| == 4 witness [0, 0, 0, 0]

  predicate IsZero(ip: Ip) {
    ip == [0, 0, 0, 0]
  }

  function Get16(b: seq<Byte>, i: nat): (v: Half)
    requires i + 1 < |b|
  {
    Word(b[i], b[i + 1])
  }

  /** Store a 16-bit field in network order. */
  function Put16(b: seq<Byte>, i: nat, v: Half): (r: seq<Byte>)
    requires i + 1 < |b|
    ensures |r| == |b| && Get16(r, i) == v && forall k :: 0 <= k < |b| && k != i && k != i + 1 ==> r[k] == b[k]
  {
    b[i := v / 256][i + 1 := v % 256]
  }

  // ---- Building -------------------------------------------------------------------

  /** The UDP header before its checksum is known. */
  function UdpBlank(srcPort: Half, dstPort: Half, len: Half): (h: seq<Byte>)
    ensures |h| == UDP_HDR
  {
    [srcPort / 256, srcPort % 256, dstPort / 256, dstPort % 256, len / 256, len % 256, 0, 0]
  }

  function UdpSum(src: Ip, dst: Ip, b: seq<Byte>): (n: nat)
    requires |b| < 0x1_0000
  {
    PseudoSum(src, dst, PROTO_UDP, |b|) + Words(b)
  }

  /** Transmitted checksum: 0xFFFF stands for a computed zero. */
  function NonZero(c: Half): (r: Half) {
    if c == 0 then 0xFFFF else c
  }

  /** A length in a 16-bit field. */
  function Short(n: nat): (r: Half) {
    n % 0x1_0000
  }

  function UdpBuild(src: Ip, dst: Ip, srcPort: Half, dstPort: Half, payload: seq<Byte>): (b: seq<Byte>)
    ensures |b| == UDP_HDR + |payload|
  {
    var total := Short(UDP_HDR + |payload|);
    var blank := UdpBlank(srcPort, dstPort, total) + payload;
    Put16(blank, 6, NonZero(Complement(UdpSum(src, dst, blank[..total]))))
  }

  /** The IPv4 header before its checksum is known: version 4, no options, don't fragment. */
  function IpBlank(total: Half, id: Half, ttl: Byte, proto: Byte, src: Ip, dst: Ip): (h: seq<Byte>)
    ensures |h| == IP_HDR
  {
    [0x45, 0, total / 256, total % 256, id / 256, id % 256, 0x40, 0, ttl, proto, 0, 0,
     src[0], src[1], src[2], src[3], dst[0], dst[1], dst[2], dst[3]]
  }

  function IpHeader(total: Half, id: Half, ttl: Byte, proto: Byte, src: Ip, dst: Ip): (h: seq<Byte>)
    ensures |h| == IP_HDR
  {
    var blank := IpBlank(total, id, ttl, proto, src, dst);
    Put16(blank, 10, Complement(Words(blank)))
  }

  function IpBuild(src: Ip, dst: Ip, proto: Byte, ttl: Byte, id: Half, l4: seq<Byte>): (b: seq<Byte>)
    ensures |b| == IP_HDR + |l4|
  {
    IpHeader(Short(IP_HDR + Short(|l4|)), id, ttl, proto, src, dst) + l4
  }

  // ---- Parsing --------------------------------------------------------------------

  datatype IpIn = IpIn(src: Ip, dst: Ip, proto: Byte, l4: seq<Byte>)

  datatype UdpIn = UdpIn(srcPort: Half, dstPort: Half, payload: seq<Byte>)

  function IpParse(b: seq<Byte>): (r: Option<IpIn>) {
    if |b| < IP_HDR || b[0] / 16 != 4 then None
    else
      var hdr := b[0] % 16 * 4;
      if hdr < IP_HDR || |b| < hdr || Complement(Words(b[..hdr])) != 0 then None
      else
        var total := Get16(b, 2);
        var live := if hdr <= total <= |b| then b[..total] else b;
        Some(IpIn(b[12..16], b[16..20], b[9], live[hdr..]))
  }

  function UdpParse(src: Ip, dst: Ip, b: seq<Byte>): (r: Option<UdpIn>) {
    if |b| < UDP_HDR then None
    else
      var len: nat := Get16(b, 4);
      if len < UDP_HDR || len > |b| then None
      else if Get16(b, 6) != 0 && Complement(UdpSum(src, dst, b[..len])) != 0 then None
      else Some(UdpIn(Get16(b, 0), Get16(b, 2), b[UDP_HDR..len]))
  }

  // ---- Egress ---------------------------------------------------------------------

  datatype Netif = Netif(up: bool, loopback: bool, ip: Ip, mask: Ip)

  datatype Route = Route(valid: bool, dest: Ip, mask: Ip, nif: Option<nat>, prefixLen: nat)

  /** Bitwise and. */
  function And(x: nat, y: nat): nat {
    if x == 0 || y == 0 then 0 else 2 * And(x / 2, y / 2) + x % 2 * (y % 2)
  }

  predicate SameSubnet(a: Ip, net: Ip, mask: Ip) {
    forall i :: 0 <= i < 4 ==> And(a[i], mask[i]) == And(net[i], mask[i])
  }

  /** Bit `k` of a number. */
  function BitOf(x: nat, k: nat): (b: nat)
    decreases k
  {
    if k == 0 then x % 2 else BitOf(x / 2, k - 1)
  }

  ghost predicate AgreeOn(x: nat, y: nat, m: nat) {
    forall k: nat :: BitOf(m, k) == 1 ==> BitOf(x, k) == BitOf(y, k)
  }

  lemma {:induction false} AndBits(x: nat, y: nat, m: nat)
    ensures And(x, m) == And(y, m) <==> AgreeOn(x, y, m)
    decreases m
  {
    if m == 0 {
      forall k: nat ensures BitOf(0, k) == 0 {
        ZeroBits(k);
      }
    } else {
      AndBits(x / 2, y / 2, m / 2);
      HalfAnd(x, m);
      HalfAnd(y, m);
      AgreeHalf(x, y, m);
    }
  }

  lemma {:induction false} ZeroBits(k: nat)
    ensures BitOf(0, k) == 0
  {
    if k > 0 {
      ZeroBits(k - 1);
    }
  }

  lemma {:induction false} HalfAnd(x: nat, m: nat)
    ensures And(x, m) == 2 * And(x / 2, m / 2) + (if m % 2 == 1 then x % 2 else 0)
  {
  }

  lemma {:induction false} AgreeHalf(x: nat, y: nat, m: nat)
    ensures AgreeOn(x, y, m) <==> AgreeOn(x / 2, y / 2, m / 2) && (m % 2 == 1 ==> x % 2 == y % 2)
  {
    if AgreeOn(x, y, m) {
      forall k: nat | BitOf(m / 2, k) == 1 ensures BitOf(x / 2, k) == BitOf(y / 2, k) {
        assert BitOf(m, k + 1) == 1;
      }
      assert BitOf(m, 0) == m % 2 && BitOf(x, 0) == x % 2 && BitOf(y, 0) == y % 2;
    }
    if AgreeOn(x / 2, y / 2, m / 2) && (m % 2 == 1 ==> x % 2 == y % 2) {
      forall k: nat | BitOf(m, k) == 1 ensures BitOf(x, k) == BitOf(y, k) {
        if k > 0 {
          assert BitOf(m / 2, k - 1) == 1;
        }
      }
    }
  }

  /** Two addresses are on one subnet exactly when they agree on every bit set in the mask. */
  lemma {:induction false} SubnetBits(a: Ip, net: Ip, mask: Ip)
    ensures SameSubnet(a, net, mask) <==> forall i :: 0 <= i < 4 ==> AgreeOn(a[i], net[i], mask[i])
  {
    hide And;
    hide AgreeOn;
    forall i | 0 <= i < 4 ensures And(a[i], mask[i]) == And(net[i], mask[i]) <==> AgreeOn(a[i], net[i], mask[i]) {
      AndBits(a[i], net[i], mask[i]);
    }
  }

  predicate Covers(r: Route, dst: Ip) {
    r.valid && SameSubnet(dst, r.dest, r.mask)
  }

  /** The best of the first `k` routes: longest prefix, first among equals. */
  function Best(routes: seq<Route>, dst: Ip, k: nat): (r: Option<nat>)
    requires k <= |routes|
    ensures r.Some? ==> r.value < k && Covers(routes[r.value], dst)
    ensures r == None ==> forall i :: 0 <= i < k ==> !Covers(routes[i], dst)
    ensures r.Some? ==> forall i :: 0 <= i < k && Covers(routes[i], dst) ==>
      routes[i].prefixLen <= routes[r.value].prefixLen
      && (i < r.value ==> routes[i].prefixLen < routes[r.value].prefixLen)
  {
    if k == 0 then None
    else
      var b := Best(routes, dst, k - 1);
      if Covers(routes[k - 1], dst) && (b == None || routes[k - 1].prefixLen > routes[b.value].prefixLen)
      then Some(k - 1) else b
  }

  /** Up, with an address, on the subnet of the destination. */
  predicate Attached(n: Netif, dst: Ip) {
    n.up && !IsZero(n.ip) && SameSubnet(dst, n.ip, n.mask)
  }

  /** The first attached interface from `k` on. */
  function OnLink(nifs: seq<Netif>, dst: Ip, k: nat): (r: Option<nat>)
    requires k <= |nifs|
    ensures r.Some? ==> k <= r.value < |nifs| && Attached(nifs[r.value], dst)
    ensures forall i :: k <= i < (if r.Some? then r.value else |nifs|) ==> !Attached(nifs[i], dst)
    decreases |nifs| - k
  {
    if k == |nifs| then None
    else if Attached(nifs[k], dst) then Some(k)
    else OnLink(nifs, dst, k + 1)
  }

  predicate NoneDirect(nifs: seq<Netif>, k: nat, n: nat)
    requires n <= |nifs|
  {
    forall i :: k <= i < n ==> !nifs[i].up || nifs[i].loopback
  }

  predicate NoneUp(nifs: seq<Netif>, k: nat) {
    forall i :: k <= i < |nifs| ==> !nifs[i].up
  }

  /** The first interface from `k` on that is up and not a loopback; without one the last
   *  loopback that is up, or `lo`. */
  function DefaultNif(nifs: seq<Netif>, k: nat, lo: Option<nat>): (r: Option<nat>)
    requires k <= |nifs| && (lo.Some? ==> lo.value < k)
    ensures r.Some? ==> r.value < |nifs|
    ensures r == lo || (r.Some? && k <= r.value && nifs[r.value].up)
    ensures r.Some? && r != lo && !nifs[r.value].loopback ==> NoneDirect(nifs, k, r.value)
    ensures r.Some? && (r == lo || nifs[r.value].loopback) ==>
      NoneDirect(nifs, k, |nifs|) && NoneUp(nifs, if r == lo then k else r.value + 1)
    ensures r == None ==> NoneUp(nifs, k)
    decreases |nifs| - k
  {
    if k == |nifs| then lo
    else if !nifs[k].up then DefaultNif(nifs, k + 1, lo)
    else if nifs[k].loopback then DefaultNif(nifs, k + 1, Some(k))
    else Some(k)
  }

  datatype Stack = Stack(routes: seq<Route>, nifs: seq<Netif>)

  predicate Wired(s: Stack) {
    forall i :: 0 <= i < |s.routes| && s.routes[i].nif.Some? ==> s.routes[i].nif.value < |s.nifs|
  }

  /** Route, else an interface on the destination's subnet, else the default. */
  function Egress(s: Stack, dst: Ip): (r: Option<nat>)
    requires Wired(s)
    ensures r.Some? ==> r.value < |s.nifs|
  {
    var b := Best(s.routes, dst, |s.routes|);
    var first := if b.Some? then s.routes[b.value].nif else OnLink(s.nifs, dst, 0);
    if first.Some? then first else DefaultNif(s.nifs, 0, None)
  }

  /** The longest prefix of the routes that cover the destination, the first of equals. */
  predicate Longest(routes: seq<Route>, dst: Ip, i: nat) {
    && i < |routes| && Covers(routes[i], dst)
    && forall j :: 0 <= j < |routes| && Covers(routes[j], dst) ==>
         routes[j].prefixLen <= routes[i].prefixLen && (j < i ==> routes[j].prefixLen < routes[i].prefixLen)
  }

  /** Where a datagram leaves, by the tables: through the interface of the longest route; where
   *  no route covers the destination, through the first interface attached to its subnet; else
   *  through the first interface that is up and no loopback, else the last loopback that is up.
   *  It leaves nowhere only when every interface is down. */
  lemma {:induction false} EgressChoice(s: Stack, dst: Ip, k: nat)
    requires Wired(s)
    ensures var e := Egress(s, dst);
      var routed := exists i :: 0 <= i < |s.routes| && Covers(s.routes[i], dst);
      && (Longest(s.routes, dst, k) && s.routes[k].nif.Some? ==> e == s.routes[k].nif)
      && (Longest(s.routes, dst, k) && s.routes[k].nif == None ==> Fallback(s.nifs, e))
      && (!routed && k < |s.nifs| && Attached(s.nifs[k], dst) && NoneAttached(s.nifs, dst, k) ==> e == Some(k))
      && (!routed && NoneAttached(s.nifs, dst, |s.nifs|) ==> Fallback(s.nifs, e))
      && (e == None ==> NoneUp(s.nifs, 0))
  {
    var b := Best(s.routes, dst, |s.routes|);
    assert Longest(s.routes, dst, k) ==> b == Some(k);
    var d := DefaultNif(s.nifs, 0, None);
    assert Fallback(s.nifs, d);
  }

  predicate NoneAttached(nifs: seq<Netif>, dst: Ip, n: nat)
    requires n <= |nifs|
  {
    forall i :: 0 <= i < n ==> !Attached(nifs[i], dst)
  }

  /** The first interface up that is no loopback, or else the last loopback up, or else none. */
  predicate Fallback(nifs: seq<Netif>, e: Option<nat>) {
    match e
    case None => NoneUp(nifs, 0)
    case Some(i) =>
      && i < |nifs| && nifs[i].up
      && if nifs[i].loopback then NoneDirect(nifs, 0, |nifs|) && NoneUp(nifs, i + 1) else NoneDirect(nifs, 0, i)
  }

  /** The address an unspecified source is replaced by. */
  function Source(s: Stack, src: Ip, dst: Ip): (r: Ip)
    requires Wired(s)
  {
    var e := Egress(s, dst);
    if IsZero(src) && e.Some? then s.nifs[e.value].ip else src
  }

  /** `udp_output`: the packet handed to the link, if there is an interface. */
  function Output(s: Stack, src: Ip, srcPort: Half, dst: Ip, dstPort: Half,
        payload: seq<Byte>, id: Half): (r: Option<seq<Byte>>)
    requires Wired(s) && |payload| < 0x1_0000
  {
    if Egress(s, dst) == None then None
    else
      var from := Source(s, src, dst);
      Some(IpBuild(from, dst, PROTO_UDP, 64, id, UdpBuild(from, dst, srcPort, dstPort, payload)))
  }

  /** `ipv4_input` then `udp_input`. */
  function Input(b: seq<Byte>): (r: Option<(Ip, Ip, UdpIn)>) {
    match IpParse(b)
    case None => None
    case Some(p) =>
      if p.proto != PROTO_UDP then None
      else
        match UdpParse(p.src, p.dst, p.l4)
        case None => None
        case Some(u) => Some((p.src, p.dst, u))
  }

  // ---- Header sums ----------------------------------------------------------------

  /** Storing a word over a zero word adds it to the sum. */
  lemma {:induction false} WordsPut(b: seq<Byte>, i: nat, v: Half)
    requires i % 2 == 0 && i + 1 < |b| && Get16(b, i) == 0
    ensures Words(Put16(b, i, v)) == Words(b) + v
    decreases i
  {
    var r := Put16(b, i, v);
    if i == 0 {
      assert r[2..] == b[2..];
    } else {
      assert r[2..] == Put16(b[2..], i - 2, v);
      WordsPut(b[2..], i - 2, v);
    }
  }

  lemma {:induction false} FirstWord(a: seq<Byte>)
    requires |a| >= 2
    ensures Words(a) >= Word(a[0], a[1])
  {
  }

  // ---- What is accepted -----------------------------------------------------------

  lemma {:induction false} ChecksIff(sum: nat)
    ensures Complement(sum) == 0 <==> sum > 0 && sum % 65535 == 0
  {
    hide Folded;
    FoldedFacts(sum);
  }

  predicate IpSound(b: seq<Byte>) {
    && |b| >= 20 && b[0] / 16 == 4 && 20 <= b[0] % 16 * 4 <= |b|
    && Words(b[..b[0] % 16 * 4]) % 65535 == 0
  }

  predicate UdpSound(src: Ip, dst: Ip, b: seq<Byte>) {
    && |b| >= 8 && 8 <= Get16(b, 4) <= |b|
    && (Get16(b, 6) == 0 || (PseudoSum(src, dst, 17, Get16(b, 4)) + Words(b[..Get16(b, 4)])) % 65535 == 0)
  }

  /** `ipv4_input` goes on with a packet exactly when it is long enough, of version 4, holds its
   *  header, and that header adds up to a multiple of 65535. */
  lemma {:induction false} IpAccepts(b: seq<Byte>)
    ensures IpParse(b).Some? <==> IpSound(b)
  {
    hide Words;
    hide Complement;
    if |b| >= IP_HDR && b[0] / 16 == 4 && IP_HDR <= b[0] % 16 * 4 <= |b| {
      var h := b[..b[0] % 16 * 4];
      FirstWord(h);
      ChecksIff(Words(h));
    }
  }

  /** `udp_input` delivers a segment exactly when its length field is possible and it either
   *  carries no checksum or adds up with its pseudo header to a multiple of 65535. */
  lemma {:induction false} UdpAccepts(src: Ip, dst: Ip, b: seq<Byte>)
    ensures var r := UdpParse(src, dst, b);
      && (r.Some? <==> UdpSound(src, dst, b))
      && (r.Some? ==> |b| >= 8 && r.value.srcPort == Get16(b, 0) && r.value.dstPort == Get16(b, 2)
                      && UdpBlank(Get16(b, 0), Get16(b, 2), Get16(b, 4))[..6] + b[6..8] + r.value.payload
                         == b[..Get16(b, 4)])
  {
    hide Words;
    hide Complement;
    if |b| >= UDP_HDR && UDP_HDR <= Get16(b, 4) <= |b| {
      var len: nat := Get16(b, 4);
      ChecksIff(UdpSum(src, dst, b[..len]));
      assert b[..len] == b[..6] + b[6..8] + b[8..len];
      assert b[..6] == UdpBlank(Get16(b, 0), Get16(b, 2), Get16(b, 4))[..6];
    }
  }

  /** The bytes behind the IPv4 header, up to the total length where that is possible. */
  function Behind(b: seq<Byte>): (r: seq<Byte>)
    requires |b| >= 20 && b[0] % 16 * 4 <= |b|
  {
    var hdr, total: nat := b[0] % 16 * 4, Get16(b, 2);
    if hdr <= total <= |b| then b[hdr..total] else b[hdr..]
  }

  /** A packet is delivered exactly when both layers find it sound and it carries UDP; it comes
   *  from and goes to the addresses in its header. */
  lemma {:induction false} InputAccepts(b: seq<Byte>)
    ensures Input(b).Some? <==>
      IpSound(b) && b[9] == 17 && UdpSound(b[12..16], b[16..20], Behind(b))
    ensures Input(b).Some? ==> |b| >= 20 && Input(b).value.0 == b[12..16] && Input(b).value.1 == b[16..20]
  {
    hide Words;
    hide Complement;
    hide UdpParse;
    hide UdpSound;
    IpAccepts(b);
    if IpSound(b) {
      var p := IpParse(b).value;
      assert p.l4 == Behind(b);
      UdpAccepts(p.src, p.dst, p.l4);
    }
  }

  // ---- One changed word -----------------------------------------------------------

  /** Equal outside the 16-bit word at an even offset. */
  predicate ExceptWord(d: seq<Byte>, e: seq<Byte>, o: nat) {
    o % 2 == 0 && o < |d| == |e| && forall k :: 0 <= k < |d| && k / 2 != o / 2 ==> d[k] == e[k]
  }

  /** The change the one's complement sum cannot see. */
  predicate Unseen(w: Half, w': Half) {
    w == w' || (w == 0 && w' == 0xFFFF) || (w == 0xFFFF && w' == 0)
  }

  /** A header word of an accepted packet that arrives changed, its length nibble intact: the
   *  packet is still accepted exactly when it is of version 4 and the words are equal or are
   *  the two zeros. */
  lemma {:induction false} IpWordChanged(d: seq<Byte>, e: seq<Byte>, o: nat)
    requires IpParse(d).Some? && ExceptWord(d, e, o) && o < d[0] % 16 * 4 && e[0] % 16 == d[0] % 16
    ensures IpParse(e).Some? <==> e[0] / 16 == 4 && Unseen(WordOf(d, o), WordOf(e, o))
  {
    hide Words;
    hide Complement;
    var hdr := d[0] % 16 * 4;
    if e[0] / 16 == 4 {
      assert WordOf(d[..hdr], o) == WordOf(d, o) && WordOf(e[..hdr], o) == WordOf(e, o);
      FirstWord(e[..hdr]);
      MessageWordChanged(0, d[..hdr], e[..hdr], o);
    }
  }

  /** A word other than the length of an accepted segment that arrives changed: the segment is
   *  still delivered exactly when the words are equal or are the two zeros, or the checksum
   *  itself became zero. */
  lemma {:induction false} UdpWordChanged(src: Ip, dst: Ip, d: seq<Byte>, e: seq<Byte>, o: nat)
    requires UdpParse(src, dst, d).Some? && Get16(d, 6) != 0
    requires |e| == |d| && o != 4 && ExceptWord(d[..Get16(d, 4)], e[..Get16(d, 4)], o)
    ensures UdpParse(src, dst, e).Some? <==>
      || Unseen(WordOf(d[..Get16(d, 4)], o), WordOf(e[..Get16(d, 4)], o))
      || (o == 6 && WordOf(e[..Get16(d, 4)], o) == 0)
  {
    hide Words;
    hide Complement;
    var len: nat := Get16(d, 4);
    var x, y := d[..len], e[..len];
    assert x[4] == y[4] && x[5] == y[5];
    assert Get16(e, 4) == len;
    assert x[6] == d[6] && x[7] == d[7] && y[6] == e[6] && y[7] == e[7];
    assert o == 6 ==> WordOf(y, o) == Get16(e, 6);
    assert o != 6 ==> x[6] == y[6] && x[7] == y[7] && Get16(e, 6) == Get16(d, 6);
    MessageWordChanged(PseudoSum(src, dst, PROTO_UDP, len), x, y, o);
  }

  /** The transport part of two packets with the same header of 20 bytes. */
  lemma {:induction false} IpSameHeader(d: seq<Byte>, e: seq<Byte>)
    requires IpParse(d).Some? && |d| == |e| && d[0] == 0x45 && d[..20] == e[..20]
    ensures var p, q := IpParse(d), IpParse(e);
      && q.Some? && q.value.src == p.value.src && q.value.dst == p.value.dst && q.value.proto == p.value.proto
      && |q.value.l4| == |p.value.l4| <= |d| - 20
      && p.value.l4 == d[20..20 + |p.value.l4|] && q.value.l4 == e[20..20 + |p.value.l4|]
  {
    hide Complement;
    hide Words;
    forall k | 0 <= k < 20 ensures d[k] == e[k] {
      assert d[k] == d[..20][k] && e[k] == e[..20][k];
    }
    assert d[12..16] == d[..20][12..16] == e[12..16];
    assert d[16..20] == d[..20][16..20] == e[16..20];
  }

  // ---- Round trip -----------------------------------------------------------------

  lemma {:induction false} IpHeaderChecks(total: Half, id: Half, ttl: Byte, proto: Byte, src: Ip, dst: Ip)
    ensures Complement(Words(IpHeader(total, id, ttl, proto, src, dst))) == 0
  {
    hide Words;
    hide Folded;
    var blank := IpBlank(total, id, ttl, proto, src, dst);
    WordsPut(blank, 10, Complement(Words(blank)));
    FirstWord(blank);
    CheckPasses(Words(blank), Complement(Words(blank)));
  }

  lemma {:induction false} IpFields(total: Half, id: Half, ttl: Byte, proto: Byte, src: Ip, dst: Ip, rest: seq<Byte>)
    ensures var b := IpHeader(total, id, ttl, proto, src, dst) + rest;
      && b[0] == 0x45 && Get16(b, 2) == total && b[9] == proto && b[12..16] == src && b[16..20] == dst
      && b[1] == 0 && Get16(b, 4) == id && Get16(b, 6) == 0x4000 && b[8] == ttl
  {
    hide Words;
    hide Complement;
    var blank := IpBlank(total, id, ttl, proto, src, dst);
    var h := IpHeader(total, id, ttl, proto, src, dst);
    assert h[0] == blank[0] && h[1] == blank[1] && h[4..9] == blank[4..9];
    assert h[2] == blank[2] && h[3] == blank[3] && h[9] == blank[9];
    assert h[12..16] == blank[12..16] == src;
    assert h[16..20] == blank[16..20] == dst;
    var b := h + rest;
    assert b[12..16] == h[12..16] && b[16..20] == h[16..20];
  }

  /** What the IP layer sends it accepts: same addresses, same protocol, and the transport
   *  bytes in front, whatever bytes the link appended. When the true length fits the
   *  16-bit field the appended bytes are cut off exactly. */
  lemma {:induction false} IpRoundTrip(src: Ip, dst: Ip, proto: Byte, ttl: Byte, id: Half,
        l4: seq<Byte>, pad: seq<Byte>)
    ensures var r := IpParse(IpBuild(src, dst, proto, ttl, id, l4) + pad);
      && r.Some? && r.value.src == src && r.value.dst == dst && r.value.proto == proto
      && (IP_HDR + |l4| < 0x1_0000 ==> r.value.l4 == l4)
      && (IP_HDR + Short(|l4|) >= 0x1_0000 ==> r.value.l4 == l4 + pad)
      && (|l4| >= 0x1_0000 && IP_HDR + Short(|l4|) < 0x1_0000 ==> |r.value.l4| == Short(|l4|))
  {
    hide Words;
    hide Folded;
    hide Complement;
    hide IpHeader;
    var total := Short(IP_HDR + Short(|l4|));
    var h := IpHeader(total, id, ttl, proto, src, dst);
    IpHeaderChecks(total, id, ttl, proto, src, dst);
    IpFields(total, id, ttl, proto, src, dst, l4 + pad);
    var b := h + l4 + pad;
    assert b == h + (l4 + pad);
    assert b[..IP_HDR] == h;
    IpTrimmed(h, l4, pad, total);
  }

  lemma {:induction false} IpTrimmed(h: seq<Byte>, l4: seq<Byte>, pad: seq<Byte>, total: Half)
    requires |h| == IP_HDR && total == Short(IP_HDR + Short(|l4|))
    ensures var b := h + l4 + pad;
      var live := if IP_HDR <= total <= |b| then b[..total] else b;
      && (IP_HDR + |l4| < 0x1_0000 ==> live[IP_HDR..] == l4)
      && (IP_HDR + Short(|l4|) >= 0x1_0000 ==> live[IP_HDR..] == l4 + pad)
      && (|l4| >= 0x1_0000 && IP_HDR + Short(|l4|) < 0x1_0000 ==> |live[IP_HDR..]| == Short(|l4|))
  {
    if IP_HDR + |l4| < 0x1_0000 {
      assert total == IP_HDR + |l4|;
    } else if IP_HDR + Short(|l4|) >= 0x1_0000 {
      assert total < IP_HDR;
    } else {
      assert total == IP_HDR + Short(|l4|);
    }
  }

  /** What the UDP layer builds it accepts, provided the length did not wrap: the checksum
   *  verifies for every payload, also when it came out zero. */
  lemma {:induction false} UdpRoundTrip(src: Ip, dst: Ip, srcPort: Half, dstPort: Half,
        payload: seq<Byte>, pad: seq<Byte>)
    requires UDP_HDR + |payload| < 0x1_0000
    ensures UdpParse(src, dst, UdpBuild(src, dst, srcPort, dstPort, payload) + pad)
         == Some(UdpIn(srcPort, dstPort, payload))
  {
    hide Words;
    hide Folded;
    hide Complement;
    hide Put16;
    var total := UDP_HDR + |payload|;
    var blank := UdpBlank(srcPort, dstPort, total) + payload;
    assert blank[..total] == blank;
    var c := NonZero(Complement(UdpSum(src, dst, blank)));
    var full := Put16(blank, 6, c);
    var b := full + pad;
    assert b == UdpBuild(src, dst, srcPort, dstPort, payload) + pad;
    assert b[..total] == full;
    UdpChecks(src, dst, blank);
    assert Get16(b, 0) == srcPort && Get16(b, 2) == dstPort && Get16(b, 4) == total;
    assert b[UDP_HDR..total] == payload;
  }

  lemma {:induction false} UdpChecks(src: Ip, dst: Ip, blank: seq<Byte>)
    requires UDP_HDR <= |blank| < 0x1_0000 && Get16(blank, 6) == 0
    ensures var c := NonZero(Complement(UdpSum(src, dst, blank)));
      Complement(UdpSum(src, dst, Put16(blank, 6, c))) == 0
  {
    hide Words;
    hide Folded;
    var rest := UdpSum(src, dst, blank);
    var c := NonZero(Complement(rest));
    WordsPut(blank, 6, c);
    CheckPasses(rest, c);
  }

  /** A datagram that leaves is delivered with its addresses, ports and payload intact
   *  exactly when the payload is at most 65527 bytes; a longer one is dropped. This holds
   *  for every payload, an unspecified source included, and whatever padding the link
   *  appends. */
  lemma {:induction false} DatagramRoundTrip(s: Stack, src: Ip, srcPort: Half, dst: Ip, dstPort: Half,
                                             payload: seq<Byte>, id: Half, pad: seq<Byte>)
    requires Wired(s) && |payload| < 0x1_0000 && Egress(s, dst).Some?
    ensures var sent := Output(s, src, srcPort, dst, dstPort, payload, id);
      && sent.Some?
      && (|payload| <= 65527 ==>
            var from := if IsZero(src) then s.nifs[Egress(s, dst).value].ip else src;
            Input(sent.value + pad) == Some((from, dst, UdpIn(srcPort, dstPort, payload))))
      && (|payload| > 65527 ==> Input(sent.value + pad) == None)
  {
    hide Words;
    hide UdpBuild;
    hide IpBuild;
    hide IpParse;
    hide Egress;
    var from := Source(s, src, dst);
    var l4 := UdpBuild(from, dst, srcPort, dstPort, payload);
    IpRoundTrip(from, dst, PROTO_UDP, 64, id, l4, pad);
    if |payload| <= 65527 {
      UdpRoundTrip(from, dst, srcPort, dstPort, payload, pad);
      UdpRoundTrip(from, dst, srcPort, dstPort, payload, []);
      assert l4 + [] == l4;
    }
  }

  /** A sent datagram one 16-bit word of which arrives changed, other than the UDP length and with
   *  the header length as it was, is dropped unless the words are the two zeros or the UDP
   *  checksum became zero; past the IP header it is delivered in exactly those cases. */
  lemma {:induction false} CorruptedDropped(s: Stack, src: Ip, srcPort: Half, dst: Ip, dstPort: Half,
        payload: seq<Byte>, id: Half, pad: seq<Byte>, e: seq<Byte>, o: nat)
    requires Wired(s) && |payload| <= 65527 && Egress(s, dst).Some?
    requires ExceptWord(Output(s, src, srcPort, dst, dstPort, payload, id).value, e, o)
    requires o != IP_HDR + 4 && e[0] % 16 == 5
    ensures var d := Output(s, src, srcPort, dst, dstPort, payload, id).value;
      var seen := !Unseen(WordOf(d, o), WordOf(e, o)) && !(o == IP_HDR + 6 && WordOf(e, o) == 0);
      && (seen ==> Input(e + pad) == None)
      && (o >= IP_HDR && !seen ==> Input(e + pad).Some?)
  {
    hide Output;
    hide Egress;
    hide Source;
    hide Input;
    DatagramRoundTrip(s, src, srcPort, dst, dstPort, payload, id, pad);
    var d := Output(s, src, srcPort, dst, dstPort, payload, id).value;
    SentShape(s, src, srcPort, dst, dstPort, payload, id);
    if o < IP_HDR {
      HeaderCorrupted(d, e, o, pad);
    } else {
      SegmentCorrupted(d, e, o, pad);
    }
  }

  /** A datagram that was sent: a 20-byte header, the UDP length of all the rest, a checksum. */
  ghost predicate Shaped(d: seq<Byte>) {
    |d| >= 28 && d[0] == 0x45 && Get16(d, 24) == |d| - 20 && Get16(d, 26) != 0
  }

  lemma {:induction false} SentShape(s: Stack, src: Ip, srcPort: Half, dst: Ip, dstPort: Half,
        payload: seq<Byte>, id: Half)
    requires Wired(s) && |payload| <= 65527 && Egress(s, dst).Some?
    ensures Shaped(Output(s, src, srcPort, dst, dstPort, payload, id).value)
  {
    hide Words;
    hide Complement;
    hide Egress;
    hide IpHeader;
    var from := Source(s, src, dst);
    var l4 := UdpBuild(from, dst, srcPort, dstPort, payload);
    var h := IpHeader(Short(IP_HDR + Short(|l4|)), id, 64, PROTO_UDP, from, dst);
    IpFields(Short(IP_HDR + Short(|l4|)), id, 64, PROTO_UDP, from, dst, l4);
    var d := h + l4;
    assert d[24] == l4[4] && d[25] == l4[5] && d[26] == l4[6] && d[27] == l4[7];
  }

  lemma {:induction false} HeaderCorrupted(d: seq<Byte>, e: seq<Byte>, o: nat, pad: seq<Byte>)
    requires Shaped(d) && Input(d + pad).Some? && ExceptWord(d, e, o) && o < IP_HDR && e[0] % 16 == 5
    ensures !Unseen(WordOf(d, o), WordOf(e, o)) ==> Input(e + pad) == None
  {
    hide IpParse;
    hide UdpParse;
    var x, y := d + pad, e + pad;
    assert ExceptWord(x, y, o);
    assert WordOf(x, o) == WordOf(d, o) && WordOf(y, o) == WordOf(e, o);
    IpWordChanged(x, y, o);
  }

  lemma {:induction false} SegmentCorrupted(d: seq<Byte>, e: seq<Byte>, o: nat, pad: seq<Byte>)
    requires Shaped(d) && Input(d + pad).Some? && ExceptWord(d, e, o) && o >= IP_HDR && o != 24
    ensures Input(e + pad).Some? <==>
      Unseen(WordOf(d, o), WordOf(e, o)) || (o == 26 && WordOf(e, o) == 0)
  {
    hide IpParse;
    hide UdpParse;
    hide Unseen;
    hide WordOf;
    var x, y := d + pad, e + pad;
    assert x[..20] == d[..20] == e[..20] == y[..20];
    IpSameHeader(x, y);
    var p, q := IpParse(x).value, IpParse(y).value;
    var n := |p.l4|;
    ParsedLength(p.src, p.dst, p.l4);
    assert p.l4[4] == x[24] && p.l4[5] == x[25] && p.l4[6] == x[26] && p.l4[7] == x[27];
    assert Get16(p.l4, 4) == Get16(d, 24) && Get16(p.l4, 6) == Get16(d, 26);
    var len: nat := |d| - 20;
    assert p.l4[..len] == x[20..20 + len] == d[20..];
    assert q.l4[..len] == y[20..20 + len] == e[20..];
    SuffixWord(d, e, o);
    UdpWordChanged(p.src, p.dst, p.l4, q.l4, o - 20);
  }

  lemma {:induction false} ParsedLength(src: Ip, dst: Ip, b: seq<Byte>)
    requires UdpParse(src, dst, b).Some?
    ensures |b| >= UDP_HDR && UDP_HDR <= Get16(b, 4) <= |b|
  {
  }

  lemma {:induction false} SuffixWord(d: seq<Byte>, e: seq<Byte>, o: nat)
    requires ExceptWord(d, e, o) && o >= 20
    ensures ExceptWord(d[20..], e[20..], o - 20)
    ensures WordOf(d[20..], o - 20) == WordOf(d, o) && WordOf(e[20..], o - 20) == WordOf(e, o)
  {
    forall k | 0 <= k < |d| - 20 && k / 2 != (o - 20) / 2 ensures d[20..][k] == e[20..][k] {
      assert (k + 20) / 2 != o / 2;
      assert d[k + 20] == e[k + 20];
    }
  }
}

/** The send and receive paths working on a packet buffer in place. */
module Udp {
  import opened Checksum
  import opened Netbuf
  import opened Options
  import opened UdpSpec

  const HEADROOM: nat := 64

  /** `route_lookup`: the longest prefix among the routes covering the destination, the
   *  first one where prefixes tie. */
  method RouteLookup(routes: seq<Route>, dst: Ip) returns (best: Option<nat>)
    ensures best == Best(routes, dst, |routes|)
  {
    best := None;
    for i := 0 to |routes|
      invariant best == Best(routes, dst, i)
    {
      if routes[i].valid && SameSubnet(dst, routes[i].dest, routes[i].mask) {
        if best == None || routes[i].prefixLen > routes[best.value].prefixLen {
          best := Some(i);
        }
      }
    }
  }

  method NetifForDest(nifs: seq<Netif>, dst: Ip) returns (r: Option<nat>)
    ensures r == OnLink(nifs, dst, 0)
  {
    for i := 0 to |nifs|
      invariant OnLink(nifs, dst, i) == OnLink(nifs, dst, 0)
    {
      if nifs[i].up && !IsZero(nifs[i].ip) && SameSubnet(dst, nifs[i].ip, nifs[i].mask) {
        return Some(i);
      }
    }
    r := None;
  }

  method NetifDefault(nifs: seq<Netif>) returns (r: Option<nat>)
    ensures r == DefaultNif(nifs, 0, None)
  {
    r := None;
    for i := 0 to |nifs|
      invariant r.Some? ==> r.value < i
      invariant DefaultNif(nifs, i, r) == DefaultNif(nifs, 0, None)
    {
      if nifs[i].up {
        if nifs[i].loopback {
          r := Some(i);
        } else {
          return Some(i);
        }
      }
    }
  }

  method FindEgress(s: Stack, dst: Ip) returns (r: Option<nat>)
    requires Wired(s)
    ensures r == Egress(s, dst)
  {
    var route := RouteLookup(s.routes, dst);
    if route.Some? {
      r := s.routes[route.value].nif;
    } else {
      r := NetifForDest(s.nifs, dst);
    }
    if r == None {
      r := NetifDefault(s.nifs);
    }
  }

  /** `ipv4_build`: push a header in front of the live bytes. */
  method BuildIp(nb: NetBuf, src: Ip, dst: Ip, proto: Byte, ttl: Byte, id: Half) returns (ok: bool)
    requires nb.Valid()
    modifies nb, nb.mem
    ensures nb.Valid() && ok == (old(nb.data) >= IP_HDR)
    ensures ok ==> nb.data == old(nb.data) - IP_HDR
    ensures ok ==> nb.Live() == IpBuild(src, dst, proto, ttl, id, old(nb.Live()))
  {
    hide Words;
    hide Folded;
    hide Complement;
    hide IpBlank;
    var payload := Short(nb.Len());
    ok := nb.Push(IP_HDR);
    if !ok {
      return;
    }
    var blank := IpBlank(Short(IP_HDR + payload), id, ttl, proto, src, dst);
    nb.Write(0, blank);
    assert nb.Live() == blank + old(nb.Live());
    var sum := Partial(blank, 0);
    WordsBound(blank);
    var csum := Fold(sum);
    nb.Write(10, [csum / 256, csum % 256]);
    assert nb.Live() == Put16(blank, 10, csum) + old(nb.Live());
  }

  /** `udp_output` with the buffer it builds; `None` when no interface leads out. */
  method SendDatagram(s: Stack, src: Ip, srcPort: Half, dst: Ip, dstPort: Half, payload: seq<Byte>, id: Half)
    returns (r: Option<NetBuf>)
    requires Wired(s) && |payload| < 0x1_0000
    ensures r.Some? == Output(s, src, srcPort, dst, dstPort, payload, id).Some?
    ensures r.Some? ==> r.value.Valid() && r.value.data == HEADROOM - IP_HDR
    ensures r.Some? ==> Some(r.value.Live()) == Output(s, src, srcPort, dst, dstPort, payload, id)
  {
    hide IpBuild;
    hide UdpBuild;
    hide Egress;
    var nif := FindEgress(s, dst);
    var from := if IsZero(src) && nif.Some? then s.nifs[nif.value].ip else src;
    var nb := BuildUdp(from, dst, srcPort, dstPort, payload);
    if nif == None {
      return None;
    }
    var _ := BuildIp(nb, from, dst, PROTO_UDP, 64, id);
    r := Some(nb);
  }

  method BuildUdp(from: Ip, dst: Ip, srcPort: Half, dstPort: Half, payload: seq<Byte>) returns (nb: NetBuf)
    requires |payload| < 0x1_0000
    ensures fresh(nb) && fresh(nb.mem) && nb.Valid() && nb.data == HEADROOM
    ensures nb.Live() == UdpBuild(from, dst, srcPort, dstPort, payload)
  {
    hide Words;
    hide Complement;
    hide UdpBlank;
    nb := new NetBuf(UDP_HDR + |payload|, HEADROOM);
    var total := Short(UDP_HDR + |payload|);
    var blank := UdpBlank(srcPort, dstPort, total) + payload;
    var _ := nb.PutData(UdpBlank(srcPort, dstPort, total));
    if |payload| > 0 {
      var _ := nb.PutData(payload);
    }
    assert nb.Live() == blank;
    var csum := Transport(from, dst, PROTO_UDP, blank[..total]);
    csum := NonZero(csum);
    nb.Write(6, [csum / 256, csum % 256]);
    assert nb.Live() == Put16(blank, 6, csum);
  }

  /** `ipv4_input`: validate, trim and strip the header in place. */
  method InputIp(nb: NetBuf) returns (r: Option<IpIn>)
    requires nb.Valid()
    modifies nb
    ensures nb.Valid() && r == IpParse(old(nb.Live()))
    ensures r.Some? <==> IpSound(old(nb.Live()))
    ensures r.Some? ==> nb.Live() == r.value.l4
  {
    hide Words;
    hide Complement;
    hide IpSound;
    IpAccepts(nb.Live());
    if nb.Len() < IP_HDR {
      return None;
    }
    var b := nb.mem[nb.data..nb.tail];
    var hdr := b[0] % 16 * 4;
    if b[0] / 16 != 4 || hdr < IP_HDR || nb.Len() < hdr {
      return None;
    }
    var sum := Partial(b[..hdr], 0);
    WordsBound(b[..hdr]);
    var c := Fold(sum);
    if c != 0 {
      return None;
    }
    var total := Get16(b, 2);
    ghost var live := if hdr <= total <= |b| then b[..total] else b;
    if hdr <= total <= nb.Len() {
      nb.Trim(total);
    }
    assert nb.Live() == live;
    var _ := nb.Pull(hdr);
    assert nb.Live() == live[hdr..];
    r := Some(IpIn(b[12..16], b[16..20], b[9], nb.mem[nb.data..nb.tail]));
  }

  /** `udp_input` up to the choice of the receiver. */
  method InputUdp(nb: NetBuf, src: Ip, dst: Ip) returns (r: Option<UdpIn>)
    requires nb.Valid()
    ensures r == UdpParse(src, dst, nb.Live())
    ensures r.Some? <==> UdpSound(src, dst, nb.Live())
  {
    hide Words;
    hide Complement;
    hide UdpSound;
    UdpAccepts(src, dst, nb.Live());
    if nb.Len() < UDP_HDR {
      return None;
    }
    var b := nb.mem[nb.data..nb.tail];
    var len: nat := Get16(b, 4);
    if len < UDP_HDR || len > nb.Len() {
      return None;
    }
    if Get16(b, 6) != 0 {
      var c := Transport(src, dst, PROTO_UDP, b[..len]);
      if c != 0 {
        return None;
      }
    }
    r := Some(UdpIn(Get16(b, 0), Get16(b, 2), b[UDP_HDR..len]));
  }

  // ---- The receiver table ---------------------------------------------------------

  datatype Binding = Binding(inUse: bool, ip: Ip, port: Half)

  predicate Exact(b: Binding, ip: Ip, port: Half) {
    b.inUse && b.port == port && b.ip == ip
  }

  predicate Wild(b: Binding, port: Half) {
    b.inUse && b.port == port && IsZero(b.ip)
  }

  /** `udp_find`: the binding of exactly this address if there is one, else the last
   *  wildcard binding of the port. */
  method FindBinding(table: seq<Binding>, ip: Ip, port: Half) returns (r: Option<nat>)
    ensures r == None <==> forall i :: 0 <= i < |table| ==> !Exact(table[i], ip, port) && !Wild(table[i], port)
    ensures r.Some? ==> r.value < |table|
    ensures r.Some? && !Exact(table[r.value], ip, port) ==>
      && Wild(table[r.value], port)
      && (forall i :: 0 <= i < |table| ==> !Exact(table[i], ip, port))
      && (forall i :: r.value < i < |table| ==> !Wild(table[i], port))
    ensures r.Some? && Exact(table[r.value], ip, port) ==> forall i :: 0 <= i < r.value ==> !Exact(table[i], ip, port)
  {
    r := None;
    for i := 0 to |table|
      invariant forall k :: 0 <= k < i ==> !Exact(table[k], ip, port)
      invariant r == None ==> forall k :: 0 <= k < i ==> !Wild(table[k], port)
      invariant r.Some? ==> r.value < i && Wild(table[r.value], port)
      invariant r.Some? ==> forall k :: r.value < k < i ==> !Wild(table[k], port)
    {
      if table[i].inUse && table[i].port == port {
        if table[i].ip == ip {
          return Some(i);
        }
        if IsZero(table[i].ip) {
          r := Some(i);
        }
      }
    }
  }
}
