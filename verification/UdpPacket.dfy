/**
 Building, checking and unwrapping the raw IP/UDP packets of the DHCPv4 client (dhcpcd/dhcp.c).

 A packet buffer is struct udp_dhcp_packet: 20 bytes of IP header, 8 of UDP header and 1472 of
 DHCP message.
 */
module UdpPacket {
  import opened Common
  import opened Checksum

  const IP_LEN := 20
  const HEADERS := 28
  const MESSAGE_LEN := 1472
  const PACKET_LEN := 1500
  const UDP: byte := 17
  const TTL: byte := 64

  type Address = a: seq<byte> | |a| == 4 witness [0, 0, 0, 0]

  const ANY: Address := [0, 0, 0, 0]
  const BROADCAST: Address := [255, 255, 255, 255]

  // ----- building

  function Destination(dest: Address): Address {
    if dest == ANY then BROADCAST else dest
  }

  /** The partly filled IP header over which the UDP checksum is taken: protocol, addresses, and
      the UDP length in the place of the IP length. */
  function PartialHeader(ulen: uint16, src: Address, dst: Address): (h: seq<byte>)
    ensures |h| == IP_LEN
  {
    [0, 0] + Be16(ulen) + [0, 0, 0, 0, 0, UDP, 0, 0] + src + dst
  }

  /** Ports 68 and 67, length and checksum. */
  function UdpHeader(ulen: uint16, sum: uint16): (h: seq<byte>)
    ensures |h| == 8
  {
    [0, 68, 0, 67] + Be16(ulen) + Be16(sum)
  }

  function IpFront(len: uint16, id: uint16): (h: seq<byte>)
    ensures |h| == 10
  {
    [0x45, 0] + Be16(len) + Be16(id) + [0, 0, TTL, UDP]
  }

  function IpHeader(len: uint16, id: uint16, sum: uint16, src: Address, dst: Address): (h: seq<byte>)
    ensures |h| == IP_LEN
  {
    IpFront(len, id) + Be16(sum) + (src + dst)
  }

  /** The whole buffer while the UDP checksum is computed. */
  function Unfinished(payload: seq<byte>, src: Address, dst: Address): (b: seq<byte>)
    requires |payload| <= MESSAGE_LEN
    ensures |b| == PACKET_LEN
  {
    PartialHeader(8 + |payload|, src, dst) + UdpHeader(8 + |payload|, 0)
      + payload + Zeros(MESSAGE_LEN - |payload|)
  }

  /** A finished packet with the given checksums. */
  function Assemble(payload: seq<byte>, src: Address, dst: Address, id: uint16, ipSum: uint16, udpSum: uint16): (b: seq<byte>)
    requires |payload| <= MESSAGE_LEN
    ensures |b| == PACKET_LEN
  {
    IpHeader(HEADERS + |payload|, id, ipSum, src, dst)
      + UdpHeader(8 + |payload|, udpSum) + payload + Zeros(MESSAGE_LEN - |payload|)
  }

  /** The two checksums dhcp_makeudppacket computes, the UDP one first. */
  function UdpSum(payload: seq<byte>, src: Address, dst: Address): uint16
    requires |payload| <= MESSAGE_LEN
  {
    Sum(Unfinished(payload, src, dst))
  }

  function IpSum(len: uint16, id: uint16, src: Address, dst: Address): uint16 {
    Sum(IpHeader(len, id, 0, src, dst))
  }

  /** dhcp_makeudppacket; the first HEADERS + |payload| bytes are sent. */
  function Make(payload: seq<byte>, src: Address, dest: Address, id: uint16): seq<byte>
    requires |payload| <= MESSAGE_LEN
  {
    var dst := Destination(dest);
    Assemble(payload, src, dst, id, IpSum(HEADERS + |payload|, id, src, dst), UdpSum(payload, src, dst))
  }

  // ----- checking

  datatype Verdict = Verdict(valid: bool, from: Address)

  /** The received headers as valid_udp_packet blanks them before summing. */
  function Blanked(p: seq<byte>): (q: seq<byte>)
    requires |p| == PACKET_LEN
    ensures |q| == PACKET_LEN
  {
    [0, 0] + p[24..26] + [0, 0, 0, 0, 0, p[9], 0, 0] + p[12..26] + [0, 0] + p[28..]
  }

  /** valid_udp_packet; `junk` is what the local struct held beyond the received bytes. */
  function Check(data: seq<byte>, junk: seq<byte>, noUdpSum: bool): Verdict
    requires |junk| == PACKET_LEN
  {
    if |data| < IP_LEN then Verdict(false, ANY)
    else if |data| > PACKET_LEN then Verdict(false, data[12..16])
    else
      var p := data + junk[|data|..];
      var from := p[12..16];
      var bytes := Word(p[2], p[3]);
      var udpSum := Word(p[26], p[27]);
      if Sum(p[..IP_LEN]) != 0 then Verdict(false, from)
      else if |data| < bytes then Verdict(false, from)
      else if !noUdpSum && udpSum != 0 && Sum(Blanked(p)[..bytes]) != udpSum then Verdict(false, from)
      else Verdict(true, from)
  }

  /** get_udp_data: the payload starts after both headers, its length comes from the IP header. */
  function DataLength(packet: seq<byte>): int
    requires |packet| >= 4
  {
    Word(packet[2], packet[3]) - HEADERS
  }

  // ----- proofs

  lemma IpHeaderSumsToZero(len: uint16, id: uint16, src: Address, dst: Address)
    ensures Sum(IpHeader(len, id, IpSum(len, id, src, dst), src, dst)) == 0
  {
    hide Sum, Be16, IpFront, Word;
    BlankWord();
    StoredSumIsZero(IpFront(len, id), src + dst);
  }

  lemma Fields(payload: seq<byte>, src: Address, dst: Address, id: uint16, ipSum: uint16, udpSum: uint16)
    requires |payload| <= MESSAGE_LEN
    ensures var m := Assemble(payload, src, dst, id, ipSum, udpSum);
      && m[2..4] == Be16(HEADERS + |payload|) && m[9] == UDP
      && m[12..26] == src + dst + [0, 68, 0, 67] + Be16(8 + |payload|)
      && m[26..28] == Be16(udpSum)
      && m[HEADERS..HEADERS + |payload|] == payload
      && m[..IP_LEN] == IpHeader(HEADERS + |payload|, id, ipSum, src, dst)
  {
    hide Be16;
    var ip := IpHeader(HEADERS + |payload|, id, ipSum, src, dst);
    var udp := UdpHeader(8 + |payload|, udpSum);
    var m := Assemble(payload, src, dst, id, ipSum, udpSum);
    assert m[..IP_LEN] == ip;
    assert m[IP_LEN..HEADERS] == udp;
    assert m[2..4] == ip[2..4] && m[9] == ip[9];
    assert m[12..26] == ip[12..] + udp[..6];
    assert m[26..28] == udp[6..];
    assert ip[2..4] == Be16(HEADERS + |payload|);
    assert ip[12..] == src + dst;
    assert udp[..6] == [0, 68, 0, 67] + Be16(8 + |payload|);
  }

  /** What the receiver sums is what the sender summed, up to the padding. */
  lemma BlankedIsUnfinished(payload: seq<byte>, src: Address, dst: Address, m: seq<byte>, p: seq<byte>)
    requires |payload| <= MESSAGE_LEN && |p| == |m| == PACKET_LEN
    requires forall i :: 0 <= i < HEADERS + |payload| ==> p[i] == m[i]
    requires m[9] == UDP && m[12..26] == src + dst + [0, 68, 0, 67] + Be16(8 + |payload|)
    requires m[HEADERS..HEADERS + |payload|] == payload
    ensures Blanked(p)[..HEADERS + |payload|] ==
      PartialHeader(8 + |payload|, src, dst) + UdpHeader(8 + |payload|, 0) + payload
  {
    hide Be16;
    BlankWord();
    var n := HEADERS + |payload|;
    var b := Blanked(p);
    assert p[12..26] == m[12..26];
    assert p[24..26] == m[12..26][12..];
    assert b[HEADERS..n] == m[HEADERS..n];
    assert b[..n] == b[..HEADERS] + b[HEADERS..n];
    var ulen := Be16(8 + |payload|);
    assert b[..HEADERS] == [0, 0] + ulen + [0, 0, 0, 0, 0, UDP, 0, 0] + (src + dst + [0, 68, 0, 67] + ulen) + [0, 0];
  }

  /** The sender's sum over the zero-padded struct is the receiver's over the sent bytes. */
  lemma PaddingIsFree(payload: seq<byte>, src: Address, dst: Address)
    requires |payload| <= MESSAGE_LEN
    ensures UdpSum(payload, src, dst) ==
      Sum(PartialHeader(8 + |payload|, src, dst) + UdpHeader(8 + |payload|, 0) + payload)
  {
    hide Be16, WordSum, Fold, PartialHeader, UdpHeader, Zeros;
    WordSumPad(PartialHeader(8 + |payload|, src, dst) + UdpHeader(8 + |payload|, 0) + payload, MESSAGE_LEN - |payload|);
  }

  /** Every packet the client builds is accepted, from the right sender, and unwraps to the payload,
      whatever the receiver's buffer held before. */
  lemma RoundTrip(payload: seq<byte>, src: Address, dest: Address, id: uint16, junk: seq<byte>, noUdpSum: bool)
    requires |payload| <= MESSAGE_LEN && |junk| == PACKET_LEN
    ensures var wire := Make(payload, src, dest, id)[..HEADERS + |payload|];
      && Check(wire, junk, noUdpSum) == Verdict(true, src)
      && DataLength(wire) == |payload|
      && wire[HEADERS..HEADERS + DataLength(wire)] == payload
  {
    hide Be16, Sum, Blanked, Assemble, IpSum, UdpSum;
    var n := HEADERS + |payload|;
    var dst := Destination(dest);
    var m := Make(payload, src, dest, id);
    var wire := m[..n];
    var p := wire + junk[n..];
    Fields(payload, src, dst, id, IpSum(n, id, src, dst), UdpSum(payload, src, dst));
    assert forall i :: 0 <= i < n ==> p[i] == m[i];
    assert p[..IP_LEN] == m[..IP_LEN];
    IpHeaderSumsToZero(n, id, src, dst);
    assert m[2..4] == [p[2], p[3]] && m[26..28] == [p[26], p[27]];
    assert Word(p[2], p[3]) == n && Word(p[26], p[27]) == UdpSum(payload, src, dst);
    assert p[12..16] == m[12..26][..4];
    assert src == m[12..26][..4];
    BlankedIsUnfinished(payload, src, dst, m, p);
    PaddingIsFree(payload, src, dst);
    assert wire[HEADERS..n] == m[HEADERS..n];
  }

  // ----- RFC 768

  /** The pseudo header under "Fields" in RFC 768. */
  function PseudoHeader(ulen: uint16, src: Address, dst: Address): seq<byte> {
    src + dst + [0, UDP] + Be16(ulen)
  }

  /** The complemented sum of RFC 768 over pseudo header, UDP header and data. */
  function Rfc768Sum(payload: seq<byte>, src: Address, dst: Address): uint16
    requires |payload| <= MESSAGE_LEN
  {
    Sum(PseudoHeader(8 + |payload|, src, dst) + UdpHeader(8 + |payload|, 0) + payload)
  }

  /** The field RFC 768 asks for: a computed zero is transmitted as all ones. */
  function Rfc768Field(payload: seq<byte>, src: Address, dst: Address): uint16
    requires |payload| <= MESSAGE_LEN
  {
    var c := Rfc768Sum(payload, src, dst);
    if c == 0 then ONES else c
  }

  lemma PartialHeaderSum(ulen: uint16, src: Address, dst: Address)
    ensures WordSum(PartialHeader(ulen, src, dst)) == ulen + UDP + WordSum(src) + WordSum(dst)
  {
    hide WordSum, Be16;
    var z: seq<byte> := [0, 0];
    var proto: seq<byte> := [0, UDP];
    assert PartialHeader(ulen, src, dst) == z + (Be16(ulen) + (z + (z + (proto + (z + (src + dst))))));
    WordSumAppend(z, Be16(ulen) + (z + (z + (proto + (z + (src + dst))))));
    WordSumAppend(Be16(ulen), z + (z + (proto + (z + (src + dst)))));
    WordSumAppend(z, z + (proto + (z + (src + dst))));
    WordSumAppend(z, proto + (z + (src + dst)));
    WordSumAppend(proto, z + (src + dst));
    WordSumAppend(z, src + dst);
    WordSumAppend(src, dst);
    TwoByteSum(z);
    TwoByteSum(proto);
    TwoByteSum(Be16(ulen));
  }

  lemma TwoByteSum(w: seq<byte>)
    requires |w| == 2
    ensures WordSum(w) == Word(w[0], w[1])
  {
    assert WordSum(w) == Word(w[0], w[1]) + WordSum(w[2..]);
  }

  lemma PseudoHeaderSum(ulen: uint16, src: Address, dst: Address)
    ensures WordSum(PseudoHeader(ulen, src, dst)) == ulen + UDP + WordSum(src) + WordSum(dst)
  {
    hide WordSum, Be16;
    var proto: seq<byte> := [0, UDP];
    assert PseudoHeader(ulen, src, dst) == src + (dst + (proto + Be16(ulen)));
    WordSumAppend(src, dst + (proto + Be16(ulen)));
    WordSumAppend(dst, proto + Be16(ulen));
    WordSumAppend(proto, Be16(ulen));
    TwoByteSum(proto);
    TwoByteSum(Be16(ulen));
  }

  lemma PartialLength(ulen: uint16, src: Address, dst: Address)
    ensures |PartialHeader(ulen, src, dst)| == IP_LEN && |PseudoHeader(ulen, src, dst)| == 12
  {
  }

  /** The partly filled IP header stands in for the pseudo header: the stored sum is the RFC's. */
  lemma StandsInForPseudoHeader(payload: seq<byte>, src: Address, dst: Address)
    requires |payload| <= MESSAGE_LEN
    ensures UdpSum(payload, src, dst) == Rfc768Sum(payload, src, dst)
  {
    hide Be16, WordSum, Fold, PartialHeader, PseudoHeader, UdpHeader, UdpSum;
    PartialLength(8 + |payload|, src, dst);
    var ulen := 8 + |payload|;
    var rest := UdpHeader(ulen, 0) + payload;
    PaddingIsFree(payload, src, dst);
    assert PartialHeader(ulen, src, dst) + UdpHeader(ulen, 0) + payload == PartialHeader(ulen, src, dst) + rest;
    assert PseudoHeader(ulen, src, dst) + UdpHeader(ulen, 0) + payload == PseudoHeader(ulen, src, dst) + rest;
    WordSumAppend(PartialHeader(ulen, src, dst), rest);
    WordSumAppend(PseudoHeader(ulen, src, dst), rest);
    PartialHeaderSum(ulen, src, dst);
    PseudoHeaderSum(ulen, src, dst);
  }

  /** A payload whose sum comes out as zero exists for every pair of addresses: two bytes that hold
      the sum of the packet without them. */
  lemma ZeroSumPayload(src: Address, dst: Address)
    ensures var payload := Be16(Rfc768Sum([0, 0], src, dst)); Rfc768Sum(payload, src, dst) == 0
  {
    hide Be16, Sum, PseudoHeader, UdpHeader;
    var a := PseudoHeader(10, src, dst) + UdpHeader(10, 0);
    PseudoLength(10, src, dst);
    StoredSumIsZero(a, []);
    assert a + [0, 0] + [] == a + [0, 0];
    var payload := Be16(Rfc768Sum([0, 0], src, dst));
    assert a + payload + [] == a + payload;
  }

  lemma PseudoLength(ulen: uint16, src: Address, dst: Address)
    ensures |PseudoHeader(ulen, src, dst)| == 12
  {
  }

  /** The field sent is the one RFC 768 asks for except when the sum comes out as zero: the client
      then stores zero, which RFC 768 reserves for "no checksum", instead of all ones. */
  lemma FieldIsRfc768(payload: seq<byte>, src: Address, dest: Address, id: uint16)
    requires |payload| <= MESSAGE_LEN
    ensures var m := Make(payload, src, dest, id); var dst := Destination(dest);
      && m[26..28] == Be16(Rfc768Sum(payload, src, dst))
      && (Word(m[26], m[27]) == Rfc768Field(payload, src, dst) <==> Rfc768Sum(payload, src, dst) != 0)
  {
    hide Be16, Assemble, IpSum, UdpSum, Sum;
    var dst := Destination(dest);
    Fields(payload, src, dst, id, IpSum(HEADERS + |payload|, id, src, dst), UdpSum(payload, src, dst));
    StandsInForPseudoHeader(payload, src, dst);
    var m := Make(payload, src, dest, id);
    assert m[26..28] == [m[26], m[27]];
  }

  // ----- the program's own way: one buffer, filled in place

  /** The buffer after the first pass, when the UDP checksum is due. */
  lemma FirstPass(payload: seq<byte>, src: Address, dst: Address)
    requires |payload| <= MESSAGE_LEN
    ensures var ulen := Be16(8 + |payload|);
      Overwritten(Overwritten(Overwritten(Overwritten(Overwritten(Overwritten(Overwritten(
        Zeros(PACKET_LEN), 28, payload), 9, [UDP]), 12, src), 16, dst), 20, [0, 68, 0, 67]), 24, ulen), 2, ulen)
      == Unfinished(payload, src, dst)
  {
    hide Be16, Overwritten;
    BlankWord();
  }

  /** The buffer after the second pass. */
  lemma SecondPass(payload: seq<byte>, src: Address, dst: Address, id: uint16, udpSum: uint16)
    requires |payload| <= MESSAGE_LEN
    ensures Overwritten(Overwritten(Overwritten(Overwritten(Overwritten(
        Unfinished(payload, src, dst), 26, Be16(udpSum)), 0, [0x45]), 4, Be16(id)), 8, [TTL]), 2, Be16(HEADERS + |payload|))
      == Assemble(payload, src, dst, id, 0, udpSum)
  {
    hide Be16, Overwritten;
    BlankWord();
  }

  lemma LastPass(payload: seq<byte>, src: Address, dst: Address, id: uint16, ipSum: uint16, udpSum: uint16)
    requires |payload| <= MESSAGE_LEN
    ensures Overwritten(Assemble(payload, src, dst, id, 0, udpSum), 10, Be16(ipSum)) == Assemble(payload, src, dst, id, ipSum, udpSum)
  {
    hide Be16, Overwritten;
  }

  /** dhcp_makeudppacket: the UDP checksum is taken half way, before the IP header is completed. */
  method MakeUdpPacket(payload: seq<byte>, source: Address, dest: Address, id: uint16) returns (b: array<byte>, len: nat)
    requires |payload| <= MESSAGE_LEN
    ensures fresh(b) && b[..] == Make(payload, source, dest, id)
    ensures len == HEADERS + |payload|
  {
    hide Be16, Overwritten, Sum, Assemble, Unfinished;
    b := new byte[PACKET_LEN](_ => 0);
    assert b[..] == Zeros(PACKET_LEN);
    var dst := if dest == ANY then BROADCAST else dest;
    var ulen := Be16(8 + |payload|);
    Store(b, 28, payload);
    Store(b, 9, [UDP]);
    Store(b, 12, source);
    Store(b, 16, dst);
    Store(b, 20, [0, 68, 0, 67]);
    Store(b, 24, ulen);
    Store(b, 2, ulen);
    FirstPass(payload, source, dst);
    var udpSum := Compute(b[..]);
    Store(b, 26, Be16(udpSum));
    Store(b, 0, [0x45]);
    Store(b, 4, Be16(id));
    Store(b, 8, [TTL]);
    Store(b, 2, Be16(HEADERS + |payload|));
    SecondPass(payload, source, dst, id, udpSum);
    Fields(payload, source, dst, id, 0, udpSum);
    var ipSum := Compute(b[..][..IP_LEN]);
    Store(b, 10, Be16(ipSum));
    LastPass(payload, source, dst, id, ipSum, udpSum);
    len := HEADERS + |payload|;
  }

  lemma BlankedInPlace(p: seq<byte>)
    requires |p| == PACKET_LEN
    ensures Overwritten(Overwritten(Overwritten(Overwritten(Overwritten(
      p, 26, [0, 0]), 0, [0, 0]), 2, p[24..26]), 4, [0, 0, 0, 0, 0]), 10, [0, 0]) == Blanked(p)
  {
    hide Overwritten;
  }

  /** valid_udp_packet on its local copy p of the packet, which it blanks before summing. */
  method ValidUdpPacket(data: seq<byte>, p: array<byte>, noUdpSum: bool) returns (v: Verdict)
    requires p.Length == PACKET_LEN
    modifies p
    ensures v == Check(data, old(p[..]), noUdpSum)
  {
    hide Overwritten, Sum, Blanked;
    if |data| < IP_LEN {
      return Verdict(false, ANY);
    }
    ghost var junk := p[..];
    Store(p, 0, data[..Min(|data|, PACKET_LEN)]);
    var from := p[12..16];
    if |data| > PACKET_LEN {
      assert from == data[12..16];
      return Verdict(false, from);
    }
    assert p[..] == data + junk[|data|..];
    ghost var q := p[..];
    var headerSum := Compute(p[..][..IP_LEN]);
    if headerSum != 0 {
      return Verdict(false, from);
    }
    var bytes := Word(p[2], p[3]);
    if |data| < bytes {
      return Verdict(false, from);
    }
    if !noUdpSum {
      var udpSum := Word(p[26], p[27]);
      Store(p, 26, [0, 0]);
      Store(p, 0, [0, 0]);
      assert p[24..26] == q[24..26];
      Store(p, 2, p[24..26]);
      Store(p, 4, [0, 0, 0, 0, 0]);
      Store(p, 10, [0, 0]);
      BlankedInPlace(q);
      var sum := Compute(p[..][..bytes]);
      if udpSum != 0 && sum != udpSum {
        return Verdict(false, from);
      }
    }
    v := Verdict(true, from);
  }
}
