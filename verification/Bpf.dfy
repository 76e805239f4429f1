/**
 The packet filters of dhcpcd/bpf-filter.h as programs for a small interpreter of the BSD packet
 filter machine, in which a load outside the packet rejects it.
 */
module Bpf {
  import opened Common

  /** The instructions the two filters use; jumps count from the next instruction. */
  datatype Insn =
    | LdHalf(k: nat)
    | LdByte(k: nat)
    | LdHalfInd(k: nat)
    | LdxMsh(k: nat)
    | Jeq(k: nat, jt: nat, jf: nat)
    | Jset(k: nat, jt: nat, jf: nat)
    | Ret(k: nat)

  const WHOLE_PACKET := 0xffff_ffff

  /** Bitwise and. */
  function And(a: nat, b: nat): nat {
    if a == 0 || b == 0 then 0 else 2 * And(a / 2, b / 2) + (a % 2) * (b % 2)
  }

  lemma AndBit(a: nat, b: nat)
    ensures And(a, 2 * b + 1) == 2 * And(a / 2, b) + a % 2
    ensures And(a, 0) == 0
  {
    assert (2 * b + 1) / 2 == b && (2 * b + 1) % 2 == 1;
  }

  /** A mask that ends in four ones keeps the last hexadecimal digit. */
  lemma AndDigit(a: nat, b: nat)
    ensures And(a, 16 * b + 15) == 16 * And(a / 16, b) + a % 16
  {
    hide And;
    AndBit(a, 8 * b + 7);
    AndBit(a / 2, 4 * b + 3);
    AndBit(a / 4, 2 * b + 1);
    AndBit(a / 8, b);
    assert a / 2 / 2 == a / 4 && a / 4 / 2 == a / 8 && a / 8 / 2 == a / 16;
    assert a % 16 == a % 2 + 2 * (a / 2 % 2) + 4 * (a / 4 % 2) + 8 * (a / 8 % 2);
  }

  /** The two masks the filters use take remainders. */
  lemma Masks(a: nat)
    ensures And(a, 0x1fff) == a % 0x2000 && And(a, 15) == a % 16
  {
    hide And;
    AndBit(a, 0);
    AndDigit(a, 0);
    AndBit(a / 16, 0);
    AndDigit(a, 0x1ff);
    AndDigit(a / 16, 0x1f);
    AndDigit(a / 256, 1);
    AndBit(a / 4096, 0);
    AndBit(a / 8192, 0);
    assert a / 16 / 16 == a / 256 && a / 256 / 16 == a / 4096 && a / 4096 / 2 == a / 8192;
    assert a % 0x2000 == a % 16 + 16 * (a / 16 % 16) + 256 * (a / 256 % 16) + 4096 * (a / 4096 % 2);
  }

  function Half(p: seq<byte>, i: nat): Option<nat> {
    if i + 2 <= |p| then Some(Word(p[i], p[i + 1])) else None
  }

  /** The machine from instruction pc on, with accumulator a and index x. */
  function Exec(prog: seq<Insn>, pc: nat, a: nat, x: nat, p: seq<byte>): nat
    decreases |prog| - pc
  {
    if pc >= |prog| then 0
    else match prog[pc]
      case LdHalf(k) => (var v := Half(p, k); if v == None then 0 else Exec(prog, pc + 1, v.value, x, p))
      case LdByte(k) => if k < |p| then Exec(prog, pc + 1, p[k], x, p) else 0
      case LdHalfInd(k) => (var v := Half(p, x + k); if v == None then 0 else Exec(prog, pc + 1, v.value, x, p))
      case LdxMsh(k) => if k < |p| then Exec(prog, pc + 1, a, 4 * And(p[k], 15), p) else 0
      case Jeq(k, jt, jf) => Exec(prog, pc + 1 + (if a == k then jt else jf), a, x, p)
      case Jset(k, jt, jf) => Exec(prog, pc + 1 + (if And(a, k) != 0 then jt else jf), a, x, p)
      case Ret(k) => k
  }

  predicate Accepts(prog: seq<Insn>, p: seq<byte>) {
    Exec(prog, 0, 0, 0, p) != 0
  }

  const ETHERTYPE_IP := 0x0800
  const ETHERTYPE_ARP := 0x0806
  const ETHER_HEADER := 14

  /** arp_bpf_filter for whole frames, and without the type test for packets whose frame header the
      system has taken off. */
  const ARP_TYPE: seq<Insn> := [LdHalf(12), Jeq(ETHERTYPE_ARP, 0, 3)]

  function ArpTests(cook: nat): seq<Insn>
    requires cook <= 20
  {
    [LdHalf(20 - cook), Jeq(1, 2, 0), LdHalf(20 - cook), Jeq(2, 0, 1), Ret(WHOLE_PACKET), Ret(0)]
  }

  const ARP_FILTER := ARP_TYPE + ArpTests(0)
  const ARP_COOKED := ArpTests(ETHER_HEADER)

  /** dhcp_bpf_filter, likewise. */
  const DHCP_TYPE: seq<Insn> := [LdHalf(12), Jeq(ETHERTYPE_IP, 0, 8)]

  function DhcpTests(cook: nat): seq<Insn>
    requires cook <= 14
  {
    [LdByte(23 - cook), Jeq(17, 0, 6), LdHalf(20 - cook), Jset(0x1fff, 4, 0), LdxMsh(14 - cook),
     LdHalfInd(16 - cook), Jeq(68, 0, 1), Ret(WHOLE_PACKET), Ret(0)]
  }

  const DHCP_FILTER := DHCP_TYPE + DhcpTests(0)
  const DHCP_COOKED := DhcpTests(ETHER_HEADER)

  // ----- the DHCP filter

  /** A UDP packet to port 68 that is not a later fragment; `at` is where its IPv4 header begins. */
  predicate UdpToClient(p: seq<byte>, at: nat) {
    && at + 10 <= |p| && p[at + 9] == 17
    && Word(p[at + 6], p[at + 7]) % 0x2000 == 0
    && var h := 4 * (p[at] % 16);
       at + h + 4 <= |p| && Word(p[at + h + 2], p[at + h + 3]) == 68
  }

  /** From the first of the tests on, wherever they stand in the program. */
  lemma DhcpTestsDecide(prog: seq<Insn>, pc: nat, cook: nat, a: nat, p: seq<byte>)
    requires cook <= 14 && pc + 9 == |prog| && prog[pc..] == DhcpTests(cook)
    ensures Exec(prog, pc, a, 0, p) != 0 <==> UdpToClient(p, 14 - cook)
  {
    hide And, Word;
    var at := 14 - cook;
    assert forall i :: 0 <= i < 9 ==> prog[pc + i] == DhcpTests(cook)[i];
    if at + 10 <= |p| {
      DhcpLast(prog, pc, cook, Word(p[at + 6], p[at + 7]), p);
      assert Exec(prog, pc + 8, p[at + 9], 0, p) == 0;
      assert Exec(prog, pc + 1, p[at + 9], 0, p) == if p[at + 9] == 17 then Exec(prog, pc + 2, p[at + 9], 0, p) else 0;
    }
  }

  lemma DhcpLast(prog: seq<Insn>, pc: nat, cook: nat, a: nat, p: seq<byte>)
    requires cook <= 14 && pc + 9 == |prog| && prog[pc..] == DhcpTests(cook) && 14 - cook < |p|
    ensures var at := 14 - cook; var h := 4 * (p[at] % 16);
      Exec(prog, pc + 3, a, 0, p) != 0 <==>
        a % 0x2000 == 0 && at + h + 4 <= |p| && Word(p[at + h + 2], p[at + h + 3]) == 68
  {
    hide And, Word;
    var at := 14 - cook;
    var h := 4 * (p[at] % 16);
    assert forall i :: 0 <= i < 9 ==> prog[pc + i] == DhcpTests(cook)[i];
    Masks(a);
    Masks(p[at]);
    assert Exec(prog, pc + 8, a, 0, p) == 0;
    assert Exec(prog, pc + 4, a, 0, p) == Exec(prog, pc + 5, a, h, p);
    if at + h + 4 <= |p| {
      var w := Word(p[at + h + 2], p[at + h + 3]);
      assert Exec(prog, pc + 5, a, h, p) == Exec(prog, pc + 6, w, h, p);
      assert Exec(prog, pc + 7, w, h, p) == WHOLE_PACKET && Exec(prog, pc + 8, w, h, p) == 0;
    }
  }

  /** A frame is accepted exactly when it is IPv4, UDP, not a later fragment and to port 68. */
  lemma DhcpFilterAccepts(p: seq<byte>)
    ensures Accepts(DHCP_FILTER, p) <==> Half(p, 12) == Some(ETHERTYPE_IP) && UdpToClient(p, ETHER_HEADER)
  {
    hide UdpToClient;
    var prog := DHCP_FILTER;
    assert prog[2..] == DhcpTests(0);
    var v := Half(p, 12);
    if v.Some? {
      DhcpTestsDecide(prog, 2, 0, v.value, p);
      assert Exec(prog, 10, v.value, 0, p) == 0;
      assert Exec(prog, 1, v.value, 0, p) == if v.value == ETHERTYPE_IP then Exec(prog, 2, v.value, 0, p) else 0;
    }
  }

  lemma UdpToClientShift(p: seq<byte>)
    requires |p| >= ETHER_HEADER
    ensures UdpToClient(p, ETHER_HEADER) <==> UdpToClient(p[ETHER_HEADER..], 0)
  {
    var q := p[ETHER_HEADER..];
    assert forall i :: 0 <= i < |q| ==> q[i] == p[ETHER_HEADER + i];
  }

  /** The filter for packets without frame header decides the same, but for the type. */
  lemma DhcpFiltersAgree(p: seq<byte>)
    requires |p| >= ETHER_HEADER
    ensures Accepts(DHCP_FILTER, p) <==> Half(p, 12) == Some(ETHERTYPE_IP) && Accepts(DHCP_COOKED, p[ETHER_HEADER..])
  {
    hide UdpToClient, Exec;
    DhcpFilterAccepts(p);
    UdpToClientShift(p);
    assert DHCP_COOKED[0..] == DHCP_COOKED;
    DhcpTestsDecide(DHCP_COOKED, 0, ETHER_HEADER, 0, p[ETHER_HEADER..]);
  }

  // ----- the ARP filter

  /** An ARP request or reply; `at` is where the ARP packet begins. */
  predicate RequestOrReply(p: seq<byte>, at: nat) {
    var op := Half(p, at + 6);
    op == Some(1) || op == Some(2)
  }

  lemma ArpTestsDecide(prog: seq<Insn>, pc: nat, cook: nat, a: nat, p: seq<byte>)
    requires cook <= 14 && pc + 6 == |prog| && prog[pc..] == ArpTests(cook)
    ensures Exec(prog, pc, a, 0, p) != 0 <==> RequestOrReply(p, 14 - cook)
    ensures Exec(prog, pc + 3, a, 0, p) != 0 <==> a == 2
  {
    assert forall i :: 0 <= i < 6 ==> prog[pc + i] == ArpTests(cook)[i];
    assert Exec(prog, pc + 4, a, 0, p) == WHOLE_PACKET && Exec(prog, pc + 5, a, 0, p) == 0;
    var op := Half(p, 20 - cook);
    if op.Some? {
      var v := op.value;
      assert Exec(prog, pc + 4, v, 0, p) == WHOLE_PACKET && Exec(prog, pc + 5, v, 0, p) == 0;
      assert Exec(prog, pc + 3, v, 0, p) == if v == 2 then WHOLE_PACKET else 0;
      assert Exec(prog, pc + 2, v, 0, p) == Exec(prog, pc + 3, v, 0, p);
      assert Exec(prog, pc + 1, v, 0, p) == if v == 1 then WHOLE_PACKET else Exec(prog, pc + 2, v, 0, p);
    }
  }

  /** ARP requests and replies are accepted, and so is any frame whose type field is 2: when the type
      is not ARP the jump lands on the test for a reply with the type still in the accumulator. */
  lemma ArpFilterAccepts(p: seq<byte>)
    ensures Accepts(ARP_FILTER, p) <==>
      (Half(p, 12) == Some(ETHERTYPE_ARP) && RequestOrReply(p, ETHER_HEADER)) || Half(p, 12) == Some(2)
  {
    hide RequestOrReply;
    var prog := ARP_FILTER;
    assert prog[2..] == ArpTests(0);
    var v := Half(p, 12);
    if v.Some? {
      ArpTestsDecide(prog, 2, 0, v.value, p);
      assert Exec(prog, 1, v.value, 0, p) == Exec(prog, if v.value == ETHERTYPE_ARP then 2 else 5, v.value, 0, p);
    }
  }

  /** Without the type test there is no such gap: exactly requests and replies. */
  lemma ArpCookedAccepts(p: seq<byte>)
    ensures Accepts(ARP_COOKED, p) <==> RequestOrReply(p, 0)
  {
    assert ARP_COOKED[0..] == ARP_COOKED;
    ArpTestsDecide(ARP_COOKED, 0, ETHER_HEADER, 0, p);
  }
}
