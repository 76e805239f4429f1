/**
 Address probing (arp_start and arp_probe in dhcpcd/arp.c): three probes for each address to search
 for, in order, and three for an address about to be used.
 */
module Arp {
  import opened Common

  const PROBE_NUM := 3
  const PROBE_MIN := 1_000_000
  const PROBE_MAX := 2_000_000
  const ANNOUNCE_WAIT := 2_000_000

  /** The offer on the table, if any, as its your-address and client-address fields. */
  datatype Offer = Offer(yiaddr: uint32, ciaddr: uint32)

  /** The configured addresses to search for, the offer, and the address in use. */
  datatype Config = Config(arping: seq<uint32>, offer: Option<Offer>, addr: uint32)

  datatype Counters = Counters(probes: nat, index: nat)

  /** A probe that was sent, and after how many microseconds which callback runs. */
  datatype Sent = Sent(target: uint32, delay: nat, next: Callback)

  function OwnTarget(c: Config): uint32 {
    if c.offer == None then c.addr
    else if c.offer.value.yiaddr != 0 then c.offer.value.yiaddr else c.offer.value.ciaddr
  }

  /** arp_probe. */
  function Probe(c: Config, s: Counters, rnd: uint32): (Counters, Sent) {
    var arping := s.index < |c.arping|;
    var target := if arping then c.arping[s.index] else OwnTarget(c);
    if s.probes + 1 < PROBE_NUM then
      (s.(probes := s.probes + 1), Sent(target, PROBE_MIN + rnd % (PROBE_MAX - PROBE_MIN), ArpProbe))
    else if arping then
      (Counters(0, s.index + 1),
       Sent(target, ANNOUNCE_WAIT, if s.index + 1 < |c.arping| then ArpProbe else StartInterface))
    else (s.(probes := s.probes + 1), Sent(target, ANNOUNCE_WAIT, DhcpBind))
  }

  function Left(c: Config, s: Counters): nat {
    Max(0, (PROBE_NUM + 1) * (|c.arping| - s.index)) + Max(0, PROBE_NUM - s.probes)
  }

  /** All probes sent until a callback other than arp_probe is due. */
  function Probing(c: Config, s: Counters, rnd: nat -> uint32, n: nat): (r: seq<Sent>)
    ensures r != [] && r[|r| - 1].next != ArpProbe
    ensures forall i :: 0 <= i < |r| - 1 ==> r[i].next == ArpProbe
    decreases Left(c, s)
  {
    var (s1, x) := Probe(c, s, rnd(n));
    if x.next == ArpProbe then [x] + Probing(c, s1, rnd, n + 1) else [x]
  }

  function Targets(xs: seq<Sent>): (r: seq<uint32>)
    ensures |r| == |xs|
  {
    if xs == [] then [] else [xs[0].target] + Targets(xs[1..])
  }

  function Thrice(a: uint32): seq<uint32> {
    [a, a, a]
  }

  function EachThrice(addrs: seq<uint32>): seq<uint32> {
    if addrs == [] then [] else Thrice(addrs[0]) + EachThrice(addrs[1..])
  }

  /** The three probes of one address, which never overlap: one to two seconds between them. */
  lemma ThreeProbes(c: Config, i: nat, rnd: nat -> uint32, n: nat)
    ensures var (s1, x1) := Probe(c, Counters(0, i), rnd(n)); var (s2, x2) := Probe(c, s1, rnd(n + 1));
      var (s3, x3) := Probe(c, s2, rnd(n + 2)); var a := if i < |c.arping| then c.arping[i] else OwnTarget(c);
      && x1.target == a && x2.target == a && x3.target == a
      && x1.next == ArpProbe && x2.next == ArpProbe
      && PROBE_MIN <= x1.delay < PROBE_MAX && PROBE_MIN <= x2.delay < PROBE_MAX && x3.delay == ANNOUNCE_WAIT
      && x3.next == (if i >= |c.arping| then DhcpBind else if i + 1 < |c.arping| then ArpProbe else StartInterface)
      && (i < |c.arping| ==> s3 == Counters(0, i + 1))
      && var rest := if x3.next == ArpProbe then Probing(c, s3, rnd, n + 3) else [];
         Probing(c, Counters(0, i), rnd, n) == [x1] + ([x2] + ([x3] + rest))
  {
    var (s1, x1) := Probe(c, Counters(0, i), rnd(n));
    var (s2, x2) := Probe(c, s1, rnd(n + 1));
    var (s3, x3) := Probe(c, s2, rnd(n + 2));
    assert Probing(c, s2, rnd, n + 2) == [x3] + if x3.next == ArpProbe then Probing(c, s3, rnd, n + 3) else [];
    assert Probing(c, s1, rnd, n + 1) == [x2] + Probing(c, s2, rnd, n + 2);
  }

  lemma TargetsCons(x: Sent, xs: seq<Sent>)
    ensures Targets([x] + xs) == [x.target] + Targets(xs)
  {
    assert ([x] + xs)[1..] == xs;
  }

  /** From some address of the list on. */
  lemma {:induction false} SearchesFrom(c: Config, i: nat, rnd: nat -> uint32, n: nat)
    requires i < |c.arping|
    ensures var r := Probing(c, Counters(0, i), rnd, n);
      Targets(r) == EachThrice(c.arping[i..]) && r[|r| - 1].next == StartInterface
    decreases |c.arping| - i
  {
    hide Probe, Probing;
    ThreeProbes(c, i, rnd, n);
    var (s1, x1) := Probe(c, Counters(0, i), rnd(n));
    var (s2, x2) := Probe(c, s1, rnd(n + 1));
    var (s3, x3) := Probe(c, s2, rnd(n + 2));
    var rest := if x3.next == ArpProbe then Probing(c, s3, rnd, n + 3) else [];
    var a := c.arping[i];
    TargetsCons(x3, rest);
    TargetsCons(x2, [x3] + rest);
    TargetsCons(x1, [x2] + ([x3] + rest));
    assert c.arping[i..][1..] == c.arping[i + 1..];
    assert [a] + ([a] + ([a] + Targets(rest))) == Thrice(a) + Targets(rest);
    if i + 1 < |c.arping| {
      SearchesFrom(c, i + 1, rnd, n + 3);
    } else {
      assert c.arping[i + 1..] == [];
    }
  }

  /** Started with addresses to search for, and undisturbed, the client sends exactly three probes for
      each in the order of the list and then starts the interface. */
  lemma SearchesInOrder(c: Config, rnd: nat -> uint32)
    requires c.arping != []
    ensures var r := Probing(c, Counters(0, 0), rnd, 0);
      Targets(r) == EachThrice(c.arping) && r[|r| - 1].next == StartInterface
  {
    hide Probing;
    SearchesFrom(c, 0, rnd, 0);
    assert c.arping[0..] == c.arping;
  }

  /** With the list done, or empty, it sends exactly three for the offered address and then binds. */
  lemma ProbesOffer(c: Config, i: nat, rnd: nat -> uint32, n: nat)
    requires i >= |c.arping|
    ensures var r := Probing(c, Counters(0, i), rnd, n);
      Targets(r) == Thrice(OwnTarget(c)) && r[|r| - 1].next == DhcpBind
  {
    hide Probe, Probing;
    ThreeProbes(c, i, rnd, n);
    var (s1, x1) := Probe(c, Counters(0, i), rnd(n));
    var (s2, x2) := Probe(c, s1, rnd(n + 1));
    var (s3, x3) := Probe(c, s2, rnd(n + 2));
    TargetsCons(x3, []);
    TargetsCons(x2, [x3] + []);
    TargetsCons(x1, [x2] + ([x3] + []));
  }

  /** The interface's own counters. */
  class Prober {
    const config: Config
    var probes: nat
    var index: nat
    var open: bool

    constructor (c: Config)
      ensures config == c && probes == 0 && index == 0 && !open
    {
      config, probes, index, open := c, 0, 0, false;
    }

    /** arp_probe; nothing happens when its socket cannot be opened. */
    method ArpProbe(canOpen: bool, rnd: uint32) returns (r: Option<Sent>)
      modifies this
      ensures open == (old(open) || canOpen)
      ensures !open ==> r == None && probes == old(probes) && index == old(index)
      ensures open ==> r.Some? && (Counters(probes, index), r.value) == Probe(config, old(Counters(probes, index)), rnd)
    {
      if !open {
        if !canOpen {
          return None;
        }
        open := true;
      }
      var arping := index < |config.arping|;
      var target := if arping then config.arping[index] else OwnTarget(config);
      probes := probes + 1;
      var delay, next := ANNOUNCE_WAIT, Callback.ArpProbe;
      if probes < PROBE_NUM {
        delay := PROBE_MIN + rnd % (PROBE_MAX - PROBE_MIN);
      } else if arping {
        probes := 0;
        index := index + 1;
        if index >= |config.arping| {
          next := StartInterface;
        }
      } else {
        next := DhcpBind;
      }
      r := Some(Sent(target, delay, next));
    }

    /** arp_start. */
    method ArpStart(canOpen: bool, rnd: uint32) returns (r: Option<Sent>)
      modifies this
      ensures open == (old(open) || canOpen)
      ensures !open ==> r == None && probes == 0 && index == 0
      ensures open ==> r.Some? && (Counters(probes, index), r.value) == Probe(config, Counters(0, 0), rnd)
    {
      probes, index := 0, 0;
      r := ArpProbe(canOpen, rnd);
    }
  }
}
