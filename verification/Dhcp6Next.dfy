/**
 The message after a reply: dhcp6_findia takes an address under whatever IAID the reply gives it, and
 dhcp6_makemessage then measures every live address but writes only those of configured IAs.
 */
module Dhcp6Next {
  import opened Common
  import opened Dhcp6Wire
  import opened Dhcp6Lease
  import opened Dhcp6Message
  import opened Dhcp6ReadBack
  import opened Dhcp6Echo
  import H = Hostname

  lemma {:induction false} SurvivorsAre(hs: seq<Held>, xs: seq<Item>, h: Held)
    ensures h in Survivors(hs, xs) <==>
      exists g :: g in hs && ItemFor(xs, g.key).Some? && h == Refreshed(g, ItemFor(xs, g.key).value)
  {
    hide ItemFor, Refreshed;
    if hs != [] {
      SurvivorsAre(hs[1..], xs, h);
      assert hs == [hs[0]] + hs[1..] && hs[0] in hs;
    }
  }

  /** Newcomers carry the IAID of their item. */
  lemma {:induction false} NewcomersFrom(hs: seq<Held>, xs: seq<Item>, ids: nat)
    ensures forall h :: h in Newcomers(hs, xs, ids) ==>
      exists x :: x in xs && IndexOf(hs, x.key) == |hs| && h.iaid == x.iaid && h.vltime == x.vltime
    ensures forall x :: x in xs && IndexOf(hs, x.key) == |hs| ==>
      exists h :: h in Newcomers(hs, xs, ids) && h.iaid == x.iaid && h.vltime == x.vltime
  {
    hide IndexOf;
    if xs != [] {
      assert xs == [xs[0]] + xs[1..] && xs[0] in xs;
      if IndexOf(hs, xs[0].key) < |hs| {
        NewcomersFrom(hs, xs[1..], ids);
      } else {
        var rest := Newcomers(hs, xs[1..], ids + 1);
        NewcomersFrom(hs, xs[1..], ids + 1);
        assert Newcomers(hs, xs, ids) == [Fresh(ids, xs[0])] + rest;
        assert Fresh(ids, xs[0]) in Newcomers(hs, xs, ids);
      }
    }
  }

  /** Every live address under a configured IAID. */
  predicate Homed(addrs: seq<Held>, ias: seq<seq<byte>>) {
    forall h :: h in addrs && h.vltime != 0 ==> h.iaid in ias
  }

  /** Addresses the reply brings new are under configured IAIDs. */
  predicate NewHomed(hs: seq<Held>, xs: seq<Item>, ias: seq<seq<byte>>) {
    forall x :: x in xs && x.vltime != 0 && IndexOf(hs, x.key) == |hs| ==> x.iaid in ias
  }

  /** So are the held ones it keeps alive, under the IAID they were first given. */
  predicate KeptHomed(hs: seq<Held>, xs: seq<Item>, ias: seq<seq<byte>>) {
    forall h :: h in hs && ItemFor(xs, h.key).Some? && ItemFor(xs, h.key).value.vltime != 0 ==> h.iaid in ias
  }

  lemma ReconciledHomed(hs: seq<Held>, xs: seq<Item>, ids: nat, ias: seq<seq<byte>>)
    ensures Homed(Survivors(hs, xs) + Newcomers(hs, xs, ids), ias) <==> NewHomed(hs, xs, ias) && KeptHomed(hs, xs, ias)
  {
    hide Survivors, Newcomers, IndexOf, ItemFor;
    var s, n := Survivors(hs, xs), Newcomers(hs, xs, ids);
    NewcomersFrom(hs, xs, ids);
    if Homed(s + n, ias) {
      forall x | x in xs && x.vltime != 0 && IndexOf(hs, x.key) == |hs| ensures x.iaid in ias {
        var h :| h in n && h.iaid == x.iaid && h.vltime == x.vltime;
        assert h in s + n;
      }
      forall g | g in hs && ItemFor(xs, g.key).Some? && ItemFor(xs, g.key).value.vltime != 0 ensures g.iaid in ias {
        var h := Refreshed(g, ItemFor(xs, g.key).value);
        SurvivorsAre(hs, xs, h);
        assert h in s + n;
      }
    }
    if NewHomed(hs, xs, ias) && KeptHomed(hs, xs, ias) {
      forall h: Held | h in s + n && h.vltime != 0 ensures h.iaid in ias {
        if h in s {
          SurvivorsAre(hs, xs, h);
        }
      }
    }
  }

  /** After an accepted reply with each address once, the next message that carries the addresses never
      exceeds its measured length, and fills it if and only if every live address the reply brought or
      kept is under a configured IAID; otherwise it is sent with a tail that was never written. */
  lemma NextMessageIff(l: Lease, cfg: Config, s: Session, auth: seq<byte>, b: seq<byte>)
    requires DistinctHeld(l.addrs) && DistinctKeys(ReplyItems(cfg.kind, b)) && FindIa(l, cfg.kind, b).Done?
    requires s.addrs == FindIa(l, cfg.kind, b).l.addrs && CountsAddresses(s.phase)
    requires Sized(cfg, s.addrs) && VendorFits(cfg.vendor) && |auth| == s.authLen
    requires !(SendsName(cfg, s) && H.Stops(NameOf(cfg), 0)) && DistinctIas(cfg.ias)
    ensures var xs := ReplyItems(cfg.kind, b);
      && Written(cfg, s, auth) <= Measured(cfg, s)
      && (Written(cfg, s, auth) == Measured(cfg, s) <==> NewHomed(l.addrs, xs, cfg.ias) && KeptHomed(l.addrs, xs, cfg.ias))
  {
    hide Written, Measured, FindIa, ReplyItems, DistinctHeld, DistinctKeys, DistinctIas, H.Stops, NewHomed, KeptHomed, Survivors, Newcomers, Sized;
    Reconciled(l, cfg.kind, b);
    ReconciledHomed(l.addrs, ReplyItems(cfg.kind, b), l.ids, cfg.ias);
    MeasuredIffAddresses(cfg, s, auth);
  }

  /** The reply that gives one address under this IAID. */
  function OneAddress(kind: uint16, h: Held): (b: seq<byte>)
    requires |h.key| == 16 && |h.iaid| == 4 && h.vltime != 0
  {
    OneFits(kind, h);
    EncodedAll([IaOption(kind, h.iaid, [h])])
  }

  lemma OneFits(kind: uint16, h: Held)
    requires |h.key| == 16 && |h.iaid| == 4 && h.vltime != 0
    ensures Encodable([IaOption(kind, h.iaid, [h])]) && Members(h.iaid, [h]) == [h]
    ensures |IaOption(kind, h.iaid, [h]).data| < U16_LIMIT && IaOption(kind, h.iaid, [h]).data != []
  {
    hide IaOption;
    assert [h][1..] == [];
    assert Members(h.iaid, []) == [];
    IaLength(kind, h.iaid, [h]);
  }

  lemma OneRead(kind: uint16, h: Held)
    requires |h.key| == 16 && |h.iaid| == 4 && h.vltime != 0
    ensures AllIas(kind, FindAll(OneAddress(kind, h), kind, 0)) == [Ia(0, 0, true, [AsItem(kind, h)])]
  {
    hide IaOption, EncodedAll, FindAll, ReadIa, Members, AsItem;
    OneFits(kind, h);
    var o := IaOption(kind, h.iaid, [h]);
    IaCode(kind, h.iaid, [h]);
    FindAllEncoded([o], kind);
    assert [o][1..] == [] && DataOf([], kind) == [];
    assert DataOf([o], kind) == [o.data];
    IaReadsBack(kind, h.iaid, [h]);
    assert [h][1..] == [] && AsItems(kind, []) == [];
    assert AsItems(kind, [h]) == [AsItem(kind, h)];
    assert [o.data][1..] == [] && AllIas(kind, []) == [];
  }

  /** Any reply with one live address under an IAID that is not configured, taken by a client that holds
      none, is accepted and makes the next message shorter than its measured length. */
  lemma UnconfiguredIaid(l: Lease, cfg: Config, s: Session, auth: seq<byte>, h: Held)
    requires |h.key| == 16 && |h.iaid| == 4 && h.vltime != 0 && h.iaid !in cfg.ias && l.addrs == []
    requires CountsAddresses(s.phase) && s.addrs == FindIa(l, cfg.kind, OneAddress(cfg.kind, h)).l.addrs
    requires Sized(cfg, s.addrs) && VendorFits(cfg.vendor) && |auth| == s.authLen
    requires !(SendsName(cfg, s) && H.Stops(NameOf(cfg), 0)) && DistinctIas(cfg.ias)
    ensures FindIa(l, cfg.kind, OneAddress(cfg.kind, h)).Done?
    ensures Written(cfg, s, auth) < Measured(cfg, s)
  {
    hide Written, Measured, TakeIas, AllIas, FindAll, DistinctIas, H.Stops, Sized, OneAddress;
    var b, x := OneAddress(cfg.kind, h), AsItem(cfg.kind, h);
    OneRead(cfg.kind, h);
    AcceptedIfGood(l.(addrs := Marked(l.addrs)), cfg.kind, FindAll(b, cfg.kind, 0), 0);
    assert [Ia(0, 0, true, [x])][1..] == [] && AllItems([]) == [];
    assert [x] + [] == [x];
    assert ReplyItems(cfg.kind, b) == [x];
    NextMessageIff(l, cfg, s, auth, b);
    assert x in [x] && IndexOf(l.addrs, x.key) == |l.addrs|;
  }

  /** While soliciting the client holds nothing, dhcp6_startdiscover having freed it: the passes agree. */
  lemma SolicitsAgree(cfg: Config, s: Session, auth: seq<byte>)
    requires s.phase in {Init, Discover} && s.addrs == []
    requires Sized(cfg, s.addrs) && VendorFits(cfg.vendor) && |auth| == s.authLen
    requires !(SendsName(cfg, s) && H.Stops(NameOf(cfg), 0)) && DistinctIas(cfg.ias)
    ensures Written(cfg, s, auth) == Measured(cfg, s)
  {
    hide Written, Measured, DistinctIas, H.Stops, Sized;
    MeasuredIffAddresses(cfg, s, auth);
  }
}
