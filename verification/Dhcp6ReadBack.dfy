/** Reading a message of dhcp6_makemessage back with the client's own reader. */
module Dhcp6ReadBack {
  import opened Common
  import opened Dhcp6Wire
  import opened Dhcp6Lease
  import opened Dhcp6Message

  // ----- reading back

  /** What a held entry says as an item of a reply. */
  function AsItem(kind: uint16, h: Held): Item {
    Item(h.key, if kind == IA_PD then h.plen else 128, h.pltime, h.vltime, h.iaid)
  }

  function AsItems(kind: uint16, hs: seq<Held>): seq<Item> {
    if hs == [] then [] else [AsItem(kind, hs[0])] + AsItems(kind, hs[1..])
  }

  lemma ItemReadsBack(kind: uint16, h: Held)
    requires |h.key| == 16
    ensures ItemOf(kind == IA_PD, h.iaid, SubOption(kind, h).data) == Some(AsItem(kind, h))
  {
    hide Be32, FromBe32;
    var d := SubOption(kind, h).data;
    if kind == IA_PD {
      assert d[..4] == Be32(h.pltime) && d[4..8] == Be32(h.vltime) && d[9..25] == h.key;
    } else {
      assert d[..16] == h.key && d[16..20] == Be32(h.pltime) && d[20..24] == Be32(h.vltime);
    }
  }

  lemma {:induction false} ItemsReadBack(kind: uint16, iaid: seq<byte>, hs: seq<Held>)
    requires forall i :: 0 <= i < |hs| ==> |hs[i].key| == 16 && hs[i].iaid == iaid
    ensures ItemsOf(kind == IA_PD, iaid, DataOf(Subs(kind, hs), if kind == IA_PD then IA_PREFIX else IA_ADDR)) == AsItems(kind, hs)
  {
    hide ItemOf, AsItem;
    if hs != [] {
      var code: uint16 := if kind == IA_PD then IA_PREFIX else IA_ADDR;
      assert Subs(kind, hs)[1..] == Subs(kind, hs[1..]);
      ItemsReadBack(kind, iaid, hs[1..]);
      ItemReadsBack(kind, hs[0]);
      ItemsStep(kind == IA_PD, iaid, Subs(kind, hs)[0].data, DataOf(Subs(kind, hs[1..]), code));
    }
  }

  lemma {:induction false} OtherCodesAbsent(os: seq<Opt>, code: uint16)
    requires forall i :: 0 <= i < |os| ==> os[i].code != code
    ensures DataOf(os, code) == []
  {
    if os != [] {
      OtherCodesAbsent(os[1..], code);
    }
  }

  lemma {:induction false} DataOfAppend(a: seq<Opt>, b: seq<Opt>, code: uint16)
    ensures DataOf(a + b, code) == DataOf(a, code) + DataOf(b, code)
  {
    if a == [] {
      assert a + b == b;
    } else {
      assert (a + b)[1..] == a[1..] + b;
      DataOfAppend(a[1..], b, code);
    }
  }

  /** What the reader sees of an IA behind its id: for a temporary one, which has no times to read,
      the eight zero bytes pass as two empty options. */
  function Seen(kind: uint16, hs: seq<Held>): seq<Opt> {
    (if kind == IA_TA then [Opt(0, []), Opt(0, [])] else []) + Subs(kind, hs)
  }

  lemma SeenBytes(kind: uint16, iaid: seq<byte>, hs: seq<Held>)
    requires |iaid| == 4 && forall i :: 0 <= i < |hs| ==> |hs[i].key| == 16
    ensures Encodable(Seen(kind, hs))
    ensures IaData(kind, iaid, hs)[if kind == IA_TA then 4 else 12..] == EncodedAll(Seen(kind, hs))
  {
    hide EncodedAll, Subs, Be16, Zeros;
    SubsFit(kind, hs);
    var e := EncodedAll(Subs(kind, hs));
    if kind == IA_TA {
      var z := Opt(0, []);
      EncodedAllAppend([z, z], Subs(kind, hs));
      TwoEmpty(z);
      DropThrough(iaid, Zeros(8), e);
    } else {
      assert Seen(kind, hs) == Subs(kind, hs);
      DropThrough(iaid + Zeros(8), [], e);
      assert iaid + Zeros(8) + [] + e == iaid + Zeros(8) + e;
      assert [] + e == e;
    }
  }

  lemma DropThrough(a: seq<byte>, b: seq<byte>, c: seq<byte>)
    ensures (a + b + c)[|a|..] == b + c
  {
  }

  lemma TwoEmpty(z: Opt)
    requires z == Opt(0, [])
    ensures EncodedAll([z, z]) == Zeros(8)
  {
    hide Be16, Word;
    BlankWord();
    assert [z, z][1..] == [z] && [z][1..] == [];
    assert EncodedAll([]) == [];
    assert EncodedAll([z]) == Encoded(z) + EncodedAll([]);
  }

  lemma NoStatus(kind: uint16, hs: seq<Held>)
    requires forall i :: 0 <= i < |hs| ==> |hs[i].key| == 16
    requires Encodable(Seen(kind, hs))
    ensures StatusOk(EncodedAll(Seen(kind, hs)))
  {
    hide EncodedAll, Subs, Find, FindAll, DataOf;
    var os := Seen(kind, hs);
    CodesSeen(kind, hs);
    FindAllEncoded(os, STATUS_CODE);
    OtherCodesAbsent(os, STATUS_CODE);
    FindAllOnce(EncodedAll(os), STATUS_CODE, 0);
  }

  lemma CodesSeen(kind: uint16, hs: seq<Held>)
    requires forall i :: 0 <= i < |hs| ==> |hs[i].key| == 16
    ensures forall o :: o in Seen(kind, hs) ==>
      (o.code == 0 || o.code == (if kind == IA_PD then IA_PREFIX else IA_ADDR)) && (o.code != 0 ==> o.data != [])
  {
  }

  lemma {:induction false} MembersBelong(iaid: seq<byte>, addrs: seq<Held>)
    requires forall i :: 0 <= i < |addrs| ==> |addrs[i].key| == 16
    ensures forall h :: h in Members(iaid, addrs) ==> |h.key| == 16 && h.iaid == iaid
  {
    if addrs != [] {
      MembersBelong(iaid, addrs[1..]);
    }
  }

  /** The reader finds in an IA the client wrote exactly the addresses that belong to it. */
  lemma IaReadsBack(kind: uint16, iaid: seq<byte>, addrs: seq<Held>)
    requires |iaid| == 4 && forall i :: 0 <= i < |addrs| ==> |addrs[i].key| == 16
    ensures ReadIa(kind, IaOption(kind, iaid, addrs).data) == Some(Ia(0, 0, true, AsItems(kind, Members(iaid, addrs))))
  {
    hide EncodedAll, Subs, Find, FindAll, DataOf, ItemsOf, AsItems, Members, StatusOk, FromBe32;
    var hs := Members(iaid, addrs);
    var d := IaOption(kind, iaid, addrs).data;
    var code: uint16 := if kind == IA_PD then IA_PREFIX else IA_ADDR;
    MembersBelong(iaid, addrs);
    SeenBytes(kind, iaid, hs);
    NoStatus(kind, hs);
    CodesSeen(kind, hs);
    FindAllEncoded(Seen(kind, hs), code);
    DataOfSeen(kind, hs, code);
    ItemsReadBack(kind, iaid, hs);
    assert d[..4] == iaid;
    if kind != IA_TA {
      assert d[4..8] == Zeros(4) && d[8..12] == Zeros(4);
      ZeroTime();
    }
  }

  lemma ZeroTime()
    ensures FromBe32(Zeros(4)) == 0
  {
  }

  lemma DataOfSeen(kind: uint16, hs: seq<Held>, code: uint16)
    requires code != 0
    ensures DataOf(Seen(kind, hs), code) == DataOf(Subs(kind, hs), code)
  {
    hide Subs;
    var zs := if kind == IA_TA then [Opt(0, []), Opt(0, [])] else [];
    DataOfAppend(zs, Subs(kind, hs), code);
    OtherCodesAbsent(zs, code);
  }

  /** The addresses of every IA, as the reader reports them. */
  function Reported(kind: uint16, ias: seq<seq<byte>>, addrs: seq<Held>): seq<Ia> {
    if ias == [] then []
    else [Ia(0, 0, true, AsItems(kind, Members(ias[0], addrs)))] + Reported(kind, ias[1..], addrs)
  }

  lemma {:induction false} IasReadBack(kind: uint16, ias: seq<seq<byte>>, addrs: seq<Held>)
    requires forall i :: 0 <= i < |ias| ==> |ias[i]| == 4
    requires forall i :: 0 <= i < |addrs| ==> |addrs[i].key| == 16
    ensures AllIas(kind, DataOf(IaOptions(kind, ias, addrs), kind)) == Reported(kind, ias, addrs)
  {
    hide IaOption, ReadIa, AsItems, Members;
    if ias != [] {
      var o, rest := IaOption(kind, ias[0], addrs), IaOptions(kind, ias[1..], addrs);
      IaReadsBack(kind, ias[0], addrs);
      IasReadBack(kind, ias[1..], addrs);
      assert IaOptions(kind, ias, addrs)[1..] == rest;
      IaCode(kind, ias[0], addrs);
      assert ([o.data] + DataOf(rest, kind))[1..] == DataOf(rest, kind);
    }
  }

  lemma IaCode(kind: uint16, iaid: seq<byte>, addrs: seq<Held>)
    requires forall i :: 0 <= i < |addrs| ==> |addrs[i].key| == 16
    ensures IaOption(kind, iaid, addrs).code == kind && |IaOption(kind, iaid, addrs).data| >= 8
  {
    hide EncodedAll;
  }

  lemma {:induction false} IaCodes(kind: uint16, ias: seq<seq<byte>>, addrs: seq<Held>)
    requires forall i :: 0 <= i < |addrs| ==> |addrs[i].key| == 16
    ensures forall o :: o in IaOptions(kind, ias, addrs) ==> o.code == kind && o.data != []
  {
    hide IaOption;
    if ias != [] {
      IaCodes(kind, ias[1..], addrs);
      IaCode(kind, ias[0], addrs);
    }
  }

  /** Options other than IAs. */
  ghost predicate NoIa(os: seq<Opt>) {
    forall i :: 0 <= i < |os| ==> os[i].code !in {IA_NA, IA_TA, IA_PD}
  }

  lemma OthersAreNoIa(cfg: Config, s: Session, auth: seq<byte>)
    ensures NoIa(Front(cfg, s)) && NoIa(Requests(cfg, s)) && NoIa(Trailer(auth))
  {
    hide ServerId, VendorData, FqdnData, WantedCodes, WantedCount;
  }

  lemma IasAmongOptions(cfg: Config, s: Session, auth: seq<byte>)
    requires Sized(cfg, s.addrs)
    ensures DataOf(Options(cfg, s, auth), cfg.kind) == DataOf(Associations(cfg, s), cfg.kind)
    ensures forall o :: o in Options(cfg, s, auth) && o.code == cfg.kind ==> o.data != []
  {
    hide Front, Requests, Trailer, IaOptions, DataOf;
    var a, b, c, d := Front(cfg, s), Associations(cfg, s), Requests(cfg, s), Trailer(auth);
    OthersAreNoIa(cfg, s, auth);
    IaCodes(cfg.kind, cfg.ias, s.addrs);
    DataOfAppend(a, b, cfg.kind);
    DataOfAppend(a + b, c, cfg.kind);
    DataOfAppend(a + b + c, d, cfg.kind);
    OtherCodesAbsent(a, cfg.kind);
    OtherCodesAbsent(c, cfg.kind);
    OtherCodesAbsent(d, cfg.kind);
  }

  /** The written options parse back to the same options, and the client's own reader finds in them
      every IA it configured with the addresses it holds for it. */
  lemma MessageReadsBack(cfg: Config, s: Session, auth: seq<byte>)
    requires Sized(cfg, s.addrs) && Encodable(Options(cfg, s, auth))
    ensures var b := EncodedAll(Options(cfg, s, auth));
      && Parsed(b) == Some(Options(cfg, s, auth))
      && AllIas(cfg.kind, FindAll(b, cfg.kind, 0)) ==
           if SendsIa(s.phase) then Reported(cfg.kind, cfg.ias, s.addrs) else []
  {
    hide Options, EncodedAll, Parsed, AllIas, FindAll, Reported, IaOptions, DataOf;
    var os := Options(cfg, s, auth);
    ParsedEncoded(os);
    IasAmongOptions(cfg, s, auth);
    FindAllEncoded(os, cfg.kind);
    if SendsIa(s.phase) {
      IasReadBack(cfg.kind, cfg.ias, s.addrs);
    } else {
      OtherCodesAbsent([], cfg.kind);
      NoIasRead(cfg.kind);
    }
  }

  lemma NoIasRead(kind: uint16)
    ensures AllIas(kind, []) == []
  {
  }
}
