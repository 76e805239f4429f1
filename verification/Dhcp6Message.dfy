/**
 Building a DHCPv6 message (dhcp6_makemessage and dhcp6_makevendor in dhcpcd/dhcp6.c): a first pass
 measures, a second writes through a cursor.  Here: what each pass works out, when the two agree,
 and that the client's own reader understands what was written.
 */
module Dhcp6Message {
  import opened Common
  import opened Dhcp6Wire
  import opened Dhcp6Lease
  import H = Hostname

  const CLIENTID := 1
  const SERVERID := 2
  const ORO := 6
  const ELAPSED := 8
  const AUTH := 11
  const RAPID_COMMIT := 14
  const VENDOR_CLASS := 16
  const FQDN := 39
  const IANA_PEN := 40712

  /** Bytes of the message before its options. */
  const MESSAGE_HEADER := 4

  datatype Phase =
    | Init | Discover | Request | Bound | Renew | Rebind | Confirm | Inform
    | Informed | RenewRequested | Probing | Delegated | Release

  datatype Fqdn = Disable | NoUpdate | Ptr | Both

  /** A row of the option table: `always` for REQUEST, `never` for NOREQ, `asked` from the mask. */
  datatype OptDef = OptDef(option: uint16, never: bool, always: bool, asked: bool)

  datatype Vendor = Vendor(enterprise: uint32, items: seq<seq<byte>>, name: seq<byte>)

  datatype Config = Config(
    kind: uint16, ias: seq<seq<byte>>, table: seq<OptDef>, rapid: bool, fqdn: Fqdn, sendHostname: bool,
    hostname: seq<byte>, systemName: seq<byte>, duid: seq<byte>, vendor: Vendor)

  /** `recv` and `current` are the options of the messages last received and in force. */
  datatype Session = Session(
    phase: Phase, addrs: seq<Held>, recv: Option<seq<byte>>, current: Option<seq<byte>>, authLen: uint16)

  /** Field widths the C types fix. */
  ghost predicate Sized(cfg: Config, addrs: seq<Held>) {
    && cfg.kind in {IA_NA, IA_TA, IA_PD}
    && (forall i :: 0 <= i < |cfg.ias| ==> |cfg.ias[i]| == 4)
    && forall i :: 0 <= i < |addrs| ==> |addrs[i].iaid| == 4 && |addrs[i].key| == 16
  }

  // ----- what depends on the phase

  function MessageType(ph: Phase): Option<byte> {
    match ph
    case Init | Discover => Some(1)
    case Request => Some(3)
    case Confirm => Some(4)
    case Renew => Some(5)
    case Rebind => Some(6)
    case Release => Some(8)
    case Inform => Some(11)
    case _ => None
  }

  predicate NamesServer(ph: Phase) {
    ph in {Request, Release, Renew}
  }

  /** The measuring pass allows for the held addresses. */
  predicate CountsAddresses(ph: Phase) {
    NamesServer(ph) || ph in {Rebind, Confirm}
  }

  predicate SendsIa(ph: Phase) {
    CountsAddresses(ph) || ph in {Init, Discover}
  }

  function Source(s: Session): seq<byte> {
    var m := if s.phase == Request && s.recv.Some? then s.recv else s.current;
    if m.Some? then m.value else []
  }

  /** The server identifier to repeat. */
  function ServerId(s: Session): Option<seq<byte>> {
    if !NamesServer(s.phase) then None
    else
      var b := Source(s);
      var r := Find(b, SERVERID, 0);
      if r == None then None
      else Some(b[r.value + OPTION_HEADER..r.value + OPTION_HEADER + LenAt(b, r.value)])
  }

  /** Neither refusal: a phase with a message, and a server to name where one must be named. */
  predicate Makes(s: Session) {
    MessageType(s.phase).Some? && (NamesServer(s.phase) ==> ServerId(s).Some?)
  }

  // ----- the vendor class

  function Sizes(items: seq<seq<byte>>): nat {
    if items == [] then 0 else 2 + |items[0]| + Sizes(items[1..])
  }

  function VendorItems(v: Vendor): seq<seq<byte>> {
    if v.enterprise != 0 then v.items else [v.name]
  }

  /** The length of the vendor class; too long a one is not written at all. */
  function VendorLength(v: Vendor): nat {
    4 + Sizes(VendorItems(v))
  }

  predicate VendorFits(v: Vendor) {
    VendorLength(v) < U16_LIMIT
  }

  function Strings(items: seq<seq<byte>>): seq<byte> {
    if items == [] then [] else Be16(|items[0]| % U16_LIMIT) + items[0] + Strings(items[1..])
  }

  function VendorData(v: Vendor): seq<byte> {
    Be32(if v.enterprise != 0 then v.enterprise else IANA_PEN) + Strings(VendorItems(v))
  }

  lemma {:induction false} StringsLength(items: seq<seq<byte>>)
    ensures |Strings(items)| == Sizes(items)
  {
    if items != [] {
      StringsLength(items[1..]);
    }
  }

  lemma VendorMeasured(v: Vendor)
    ensures |VendorData(v)| == VendorLength(v)
  {
    StringsLength(VendorItems(v));
  }

  // ----- identity associations

  function SubSize(kind: uint16): nat {
    if kind == IA_PD then 25 else 24
  }

  /** An address or prefix as an option inside its IA. */
  function SubOption(kind: uint16, h: Held): Opt {
    if kind == IA_PD then Opt(IA_PREFIX, Be32(h.pltime) + Be32(h.vltime) + [h.plen] + h.key)
    else Opt(IA_ADDR, h.key + Be32(h.pltime) + Be32(h.vltime))
  }

  predicate Belongs(iaid: seq<byte>, h: Held) {
    h.vltime != 0 && h.iaid == iaid
  }

  function Members(iaid: seq<byte>, addrs: seq<Held>): seq<Held> {
    if addrs == [] then []
    else if Belongs(iaid, addrs[0]) then [addrs[0]] + Members(iaid, addrs[1..])
    else Members(iaid, addrs[1..])
  }

  function Subs(kind: uint16, hs: seq<Held>): (r: seq<Opt>)
    ensures |r| == |hs|
  {
    seq(|hs|, i requires 0 <= i < |hs| => SubOption(kind, hs[i]))
  }

  lemma SubsFit(kind: uint16, hs: seq<Held>)
    requires forall i :: 0 <= i < |hs| ==> |hs[i].key| == 16
    ensures Encodable(Subs(kind, hs))
    ensures forall i :: 0 <= i < |hs| ==> |Subs(kind, hs)[i].data| == SubSize(kind)
  {
  }

  lemma {:induction false} MembersSized(iaid: seq<byte>, addrs: seq<Held>)
    requires forall i :: 0 <= i < |addrs| ==> |addrs[i].key| == 16
    ensures forall i :: 0 <= i < |Members(iaid, addrs)| ==> |Members(iaid, addrs)[i].key| == 16
  {
    if addrs != [] {
      MembersSized(iaid, addrs[1..]);
    }
  }

  /** The content of an IA: its id, both times zero, then the addresses that belong to it. */
  function IaData(kind: uint16, iaid: seq<byte>, hs: seq<Held>): seq<byte>
    requires forall i :: 0 <= i < |hs| ==> |hs[i].key| == 16
  {
    SubsFit(kind, hs);
    iaid + Zeros(8) + EncodedAll(Subs(kind, hs))
  }

  function IaOption(kind: uint16, iaid: seq<byte>, addrs: seq<Held>): Opt
    requires forall i :: 0 <= i < |addrs| ==> |addrs[i].key| == 16
  {
    MembersSized(iaid, addrs);
    Opt(kind, IaData(kind, iaid, Members(iaid, addrs)))
  }

  function IaOptions(kind: uint16, ias: seq<seq<byte>>, addrs: seq<Held>): (r: seq<Opt>)
    requires forall i :: 0 <= i < |addrs| ==> |addrs[i].key| == 16
    ensures |r| == |ias|
  {
    if ias == [] then [] else [IaOption(kind, ias[0], addrs)] + IaOptions(kind, ias[1..], addrs)
  }

  // ----- the name and the requested options

  function EffectiveFqdn(cfg: Config): Fqdn {
    if cfg.fqdn == Disable && cfg.sendHostname then Both else cfg.fqdn
  }

  /** A name is sent in this message. */
  predicate SendsName(cfg: Config, s: Session) {
    s.phase != Release && EffectiveFqdn(cfg) != Disable
  }

  function NameOf(cfg: Config): seq<byte> {
    if cfg.hostname == [] then cfg.systemName else cfg.hostname
  }

  function FqdnFlag(f: Fqdn, encoded: nat): byte {
    if encoded == 0 then 4 else match f case Both => 1 case Ptr => 0 case _ => 4
  }

  function FqdnData(cfg: Config): seq<byte> {
    var e := H.Encode(NameOf(cfg));
    [FqdnFlag(EffectiveFqdn(cfg), |e|)] + e
  }

  predicate Wanted(d: OptDef) {
    !d.never && (d.always || d.asked)
  }

  function WantedCount(table: seq<OptDef>): nat {
    if table == [] then 0 else (if Wanted(table[0]) then 1 else 0) + WantedCount(table[1..])
  }

  function WantedCodes(table: seq<OptDef>): seq<byte> {
    if table == [] then [] else (if Wanted(table[0]) then Be16(table[0].option) else []) + WantedCodes(table[1..])
  }

  lemma {:induction false} WantedLength(table: seq<OptDef>)
    ensures |WantedCodes(table)| == 2 * WantedCount(table)
  {
    if table != [] {
      WantedLength(table[1..]);
    }
  }

  // ----- the two passes

  function LiveCount(addrs: seq<Held>): nat {
    if addrs == [] then 0 else (if addrs[0].vltime != 0 then 1 else 0) + LiveCount(addrs[1..])
  }

  /** Room for n addresses inside IAs of this kind. */
  function AddressSpace(kind: uint16, n: nat): nat {
    n * (OPTION_HEADER + SubSize(kind))
  }

  /** Room for the server identifier and rapid commit options. */
  function VariableSpace(cfg: Config, s: Session): nat {
    var sid := ServerId(s);
    (if sid.Some? then OPTION_HEADER + |sid.value| else 0)
    + (if s.phase == Discover && cfg.rapid then OPTION_HEADER else 0)
  }

  function RequestSpace(cfg: Config, s: Session): nat {
    var n := WantedCount(cfg.table);
    if s.phase == Release || n == 0 then 0 else OPTION_HEADER + 2 * n
  }

  /** Room for the name option when its encoding takes n bytes. */
  function NameSpace(cfg: Config, s: Session, n: nat): nat {
    if SendsName(cfg, s) then OPTION_HEADER + 1 + n else 0
  }

  function IaSpace(cfg: Config, s: Session): nat {
    if SendsIa(s.phase) then |cfg.ias| * (OPTION_HEADER + 12) else 0
  }

  function TrailerSpace(n: nat): nat {
    if n > 0 then OPTION_HEADER + n else 0
  }

  /** Addresses the measuring pass allows for. */
  function Allowed(cfg: Config, s: Session): nat {
    if CountsAddresses(s.phase) then LiveCount(s.addrs) else 0
  }

  /** The length worked out before anything is written. */
  function Measured(cfg: Config, s: Session): nat {
    RequestSpace(cfg, s) + NameSpace(cfg, s, H.EncodedLength(NameOf(cfg))) + MESSAGE_HEADER
    + (OPTION_HEADER + |cfg.duid|) + (OPTION_HEADER + 2)
    + (OPTION_HEADER + if VendorFits(cfg.vendor) then VendorLength(cfg.vendor) else 0)
    + VariableSpace(cfg, s) + AddressSpace(cfg.kind, Allowed(cfg, s)) + IaSpace(cfg, s) + TrailerSpace(s.authLen)
  }

  function Front(cfg: Config, s: Session): seq<Opt> {
    var sid := ServerId(s);
    [Opt(CLIENTID, cfg.duid)]
    + (if sid.Some? then [Opt(SERVERID, sid.value)] else [])
    + [Opt(ELAPSED, [0, 0]), Opt(VENDOR_CLASS, VendorData(cfg.vendor))]
    + (if s.phase == Discover && cfg.rapid then [Opt(RAPID_COMMIT, [])] else [])
  }

  function Associations(cfg: Config, s: Session): seq<Opt>
    requires forall i :: 0 <= i < |s.addrs| ==> |s.addrs[i].key| == 16
  {
    if SendsIa(s.phase) then IaOptions(cfg.kind, cfg.ias, s.addrs) else []
  }

  function Requests(cfg: Config, s: Session): seq<Opt> {
    if s.phase == Release then []
    else
      (if EffectiveFqdn(cfg) != Disable then [Opt(FQDN, FqdnData(cfg))] else [])
      + (if WantedCount(cfg.table) > 0 then [Opt(ORO, WantedCodes(cfg.table))] else [])
  }

  /** Room for the authentication, filled in when the message is sent. */
  function Trailer(auth: seq<byte>): seq<Opt> {
    if auth == [] then [] else [Opt(AUTH, auth)]
  }

  /** The options of the message, in the order they are written. */
  function Options(cfg: Config, s: Session, auth: seq<byte>): seq<Opt>
    requires Sized(cfg, s.addrs)
  {
    Front(cfg, s) + Associations(cfg, s) + Requests(cfg, s) + Trailer(auth)
  }

  /** Bytes the options take. */
  function Total(os: seq<Opt>): nat {
    if os == [] then 0 else OPTION_HEADER + |os[0].data| + Total(os[1..])
  }

  /** Where the write cursor ends: D6_NEXT_OPTION steps over the 16 bits kept of each length. */
  function Steps(os: seq<Opt>): nat {
    if os == [] then 0 else OPTION_HEADER + |os[0].data| % U16_LIMIT + Steps(os[1..])
  }

  function Written(cfg: Config, s: Session, auth: seq<byte>): nat
    requires Sized(cfg, s.addrs)
  {
    MESSAGE_HEADER + Total(Options(cfg, s, auth))
  }

  // ----- lengths

  lemma {:induction false} TotalAppend(a: seq<Opt>, b: seq<Opt>)
    ensures Total(a + b) == Total(a) + Total(b)
  {
    if a == [] {
      assert a + b == b;
    } else {
      assert (a + b)[1..] == a[1..] + b;
      TotalAppend(a[1..], b);
    }
  }

  lemma {:induction false} TotalIsEncoded(os: seq<Opt>)
    requires Encodable(os)
    ensures |EncodedAll(os)| == Total(os)
  {
    hide Encoded;
    if os != [] {
      TotalIsEncoded(os[1..]);
      EncodedSize(os[0]);
    }
  }

  /** The cursor covers all that was written exactly when every length fits its 16 bits. */
  lemma {:induction false} CursorIffFits(os: seq<Opt>)
    ensures Steps(os) <= Total(os)
    ensures Steps(os) == Total(os) <==> Encodable(os)
  {
    if os != [] {
      CursorIffFits(os[1..]);
      var n := |os[0].data|;
      assert n % U16_LIMIT <= n && (n % U16_LIMIT == n <==> n < U16_LIMIT);
      assert Encodable(os) <==> n < U16_LIMIT && Encodable(os[1..]) by {
        assert forall i :: 1 <= i < |os| ==> os[i] == os[1..][i - 1];
      }
    }
  }

  lemma TotalOne(o: Opt)
    ensures Total([o]) == OPTION_HEADER + |o.data| && Total([]) == 0
  {
    assert [o][1..] == [];
  }

  lemma {:induction false} SubsTotal(kind: uint16, hs: seq<Held>)
    requires forall i :: 0 <= i < |hs| ==> |hs[i].key| == 16
    ensures Total(Subs(kind, hs)) == AddressSpace(kind, |hs|)
  {
    if hs != [] {
      SubsTotal(kind, hs[1..]);
      assert Subs(kind, hs)[1..] == Subs(kind, hs[1..]);
    }
  }

  /** How often the held addresses are written, over all IAs. */
  function Placed(ias: seq<seq<byte>>, addrs: seq<Held>): nat {
    if ias == [] then 0 else |Members(ias[0], addrs)| + Placed(ias[1..], addrs)
  }

  lemma IaLength(kind: uint16, iaid: seq<byte>, addrs: seq<Held>)
    requires |iaid| == 4 && forall i :: 0 <= i < |addrs| ==> |addrs[i].key| == 16
    ensures |IaOption(kind, iaid, addrs).data| == 12 + AddressSpace(kind, |Members(iaid, addrs)|)
  {
    hide EncodedAll, Subs;
    var hs := Members(iaid, addrs);
    MembersSized(iaid, addrs);
    SubsFit(kind, hs);
    SubsTotal(kind, hs);
    TotalIsEncoded(Subs(kind, hs));
  }

  lemma {:induction false} IasTotal(kind: uint16, ias: seq<seq<byte>>, addrs: seq<Held>)
    requires forall i :: 0 <= i < |ias| ==> |ias[i]| == 4
    requires forall i :: 0 <= i < |addrs| ==> |addrs[i].key| == 16
    ensures Total(IaOptions(kind, ias, addrs)) ==
      |ias| * (OPTION_HEADER + 12) + AddressSpace(kind, Placed(ias, addrs))
  {
    hide IaOption;
    if ias != [] {
      var n, size := |Members(ias[0], addrs)|, OPTION_HEADER + SubSize(kind);
      IasTotal(kind, ias[1..], addrs);
      IaLength(kind, ias[0], addrs);
      assert IaOptions(kind, ias, addrs)[1..] == IaOptions(kind, ias[1..], addrs);
      assert n * size + Placed(ias[1..], addrs) * size == (n + Placed(ias[1..], addrs)) * size;
    }
  }

  lemma FrontTotal(cfg: Config, s: Session)
    ensures Total(Front(cfg, s)) == (OPTION_HEADER + |cfg.duid|) + (OPTION_HEADER + 2)
      + (OPTION_HEADER + VendorLength(cfg.vendor)) + VariableSpace(cfg, s)
  {
    hide ServerId, VendorData, VendorLength, Total;
    var sid := ServerId(s);
    var a, e, v := Opt(CLIENTID, cfg.duid), Opt(ELAPSED, [0, 0]), Opt(VENDOR_CLASS, VendorData(cfg.vendor));
    var i := if sid.Some? then [Opt(SERVERID, sid.value)] else [];
    var r := if s.phase == Discover && cfg.rapid then [Opt(RAPID_COMMIT, [])] else [];
    VendorMeasured(cfg.vendor);
    assert Front(cfg, s) == [a] + i + [e] + [v] + r;
    TotalAppend([a], i);
    TotalAppend([a] + i, [e]);
    TotalAppend([a] + i + [e], [v]);
    TotalAppend([a] + i + [e] + [v], r);
    TotalOne(a);
    TotalOne(e);
    TotalOne(v);
    TotalOne(Opt(RAPID_COMMIT, []));
    if sid.Some? {
      TotalOne(Opt(SERVERID, sid.value));
    }
  }

  lemma RequestsTotal(cfg: Config, s: Session)
    ensures Total(Requests(cfg, s)) == RequestSpace(cfg, s) + NameSpace(cfg, s, |H.Encode(NameOf(cfg))|)
  {
    hide Total, WantedCodes, WantedCount, H.Encode;
    WantedLength(cfg.table);
    var f := if EffectiveFqdn(cfg) != Disable then [Opt(FQDN, FqdnData(cfg))] else [];
    var r := if WantedCount(cfg.table) > 0 then [Opt(ORO, WantedCodes(cfg.table))] else [];
    TotalAppend(f, r);
    TotalOne(Opt(FQDN, FqdnData(cfg)));
    TotalOne(Opt(ORO, WantedCodes(cfg.table)));
  }

  /** Addresses the writing pass writes. */
  function Used(cfg: Config, s: Session): nat {
    if SendsIa(s.phase) then Placed(cfg.ias, s.addrs) else 0
  }

  /** The two passes differ by the addresses written but not allowed for and by what the name
      encoder leaves out, and by nothing else. */
  lemma PassesDiffer(cfg: Config, s: Session, auth: seq<byte>)
    requires Sized(cfg, s.addrs) && VendorFits(cfg.vendor) && |auth| == s.authLen
    ensures var name := NameOf(cfg);
      Written(cfg, s, auth) + AddressSpace(cfg.kind, Allowed(cfg, s)) + NameSpace(cfg, s, H.EncodedLength(name)) ==
      Measured(cfg, s) + AddressSpace(cfg.kind, Used(cfg, s)) + NameSpace(cfg, s, |H.Encode(name)|)
  {
    hide Total, Front, Associations, Requests, IaOptions, Placed, LiveCount, VendorLength, ServerId, WantedCount;
    hide H.Encode, H.EncodedLength, AddressSpace, NameSpace, VariableSpace, RequestSpace, IaSpace, TrailerSpace, Used, Allowed;
    hide Trailer;
    var a, b, c, d := Front(cfg, s), Associations(cfg, s), Requests(cfg, s), Trailer(auth);
    TotalAppend(a, b);
    TotalAppend(a + b, c);
    TotalAppend(a + b + c, d);
    FrontTotal(cfg, s);
    RequestsTotal(cfg, s);
    AssociationsTotal(cfg, s);
    TrailerTotal(auth);
  }

  lemma AssociationsTotal(cfg: Config, s: Session)
    requires Sized(cfg, s.addrs)
    ensures Total(Associations(cfg, s)) == IaSpace(cfg, s) + AddressSpace(cfg.kind, Used(cfg, s))
  {
    hide IaOptions, Placed;
    IasTotal(cfg.kind, cfg.ias, s.addrs);
  }

  lemma TrailerTotal(auth: seq<byte>)
    ensures Total(Trailer(auth)) == TrailerSpace(|auth|)
  {
    TotalOne(Opt(AUTH, auth));
  }

  // ----- when every address is written as often as it was allowed for

  /** In how many of the IAs the address is written. */
  function Homes(ias: seq<seq<byte>>, h: Held): nat {
    if ias == [] then 0 else (if Belongs(ias[0], h) then 1 else 0) + Homes(ias[1..], h)
  }

  function AllHomes(ias: seq<seq<byte>>, addrs: seq<Held>): nat {
    if addrs == [] then 0 else Homes(ias, addrs[0]) + AllHomes(ias, addrs[1..])
  }

  lemma {:induction false} NoHomes(addrs: seq<Held>)
    ensures AllHomes([], addrs) == 0
  {
    if addrs != [] {
      NoHomes(addrs[1..]);
    }
  }

  lemma {:induction false} HomesStep(ia: seq<byte>, ias: seq<seq<byte>>, addrs: seq<Held>)
    ensures AllHomes([ia] + ias, addrs) == |Members(ia, addrs)| + AllHomes(ias, addrs)
  {
    if addrs != [] {
      HomesStep(ia, ias, addrs[1..]);
      assert ([ia] + ias)[1..] == ias;
    }
  }

  /** Counted by IA or by address, it is the same number. */
  lemma {:induction false} PlacedIsAllHomes(ias: seq<seq<byte>>, addrs: seq<Held>)
    ensures Placed(ias, addrs) == AllHomes(ias, addrs)
  {
    if ias == [] {
      NoHomes(addrs);
    } else {
      PlacedIsAllHomes(ias[1..], addrs);
      HomesStep(ias[0], ias[1..], addrs);
      assert ias == [ias[0]] + ias[1..];
    }
  }

  lemma {:induction false} DeadHaveNoHome(ias: seq<seq<byte>>, h: Held)
    ensures h.vltime == 0 ==> Homes(ias, h) == 0
    ensures (h.vltime == 0 || h.iaid !in ias) <==> Homes(ias, h) == 0
  {
    if ias != [] {
      DeadHaveNoHome(ias[1..], h);
      assert ias == [ias[0]] + ias[1..];
    }
  }

  lemma {:induction false} OneHomeEach(ias: seq<seq<byte>>, addrs: seq<Held>)
    requires forall h :: h in addrs && h.vltime != 0 ==> Homes(ias, h) == 1
    ensures AllHomes(ias, addrs) == LiveCount(addrs)
  {
    hide Homes;
    if addrs != [] {
      assert addrs[0] in addrs && forall h :: h in addrs[1..] ==> h in addrs;
      OneHomeEach(ias, addrs[1..]);
      DeadHaveNoHome(ias, addrs[0]);
    }
  }

  ghost predicate DistinctIas(ias: seq<seq<byte>>) {
    forall i, j :: 0 <= i < j < |ias| ==> ias[i] != ias[j]
  }

  lemma {:induction false} AtMostOneHome(ias: seq<seq<byte>>, h: Held)
    requires DistinctIas(ias)
    ensures Homes(ias, h) <= 1
  {
    if ias != [] {
      AtMostOneHome(ias[1..], h);
      DeadHaveNoHome(ias[1..], h);
      assert ias[0] !in ias[1..];
    }
  }

  /** With distinct IAs, as many addresses are written as are live exactly when each has an IA. */
  lemma {:induction false} AllPlacedIff(ias: seq<seq<byte>>, addrs: seq<Held>)
    requires DistinctIas(ias)
    ensures AllHomes(ias, addrs) <= LiveCount(addrs)
    ensures AllHomes(ias, addrs) == LiveCount(addrs) <==> forall h :: h in addrs && h.vltime != 0 ==> h.iaid in ias
  {
    hide Homes, DistinctIas;
    if addrs != [] {
      AllPlacedIff(ias, addrs[1..]);
      AtMostOneHome(ias, addrs[0]);
      DeadHaveNoHome(ias, addrs[0]);
      assert addrs[0] in addrs && addrs == [addrs[0]] + addrs[1..];
    }
  }

  lemma {:induction false} NonePlacedIff(ias: seq<seq<byte>>, addrs: seq<Held>)
    ensures AllHomes(ias, addrs) == 0 <==> forall h :: h in addrs && h.vltime != 0 ==> h.iaid !in ias
  {
    hide Homes;
    if addrs != [] {
      NonePlacedIff(ias, addrs[1..]);
      DeadHaveNoHome(ias, addrs[0]);
      assert addrs[0] in addrs && addrs == [addrs[0]] + addrs[1..];
    }
  }

  /** The addresses suit the phase: written once each where they were allowed for, not at all
      where they were not. */
  ghost predicate AddressesSuit(cfg: Config, s: Session) {
    && (CountsAddresses(s.phase) ==> forall h :: h in s.addrs && h.vltime != 0 ==> Homes(cfg.ias, h) == 1)
    && (s.phase in {Init, Discover} ==> forall h :: h in s.addrs && h.vltime != 0 ==> h.iaid !in cfg.ias)
  }

  lemma SuitedAgree(cfg: Config, s: Session)
    requires AddressesSuit(cfg, s)
    ensures Used(cfg, s) == Allowed(cfg, s)
  {
    hide Placed, LiveCount, Homes, AllHomes;
    PlacedIsAllHomes(cfg.ias, s.addrs);
    if CountsAddresses(s.phase) {
      OneHomeEach(cfg.ias, s.addrs);
    } else if SendsIa(s.phase) {
      NonePlacedIff(cfg.ias, s.addrs);
    }
  }

  lemma NamesDiffer(cfg: Config, s: Session)
    ensures var m, w := NameSpace(cfg, s, H.EncodedLength(NameOf(cfg))), NameSpace(cfg, s, |H.Encode(NameOf(cfg))|);
      w <= m && (w == m <==> !(SendsName(cfg, s) && H.Stops(NameOf(cfg), 0)))
  {
    hide H.Encode, H.EncodedLength, H.Stops;
    H.MeasuredIsWritten(NameOf(cfg));
  }

  /** With addresses that suit the phase nothing is written past the allocated length, and the two
      passes agree exactly when the name, if one is sent, has no inner label of length 0, 256, 512, ... */
  lemma MeasuredIffName(cfg: Config, s: Session, auth: seq<byte>)
    requires Sized(cfg, s.addrs) && VendorFits(cfg.vendor) && |auth| == s.authLen
    requires AddressesSuit(cfg, s)
    ensures Written(cfg, s, auth) <= Measured(cfg, s)
    ensures Written(cfg, s, auth) == Measured(cfg, s) <==> !(SendsName(cfg, s) && H.Stops(NameOf(cfg), 0))
  {
    hide Written, Measured, Used, Allowed, AddressesSuit, NameSpace, AddressSpace, H.Stops, H.Encode, H.EncodedLength;
    PassesDiffer(cfg, s, auth);
    SuitedAgree(cfg, s);
    NamesDiffer(cfg, s);
  }

  lemma SpaceGrows(kind: uint16, a: nat, b: nat)
    ensures AddressSpace(kind, a) == AddressSpace(kind, b) <==> a == b
    ensures AddressSpace(kind, a) <= AddressSpace(kind, b) <==> a <= b
  {
  }

  /** With a good name the passes agree exactly when the addresses do; while soliciting, any live
      address of a configured IA makes the message longer than the memory allocated for it. */
  lemma MeasuredIffAddresses(cfg: Config, s: Session, auth: seq<byte>)
    requires Sized(cfg, s.addrs) && VendorFits(cfg.vendor) && |auth| == s.authLen
    requires !(SendsName(cfg, s) && H.Stops(NameOf(cfg), 0)) && DistinctIas(cfg.ias)
    ensures CountsAddresses(s.phase) ==>
      && Written(cfg, s, auth) <= Measured(cfg, s)
      && (Written(cfg, s, auth) == Measured(cfg, s) <==> forall h :: h in s.addrs && h.vltime != 0 ==> h.iaid in cfg.ias)
    ensures s.phase in {Init, Discover} ==>
      && Written(cfg, s, auth) >= Measured(cfg, s)
      && (Written(cfg, s, auth) == Measured(cfg, s) <==> forall h :: h in s.addrs && h.vltime != 0 ==> h.iaid !in cfg.ias)
  {
    hide Written, Measured, NameSpace, AddressSpace, H.Stops, H.Encode, H.EncodedLength, Placed, LiveCount, AllHomes, DistinctIas;
    PassesDiffer(cfg, s, auth);
    NamesDiffer(cfg, s);
    PlacedIsAllHomes(cfg.ias, s.addrs);
    SpaceGrows(cfg.kind, Allowed(cfg, s), Used(cfg, s));
    SpaceGrows(cfg.kind, Used(cfg, s), Allowed(cfg, s));
    if CountsAddresses(s.phase) {
      AllPlacedIff(cfg.ias, s.addrs);
    } else if s.phase in {Init, Discover} {
      NonePlacedIff(cfg.ias, s.addrs);
    }
  }
}
