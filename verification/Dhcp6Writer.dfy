/** The passes of dhcp6_makemessage (dhcpcd/dhcp6.c): measuring, then writing through a cursor. */
module Dhcp6Writer {
  import opened Common
  import opened Dhcp6Wire
  import opened Dhcp6Lease
  import opened Dhcp6Message
  import H = Hostname

  /** Bytes of an address in memory: the memset of the elapsed time clears that many, not two. */
  const WORD_SIZE := 8

  // ----- measuring

  method MeasureRequests(table: seq<OptDef>) returns (n: nat)
    ensures n == WantedCount(table)
  {
    n := 0;
    var l := 0;
    while l < |table|
      invariant 0 <= l <= |table| && n + WantedCount(table[l..]) == WantedCount(table)
    {
      assert table[l..][1..] == table[l + 1..];
      if Wanted(table[l]) {
        n := n + 1;
      }
      l := l + 1;
    }
  }

  method MeasureAddresses(kind: uint16, addrs: seq<Held>) returns (len: nat)
    ensures len == AddressSpace(kind, LiveCount(addrs))
  {
    len := 0;
    var l := 0;
    ghost var n := 0;
    while l < |addrs|
      invariant 0 <= l <= |addrs| && n + LiveCount(addrs[l..]) == LiveCount(addrs)
      invariant len == AddressSpace(kind, n)
    {
      assert addrs[l..][1..] == addrs[l + 1..];
      if addrs[l].vltime != 0 {
        len := len + OPTION_HEADER + SubSize(kind);
        n := n + 1;
      }
      l := l + 1;
    }
  }

  // ----- writing

  /** An option: its code, its length, its data. */
  method PutOption(buf: array<byte>, at: nat, o: Opt) returns (next: nat)
    requires |o.data| < U16_LIMIT && at + OPTION_HEADER + |o.data| <= buf.Length
    modifies buf
    ensures next == at + OPTION_HEADER + |o.data|
    ensures buf[..next] == old(buf[..at]) + Encoded(o)
  {
    hide Be16;
    ghost var before := buf[..at];
    Put(buf, at, Be16(o.code));
    Put(buf, at + 2, Be16(|o.data|));
    Put(buf, at + 4, o.data);
    next := at + OPTION_HEADER + |o.data|;
    assert buf[..next] == before + Be16(o.code) + Be16(|o.data|) + o.data;
  }

  // an IA

  lemma {:induction false} MembersSnoc(iaid: seq<byte>, a: seq<Held>, h: Held)
    ensures Members(iaid, a + [h]) == Members(iaid, a) + (if Belongs(iaid, h) then [h] else [])
  {
    if a == [] {
      assert a + [h] == [h];
      assert [h][1..] == [];
    } else {
      assert (a + [h])[1..] == a[1..] + [h];
      MembersSnoc(iaid, a[1..], h);
    }
  }

  /** One address more: its option is appended if it belongs to the IA. */
  lemma IaSnoc(kind: uint16, iaid: seq<byte>, a: seq<Held>, h: Held)
    requires |h.key| == 16 && forall i :: 0 <= i < |a| ==> |a[i].key| == 16
    ensures IaOption(kind, iaid, a + [h]).data ==
      IaOption(kind, iaid, a).data + (if Belongs(iaid, h) then EncodedSub(kind, h) else [])
  {
    hide EncodedAll, Members;
    MembersSnoc(iaid, a, h);
    MembersSized(iaid, a);
    MembersSized(iaid, a + [h]);
    var hs := Members(iaid, a);
    if Belongs(iaid, h) {
      SubsFit(kind, hs);
      SubsFit(kind, hs + [h]);
      SubsFit(kind, [h]);
      assert Subs(kind, hs + [h]) == Subs(kind, hs) + [SubOption(kind, h)];
      EncodedAllAppend(Subs(kind, hs), [SubOption(kind, h)]);
      EncodedOne(SubOption(kind, h));
    } else {
      assert hs + [] == hs;
    }
  }

  function EncodedSub(kind: uint16, h: Held): (r: seq<byte>)
    requires |h.key| == 16
    ensures |r| == OPTION_HEADER + SubSize(kind)
  {
    Encoded(SubOption(kind, h))
  }

  lemma EncodedOne(o: Opt)
    requires |o.data| < U16_LIMIT
    ensures EncodedAll([o]) == Encoded(o)
  {
    hide Encoded;
    assert [o][1..] == [];
    assert EncodedAll([]) == [];
  }

  lemma {:induction false} MembersPrefix(iaid: seq<byte>, addrs: seq<Held>, l: nat)
    requires l <= |addrs|
    ensures |Members(iaid, addrs[..l])| <= |Members(iaid, addrs)|
    decreases |addrs| - l
  {
    if l < |addrs| {
      MembersPrefix(iaid, addrs, l + 1);
      assert addrs[..l + 1] == addrs[..l] + [addrs[l]];
      MembersSnoc(iaid, addrs[..l], addrs[l]);
    } else {
      assert addrs[..l] == addrs;
    }
  }

  lemma IaPrefix(kind: uint16, iaid: seq<byte>, addrs: seq<Held>, l: nat)
    requires |iaid| == 4 && l <= |addrs| && forall i :: 0 <= i < |addrs| ==> |addrs[i].key| == 16
    ensures |IaOption(kind, iaid, addrs[..l]).data| <= |IaOption(kind, iaid, addrs).data|
  {
    hide IaOption, Members, AddressSpace;
    MembersPrefix(iaid, addrs, l);
    IaLength(kind, iaid, addrs);
    IaLength(kind, iaid, addrs[..l]);
    SpaceGrows(kind, |Members(iaid, addrs[..l])|, |Members(iaid, addrs)|);
  }

  lemma IaEmpty(kind: uint16, iaid: seq<byte>)
    ensures IaOption(kind, iaid, []) == Opt(kind, iaid + Zeros(8))
  {
    assert Members(iaid, []) == [];
    assert EncodedAll([]) == [];
    assert Subs(kind, []) == [];
  }

  lemma IaKind(kind: uint16, iaid: seq<byte>, addrs: seq<Held>)
    requires forall i :: 0 <= i < |addrs| ==> |addrs[i].key| == 16
    ensures IaOption(kind, iaid, addrs).code == kind
  {
    hide EncodedAll;
  }

  /** Puts an option behind the data of the option at `at` and lengthens that one accordingly. */
  method PutSub(buf: array<byte>, at: nat, end: nat, sub: Opt, ghost o: Opt, ghost before: seq<byte>) returns (next: nat)
    requires |before| == at && end == at + OPTION_HEADER + |o.data| <= buf.Length
    requires |o.data| + OPTION_HEADER + |sub.data| < U16_LIMIT && end + OPTION_HEADER + |sub.data| <= buf.Length
    requires buf[..end] == before + Encoded(o)
    modifies buf
    ensures next == end + OPTION_HEADER + |sub.data|
    ensures buf[..next] == before + Encoded(Opt(o.code, o.data + Encoded(sub)))
  {
    hide Be16, Encoded;
    ghost var whole := Opt(o.code, o.data + Encoded(sub));
    EncodedSize(sub);
    LengthField(before, o, buf[..end]);
    next := PutOption(buf, end, sub);
    assert buf[..next][..end] == before + Encoded(o);
    assert buf[at + 2] == (before + Encoded(o))[at + 2] && buf[at + 3] == (before + Encoded(o))[at + 3];
    var len := Word(buf[at + 2], buf[at + 3]) + OPTION_HEADER + |sub.data|;
    ghost var was, all := buf[..next], buf[..];
    assert was == all[..next];
    Store(buf, at + 2, Be16(len));
    Relength(before, o, sub);
    OverwrittenPrefix(all, at + 2, Be16(len), next);
    assert buf[..next] == buf[..][..next];
  }

  lemma OverwrittenPrefix(b: seq<byte>, k: nat, d: seq<byte>, n: nat)
    requires k + |d| <= n <= |b|
    ensures Overwritten(b, k, d)[..n] == b[..n][..k] + d + b[..n][k + |d|..]
  {
  }

  lemma LengthField(before: seq<byte>, o: Opt, b: seq<byte>)
    requires |o.data| < U16_LIMIT && b == before + Encoded(o)
    ensures |b| == |before| + OPTION_HEADER + |o.data|
    ensures Word(b[|before| + 2], b[|before| + 3]) == |o.data|
  {
    hide Be16;
    assert b[|before| + 2] == Be16(|o.data|)[0] && b[|before| + 3] == Be16(|o.data|)[1];
  }

  lemma Relength(before: seq<byte>, o: Opt, sub: Opt)
    requires |o.data| + OPTION_HEADER + |sub.data| < U16_LIMIT
    ensures var was := before + Encoded(o) + Encoded(sub); var at := |before|;
      was[..at + 2] + Be16(|o.data| + OPTION_HEADER + |sub.data|) + was[at + 4..] ==
      before + Encoded(Opt(o.code, o.data + Encoded(sub)))
  {
    hide Be16;
    var was, at, e := before + Encoded(o) + Encoded(sub), |before|, Encoded(sub);
    assert was == before + Be16(o.code) + Be16(|o.data|) + o.data + e;
    assert was[..at + 2] == before + Be16(o.code);
    assert was[at + 4..] == o.data + e;
  }

  /** An IA with its addresses; its own length field grows with each of them. */
  method PutIa(buf: array<byte>, at: nat, kind: uint16, iaid: seq<byte>, addrs: seq<Held>) returns (next: nat)
    requires |iaid| == 4 && forall i :: 0 <= i < |addrs| ==> |addrs[i].key| == 16
    requires |IaOption(kind, iaid, addrs).data| < U16_LIMIT
    requires at + OPTION_HEADER + |IaOption(kind, iaid, addrs).data| <= buf.Length
    modifies buf
    ensures next == at + OPTION_HEADER + |IaOption(kind, iaid, addrs).data|
    ensures buf[..next] == old(buf[..at]) + Encoded(IaOption(kind, iaid, addrs))
  {
    hide Encoded, IaOption, SubOption;
    ghost var before := buf[..at];
    IaEmpty(kind, iaid);
    IaPrefix(kind, iaid, addrs, 0);
    assert addrs[..0] == [];
    next := PutOption(buf, at, Opt(kind, iaid + Zeros(8)));
    var l := 0;
    while l < |addrs|
      invariant 0 <= l <= |addrs|
      invariant |IaOption(kind, iaid, addrs[..l]).data| < U16_LIMIT
      invariant next == at + OPTION_HEADER + |IaOption(kind, iaid, addrs[..l]).data| <= buf.Length
      invariant buf[..next] == before + Encoded(IaOption(kind, iaid, addrs[..l]))
    {
      ghost var o := IaOption(kind, iaid, addrs[..l]);
      assert addrs[..l + 1] == addrs[..l] + [addrs[l]];
      IaSnoc(kind, iaid, addrs[..l], addrs[l]);
      IaPrefix(kind, iaid, addrs, l + 1);
      IaKind(kind, iaid, addrs[..l]);
      IaKind(kind, iaid, addrs[..l + 1]);
      if Belongs(iaid, addrs[l]) {
        SubFits(kind, addrs[l]);
        next := PutSub(buf, at, next, SubOption(kind, addrs[l]), o, before);
      } else {
        assert o.data + [] == o.data;
      }
      l := l + 1;
    }
    assert addrs[..l] == addrs;
  }

  lemma SubFits(kind: uint16, h: Held)
    requires |h.key| == 16
    ensures |SubOption(kind, h).data| == SubSize(kind)
  {
  }

  lemma IasSnoc(kind: uint16, ias: seq<seq<byte>>, addrs: seq<Held>, l: nat)
    requires l < |ias| && forall i :: 0 <= i < |addrs| ==> |addrs[i].key| == 16
    ensures IaOptions(kind, ias[l..], addrs) == [IaOption(kind, ias[l], addrs)] + IaOptions(kind, ias[l + 1..], addrs)
  {
    assert ias[l..][1..] == ias[l + 1..];
  }

  lemma EncodedCons(o: Opt, os: seq<Opt>)
    requires Encodable([o] + os)
    ensures |o.data| < U16_LIMIT && Encodable(os)
    ensures EncodedAll([o] + os) == Encoded(o) + EncodedAll(os)
    ensures Total([o] + os) == OPTION_HEADER + |o.data| + Total(os)
  {
    hide Encoded;
    assert ([o] + os)[0] == o;
    assert ([o] + os)[1..] == os;
  }

  method PutAssociations(buf: array<byte>, at: nat, cfg: Config, s: Session) returns (next: nat)
    requires Sized(cfg, s.addrs) && Encodable(Associations(cfg, s)) && at + Total(Associations(cfg, s)) <= buf.Length
    modifies buf
    ensures next == at + Total(Associations(cfg, s))
    ensures buf[..next] == old(buf[..at]) + EncodedAll(Associations(cfg, s))
  {
    hide IaOption, IaOptions, Encoded, EncodedAll, Total;
    next := at;
    ghost var os := Associations(cfg, s);
    ghost var rest := os;
    NothingEncoded();
    if SendsIa(s.phase) {
      var l := 0;
      assert cfg.ias[0..] == cfg.ias;
      while l < |cfg.ias|
        invariant 0 <= l <= |cfg.ias| && rest == IaOptions(cfg.kind, cfg.ias[l..], s.addrs) && Encodable(rest)
        invariant at <= next && next + Total(rest) == at + Total(os)
        invariant buf[..next] + EncodedAll(rest) == old(buf[..at]) + EncodedAll(os)
      {
        ghost var o, was := IaOption(cfg.kind, cfg.ias[l], s.addrs), buf[..next];
        IasSnoc(cfg.kind, cfg.ias, s.addrs, l);
        rest := IaOptions(cfg.kind, cfg.ias[l + 1..], s.addrs);
        EncodedCons(o, rest);
        next := PutIa(buf, next, cfg.kind, cfg.ias[l], s.addrs);
        assert was + (Encoded(o) + EncodedAll(rest)) == (was + Encoded(o)) + EncodedAll(rest);
        l := l + 1;
      }
      NoIas(cfg.kind, cfg.ias[l..], s.addrs);
    }
    assert buf[..next] + [] == buf[..next];
  }

  lemma NoIas(kind: uint16, ias: seq<seq<byte>>, addrs: seq<Held>)
    requires ias == [] && forall i :: 0 <= i < |addrs| ==> |addrs[i].key| == 16
    ensures IaOptions(kind, ias, addrs) == []
  {
  }

  lemma NothingEncoded()
    ensures EncodedAll([]) == [] && Total([]) == 0
  {
  }

  // the vendor class

  method MeasureStrings(items: seq<seq<byte>>) returns (len: nat)
    ensures len == Sizes(items)
  {
    len := 0;
    var i := 0;
    while i < |items|
      invariant 0 <= i <= |items| && len + Sizes(items[i..]) == Sizes(items)
    {
      assert items[i..][1..] == items[i + 1..];
      len := len + 2 + |items[i]|;
      i := i + 1;
    }
  }

  method PutStrings(buf: array<byte>, at: nat, items: seq<seq<byte>>) returns (next: nat)
    requires at + Sizes(items) <= buf.Length
    modifies buf
    ensures next == at + Sizes(items)
    ensures buf[..next] == old(buf[..at]) + Strings(items)
  {
    hide Be16, Sizes, Strings;
    next := at;
    var i := 0;
    StringsStep(items, |items|);
    assert items[0..] == items;
    while i < |items|
      invariant 0 <= i <= |items| && at <= next && next + Sizes(items[i..]) == at + Sizes(items)
      invariant buf[..next] + Strings(items[i..]) == old(buf[..at]) + Strings(items)
    {
      StringsStep(items, i);
      ghost var was, len := buf[..next], Be16(|items[i]| % U16_LIMIT);
      Put(buf, next, Be16(|items[i]| % U16_LIMIT));
      Put(buf, next + 2, items[i]);
      next := next + 2 + |items[i]|;
      assert buf[..next] == was + len + items[i];
      assert was + (len + items[i] + Strings(items[i + 1..])) == (was + len + items[i]) + Strings(items[i + 1..]);
      i := i + 1;
    }
    assert buf[..next] + [] == buf[..next];
  }

  lemma StringsStep(items: seq<seq<byte>>, i: nat)
    requires i <= |items|
    ensures i < |items| ==> Strings(items[i..]) == Be16(|items[i]| % U16_LIMIT) + items[i] + Strings(items[i + 1..])
    ensures i < |items| ==> Sizes(items[i..]) == 2 + |items[i]| + Sizes(items[i + 1..])
    ensures i == |items| ==> Strings(items[i..]) == [] && Sizes(items[i..]) == 0
  {
    if i < |items| {
      assert items[i..][1..] == items[i + 1..];
    }
  }

  /** dhcp6_makevendor: measures when given no memory, else also writes; 0 when the class is too long. */
  method MakeVendor(buf: array?<byte>, at: nat, v: Vendor) returns (len: nat)
    requires buf != null && VendorFits(v) ==> at + OPTION_HEADER + VendorLength(v) <= buf.Length
    modifies buf
    ensures len == if VendorFits(v) then VendorLength(v) else 0
    ensures buf != null && VendorFits(v) ==>
      |VendorData(v)| == len && buf[..at + OPTION_HEADER + len] == old(buf[..at]) + Encoded(Opt(VENDOR_CLASS, VendorData(v)))
    ensures buf != null && !VendorFits(v) ==> buf[..] == old(buf[..])
  {
    hide Be16, Be32, Sizes, Strings, Encoded, VendorHead, VendorData;
    var sizes := MeasureStrings(VendorItems(v));
    len := 4 + sizes;
    if len > 0xffff {
      return 0;
    }
    if buf != null {
      VendorMeasured(v);
      var pen: uint32 := if v.enterprise != 0 then v.enterprise else IANA_PEN;
      VendorEncoded(v, buf[..at]);
      PutHead(buf, at, len, pen);
      var next := PutStrings(buf, at + 8, VendorItems(v));
    }
  }

  /** The vendor class up to its strings. */
  function VendorHead(len: uint16, pen: uint32): (r: seq<byte>)
    ensures |r| == 8
  {
    Be16(VENDOR_CLASS) + Be16(len) + Be32(pen)
  }

  method PutHead(buf: array<byte>, at: nat, len: uint16, pen: uint32)
    requires at + 8 <= buf.Length
    modifies buf
    ensures buf[..at + 8] == old(buf[..at]) + VendorHead(len, pen)
  {
    hide Be16, Be32;
    Put(buf, at, VendorHead(len, pen)[..4]);
    Put(buf, at + 4, VendorHead(len, pen)[4..]);
  }

  lemma VendorEncoded(v: Vendor, before: seq<byte>)
    requires VendorFits(v)
    ensures |VendorData(v)| == VendorLength(v)
    ensures before + Encoded(Opt(VENDOR_CLASS, VendorData(v))) ==
      before + VendorHead(VendorLength(v), if v.enterprise != 0 then v.enterprise else IANA_PEN) + Strings(VendorItems(v))
  {
    hide Be16, Be32, Strings, VendorLength;
    VendorMeasured(v);
  }

  // the other parts

  /** The elapsed time, whose clearing runs over the two bytes it has into the option behind. */
  method PutElapsed(buf: array<byte>, at: nat) returns (next: nat)
    requires at + OPTION_HEADER + WORD_SIZE <= buf.Length
    modifies buf
    ensures next == at + OPTION_HEADER + 2
    ensures buf[..next] == old(buf[..at]) + Encoded(Opt(ELAPSED, [0, 0]))
  {
    hide Be16;
    ghost var before := buf[..at];
    Put(buf, at, Be16(ELAPSED));
    Put(buf, at + 2, Be16(2));
    Put(buf, at + 4, Zeros(WORD_SIZE));
    next := at + OPTION_HEADER + 2;
    assert buf[..at + 4 + WORD_SIZE] == before + Be16(ELAPSED) + Be16(2) + Zeros(WORD_SIZE);
    assert buf[..next] == buf[..at + 4 + WORD_SIZE][..next];
    assert Zeros(WORD_SIZE)[..2] == [0, 0];
  }

  /** An option behind those already written. */
  method Append(buf: array<byte>, at: nat, o: Opt, ghost before: seq<byte>, ghost done: seq<Opt>) returns (next: nat)
    requires Encodable(done) && |o.data| < U16_LIMIT && at + OPTION_HEADER + |o.data| <= buf.Length
    requires buf[..at] == before + EncodedAll(done)
    modifies buf
    ensures next == at + OPTION_HEADER + |o.data|
    ensures Encodable(done + [o]) && buf[..next] == before + EncodedAll(done + [o])
  {
    hide Encoded, EncodedAll;
    next := PutOption(buf, at, o);
    Appended(before, done, o);
  }

  lemma Appended(before: seq<byte>, done: seq<Opt>, o: Opt)
    requires Encodable(done) && |o.data| < U16_LIMIT
    ensures Encodable(done + [o])
    ensures before + EncodedAll(done) + Encoded(o) == before + EncodedAll(done + [o])
  {
    hide Encoded, EncodedAll;
    EncodedAllAppend(done, [o]);
    EncodedOne(o);
  }

  /** What an option takes of a list of options. */
  lemma RoomFor(done: seq<Opt>, o: Opt, rest: seq<Opt>)
    requires Encodable(done + [o] + rest)
    ensures |o.data| < U16_LIMIT && Encodable(done)
    ensures Total(done) + OPTION_HEADER + |o.data| + Total(rest) == Total(done + [o] + rest)
  {
    hide Total;
    TotalAppend(done, [o]);
    TotalAppend(done + [o], rest);
    TotalOne(o);
    assert (done + [o] + rest)[|done|] == o;
    assert forall i :: 0 <= i < |done| ==> (done + [o] + rest)[i] == done[i];
  }

  method PutRequests(buf: array<byte>, at: nat, cfg: Config, s: Session) returns (next: nat)
    requires Encodable(Requests(cfg, s)) && at + Total(Requests(cfg, s)) <= buf.Length
    modifies buf
    ensures next == at + Total(Requests(cfg, s))
    ensures buf[..next] == old(buf[..at]) + EncodedAll(Requests(cfg, s))
  {
    hide Encoded, EncodedAll, Total, FqdnData, WantedCodes, WantedCount;
    next := at;
    NothingEncoded();
    ghost var before, done := buf[..at], [];
    assert before + [] == before;
    if s.phase != Release {
      var n := MeasureRequests(cfg.table);
      ghost var tail := if n > 0 then [Opt(ORO, WantedCodes(cfg.table))] else [];
      if EffectiveFqdn(cfg) != Disable {
        var o := Opt(FQDN, FqdnData(cfg));
        assert [] + [o] + tail == Requests(cfg, s);
        RoomFor([], o, tail);
        next := Append(buf, next, o, before, []);
        assert [] + [o] == [o];
        done := [o];
      }
      TotalAppend(done, tail);
      assert Requests(cfg, s) == done + tail;
      if n > 0 {
        assert done + tail + [] == done + tail;
        RoomFor(done, tail[0], []);
        WantedLength(cfg.table);
        next := PutCodes(buf, next, cfg.table, n);
        Appended(before, done, tail[0]);
      } else {
        assert done + [] == done;
      }
    }
  }

  /** The codes of the options asked for. */
  method PutCodes(buf: array<byte>, at: nat, table: seq<OptDef>, n: nat) returns (next: nat)
    requires n == WantedCount(table) && |WantedCodes(table)| == 2 * n < U16_LIMIT
    requires at + OPTION_HEADER + 2 * n <= buf.Length
    modifies buf
    ensures next == at + OPTION_HEADER + 2 * n
    ensures buf[..next] == old(buf[..at]) + Encoded(Opt(ORO, WantedCodes(table)))
  {
    hide Be16, WantedCodes, WantedCount;
    ghost var before := buf[..at];
    Put(buf, at, Be16(ORO));
    Put(buf, at + 2, Be16(2 * n));
    next := at + OPTION_HEADER;
    ghost var head := buf[..next];
    assert head == before + Be16(ORO) + Be16(2 * n);
    var l := 0;
    assert table[0..] == table;
    while l < |table|
      invariant 0 <= l <= |table| && at <= next && next + |WantedCodes(table[l..])| == at + OPTION_HEADER + 2 * n
      invariant buf[..next] + WantedCodes(table[l..]) == head + WantedCodes(table)
    {
      CodesStep(table, l);
      ghost var was, c := buf[..next], Be16(table[l].option);
      if Wanted(table[l]) {
        Put(buf, next, Be16(table[l].option));
        next := next + 2;
        assert was + (c + WantedCodes(table[l + 1..])) == (was + c) + WantedCodes(table[l + 1..]);
      }
      l := l + 1;
    }
    CodesStep(table, l);
    assert buf[..next] + [] == buf[..next];
  }

  lemma CodesStep(table: seq<OptDef>, l: nat)
    requires l <= |table|
    ensures l < |table| && Wanted(table[l]) ==> WantedCodes(table[l..]) == Be16(table[l].option) + WantedCodes(table[l + 1..])
    ensures l < |table| && !Wanted(table[l]) ==> WantedCodes(table[l..]) == WantedCodes(table[l + 1..])
    ensures l == |table| ==> WantedCodes(table[l..]) == []
  {
    if l < |table| {
      assert table[l..][1..] == table[l + 1..];
    }
  }

  /** The client identifier and, where there is one, the server's. */
  function Ids(duid: seq<byte>, sid: Option<seq<byte>>): seq<Opt> {
    [Opt(CLIENTID, duid)] + (if sid.Some? then [Opt(SERVERID, sid.value)] else [])
  }

  method PutIds(buf: array<byte>, at: nat, duid: seq<byte>, sid: Option<seq<byte>>) returns (next: nat)
    requires Encodable(Ids(duid, sid)) && at + Total(Ids(duid, sid)) <= buf.Length
    modifies buf
    ensures next == at + Total(Ids(duid, sid))
    ensures buf[..next] == old(buf[..at]) + EncodedAll(Ids(duid, sid))
  {
    hide Encoded, EncodedAll, Total;
    ghost var before, ids := buf[..at], Ids(duid, sid);
    var c := Opt(CLIENTID, duid);
    NothingEncoded();
    TotalOne(c);
    assert before + [] == before;
    assert [] + [c] + ids[1..] == ids;
    RoomFor([], c, ids[1..]);
    next := Append(buf, at, c, before, []);
    assert [] + [c] == [c];
    if sid.Some? {
      var o := Opt(SERVERID, sid.value);
      assert [c] + [o] + [] == ids;
      RoomFor([c], o, []);
      next := Append(buf, next, o, before, [c]);
    } else {
      assert ids == [c];
    }
  }

  /** The elapsed time and the vendor class. */
  function Class(v: Vendor): seq<Opt> {
    [Opt(ELAPSED, [0, 0])] + [Opt(VENDOR_CLASS, VendorData(v))]
  }

  method PutClass(buf: array<byte>, at: nat, v: Vendor) returns (next: nat)
    requires VendorFits(v) && at + Total(Class(v)) <= buf.Length
    modifies buf
    ensures next == at + Total(Class(v))
    ensures Encodable(Class(v)) && buf[..next] == old(buf[..at]) + EncodedAll(Class(v))
  {
    hide Encoded, EncodedAll, Total, VendorData, VendorLength;
    ghost var before := buf[..at];
    ghost var e, o := Opt(ELAPSED, [0, 0]), Opt(VENDOR_CLASS, VendorData(v));
    VendorMeasured(v);
    VendorLeast(v);
    TotalAppend([e], [o]);
    TotalOne(e);
    TotalOne(o);
    EncodedOne(e);
    next := PutElapsed(buf, at);
    var len := MakeVendor(buf, next, v);
    next := next + OPTION_HEADER + len;
    Appended(before, [e], o);
  }

  lemma VendorLeast(v: Vendor)
    ensures VendorLength(v) >= 4
  {
  }

  function Rapid(cfg: Config, s: Session): seq<Opt> {
    if s.phase == Discover && cfg.rapid then [Opt(RAPID_COMMIT, [])] else []
  }

  lemma FrontParts(cfg: Config, s: Session)
    ensures var a, b, c := Ids(cfg.duid, ServerId(s)), Class(cfg.vendor), Rapid(cfg, s);
      && Front(cfg, s) == a + b + c && Total(Front(cfg, s)) == Total(a) + Total(b) + Total(c)
      && (Encodable(Front(cfg, s)) ==>
            && Encodable(a) && Encodable(b) && Encodable(c)
            && EncodedAll(Front(cfg, s)) == EncodedAll(a) + EncodedAll(b) + EncodedAll(c))
  {
    hide ServerId, VendorData, Total, EncodedAll;
    var a, b, c := Ids(cfg.duid, ServerId(s)), Class(cfg.vendor), Rapid(cfg, s);
    assert Front(cfg, s) == a + b + c;
    ThreeParts(a, b, c);
  }

  lemma ThreeParts(a: seq<Opt>, b: seq<Opt>, c: seq<Opt>)
    ensures Total(a + b + c) == Total(a) + Total(b) + Total(c)
    ensures Encodable(a + b + c) ==>
      && Encodable(a) && Encodable(b) && Encodable(c)
      && EncodedAll(a + b + c) == EncodedAll(a) + EncodedAll(b) + EncodedAll(c)
  {
    hide Total, EncodedAll;
    var all := a + b + c;
    TotalAppend(a, b);
    TotalAppend(a + b, c);
    if Encodable(all) {
      assert forall i :: 0 <= i < |a| ==> all[i] == a[i];
      assert forall i :: 0 <= i < |b| ==> all[|a| + i] == b[i];
      assert forall i :: 0 <= i < |c| ==> all[|a| + |b| + i] == c[i];
      EncodedAllAppend(a, b);
      EncodedAllAppend(a + b, c);
    }
  }

  method PutFront(buf: array<byte>, at: nat, cfg: Config, s: Session, sid: Option<seq<byte>>) returns (next: nat)
    requires sid == ServerId(s) && VendorFits(cfg.vendor)
    requires Encodable(Front(cfg, s)) && at + Total(Front(cfg, s)) <= buf.Length
    modifies buf
    ensures next == at + Total(Front(cfg, s))
    ensures buf[..next] == old(buf[..at]) + EncodedAll(Front(cfg, s))
  {
    hide Encoded, EncodedAll, Encodable, Total, ServerId, Ids, Class, Front, VendorFits;
    FrontParts(cfg, s);
    ghost var before, a, b := buf[..at], EncodedAll(Ids(cfg.duid, sid)), EncodedAll(Class(cfg.vendor));
    NothingEncoded();
    next := PutIds(buf, at, cfg.duid, sid);
    next := PutClass(buf, next, cfg.vendor);
    assert buf[..next] == before + (a + b);
    if s.phase == Discover && cfg.rapid {
      var o := Opt(RAPID_COMMIT, []);
      TotalOne(o);
      EncodedOne(o);
      next := PutOption(buf, next, o);
      assert buf[..next] == before + (a + b + Encoded(o));
    } else {
      assert a + b + [] == a + b;
    }
  }

  /** The header of the authentication option; its data stays as it is in memory. */
  method PutTrailer(buf: array<byte>, at: nat, authLen: uint16) returns (next: nat)
    requires at + TrailerSpace(authLen) <= buf.Length
    modifies buf
    ensures next == at + TrailerSpace(authLen)
    ensures Encodable(Trailer(buf[next - authLen..next]))
    ensures buf[..next] == old(buf[..at]) + EncodedAll(Trailer(buf[next - authLen..next]))
  {
    hide Be16, EncodedAll;
    next := at;
    NothingEncoded();
    ghost var before := buf[..at];
    assert before + [] == before;
    if authLen > 0 {
      Put(buf, at, Be16(AUTH));
      Put(buf, at + 2, Be16(authLen));
      next := at + OPTION_HEADER + authLen;
      ghost var o := Opt(AUTH, buf[at + 4..next]);
      EncodedOne(o);
      assert buf[..at + 4] == before + Be16(AUTH) + Be16(authLen);
      assert buf[..next] == buf[..at + 4] + buf[at + 4..next];
      assert buf[..next] == before + Encoded(o);
    }
  }

  // ----- the whole

  /** The options asked for and the name. */
  method MeasureAsked(cfg: Config, s: Session) returns (len: nat)
    ensures len == RequestSpace(cfg, s) + NameSpace(cfg, s, H.EncodedLength(NameOf(cfg)))
  {
    hide WantedCount, H.EncodedLength;
    len := 0;
    if s.phase != Release {
      var n := MeasureRequests(cfg.table);
      if n > 0 {
        len := 2 * n + OPTION_HEADER;
      }
      if EffectiveFqdn(cfg) != Disable {
        var name := H.EncodeRfc1035(NameOf(cfg), null);
        len := len + OPTION_HEADER + 1 + name;
      }
    }
  }

  method Measure(cfg: Config, s: Session, sid: Option<seq<byte>>) returns (len: nat)
    requires sid == ServerId(s)
    ensures len == Measured(cfg, s)
  {
    hide ServerId, LiveCount, VendorLength, H.EncodedLength, AddressSpace, RequestSpace, NameSpace;
    len := MeasureAsked(cfg, s);
    len := len + MESSAGE_HEADER + OPTION_HEADER + |cfg.duid| + OPTION_HEADER + 2;
    var vendor := MakeVendor(null, 0, cfg.vendor);
    len := len + OPTION_HEADER + vendor;
    if sid.Some? {
      len := len + OPTION_HEADER + |sid.value|;
    }
    NoSpace(cfg.kind);
    if CountsAddresses(s.phase) {
      var a := MeasureAddresses(cfg.kind, s.addrs);
      len := len + a;
    }
    if SendsIa(s.phase) {
      len := len + |cfg.ias| * (OPTION_HEADER + 12);
    }
    if s.phase == Discover && cfg.rapid {
      len := len + OPTION_HEADER;
    }
    if s.authLen > 0 {
      len := len + OPTION_HEADER + s.authLen;
    }
  }

  lemma NoSpace(kind: uint16)
    ensures AddressSpace(kind, 0) == 0
  {
  }

  method FindServerId(s: Session) returns (sid: Option<seq<byte>>)
    ensures sid == ServerId(s)
  {
    hide Find;
    if !NamesServer(s.phase) {
      return None;
    }
    var b := Source(s);
    var r := FindOption(b, SERVERID, 0);
    if r == None {
      return None;
    }
    sid := Some(b[r.value + OPTION_HEADER..r.value + OPTION_HEADER + LenAt(b, r.value)]);
  }

  /** All but the authentication. */
  function Body(cfg: Config, s: Session): seq<Opt>
    requires Sized(cfg, s.addrs)
  {
    Front(cfg, s) + Associations(cfg, s) + Requests(cfg, s)
  }

  /** What keeps the writing inside the memory allocated: lengths that fit their fields, and no more
      written than was measured. */
  ghost predicate Fits(cfg: Config, s: Session)
    requires Sized(cfg, s.addrs)
  {
    && VendorFits(cfg.vendor) && Encodable(Body(cfg, s))
    && MESSAGE_HEADER + Total(Body(cfg, s)) + TrailerSpace(s.authLen) <= Measured(cfg, s)
  }

  lemma WrittenIs(cfg: Config, s: Session, auth: seq<byte>)
    requires Sized(cfg, s.addrs)
    ensures Written(cfg, s, auth) == MESSAGE_HEADER + Total(Body(cfg, s)) + TrailerSpace(|auth|)
    ensures Options(cfg, s, auth) == Body(cfg, s) + Trailer(auth)
  {
    hide Total, Front, Associations, Requests, Trailer;
    TotalAppend(Body(cfg, s), Trailer(auth));
    TrailerTotal(auth);
  }

  /** Addresses that suit the phase, and lengths that fit their fields, are enough. */
  lemma SuitedFits(cfg: Config, s: Session)
    requires Sized(cfg, s.addrs) && VendorFits(cfg.vendor) && Encodable(Body(cfg, s)) && AddressesSuit(cfg, s)
    ensures Fits(cfg, s)
  {
    hide Body, Measured, Total, Options, Written, AddressesSuit, TrailerSpace;
    var auth := Zeros(s.authLen);
    MeasuredIffName(cfg, s, auth);
    WrittenIs(cfg, s, auth);
  }

  lemma BodyParts(cfg: Config, s: Session)
    requires Sized(cfg, s.addrs) && Encodable(Body(cfg, s))
    ensures var a, b, c := Front(cfg, s), Associations(cfg, s), Requests(cfg, s);
      && Encodable(a) && Encodable(b) && Encodable(c)
      && Total(Body(cfg, s)) == Total(a) + Total(b) + Total(c)
      && EncodedAll(Body(cfg, s)) == EncodedAll(a) + EncodedAll(b) + EncodedAll(c)
  {
    hide Front, Associations, Requests, Total, EncodedAll;
    ThreeParts(Front(cfg, s), Associations(cfg, s), Requests(cfg, s));
  }

  /** The writing pass. */
  method WriteMessage(buf: array<byte>, cfg: Config, s: Session, sid: Option<seq<byte>>, kind: byte, xid: seq<byte>)
    returns (end: nat)
    requires Sized(cfg, s.addrs) && Fits(cfg, s) && sid == ServerId(s) && |xid| == 3
    requires buf.Length == Measured(cfg, s)
    modifies buf
    ensures end == MESSAGE_HEADER + Total(Body(cfg, s)) + TrailerSpace(s.authLen) <= buf.Length
    ensures var auth := buf[end - s.authLen..end];
      Encodable(Trailer(auth)) && buf[..end] == [kind] + xid + (EncodedAll(Body(cfg, s)) + EncodedAll(Trailer(auth)))
  {
    hide Body, Measured, Total, EncodedAll, Encodable, VendorFits, ServerId, Trailer, Sized;
    ghost var head, body := [kind] + xid, EncodedAll(Body(cfg, s));
    Put(buf, 0, [kind] + xid);
    assert buf[..MESSAGE_HEADER] == head by {
      assert old(buf[..0]) == [];
    }
    end := PutBody(buf, MESSAGE_HEADER, cfg, s, sid);
    end := PutTrailer(buf, end, s.authLen);
    ghost var tail := EncodedAll(Trailer(buf[end - s.authLen..end]));
    assert (head + body) + tail == head + (body + tail);
  }

  method PutBody(buf: array<byte>, at: nat, cfg: Config, s: Session, sid: Option<seq<byte>>) returns (end: nat)
    requires Sized(cfg, s.addrs) && VendorFits(cfg.vendor) && Encodable(Body(cfg, s)) && sid == ServerId(s)
    requires at + Total(Body(cfg, s)) <= buf.Length
    modifies buf
    ensures end == at + Total(Body(cfg, s))
    ensures buf[..end] == old(buf[..at]) + EncodedAll(Body(cfg, s))
  {
    hide Body, Total, Front, Associations, Requests, EncodedAll, Encodable, VendorFits, ServerId;
    BodyParts(cfg, s);
    ghost var before := buf[..at];
    ghost var a, b, c := EncodedAll(Front(cfg, s)), EncodedAll(Associations(cfg, s)), EncodedAll(Requests(cfg, s));
    end := PutFront(buf, at, cfg, s, sid);
    end := PutAssociations(buf, end, cfg, s);
    end := PutRequests(buf, end, cfg, s);
    assert before + a + b + c == before + (a + b + c);
  }

  /** dhcp6_makemessage: refused without a message for the phase or without the server it must name;
      else memory of the measured length that begins with the header and exactly the options. */
  method MakeMessage(cfg: Config, s: Session, xid: seq<byte>) returns (r: Option<seq<byte>>)
    requires Sized(cfg, s.addrs) && |xid| == 3 && (Makes(s) ==> Fits(cfg, s))
    ensures r == None <==> !Makes(s)
    ensures r.Some? ==>
      && |r.value| == Measured(cfg, s)
      && exists auth :: |auth| == s.authLen && Starts(cfg, s, xid, r.value, auth)
  {
    hide Measured, Fits, Starts, ServerId, Sized;
    var sid := FindServerId(s);
    if NamesServer(s.phase) && sid == None {
      return None;
    }
    var len := Measure(cfg, s, sid);
    var kind := MessageType(s.phase);
    if kind == None {
      return None;
    }
    var buf := new byte[len];
    var end := WriteMessage(buf, cfg, s, sid, kind.value, xid);
    MessageIs(cfg, s, xid, buf[..], end);
    r := Some(buf[..]);
  }

  /** Memory that begins with the message made of these options. */
  ghost predicate Starts(cfg: Config, s: Session, xid: seq<byte>, m: seq<byte>, auth: seq<byte>)
    requires Sized(cfg, s.addrs) && MessageType(s.phase).Some?
  {
    && Written(cfg, s, auth) <= |m| && Encodable(Options(cfg, s, auth))
    && m[..Written(cfg, s, auth)] == [MessageType(s.phase).value] + xid + EncodedAll(Options(cfg, s, auth))
  }

  lemma MessageIs(cfg: Config, s: Session, xid: seq<byte>, m: seq<byte>, end: nat)
    requires Sized(cfg, s.addrs) && MessageType(s.phase).Some? && Fits(cfg, s)
    requires end == MESSAGE_HEADER + Total(Body(cfg, s)) + TrailerSpace(s.authLen) <= |m|
    requires var auth := m[end - s.authLen..end];
      && Encodable(Trailer(auth))
      && m[..end] == [MessageType(s.phase).value] + xid + (EncodedAll(Body(cfg, s)) + EncodedAll(Trailer(auth)))
    ensures exists auth :: |auth| == s.authLen && Starts(cfg, s, xid, m, auth)
  {
    hide Body, Measured, Total, Options, Written, EncodedAll, Trailer;
    var auth := m[end - s.authLen..end];
    WrittenIs(cfg, s, auth);
    EncodedAllAppend(Body(cfg, s), Trailer(auth));
    assert Starts(cfg, s, xid, m, auth);
  }
}
