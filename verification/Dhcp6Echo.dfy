/** A reply that repeats the client's own IAs changes nothing: writing, reading and reconciling fit
    together. */
module Dhcp6Echo {
  import opened Common
  import opened Dhcp6Wire
  import opened Dhcp6Lease
  import opened Dhcp6Message
  import opened Dhcp6ReadBack

  /** The live addresses of configured IAs, in order and not stale. */
  function Echoed(addrs: seq<Held>, ias: seq<seq<byte>>): seq<Held> {
    if addrs == [] then []
    else if addrs[0].vltime != 0 && addrs[0].iaid in ias then [addrs[0].(stale := false)] + Echoed(addrs[1..], ias)
    else Echoed(addrs[1..], ias)
  }

  /** Every IA that can be read is good: the reply is accepted. */
  lemma {:induction false} AcceptedIfGood(l: Lease, kind: uint16, ds: seq<seq<byte>>, n: nat)
    requires forall ia :: ia in AllIas(kind, ds) ==> ia.statusOk && ia.items != []
    ensures TakeIas(l, kind, ds, n).Done?
    decreases |ds|
  {
    hide ReadIa, TakeAll;
    if ds != [] {
      var ia, rest := ReadIa(kind, ds[0]), AllIas(kind, ds[1..]);
      assert forall x :: x in rest ==> x in AllIas(kind, ds);
      if ia == None {
        AcceptedIfGood(l, kind, ds[1..], n);
      } else {
        assert ia.value in AllIas(kind, ds);
        var l1 := l.(renew := Sooner(l.renew, ia.value.t1), rebind := Sooner(l.rebind, ia.value.t2));
        AcceptedIfGood(TakeAll(l1, ia.value.items), kind, ds[1..], n + 1);
      }
    }
  }

  lemma {:induction false} MembersOf(iaid: seq<byte>, addrs: seq<Held>, h: Held)
    ensures h in Members(iaid, addrs) <==> h in addrs && Belongs(iaid, h)
  {
    if addrs != [] {
      MembersOf(iaid, addrs[1..], h);
      assert addrs == [addrs[0]] + addrs[1..];
    }
  }

  lemma {:induction false} ItemsOfMembers(kind: uint16, hs: seq<Held>, x: Item)
    ensures x in AsItems(kind, hs) <==> exists h :: h in hs && x == AsItem(kind, h)
  {
    hide AsItem;
    if hs != [] {
      ItemsOfMembers(kind, hs[1..], x);
      assert hs == [hs[0]] + hs[1..] && hs[0] in hs;
    }
  }

  lemma ItemsOfOne(kind: uint16, iaid: seq<byte>, addrs: seq<Held>, x: Item)
    ensures x in AsItems(kind, Members(iaid, addrs)) <==> exists h :: h in addrs && Belongs(iaid, h) && x == AsItem(kind, h)
  {
    hide AsItem, AsItems, Members, Belongs;
    var ms := Members(iaid, addrs);
    ItemsOfMembers(kind, ms, x);
    if x in AsItems(kind, ms) {
      var h :| h in ms && x == AsItem(kind, h);
      MembersOf(iaid, addrs, h);
    }
    if h :| h in addrs && Belongs(iaid, h) && x == AsItem(kind, h) {
      MembersOf(iaid, addrs, h);
    }
  }

  /** The items the IAs report are those of the live addresses with an IA. */
  lemma {:induction false} ReportedItems(kind: uint16, ias: seq<seq<byte>>, addrs: seq<Held>, x: Item)
    ensures x in AllItems(Reported(kind, ias, addrs)) <==>
      exists h :: h in addrs && h.vltime != 0 && h.iaid in ias && x == AsItem(kind, h)
  {
    hide AsItem, AsItems, Members;
    if ias != [] {
      var rest := Reported(kind, ias[1..], addrs);
      assert Reported(kind, ias, addrs)[1..] == rest;
      ReportedItems(kind, ias[1..], addrs, x);
      ItemsOfOne(kind, ias[0], addrs, x);
      assert ias == [ias[0]] + ias[1..];
    }
  }

  lemma {:induction false} MembersDistinct(iaid: seq<byte>, addrs: seq<Held>)
    requires DistinctHeld(addrs)
    ensures DistinctHeld(Members(iaid, addrs))
  {
    if addrs != [] {
      MembersDistinct(iaid, addrs[1..]);
      var rest := Members(iaid, addrs[1..]);
      forall i | 0 <= i < |rest| ensures rest[i].key != addrs[0].key {
        MembersOf(iaid, addrs[1..], rest[i]);
        assert rest[i] in addrs[1..];
      }
    }
  }

  lemma {:induction false} ItemsDistinct(kind: uint16, hs: seq<Held>)
    requires DistinctHeld(hs)
    ensures DistinctKeys(AsItems(kind, hs)) && |AsItems(kind, hs)| == |hs|
    ensures forall i :: 0 <= i < |hs| ==> AsItems(kind, hs)[i] == AsItem(kind, hs[i])
  {
    if hs != [] {
      ItemsDistinct(kind, hs[1..]);
    }
  }

  lemma SameKeySameEntry(addrs: seq<Held>, a: Held, b: Held)
    requires DistinctHeld(addrs) && a in addrs && b in addrs && a.key == b.key
    ensures a == b
  {
  }

  lemma DistinctJoin(a: seq<Item>, b: seq<Item>)
    requires DistinctKeys(a) && DistinctKeys(b)
    requires forall x, y :: x in a && y in b ==> x.key != y.key
    ensures DistinctKeys(a + b)
  {
  }

  lemma {:induction false} ReportedDistinct(kind: uint16, ias: seq<seq<byte>>, addrs: seq<Held>)
    requires DistinctHeld(addrs) && DistinctIas(ias)
    ensures DistinctKeys(AllItems(Reported(kind, ias, addrs)))
  {
    hide AsItems, Members, DistinctHeld, DistinctKeys;
    if ias == [] {
      DistinctNone();
    } else {
      var first, rest := AsItems(kind, Members(ias[0], addrs)), AllItems(Reported(kind, ias[1..], addrs));
      assert Reported(kind, ias, addrs)[1..] == Reported(kind, ias[1..], addrs);
      ReportedDistinct(kind, ias[1..], addrs);
      MembersDistinct(ias[0], addrs);
      ItemsDistinct(kind, Members(ias[0], addrs));
      forall x, y | x in first && y in rest ensures x.key != y.key {
        CrossDistinct(kind, ias, addrs, x, y);
      }
      DistinctJoin(first, rest);
    }
  }

  lemma CrossDistinct(kind: uint16, ias: seq<seq<byte>>, addrs: seq<Held>, x: Item, y: Item)
    requires DistinctHeld(addrs) && DistinctIas(ias) && ias != []
    requires x in AsItems(kind, Members(ias[0], addrs)) && y in AllItems(Reported(kind, ias[1..], addrs))
    ensures x.key != y.key
  {
    hide AsItems, Members, DistinctHeld, AllItems, Reported;
    ItemsOfMembers(kind, Members(ias[0], addrs), x);
    var g :| g in Members(ias[0], addrs) && x == AsItem(kind, g);
    MembersOf(ias[0], addrs, g);
    ReportedItems(kind, ias[1..], addrs, y);
    var h :| h in addrs && h.vltime != 0 && h.iaid in ias[1..] && y == AsItem(kind, h);
    assert ias[0] !in ias[1..];
    if g.key == h.key {
      SameKeySameEntry(addrs, g, h);
    }
  }

  /** What the reply says of a held address is what the client holds. */
  lemma ItemForHeld(kind: uint16, ias: seq<seq<byte>>, addrs: seq<Held>, h: Held)
    requires DistinctHeld(addrs) && h in addrs
    ensures ItemFor(AllItems(Reported(kind, ias, addrs)), h.key) ==
      if h.vltime != 0 && h.iaid in ias then Some(AsItem(kind, h)) else None
  {
    hide AllItems, Reported, DistinctHeld, ItemFor;
    var xs := AllItems(Reported(kind, ias, addrs));
    var r := ItemFor(xs, h.key);
    ReportedItems(kind, ias, addrs, AsItem(kind, h));
    if r.Some? {
      ReportedItems(kind, ias, addrs, r.value);
      var g :| g in addrs && g.vltime != 0 && g.iaid in ias && r.value == AsItem(kind, g);
      SameKeySameEntry(addrs, g, h);
    }
  }

  lemma {:induction false} SurvivorsEchoed(kind: uint16, ias: seq<seq<byte>>, all: seq<Held>, hs: seq<Held>)
    requires DistinctHeld(all) && forall h :: h in hs ==> h in all
    ensures Survivors(hs, AllItems(Reported(kind, ias, all))) == Echoed(hs, ias)
  {
    hide AllItems, Reported, DistinctHeld, ItemFor;
    if hs != [] {
      assert hs[0] in hs && forall h :: h in hs[1..] ==> h in hs;
      ItemForHeld(kind, ias, all, hs[0]);
      SurvivorsEchoed(kind, ias, all, hs[1..]);
    }
  }

  lemma {:induction false} NoneNew(hs: seq<Held>, xs: seq<Item>, ids: nat)
    requires forall x :: x in xs ==> exists h :: h in hs && h.key == x.key
    ensures Newcomers(hs, xs, ids) == []
  {
    hide IndexOf;
    if xs != [] {
      assert xs[0] in xs && forall x :: x in xs[1..] ==> x in xs;
      NoneNew(hs, xs[1..], ids);
    }
  }

  lemma {:induction false} ReportedGood(kind: uint16, ias: seq<seq<byte>>, addrs: seq<Held>)
    requires forall i :: 0 <= i < |ias| ==> Members(ias[i], addrs) != []
    ensures forall ia :: ia in Reported(kind, ias, addrs) ==> ia.statusOk && ia.items != []
  {
    hide Members;
    if ias != [] {
      assert Members(ias[0], addrs) != [];
      forall i | 0 <= i < |ias[1..]| ensures Members(ias[1..][i], addrs) != [] {
        assert ias[1..][i] == ias[i + 1];
      }
      ReportedGood(kind, ias[1..], addrs);
    }
  }

  /** A reply that repeats the client's IAs, each with an address, is accepted and leaves exactly the
      live addresses of those IAs: same nodes, same order, same lifetimes, none of them news. */
  lemma EchoKeepsAddresses(l: Lease, kind: uint16, ias: seq<seq<byte>>, b: seq<byte>)
    requires DistinctHeld(l.addrs) && DistinctIas(ias)
    requires forall i :: 0 <= i < |ias| ==> Members(ias[i], l.addrs) != []
    requires AllIas(kind, FindAll(b, kind, 0)) == Reported(kind, ias, l.addrs)
    ensures FindIa(l, kind, b).Done? && FindIa(l, kind, b).l.addrs == Echoed(l.addrs, ias)
  {
    hide TakeIas, AllIas, FindAll, Reported, Members, AllItems, Survivors, Newcomers, DistinctHeld, DistinctIas, DistinctKeys, Kept, Echoed;
    var xs := AllItems(Reported(kind, ias, l.addrs));
    assert ReplyItems(kind, b) == xs;
    ReportedGood(kind, ias, l.addrs);
    AcceptedIfGood(l.(addrs := Marked(l.addrs)), kind, FindAll(b, kind, 0), 0);
    ReportedDistinct(kind, ias, l.addrs);
    Reconciled(l, kind, b);
    SurvivorsEchoed(kind, ias, l.addrs, l.addrs);
    forall x | x in xs ensures exists h :: h in l.addrs && h.key == x.key {
      ReportedItems(kind, ias, l.addrs, x);
    }
    NoneNew(l.addrs, xs, l.ids);
    assert Echoed(l.addrs, ias) + [] == Echoed(l.addrs, ias);
  }

  /** So does the client's own message, read as if it were the reply. */
  lemma OwnMessageKeepsAddresses(cfg: Config, s: Session, auth: seq<byte>, l: Lease)
    requires Sized(cfg, s.addrs) && Encodable(Options(cfg, s, auth)) && SendsIa(s.phase)
    requires l.addrs == s.addrs && DistinctHeld(l.addrs) && DistinctIas(cfg.ias)
    requires forall i :: 0 <= i < |cfg.ias| ==> Members(cfg.ias[i], l.addrs) != []
    ensures var b := EncodedAll(Options(cfg, s, auth));
      FindIa(l, cfg.kind, b).Done? && FindIa(l, cfg.kind, b).l.addrs == Echoed(l.addrs, cfg.ias)
  {
    hide Options, EncodedAll, FindIa, Echoed, DistinctHeld, DistinctIas, Members, Reported, AllIas, Sized, Encodable;
    MessageReadsBack(cfg, s, auth);
    EchoKeepsAddresses(l, cfg.kind, cfg.ias, EncodedAll(Options(cfg, s, auth)));
  }
}
