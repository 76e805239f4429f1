/** What every sequence of DHCPv6 replies, accepted or refused half way, does to the held addresses. */
module Dhcp6Replies {
  import opened Common
  import opened Dhcp6Wire
  import opened Dhcp6Lease

  predicate Good(ia: Ia) {
    ia.statusOk && ia.items != []
  }

  /** A refused reply has taken the items of the IAs before the one it was refused for, and no more:
      IA number j is the first that is not good, and exactly the items before it are taken. */
  lemma {:induction false} FailedTakes(l: Lease, kind: uint16, ds: seq<seq<byte>>, n: nat) returns (j: nat)
    requires TakeIas(l, kind, ds, n).Failed?
    ensures var ias := AllIas(kind, ds); j < |ias| && !Good(ias[j]) && forall i :: 0 <= i < j ==> Good(ias[i])
    ensures var xs := AllItems(AllIas(kind, ds)[..j]); var r := TakeIas(l, kind, ds, n).l;
      r.addrs == TakeAll(l, xs).addrs && r.intact == TakeAll(l, xs).intact && r.ids == TakeAll(l, xs).ids
    decreases |ds|
  {
    hide ReadIa, Take, TakeAll;
    var ia, rest := ReadIa(kind, ds[0]), AllIas(kind, ds[1..]);
    if ia == None {
      j := FailedTakes(l, kind, ds[1..], n);
      assert [] + rest == rest;
    } else {
      var i := ia.value;
      var l1 := l.(renew := Sooner(l.renew, i.t1), rebind := Sooner(l.rebind, i.t2));
      assert AllIas(kind, ds) == [i] + rest;
      TakeNothing(l);
      TakeNothing(l1);
      if !Good(i) {
        j := 0;
        assert ([i] + rest)[..0] == [] && AllItems([]) == [];
      } else {
        var l2 := TakeAll(l1, i.items);
        var k := FailedTakes(l2, kind, ds[1..], n + 1);
        j := k + 1;
        var some := rest[..k];
        assert ([i] + rest)[..j] == [i] + some;
        assert ([i] + some)[1..] == some;
        assert AllItems([i] + some) == i.items + AllItems(some);
        TakeAllAppend(l, i.items, AllItems(some));
        TakeAllTimes(l, i.items, l1.renew, l1.rebind);
        TakeAllTimes(TakeAll(l, i.items), AllItems(some), l1.renew, l1.rebind);
      }
    }
  }

  lemma {:induction false} AllItemsPrefix(ias: seq<Ia>, j: nat)
    requires j <= |ias|
    ensures AllItems(ias[..j]) <= AllItems(ias)
  {
    if j > 0 {
      AllItemsPrefix(ias[1..], j - 1);
      assert ias[..j][1..] == ias[1..][..j - 1];
    }
  }

  lemma DistinctPrefix(xs: seq<Item>, k: nat)
    requires k <= |xs| && DistinctKeys(xs)
    ensures DistinctKeys(xs[..k])
  {
  }

  /** While the items are taken no address is listed twice. */
  lemma DistinctMidway(hs: seq<Held>, xs: seq<Item>, ids: nat)
    requires DistinctHeld(hs) && DistinctKeys(xs)
    ensures DistinctHeld(Midway(hs, xs, ids))
  {
    hide IndexOf, ItemFor, Newcomers, Carries;
    NewcomersCarry(hs, xs, ids);
    NewcomersAre(hs, xs, ids);
    var t, n := TreatedAll(hs, xs), Newcomers(hs, xs, ids);
    forall i, j | 0 <= i < |t| && 0 <= j < |n| ensures t[i].key != n[j].key {
      assert n[j] in n && t[i].key == hs[i].key;
      assert IndexOf(hs, n[j].key) == |hs|;
    }
  }

  lemma TakenDistinct(l: Lease, xs: seq<Item>)
    requires DistinctHeld(l.addrs) && DistinctKeys(xs)
    ensures var r := TakeAll(l.(addrs := Marked(l.addrs)), xs); DistinctHeld(r.addrs) && r.intact == l.intact
  {
    hide Newcomers, TakeAll, IndexOf, DistinctHeld, DistinctKeys, ItemFor;
    var hs := l.addrs;
    assert [] + xs == xs;
    assert Marked(hs) == TreatedAll(hs, []) by {
      NoItemFor();
    }
    NoNewcomers(hs, l.ids);
    assert Midway(hs, [], l.ids) == Marked(hs);
    TakeAllMidway(hs, [], xs, l.ids, l.(addrs := Marked(hs)));
    DistinctMidway(hs, xs, l.ids);
  }

  lemma NoItemFor()
    ensures forall key :: ItemFor([], key) == None
  {
  }

  /** One reply, accepted or not, with each address once: the queue stays intact and lists no
      address twice. */
  lemma ReplyKeepsQueue(l: Lease, kind: uint16, b: seq<byte>)
    requires DistinctHeld(l.addrs) && l.intact && DistinctKeys(ReplyItems(kind, b))
    ensures var r := FindIa(l, kind, b).l; r.intact && DistinctHeld(r.addrs)
  {
    hide TakeIas, TakeAll, AllIas, AllItems, FindAll, Kept, DistinctHeld, DistinctKeys, Marked, Carries, ItemFor;
    var l0 := l.(addrs := Marked(l.addrs));
    var ds := FindAll(b, kind, 0);
    var xs := ReplyItems(kind, b);
    if TakeIas(l0, kind, ds, 0).Failed? {
      var j := FailedTakes(l0, kind, ds, 0);
      var ys := AllItems(AllIas(kind, ds)[..j]);
      AllItemsPrefix(AllIas(kind, ds), j);
      DistinctPrefix(xs, |ys|);
      assert ys == xs[..|ys|];
      TakenDistinct(l, ys);
    } else {
      IntactIffDistinct(l, kind, b);
      ReconciledKeys(l, kind, b);
    }
  }

  /** The held addresses after a sequence of replies, each validated on its own. */
  function AfterReplies(l: Lease, kind: uint16, bs: seq<seq<byte>>): Lease {
    if bs == [] then l else ValidateLease(AfterReplies(l, kind, bs[..|bs| - 1]), kind, bs[|bs| - 1]).l
  }

  /** The IAs dhcp6_validatelease hands on are all those of the message. */
  lemma FromFirst(b: seq<byte>, kind: uint16)
    requires Find(b, kind, 0).Some?
    ensures ReplyItems(kind, b[Find(b, kind, 0).value..]) == ReplyItems(kind, b)
  {
    hide Find, FindAll, AllIas, AllItems;
    var p := Find(b, kind, 0).value;
    assert b == b[..p] + b[p..];
    FindAllShift(b[..p], b[p..], kind, 0);
    SearchFrom(b, kind, 0);
  }

  /** Searching from a found option on finds that option. */
  lemma {:induction false} SearchFrom(b: seq<byte>, kind: uint16, p: nat)
    requires Find(b, kind, p).Some?
    ensures var q := Find(b, kind, p).value; Find(b, kind, q) == Some(q) && FindAll(b, kind, q) == FindAll(b, kind, p)
    decreases |b| - p
  {
    hide FindAll;
    var q := Find(b, kind, p).value;
    if q != p {
      SearchFrom(b, kind, p + OPTION_HEADER + LenAt(b, p));
    }
    FindAllOnce(b, kind, p);
    FindAllOnce(b, kind, q);
  }

  /** Over every sequence of replies that name no address twice, good or bad, the queue stays intact
      and lists no address twice. */
  lemma {:induction false} EveryReplyKeepsQueue(l: Lease, kind: uint16, bs: seq<seq<byte>>)
    requires DistinctHeld(l.addrs) && l.intact
    requires forall i :: 0 <= i < |bs| ==> DistinctKeys(ReplyItems(kind, bs[i]))
    ensures var r := AfterReplies(l, kind, bs); r.intact && DistinctHeld(r.addrs)
  {
    hide FindIa, ReplyItems, StatusOk, DistinctHeld, DistinctKeys, Find;
    if bs != [] {
      var before, b := bs[..|bs| - 1], bs[|bs| - 1];
      EveryReplyKeepsQueue(l, kind, before);
      var l1 := AfterReplies(l, kind, before);
      var first := Find(b, kind, 0);
      if first.Some? && StatusOk(b) {
        FromFirst(b, kind);
        ReplyKeepsQueue(l1.(renew := 0, rebind := 0, expire := 0, lowpl := FOREVER), kind, b[first.value..]);
      }
    }
  }
}
