/**
 Reconciling held addresses with a DHCPv6 reply (dhcp6_findna, dhcp6_findpd, dhcp6_findia and
 dhcp6_validatelease in dhcpcd/dhcp6.c): mark all stale, refresh or add what the reply names,
 sweep what stayed stale.
 */
module Dhcp6Lease {
  import opened Common
  import opened Dhcp6Wire

  const IA_NA := 3
  const IA_TA := 4
  const IA_ADDR := 5
  const STATUS_CODE := 13
  const IA_PD := 25
  const IA_PREFIX := 26
  const FOREVER: uint32 := 0xffff_ffff

  /** An address or delegated prefix the client holds; `id` is the identity of its node. */
  datatype Held = Held(
    id: nat, key: seq<byte>, iaid: seq<byte>, plen: byte,
    pltime: uint32, vltime: uint32, isNew: bool, stale: bool)

  /** What one IA Address or IA Prefix option says. */
  datatype Item = Item(key: seq<byte>, plen: byte, pltime: uint32, vltime: uint32, iaid: seq<byte>)

  /** The address queue and times of an interface.  `ids` is the next node identity; `intact` turns
      false when a node already in the queue is put in it again, which breaks its links. */
  datatype Lease = Lease(
    addrs: seq<Held>, renew: uint32, rebind: uint32, expire: uint32, lowpl: uint32, ids: nat, intact: bool)

  // ----- one item

  /** Position of the entry with this address or prefix, or the length. */
  function IndexOf(addrs: seq<Held>, key: seq<byte>): (i: nat)
    ensures i <= |addrs|
    ensures forall j :: 0 <= j < i ==> addrs[j].key != key
    ensures i < |addrs| ==> addrs[i].key == key
  {
    if addrs == [] then 0 else if addrs[0].key == key then 0 else 1 + IndexOf(addrs[1..], key)
  }

  /** An entry brought up to date. */
  function Refreshed(h: Held, x: Item): Held {
    h.(pltime := x.pltime, vltime := x.vltime, isNew := h.isNew || h.vltime != x.vltime, stale := false)
  }

  function Fresh(id: nat, x: Item): Held {
    Held(id, x.key, x.iaid, x.plen, x.pltime, x.vltime, true, false)
  }

  function Lower(lowpl: uint32, x: Item): uint32 {
    if x.pltime != 0 && x.pltime < lowpl then x.pltime else lowpl
  }

  function Later(expire: uint32, x: Item): uint32 {
    if x.vltime != 0 && x.vltime > expire then x.vltime else expire
  }

  /** The loop body of dhcp6_findna and dhcp6_findpd for an option that is long enough. */
  function Take(l: Lease, x: Item): Lease {
    var i := IndexOf(l.addrs, x.key);
    var l1 := l.(lowpl := Lower(l.lowpl, x), expire := Later(l.expire, x));
    if i == |l.addrs| then l1.(addrs := l.addrs + [Fresh(l.ids, x)], ids := l.ids + 1)
    else
      var h := Refreshed(l.addrs[i], x);
      l1.(addrs := l.addrs[i := h], intact := l.intact && l.addrs[i].stale)
  }

  function TakeAll(l: Lease, xs: seq<Item>): Lease
    decreases |xs|
  {
    if xs == [] then l else TakeAll(Take(l, xs[0]), xs[1..])
  }

  // ----- one IA

  /** An IA option after its fixed part was read. */
  datatype Ia = Ia(t1: uint32, t2: uint32, statusOk: bool, items: seq<Item>)

  function ItemOf(pd: bool, iaid: seq<byte>, d: seq<byte>): Option<Item> {
    if pd then
      if |d| < 25 then None else Some(Item(d[9..25], d[8], FromBe32(d[..4]), FromBe32(d[4..8]), iaid))
    else
      if |d| < 24 then None else Some(Item(d[..16], 128, FromBe32(d[16..20]), FromBe32(d[20..24]), iaid))
  }

  /** The items of an IA in order; truncated ones are skipped. */
  function ItemsOf(pd: bool, iaid: seq<byte>, ds: seq<seq<byte>>): seq<Item> {
    if ds == [] then []
    else
      var x := ItemOf(pd, iaid, ds[0]);
      (if x.Some? then [x.value] else []) + ItemsOf(pd, iaid, ds[1..])
  }

  /** dhcp6_checkstatusok inside an IA: no status is fine, a truncated or nonzero one is not. */
  predicate StatusOk(b: seq<byte>) {
    var r := Find(b, STATUS_CODE, 0);
    r.Some? ==> LenAt(b, r.value) >= 2 && CodeOf(b, r.value) == 0
  }

  function CodeOf(b: seq<byte>, p: nat): uint16
    requires p + OPTION_HEADER + 2 <= |b|
  {
    Word(b[p + 4], b[p + 5])
  }

  /** T1 and T2 are dropped together when T1 exceeds a nonzero T2. */
  function ReadIa(kind: uint16, d: seq<byte>): Option<Ia> {
    if |d| < (if kind == IA_TA then 4 else 12) then None
    else
      var iaid := d[..4];
      var rest := if kind == IA_TA then d[4..] else d[12..];
      var (t1, t2) := if kind == IA_TA then (0, 0) else (FromBe32(d[4..8]), FromBe32(d[8..12]));
      var bad := t1 > t2 && t2 > 0;
      var pd := kind == IA_PD;
      Some(Ia(if bad then 0 else t1, if bad then 0 else t2, StatusOk(rest),
              ItemsOf(pd, iaid, FindAll(rest, if pd then IA_PREFIX else IA_ADDR, 0))))
  }

  function Sooner(t: uint32, u: uint32): uint32 {
    if u != 0 && (u < t || t == 0) then u else t
  }

  datatype Outcome = Failed(l: Lease) | Done(l: Lease, n: nat)

  /** The loop of dhcp6_findia over the IA options found. */
  function TakeIas(l: Lease, kind: uint16, ds: seq<seq<byte>>, n: nat): Outcome
    decreases |ds|
  {
    if ds == [] then Done(l, n)
    else
      var ia := ReadIa(kind, ds[0]);
      if ia == None then TakeIas(l, kind, ds[1..], n)
      else
        var l1 := l.(renew := Sooner(l.renew, ia.value.t1), rebind := Sooner(l.rebind, ia.value.t2));
        if !ia.value.statusOk then Failed(l1)
        else
          var l2 := TakeAll(l1, ia.value.items);
          if ia.value.items == [] then Failed(l2)
          else TakeIas(l2, kind, ds[1..], n + 1)
  }

  function Marked(addrs: seq<Held>): (r: seq<Held>)
    ensures |r| == |addrs|
  {
    seq(|addrs|, i requires 0 <= i < |addrs| => addrs[i].(stale := true))
  }

  /** What the sweep keeps, in order. */
  function Kept(addrs: seq<Held>): seq<Held> {
    if addrs == [] then []
    else if addrs[0].stale then Kept(addrs[1..])
    else [addrs[0]] + Kept(addrs[1..])
  }

  /** dhcp6_findia on the bytes from the first IA on; a failure leaves the marks in place. */
  function FindIa(l: Lease, kind: uint16, b: seq<byte>): Outcome {
    match TakeIas(l.(addrs := Marked(l.addrs)), kind, FindAll(b, kind, 0), 0)
    case Failed(l1) => Failed(l1)
    case Done(l1, n) => Done(l1.(addrs := Kept(l1.addrs)), n)
  }

  /** dhcp6_validatelease on the options of a message. */
  function ValidateLease(l: Lease, kind: uint16, b: seq<byte>): Outcome {
    var first := Find(b, kind, 0);
    if first == None || !StatusOk(b) then Failed(l)
    else FindIa(l.(renew := 0, rebind := 0, expire := 0, lowpl := FOREVER), kind, b[first.value..])
  }

  // ----- what a successful reply means

  /** All IAs of a reply that are long enough. */
  function AllIas(kind: uint16, ds: seq<seq<byte>>): seq<Ia> {
    if ds == [] then []
    else
      var ia := ReadIa(kind, ds[0]);
      (if ia.Some? then [ia.value] else []) + AllIas(kind, ds[1..])
  }

  function AllItems(ias: seq<Ia>): seq<Item> {
    if ias == [] then [] else ias[0].items + AllItems(ias[1..])
  }

  ghost predicate DistinctKeys(xs: seq<Item>) {
    forall i, j :: 0 <= i < j < |xs| ==> xs[i].key != xs[j].key
  }

  ghost predicate DistinctHeld(hs: seq<Held>) {
    forall i, j :: 0 <= i < j < |hs| ==> hs[i].key != hs[j].key
  }

  /** The item for this address, if the reply has one. */
  function ItemFor(xs: seq<Item>, key: seq<byte>): (r: Option<Item>)
    ensures r.Some? ==> r.value in xs && r.value.key == key
    ensures r == None ==> forall x :: x in xs ==> x.key != key
  {
    if xs == [] then None
    else if xs[0].key == key then Some(xs[0])
    else ItemFor(xs[1..], key)
  }

  /** A held entry after the items so far: refreshed if named, else marked stale. */
  function Treated(h: Held, xs: seq<Item>): Held {
    var x := ItemFor(xs, h.key);
    if x.Some? then Refreshed(h, x.value) else h.(stale := true)
  }

  function TreatedAll(hs: seq<Held>, xs: seq<Item>): (r: seq<Held>)
    ensures |r| == |hs|
  {
    seq(|hs|, i requires 0 <= i < |hs| => Treated(hs[i], xs))
  }

  /** Entries for the items that name something not held, in reply order. */
  function Newcomers(hs: seq<Held>, xs: seq<Item>, ids: nat): seq<Held> {
    if xs == [] then []
    else if IndexOf(hs, xs[0].key) < |hs| then Newcomers(hs, xs[1..], ids)
    else [Fresh(ids, xs[0])] + Newcomers(hs, xs[1..], ids + 1)
  }

  /** Held entries the reply names, refreshed, in the order they were held. */
  function Survivors(hs: seq<Held>, xs: seq<Item>): seq<Held> {
    if hs == [] then []
    else
      var x := ItemFor(xs, hs[0].key);
      if x == None then Survivors(hs[1..], xs)
      else [Refreshed(hs[0], x.value)] + Survivors(hs[1..], xs)
  }

  // ----- proofs: the list

  lemma {:induction false} ItemForSnoc(xs: seq<Item>, x: Item, key: seq<byte>)
    ensures ItemFor(xs + [x], key) ==
      if ItemFor(xs, key).Some? then ItemFor(xs, key) else if x.key == key then Some(x) else None
  {
    if xs == [] {
      assert xs + [x] == [x];
    } else {
      assert (xs + [x])[1..] == xs[1..] + [x];
      ItemForSnoc(xs[1..], x, key);
    }
  }

  lemma {:induction false} NewcomersSnoc(hs: seq<Held>, xs: seq<Item>, x: Item, ids: nat)
    ensures var n := Newcomers(hs, xs, ids);
      Newcomers(hs, xs + [x], ids) == if IndexOf(hs, x.key) < |hs| then n else n + [Fresh(ids + |n|, x)]
  {
    if xs == [] {
      assert xs + [x] == [x];
      assert [x][1..] == [];
    } else {
      assert (xs + [x])[1..] == xs[1..] + [x];
      if IndexOf(hs, xs[0].key) < |hs| {
        NewcomersSnoc(hs, xs[1..], x, ids);
      } else {
        NewcomersSnoc(hs, xs[1..], x, ids + 1);
      }
    }
  }

  /** Nodes just made, with consecutive identities. */
  ghost predicate JustMade(n: seq<Held>, ids: nat) {
    forall i :: 0 <= i < |n| ==> !n[i].stale && n[i].id == ids + i
  }

  lemma {:induction false} NewcomersAre(hs: seq<Held>, xs: seq<Item>, ids: nat)
    ensures JustMade(Newcomers(hs, xs, ids), ids)
    ensures forall h :: h in Newcomers(hs, xs, ids) ==> ItemFor(xs, h.key).Some? && IndexOf(hs, h.key) == |hs|
  {
    hide IndexOf;
    if xs != [] {
      var n := Newcomers(hs, xs, ids);
      if IndexOf(hs, xs[0].key) < |hs| {
        NewcomersAre(hs, xs[1..], ids);
      } else {
        NewcomersAre(hs, xs[1..], ids + 1);
        assert forall i :: 1 <= i < |n| ==> n[i] == Newcomers(hs, xs[1..], ids + 1)[i - 1];
      }
    }
  }

  /** The list once the items in xs have been taken. */
  function Midway(hs: seq<Held>, xs: seq<Item>, ids: nat): seq<Held> {
    TreatedAll(hs, xs) + Newcomers(hs, xs, ids)
  }

  lemma IndexUnique(hs: seq<Held>, key: seq<byte>, i: nat)
    requires i <= |hs| && (forall j :: 0 <= j < i ==> hs[j].key != key) && (i < |hs| ==> hs[i].key == key)
    ensures IndexOf(hs, key) == i
  {
  }

  lemma TreatedStep(hs: seq<Held>, xs: seq<Item>, x: Item)
    requires DistinctHeld(hs) && DistinctKeys(xs + [x])
    ensures var i := IndexOf(hs, x.key); var t := TreatedAll(hs, xs);
      && (i < |hs| ==> t[i].stale)
      && TreatedAll(hs, xs + [x]) == if i < |hs| then t[i := Refreshed(t[i], x)] else t
  {
    hide IndexOf, ItemFor;
    var i := IndexOf(hs, x.key);
    var t := TreatedAll(hs, xs);
    NotYetNamed(xs, x);
    forall j | 0 <= j < |hs| ensures Treated(hs[j], xs + [x]) == if j == i then Refreshed(t[i], x) else t[j] {
      ItemForSnoc(xs, x, hs[j].key);
      assert j != i ==> hs[j].key != x.key;
    }
  }

  lemma FoundAmongTreated(hs: seq<Held>, xs: seq<Item>, x: Item, ids: nat)
    requires DistinctKeys(xs + [x])
    ensures var i := IndexOf(hs, x.key); var m := Midway(hs, xs, ids);
      IndexOf(m, x.key) == if i < |hs| then i else |m|
  {
    hide IndexOf, ItemFor, Newcomers;
    var i := IndexOf(hs, x.key);
    var t, n := TreatedAll(hs, xs), Newcomers(hs, xs, ids);
    NotYetNamed(xs, x);
    NewcomersAre(hs, xs, ids);
    assert forall j :: 0 <= j < |hs| ==> t[j].key == hs[j].key;
    IndexUnique(t + n, x.key, if i < |hs| then i else |t + n|);
  }

  /** Taking one more item, not named before, moves from one midway list to the next. */
  lemma TakeStep(hs: seq<Held>, xs: seq<Item>, x: Item, ids: nat, l: Lease)
    requires DistinctHeld(hs) && DistinctKeys(xs + [x])
    requires l.addrs == Midway(hs, xs, ids) && l.ids == ids + |Newcomers(hs, xs, ids)|
    ensures Take(l, x).addrs == Midway(hs, xs + [x], ids)
    ensures Take(l, x).ids == ids + |Newcomers(hs, xs + [x], ids)|
    ensures Take(l, x).intact == l.intact
  {
    hide Newcomers, IndexOf, TreatedAll, DistinctHeld, DistinctKeys;
    var i := IndexOf(hs, x.key);
    var t, n := TreatedAll(hs, xs), Newcomers(hs, xs, ids);
    NewcomersSnoc(hs, xs, x, ids);
    TreatedStep(hs, xs, x);
    FoundAmongTreated(hs, xs, x, ids);
    if i < |hs| {
      assert (t + n)[i := Refreshed(t[i], x)] == t[i := Refreshed(t[i], x)] + n;
    }
  }

  lemma NotYetNamed(xs: seq<Item>, x: Item)
    requires DistinctKeys(xs + [x])
    ensures ItemFor(xs, x.key) == None && forall y :: y in xs ==> y.key != x.key
  {
    forall i | 0 <= i < |xs| ensures xs[i].key != x.key {
      assert (xs + [x])[i] == xs[i] && (xs + [x])[|xs|] == x;
    }
  }

  lemma {:induction false} TakeAllMidway(hs: seq<Held>, done: seq<Item>, rest: seq<Item>, ids: nat, l: Lease)
    requires DistinctHeld(hs) && DistinctKeys(done + rest)
    requires l.addrs == Midway(hs, done, ids) && l.ids == ids + |Newcomers(hs, done, ids)|
    ensures TakeAll(l, rest).addrs == Midway(hs, done + rest, ids)
    ensures TakeAll(l, rest).intact == l.intact
    decreases |rest|
  {
    hide Newcomers, Take, Midway;
    if rest == [] {
      assert done + rest == done;
    } else {
      var x := rest[0];
      assert done + rest == (done + [x]) + rest[1..];
      assert DistinctKeys(done + [x]) by {
        assert forall i :: 0 <= i <= |done| ==> (done + [x])[i] == (done + rest)[i];
      }
      TakeStep(hs, done, x, ids, l);
      TakeAllMidway(hs, done + [x], rest[1..], ids, Take(l, x));
    }
  }

  lemma NoNewcomers(hs: seq<Held>, ids: nat)
    ensures Newcomers(hs, [], ids) == []
  {
  }

  lemma {:induction false} KeptAppend(a: seq<Held>, b: seq<Held>)
    ensures Kept(a + b) == Kept(a) + Kept(b)
  {
    if a == [] {
      assert a + b == b;
    } else {
      assert (a + b)[1..] == a[1..] + b;
      KeptAppend(a[1..], b);
    }
  }

  lemma {:induction false} KeptAll(a: seq<Held>)
    requires forall h :: h in a ==> !h.stale
    ensures Kept(a) == a
  {
    if a != [] {
      KeptAll(a[1..]);
      assert a == [a[0]] + a[1..];
    }
  }

  lemma {:induction false} KeptTreated(hs: seq<Held>, xs: seq<Item>)
    ensures Kept(TreatedAll(hs, xs)) == Survivors(hs, xs)
  {
    if hs != [] {
      var t := TreatedAll(hs, xs);
      assert t[1..] == TreatedAll(hs[1..], xs);
      KeptTreated(hs[1..], xs);
    }
  }

  /** Marking, taking distinct items and sweeping gives the survivors followed by the newcomers. */
  lemma SweptIsReconciled(l: Lease, xs: seq<Item>)
    requires DistinctHeld(l.addrs) && DistinctKeys(xs)
    ensures Kept(TakeAll(l.(addrs := Marked(l.addrs)), xs).addrs) ==
      Survivors(l.addrs, xs) + Newcomers(l.addrs, xs, l.ids)
    ensures TakeAll(l.(addrs := Marked(l.addrs)), xs).intact == l.intact
  {
    hide Newcomers, Survivors, Kept, TakeAll, IndexOf;
    var hs := l.addrs;
    assert [] + xs == xs;
    assert Marked(hs) == TreatedAll(hs, []);
    NoNewcomers(hs, l.ids);
    assert Midway(hs, [], l.ids) == Marked(hs);
    TakeAllMidway(hs, [], xs, l.ids, l.(addrs := Marked(hs)));
    KeptAppend(TreatedAll(hs, xs), Newcomers(hs, xs, l.ids));
    NewcomersAre(hs, xs, l.ids);
    KeptAll(Newcomers(hs, xs, l.ids));
    KeptTreated(hs, xs);
  }

  // ----- proofs: several IAs, and the times

  lemma {:induction false} TakeAllAppend(l: Lease, a: seq<Item>, b: seq<Item>)
    ensures TakeAll(l, a + b) == TakeAll(TakeAll(l, a), b)
    decreases |a|
  {
    hide Take;
    if a == [] {
      assert a + b == b;
    } else {
      assert (a + b)[1..] == a[1..] + b;
      TakeAllAppend(Take(l, a[0]), a[1..], b);
    }
  }

  lemma {:induction false} TakeAllTimes(l: Lease, xs: seq<Item>, renew: uint32, rebind: uint32)
    ensures TakeAll(l.(renew := renew, rebind := rebind), xs) == TakeAll(l, xs).(renew := renew, rebind := rebind)
    ensures TakeAll(l, xs).renew == l.renew && TakeAll(l, xs).rebind == l.rebind
    decreases |xs|
  {
    hide IndexOf;
    if xs != [] {
      TakeAllTimes(Take(l, xs[0]), xs[1..], renew, rebind);
    }
  }

  function SoonestT1(t: uint32, ias: seq<Ia>): uint32
    decreases |ias|
  {
    if ias == [] then t else SoonestT1(Sooner(t, ias[0].t1), ias[1..])
  }

  function SoonestT2(t: uint32, ias: seq<Ia>): uint32
    decreases |ias|
  {
    if ias == [] then t else SoonestT2(Sooner(t, ias[0].t2), ias[1..])
  }

  /** A successful loop over the IAs took all their items in order and the soonest times. */
  lemma {:induction false} TakeIasIsTakeAll(l: Lease, kind: uint16, ds: seq<seq<byte>>, n: nat)
    requires TakeIas(l, kind, ds, n).Done?
    ensures var r := TakeIas(l, kind, ds, n); var ias := AllIas(kind, ds);
      && r.n == n + |ias|
      && r.l == TakeAll(l, AllItems(ias)).(renew := SoonestT1(l.renew, ias), rebind := SoonestT2(l.rebind, ias))
    decreases |ds|
  {
    hide ReadIa, Take, TakeAll;
    if ds == [] {
      TakeNothing(l);
    } else {
      var ia := ReadIa(kind, ds[0]);
      if ia == None {
        TakeIasIsTakeAll(l, kind, ds[1..], n);
        assert [] + AllIas(kind, ds[1..]) == AllIas(kind, ds[1..]);
      } else {
        var i := ia.value;
        var rest := AllIas(kind, ds[1..]);
        var l1 := l.(renew := Sooner(l.renew, i.t1), rebind := Sooner(l.rebind, i.t2));
        var l2 := TakeAll(l1, i.items);
        TakeIasIsTakeAll(l2, kind, ds[1..], n + 1);
        assert AllIas(kind, ds) == [i] + rest;
        assert ([i] + rest)[1..] == rest;
        TakeAllTimes(l, i.items, l1.renew, l1.rebind);
        TakeAllTimes(l1, i.items, l1.renew, l1.rebind);
        TakeAllAppend(l, i.items, AllItems(rest));
        TakeAllTimes(TakeAll(l, i.items), AllItems(rest), l1.renew, l1.rebind);
      }
    }
  }

  lemma TakeNothing(l: Lease)
    ensures TakeAll(l, []) == l
  {
  }

  /** expire is the largest valid lifetime, lowpl the smallest nonzero preferred one. */
  lemma {:induction false} TakenTimes(l: Lease, xs: seq<Item>)
    ensures var r := TakeAll(l, xs);
      && l.expire <= r.expire && (forall x :: x in xs ==> x.vltime <= r.expire)
      && (r.expire == l.expire || exists x :: x in xs && x.vltime == r.expire)
      && r.lowpl <= l.lowpl && (forall x :: x in xs && x.pltime != 0 ==> r.lowpl <= x.pltime)
      && (r.lowpl == l.lowpl || exists x :: x in xs && x.pltime == r.lowpl)
    decreases |xs|
  {
    hide IndexOf;
    if xs != [] {
      TakenTimes(Take(l, xs[0]), xs[1..]);
      assert xs == [xs[0]] + xs[1..];
      assert xs[0] in xs;
    }
  }

  lemma {:induction false} SoonestTimes(t: uint32, u: uint32, ias: seq<Ia>)
    ensures var r := SoonestT1(t, ias);
      && (t != 0 ==> 0 < r <= t) && (forall i :: i in ias && i.t1 != 0 ==> 0 < r <= i.t1)
      && (r == t || exists i :: i in ias && i.t1 == r)
    ensures var r := SoonestT2(u, ias);
      && (u != 0 ==> 0 < r <= u) && (forall i :: i in ias && i.t2 != 0 ==> 0 < r <= i.t2)
      && (r == u || exists i :: i in ias && i.t2 == r)
    decreases |ias|
  {
    if ias != [] {
      SoonestTimes(Sooner(t, ias[0].t1), Sooner(u, ias[0].t2), ias[1..]);
      assert ias == [ias[0]] + ias[1..];
      assert ias[0] in ias;
    }
  }

  /** T1 and T2 of an IA are what the option says, or both dropped when T1 > T2 > 0. */
  lemma TimesOfIa(kind: uint16, d: seq<byte>)
    requires kind != IA_TA && |d| >= 12
    ensures var ia := ReadIa(kind, d).value; var (t1, t2) := (FromBe32(d[4..8]), FromBe32(d[8..12]));
      if t1 > t2 > 0 then ia.t1 == 0 && ia.t2 == 0 else ia.t1 == t1 && ia.t2 == t2
  {
    hide FromBe32, StatusOk, ItemsOf, FindAll;
  }

  /** The items of a reply, in order. */
  function ReplyItems(kind: uint16, b: seq<byte>): seq<Item> {
    AllItems(AllIas(kind, FindAll(b, kind, 0)))
  }

  /** After a successful dhcp6_findia on a reply with distinct addresses the list is exactly the
      reply's: what was held and is named survives in place with its identity, what is new follows
      in reply order, nothing else is left. */
  lemma Reconciled(l: Lease, kind: uint16, b: seq<byte>)
    requires DistinctHeld(l.addrs) && DistinctKeys(ReplyItems(kind, b)) && FindIa(l, kind, b).Done?
    ensures var xs := ReplyItems(kind, b);
      FindIa(l, kind, b).l.addrs == Survivors(l.addrs, xs) + Newcomers(l.addrs, xs, l.ids)
  {
    hide TakeIas, TakeAll, AllIas, AllItems, FindAll, Kept, Survivors, Newcomers;
    var l0 := l.(addrs := Marked(l.addrs));
    TakeIasIsTakeAll(l0, kind, FindAll(b, kind, 0), 0);
    SweptIsReconciled(l, ReplyItems(kind, b));
  }

  /** ... and the times are the reply's: from zero, expire is its largest valid lifetime, renew and
      rebind its smallest nonzero T1 and T2, lowpl its smallest nonzero preferred lifetime. */
  lemma ReconciledTimes(l: Lease, kind: uint16, b: seq<byte>)
    requires l.renew == 0 && l.rebind == 0 && l.expire == 0 && l.lowpl == FOREVER
    requires FindIa(l, kind, b).Done?
    ensures var xs := ReplyItems(kind, b); var ias := AllIas(kind, FindAll(b, kind, 0)); var r := FindIa(l, kind, b).l;
      && (forall x :: x in xs ==> x.vltime <= r.expire) && (r.expire == 0 || exists x :: x in xs && x.vltime == r.expire)
      && (forall x :: x in xs && x.pltime != 0 ==> r.lowpl <= x.pltime)
      && (r.lowpl == FOREVER || exists x :: x in xs && x.pltime == r.lowpl)
      && (forall i :: i in ias && i.t1 != 0 ==> 0 < r.renew <= i.t1) && (r.renew == 0 || exists i :: i in ias && i.t1 == r.renew)
      && (forall i :: i in ias && i.t2 != 0 ==> 0 < r.rebind <= i.t2) && (r.rebind == 0 || exists i :: i in ias && i.t2 == r.rebind)
  {
    hide TakeIas, TakeAll, AllIas, FindAll, Kept, SoonestT1, SoonestT2, AllItems;
    var l0 := l.(addrs := Marked(l.addrs));
    var ds := FindAll(b, kind, 0);
    TakeIasIsTakeAll(l0, kind, ds, 0);
    TakenTimes(l0, ReplyItems(kind, b));
    SoonestTimes(0, 0, AllIas(kind, ds));
  }

  /** The entry is live with the lifetimes of this item. */
  ghost predicate Carries(h: Held, x: Option<Item>) {
    !h.stale && x.Some? && h.key == x.value.key && h.pltime == x.value.pltime && h.vltime == x.value.vltime
  }

  lemma {:induction false} SurvivorsCarry(hs: seq<Held>, xs: seq<Item>)
    requires DistinctHeld(hs)
    ensures forall s :: s in Survivors(hs, xs) ==> Carries(s, ItemFor(xs, s.key)) && exists h :: h in hs && h.key == s.key
    ensures DistinctHeld(Survivors(hs, xs))
  {
    hide ItemFor;
    if hs != [] {
      SurvivorsCarry(hs[1..], xs);
      assert hs[0] in hs && hs == [hs[0]] + hs[1..];
      assert forall h :: h in hs[1..] ==> h.key != hs[0].key;
    }
  }

  lemma {:induction false} NewcomersCarry(hs: seq<Held>, xs: seq<Item>, ids: nat)
    requires DistinctKeys(xs)
    ensures forall s :: s in Newcomers(hs, xs, ids) ==> Carries(s, ItemFor(xs, s.key))
    ensures DistinctHeld(Newcomers(hs, xs, ids))
  {
    hide IndexOf;
    if xs != [] {
      var ids1 := if IndexOf(hs, xs[0].key) < |hs| then ids else ids + 1;
      var rest := Newcomers(hs, xs[1..], ids1);
      NewcomersCarry(hs, xs[1..], ids1);
      NewcomersAre(hs, xs[1..], ids1);
      assert forall x :: x in xs[1..] ==> x.key != xs[0].key;
      assert forall s :: s in rest ==> s.key != xs[0].key;
    }
  }

  lemma {:induction false} SurvivorOf(hs: seq<Held>, xs: seq<Item>, i: nat)
    requires i < |hs| && ItemFor(xs, hs[i].key).Some?
    ensures exists h :: h in Survivors(hs, xs) && h.key == hs[i].key && h.id == hs[i].id
  {
    hide ItemFor;
    if i == 0 {
      assert Refreshed(hs[0], ItemFor(xs, hs[0].key).value) in Survivors(hs, xs);
    } else {
      SurvivorOf(hs[1..], xs, i - 1);
      var h :| h in Survivors(hs[1..], xs) && h.key == hs[i].key && h.id == hs[i].id;
      assert h in Survivors(hs, xs);
    }
  }

  lemma {:induction false} NewcomerFor(hs: seq<Held>, xs: seq<Item>, ids: nat, x: Item)
    requires x in xs && IndexOf(hs, x.key) == |hs|
    ensures exists h :: h in Newcomers(hs, xs, ids) && h.key == x.key
  {
    hide IndexOf;
    if xs[0] == x {
      assert Fresh(ids, x) in Newcomers(hs, xs, ids);
    } else {
      assert xs == [xs[0]] + xs[1..];
      var ids1 := if IndexOf(hs, xs[0].key) < |hs| then ids else ids + 1;
      NewcomerFor(hs, xs[1..], ids1, x);
      var h :| h in Newcomers(hs, xs[1..], ids1) && h.key == x.key;
      assert h in Newcomers(hs, xs, ids);
    }
  }

  lemma Covered(hs: seq<Held>, xs: seq<Item>, ids: nat, x: Item)
    requires x in xs
    ensures exists h :: h in Survivors(hs, xs) + Newcomers(hs, xs, ids) && h.key == x.key
  {
    hide IndexOf, ItemFor, Survivors, Newcomers;
    var i := IndexOf(hs, x.key);
    if i < |hs| {
      SurvivorOf(hs, xs, i);
      var h :| h in Survivors(hs, xs) && h.key == hs[i].key;
      assert h in Survivors(hs, xs) + Newcomers(hs, xs, ids);
    } else {
      NewcomerFor(hs, xs, ids, x);
      var h :| h in Newcomers(hs, xs, ids) && h.key == x.key;
      assert h in Survivors(hs, xs) + Newcomers(hs, xs, ids);
    }
  }

  lemma DistinctReconciled(hs: seq<Held>, xs: seq<Item>, ids: nat)
    requires DistinctHeld(hs) && DistinctKeys(xs)
    ensures DistinctHeld(Survivors(hs, xs) + Newcomers(hs, xs, ids))
  {
    hide IndexOf, ItemFor, Survivors, Newcomers, Carries;
    SurvivorsCarry(hs, xs);
    NewcomersCarry(hs, xs, ids);
    NewcomersAre(hs, xs, ids);
    var s, n := Survivors(hs, xs), Newcomers(hs, xs, ids);
    forall i, j | 0 <= i < |s| && 0 <= j < |n| ensures s[i].key != n[j].key {
      assert s[i] in s && n[j] in n;
      assert IndexOf(hs, n[j].key) == |hs|;
    }
  }

  /** Nothing stale is left, every entry carries what the reply says of its address, and every
      address of the reply is there. */
  lemma ReconciledKeys(l: Lease, kind: uint16, b: seq<byte>)
    requires DistinctHeld(l.addrs) && DistinctKeys(ReplyItems(kind, b)) && FindIa(l, kind, b).Done?
    ensures var xs := ReplyItems(kind, b); var r := FindIa(l, kind, b).l;
      && (forall h :: h in r.addrs ==> Carries(h, ItemFor(xs, h.key)))
      && (forall x :: x in xs ==> exists h :: h in r.addrs && h.key == x.key)
      && DistinctHeld(r.addrs)
  {
    hide FindIa, ReplyItems, Survivors, Newcomers, DistinctHeld, DistinctKeys, ItemFor, Carries;
    var xs := ReplyItems(kind, b);
    var s, n := Survivors(l.addrs, xs), Newcomers(l.addrs, xs, l.ids);
    Reconciled(l, kind, b);
    SurvivorsCarry(l.addrs, xs);
    NewcomersCarry(l.addrs, xs, l.ids);
    forall x | x in xs ensures exists h: Held :: h in s + n && h.key == x.key {
      Covered(l.addrs, xs, l.ids, x);
    }
    DistinctReconciled(l.addrs, xs, l.ids);
  }

  // ----- an address named twice

  /** Every item taken so far has a live entry. */
  ghost predicate Live(l: Lease, done: seq<Item>) {
    forall x :: x in done ==> LiveAt(l, x.key)
  }

  predicate LiveAt(l: Lease, key: seq<byte>) {
    var i := IndexOf(l.addrs, key);
    i < |l.addrs| && !l.addrs[i].stale
  }

  lemma TakeKeepsLive(l: Lease, x: Item, key: seq<byte>)
    requires LiveAt(l, key) || key == x.key
    ensures LiveAt(Take(l, x), key)
  {
    hide IndexOf;
    var i, j := IndexOf(l.addrs, x.key), IndexOf(l.addrs, key);
    var a := Take(l, x).addrs;
    assert forall k :: 0 <= k < |l.addrs| ==> a[k].key == l.addrs[k].key;
    assert |a| >= |l.addrs| && j < |a|;
    IndexUnique(a, key, j);
  }

  /** A queue still intact at the end means that no address came twice. */
  lemma {:induction false} IntactMeansDistinct(l: Lease, done: seq<Item>, rest: seq<Item>)
    requires Live(l, done) && DistinctKeys(done) && TakeAll(l, rest).intact
    ensures l.intact && DistinctKeys(done + rest)
    decreases |rest|
  {
    hide IndexOf, DistinctKeys, LiveAt;
    if rest == [] {
      assert done + rest == done;
    } else {
      var x := rest[0];
      forall y | y in done + [x] ensures LiveAt(Take(l, x), y.key) {
        TakeKeepsLive(l, x, y.key);
      }
      if TakeAll(Take(l, x), rest[1..]).intact {
        IntactTake(l, x, done, rest[1..]);
        IntactMeansDistinct(Take(l, x), done + [x], rest[1..]);
      }
      assert done + rest == (done + [x]) + rest[1..];
    }
  }

  lemma {:induction false} BrokenStaysBroken(l: Lease, xs: seq<Item>)
    ensures TakeAll(l, xs).intact ==> l.intact
    decreases |xs|
  {
    hide IndexOf;
    if xs != [] {
      BrokenStaysBroken(Take(l, xs[0]), xs[1..]);
    }
  }

  lemma IntactTake(l: Lease, x: Item, done: seq<Item>, rest: seq<Item>)
    requires Live(l, done) && DistinctKeys(done) && TakeAll(Take(l, x), rest).intact
    ensures l.intact && DistinctKeys(done + [x])
  {
    hide IndexOf, TakeAll;
    BrokenStaysBroken(Take(l, x), rest);
    assert !LiveAt(l, x.key);
    assert forall y :: y in done ==> LiveAt(l, y.key);
  }

  /** The address queue survives a successful reply exactly when no address comes twice in it. */
  lemma IntactIffDistinct(l: Lease, kind: uint16, b: seq<byte>)
    requires DistinctHeld(l.addrs) && l.intact && FindIa(l, kind, b).Done?
    ensures FindIa(l, kind, b).l.intact <==> DistinctKeys(ReplyItems(kind, b))
  {
    hide TakeIas, TakeAll, AllIas, AllItems, FindAll, Kept, DistinctKeys, DistinctHeld;
    var l0 := l.(addrs := Marked(l.addrs));
    var xs := ReplyItems(kind, b);
    TakeIasIsTakeAll(l0, kind, FindAll(b, kind, 0), 0);
    if DistinctKeys(xs) {
      SweptIsReconciled(l, xs);
    } else if TakeAll(l0, xs).intact {
      assert DistinctKeys([]) by {
        DistinctNone();
      }
      assert [] + xs == xs;
      IntactMeansDistinct(l0, [], xs);
    }
  }

  lemma DistinctNone()
    ensures DistinctKeys([])
  {
  }

  // ----- the same on the interface's own queue

  class AddressQueue {
    var addrs: seq<Held>
    var renew: uint32
    var rebind: uint32
    var expire: uint32
    var lowpl: uint32
    var ids: nat
    var intact: bool

    ghost function View(): Lease
      reads this
    {
      Lease(addrs, renew, rebind, expire, lowpl, ids, intact)
    }

    /** The walk of dhcp6_findaddr, and of dhcp6_findpd over prefixes. */
    method FindAddr(key: seq<byte>) returns (i: nat)
      ensures i == IndexOf(addrs, key)
    {
      hide IndexOf;
      i := 0;
      while i < |addrs| && addrs[i].key != key
        invariant i <= |addrs|
        invariant forall j :: 0 <= j < i ==> addrs[j].key != key
      {
        i := i + 1;
      }
      IndexUnique(addrs, key, i);
    }

    /** One option of the loops in dhcp6_findna and dhcp6_findpd. */
    method TakeItem(x: Item)
      modifies this
      ensures View() == Take(old(View()), x)
    {
      hide IndexOf;
      var i := FindAddr(x.key);
      if x.pltime != 0 && x.pltime < lowpl {
        lowpl := x.pltime;
      }
      if x.vltime != 0 && x.vltime > expire {
        expire := x.vltime;
      }
      if i == |addrs| {
        addrs := addrs + [Fresh(ids, x)];
        ids := ids + 1;
      } else {
        intact := intact && addrs[i].stale;
        addrs := addrs[i := Refreshed(addrs[i], x)];
      }
    }

    /** dhcp6_findna, or dhcp6_findpd, over the options of one IA. */
    method FindItems(pd: bool, iaid: seq<byte>, d: seq<byte>) returns (n: nat)
      modifies this
      ensures var xs := ItemsOf(pd, iaid, FindAll(d, if pd then IA_PREFIX else IA_ADDR, 0));
        n == |xs| && View() == TakeAll(old(View()), xs)
    {
      hide Take, TakeAll, ItemOf, ItemsOf, Find, FindAll;
      var code: uint16 := if pd then IA_PREFIX else IA_ADDR;
      ghost var all := ItemsOf(pd, iaid, FindAll(d, code, 0));
      var p: nat := 0;
      n := 0;
      var o := FindOption(d, code, p);
      while o.Some?
        invariant o == Find(d, code, p)
        invariant n + |ItemsOf(pd, iaid, FindAll(d, code, p))| == |all|
        invariant TakeAll(View(), ItemsOf(pd, iaid, FindAll(d, code, p))) == TakeAll(old(View()), all)
        decreases |d| - p
      {
        var next := o.value + OPTION_HEADER + LenAt(d, o.value);
        var x := ItemOf(pd, iaid, d[o.value + OPTION_HEADER..next]);
        FindAllOnce(d, code, p);
        ItemsStep(pd, iaid, d[o.value + OPTION_HEADER..next], FindAll(d, code, next));
        if x.Some? {
          TakeAllStep(View(), x.value, ItemsOf(pd, iaid, FindAll(d, code, next)));
          TakeItem(x.value);
          n := n + 1;
        }
        p := next;
        o := FindOption(d, code, p);
      }
      FindAllOnce(d, code, p);
      NoItems(pd, iaid);
      TakeNothing(View());
    }

    /** Marks every entry stale. */
    method MarkStale()
      modifies this`addrs
      ensures addrs == Marked(old(addrs))
    {
      var i := 0;
      while i < |addrs|
        invariant 0 <= i <= |addrs| == |old(addrs)|
        invariant forall j :: 0 <= j < i ==> addrs[j] == old(addrs)[j].(stale := true)
        invariant forall j :: i <= j < |addrs| ==> addrs[j] == old(addrs)[j]
      {
        addrs := addrs[i := addrs[i].(stale := true)];
        i := i + 1;
      }
    }

    /** Takes out of the queue what is still stale. */
    method Sweep()
      modifies this`addrs
      ensures addrs == Kept(old(addrs))
    {
      var i := 0;
      assert addrs[..0] + Kept(addrs[0..]) == Kept(old(addrs)) by {
        assert addrs[0..] == addrs;
      }
      while i < |addrs|
        invariant 0 <= i <= |addrs|
        invariant addrs[..i] + Kept(addrs[i..]) == Kept(old(addrs))
        decreases |addrs| - i
      {
        KeptStep(addrs, i);
        if addrs[i].stale {
          addrs := addrs[..i] + addrs[i + 1..];
        } else {
          i := i + 1;
        }
      }
      assert addrs[i..] == [] && addrs[..i] == addrs;
    }

    /** One IA of the loop in dhcp6_findia; false when the reply is refused. */
    method FindOneIa(kind: uint16, d: seq<byte>) returns (ok: bool)
      requires ReadIa(kind, d).Some?
      modifies this
      ensures var ia := ReadIa(kind, d).value; var l := old(View());
        var l1 := l.(renew := Sooner(l.renew, ia.t1), rebind := Sooner(l.rebind, ia.t2));
        && ok == (ia.statusOk && ia.items != [])
        && View() == if ia.statusOk then TakeAll(l1, ia.items) else l1
    {
      hide Find, FindAll, TakeAll, ItemsOf, StatusOk;
      var rest := if kind == IA_TA then d[4..] else d[12..];
      var t1: uint32, t2: uint32 := 0, 0;
      if kind != IA_TA {
        t1, t2 := FromBe32(d[4..8]), FromBe32(d[8..12]);
        if t1 > t2 && t2 > 0 {
          t1, t2 := 0, 0;
        }
      }
      renew, rebind := Sooner(renew, t1), Sooner(rebind, t2);
      if !StatusOk(rest) {
        return false;
      }
      var n := FindItems(kind == IA_PD, d[..4], rest);
      ok := n > 0;
    }

    /** dhcp6_findia. */
    method FindIas(kind: uint16, b: seq<byte>) returns (n: Option<nat>)
      modifies this
      ensures match FindIa(old(View()), kind, b)
        case Failed(l) => n == None && View() == l
        case Done(l, k) => n == Some(k) && View() == l
    {
      hide ReadIa, TakeAll, Find, FindAll, Kept;
      MarkStale();
      ghost var l0, all := View(), FindAll(b, kind, 0);
      var p: nat, k: nat := 0, 0;
      var o := FindOption(b, kind, p);
      while o.Some?
        invariant o == Find(b, kind, p)
        invariant TakeIas(View(), kind, FindAll(b, kind, p), k) == TakeIas(l0, kind, all, 0)
        decreases |b| - p
      {
        var next := o.value + OPTION_HEADER + LenAt(b, o.value);
        var d := b[o.value + OPTION_HEADER..next];
        FindAllOnce(b, kind, p);
        if ReadIa(kind, d).Some? {
          var ok := FindOneIa(kind, d);
          if !ok {
            return None;
          }
          k := k + 1;
        }
        p := next;
        o := FindOption(b, kind, p);
      }
      FindAllOnce(b, kind, p);
      Sweep();
      n := Some(k);
    }

    /** dhcp6_validatelease on the options of a message. */
    method Validate(kind: uint16, b: seq<byte>) returns (n: Option<nat>)
      modifies this
      ensures match ValidateLease(old(View()), kind, b)
        case Failed(l) => n == None && View() == l
        case Done(l, k) => n == Some(k) && View() == l
    {
      hide Find, FindIa, StatusOk;
      var o := FindOption(b, kind, 0);
      if o == None || !StatusOk(b) {
        return None;
      }
      renew, rebind, expire, lowpl := 0, 0, 0, FOREVER;
      n := FindIas(kind, b[o.value..]);
    }
  }

  lemma ItemsStep(pd: bool, iaid: seq<byte>, d: seq<byte>, rest: seq<seq<byte>>)
    ensures var x := ItemOf(pd, iaid, d);
      ItemsOf(pd, iaid, [d] + rest) ==
        if x.Some? then [x.value] + ItemsOf(pd, iaid, rest) else ItemsOf(pd, iaid, rest)
  {
    hide ItemOf;
    assert ([d] + rest)[1..] == rest;
  }

  lemma NoItems(pd: bool, iaid: seq<byte>)
    ensures ItemsOf(pd, iaid, []) == []
  {
  }

  lemma TakeAllStep(l: Lease, x: Item, rest: seq<Item>)
    ensures TakeAll(l, [x] + rest) == TakeAll(Take(l, x), rest)
  {
    hide Take;
    assert ([x] + rest)[1..] == rest;
  }

  lemma KeptStep(addrs: seq<Held>, i: nat)
    requires i < |addrs|
    ensures var h := addrs[i];
      addrs[..i] + Kept(addrs[i..]) ==
        if h.stale then (addrs[..i] + addrs[i + 1..])[..i] + Kept((addrs[..i] + addrs[i + 1..])[i..])
        else addrs[..i + 1] + Kept(addrs[i + 1..])
  {
    assert addrs[i..][1..] == addrs[i + 1..];
    assert (addrs[..i] + addrs[i + 1..])[..i] == addrs[..i];
    assert (addrs[..i] + addrs[i + 1..])[i..] == addrs[i + 1..];
  }
}
