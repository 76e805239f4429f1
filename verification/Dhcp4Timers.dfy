/** What each timer operation of the DHCPv4 client does to the table of pending timers. */
module Dhcp4Timers {
  import opened Common
  import opened Eloop
  import opened Dhcp4

  type Pending = map<(Callback, nat), (int, int)>

  /** A valid loop whose timers all belong to the client's interface. */
  ghost predicate LoopOk(l: Loop) {
    && Valid(l)
    && forall i :: 0 <= i < |l.timeouts| ==> l.timeouts[i].arg == IFACE && l.timeouts[i].queue == ELOOP_QUEUE
  }

  /** Wherever both are pending, the renewal timer comes before the rebind timer. */
  ghost predicate RenewFirst(q: seq<Timeout>) {
    forall i, j :: 0 <= i < |q| && 0 <= j < |q| && q[i].callback == DhcpRenew && q[j].callback == DhcpRebind ==> i < j
  }

  lemma TableOk(l: Loop)
    requires LoopOk(l)
    ensures forall k :: k in Table(l.timeouts) ==> k.1 == IFACE && Table(l.timeouts)[k].1 == ELOOP_QUEUE
    ensures forall i :: 0 <= i < |l.timeouts| ==> (l.timeouts[i].callback, IFACE) in Table(l.timeouts)
  {
    TableIs(l.timeouts);
    forall k | k in Table(l.timeouts) ensures k.1 == IFACE && Table(l.timeouts)[k].1 == ELOOP_QUEUE {
      var i :| 0 <= i < |l.timeouts| && (l.timeouts[i].callback, l.timeouts[i].arg) == k;
    }
  }

  lemma ArmKeepsOrder(q: seq<Timeout>, t: Timeout)
    requires Sorted(q) && UniqueKeys(q) && RenewFirst(q)
    requires t.callback == DhcpRenew ==> forall i :: 0 <= i < |q| ==> q[i].callback != DhcpRebind
    requires t.callback == DhcpRebind ==> forall i :: 0 <= i < |q| && q[i].callback == DhcpRenew ==> q[i].when <= t.when
    requires forall i :: 0 <= i < |q| ==> q[i].arg == t.arg
    ensures RenewFirst(Rescheduled(q, t))
  {
    var i := Find(q, t.callback, t.arg);
    var r := if i < |q| then RemoveAt(q, i) else q;
    if i < |q| {
      RemoveRefines(q, i);
      RemoveSplices(q, i);
      SplicedRenewFirst(r, q[i], i, q);
    }
    InsertSplices(r, t);
    var k := Place(r, t.when);
    assert forall j :: 0 <= j < |r| ==> r[j] in q;
    InsertRenewFirst(r, t, k, Insert(r, t));
  }

  lemma SplicedRenewFirst(q: seq<Timeout>, t: Timeout, k: nat, p: seq<Timeout>)
    requires Spliced(q, t, k, p) && RenewFirst(p)
    ensures RenewFirst(q)
  {
    assert forall j :: k <= j < |q| ==> q[j] == p[j + 1];
  }

  lemma InsertRenewFirst(q: seq<Timeout>, t: Timeout, k: nat, p: seq<Timeout>)
    requires Spliced(q, t, k, p) && RenewFirst(q)
    requires Absent(q, t.callback, t.arg) && forall j :: 0 <= j < |q| ==> q[j].arg == t.arg
    requires k == Place(q, t.when) && Sorted(q)
    requires t.callback == DhcpRenew ==> forall i :: 0 <= i < |q| ==> q[i].callback != DhcpRebind
    requires t.callback == DhcpRebind ==> forall i :: 0 <= i < |q| && q[i].callback == DhcpRenew ==> q[i].when <= t.when
    ensures RenewFirst(p)
  {
    assert forall j :: k < j < |p| ==> p[j] == q[j - 1];
  }

  lemma KeptRenewFirst(q: seq<Timeout>, keep: Timeout -> bool)
    requires RenewFirst(q)
    ensures RenewFirst(Kept(q, keep))
  {
    var f := KeptIndex(q, keep);
  }

  /** Arming a timer: it is pending at now + delay, every other one is as it was. */
  lemma Arms(l: Loop, now: int, delay: nat, cb: Callback)
    requires LoopOk(l) && now + delay < TIME_LIMIT
    ensures var l' := Add(l, ELOOP_QUEUE, now, delay, cb, IFACE).0;
      && LoopOk(l') && l'.inFlight == l.inFlight
      && Table(l'.timeouts) == Table(l.timeouts)[(cb, IFACE) := (now + delay, ELOOP_QUEUE)]
  {
    AddRefines(l, ELOOP_QUEUE, now, delay, cb, IFACE);
    TableOk(l);
    var l' := Add(l, ELOOP_QUEUE, now, delay, cb, IFACE).0;
    TableIs(l'.timeouts);
  }

  lemma ArmsInOrder(l: Loop, now: int, delay: nat, cb: Callback)
    requires LoopOk(l) && now + delay < TIME_LIMIT && RenewFirst(l.timeouts)
    requires cb == DhcpRenew ==> (DhcpRebind, IFACE) !in Table(l.timeouts)
    requires cb == DhcpRebind && (DhcpRenew, IFACE) in Table(l.timeouts) ==>
      Table(l.timeouts)[(DhcpRenew, IFACE)].0 <= now + delay
    ensures RenewFirst(Add(l, ELOOP_QUEUE, now, delay, cb, IFACE).0.timeouts)
  {
    TableOk(l);
    TableIs(l.timeouts);
    var l' := Add(l, ELOOP_QUEUE, now, delay, cb, IFACE).0;
    var i := Find(l.timeouts, cb, IFACE);
    var node := if i < |l.timeouts| then l.timeouts[i].node else if l.free != [] then l.free[0] else l.nodes;
    var t := Timeout(node, now + delay, cb, IFACE, ELOOP_QUEUE);
    ArmKeepsOrder(l.timeouts, t);
  }

  /** Deleting without naming a callback leaves nothing. */
  lemma Clears(l: Loop)
    requires LoopOk(l)
    ensures var l' := Delete(l, ELOOP_QUEUE, None, IFACE);
      LoopOk(l') && l'.inFlight == l.inFlight && l'.timeouts == [] && Table(l'.timeouts) == map[]
  {
    var keep := KeepUnless(ELOOP_QUEUE, None, IFACE);
    DiscardRefines(l, keep);
    KeptNone(l.timeouts, keep);
  }

  lemma {:induction false} KeptNone(q: seq<Timeout>, keep: Timeout -> bool)
    requires forall i :: 0 <= i < |q| ==> !keep(q[i])
    ensures Kept(q, keep) == []
  {
    if q != [] {
      KeptNone(q[1..], keep);
    }
  }

  /** A deletion restricts the table and keeps the order. */
  lemma Discards(l: Loop, keep: Timeout -> bool)
    requires LoopOk(l)
    ensures var l' := Discard(l, keep);
      && LoopOk(l') && l'.inFlight == l.inFlight
      && (forall k :: k in Table(l'.timeouts) ==> k in Table(l.timeouts) && Table(l'.timeouts)[k] == Table(l.timeouts)[k])
      && (RenewFirst(l.timeouts) ==> RenewFirst(l'.timeouts))
  {
    hide InOrder;
    DiscardRefines(l, keep);
    var f := KeptIndex(l.timeouts, keep);
    if RenewFirst(l.timeouts) {
      KeptRenewFirst(l.timeouts, keep);
    }
  }

  lemma DiscardsExactly(l: Loop, keep: Timeout -> bool, cb: Callback)
    requires LoopOk(l)
    requires forall i, j :: 0 <= i < |l.timeouts| && 0 <= j < |l.timeouts| && l.timeouts[i].callback == l.timeouts[j].callback ==>
      keep(l.timeouts[i]) == keep(l.timeouts[j])
    ensures (cb, IFACE) in Table(Discard(l, keep).timeouts) <==>
      exists t :: t in l.timeouts && keep(t) && t.callback == cb
  {
    hide InOrder;
    var q := Kept(l.timeouts, keep);
    DiscardRefines(l, keep);
    TableIs(q);
    Discards(l, keep);
    TableOk(Discard(l, keep));
    if (cb, IFACE) in Table(q) {
      var i :| 0 <= i < |q| && (q[i].callback, q[i].arg) == (cb, IFACE);
      assert q[i] in q;
    }
    if t :| t in l.timeouts && keep(t) && t.callback == cb {
      assert t in q;
    }
  }

  /** Deleting one callback removes exactly that one. */
  lemma Stops(l: Loop, cb: Callback)
    requires LoopOk(l)
    ensures var l' := Delete(l, ELOOP_QUEUE, Some(cb), IFACE);
      && LoopOk(l') && l'.inFlight == l.inFlight
      && Table(l'.timeouts) == Table(l.timeouts) - {(cb, IFACE)}
      && (RenewFirst(l.timeouts) ==> RenewFirst(l'.timeouts))
  {
    hide LoopOk, RenewFirst, Table, Discard;
    var keep := KeepUnless(ELOOP_QUEUE, Some(cb), IFACE);
    var l' := Discard(l, keep);
    Discards(l, keep);
    TableOk(l);
    TableOk(l');
    forall k | k in Table(l.timeouts) ensures k in Table(l'.timeouts) <==> k != (cb, IFACE) {
      StopsOne(l, cb, k.0);
    }
  }

  lemma StopsOne(l: Loop, cb: Callback, other: Callback)
    requires LoopOk(l) && (other, IFACE) in Table(l.timeouts)
    ensures (other, IFACE) in Table(Delete(l, ELOOP_QUEUE, Some(cb), IFACE).timeouts) <==> other != cb
  {
    DiscardsExactly(l, KeepUnless(ELOOP_QUEUE, Some(cb), IFACE), other);
    TableIs(l.timeouts);
    var i :| 0 <= i < |l.timeouts| && (l.timeouts[i].callback, l.timeouts[i].arg) == (other, IFACE);
    assert l.timeouts[i] in l.timeouts;
  }

  /** "Delete everything but the expiry": at most the expiry is left, unchanged. */
  lemma KeepsExpiry(l: Loop)
    requires LoopOk(l)
    ensures var l' := DeleteExcept(l, ELOOP_QUEUE, IFACE, [DhcpExpire]);
      && LoopOk(l') && l'.inFlight == l.inFlight
      && (forall k :: k in Table(l'.timeouts) ==>
        k == (DhcpExpire, IFACE) && k in Table(l.timeouts) && Table(l'.timeouts)[k] == Table(l.timeouts)[k])
      && ((DhcpExpire, IFACE) in Table(l.timeouts) ==> (DhcpExpire, IFACE) in Table(l'.timeouts))
      && RenewFirst(l'.timeouts)
  {
    hide Discard, RenewFirst, Table, LoopOk;
    var keep := KeepOnly(ELOOP_QUEUE, IFACE, [DhcpExpire]);
    var l' := Discard(l, keep);
    Discards(l, keep);
    TableOk(l');
    forall k | k in Table(l'.timeouts) ensures k == (DhcpExpire, IFACE) {
      ExpiryKept(l, k.0);
    }
    ExpiryKept(l, DhcpExpire);
    ExpiryAlone(l');
  }

  lemma ExpiryKept(l: Loop, cb: Callback)
    requires LoopOk(l)
    ensures var l' := DeleteExcept(l, ELOOP_QUEUE, IFACE, [DhcpExpire]);
      (cb, IFACE) in Table(l'.timeouts) <==> cb == DhcpExpire && (DhcpExpire, IFACE) in Table(l.timeouts)
  {
    hide Table, Discard;
    var keep := KeepOnly(ELOOP_QUEUE, IFACE, [DhcpExpire]);
    DiscardsExactly(l, keep, cb);
    Discards(l, keep);
    if (DhcpExpire, IFACE) in Table(l.timeouts) {
      TableIs(l.timeouts);
      var i :| 0 <= i < |l.timeouts| && (l.timeouts[i].callback, l.timeouts[i].arg) == (DhcpExpire, IFACE);
      assert l.timeouts[i] in l.timeouts && keep(l.timeouts[i]);
    }
  }

  lemma ExpiryAlone(l: Loop)
    requires LoopOk(l) && forall k :: k in Table(l.timeouts) ==> k == (DhcpExpire, IFACE)
    ensures RenewFirst(l.timeouts)
  {
    hide Table;
    TableOk(l);
  }

  /** Taking the head off: it is no longer pending, and nothing else was due earlier. */
  lemma Pops(l: Loop)
    requires LoopOk(l) && l.timeouts != [] && l.inFlight == None
    ensures var l' := BeginFire(l); var cb := l.timeouts[0].callback;
      && LoopOk(l')
      && (cb, IFACE) in Table(l.timeouts) && Table(l.timeouts)[(cb, IFACE)].0 == l.timeouts[0].when
      && Table(l'.timeouts) == Table(l.timeouts) - {(cb, IFACE)}
  {
    hide Table, Valid, UniqueKeys;
    KeysUnique(l);
    FireRefines(l, l.timeouts[0].when + 1);
    TableIs(l.timeouts);
  }

  lemma KeysUnique(l: Loop)
    requires Valid(l)
    ensures UniqueKeys(l.timeouts)
  {
  }

  lemma HeadIsFirst(l: Loop, k: (Callback, nat))
    requires LoopOk(l) && l.timeouts != [] && k in Table(l.timeouts)
    ensures l.timeouts[0].when <= Table(l.timeouts)[k].0
  {
    TableIs(l.timeouts);
    var i :| 0 <= i < |l.timeouts| && (l.timeouts[i].callback, l.timeouts[i].arg) == k;
  }

  /** With the renewal ahead of the rebind, a rebind at the head means that no renewal waits. */
  lemma PopsInOrder(l: Loop)
    requires LoopOk(l) && l.timeouts != [] && RenewFirst(l.timeouts)
    ensures RenewFirst(l.timeouts[1..])
    ensures l.timeouts[0].callback == DhcpRebind ==> (DhcpRenew, IFACE) !in Table(l.timeouts)
  {
    TableIs(l.timeouts);
  }

  lemma Ends(l: Loop)
    requires LoopOk(l)
    ensures LoopOk(EndFire(l)) && EndFire(l).timeouts == l.timeouts && EndFire(l).inFlight == None
  {
    if l.inFlight.Some? {
      assert multiset(l.free + [l.inFlight.value]) == multiset(l.free) + multiset{l.inFlight.value};
    }
  }
}
