/** What sending and dropping can do to the client: the summaries every handler's proof rests on. */
module Dhcp4Effects {
  import opened Common
  import opened Eloop
  import opened Dhcp4
  import opened Dhcp4Timers

  ghost function Pend(s: State): Pending {
    Table(s.loop.timeouts)
  }

  ghost predicate Armed(s: State, cb: Callback) {
    (cb, IFACE) in Pend(s)
  }

  ghost function Held(m: Option<Message>): multiset<nat> {
    if m.Some? then multiset{m.value.id} else multiset{}
  }

  /** Every place a message can be, with multiplicity. */
  ghost function Ledger(m: Slots): multiset<nat> {
    Held(m.offer) + Held(m.current) + Held(m.previous) + Held(m.buffer) + m.freed
  }

  ghost predicate Sound(s: State) {
    LoopOk(s.loop) && s.world.now < CLOCK_END && s.counters.interval <= 64 && s.counters.nakoff <= NAKOFF_MAX
  }

  /** The fields that neither sending nor dropping touches. */
  ghost predicate Frame(s: State, t: State) {
    && t.phase == s.phase && t.carrier == s.carrier && t.crashed == s.crashed
    && t.lease == s.lease.(addr := t.lease.addr)
    && t.counters.nakoff == s.counters.nakoff
    && t.loop.inFlight == s.loop.inFlight
    && s.world.now <= t.world.now
  }

  /** t's timers are none, or s's expiry alone. */
  ghost predicate AtMostExpiry(p: Pending, q: Pending) {
    forall k :: k in q ==> k == (DhcpExpire, IFACE) && k in p && q[k] == p[k]
  }

  /** dhcp_drop: no lease is left, at most the expiry timer survives, and nothing leaks. */
  ghost predicate Dropped4(s: State, t: State) {
    && Sound(t) && Frame(s, t)
    && t.slots == s.slots.(current := None, previous := None, freed := t.slots.freed)
    && Ledger(t.slots) == Ledger(s.slots)
    && AtMostExpiry(Pend(s), Pend(t))
  }

  /** send_message when it does not fail: only the retransmission timer is new. */
  ghost predicate Sent4(s: State, again: Option<Callback>, t: State) {
    && Sound(t) && Frame(s, t)
    && t.slots == s.slots && t.lease == s.lease
    && (again == None ==> t.loop == s.loop)
    && (again.Some? ==> Rearmed(Pend(s), again.value, Pend(t)))
    && (RenewFirst(s.loop.timeouts) && again != Some(DhcpRenew) && again != Some(DhcpRebind) ==> RenewFirst(t.loop.timeouts))
  }

  ghost predicate Rearmed(p: Pending, cb: Callback, q: Pending) {
    (cb, IFACE) in q && q == p[(cb, IFACE) := q[(cb, IFACE)]]
  }

  lemma TimerArms(s: State, delay: nat, cb: Callback)
    requires Sound(s) && delay < CLOCK_END
    ensures var t := AddTimer(s, delay, cb);
      && Sent4(s, Some(cb), t)
      && Pend(t)[(cb, IFACE)] == (t.world.now + delay, ELOOP_QUEUE)
      && t.lease == s.lease
  {
    hide LoopOk, RenewFirst, Table, Add, Discard, Ledger;
    var w := ReadClock(s.world);
    Arms(s.loop, w.now, delay, cb);
    if RenewFirst(s.loop.timeouts) && cb != DhcpRenew && cb != DhcpRebind {
      ArmsInOrder(s.loop, w.now, delay, cb);
    }
  }

  lemma {:induction false} SendEffect(s: State, c: Config, again: Option<Callback>)
    requires Sound(s)
    ensures var t := Send(s, c, again); Sent4(s, again, t) || Dropped4(s, t)
    decreases |s.world.opens| + |s.world.sends|, 1
  {
    hide LoopOk, RenewFirst, Table, Add, Discard, Ledger, OpenSockets, AtMostExpiry, Rearmed, Drop;
    var (w, r) := Random(s.world);
    var s1 := if again == None then s else SetInterval(s, NextInterval(s.counters.interval)).(world := w);
    var (s2, ok) := Open(s1);
    if !ok {
      DropEffect(s2, c);
    } else {
      var (w3, sent) := NextSend(s2.world);
      var s3 := s2.(world := w3);
      if sent == RawError {
        DropEffect(s3, c);
        Clears(Drop(s3, c).loop);
        NoneIsAtMostExpiry(Pend(s));
      } else if again.Some? {
        var s4 := if sent == UdpError && s3.sockets.udp then Close(s3) else s3;
        TimerArms(s4, RetryDelay(s1.counters.interval, r), again.value);
      }
    }
  }

  lemma NoneIsAtMostExpiry(p: Pending)
    ensures AtMostExpiry(p, map[])
  {
  }

  lemma {:induction false} DropEffect(s: State, c: Config)
    requires Sound(s)
    ensures Dropped4(s, Drop(s, c))
    decreases |s.world.opens| + |s.world.sends|, 2
  {
    hide LoopOk, RenewFirst, Table, Add, Discard, Ledger, Release, Send;
    KeepsExpiry(s.loop);
    var s1 := s.(loop := DeleteExcept(s.loop, ELOOP_QUEUE, IFACE, [DhcpExpire]));
    if c.release && s.carrier && s.slots.current.Some? {
      SendEffect(NewXid(s1), c, None);
      ReleaseConserves(Send(NewXid(s1), c, None).slots);
    } else {
      ReleaseConserves(s.slots);
    }
  }

  /** Both slots are emptied and what they held is freed, once. */
  lemma ReleaseConserves(m: Slots)
    ensures Ledger(Release(m)) == Ledger(m)
    ensures Release(m) == m.(current := None, previous := None, freed := Release(m).freed)
  {
  }
}
