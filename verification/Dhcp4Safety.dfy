/**
 Safety of the DHCPv4 client over every run: a leased address has its expiry scheduled, a pending bind
 has its offer or was left over by a start that failed, and every message is owned exactly once.
 */
module Dhcp4Safety {
  import opened Common
  import opened Eloop
  import opened Dhcp4
  import opened Dhcp4Timers
  import opened Dhcp4Effects

  /** The phases in which the lease in force is being used and maintained. */
  predicate Holding(p: Phase) {
    p == Bound || p == Renewing || p == Rebinding
  }

  /** The expiry is pending exactly one lease time after dhcp_bind set its timers. */
  ghost predicate ExpiryOk(s: State) {
    && s.lease.leaseTime != INFINITE
    && Armed(s, DhcpExpire)
    && Pend(s)[(DhcpExpire, IFACE)].0 == s.lease.timersSet + s.lease.leaseTime * SECOND
    && s.lease.boundTime <= s.lease.timersSet <= s.world.now
  }

  ghost predicate LeaseSafe(s: State) {
    && (Holding(s.phase) ==>
          && s.slots.offer == None
          && (s.slots.current.Some? && s.lease.leaseTime != INFINITE ==> ExpiryOk(s)))
    && (Armed(s, DhcpRenew) || Armed(s, DhcpRebind) ==>
          && s.slots.offer == None && s.slots.current.Some? && ExpiryOk(s)
          && (Holding(s.phase) || s.phase == Init))
    && (Armed(s, DhcpRenew) ==> Pend(s)[(DhcpRenew, IFACE)].0 < Pend(s)[(DhcpExpire, IFACE)].0)
    && (Armed(s, DhcpRebind) ==> Pend(s)[(DhcpRebind, IFACE)].0 < Pend(s)[(DhcpExpire, IFACE)].0)
    && (s.phase == Discovering || s.phase == Probing ==> !Armed(s, DhcpExpire))
    && Scheduled(s)
    && ((Holding(s.phase) || Armed(s, DhcpRenew) || Armed(s, DhcpRebind)) && s.slots.current.Some? ==>
          Terms(s.lease, s.slots.current.value.body))
  }

  /** The address and times are those the message grants, clamped. */
  predicate Terms(l: Lease, p: Packet) {
    var g := Clamp(GetLease(l, p));
    l.addr == g.addr && l.leaseTime == g.leaseTime && l.renewalTime == g.renewalTime && l.rebindTime == g.rebindTime
  }

  lemma TermsGranted(l: Lease, p: Packet, now: int)
    ensures Terms(Clamp(GetLease(l, p)).(timersSet := now), p)
  {
  }

  /** A timer is pending this long after the lease was bound, up to the time binding took. */
  ghost predicate Due(s: State, cb: Callback, delay: nat)
    requires Armed(s, cb)
  {
    s.lease.boundTime + delay * SECOND <= Pend(s)[(cb, IFACE)].0 <= s.lease.timersSet + delay * SECOND
  }

  /** Renewal and rebinding are pending at their times, and never missing while bound. */
  ghost predicate Scheduled(s: State) {
    && (Armed(s, DhcpRenew) ==> Due(s, DhcpRenew, s.lease.renewalTime))
    && (Armed(s, DhcpRebind) ==> Due(s, DhcpRebind, s.lease.rebindTime))
    && (s.phase == Bound && s.slots.current.Some? && s.lease.leaseTime != INFINITE ==>
          Armed(s, DhcpRenew) && Armed(s, DhcpRebind))
  }

  /** A timer is pending that ends in dhcp_bind. */
  ghost predicate AwaitingBind(s: State) {
    Armed(s, DhcpBind) || Armed(s, DhcpTimeout) || Armed(s, ArpProbe)
  }

  /** A pending bind has its offer and its phase, or is left over from before a start that failed. */
  ghost predicate OfferReady(s: State) {
    && (AwaitingBind(s) ==>
          && (s.slots.offer.Some? || s.phase == Init)
          && !Armed(s, StartInterface) && !Armed(s, DhcpRenew) && !Armed(s, DhcpRebind))
    && (Armed(s, DhcpBind) || Armed(s, ArpProbe) ==> s.phase == Probing || s.phase == Init)
    && (Armed(s, DhcpTimeout) ==> s.phase == Requesting || s.phase == Init)
    && !(Armed(s, DhcpBind) && Armed(s, DhcpTimeout))
    && !(Armed(s, DhcpBind) && Armed(s, ArpProbe))
    && !(Armed(s, DhcpTimeout) && Armed(s, ArpProbe))
  }

  /** Each allocated message is in exactly one slot, or freed once. */
  ghost predicate Owned(m: Slots) {
    Ledger(m) == AllNodes(m.heap)
  }

  ghost predicate Base(s: State) {
    Sound(s) && !s.crashed && Owned(s.slots)
  }

  ghost predicate Core(s: State) {
    Base(s) && LeaseSafe(s) && OfferReady(s) && s.phase != Rebooting
  }

  /** What holds between steps. */
  ghost predicate Inv(s: State) {
    Core(s) && s.loop.inFlight == None && s.slots.buffer == None
  }

  // ----- handlers that only need a sound state

  lemma SendCore(s: State, c: Config, again: Option<Callback>)
    requires Core(s)
    requires again == None || again.value in {SendDiscover, SendRequest, SendRenew, SendRebind}
    ensures Core(Send(s, c, again))
    ensures Sent4(s, again, Send(s, c, again)) || Dropped4(s, Send(s, c, again))
  {
    hide LoopOk, RenewFirst, Table, Ledger, Send;
    SendEffect(s, c, again);
  }

  lemma DropCore(s: State, c: Config)
    requires Base(s)
    requires Holding(s.phase) ==> s.slots.offer == None
    requires s.phase == Discovering || s.phase == Probing ==> !Armed(s, DhcpExpire)
    requires s.phase != Rebooting
    ensures Core(Drop(s, c)) && Dropped4(s, Drop(s, c))
  {
    hide LoopOk, RenewFirst, Table, Ledger, Drop;
    DropEffect(s, c);
  }

  lemma ClearEffect(s: State)
    requires Sound(s)
    ensures Sound(ClearTimers(s)) && Pend(ClearTimers(s)) == map[] && ClearTimers(s).loop.inFlight == s.loop.inFlight
    ensures RenewFirst(ClearTimers(s).loop.timeouts)
  {
    hide LoopOk, Table, Delete;
    Clears(s.loop);
  }

  lemma DiscoverCore(s: State, c: Config)
    requires Base(s)
    ensures var t := Discover(s, c);
      && Core(t) && t.phase == Discovering
      && t.loop.inFlight == s.loop.inFlight && t.slots.buffer == s.slots.buffer && t.carrier == s.carrier
      && (forall k :: k in Pend(t) ==> k == (SendDiscover, IFACE))
      && (s.slots.current == None ==> t.slots.current == None)
  {
    hide LoopOk, RenewFirst, Table, Ledger, Send, Delete;
    var s1 := NewXid(s.(phase := Discovering));
    ClearEffect(s1);
    SendCore(ClearTimers(s1), c, Some(SendDiscover));
  }

  lemma ExpireCore(s: State, c: Config)
    requires Base(s)
    ensures var t := Expire(s, c);
      && Core(t) && t.slots.current == None && t.phase == Discovering
      && t.loop.inFlight == s.loop.inFlight && t.slots.buffer == s.slots.buffer
  {
    hide LoopOk, RenewFirst, Table, Ledger, Discover, Drop, Delete;
    ClearEffect(s);
    DropEffect(ClearTimers(s), c);
    DiscoverCore(SetInterval(Drop(ClearTimers(s), c), 0), c);
  }

  // ----- binding

  lemma ClampBounds(l: Lease)
    ensures Clamp(l).boundTime == l.boundTime
    ensures Clamp(l).leaseTime != INFINITE ==>
      Clamp(l).renewalTime < Clamp(l).leaseTime && Clamp(l).rebindTime < Clamp(l).leaseTime
  {
  }

  /** Renewal and rebinding come before the expiry. */
  ghost predicate ExpiryLast(s: State) {
    && Armed(s, DhcpRenew) && Armed(s, DhcpRebind) && Armed(s, DhcpExpire)
    && Pend(s)[(DhcpRenew, IFACE)].0 < Pend(s)[(DhcpExpire, IFACE)].0
    && Pend(s)[(DhcpRebind, IFACE)].0 < Pend(s)[(DhcpExpire, IFACE)].0
  }

  lemma ArmLeaseEffect(s: State)
    requires Sound(s) && s.lease.leaseTime != INFINITE
    requires s.lease.boundTime <= s.world.now
    requires s.lease.renewalTime < s.lease.leaseTime && s.lease.rebindTime < s.lease.leaseTime
    ensures var t := ArmLease(s);
      && Sound(t) && ExpiryOk(t) && ExpiryLast(t)
      && t.slots == s.slots && t.phase == s.phase && t.crashed == s.crashed && t.carrier == s.carrier
      && t.loop.inFlight == s.loop.inFlight
      && t.lease == s.lease.(timersSet := t.lease.timersSet)
      && Pend(t).Keys == Pend(s).Keys + {(DhcpRenew, IFACE), (DhcpRebind, IFACE), (DhcpExpire, IFACE)}
      && Due(t, DhcpRenew, t.lease.renewalTime) && Due(t, DhcpRebind, t.lease.rebindTime)
  {
    hide LoopOk, RenewFirst, Table, AddTimer;
    var s1 := AddTimer(s, s.lease.renewalTime * SECOND, DhcpRenew);
    TimerArms(s, s.lease.renewalTime * SECOND, DhcpRenew);
    var s2 := AddTimer(s1, s.lease.rebindTime * SECOND, DhcpRebind);
    TimerArms(s1, s.lease.rebindTime * SECOND, DhcpRebind);
    TimerArms(s2, s.lease.leaseTime * SECOND, DhcpExpire);
  }

  lemma AdoptConserves(m: Slots)
    ensures Ledger(Adopt(m)) == Ledger(m) && Adopt(m).heap == m.heap
  {
  }

  /** The state dhcp_bind leaves when it has an offer. */
  ghost predicate NewlyBound(s: State, t: State) {
    && Base(t) && t.loop.inFlight == s.loop.inFlight && t.carrier == s.carrier
    && t.slots.offer == None && t.slots.current == s.slots.offer && t.slots.buffer == s.slots.buffer
    && (t.slots.current.Some? ==> Terms(t.lease, t.slots.current.value.body))
    && (t.lease.leaseTime != INFINITE ==>
          ExpiryOk(t) && ExpiryLast(t) && Due(t, DhcpRenew, t.lease.renewalTime) && Due(t, DhcpRebind, t.lease.rebindTime))
    && Pend(t).Keys == Pend(s).Keys +
         (if t.lease.leaseTime == INFINITE then {}
          else {(DhcpRenew, IFACE), (DhcpRebind, IFACE), (DhcpExpire, IFACE)})
  }

  lemma TakeLeaseEffect(s: State)
    requires Base(s) && s.slots.offer.Some?
    ensures NewlyBound(s, TakeLease(s))
  {
    hide LoopOk, RenewFirst, Table, Ledger, ArmLease, Clamp, Adopt;
    AdoptConserves(s.slots);
    assert Adopt(s.slots) == s.slots.(previous := s.slots.current, current := s.slots.offer, offer := None, freed := Adopt(s.slots).freed) by {
      AdoptSlots(s.slots);
    }
    var w := ReadClock(s.world);
    var raw := GetLease(s.lease.(boundTime := w.now), s.slots.offer.value.body);
    ClampBounds(raw);
    TermsGranted(s.lease.(boundTime := w.now), s.slots.offer.value.body, TakeLease(s).lease.timersSet);
    var s1 := Close(s).(world := w, slots := Adopt(s.slots), lease := Clamp(raw));
    var s2 := s1.(counters := s1.counters.(xid := 0));
    if Clamp(raw).leaseTime != INFINITE {
      ArmLeaseEffect(s2);
    }
  }

  lemma AdoptSlots(m: Slots)
    ensures Adopt(m) == m.(previous := m.current, current := m.offer, offer := None, freed := Adopt(m).freed)
  {
  }

  lemma AnnounceCore(s: State)
    requires Base(s)
    ensures var t := Announce(s);
      && Base(t) && t.phase == s.phase && t.slots == s.slots && t.lease == s.lease && t.carrier == s.carrier
      && t.loop.inFlight == s.loop.inFlight && s.world.now <= t.world.now
      && (Pend(t) == Pend(s) || Rearmed(Pend(s), ArpAnnounce, Pend(t)))
      && (RenewFirst(s.loop.timeouts) ==> RenewFirst(t.loop.timeouts))
  {
    hide LoopOk, RenewFirst, Table, Ledger, AddTimer;
    if s.slots.current.Some? && OpenArp(s).1 {
      var t := OpenArp(s).0;
      var u := t.(counters := t.counters.(claims := t.counters.claims + 1));
      TimerArms(u, ANNOUNCE_WAIT * SECOND, ArpAnnounce);
    }
  }

  lemma BindCore(s: State, c: Config)
    requires Base(s) && s.slots.offer.Some? && !AwaitingBind(s)
    requires !Armed(s, DhcpRenew) && !Armed(s, DhcpRebind)
    ensures var t := Bind(s, c);
      && Core(t) && t.phase == Bound && t.loop.inFlight == s.loop.inFlight && t.carrier == s.carrier
      && t.slots.buffer == s.slots.buffer && t.slots.current == s.slots.offer
  {
    hide LoopOk, RenewFirst, Table, Ledger, TakeLease, Announce;
    TakeLeaseEffect(s);
    var t := TakeLease(s).(phase := Bound);
    if c.arp {
      AnnounceCore(t.(counters := t.counters.(claims := 0)));
    }
  }

  lemma BindBase(s: State, c: Config)
    requires Base(s) && s.slots.offer.Some?
    ensures var t := Bind(s, c);
      Base(t) && t.loop.inFlight == s.loop.inFlight && t.slots.buffer == s.slots.buffer && t.slots.current == s.slots.offer
  {
    hide LoopOk, RenewFirst, Table, Ledger, TakeLease, Announce;
    TakeLeaseEffect(s);
    var t := TakeLease(s).(phase := Bound);
    if c.arp {
      AnnounceCore(t.(counters := t.counters.(claims := 0)));
    }
  }

  lemma TimeoutCore(s: State, c: Config)
    requires Base(s) && s.slots.offer.Some?
    ensures var t := BindThenDiscover(s, c);
      Core(t) && t.loop.inFlight == s.loop.inFlight && t.slots.buffer == s.slots.buffer && t.phase == Discovering
  {
    hide LoopOk, RenewFirst, Table, Ledger, Bind, Discover;
    BindBase(s, c);
    DiscoverCore(SetInterval(Bind(s, c), 0), c);
  }

  // ----- probing, renewing, rebinding

  lemma ProbeCore(s: State)
    requires Core(s) && !AwaitingBind(s) && !Armed(s, StartInterface) && !Armed(s, DhcpRenew) && !Armed(s, DhcpRebind)
    requires (s.phase == Probing && s.slots.offer.Some?) || s.phase == Init
    ensures var t := Probe(s);
      && Core(t) && t.loop.inFlight == s.loop.inFlight && t.slots == s.slots && t.carrier == s.carrier && t.phase == s.phase
  {
    hide LoopOk, RenewFirst, Table, Ledger, AddTimer, LeaseSafe, OfferReady, Owned;
    var (t, ok) := OpenArp(s);
    var u := t.(counters := t.counters.(probes := t.counters.probes + 1));
    var (w, r) := Random(u.world);
    SameCore(s, t);
    if ok {
      SameCore(s, u.(world := w));
      SameCore(s, u);
      if u.counters.probes < PROBE_NUM {
        ProbeTimerCore(u.(world := w), SECOND + r % SECOND, ArpProbe);
      } else {
        ProbeTimerCore(u, ANNOUNCE_WAIT * SECOND, DhcpBind);
      }
    }
  }

  /** The invariant does not depend on sockets, probe counts or the tapes. */
  lemma SameCore(s: State, t: State)
    requires Core(s) && t.phase == s.phase && t.slots == s.slots && t.lease == s.lease && t.loop == s.loop && !t.crashed
    requires t.world.now == s.world.now && t.counters.interval == s.counters.interval && t.counters.nakoff == s.counters.nakoff
    ensures Core(t) && Pend(t) == Pend(s)
  {
    hide LoopOk, Table, Ledger, Owned;
  }

  lemma ProbeTimerCore(s: State, delay: nat, cb: Callback)
    requires Core(s) && !AwaitingBind(s) && !Armed(s, StartInterface) && !Armed(s, DhcpRenew) && !Armed(s, DhcpRebind)
    requires ((s.phase == Probing && s.slots.offer.Some?) || s.phase == Init) && delay < CLOCK_END
    requires cb == ArpProbe || cb == DhcpBind
    ensures var t := AddTimer(s, delay, cb);
      && Core(t) && t.loop.inFlight == s.loop.inFlight && t.slots == s.slots && t.carrier == s.carrier && t.phase == s.phase
  {
    hide LoopOk, RenewFirst, Table, Ledger, AddTimer;
    TimerArms(s, delay, cb);
  }

  lemma RenewCore(s: State, c: Config)
    requires Core(s.(phase := Renewing)) && s.slots.current.Some? && ExpiryOk(s) && !AwaitingBind(s)
    ensures var t := RenewLease(s, c); Core(t) && t.loop.inFlight == s.loop.inFlight && t.slots.buffer == s.slots.buffer
  {
    hide LoopOk, RenewFirst, Table, Ledger, Send;
    SendCore(NewXid(s.(phase := Renewing)), c, Some(SendRenew));
  }

  lemma RebindCore(s: State, c: Config)
    requires Core(s.(phase := Rebinding)) && s.slots.current.Some? && ExpiryOk(s) && !AwaitingBind(s)
    ensures var t := RebindLease(s, c); Core(t) && t.loop.inFlight == s.loop.inFlight && t.slots.buffer == s.slots.buffer
  {
    hide LoopOk, RenewFirst, Table, Ledger, Send, Delete;
    var s1 := s.(phase := Rebinding, lease := s.lease.(server := 0));
    Stops(s1.loop, SendRenew);
    var t := StopTimer(s1, SendRenew);
    assert Core(t);
    SendCore(t, c, Some(SendRebind));
  }

  // ----- starting

  lemma RebootCore(s: State, c: Config)
    requires Base(s) && s.carrier
    ensures var t := Reboot(s, c); Core(t) && t.loop.inFlight == s.loop.inFlight && t.slots.buffer == s.slots.buffer
  {
    hide LoopOk, RenewFirst, Table, Ledger, Send, Delete, Discover, AddTimer;
    var s1 := SetInterval(s, 0);
    if c.reboot == 0 || s.slots.offer == None {
      DiscoverCore(s1, c);
    } else {
      var s2 := NewXid(s1.(phase := Rebooting, lease := s1.lease.(server := 0)));
      ClearEffect(s2);
      var s3 := ClearTimers(s2);
      var giveUp := if c.lastLease && s3.lease.fromInfo then DhcpTimeout else DhcpExpire;
      TimerArms(s3, c.reboot * SECOND, giveUp);
      var s4 := AddTimer(s3, c.reboot * SECOND, giveUp).(phase := Requesting);
      assert Core(s4);
      SendCore(s4, c, Some(SendRequest));
    }
  }

  lemma FreeConserves(m: Slots)
    ensures var n := Free(m, m.offer).(offer := None);
      Ledger(n) == Ledger(m) && n == m.(offer := None, freed := n.freed)
  {
  }

  lemma AllocConserves(m: Slots, n: Slots)
    requires Owned(m) && Ledger(n) == Ledger(m) + multiset{m.heap} && n.heap == m.heap + 1
    ensures Owned(n)
  {
    assert AllNodes(m.heap + 1) == AllNodes(m.heap) + multiset{m.heap};
  }

  lemma ReadsLease(m: Slots, p: Packet)
    requires Owned(m) && m.offer == None
    ensures Owned(m.(heap := m.heap + 1, offer := Some(Message(m.heap, p))))
    ensures Owned(m.(heap := m.heap + 1, freed := m.freed + multiset{m.heap}))
  {
    hide AllNodes, Owned;
    AllocConserves(m, m.(heap := m.heap + 1, offer := Some(Message(m.heap, p))));
    AllocConserves(m, m.(heap := m.heap + 1, freed := m.freed + multiset{m.heap}));
  }

  lemma StartCore(s: State, c: Config, file: LeaseFile)
    requires Core(s) && s.carrier
    ensures var t := Start(s, c, file); Core(t) && t.loop.inFlight == s.loop.inFlight && t.slots.buffer == s.slots.buffer
  {
    hide LoopOk, RenewFirst, Table, Ledger, Discover, Reboot, OpenSockets, Owned, Free;
    var s1 := Close(s.(phase := Init, counters := s.counters.(nakoff := 0)));
    FreeConserves(s1.slots);
    var s2 := s1.(slots := Free(s1.slots, s1.slots.offer).(offer := None));
    OwnedBy(s.slots, s2.slots);
    var (s3, ok) := Open(s2);
    if ok {
      ReadsLease(s3.slots, if file.NoFile? then EMPTY else file.p);
      var m := s3.slots;
      match file
      case NoFile => DiscoverCore(s3, c);
      case Saved(p, age) =>
        if Outdated(p, age) {
          var m1 := m.(heap := m.heap + 1, freed := m.freed + multiset{m.heap});
          DiscoverCore(s3.(slots := m1, lease := GetLease(s3.lease, p).(fromInfo := true, addr := 0)), c);
        } else {
          var m1 := m.(heap := m.heap + 1, offer := Some(Message(m.heap, p)));
          RebootCore(s3.(slots := m1, lease := Aged(GetLease(s3.lease, p).(fromInfo := true), age)), c);
        }
    }
  }

  lemma OwnedBy(m: Slots, n: Slots)
    requires Owned(m) && Ledger(n) == Ledger(m) && n.heap == m.heap
    ensures Owned(n)
  {
  }

  // ----- packets

  lemma NakCore(s: State, c: Config)
    requires Core(s)
    ensures var t := HandleNak(s, c);
      && Core(t) && t.loop.inFlight == s.loop.inFlight && t.carrier == s.carrier && t.slots.buffer == s.slots.buffer
      && t.slots.current == None
  {
    hide LoopOk, RenewFirst, Table, Ledger, Drop, AddTimer;
    DropCore(s, c);
    var t := Close(Drop(s, c));
    TimerArms(t, t.counters.nakoff * SECOND, DhcpDiscover);
  }

  lemma AdoptBufferConserves(m: Slots)
    ensures var n := AdoptBuffer(m);
      && Ledger(n) == Ledger(m) && n.buffer == None
      && n == m.(offer := n.offer, buffer := None, freed := n.freed)
      && n.offer == if m.buffer.Some? then m.buffer else m.offer
  {
  }

  lemma AcceptCore(s: State, c: Config, configured: bool)
    requires Base(s) && (s.slots.buffer.Some? || s.slots.offer.Some?)
    ensures var t := Accept(s, c, configured); Core(t) && t.loop.inFlight == s.loop.inFlight && t.carrier == s.carrier
  {
    hide LoopOk, RenewFirst, Table, Ledger, Probe, Bind, Delete, AdoptBuffer;
    AdoptBufferConserves(s.slots);
    var s1 := s.(
      counters := s.counters.(nakoff := 0),
      slots := AdoptBuffer(s.slots),
      lease := s.lease.(fromInfo := false));
    ClearEffect(s1);
    var s2 := Close(ClearTimers(s1));
    if c.arp && !configured && !InUse(s2.slots) {
      ProbeCore(s2.(phase := Probing, counters := s2.counters.(claims := 0, probes := 0)));
    } else {
      BindCore(s2, c);
    }
  }

  lemma TakeOfferCore(s: State, c: Config, r: Received)
    requires Core(s) && r.Arrived? && s.slots.buffer.Some? && s.phase == Discovering
    ensures var t := TakeOffer(s, c, r); Core(t) && t.loop.inFlight == s.loop.inFlight && t.carrier == s.carrier
  {
    hide LoopOk, RenewFirst, Table, Ledger, Accept, Send, Delete, AdoptBuffer;
    AdoptBufferConserves(s.slots);
    var l := s.lease.(
      fromInfo := false,
      addr := r.p.yiaddr,
      server := if r.p.kind == BOOTP || r.p.server == None then 0 else r.p.server.value);
    var s1 := s.(lease := l, slots := AdoptBuffer(s.slots));
    Stops(s1.loop, SendDiscover);
    var t := StopTimer(s1, SendDiscover);
    if r.p.kind == BOOTP {
      AcceptCore(t, c, r.configured);
    } else {
      assert Core(t.(phase := Requesting));
      SendCore(t.(phase := Requesting), c, Some(SendRequest));
    }
  }

  lemma HandleCore(s: State, c: Config, r: Received)
    requires Core(s) && r.Arrived? && s.slots.buffer.Some?
    ensures var t := Handle(s, c, r); Core(t) && t.loop.inFlight == s.loop.inFlight && t.carrier == s.carrier
  {
    hide LoopOk, RenewFirst, Table, Ledger, HandleNak, TakeOffer, Accept, Owned;
    var s1 := SetInterval(s, 0);
    assert Core(s1);
    NakCore(s1, c);
    AcceptCore(s1, c, r.configured);
    if s1.phase == Discovering {
      TakeOfferCore(s1, c, r);
    }
  }

  lemma FillConserves(m: Slots, p: Packet)
    requires Owned(m)
    ensures Owned(Fill(m, p)) && Fill(m, p) == m.(buffer := Fill(m, p).buffer, heap := Fill(m, p).heap)
    ensures Fill(m, p).buffer.Some?
  {
    hide AllNodes, Owned;
    if m.buffer.Some? {
      OwnedBy(m, Fill(m, p));
    } else {
      AllocConserves(m, Fill(m, p));
    }
  }

  lemma FrameCore(s: State, c: Config, r: Received)
    requires Core(s)
    ensures var t := TakeFrame(s, c, r); Core(t) && t.loop.inFlight == s.loop.inFlight && t.carrier == s.carrier
  {
    hide LoopOk, RenewFirst, Table, Ledger, Handle, Owned, Fill;
    if r.Arrived? {
      FillConserves(s.slots, r.p);
      HandleCore(s.(slots := Fill(s.slots, r.p)), c, r);
    } else {
      FillConserves(s.slots, EMPTY);
    }
  }

  lemma {:induction false} PacketsCore(s: State, c: Config, rs: seq<Received>)
    requires Core(s)
    ensures var t := HandlePackets(s, c, rs);
      Core(t) && t.loop.inFlight == s.loop.inFlight && t.slots.buffer == None
    decreases |rs|
  {
    hide LoopOk, RenewFirst, Table, Ledger, TakeFrame, Owned, Free;
    if rs == [] {
      BufferFreed(s.slots);
    } else {
      FrameCore(s, c, rs[0]);
      var t := TakeFrame(s, c, rs[0]);
      PacketsCore(t, c, if rs[0].Arrived? && !t.sockets.raw then [] else rs[1..]);
    }
  }

  lemma BufferFreed(m: Slots)
    requires Owned(m)
    ensures var n := Free(m, m.buffer).(buffer := None); Owned(n) && n == m.(buffer := None, freed := n.freed)
  {
    var n := Free(m, m.buffer).(buffer := None);
    assert Ledger(n) == Ledger(m);
  }

  // ----- the other events

  lemma ConflictCore(s: State, c: Config, file: LeaseFile)
    requires Core(s) && s.slots.offer.Some?
    ensures var t := Conflict4(s, c, file); Core(t) && t.loop.inFlight == s.loop.inFlight && t.slots.buffer == s.slots.buffer
  {
    hide LoopOk, RenewFirst, Table, Ledger, Send, Delete, Start, AddTimer, Owned;
    if !s.lease.fromInfo {
      SendCore(s, c, None);
    }
    var s1 := if s.lease.fromInfo then s else Send(s, c, None);
    ClearEffect(Close(s1));
    var s2 := ClearTimers(Close(s1));
    assert Core(s2);
    if s2.lease.fromInfo {
      if s2.carrier {
        StartCore(s2, c, file);
      }
    } else {
      TimerArms(s2, ARP_FAIL * SECOND, StartInterface);
    }
  }

  /** Taking any timer but the expiry off the list keeps the invariant. */
  lemma PopCore(s: State)
    requires Core(s) && s.loop.inFlight == None && s.loop.timeouts != []
    ensures var t := s.(loop := BeginFire(s.loop)); var cb := s.loop.timeouts[0].callback;
      && Base(t) && Armed(s, cb)
      && (cb != DhcpExpire && cb != DhcpRenew && cb != DhcpRebind ==> Core(t))
      && (cb == DhcpRenew ==> Core(t.(phase := Renewing)))
      && (cb == DhcpRebind ==> Core(t.(phase := Rebinding)))
      && Pend(t) == Pend(s) - {(cb, IFACE)}
  {
    hide LoopOk, RenewFirst, Table, Ledger, Owned, BeginFire;
    Pops(s.loop);
  }

  /** dhcp_bind was entered without an offer: a timer left over from before a start that failed. */
  ghost predicate Wrecked(s: State, t: State) {
    t.crashed && t.slots == s.slots && s.slots.offer == None && AwaitingBind(s) && s.phase == Init
  }

  lemma CallCore(s: State, c: Config, file: LeaseFile)
    requires Core(s) && s.loop.inFlight == None && s.loop.timeouts != []
    ensures var t := s.(loop := BeginFire(s.loop)); var u := Call(t, c, s.loop.timeouts[0].callback, file);
      (Core(u) || (Wrecked(s, u) && u == t.(crashed := true))) && u.slots.buffer == s.slots.buffer
  {
    hide LoopOk, RenewFirst, Table, Ledger, Owned, BeginFire, Send, Discover, RenewLease, RebindLease, Expire, Bind, BindThenDiscover, Probe, Announce, Start;
    PopCore(s);
    var t := s.(loop := BeginFire(s.loop));
    match s.loop.timeouts[0].callback
    case SendDiscover => SendCore(t, c, Some(SendDiscover));
    case SendRequest => SendCore(t, c, Some(SendRequest));
    case SendRenew => SendCore(t, c, Some(SendRenew));
    case SendRebind => SendCore(t, c, Some(SendRebind));
    case DhcpDiscover => DiscoverCore(t, c);
    case DhcpRenew => RenewCore(t, c);
    case DhcpRebind => RebindCore(t, c);
    case DhcpExpire => ExpireCore(t, c);
    case DhcpBind => if t.slots.offer.Some? { BindCore(t, c); } else { NoOffer(t, c); }
    case DhcpTimeout => if t.slots.offer.Some? { TimeoutCore(t, c); } else { NoOffer(t, c); }
    case ArpProbe => ProbeCore(t);
    case ArpAnnounce => AnnounceCore(t);
    case StartInterface => if t.carrier { StartCore(t, c, file); }
    case Other(_) =>
  }

  lemma NoOffer(s: State, c: Config)
    requires s.slots.offer == None
    ensures Bind(s, c) == s.(crashed := true) && BindThenDiscover(s, c) == s.(crashed := true)
  {
  }

  lemma FireInv(s: State, c: Config, file: LeaseFile)
    requires Inv(s) && s.loop.timeouts != []
    ensures Inv(Fire(s, c, file)) || Wrecked(s, Fire(s, c, file))
  {
    hide LoopOk, RenewFirst, Table, Ledger, Owned, BeginFire, EndFire, Call;
    CallCore(s, c, file);
    var u := Call(s.(loop := BeginFire(s.loop)), c, s.loop.timeouts[0].callback, file);
    if Core(u) {
      Ends(u.loop);
    }
  }

  lemma LoadInv(s: State, i: Input)
    requires Inv(s)
    ensures Inv(Load(s, i)) && Load(s, i).loop == s.loop && s.world.now <= Load(s, i).world.now
    ensures Load(s, i) == s.(world := Load(s, i).world)
  {
    hide LoopOk, Table, Ledger, Owned;
  }

  /** Every step keeps the invariant, or ends in dhcp_bind without an offer. */
  lemma StepInv(s: State, c: Config, i: Input)
    requires Inv(s) && Enabled4(s, i)
    ensures Inv(Step(s, c, i)) || Wrecked(s, Step(s, c, i))
  {
    hide LoopOk, RenewFirst, Table, Ledger, Owned, Fire, HandlePackets, Drop, Start, Conflict4, Load;
    LoadInv(s, i);
    var t := Load(s, i);
    match i.event
    case TimerFires(file) => FireInv(t, c, file);
    case PacketsArrive(frames) => PacketsCore(t, c, frames);
    case CarrierLost => DropCore(Close(t.(carrier := false)), c);
    case CarrierAcquired(file) => StartCore(t.(carrier := true), c, file);
    case AddressClaimed(file) => ConflictCore(t, c, file);
    case AddressRemoved => DropCore(t, c);
    case Reconfigure(file) => if t.carrier { StartCore(t, c, file); }
  }

  lemma InitialInv(s: State)
    requires Initial(s)
    ensures Inv(s)
  {
    var l := s.loop;
    assert NodesOf(l.timeouts) == [0];
    assert Whereabouts(l) == AllNodes(1);
    TableIs(l.timeouts);
    assert Ledger(s.slots) == AllNodes(0);
  }

  /** Nothing happens after a crash. */
  lemma CrashEnds(c: Config, s: State, inputs: seq<Input>, s': State)
    requires s.crashed && Run4(c, s, inputs, s')
    ensures inputs == [] && s' == s
  {
    hide Step;
  }

  lemma {:induction false} RunInv(c: Config, s: State, inputs: seq<Input>, s': State)
    requires Inv(s) && Run4(c, s, inputs, s')
    ensures Inv(s') || (s'.crashed && Owned(s'.slots) && s'.slots.buffer == None)
    decreases |inputs|
  {
    hide Inv, Step, Owned, Wrecked;
    if inputs != [] {
      StepInv(s, c, inputs[0]);
      var t := Step(s, c, inputs[0]);
      if Inv(t) {
        RunInv(c, t, inputs[1..], s');
      } else {
        WreckOwned(s, t);
        CrashEnds(c, t, inputs[1..], s');
      }
    }
  }

  lemma WreckOwned(s: State, t: State)
    requires Inv(s) && Wrecked(s, t)
    ensures t.crashed && Owned(t.slots) && t.slots.buffer == None
  {
    hide LoopOk, Table, LeaseSafe, Owned;
  }
}
