/**
 Retransmission chains of the DHCPv4 client: whatever happens, at most one of send_discover,
 send_request, send_renew and send_rebind is pending and it fits the client's phase, provided
 the leases it binds renew no later than they rebind.
 */
module Dhcp4Chains {
  import opened Common
  import opened Eloop
  import opened Dhcp4
  import opened Dhcp4Timers
  import opened Dhcp4Effects
  import opened Dhcp4Safety

  const SENDS := {SendDiscover, SendRequest, SendRenew, SendRebind}

  /** The phase a retransmission belongs to. */
  function PhaseOf(cb: Callback): Phase
    requires cb in SENDS
  {
    match cb
    case SendDiscover => Discovering
    case SendRequest => Requesting
    case SendRenew => Renewing
    case SendRebind => Rebinding
  }

  /** At most one retransmission is pending, and it fits the phase.  (A restart whose socket does
      not open leaves the phase at Init with the old timer running.) */
  ghost predicate OneSender(s: State) {
    && (forall a, b :: a in SENDS && b in SENDS && Armed(s, a) && Armed(s, b) ==> a == b)
    && (forall a :: a in SENDS && Armed(s, a) ==> s.phase == PhaseOf(a) || s.phase == Init)
  }

  /** A retransmission excludes the timers that would start another one. */
  ghost predicate NoRival(s: State) {
    && (Armed(s, SendDiscover) || Armed(s, SendRequest) || Armed(s, SendRebind) ==>
          !Armed(s, DhcpRenew) && !Armed(s, DhcpRebind))
    && (Armed(s, SendRenew) ==> !Armed(s, DhcpRenew))
    && (Armed(s, DhcpBind) || Armed(s, ArpProbe) ==> forall a :: a in SENDS ==> !Armed(s, a))
  }

  /** The lease dhcp_bind would make of this message renews no later than it rebinds. */
  predicate OrderedTimes(p: Packet) {
    var l := Clamp(GetLease(Lease(0, 0, 0, 0, 0, false, 0, 0), p));
    l.renewalTime <= l.rebindTime
  }

  ghost predicate SlotsOrdered(m: Slots) {
    && (m.offer.Some? ==> OrderedTimes(m.offer.value.body))
    && (m.buffer.Some? ==> OrderedTimes(m.buffer.value.body))
  }

  ghost predicate Chain(s: State) {
    OneSender(s) && NoRival(s) && RenewFirst(s.loop.timeouts) && SlotsOrdered(s.slots)
  }

  lemma FewTimers(s: State)
    requires LoopOk(s.loop) && !Armed(s, DhcpRenew)
    ensures RenewFirst(s.loop.timeouts)
  {
    TableOk(s.loop);
  }

  lemma DroppedChain(s: State, t: State)
    requires Dropped4(s, t) && SlotsOrdered(s.slots)
    ensures Chain(t)
  {
    hide LoopOk, RenewFirst, Table, Ledger, OrderedTimes;
    FewTimers(t);
  }

  /** Nothing else is being sent, and nothing pending would start to. */
  ghost predicate Clear(s: State, cb: Callback) {
    && cb in SENDS
    && (forall a :: a in SENDS && a != cb ==> !Armed(s, a))
    && !Armed(s, DhcpRenew) && (cb != SendRenew ==> !Armed(s, DhcpRebind))
    && !Armed(s, DhcpBind) && !Armed(s, ArpProbe)
    && (s.phase == PhaseOf(cb) || s.phase == Init)
  }

  lemma SendChain(s: State, c: Config, cb: Callback)
    requires Sound(s) && Clear(s, cb) && RenewFirst(s.loop.timeouts) && SlotsOrdered(s.slots)
    ensures Chain(Send(s, c, Some(cb)))
  {
    hide LoopOk, RenewFirst, Table, Ledger, Send, OrderedTimes;
    SendEffect(s, c, Some(cb));
    var t := Send(s, c, Some(cb));
    if Dropped4(s, t) {
      DroppedChain(s, t);
    }
  }

  lemma DropChain(s: State, c: Config)
    requires Sound(s) && SlotsOrdered(s.slots)
    ensures Chain(Drop(s, c))
  {
    hide LoopOk, RenewFirst, Table, Ledger, Drop, OrderedTimes;
    DropEffect(s, c);
    DroppedChain(s, Drop(s, c));
  }

  lemma DiscoverChain(s: State, c: Config)
    requires Sound(s) && SlotsOrdered(s.slots)
    ensures Chain(Discover(s, c))
  {
    hide LoopOk, RenewFirst, Table, Ledger, Send, Delete, OrderedTimes;
    var s1 := NewXid(s.(phase := Discovering));
    ClearEffect(s1);
    SendChain(ClearTimers(s1), c, SendDiscover);
  }

  lemma ExpireChain(s: State, c: Config)
    requires Sound(s) && SlotsOrdered(s.slots)
    ensures Chain(Expire(s, c))
  {
    hide LoopOk, RenewFirst, Table, Ledger, Discover, Drop, Delete, OrderedTimes;
    ClearEffect(s);
    DropEffect(ClearTimers(s), c);
    DiscoverChain(SetInterval(Drop(ClearTimers(s), c), 0), c);
  }

  /** The times dhcp_bind settles on depend on the message alone. */
  lemma ClampOfMessage(l: Lease, p: Packet)
    requires OrderedTimes(p)
    ensures Clamp(GetLease(l, p)).renewalTime <= Clamp(GetLease(l, p)).rebindTime
  {
  }

  lemma ArmLeaseOrder(s: State)
    requires Sound(s) && s.lease.renewalTime <= s.lease.rebindTime
    requires !Armed(s, DhcpRenew) && !Armed(s, DhcpRebind) && RenewFirst(s.loop.timeouts)
    ensures RenewFirst(ArmLease(s).loop.timeouts)
  {
    hide LoopOk, RenewFirst, Table, Add;
    var d1 := s.lease.renewalTime * SECOND;
    var w1 := ReadClock(s.world);
    ArmsInOrder(s.loop, w1.now, d1, DhcpRenew);
    TimerArms(s, d1, DhcpRenew);
    var s1 := AddTimer(s, d1, DhcpRenew);
    var d2 := s.lease.rebindTime * SECOND;
    var w2 := ReadClock(s1.world);
    ArmsInOrder(s1.loop, w2.now, d2, DhcpRebind);
    TimerArms(s1, d2, DhcpRebind);
    var s2 := AddTimer(s1, d2, DhcpRebind);
    TimerArms(s2, s.lease.leaseTime * SECOND, DhcpExpire);
  }

  lemma BindChain(s: State, c: Config)
    requires Base(s) && s.slots.offer.Some? && !AwaitingBind(s) && SlotsOrdered(s.slots)
    requires !Armed(s, DhcpRenew) && !Armed(s, DhcpRebind) && RenewFirst(s.loop.timeouts)
    requires forall a :: a in SENDS ==> !Armed(s, a)
    ensures Chain(Bind(s, c))
  {
    hide LoopOk, RenewFirst, Table, Ledger, TakeLease, Announce, OrderedTimes, Owned;
    TakeLeaseEffect(s);
    TakeLeaseOrder(s);
    var t := TakeLease(s).(phase := Bound);
    if c.arp {
      AnnounceCore(t.(counters := t.counters.(claims := 0)));
    }
  }

  lemma TakeLeaseOrder(s: State)
    requires Base(s) && s.slots.offer.Some? && SlotsOrdered(s.slots)
    requires !Armed(s, DhcpRenew) && !Armed(s, DhcpRebind) && RenewFirst(s.loop.timeouts)
    ensures RenewFirst(TakeLease(s).loop.timeouts)
  {
    hide LoopOk, RenewFirst, Table, Ledger, ArmLease, Clamp, Adopt, OrderedTimes, Owned;
    var w := ReadClock(s.world);
    var base := s.lease.(boundTime := w.now);
    ClampOfMessage(base, s.slots.offer.value.body);
    var lease := Clamp(GetLease(base, s.slots.offer.value.body));
    var s1 := Close(s).(world := w, slots := Adopt(s.slots), lease := lease);
    var s2 := s1.(counters := s1.counters.(xid := 0));
    if lease.leaseTime != INFINITE {
      ArmLeaseOrder(s2);
    }
  }

  lemma TimeoutChain(s: State, c: Config)
    requires Base(s) && s.slots.offer.Some? && SlotsOrdered(s.slots)
    ensures Chain(BindThenDiscover(s, c))
  {
    hide LoopOk, RenewFirst, Table, Ledger, Bind, Discover, OrderedTimes, Owned;
    BindBase(s, c);
    BindSlots(s, c);
    DiscoverChain(SetInterval(Bind(s, c), 0), c);
  }

  lemma BindSlots(s: State, c: Config)
    requires Base(s) && s.slots.offer.Some?
    ensures Bind(s, c).slots.offer == None
  {
    hide LoopOk, RenewFirst, Table, Ledger, TakeLease, Announce, Owned;
    TakeLeaseEffect(s);
    var t := TakeLease(s).(phase := Bound);
    if c.arp {
      AnnounceCore(t.(counters := t.counters.(claims := 0)));
    }
  }

  lemma ProbeChain(s: State)
    requires Sound(s) && Chain(s) && forall a :: a in SENDS ==> !Armed(s, a)
    ensures Chain(Probe(s))
  {
    hide LoopOk, RenewFirst, Table, Ledger, AddTimer, SlotsOrdered;
    var (t, ok) := OpenArp(s);
    if ok {
      var u := t.(counters := t.counters.(probes := t.counters.probes + 1));
      if u.counters.probes < PROBE_NUM {
        var (w, r) := Random(u.world);
        ProbeTimer(u.(world := w), SECOND + r % SECOND, ArpProbe);
      } else {
        ProbeTimer(u, ANNOUNCE_WAIT * SECOND, DhcpBind);
      }
    }
  }

  lemma ProbeTimer(s: State, delay: nat, cb: Callback)
    requires Sound(s) && Chain(s) && (forall a :: a in SENDS ==> !Armed(s, a))
    requires delay < CLOCK_END && (cb == ArpProbe || cb == DhcpBind)
    ensures Chain(AddTimer(s, delay, cb))
  {
    hide LoopOk, RenewFirst, Table, Ledger, AddTimer, OrderedTimes;
    TimerArms(s, delay, cb);
  }

  lemma RenewChain(s: State, c: Config)
    requires Core(s.(phase := Renewing)) && Chain(s) && Clear(s.(phase := Renewing), SendRenew)
    ensures Chain(RenewLease(s, c))
  {
    hide LoopOk, RenewFirst, Table, Ledger, Send, OrderedTimes, Owned;
    SendChain(NewXid(s.(phase := Renewing)), c, SendRenew);
  }

  lemma RebindChain(s: State, c: Config)
    requires Core(s.(phase := Rebinding)) && RenewFirst(s.loop.timeouts) && SlotsOrdered(s.slots)
    requires !Armed(s, SendDiscover) && !Armed(s, SendRequest)
    requires !Armed(s, DhcpRenew) && !Armed(s, DhcpRebind) && !Armed(s, DhcpBind) && !Armed(s, ArpProbe)
    ensures Chain(RebindLease(s, c))
  {
    hide LoopOk, RenewFirst, Table, Ledger, Send, Delete, OrderedTimes, Owned;
    var s1 := s.(phase := Rebinding, lease := s.lease.(server := 0));
    Stops(s1.loop, SendRenew);
    SendChain(StopTimer(s1, SendRenew), c, SendRebind);
  }

  lemma RebootChain(s: State, c: Config)
    requires Base(s) && s.carrier && SlotsOrdered(s.slots)
    ensures Chain(Reboot(s, c))
  {
    hide LoopOk, RenewFirst, Table, Ledger, Send, Delete, Discover, AddTimer, OrderedTimes, Owned;
    var s1 := SetInterval(s, 0);
    if c.reboot == 0 || s.slots.offer == None {
      DiscoverChain(s1, c);
    } else {
      var s2 := NewXid(s1.(phase := Rebooting, lease := s1.lease.(server := 0)));
      ClearEffect(s2);
      var s3 := ClearTimers(s2);
      var giveUp := if c.lastLease && s3.lease.fromInfo then DhcpTimeout else DhcpExpire;
      TimerArms(s3, c.reboot * SECOND, giveUp);
      SendChain(AddTimer(s3, c.reboot * SECOND, giveUp).(phase := Requesting), c, SendRequest);
    }
  }

  /** Every message an input brings would renew no later than it rebinds. */
  predicate OrderedFile(f: LeaseFile) {
    f.NoFile? || OrderedTimes(f.p)
  }

  predicate OrderedFrames(rs: seq<Received>) {
    forall i :: 0 <= i < |rs| && rs[i].Arrived? ==> OrderedTimes(rs[i].p)
  }

  predicate OrderedInput(i: Input) {
    match i.event
    case PacketsArrive(frames) => OrderedFrames(frames)
    case CarrierLost => true
    case AddressRemoved => true
    case _ => OrderedFile(i.event.file)
  }

  lemma StartChain(s: State, c: Config, file: LeaseFile)
    requires Core(s) && Chain(s) && s.carrier && OrderedFile(file)
    ensures Chain(Start(s, c, file))
  {
    hide LoopOk, RenewFirst, Table, Ledger, Discover, Reboot, OpenSockets, Owned, Free, OrderedTimes;
    var s1 := Close(s.(phase := Init, counters := s.counters.(nakoff := 0)));
    FreeConserves(s1.slots);
    var s2 := s1.(slots := Free(s1.slots, s1.slots.offer).(offer := None));
    OwnedBy(s.slots, s2.slots);
    var (s3, ok) := Open(s2);
    if ok {
      var m := s3.slots;
      ReadsLease(m, if file.NoFile? then EMPTY else file.p);
      match file
      case NoFile => DiscoverChain(s3, c);
      case Saved(p, age) =>
        if Outdated(p, age) {
          var m1 := m.(heap := m.heap + 1, freed := m.freed + multiset{m.heap});
          DiscoverChain(s3.(slots := m1, lease := GetLease(s3.lease, p).(fromInfo := true, addr := 0)), c);
        } else {
          var m1 := m.(heap := m.heap + 1, offer := Some(Message(m.heap, p)));
          RebootChain(s3.(slots := m1, lease := Aged(GetLease(s3.lease, p).(fromInfo := true), age)), c);
        }
    }
  }

  lemma NakChain(s: State, c: Config)
    requires Sound(s) && SlotsOrdered(s.slots)
    ensures Chain(HandleNak(s, c))
  {
    hide LoopOk, RenewFirst, Table, Ledger, Drop, AddTimer, OrderedTimes;
    DropEffect(s, c);
    DropChain(s, c);
    var t := Close(Drop(s, c));
    TimerArms(t, t.counters.nakoff * SECOND, DhcpDiscover);
  }

  lemma AcceptChain(s: State, c: Config, configured: bool)
    requires Base(s) && SlotsOrdered(s.slots) && (s.slots.buffer.Some? || s.slots.offer.Some?)
    ensures Chain(Accept(s, c, configured))
  {
    hide LoopOk, RenewFirst, Table, Ledger, Probe, Bind, Delete, AdoptBuffer, OrderedTimes, Owned;
    AdoptBufferConserves(s.slots);
    OwnedBy(s.slots, AdoptBuffer(s.slots));
    var s1 := s.(
      counters := s.counters.(nakoff := 0),
      slots := AdoptBuffer(s.slots),
      lease := s.lease.(fromInfo := false));
    ClearEffect(s1);
    var s2 := Close(ClearTimers(s1));
    if c.arp && !configured && !InUse(s2.slots) {
      ProbeChain(s2.(phase := Probing, counters := s2.counters.(claims := 0, probes := 0)));
    } else {
      BindChain(s2, c);
    }
  }

  lemma TakeOfferChain(s: State, c: Config, r: Received)
    requires Core(s) && Chain(s) && r.Arrived? && s.slots.buffer.Some? && s.phase == Discovering
    ensures Chain(TakeOffer(s, c, r))
  {
    hide LoopOk, RenewFirst, Table, Ledger, Accept, Send, Delete, AdoptBuffer, OrderedTimes, Owned;
    AdoptBufferConserves(s.slots);
    OwnedBy(s.slots, AdoptBuffer(s.slots));
    var l := s.lease.(
      fromInfo := false,
      addr := r.p.yiaddr,
      server := if r.p.kind == BOOTP || r.p.server == None then 0 else r.p.server.value);
    var s1 := s.(lease := l, slots := AdoptBuffer(s.slots));
    Stops(s1.loop, SendDiscover);
    var t := StopTimer(s1, SendDiscover);
    if r.p.kind == BOOTP {
      AcceptChain(t, c, r.configured);
    } else {
      SendChain(t.(phase := Requesting), c, SendRequest);
    }
  }

  lemma HandleChain(s: State, c: Config, r: Received)
    requires Core(s) && Chain(s) && r.Arrived? && s.slots.buffer.Some?
    ensures Chain(Handle(s, c, r))
  {
    hide LoopOk, RenewFirst, Table, Ledger, HandleNak, TakeOffer, Accept, Owned, OrderedTimes;
    var s1 := SetInterval(s, 0);
    assert Core(s1) && Chain(s1);
    NakChain(s1, c);
    AcceptChain(s1, c, r.configured);
    if s1.phase == Discovering {
      TakeOfferChain(s1, c, r);
    }
  }

  lemma FillOrdered(m: Slots, p: Packet)
    requires SlotsOrdered(m) && OrderedTimes(p)
    ensures SlotsOrdered(Fill(m, p))
  {
  }

  lemma FrameChain(s: State, c: Config, r: Received)
    requires Core(s) && Chain(s) && (r.Arrived? ==> OrderedTimes(r.p))
    ensures Chain(TakeFrame(s, c, r))
  {
    hide LoopOk, RenewFirst, Table, Ledger, Handle, Owned, Fill, OrderedTimes;
    assert OrderedTimes(EMPTY) by { EmptyOrdered(); }
    var p := if r.Arrived? then r.p else EMPTY;
    FillConserves(s.slots, p);
    FillOrdered(s.slots, p);
    if r.Arrived? {
      HandleChain(s.(slots := Fill(s.slots, p)), c, r);
    }
  }

  lemma EmptyOrdered()
    ensures OrderedTimes(EMPTY)
  {
  }

  lemma {:induction false} PacketsChain(s: State, c: Config, rs: seq<Received>)
    requires Core(s) && Chain(s) && OrderedFrames(rs)
    ensures Chain(HandlePackets(s, c, rs))
    decreases |rs|
  {
    hide LoopOk, RenewFirst, Table, Ledger, TakeFrame, Owned, Free, OrderedTimes;
    if rs == [] {
      BufferFreed(s.slots);
    } else {
      FrameCore(s, c, rs[0]);
      FrameChain(s, c, rs[0]);
      var t := TakeFrame(s, c, rs[0]);
      PacketsChain(t, c, if rs[0].Arrived? && !t.sockets.raw then [] else rs[1..]);
    }
  }

  lemma ConflictChain(s: State, c: Config, file: LeaseFile)
    requires Core(s) && Chain(s) && s.slots.offer.Some? && OrderedFile(file)
    ensures Chain(Conflict4(s, c, file))
  {
    hide LoopOk, RenewFirst, Table, Ledger, Send, Delete, Start, AddTimer, Owned, OrderedTimes;
    if !s.lease.fromInfo {
      SendCore(s, c, None);
    }
    var s1 := if s.lease.fromInfo then s else Send(s, c, None);
    ClearEffect(Close(s1));
    var s2 := ClearTimers(Close(s1));
    assert Core(s2) && Chain(s2);
    if s2.lease.fromInfo {
      if s2.carrier {
        StartChain(s2, c, file);
      }
    } else {
      TimerArms(s2, ARP_FAIL * SECOND, StartInterface);
    }
  }

  lemma PopChain(s: State)
    requires Core(s) && Chain(s) && s.loop.inFlight == None && s.loop.timeouts != []
    ensures var t := s.(loop := BeginFire(s.loop)); var cb := s.loop.timeouts[0].callback;
      && Chain(t)
      && (cb in SENDS ==> Clear(t, cb))
      && (cb == DhcpRebind ==> !Armed(t, DhcpRenew))
  {
    hide LoopOk, RenewFirst, Table, Ledger, Owned, OrderedTimes;
    PopCore(s);
    PopsInOrder(s.loop);
  }

  lemma CallChain(s: State, c: Config, file: LeaseFile)
    requires Core(s) && Chain(s) && s.loop.inFlight == None && s.loop.timeouts != [] && OrderedFile(file)
    ensures var t := s.(loop := BeginFire(s.loop)); var u := Call(t, c, s.loop.timeouts[0].callback, file); u.crashed || Chain(u)
  {
    hide LoopOk, RenewFirst, Table, Ledger, Owned, BeginFire, Send, Discover, RenewLease, RebindLease, Expire, Bind, BindThenDiscover, Probe, Announce, Start, OrderedTimes;
    PopCore(s);
    PopChain(s);
    var t := s.(loop := BeginFire(s.loop));
    match s.loop.timeouts[0].callback
    case SendDiscover => SendChain(t, c, SendDiscover);
    case SendRequest => SendChain(t, c, SendRequest);
    case SendRenew => SendChain(t, c, SendRenew);
    case SendRebind => SendChain(t, c, SendRebind);
    case DhcpDiscover => DiscoverChain(t, c);
    case DhcpRenew => RenewChain(t, c);
    case DhcpRebind => RebindChain(t, c);
    case DhcpExpire => ExpireChain(t, c);
    case DhcpBind => if t.slots.offer.Some? { BindChain(t, c); } else { NoOffer(t, c); }
    case DhcpTimeout => if t.slots.offer.Some? { TimeoutChain(t, c); } else { NoOffer(t, c); }
    case ArpProbe => ProbeChain(t);
    case ArpAnnounce => AnnounceChain(t);
    case StartInterface => if t.carrier { StartChain(t, c, file); }
    case Other(_) =>
  }

  lemma AnnounceChain(s: State)
    requires Base(s) && Chain(s)
    ensures Chain(Announce(s))
  {
    hide LoopOk, RenewFirst, Table, Ledger, Owned, Announce, OrderedTimes;
    AnnounceCore(s);
  }

  lemma FireChain(s: State, c: Config, file: LeaseFile)
    requires Inv(s) && Chain(s) && s.loop.timeouts != [] && OrderedFile(file)
    ensures Fire(s, c, file).crashed || Chain(Fire(s, c, file))
  {
    hide LoopOk, RenewFirst, Table, Ledger, Owned, BeginFire, EndFire, Call, OrderedTimes;
    CallCore(s, c, file);
    CallChain(s, c, file);
    var u := Call(s.(loop := BeginFire(s.loop)), c, s.loop.timeouts[0].callback, file);
    if Core(u) {
      Ends(u.loop);
    }
  }

  lemma StepChain(s: State, c: Config, i: Input)
    requires Inv(s) && Chain(s) && Enabled4(s, i) && OrderedInput(i)
    ensures Step(s, c, i).crashed || Chain(Step(s, c, i))
  {
    hide LoopOk, RenewFirst, Table, Ledger, Owned, Fire, HandlePackets, Drop, Start, Conflict4, Load, OrderedTimes;
    LoadInv(s, i);
    var t := Load(s, i);
    match i.event
    case TimerFires(file) => FireChain(t, c, file);
    case PacketsArrive(frames) => PacketsChain(t, c, frames);
    case CarrierLost => DropChain(Close(t.(carrier := false)), c);
    case CarrierAcquired(file) => StartChain(t.(carrier := true), c, file);
    case AddressClaimed(file) => ConflictChain(t, c, file);
    case AddressRemoved => DropChain(t, c);
    case Reconfigure(file) => if t.carrier { StartChain(t, c, file); }
  }

  lemma InitialChain(s: State)
    requires Initial(s)
    ensures Chain(s)
  {
    TableIs(s.loop.timeouts);
    assert Table(s.loop.timeouts).Keys == {(StartInterface, IFACE)};
  }

  /** Over every run whose messages renew no later than they rebind, retransmissions never
      multiply: at most one is pending, it fits the phase, and renewal precedes rebinding. */
  lemma {:induction false} RunChain(c: Config, s: State, inputs: seq<Input>, s': State)
    requires Inv(s) && Chain(s) && Run4(c, s, inputs, s')
    requires forall i :: 0 <= i < |inputs| ==> OrderedInput(inputs[i])
    ensures s'.crashed || (Inv(s') && Chain(s'))
    decreases |inputs|
  {
    hide Inv, Step, Chain;
    if inputs != [] {
      StepInv(s, c, inputs[0]);
      StepChain(s, c, inputs[0]);
      var t := Step(s, c, inputs[0]);
      if t.crashed {
        CrashEnds(c, t, inputs[1..], s');
      } else {
        RunChain(c, t, inputs[1..], s');
      }
    }
  }
}
