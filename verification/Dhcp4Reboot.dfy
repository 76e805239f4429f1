/**
 What ends a lease while its confirmation is requested: the expiry is pending in the REQUEST phase
 exactly when it was entered to confirm a saved lease and no last lease is to be used, and then it is
 due after the reboot time, not the lease time.
 */
module Dhcp4Reboot {
  import opened Common
  import opened Eloop
  import opened Dhcp4
  import opened Dhcp4Timers
  import opened Dhcp4Effects
  import opened Dhcp4Safety
  import opened Dhcp4Offers
  import opened Dhcp4Theorems

  const CONFIRMS := {(DhcpTimeout, IFACE), (DhcpExpire, IFACE), (SendRequest, IFACE)}

  /** What holds of a lease in force while requesting. */
  ghost predicate Asked(s: State, c: Config) {
    s.phase == Requesting && s.slots.current.Some? ==>
      if s.lease.fromInfo then
        && Pend(s).Keys <= CONFIRMS && !s.sockets.arp
        && (Armed(s, DhcpExpire) <==> !c.lastLease)
        && (Armed(s, DhcpExpire) ==> Pend(s)[(DhcpExpire, IFACE)].0 <= s.world.now + c.reboot * SECOND)
      else !Armed(s, DhcpExpire)
  }

  /** Sending keeps the phase, and opens no socket for ARP while it keeps the lease. */
  lemma SendKeeps(s: State, c: Config, again: Option<Callback>)
    requires Sound(s)
    ensures var t := Send(s, c, again); t.phase == s.phase && (t.slots.current.Some? && t.sockets.arp ==> s.sockets.arp)
  {
    hide LoopOk, RenewFirst, Table, Ledger, Add, Discard, Drop;
    SendEffect(s, c, again);
    var (w, r) := Random(s.world);
    var s1 := if again == None then s else SetInterval(s, NextInterval(s.counters.interval)).(world := w);
    var (s2, ok) := Open(s1);
    if ok {
      var (w3, sent) := NextSend(s2.world);
      DropEffect(s2.(world := w3), c);
    } else {
      DropEffect(s2, c);
    }
  }

  lemma SendAsked(s: State, c: Config, again: Option<Callback>)
    requires Sound(s) && Asked(s, c)
    requires s.phase == Requesting && s.slots.current.Some? ==>
      again != Some(DhcpExpire) && (s.lease.fromInfo && again.Some? ==> again.value == SendRequest)
    ensures Asked(Send(s, c, again), c)
  {
    hide LoopOk, RenewFirst, Table, Ledger, Send;
    SendEffect(s, c, again);
    SendKeeps(s, c, again);
  }

  lemma DropAsked(s: State, c: Config)
    requires Sound(s)
    ensures Asked(Drop(s, c), c) && Drop(s, c).slots.current == None
  {
    hide LoopOk, RenewFirst, Table, Ledger, Drop;
    DropEffect(s, c);
  }

  /** Entering the phase from dhcp_reboot. */
  lemma RebootAsked(s: State, c: Config)
    requires Base(s) && s.phase == Init && s.lease.fromInfo && !s.sockets.arp
    ensures Asked(Reboot(s, c), c)
  {
    hide LoopOk, RenewFirst, Table, Ledger, Send, Delete, Discover, AddTimer, Owned;
    var s1 := SetInterval(s, 0);
    if s.carrier {
      if c.reboot == 0 || s.slots.offer == None {
        DiscoverCore(s1, c);
      } else {
        var s2 := NewXid(s1.(phase := Rebooting, lease := s1.lease.(server := 0)));
        ClearEffect(s2);
        var s3 := ClearTimers(s2);
        var giveUp := if c.lastLease && s3.lease.fromInfo then DhcpTimeout else DhcpExpire;
        TimerArms(s3, c.reboot * SECOND, giveUp);
        var s4 := AddTimer(s3, c.reboot * SECOND, giveUp);
        AddTimerKeeps(s3, c.reboot * SECOND, giveUp);
        SendAsked(s4.(phase := Requesting), c, Some(SendRequest));
      }
    }
  }

  lemma AddTimerKeeps(s: State, delay: nat, cb: Callback)
    ensures AddTimer(s, delay, cb).sockets == s.sockets && AddTimer(s, delay, cb).slots == s.slots
  {
    hide Add;
  }

  lemma StartAsked(s: State, c: Config, file: LeaseFile)
    requires Core(s) && s.carrier
    ensures Asked(Start(s, c, file), c)
  {
    hide LoopOk, RenewFirst, Table, Ledger, Discover, Reboot, Owned, Free, Asked;
    var s1 := Close(s.(phase := Init, counters := s.counters.(nakoff := 0)));
    FreeConserves(s1.slots);
    var s2 := s1.(slots := Free(s1.slots, s1.slots.offer).(offer := None));
    OwnedBy(s.slots, s2.slots);
    var (s3, ok) := Open(s2);
    if ok {
      ReadsLease(s3.slots, if file.NoFile? then EMPTY else file.p);
      var m := s3.slots;
      match file
      case NoFile => DiscoverAsked(s3, c);
      case Saved(p, age) =>
        if Outdated(p, age) {
          var m1 := m.(heap := m.heap + 1, freed := m.freed + multiset{m.heap});
          DiscoverAsked(s3.(slots := m1, lease := GetLease(s3.lease, p).(fromInfo := true, addr := 0)), c);
        } else {
          var m1 := m.(heap := m.heap + 1, offer := Some(Message(m.heap, p)));
          RebootAsked(s3.(slots := m1, lease := Aged(GetLease(s3.lease, p).(fromInfo := true), age)), c);
        }
    } else {
      OtherPhase(s3, c);
    }
  }

  lemma OtherPhase(s: State, c: Config)
    requires s.phase != Requesting || s.slots.current == None
    ensures Asked(s, c)
  {
  }

  lemma DiscoverAsked(s: State, c: Config)
    requires Base(s)
    ensures Asked(Discover(s, c), c)
  {
    hide LoopOk, RenewFirst, Table, Ledger, Discover, Owned;
    DiscoverCore(s, c);
  }

  /** Adopting a message leads to another phase. */
  lemma AcceptAsked(s: State, c: Config, configured: bool)
    requires Base(s) && (s.slots.buffer.Some? || s.slots.offer.Some?)
    ensures Asked(Accept(s, c, configured), c)
  {
    hide LoopOk, RenewFirst, Table, Ledger, Add, Discard, TakeLease, Owned, Free;
    AdoptsSomething(s.slots);
  }

  lemma AdoptsSomething(m: Slots)
    requires m.buffer.Some? || m.offer.Some?
    ensures AdoptBuffer(m).offer.Some?
  {
  }

  /** Entering the phase from an offer: nothing is left to end a lease in force. */
  lemma TakeOfferAsked(s: State, c: Config, r: Received)
    requires Core(s) && r.Arrived? && s.slots.buffer.Some? && s.phase == Discovering
    ensures Asked(TakeOffer(s, c, r), c)
  {
    hide LoopOk, RenewFirst, Table, Ledger, Send, Delete, Owned, AdoptBuffer, Accept;
    AdoptBufferConserves(s.slots);
    var p := r.p;
    var l := s.lease.(
      fromInfo := false, addr := p.yiaddr, server := if p.kind == BOOTP || p.server == None then 0 else p.server.value);
    var s1 := s.(lease := l, slots := AdoptBuffer(s.slots));
    Stops(s1.loop, SendDiscover);
    OwnedBy(s.slots, s1.slots);
    var t := StopTimer(s1, SendDiscover);
    if p.kind == BOOTP {
      AdoptsSomething(s.slots);
      AcceptAsked(t, c, r.configured);
    } else {
      SendAsked(t.(phase := Requesting), c, Some(SendRequest));
    }
  }

  lemma HandleAsked(s: State, c: Config, r: Received)
    requires Core(s) && Asked(s, c) && r.Arrived? && s.slots.buffer.Some?
    ensures Asked(Handle(s, c, r), c)
  {
    hide LoopOk, RenewFirst, Table, Ledger, Owned, TakeOffer, Accept, HandleNak;
    var s1 := SetInterval(s, 0);
    if r.p.kind == NAK {
      NakCore(s1, c);
    } else if r.authentic && r.complete {
      AcceptAsked(s1, c, r.configured);
      if s.phase == Discovering {
        TakeOfferAsked(s1, c, r);
      }
    }
  }

  lemma FrameAsked(s: State, c: Config, r: Received)
    requires Core(s) && Asked(s, c)
    ensures Asked(TakeFrame(s, c, r), c)
  {
    hide LoopOk, RenewFirst, Table, Ledger, Owned, Handle, Fill;
    FillConserves(s.slots, if r.Arrived? then r.p else EMPTY);
    if r.Arrived? {
      HandleAsked(s.(slots := Fill(s.slots, r.p)), c, r);
    }
  }

  lemma {:induction false} PacketsAsked(s: State, c: Config, rs: seq<Received>)
    requires Core(s) && Asked(s, c)
    ensures Asked(HandlePackets(s, c, rs), c)
    decreases |rs|
  {
    hide LoopOk, RenewFirst, Table, Ledger, Owned, TakeFrame;
    if rs != [] {
      FrameCore(s, c, rs[0]);
      FrameAsked(s, c, rs[0]);
      var t := TakeFrame(s, c, rs[0]);
      PacketsAsked(t, c, if rs[0].Arrived? && !t.sockets.raw then [] else rs[1..]);
    }
  }

  lemma ConflictAsked(s: State, c: Config, file: LeaseFile)
    requires Core(s) && Asked(s, c) && s.sockets.arp && s.slots.offer.Some?
    ensures Asked(Conflict4(s, c, file), c)
  {
    hide LoopOk, RenewFirst, Table, Ledger, Send, Delete, Start, AddTimer, Owned;
    if !s.lease.fromInfo {
      SendCore(s, c, None);
      SendEffect(s, c, None);
      SendKeeps(s, c, None);
    }
    var s1 := if s.lease.fromInfo then s else Send(s, c, None);
    ClearEffect(Close(s1));
    var s2 := ClearTimers(Close(s1));
    assert Core(s2);
    if s2.lease.fromInfo {
      if s2.carrier {
        StartAsked(s2, c, file);
      }
    } else {
      TimerArms(s2, ARP_FAIL * SECOND, StartInterface);
    }
  }

  lemma PopAsked(s: State, c: Config)
    requires Core(s) && Asked(s, c) && s.loop.inFlight == None && s.loop.timeouts != []
    ensures var t := s.(loop := BeginFire(s.loop)); var cb := s.loop.timeouts[0].callback;
      && (cb != DhcpExpire ==> Asked(t, c))
      && (s.phase == Requesting && s.slots.current.Some? && s.lease.fromInfo ==> (cb, IFACE) in CONFIRMS)
  {
    hide LoopOk, RenewFirst, Table, Ledger, Owned, BeginFire, LeaseSafe;
    PopCore(s);
  }

  lemma AnnounceAsked(s: State, c: Config)
    requires Base(s) && Asked(s, c) && (s.phase == Requesting && s.slots.current.Some? ==> !s.lease.fromInfo)
    ensures Asked(Announce(s), c)
  {
    hide LoopOk, RenewFirst, Table, Ledger, Owned, Announce;
    AnnounceCore(s);
  }

  lemma CallAsked(s: State, c: Config, file: LeaseFile)
    requires Core(s) && Asked(s, c) && s.loop.inFlight == None && s.loop.timeouts != []
    ensures var t := s.(loop := BeginFire(s.loop)); Asked(Call(t, c, s.loop.timeouts[0].callback, file), c)
  {
    hide LoopOk, RenewFirst, Table, Ledger, Owned, BeginFire, Send, Discover, Expire, Bind, BindThenDiscover, Probe, Announce, Start, Delete, Asked, LeaseSafe;
    PopCore(s);
    PopAsked(s, c);
    CallCore(s, c, file);
    var t := s.(loop := BeginFire(s.loop));
    match s.loop.timeouts[0].callback
    case SendDiscover => SendAsked(t, c, Some(SendDiscover));
    case SendRequest => SendAsked(t, c, Some(SendRequest));
    case SendRenew => SendAsked(t, c, Some(SendRenew));
    case SendRebind => SendAsked(t, c, Some(SendRebind));
    case DhcpDiscover => DiscoverAsked(t, c);
    case DhcpRenew =>
      SendKeeps(NewXid(t.(phase := Renewing)), c, Some(SendRenew));
      OtherPhase(RenewLease(t, c), c);
    case DhcpRebind => RebindAsked(t, c);
    case DhcpExpire =>
      ExpireCore(t, c);
      OtherPhase(Expire(t, c), c);
    case DhcpBind =>
      if t.slots.offer.Some? { BoundPhase(t, c); } else { NoOffer(t, c); }
      OtherPhase(Bind(t, c), c);
    case DhcpTimeout =>
      if t.slots.offer.Some? {
        TimeoutAsked(t, c);
      } else {
        NoOffer(t, c);
        OtherPhase(BindThenDiscover(t, c), c);
      }
    case ArpProbe =>
      ProbeCore(t);
      OtherPhase(Probe(t), c);
    case ArpAnnounce => AnnounceAsked(t, c);
    case StartInterface => if t.carrier { StartAsked(t, c, file); }
    case Other(_) =>
  }

  lemma RebindAsked(s: State, c: Config)
    requires Sound(s)
    ensures Asked(RebindLease(s, c), c)
  {
    hide LoopOk, RenewFirst, Table, Ledger, Send, Delete, Asked;
    var s1 := s.(phase := Rebinding, lease := s.lease.(server := 0));
    Stops(s1.loop, SendRenew);
    SendKeeps(StopTimer(s1, SendRenew), c, Some(SendRebind));
    OtherPhase(RebindLease(s, c), c);
  }

  lemma TimeoutAsked(s: State, c: Config)
    requires Base(s) && s.slots.offer.Some?
    ensures Asked(BindThenDiscover(s, c), c)
  {
    hide LoopOk, RenewFirst, Table, Ledger, Owned, Bind, Discover, Asked;
    BindBase(s, c);
    DiscoverAsked(SetInterval(Bind(s, c), 0), c);
  }

  lemma FireAsked(s: State, c: Config, file: LeaseFile)
    requires Inv(s) && Asked(s, c) && s.loop.timeouts != []
    ensures Asked(Fire(s, c, file), c)
  {
    hide LoopOk, RenewFirst, Table, Ledger, Owned, BeginFire, EndFire, Call, LeaseSafe, OfferReady;
    CallCore(s, c, file);
    CallAsked(s, c, file);
    var u := Call(s.(loop := BeginFire(s.loop)), c, s.loop.timeouts[0].callback, file);
    if Core(u) {
      Ends(u.loop);
    } else {
      PopCore(s);
      Ends(BeginFire(s.loop));
    }
  }

  lemma StepAsked(s: State, c: Config, i: Input)
    requires Inv(s) && Enabled4(s, i) && Asked(s, c)
    ensures Asked(Step(s, c, i), c)
  {
    hide LoopOk, RenewFirst, Table, Ledger, Owned, Fire, HandlePackets, Drop, Start, Conflict4, Load;
    LoadInv(s, i);
    var t := Load(s, i);
    assert Asked(t, c);
    match i.event
    case TimerFires(file) => FireAsked(t, c, file);
    case PacketsArrive(frames) => PacketsAsked(t, c, frames);
    case CarrierLost => DropAsked(Close(t.(carrier := false)), c);
    case CarrierAcquired(file) => StartAsked(t.(carrier := true), c, file);
    case AddressClaimed(file) => ConflictAsked(t, c, file);
    case AddressRemoved => DropAsked(t, c);
    case Reconfigure(file) => if t.carrier { StartAsked(t, c, file); }
  }

  lemma {:induction false} RunAsked(c: Config, s: State, inputs: seq<Input>, t: State)
    requires Inv(s) && Asked(s, c) && Run4(c, s, inputs, t)
    ensures Asked(t, c)
    decreases |inputs|
  {
    hide Inv, Step, Asked, Enabled4;
    if inputs != [] {
      StepInv(s, c, inputs[0]);
      StepAsked(s, c, inputs[0]);
      var u := Step(s, c, inputs[0]);
      if u.crashed {
        CrashEnds(c, u, inputs[1..], t);
      } else {
        RunAsked(c, u, inputs[1..], t);
      }
    }
  }

  /** With a lease in force while requesting, the expiry is pending if and only if the request confirms
      a saved lease and no last lease is to be used; it is then due after the reboot time. */
  lemma RequestExpiryIff(c: Config, s0: State, inputs: seq<Input>, s: State)
    requires Reached(c, s0, inputs, s) && s.phase == Requesting && s.slots.current.Some?
    ensures Armed(s, DhcpExpire) <==> s.lease.fromInfo && !c.lastLease
    ensures Armed(s, DhcpExpire) ==> Pend(s)[(DhcpExpire, IFACE)].0 <= s.world.now + c.reboot * SECOND
  {
    hide Inv, Run4, Table;
    InitialInv(s0);
    RunAsked(c, s0, inputs, s);
  }

  /** In every phase but INIT: with a finite lease in force the expiry is pending if and only if the
      phase maintains the lease, or requests its confirmation without a last lease to fall back on. */
  lemma ExpiryIff(c: Config, s0: State, inputs: seq<Input>, s: State)
    requires Reached(c, s0, inputs, s) && s.slots.current.Some? && s.lease.leaseTime != INFINITE && s.phase != Init
    ensures Armed(s, DhcpExpire) <==> Holding(s.phase) || (s.phase == Requesting && s.lease.fromInfo && !c.lastLease)
  {
    hide Reached, Armed;
    if s.phase == Requesting {
      RequestExpiryIff(c, s0, inputs, s);
    } else {
      ExpiryIffHolding(c, s0, inputs, s);
    }
  }

  /** A start whose socket does not open leaves the client in INIT with the lease, and every timer, as
      they were: there the expiry is pending if and only if it was before. */
  lemma FailedStartKeepsTimers(s: State, c: Config, i: Input)
    requires Enabled4(s, i) && Restarts(s, i) && !Reopens(Load(s, i))
    ensures var t := Step(s, c, i);
      t.phase == Init && t.loop == s.loop && t.lease == s.lease && t.slots.current == s.slots.current
  {
    hide Discover, Reboot;
  }
}
