/**
 When dhcp_bind has its offer: throughout a run if and only if the client is never started over, with
 a bind pending, on a socket that does not open.
 */
module Dhcp4Offers {
  import opened Common
  import opened Eloop
  import opened Dhcp4
  import opened Dhcp4Timers
  import opened Dhcp4Effects
  import opened Dhcp4Safety

  /** Whether dhcp_start's dhcp_open succeeds in this state. */
  predicate Reopens(s: State) {
    OpenSockets(Sockets(false, false, false), s.world, s.slots.current.Some?).2
  }

  /** An input that starts the client over whatever is pending. */
  predicate Restarts(s: State, i: Input) {
    (i.event.Reconfigure? && s.carrier) || i.event.CarrierAcquired?
  }

  /** Starting over is harmless if its socket opens or no bind is pending. */
  ghost predicate Restartable(s: State, i: Input) {
    Restarts(s, i) && AwaitingBind(s) ==> Reopens(Load(s, i))
  }

  ghost predicate AllRestartable(c: Config, s: State, inputs: seq<Input>)
    decreases |inputs|
  {
    inputs == [] ||
    (Enabled4(s, inputs[0]) ==> Restartable(s, inputs[0]) && AllRestartable(c, Step(s, c, inputs[0]), inputs[1..]))
  }

  // ----- nothing is left over

  /** No bind is pending in the phase that a failed start leaves behind. */
  ghost predicate Tidy(s: State) {
    s.phase == Init ==> !AwaitingBind(s)
  }

  lemma SendTidy(s: State, c: Config, again: Option<Callback>)
    requires Sound(s) && Tidy(s)
    requires again == None || again.value in {SendDiscover, SendRequest, SendRenew, SendRebind}
    ensures Tidy(Send(s, c, again)) && Send(s, c, again).phase == s.phase
  {
    hide LoopOk, RenewFirst, Table, Ledger, Send;
    SendEffect(s, c, again);
  }

  lemma DropTidy(s: State, c: Config)
    requires Sound(s)
    ensures !AwaitingBind(Drop(s, c))
  {
    hide LoopOk, RenewFirst, Table, Ledger, Drop;
    DropEffect(s, c);
  }

  lemma RebootTidy(s: State, c: Config)
    requires Base(s) && s.carrier
    ensures Reboot(s, c).phase != Init
  {
    hide LoopOk, RenewFirst, Table, Ledger, Send, Delete, Discover, AddTimer, Owned;
    var s1 := SetInterval(s, 0);
    if c.reboot == 0 || s.slots.offer == None {
      DiscoverCore(s1, c);
    } else {
      var s2 := NewXid(s1.(phase := Rebooting, lease := s1.lease.(server := 0)));
      ClearEffect(s2);
      var s3 := ClearTimers(s2);
      var giveUp := if c.lastLease && s3.lease.fromInfo then DhcpTimeout else DhcpExpire;
      TimerArms(s3, c.reboot * SECOND, giveUp);
      SendTidy(AddTimer(s3, c.reboot * SECOND, giveUp).(phase := Requesting), c, Some(SendRequest));
    }
  }

  lemma StartTidy(s: State, c: Config, file: LeaseFile)
    requires Core(s) && s.carrier && (AwaitingBind(s) ==> Reopens(s))
    ensures Tidy(Start(s, c, file))
  {
    hide LoopOk, RenewFirst, Table, Ledger, Discover, Reboot, OpenSockets, Owned, Free;
    var s1 := Close(s.(phase := Init, counters := s.counters.(nakoff := 0)));
    FreeConserves(s1.slots);
    var s2 := s1.(slots := Free(s1.slots, s1.slots.offer).(offer := None));
    OwnedBy(s.slots, s2.slots);
    var (s3, ok) := Open(s2);
    if ok {
      ReadsLease(s3.slots, if file.NoFile? then EMPTY else file.p);
      var m := s3.slots;
      match file
      case NoFile => DiscoverCore(s3, c);
      case Saved(p, age) =>
        if Outdated(p, age) {
          var m1 := m.(heap := m.heap + 1, freed := m.freed + multiset{m.heap});
          DiscoverCore(s3.(slots := m1, lease := GetLease(s3.lease, p).(fromInfo := true, addr := 0)), c);
        } else {
          var m1 := m.(heap := m.heap + 1, offer := Some(Message(m.heap, p)));
          RebootTidy(s3.(slots := m1, lease := Aged(GetLease(s3.lease, p).(fromInfo := true), age)), c);
        }
    }
  }

  lemma AcceptTidy(s: State, c: Config, configured: bool)
    requires s.slots.buffer.Some? || s.slots.offer.Some?
    ensures Accept(s, c, configured).phase != Init
  {
    hide Add, Discard, TakeLease, Free;
    AdoptBufferConserves(s.slots);
  }

  lemma TakeOfferTidy(s: State, c: Config, r: Received)
    requires Core(s) && r.Arrived? && s.slots.buffer.Some? && s.phase == Discovering
    ensures TakeOffer(s, c, r).phase != Init
  {
    hide LoopOk, RenewFirst, Table, Ledger, Send, Delete, Owned, AdoptBuffer, Accept;
    AdoptBufferConserves(s.slots);
    var p := r.p;
    var l := s.lease.(
      fromInfo := false, addr := p.yiaddr, server := if p.kind == BOOTP || p.server == None then 0 else p.server.value);
    var s1 := s.(lease := l, slots := AdoptBuffer(s.slots));
    Stops(s1.loop, SendDiscover);
    var t := StopTimer(s1, SendDiscover);
    if p.kind == BOOTP {
      AcceptTidy(t, c, r.configured);
    } else {
      SendTidy(t.(phase := Requesting), c, Some(SendRequest));
    }
  }

  lemma NakTidy(s: State, c: Config)
    requires Sound(s)
    ensures !AwaitingBind(HandleNak(s, c))
  {
    hide LoopOk, RenewFirst, Table, Ledger, Drop, AddTimer;
    DropEffect(s, c);
    var t := Close(Drop(s, c));
    TimerArms(t, t.counters.nakoff * SECOND, DhcpDiscover);
  }

  lemma FrameTidy(s: State, c: Config, r: Received)
    requires Core(s) && Tidy(s)
    ensures Tidy(TakeFrame(s, c, r))
  {
    hide LoopOk, RenewFirst, Table, Ledger, Owned, Fill, TakeOffer, Accept, HandleNak;
    FillConserves(s.slots, if r.Arrived? then r.p else EMPTY);
    if r.Arrived? {
      var t := SetInterval(s.(slots := Fill(s.slots, r.p)), 0);
      NakTidy(t, c);
      AcceptTidy(t, c, r.configured);
      if s.phase == Discovering {
        TakeOfferTidy(t, c, r);
      }
    }
  }

  lemma {:induction false} PacketsTidy(s: State, c: Config, rs: seq<Received>)
    requires Core(s) && Tidy(s)
    ensures Tidy(HandlePackets(s, c, rs))
    decreases |rs|
  {
    hide LoopOk, RenewFirst, Table, Ledger, Owned, TakeFrame;
    if rs != [] {
      FrameCore(s, c, rs[0]);
      FrameTidy(s, c, rs[0]);
      var t := TakeFrame(s, c, rs[0]);
      PacketsTidy(t, c, if rs[0].Arrived? && !t.sockets.raw then [] else rs[1..]);
    }
  }

  lemma ConflictTidy(s: State, c: Config, file: LeaseFile)
    requires Core(s) && Tidy(s) && s.slots.offer.Some?
    ensures Tidy(Conflict4(s, c, file))
  {
    hide LoopOk, RenewFirst, Table, Ledger, Send, Delete, Start, AddTimer, Owned;
    if !s.lease.fromInfo {
      SendCore(s, c, None);
    }
    var s1 := if s.lease.fromInfo then s else Send(s, c, None);
    ClearEffect(Close(s1));
    var s2 := ClearTimers(Close(s1));
    assert Core(s2);
    if s2.lease.fromInfo {
      if s2.carrier {
        StartTidy(s2, c, file);
      }
    } else {
      TimerArms(s2, ARP_FAIL * SECOND, StartInterface);
    }
  }

  lemma CallTidy(s: State, c: Config, file: LeaseFile)
    requires Core(s) && Tidy(s) && s.loop.inFlight == None && s.loop.timeouts != []
    ensures var t := s.(loop := BeginFire(s.loop)); Tidy(Call(t, c, s.loop.timeouts[0].callback, file))
  {
    hide LoopOk, RenewFirst, Table, Ledger, Owned, BeginFire, Send, Discover, Expire, Bind, BindThenDiscover, Probe, Announce, Start, Delete, LeaseSafe;
    PopCore(s);
    var t := s.(loop := BeginFire(s.loop));
    match s.loop.timeouts[0].callback
    case SendDiscover => SendTidy(t, c, Some(SendDiscover));
    case SendRequest => SendTidy(t, c, Some(SendRequest));
    case SendRenew => SendTidy(t, c, Some(SendRenew));
    case SendRebind => SendTidy(t, c, Some(SendRebind));
    case DhcpDiscover => DiscoverCore(t, c);
    case DhcpRenew => SendTidy(NewXid(t.(phase := Renewing)), c, Some(SendRenew));
    case DhcpRebind => RebindTidy(t, c);
    case DhcpExpire => ExpireCore(t, c);
    case DhcpBind => BoundPhase(t, c);
    case DhcpTimeout => TimeoutCore(t, c);
    case ArpProbe => ProbeCore(t);
    case ArpAnnounce => AnnounceCore(t);
    case StartInterface => if t.carrier { StartTidy(t, c, file); }
    case Other(_) =>
  }

  lemma BoundPhase(s: State, c: Config)
    requires s.slots.offer.Some?
    ensures Bind(s, c).phase == Bound
  {
    hide Add, TakeLease;
  }

  lemma RebindTidy(s: State, c: Config)
    requires Sound(s)
    ensures RebindLease(s, c).phase == Rebinding
  {
    hide LoopOk, RenewFirst, Table, Ledger, Send, Delete;
    var s1 := s.(phase := Rebinding, lease := s.lease.(server := 0));
    Stops(s1.loop, SendRenew);
    SendTidy(StopTimer(s1, SendRenew), c, Some(SendRebind));
  }

  lemma FireTidy(s: State, c: Config, file: LeaseFile)
    requires Inv(s) && Tidy(s) && s.loop.timeouts != []
    ensures Tidy(Fire(s, c, file))
  {
    hide LoopOk, RenewFirst, Table, Ledger, Owned, BeginFire, EndFire, Call, LeaseSafe;
    CallCore(s, c, file);
    CallTidy(s, c, file);
    Ends(Call(s.(loop := BeginFire(s.loop)), c, s.loop.timeouts[0].callback, file).loop);
  }

  /** A step that does not start over unluckily leaves no bind behind. */
  lemma StepTidy(s: State, c: Config, i: Input)
    requires Inv(s) && Tidy(s) && Enabled4(s, i) && Restartable(s, i)
    ensures Inv(Step(s, c, i)) && Tidy(Step(s, c, i))
  {
    hide LoopOk, RenewFirst, Table, Ledger, Owned, Fire, HandlePackets, Drop, Start, Conflict4, Load;
    StepInv(s, c, i);
    LoadInv(s, i);
    var t := Load(s, i);
    match i.event
    case TimerFires(file) => FireTidy(t, c, file);
    case PacketsArrive(frames) => PacketsTidy(t, c, frames);
    case CarrierLost => DropTidy(Close(t.(carrier := false)), c);
    case CarrierAcquired(file) => StartTidy(t.(carrier := true), c, file);
    case AddressClaimed(file) => ConflictTidy(t, c, file);
    case AddressRemoved => DropTidy(t, c);
    case Reconfigure(file) => if t.carrier { StartTidy(t, c, file); }
  }

  lemma InitialTidy(s: State)
    requires Initial(s)
    ensures Inv(s) && Tidy(s)
  {
    hide Inv;
    InitialInv(s);
    TableIs(s.loop.timeouts);
    assert Table(s.loop.timeouts).Keys == {(StartInterface, IFACE)};
  }

  // ----- offers

  /** Every pending bind has its offer. */
  ghost predicate OfferWaits(s: State) {
    !s.crashed && (AwaitingBind(s) ==> s.slots.offer.Some?)
  }

  /** ... at every point of the run. */
  ghost predicate OffersWait(c: Config, s: State, inputs: seq<Input>)
    decreases |inputs|
  {
    OfferWaits(s) && (inputs != [] && Enabled4(s, inputs[0]) ==> OffersWait(c, Step(s, c, inputs[0]), inputs[1..]))
  }

  lemma TidyOffer(s: State)
    requires Inv(s) && Tidy(s)
    ensures OfferWaits(s)
  {
    hide LoopOk, Table, Ledger, Owned, LeaseSafe;
  }

  lemma {:induction false} OffersWaitIff(c: Config, s: State, inputs: seq<Input>)
    requires Inv(s) && Tidy(s)
    ensures OffersWait(c, s, inputs) <==> AllRestartable(c, s, inputs)
    decreases |inputs|
  {
    hide Inv, Step, Restartable, OfferWaits, Enabled4, Tidy;
    TidyOffer(s);
    if inputs != [] && Enabled4(s, inputs[0]) {
      var t := Step(s, c, inputs[0]);
      if Restartable(s, inputs[0]) {
        StepTidy(s, c, inputs[0]);
        OffersWaitIff(c, t, inputs[1..]);
      } else {
        UnluckyRestart(s, c, inputs[0]);
        assert !OfferWaits(t) by { NoOfferWaits(t); }
      }
    }
  }

  lemma NoOfferWaits(s: State)
    requires s.slots.offer == None && AwaitingBind(s)
    ensures !OfferWaits(s)
  {
  }

  /** From start-up, every pending bind keeps its offer throughout a run if and only if the run never
      starts the client over, with a bind pending, on a socket that does not open. */
  lemma BindHasOfferIff(c: Config, s0: State, inputs: seq<Input>)
    requires Initial(s0)
    ensures OffersWait(c, s0, inputs) <==> AllRestartable(c, s0, inputs)
  {
    hide Initial, OffersWait, AllRestartable, Inv, Tidy;
    InitialTidy(s0);
    OffersWaitIff(c, s0, inputs);
  }

  lemma {:induction false} RunTidy(c: Config, s: State, inputs: seq<Input>, t: State)
    requires Inv(s) && Tidy(s) && Run4(c, s, inputs, t) && AllRestartable(c, s, inputs)
    ensures Inv(t) && Tidy(t)
    decreases |inputs|
  {
    hide Inv, Step, Restartable, Enabled4, Tidy;
    if inputs != [] {
      StepTidy(s, c, inputs[0]);
      RunTidy(c, Step(s, c, inputs[0]), inputs[1..], t);
    }
  }

  /** Without such a start, dhcp_bind is never entered without an offer. */
  lemma BindHasOffer(c: Config, s0: State, inputs: seq<Input>, s: State)
    requires Initial(s0) && Run4(c, s0, inputs, s) && AllRestartable(c, s0, inputs)
    ensures !s.crashed
    ensures AwaitingBind(s) ==> s.slots.offer.Some?
  {
    hide Initial, Run4, AllRestartable, Inv, Tidy, AwaitingBind;
    InitialTidy(s0);
    RunTidy(c, s0, inputs, s);
    TidyOffer(s);
  }

  /** The excluded restart is not excluded for convenience: it frees the offer and leaves the timer
      that will bind it. */
  lemma UnluckyRestart(s: State, c: Config, i: Input)
    requires Inv(s) && Enabled4(s, i) && !Restartable(s, i)
    ensures var t := Step(s, c, i);
      t.slots.offer == None && AwaitingBind(t) && t.loop == s.loop && !t.crashed
  {
    hide LoopOk, Table, Ledger, Owned;
  }

  /** ... and that timer then reads through a null pointer. */
  lemma BindWithoutOfferCrashes(s: State, c: Config, i: Input)
    requires s.slots.offer == None && Enabled4(s, i) && i.event.TimerFires?
    requires s.loop.timeouts[0].callback == DhcpBind || s.loop.timeouts[0].callback == DhcpTimeout
    ensures Step(s, c, i).crashed
  {
    hide Discover;
  }
}
