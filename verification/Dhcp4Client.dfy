/**
 The DHCPv4 client as the program keeps it: one object per interface whose handlers update its
 fields and the shared event loop.  Every method is proved to do what the function of the same
 name in module Dhcp4 says, so the results about runs hold of this object.
 */
module Dhcp4Client {
  import opened Common
  import opened Eloop
  import opened EventLoopClass
  import opened Dhcp4

  class Client {
    const config: Config
    const loop: EventLoop
    var phase: Phase
    var slots: Slots
    var sockets: Sockets
    var counters: Counters
    var lease: Lease
    var carrier: bool
    var crashed: bool
    var world: World

    function View(): State
      reads this, loop
    {
      State(phase, slots, sockets, counters, lease, carrier, crashed, loop.State(), world)
    }

    constructor (config: Config, loop: EventLoop, lease: Lease, world: World)
      ensures this.config == config && this.loop == loop
      ensures View() == State(
        Init, Slots(None, None, None, None, 0, multiset{}), Sockets(false, false, false),
        Counters(0, 0, 0, 0, 0), lease, true, false, loop.State(), world)
    {
      this.config, this.loop, this.lease, this.world := config, loop, lease, world;
      phase, carrier, crashed := Init, true, false;
      slots := Slots(None, None, None, None, 0, multiset{});
      sockets := Sockets(false, false, false);
      counters := Counters(0, 0, 0, 0, 0);
    }

    method GetMonotonic()
      modifies this`world
      ensures View() == old(View()).(world := ReadClock(old(world)))
    {
      if world.clock != [] {
        var r := world.clock[0];
        world := world.(clock := world.clock[1..]);
        if world.now <= r < CLOCK_END {
          world := world.(now := r);
        }
      }
    }

    method TimeoutAdd(delay: nat, cb: Callback)
      modifies this`world, loop
      ensures View() == AddTimer(old(View()), delay, cb)
    {
      GetMonotonic();
      var _ := loop.AddTimeout(ELOOP_QUEUE, world.now, delay, cb, IFACE);
    }

    method TimeoutDelete(cb: Option<Callback>)
      modifies loop
      ensures View() == old(View()).(loop := Delete(old(View()).loop, ELOOP_QUEUE, cb, IFACE))
    {
      loop.DeleteTimeout(ELOOP_QUEUE, cb, IFACE);
    }

    method ChooseXid()
      modifies this`world, this`counters
      ensures View() == NewXid(old(View()))
    {
      if world.randoms == [] {
        counters := counters.(xid := 0);
      } else {
        counters := counters.(xid := world.randoms[0] % U32_LIMIT);
        world := world.(randoms := world.randoms[1..]);
      }
    }

    method CloseSockets()
      modifies this`sockets, this`counters
      ensures View() == Close(old(View()))
    {
      if sockets.arp { sockets := sockets.(arp := false); }
      if sockets.raw { sockets := sockets.(raw := false); }
      if sockets.udp { sockets := sockets.(udp := false); }
      counters := counters.(interval := 0);
    }

    method Answer() returns (r: OpenResult)
      modifies this`world
      ensures View() == old(View()).(world := NextOpen(old(world)).0) && r == NextOpen(old(world)).1
    {
      if world.opens == [] {
        r := Opened;
      } else {
        r, world := world.opens[0], world.(opens := world.opens[1..]);
      }
    }

    method OpenAll() returns (ok: bool)
      modifies this`sockets, this`world
      ensures (View(), ok) == Open(old(View()))
    {
      if !sockets.raw {
        var r := Answer();
        if r != Opened {
          return false;
        }
        sockets := sockets.(raw := true);
      }
      if !sockets.udp && slots.current.Some? {
        var r := Answer();
        if r == Opened {
          sockets := sockets.(udp := true);
        } else if r == Failed {
          return false;
        }
      }
      ok := true;
    }

    method SendMessage(again: Option<Callback>)
      modifies this, loop
      ensures View() == Send(old(View()), config, again)
      decreases |world.opens| + |world.sends|, 1
    {
      hide OpenSockets, Drop, Add, Discard;
      var random := 0;
      if again.Some? {
        if world.randoms != [] {
          random, world := world.randoms[0], world.(randoms := world.randoms[1..]);
        }
        counters := counters.(interval := NextInterval(counters.interval));
      }
      var delay := if again.Some? then RetryDelay(counters.interval, random) else 0;
      var ok := OpenAll();
      if !ok {
        DropLease();
        return;
      }
      var sent := Sent;
      if world.sends != [] {
        sent, world := world.sends[0], world.(sends := world.sends[1..]);
      }
      if sent == RawError {
        DropLease();
        CloseSockets();
        TimeoutDelete(None);
        return;
      }
      if sent == UdpError && sockets.udp {
        CloseSockets();
      }
      if again.Some? {
        TimeoutAdd(delay, again.value);
      }
    }

    method DropLease()
      modifies this, loop
      ensures View() == Drop(old(View()), config)
      decreases |world.opens| + |world.sends|, 2
    {
      hide Send, Discard;
      loop.DeleteTimeoutsExcept(ELOOP_QUEUE, IFACE, [DhcpExpire]);
      if config.release && carrier && slots.current.Some? {
        ChooseXid();
        SendMessage(None);
      }
      slots := Free(slots, slots.previous);
      slots := slots.(previous := slots.current);
      slots := slots.(current := None);
      slots := Free(slots, slots.previous);
      slots := slots.(previous := None);
      lease := lease.(addr := 0);
    }

    method DiscoverServers()
      modifies this, loop
      ensures View() == Discover(old(View()), config)
    {
      phase := Discovering;
      ChooseXid();
      TimeoutDelete(None);
      SendMessage(Some(SendDiscover));
    }

    method SendRequestFor()
      modifies this, loop
      ensures View() == RequestLease(old(View()), config)
    {
      phase := Requesting;
      SendMessage(Some(SendRequest));
    }

    method ExpireNow()
      modifies this, loop
      ensures View() == Expire(old(View()), config)
    {
      TimeoutDelete(None);
      DropLease();
      counters := counters.(interval := 0);
      DiscoverServers();
    }

    method StartRenewing()
      modifies this, loop
      ensures View() == RenewLease(old(View()), config)
    {
      phase := Renewing;
      ChooseXid();
      SendMessage(Some(SendRenew));
    }

    method StartRebinding()
      modifies this, loop
      ensures View() == RebindLease(old(View()), config)
    {
      phase := Rebinding;
      TimeoutDelete(Some(SendRenew));
      lease := lease.(server := 0);
      SendMessage(Some(SendRebind));
    }

    method OpenArpSocket() returns (ok: bool)
      modifies this`sockets, this`world
      ensures (View(), ok) == OpenArp(old(View()))
    {
      if !sockets.arp {
        var r := Answer();
        sockets := sockets.(arp := r == Opened);
        if r != Opened {
          return false;
        }
      }
      ok := true;
    }

    method AnnounceAddress()
      modifies this, loop
      ensures View() == Announce(old(View()))
    {
      if slots.current == None {
        return;
      }
      var ok := OpenArpSocket();
      if !ok {
        return;
      }
      counters := counters.(claims := counters.claims + 1);
      if counters.claims < ANNOUNCE_NUM {
        TimeoutAdd(ANNOUNCE_WAIT * SECOND, ArpAnnounce);
      } else {
        sockets := sockets.(arp := false);
      }
    }

    /** dhcp_bind's choice of the three times, branch by branch. */
    method SettleTimes()
      modifies this`lease
      ensures View() == old(View()).(lease := Clamp(old(lease)))
    {
      if lease.leaseTime == INFINITE {
        lease := lease.(renewalTime := INFINITE, rebindTime := INFINITE);
        return;
      }
      if lease.leaseTime < MIN_LEASE {
        lease := lease.(leaseTime := MIN_LEASE);
      }
      if lease.rebindTime == 0 {
        lease := lease.(rebindTime := lease.leaseTime * 7 / 8);
      } else if lease.rebindTime >= lease.leaseTime {
        lease := lease.(rebindTime := lease.leaseTime * 7 / 8);
      }
      if lease.renewalTime == 0 {
        lease := lease.(renewalTime := lease.leaseTime / 2);
      } else if lease.renewalTime > lease.rebindTime {
        lease := lease.(renewalTime := lease.leaseTime / 2);
      }
    }

    method BindOffer()
      modifies this, loop
      ensures View() == Bind(old(View()), config)
    {
      hide TakeLease, Announce;
      if slots.offer == None {
        crashed := true;
        return;
      }
      AdoptOffer();
      phase := Bound;
      if config.arp {
        counters := counters.(claims := 0);
        AnnounceAddress();
      }
    }

    method AdoptOffer()
      requires slots.offer.Some?
      modifies this, loop
      ensures View() == TakeLease(old(View()))
    {
      hide Add, Clamp, GetLease;
      CloseSockets();
      GetMonotonic();
      lease := lease.(boundTime := world.now);
      counters := counters.(xid := 0);
      slots := Free(slots, slots.previous);
      slots := slots.(previous := slots.current);
      slots := slots.(current := slots.offer);
      slots := slots.(offer := None);
      lease := GetLease(lease, slots.current.value.body);
      SettleTimes();
      if lease.leaseTime != INFINITE {
        TimeoutAdd(lease.renewalTime * SECOND, DhcpRenew);
        TimeoutAdd(lease.rebindTime * SECOND, DhcpRebind);
        TimeoutAdd(lease.leaseTime * SECOND, DhcpExpire);
        lease := lease.(timersSet := world.now);
      }
    }

    method BindLastLease()
      modifies this, loop
      ensures View() == BindThenDiscover(old(View()), config)
    {
      BindOffer();
      if crashed {
        return;
      }
      counters := counters.(interval := 0);
      DiscoverServers();
    }

    method ProbeAddress()
      modifies this, loop
      ensures View() == Probe(old(View()))
    {
      var ok := OpenArpSocket();
      if !ok {
        return;
      }
      counters := counters.(probes := counters.probes + 1);
      if counters.probes < PROBE_NUM {
        var random := 0;
        if world.randoms != [] {
          random, world := world.randoms[0], world.(randoms := world.randoms[1..]);
        }
        TimeoutAdd(SECOND + random % SECOND, ArpProbe);
      } else {
        TimeoutAdd(ANNOUNCE_WAIT * SECOND, DhcpBind);
      }
    }

    method RebootLease()
      modifies this, loop
      ensures View() == Reboot(old(View()), config)
    {
      counters := counters.(interval := 0);
      if !carrier {
        return;
      }
      if config.reboot == 0 || slots.offer == None {
        DiscoverServers();
        return;
      }
      phase := Rebooting;
      ChooseXid();
      lease := lease.(server := 0);
      TimeoutDelete(None);
      if config.lastLease && lease.fromInfo {
        TimeoutAdd(config.reboot * SECOND, DhcpTimeout);
      } else {
        TimeoutAdd(config.reboot * SECOND, DhcpExpire);
      }
      SendRequestFor();
    }

    method StartClient(file: LeaseFile)
      modifies this, loop
      ensures View() == Start(old(View()), config, file)
    {
      hide Discover, Reboot, OpenSockets, Add, Discard;
      phase := Init;
      counters := counters.(nakoff := 0);
      CloseSockets();
      slots := Free(slots, slots.offer);
      slots := slots.(offer := None);
      var ok := OpenAll();
      if !ok {
        return;
      }
      match file
      case NoFile =>
        DiscoverServers();
      case Saved(p, age) =>
        if Outdated(p, age) {
          slots := slots.(heap := slots.heap + 1, freed := slots.freed + multiset{slots.heap});
          lease := GetLease(lease, p).(fromInfo := true);
          lease := lease.(addr := 0);
          DiscoverServers();
        } else {
          slots := slots.(heap := slots.heap + 1, offer := Some(Message(slots.heap, p)));
          lease := GetLease(lease, p).(fromInfo := true);
          lease := Aged(lease, age);
          RebootLease();
        }
    }

    method StartIfCarrier(file: LeaseFile)
      modifies this, loop
      ensures View() == StartInterface4(old(View()), config, file)
    {
      if carrier {
        StartClient(file);
      }
    }

    method NakReceived()
      modifies this, loop
      ensures View() == HandleNak(old(View()), config)
    {
      DropLease();
      CloseSockets();
      TimeoutAdd(counters.nakoff * SECOND, DhcpDiscover);
      if counters.nakoff == 0 {
        counters := counters.(nakoff := 1);
      } else {
        counters := counters.(nakoff := counters.nakoff * 2);
        if counters.nakoff > NAKOFF_MAX {
          counters := counters.(nakoff := NAKOFF_MAX);
        }
      }
    }

    method TakeBuffer()
      modifies this`slots
      ensures View() == old(View()).(slots := AdoptBuffer(old(slots)))
    {
      if slots.buffer.Some? {
        slots := Free(slots, slots.offer);
        slots := slots.(offer := slots.buffer);
        slots := slots.(buffer := None);
      }
    }

    method AcceptMessage(configured: bool)
      modifies this, loop
      ensures View() == Accept(old(View()), config, configured)
    {
      hide Probe, Bind, AdoptBuffer, Discard;
      counters := counters.(nakoff := 0);
      TakeBuffer();
      lease := lease.(fromInfo := false);
      TimeoutDelete(None);
      CloseSockets();
      if config.arp && !configured && !InUse(slots) {
        counters := counters.(claims := 0, probes := 0);
        phase := Probing;
        ProbeAddress();
      } else {
        BindOffer();
      }
    }

    method HandleMessage(r: Received)
      requires r.Arrived?
      modifies this, loop
      ensures View() == Handle(old(View()), config, r)
    {
      hide HandleNak, Accept, Send, AdoptBuffer, Discard;
      var kind := r.p.kind;
      if !r.authentic {
        return;
      }
      counters := counters.(interval := 0);
      if kind == NAK {
        if r.complete {
          NakReceived();
        }
        return;
      }
      if !r.complete {
        return;
      }
      if (kind == BOOTP || kind == OFFER || kind == ACK) && !Usable(r.p.ciaddr) && !Usable(r.p.yiaddr) {
        return;
      }
      if (kind == BOOTP || kind == OFFER) && phase == Discovering {
        lease := lease.(fromInfo := false, addr := r.p.yiaddr);
        lease := lease.(server := if kind == BOOTP || r.p.server == None then 0 else r.p.server.value);
        TakeBuffer();
        TimeoutDelete(Some(SendDiscover));
        if kind == OFFER {
          SendRequestFor();
          return;
        }
      }
      if kind != BOOTP && kind != ACK {
        return;
      }
      AcceptMessage(r.configured);
    }

    /** dhcp_handlepacket over the frames waiting on the raw socket. */
    method ReceivePackets(frames: seq<Received>)
      modifies this, loop
      ensures View() == HandlePackets(old(View()), config, frames)
    {
      var rest := frames;
      while rest != []
        invariant HandlePackets(View(), config, rest) == HandlePackets(old(View()), config, frames)
        decreases |rest|
      {
        var r := rest[0];
        rest := rest[1..];
        if r.Stray? {
          slots := Fill(slots, EMPTY);
        } else if r.Arrived? {
          slots := Fill(slots, r.p);
          HandleMessage(r);
        }
        if crashed {
          return;
        }
        if r.Arrived? && !sockets.raw {
          break;
        }
      }
      slots := Free(slots, slots.buffer);
      slots := slots.(buffer := None);
    }

    method AddressConflict(file: LeaseFile)
      modifies this, loop
      ensures View() == Conflict4(old(View()), config, file)
    {
      if !lease.fromInfo {
        SendMessage(None);
      }
      CloseSockets();
      TimeoutDelete(None);
      if lease.fromInfo {
        StartIfCarrier(file);
      } else {
        TimeoutAdd(ARP_FAIL * SECOND, StartInterface);
      }
    }

    /** Runs the callback of a timeout that belongs to this interface. */
    method Dispatch(cb: Callback, file: LeaseFile)
      modifies this, loop
      ensures View() == Call(old(View()), config, cb, file)
    {
      match cb
      case SendDiscover => SendMessage(Some(SendDiscover));
      case SendRequest => SendMessage(Some(SendRequest));
      case SendRenew => SendMessage(Some(SendRenew));
      case SendRebind => SendMessage(Some(SendRebind));
      case DhcpDiscover => DiscoverServers();
      case DhcpRenew => StartRenewing();
      case DhcpRebind => StartRebinding();
      case DhcpExpire => ExpireNow();
      case DhcpBind => BindOffer();
      case DhcpTimeout => BindLastLease();
      case ArpProbe => ProbeAddress();
      case ArpAnnounce => AnnounceAddress();
      case StartInterface => StartIfCarrier(file);
      case Other(_) =>
    }

    /** One turn of the loop or one event, with the answers the world will give to it. */
    method HandleInput(i: Input)
      requires Enabled4(View(), i)
      requires i.event.TimerFires? ==> loop.timeout0 == None
      modifies this, loop
      ensures View() == Step(old(View()), config, i)
    {
      world := World(world.now, i.clock, i.opens, i.sends, i.randoms);
      GetMonotonic();
      match i.event
      case TimerFires(file) =>
        var turn := loop.Next(world.now);
        Dispatch(turn.callback, file);
        if loop.inFlight.Some? {
          loop.Finish();
        }
      case PacketsArrive(frames) =>
        ReceivePackets(frames);
      case CarrierLost =>
        carrier := false;
        CloseSockets();
        DropLease();
      case CarrierAcquired(file) =>
        carrier := true;
        StartIfCarrier(file);
      case AddressClaimed(file) =>
        AddressConflict(file);
      case AddressRemoved =>
        DropLease();
      case Reconfigure(file) =>
        StartIfCarrier(file);
    }
  }
}
