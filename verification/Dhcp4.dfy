/**
 The DHCPv4 client (dhcpcd/dhcp.c, with the ARP steps of dhcpcd/arp.c it schedules) as a state
 machine over the event loop's timer list: one interface, no static, inform, IPv4LL or test mode.

 A handler is a function from state to state.  What the outside world answers inside a handler
 (clock readings, whether sockets open, whether a packet leaves, random numbers) is read from
 tapes in the state; every step installs fresh tapes, so a run may see any answers at all.
 */
module Dhcp4 {
  import opened Common
  import opened Eloop

  const INFINITE: uint32 := 0xffff_ffff
  const SECOND := 1_000_000
  const ELOOP_QUEUE := 1
  const IFACE: nat := 0
  const MIN_LEASE := 20
  const NAKOFF_MAX := 60
  const PROBE_NUM := 3
  const ANNOUNCE_NUM := 2
  const ANNOUNCE_WAIT := 2
  const ARP_FAIL := 2

  // the monotonic clock stays in the first half of what time_t can hold
  const CLOCK_END := 4_611_686_018_427_387_904_000_000

  // message types; 0 stands for a BOOTP reply, which carries none
  const BOOTP := 0
  const OFFER := 2
  const ACK := 5
  const NAK := 6

  datatype Phase = Init | Discovering | Requesting | Bound | Renewing | Rebinding | Rebooting | Probing

  /** What the client reads out of a received message. */
  datatype Packet = Packet(
    kind: nat,
    yiaddr: uint32,
    ciaddr: uint32,
    leaseTime: Option<uint32>,
    renewalTime: Option<uint32>,
    rebindTime: Option<uint32>,
    server: Option<uint32>)

  /** One allocated dhcp_message; `id` is its identity on the heap. */
  datatype Message = Message(id: nat, body: Packet)

  datatype Lease = Lease(
    addr: uint32,
    leaseTime: uint32,
    renewalTime: uint32,
    rebindTime: uint32,
    server: uint32,
    fromInfo: bool,
    boundTime: int,   // clock reading when dhcp_bind began
    timersSet: int)   // clock reading with which dhcp_bind scheduled the expiry

  datatype Config = Config(arp: bool, release: bool, lastLease: bool, reboot: uint32)

  datatype OpenResult = Opened | Unavailable | Failed
  datatype SendResult = Sent | UdpError | NetworkDown | RawError

  /** The tapes: what the outside world will answer. */
  datatype World = World(
    now: int,                 // the last clock reading
    clock: seq<int>,
    opens: seq<OpenResult>,
    sends: seq<SendResult>,
    randoms: seq<nat>)

  /** Where the messages are. */
  datatype Slots = Slots(
    offer: Option<Message>,
    current: Option<Message>,   // state->new, the lease in force
    previous: Option<Message>,  // state->old
    buffer: Option<Message>,    // the message dhcp_handlepacket is filling
    heap: nat,                  // how many messages were ever allocated
    freed: multiset<nat>)

  datatype Sockets = Sockets(raw: bool, udp: bool, arp: bool)

  datatype Counters = Counters(xid: nat, interval: nat, nakoff: nat, probes: nat, claims: nat)

  datatype State = State(
    phase: Phase,
    slots: Slots,
    sockets: Sockets,
    counters: Counters,
    lease: Lease,
    carrier: bool,
    crashed: bool,            // dhcp_bind was entered without an offer
    loop: Loop,
    world: World)

  // ----- the tapes

  /** get_monotonic: any value not before the previous one. */
  function ReadClock(w: World): World {
    if w.clock == [] then w
    else
      var r := w.clock[0];
      w.(clock := w.clock[1..], now := if w.now <= r < CLOCK_END then r else w.now)
  }

  function Random(w: World): (World, nat) {
    if w.randoms == [] then (w, 0) else (w.(randoms := w.randoms[1..]), w.randoms[0])
  }

  function NextOpen(w: World): (World, OpenResult) {
    if w.opens == [] then (w, Opened) else (w.(opens := w.opens[1..]), w.opens[0])
  }

  function NextSend(w: World): (World, SendResult) {
    if w.sends == [] then (w, Sent) else (w.(sends := w.sends[1..]), w.sends[0])
  }

  /** dhcp_xid */
  function NewXid(s: State): State {
    var (w, r) := Random(s.world);
    s.(world := w, counters := s.counters.(xid := r % U32_LIMIT))
  }

  function SetInterval(s: State, interval: nat): State {
    s.(counters := s.counters.(interval := interval))
  }

  // ----- timers and messages

  function AddTimer(s: State, delay: nat, cb: Callback): State {
    var w := ReadClock(s.world);
    s.(world := w, loop := Add(s.loop, ELOOP_QUEUE, w.now, delay, cb, IFACE).0)
  }

  function ClearTimers(s: State): State {
    s.(loop := Delete(s.loop, ELOOP_QUEUE, None, IFACE))
  }

  function StopTimer(s: State, cb: Callback): State {
    s.(loop := Delete(s.loop, ELOOP_QUEUE, Some(cb), IFACE))
  }

  function Free(m: Slots, which: Option<Message>): Slots {
    if which.Some? then m.(freed := m.freed + multiset{which.value.id}) else m
  }

  // ----- sockets

  /** dhcp_close */
  function Close(s: State): State {
    SetInterval(s.(sockets := Sockets(false, false, false)), 0)
  }

  /** dhcp_open on the sockets alone; `leased` says whether a lease is in force. */
  function OpenSockets(k: Sockets, w: World, leased: bool): (r: (Sockets, World, bool))
    ensures |r.1.opens| <= |w.opens| && r.1.sends == w.sends && r.1.now == w.now
    ensures !r.2 ==> |r.1.opens| < |w.opens|
  {
    var (w1, raw) := if k.raw then (w, Opened) else NextOpen(w);
    if raw != Opened then (k, w1, false)
    else
      var k1 := k.(raw := true);
      if k1.udp || !leased then (k1, w1, true)
      else
        var (w2, udp) := NextOpen(w1);
        match udp
        case Opened => (k1.(udp := true), w2, true)
        case Unavailable => (k1, w2, true)
        case Failed => (k1, w2, false)
  }

  /** dhcp_open; the flag is false when it returns -1. */
  function Open(s: State): (State, bool) {
    var (k, w, ok) := OpenSockets(s.sockets, s.world, s.slots.current.Some?);
    (s.(sockets := k, world := w), ok)
  }

  /** The socket for ARP, opened on demand by arp_probe and arp_announce. */
  function OpenArp(s: State): (State, bool) {
    if s.sockets.arp then (s, true)
    else
      var (w, r) := NextOpen(s.world);
      (s.(world := w, sockets := s.sockets.(arp := r == Opened)), r == Opened)
  }

  // ----- sending

  function NextInterval(interval: nat): (r: nat)
    ensures 1 < r
  {
    if interval == 0 then 4 else if 2 * interval > 64 then 64 else 2 * interval
  }

  /** Delay before the next transmission in microseconds: interval - 1 s plus up to 2 s. */
  function RetryDelay(interval: nat, random: nat): nat
    requires 0 < interval
  {
    (interval - 1) * SECOND + random % (2 * SECOND)
  }

  /** send_message; `again` is the callback that retransmits. */
  function Send(s: State, c: Config, again: Option<Callback>): State
    decreases |s.world.opens| + |s.world.sends|, 1
  {
    var (w, r) := Random(s.world);
    var s1 := if again == None then s else SetInterval(s, NextInterval(s.counters.interval)).(world := w);
    var (s2, ok) := Open(s1);
    if !ok then Drop(s2, c)
    else
      var (w3, sent) := NextSend(s2.world);
      var s3 := s2.(world := w3);
      if sent == RawError then ClearTimers(Close(Drop(s3, c)))
      else
        var s4 := if sent == UdpError && s3.sockets.udp then Close(s3) else s3;
        if again == None then s4
        else AddTimer(s4, RetryDelay(s1.counters.interval, r), again.value)
  }

  /** The slots after dhcp_drop: the old lease is freed, then the one in force. */
  function Release(m: Slots): Slots {
    var m1 := Free(m, m.previous).(previous := m.current, current := None);
    Free(m1, m1.previous).(previous := None)
  }

  /** dhcp_drop */
  function Drop(s: State, c: Config): State
    decreases |s.world.opens| + |s.world.sends|, 2
  {
    var s1 := s.(loop := DeleteExcept(s.loop, ELOOP_QUEUE, IFACE, [DhcpExpire]));
    var s2 := if c.release && s.carrier && s.slots.current.Some? then Send(NewXid(s1), c, None) else s1;
    s2.(slots := Release(s2.slots), lease := s2.lease.(addr := 0))
  }

  // ----- leases

  /** get_lease, except for the netmask and broadcast address. */
  function GetLease(l: Lease, p: Packet): Lease {
    l.(
      addr := Address(p),
      leaseTime := if p.leaseTime.Some? then p.leaseTime.value else INFINITE,
      renewalTime := if p.renewalTime.Some? then p.renewalTime.value else 0,
      rebindTime := if p.rebindTime.Some? then p.rebindTime.value else 0,
      server := if p.server.Some? then p.server.value else 0)
  }

  /** The lease, renewal and rebind times dhcp_bind settles on (T1 is 0.5 and T2 0.875). */
  function Clamp(l: Lease): Lease {
    if l.leaseTime == INFINITE then l.(renewalTime := INFINITE, rebindTime := INFINITE)
    else
      var lease := if l.leaseTime < MIN_LEASE then MIN_LEASE else l.leaseTime;
      var rebind := if l.rebindTime == 0 || l.rebindTime >= lease then lease * 7 / 8 else l.rebindTime;
      var renewal := if l.renewalTime == 0 || l.renewalTime > rebind then lease / 2 else l.renewalTime;
      l.(leaseTime := lease, rebindTime := rebind, renewalTime := renewal)
  }

  // ----- the handlers

  /** dhcp_discover */
  function Discover(s: State, c: Config): State {
    Send(ClearTimers(NewXid(s.(phase := Discovering))), c, Some(SendDiscover))
  }

  /** dhcp_request */
  function RequestLease(s: State, c: Config): State {
    Send(s.(phase := Requesting), c, Some(SendRequest))
  }

  /** dhcp_expire */
  function Expire(s: State, c: Config): State {
    Discover(SetInterval(Drop(ClearTimers(s), c), 0), c)
  }

  /** dhcp_renew */
  function RenewLease(s: State, c: Config): State {
    Send(NewXid(s.(phase := Renewing)), c, Some(SendRenew))
  }

  /** dhcp_rebind */
  function RebindLease(s: State, c: Config): State {
    var t := StopTimer(s.(phase := Rebinding, lease := s.lease.(server := 0)), SendRenew);
    Send(t, c, Some(SendRebind))
  }

  /** arp_announce for a lease that carries the DHCP cookie */
  function Announce(s: State): State {
    if s.slots.current == None then s
    else
      var (t, ok) := OpenArp(s);
      if !ok then t
      else
        var claims := t.counters.claims + 1;
        var u := t.(counters := t.counters.(claims := claims));
        if claims < ANNOUNCE_NUM then AddTimer(u, ANNOUNCE_WAIT * SECOND, ArpAnnounce)
        else u.(sockets := u.sockets.(arp := false))
  }

  /** The slots after dhcp_bind: the offer is the lease in force. */
  function Adopt(m: Slots): Slots {
    Free(m, m.previous).(previous := m.current, current := m.offer, offer := None)
  }

  /** The three timers of dhcp_bind, in the order they are added. */
  function ArmLease(s: State): State {
    var s1 := AddTimer(s, s.lease.renewalTime * SECOND, DhcpRenew);
    var s2 := AddTimer(s1, s.lease.rebindTime * SECOND, DhcpRebind);
    var s3 := AddTimer(s2, s.lease.leaseTime * SECOND, DhcpExpire);
    s3.(lease := s.lease.(timersSet := s3.world.now))
  }

  /** dhcp_bind up to and including its timers. */
  function TakeLease(s: State): State
    requires s.slots.offer.Some?
  {
    var w := ReadClock(s.world);
    var lease := Clamp(GetLease(s.lease.(boundTime := w.now), s.slots.offer.value.body));
    var s1 := Close(s).(world := w, slots := Adopt(s.slots), lease := lease);
    var s2 := s1.(counters := s1.counters.(xid := 0));
    if lease.leaseTime == INFINITE then s2 else ArmLease(s2)
  }

  /** dhcp_bind; without an offer it would read through a null pointer. */
  function Bind(s: State, c: Config): State {
    if s.slots.offer == None then s.(crashed := true)
    else
      var t := TakeLease(s).(phase := Bound);
      if c.arp then Announce(t.(counters := t.counters.(claims := 0))) else t
  }

  /** dhcp_timeout */
  function BindThenDiscover(s: State, c: Config): State {
    var t := Bind(s, c);
    if t.crashed then t else Discover(SetInterval(t, 0), c)
  }

  /** arp_probe with no arping list: three probes, then bind. */
  function Probe(s: State): State {
    var (t, ok) := OpenArp(s);
    if !ok then t
    else
      var probes := t.counters.probes + 1;
      var u := t.(counters := t.counters.(probes := probes));
      if probes < PROBE_NUM then
        var (w, r) := Random(u.world);
        AddTimer(u.(world := w), SECOND + r % SECOND, ArpProbe)
      else AddTimer(u, ANNOUNCE_WAIT * SECOND, DhcpBind)
  }

  // ----- starting

  /** What read_lease finds: nothing, or a lease whose file is `age` seconds old. */
  datatype LeaseFile = NoFile | Saved(p: Packet, age: int)

  /** A saved lease older than its time is discarded. */
  predicate Outdated(p: Packet, age: int) {
    p.leaseTime.Some? && p.leaseTime.value != INFINITE && p.leaseTime.value < age
  }

  /** dhcp_reboot */
  function Reboot(s: State, c: Config): State {
    var s1 := SetInterval(s, 0);
    if !s1.carrier then s1
    else if c.reboot == 0 || s1.slots.offer == None then Discover(s1, c)
    else
      var s2 := ClearTimers(NewXid(s1.(phase := Rebooting, lease := s1.lease.(server := 0))));
      var giveUp := if c.lastLease && s2.lease.fromInfo then DhcpTimeout else DhcpExpire;
      RequestLease(AddTimer(s2, c.reboot * SECOND, giveUp), c)
  }

  /** A lease read from a file `age` seconds old: its times are counted from the file's. */
  function Aged(l: Lease, age: int): Lease {
    if l.leaseTime == INFINITE then l
    else l.(
      leaseTime := (l.leaseTime - age) % U32_LIMIT,
      renewalTime := (l.renewalTime - age) % U32_LIMIT,
      rebindTime := (l.rebindTime - age) % U32_LIMIT)
  }

  /** dhcp_start */
  function Start(s: State, c: Config, file: LeaseFile): State {
    var s1 := Close(s.(phase := Init, counters := s.counters.(nakoff := 0)));
    var s2 := s1.(slots := Free(s1.slots, s1.slots.offer).(offer := None));
    var (s3, ok) := Open(s2);
    if !ok then s3
    else
      var m := s3.slots;
      match file
      case NoFile => Discover(s3, c)
      case Saved(p, age) =>
        if Outdated(p, age) then
          // read, found expired, and freed again
          var m1 := m.(heap := m.heap + 1, freed := m.freed + multiset{m.heap});
          Discover(s3.(slots := m1, lease := GetLease(s3.lease, p).(fromInfo := true, addr := 0)), c)
        else
          var m1 := m.(heap := m.heap + 1, offer := Some(Message(m.heap, p)));
          Reboot(s3.(slots := m1, lease := Aged(GetLease(s3.lease, p).(fromInfo := true), age)), c)
  }

  /** start_interface */
  function StartInterface4(s: State, c: Config, file: LeaseFile): State {
    if s.carrier then Start(s, c, file) else s
  }

  // ----- packets

  /** How a received frame fares before and inside dhcp_handledhcp. */
  datatype Received =
    | Garbage                 // rejected before a buffer exists
    | Stray                   // copied, then rejected for cookie, transaction or hardware address
    | Arrived(
        p: Packet,
        authentic: bool,      // passes dhcp_auth_validate, or needs no authentication
        complete: bool,       // carries every option the configuration requires
        configured: bool)     // its address is on the interface already

  predicate Usable(a: uint32) {
    a != 0 && a != INFINITE
  }

  function NextNakoff(nakoff: nat): nat {
    if nakoff == 0 then 1 else if 2 * nakoff > NAKOFF_MAX then NAKOFF_MAX else 2 * nakoff
  }

  /** The NAK branch of dhcp_handledhcp */
  function HandleNak(s: State, c: Config): State {
    var t := Close(Drop(s, c));
    var u := AddTimer(t, t.counters.nakoff * SECOND, DhcpDiscover);
    u.(counters := u.counters.(nakoff := NextNakoff(t.counters.nakoff)))
  }

  /** The buffer becomes the offer; what was offered before is freed. */
  function AdoptBuffer(m: Slots): Slots {
    if m.buffer == None then m
    else Free(m, m.offer).(offer := m.buffer, buffer := None)
  }

  /** The address a message grants. */
  function Address(p: Packet): uint32 {
    if p.yiaddr != 0 then p.yiaddr else p.ciaddr
  }

  /** The address offered is the one in use, which the lease in force put on the interface. */
  predicate InUse(m: Slots) {
    m.current.Some? && m.offer.Some? && Address(m.current.value.body) == m.offer.value.body.yiaddr
  }

  /** The tail of dhcp_handledhcp: a message to bind to, after duplicate detection if wanted. */
  function Accept(s: State, c: Config, configured: bool): State {
    var s1 := s.(
      counters := s.counters.(nakoff := 0),
      slots := AdoptBuffer(s.slots),
      lease := s.lease.(fromInfo := false));
    var s2 := Close(ClearTimers(s1));
    if c.arp && !configured && !InUse(s2.slots) then
      Probe(s2.(phase := Probing, counters := s2.counters.(claims := 0, probes := 0)))
    else Bind(s2, c)
  }

  /** The branch for an offer while discovering: it becomes ours, a DHCP one is requested. */
  function TakeOffer(s: State, c: Config, r: Received): State
    requires r.Arrived?
  {
    var p := r.p;
    var l := s.lease.(
      fromInfo := false,
      addr := p.yiaddr,
      server := if p.kind == BOOTP || p.server == None then 0 else p.server.value);
    var t := StopTimer(s.(lease := l, slots := AdoptBuffer(s.slots)), SendDiscover);
    if p.kind == BOOTP then Accept(t, c, r.configured) else RequestLease(t, c)
  }

  /** dhcp_handledhcp on the message in the buffer */
  function Handle(s: State, c: Config, r: Received): State
    requires r.Arrived?
  {
    var kind := r.p.kind;
    if !r.authentic then s
    else
      var s1 := SetInterval(s, 0);
      if kind == NAK then (if r.complete then HandleNak(s1, c) else s1)
      else if !r.complete then s1
      else if (kind == BOOTP || kind == OFFER || kind == ACK) && !Usable(r.p.ciaddr) && !Usable(r.p.yiaddr) then s1
      else if (kind == BOOTP || kind == OFFER) && s1.phase == Discovering then TakeOffer(s1, c, r)
      else if kind == BOOTP || kind == ACK then Accept(s1, c, r.configured)
      else s1
  }

  // a zeroed message
  const EMPTY := Packet(0, 0, 0, None, None, None, None)

  /** dhcp_handlepacket allocates a zeroed message unless it still has one, and fills it. */
  function Fill(m: Slots, p: Packet): Slots {
    if m.buffer.Some? then m.(buffer := Some(Message(m.buffer.value.id, p)))
    else m.(buffer := Some(Message(m.heap, p)), heap := m.heap + 1)
  }

  /** One pass of the loop in dhcp_handlepacket. */
  function TakeFrame(s: State, c: Config, r: Received): State {
    match r
    case Garbage => s
    case Stray => s.(slots := Fill(s.slots, EMPTY))
    case Arrived(p, _, _, _) => Handle(s.(slots := Fill(s.slots, p)), c, r)
  }

  /** dhcp_handlepacket: frames until the socket runs dry or is closed; the buffer is freed. */
  function HandlePackets(s: State, c: Config, rs: seq<Received>): State
    decreases |rs|
  {
    if rs == [] then s.(slots := Free(s.slots, s.slots.buffer).(buffer := None))
    else
      var t := TakeFrame(s, c, rs[0]);
      if t.crashed then t
      else HandlePackets(t, c, if rs[0].Arrived? && !t.sockets.raw then [] else rs[1..])
  }

  /** arp_failure for a DHCP address */
  function Conflict4(s: State, c: Config, file: LeaseFile): State {
    var s1 := if s.lease.fromInfo then s else Send(s, c, None);
    var s2 := ClearTimers(Close(s1));
    if s2.lease.fromInfo then StartInterface4(s2, c, file)
    else AddTimer(s2, ARP_FAIL * SECOND, StartInterface)
  }

  // ----- steps

  function Call(s: State, c: Config, cb: Callback, file: LeaseFile): State {
    match cb
    case SendDiscover => Send(s, c, Some(SendDiscover))
    case SendRequest => Send(s, c, Some(SendRequest))
    case SendRenew => Send(s, c, Some(SendRenew))
    case SendRebind => Send(s, c, Some(SendRebind))
    case DhcpDiscover => Discover(s, c)
    case DhcpRenew => RenewLease(s, c)
    case DhcpRebind => RebindLease(s, c)
    case DhcpExpire => Expire(s, c)
    case DhcpBind => Bind(s, c)
    case DhcpTimeout => BindThenDiscover(s, c)
    case ArpProbe => Probe(s)
    case ArpAnnounce => Announce(s)
    case StartInterface => StartInterface4(s, c, file)
    case Other(_) => s
  }

  datatype Event =
    | TimerFires(file: LeaseFile)
    | PacketsArrive(frames: seq<Received>)
    | CarrierLost
    | CarrierAcquired(file: LeaseFile)
    | AddressClaimed(file: LeaseFile)   // another host answers for the offered address
    | AddressRemoved                    // the kernel dropped the leased address
    | Reconfigure(file: LeaseFile)      // the user asked for a restart

  /** One thing happening, and every answer the outside world gives while it is handled. */
  datatype Input = Input(
    event: Event,
    clock: seq<int>,
    opens: seq<OpenResult>,
    sends: seq<SendResult>,
    randoms: seq<nat>)

  function Load(s: State, i: Input): State {
    s.(world := ReadClock(World(s.world.now, i.clock, i.opens, i.sends, i.randoms)))
  }

  /** Timeouts are served before events, frames need an open socket. */
  predicate Enabled4(s: State, i: Input) {
    var due := CanFire(s.loop, Load(s, i).world.now);
    && !s.crashed
    && match i.event
       case TimerFires(_) => due
       case PacketsArrive(_) => !due && s.sockets.raw
       case CarrierLost => !due && s.carrier
       case CarrierAcquired(_) => !due && !s.carrier
       case AddressClaimed(_) => !due && s.sockets.arp && s.slots.offer.Some?
       case AddressRemoved => !due && s.slots.current.Some?
       case Reconfigure(_) => true
  }

  function Fire(s: State, c: Config, file: LeaseFile): State
    requires s.loop.timeouts != []
  {
    var cb := s.loop.timeouts[0].callback;
    var t := Call(s.(loop := BeginFire(s.loop)), c, cb, file);
    t.(loop := EndFire(t.loop))
  }

  function Step(s: State, c: Config, i: Input): State
    requires Enabled4(s, i)
  {
    var t := Load(s, i);
    match i.event
    case TimerFires(file) => Fire(t, c, file)
    case PacketsArrive(frames) => HandlePackets(t, c, frames)
    case CarrierLost => Drop(Close(t.(carrier := false)), c)
    case CarrierAcquired(file) => StartInterface4(t.(carrier := true), c, file)
    case AddressClaimed(file) => Conflict4(t, c, file)
    case AddressRemoved => Drop(t, c)
    case Reconfigure(file) => StartInterface4(t, c, file)
  }

  /** The daemon starts with start_interface scheduled at once. */
  ghost predicate Initial(s: State) {
    && s.phase == Init
    && s.slots == Slots(None, None, None, None, 0, multiset{})
    && s.sockets == Sockets(false, false, false)
    && s.counters == Counters(0, 0, 0, 0, 0)
    && s.loop == Loop([Timeout(0, s.world.now, StartInterface, IFACE, ELOOP_QUEUE)], [], None, 1)
    && !s.crashed
    && s.world.now < CLOCK_END
  }

  ghost predicate Run4(c: Config, s: State, inputs: seq<Input>, s': State)
    decreases |inputs|
  {
    if inputs == [] then s == s'
    else Enabled4(s, inputs[0]) && Run4(c, Step(s, c, inputs[0]), inputs[1..], s')
  }
}
