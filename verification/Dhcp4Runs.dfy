/**
 Runs of the DHCPv4 client that break the promises one would expect, from start-up to the failure:
 the exact conditions of Dhcp4Theorems are met by real runs.
 */
module Dhcp4Runs {
  import opened Common
  import opened Eloop
  import opened Dhcp4
  import opened Dhcp4Timers
  import opened Dhcp4Effects
  import opened Dhcp4Safety
  import opened Dhcp4Chains
  import opened Dhcp4Offers
  import opened Dhcp4Theorems
  import opened Dhcp4Example

  // ----- building runs

  lemma {:induction false} RunSnoc(c: Config, s: State, inputs: seq<Input>, t: State, i: Input)
    requires Run4(c, s, inputs, t) && Enabled4(t, i)
    ensures Run4(c, s, inputs + [i], Step(t, c, i))
    decreases |inputs|
  {
    hide Step, Enabled4;
    if inputs == [] {
      assert inputs + [i] == [i];
      assert [i][1..] == [];
    } else {
      assert (inputs + [i])[1..] == inputs[1..] + [i];
      RunSnoc(c, Step(s, c, inputs[0]), inputs[1..], t, i);
    }
  }

  /** A reached state and an enabled input reach the next; only a failed start leaves a crash to come. */
  lemma Reaches(c: Config, s0: State, inputs: seq<Input>, s: State, i: Input)
    requires Reached(c, s0, inputs, s) && Enabled4(s, i) && (s.phase != Init || !Step(s, c, i).crashed)
    ensures Reached(c, s0, inputs + [i], Step(s, c, i)) && Inv(Step(s, c, i))
  {
    hide Run4, Initial, Step, Enabled4, Inv;
    ReachedInv(c, s0, inputs, s);
    StepInv(s, c, i);
    assert !Step(s, c, i).crashed by { InvGoesOn(Step(s, c, i)); }
    RunSnoc(c, s0, inputs, s, i);
    ReachedInv(c, s0, inputs + [i], Step(s, c, i));
  }

  lemma InvGoesOn(s: State)
    ensures Inv(s) ==> !s.crashed
  {
  }

  lemma Boots(c: Config)
    ensures Reached(c, BOOT, [], BOOT)
  {
  }

  /** The earliest pending timer is the next to fire. */
  lemma HeadIs(s: State, cb: Callback)
    requires Inv(s) && Armed(s, cb)
    requires forall k :: k in Pend(s) && k != (cb, IFACE) ==> Pend(s)[(cb, IFACE)].0 < Pend(s)[k].0
    ensures s.loop.timeouts != [] && s.loop.timeouts[0].callback == cb && s.loop.timeouts[0].when == Pend(s)[(cb, IFACE)].0
  {
    hide LoopOk, Table, Ledger, Owned, LeaseSafe, OfferReady;
    ArmedNonempty(s, cb);
    HeadIsFirst(s.loop, (cb, IFACE));
    Pops(s.loop);
  }

  /** Nothing fires before the earliest time pending. */
  lemma NotDue(s: State, now: int)
    requires Inv(s) && forall k :: k in Pend(s) ==> now <= Pend(s)[k].0
    ensures !CanFire(s.loop, now)
  {
    hide LoopOk, Table, Ledger, Owned, LeaseSafe, OfferReady;
    if s.loop.timeouts != [] {
      Pops(s.loop);
      assert (s.loop.timeouts[0].callback, IFACE) in Pend(s);
    }
  }

  /** The clock shows this time and the first timer is served. */
  function Fires(now: int): Input {
    Input(TimerFires(NoFile), [now], [], [], [])
  }

  /** This message arrives; the socket for announcing an address, if one is wanted, does not open. */
  function Grants(p: Packet, configured: bool): Input {
    Input(PacketsArrive([Arrived(p, true, true, configured)]), [], if configured then [Failed] else [], [], [])
  }

  predicate GoodAck(p: Packet) {
    p.kind == ACK && (Usable(p.yiaddr) || Usable(p.ciaddr))
  }

  // ----- binding at once

  /** The state dhcp_bind starts from when the message is acknowledged during discovery. */
  function Answered(p: Packet, opens: seq<OpenResult>): State {
    ASKING.(
      slots := EMPTY_SLOTS.(offer := Some(Message(0, p)), heap := 1),
      sockets := Sockets(false, false, false),
      counters := Counters(0, 0, 0, 0, 0),
      loop := Loop([], [0, 1], None, 2),
      world := World(1, [], opens, [], []))
  }

  lemma ClearsAsking()
    ensures Delete(ASKING.loop, ELOOP_QUEUE, None, IFACE) == Loop([], [0, 1], None, 2)
  {
    var t, keep := ASKING.loop.timeouts[0], KeepUnless(ELOOP_QUEUE, None, IFACE);
    assert [t][1..] == [] && !keep(t);
    assert Kept([t], keep) == Kept([], keep) == [];
    assert Dropped([t], keep) == [t.node] + Dropped([], keep) == [1];
    assert [0] + [1] == [0, 1];
  }

  lemma AcceptsAnswer(c: Config, p: Packet, configured: bool)
    requires GoodAck(p) && (c.arp ==> configured)
    ensures var i := Grants(p, configured);
      && Enabled4(ASKING, i)
      && TakeFrame(Load(ASKING, i), c, Arrived(p, true, true, configured)) == Bind(Answered(p, i.opens), c)
  {
    hide Delete, Add, Bind;
    ClearsAsking();
    var i := Grants(p, configured);
    var s := Load(ASKING, i);
    assert s == ASKING.(world := World(1, [], i.opens, [], []));
    var m := EMPTY_SLOTS.(buffer := Some(Message(0, p)), heap := 1);
    var t := SetInterval(s.(slots := m), 0);
    assert TakeFrame(s, c, Arrived(p, true, true, configured)) == Accept(t, c, configured);
    assert AdoptBuffer(m) == EMPTY_SLOTS.(offer := Some(Message(0, p)), heap := 1);
  }

  /** Without a clock reading, binding happens in no time. */
  lemma TakesNoTime(s: State)
    requires s.slots.offer.Some? && s.world.clock == []
    ensures TakeLease(s).world == s.world
    ensures TakeLease(s).lease.boundTime == s.world.now
    ensures TakeLease(s).lease.leaseTime != INFINITE ==> TakeLease(s).lease.timersSet == s.world.now
  {
    hide Add, Adopt;
  }

  lemma NoneAnswered(p: Packet, opens: seq<OpenResult>)
    ensures Base(Answered(p, opens)) && Pend(Answered(p, opens)) == map[]
  {
    var s := Answered(p, opens);
    assert NodesOf(s.loop.timeouts) == [];
    assert Whereabouts(s.loop) == multiset{0, 1} == AllNodes(2);
    assert Ledger(s.slots) == multiset{0} == AllNodes(1);
  }

  /** The step that binds the answer: three timers at their exact times, and nothing else pending. */
  ghost predicate BoundTo(p: Packet, s: State) {
    && s.phase == Bound && s.slots.current == Some(Message(0, p)) && s.world.now == 1
    && s.lease.boundTime == 1 && s.lease.timersSet == 1 && s.lease.leaseTime != INFINITE
    && Pend(s).Keys == {(DhcpRenew, IFACE), (DhcpRebind, IFACE), (DhcpExpire, IFACE)}
  }

  lemma BindsAnswer(c: Config, p: Packet, configured: bool)
    requires GoodAck(p) && (c.arp ==> configured) && Clamp(GetLease(NO_LEASE, p)).leaseTime != INFINITE
    ensures var i := Grants(p, configured); Enabled4(ASKING, i) && BoundTo(p, Step(ASKING, c, i))
  {
    hide LoopOk, Table, Ledger, Owned, TakeLease, TakeFrame, Enabled4;
    var i := Grants(p, configured);
    var u := Answered(p, i.opens);
    AcceptsAnswer(c, p, configured);
    NoneAnswered(p, i.opens);
    TakeLeaseEffect(u);
    TakesNoTime(u);
    AnnouncesNothing(c, p, configured);
    LeaseTaken(p, i.opens);
    assert Step(ASKING, c, i) == HandlePackets(Load(ASKING, i), c, i.event.frames);
    OneFrameOf(Load(ASKING, i), c, Arrived(p, true, true, configured));
  }

  lemma LeaseTaken(p: Packet, opens: seq<OpenResult>)
    ensures TakeLease(Answered(p, opens)).lease.leaseTime == Clamp(GetLease(NO_LEASE, p)).leaseTime
    ensures TakeLease(Answered(p, opens)).slots.buffer == None
  {
    hide Add;
  }

  lemma AnnouncesNothing(c: Config, p: Packet, configured: bool)
    requires c.arp ==> configured
    ensures var u := Answered(p, Grants(p, configured).opens); var b := Bind(u, c); var t := TakeLease(u);
      && b.phase == Bound && b.slots == t.slots && b.lease == t.lease && b.loop == t.loop && b.crashed == t.crashed
      && b.world.now == t.world.now
  {
    hide Add, Clamp;
    var u := Answered(p, Grants(p, configured).opens);
    TakesNoTime(u);
  }

  lemma OneFrameOf(s: State, c: Config, r: Received)
    requires !TakeFrame(s, c, r).crashed
    ensures var t := TakeFrame(s, c, r);
      HandlePackets(s, c, [r]) == t.(slots := Free(t.slots, t.slots.buffer).(buffer := None))
  {
    hide TakeFrame;
    assert [r][1..] == [];
    assert HandlePackets(s, c, [r]) == HandlePackets(TakeFrame(s, c, r), c, []);
  }

  // ----- two retransmission chains

  /** No clock reading: the time of the last step still holds. */
  const FIRES_AGAIN := Input(TimerFires(NoFile), [], [], [], [])

  lemma LoadFires(s: State, now: int)
    requires s.world.now <= now < CLOCK_END
    ensures Load(s, Fires(now)).world.now == now
  {
  }

  lemma LoadAgain(s: State)
    ensures Load(s, FIRES_AGAIN).world.now == s.world.now
  {
  }

  lemma CanFireNow(s: State, i: Input)
    requires Inv(s) && i.event.TimerFires? && s.loop.timeouts != [] && s.loop.timeouts[0].when < Load(s, i).world.now
    ensures Enabled4(s, i)
  {
    hide Load, LoopOk, LeaseSafe, OfferReady, Owned;
  }

  /** The only messages the inputs bring are this one. */
  predicate OnlyBrings(i: Input, p: Packet) {
    match i.event
    case PacketsArrive(frames) => forall k :: 0 <= k < |frames| && frames[k].Arrived? ==> frames[k].p == p
    case CarrierLost => true
    case AddressRemoved => true
    case _ => i.event.file.NoFile?
  }

  predicate GrantsOnly(inputs: seq<Input>, p: Packet) {
    forall k :: 0 <= k < |inputs| ==> OnlyBrings(inputs[k], p)
  }

  /** The client bound to this message, and what is known of its timers. */
  lemma BoundRun(c: Config, p: Packet, configured: bool) returns (inputs: seq<Input>, s: State)
    requires GoodAck(p) && (c.arp ==> configured) && Clamp(GetLease(NO_LEASE, p)).leaseTime != INFINITE
    ensures inputs == [STARTS, Grants(p, configured)]
    ensures Reached(c, BOOT, inputs, s) && Inv(s) && BoundTo(p, s) && Terms(s.lease, p)
    ensures Pend(s)[(DhcpRenew, IFACE)].0 == 1 + s.lease.renewalTime * SECOND
    ensures Pend(s)[(DhcpRebind, IFACE)].0 == 1 + s.lease.rebindTime * SECOND
    ensures Pend(s)[(DhcpExpire, IFACE)].0 == 1 + s.lease.leaseTime * SECOND
  {
    hide Reached, Step, Enabled4, Clamp, LoopOk, Table, Ledger, Owned;
    Boots(c);
    FirstStep(c);
    Reaches(c, BOOT, [], BOOT, STARTS);
    assert [] + [STARTS] == [STARTS];
    var i := Grants(p, configured);
    BindsAnswer(c, p, configured);
    Reaches(c, BOOT, [STARTS], ASKING, i);
    assert [STARTS] + [i] == [STARTS, i];
    inputs, s := [STARTS, i], Step(ASKING, c, i);
  }

  lemma UnorderedTerms(l: Lease, p: Packet)
    requires Terms(l, p) && !OrderedTimes(p)
    ensures Clamp(GetLease(NO_LEASE, p)).leaseTime != INFINITE
    ensures l.leaseTime != INFINITE && 0 < l.rebindTime < l.renewalTime < l.leaseTime
  {
  }

  lemma UnorderedIsFinite(p: Packet)
    requires !OrderedTimes(p)
    ensures Clamp(GetLease(NO_LEASE, p)).leaseTime != INFINITE
  {
  }

  /** Every acknowledgement of a usable address whose times are not in order can lead the client from
      start-up into two retransmission chains: it is bound, the rebind timer is served when both are
      due, and then the renewal timer. */
  lemma TwoChainsReached(p: Packet)
    requires GoodAck(p) && !OrderedTimes(p)
    ensures exists inputs, s :: Reached(CONFIG, BOOT, inputs, s) && GrantsOnly(inputs, p) && !OneSender(s)
  {
    hide Reached, Step, Enabled4, Clamp, LoopOk, Table, Ledger, Owned, Inv, OneSender, Terms, OrderedTimes, Load;
    UnorderedIsFinite(p);
    var inputs, b := BoundRun(CONFIG, p, false);
    UnorderedTerms(b.lease, p);
    var now := 2 + b.lease.renewalTime * SECOND;
    var i := Fires(now);
    LoadFires(b, now);
    HeadIs(b, DhcpRebind);
    CanFireNow(b, i);
    RebindBeforeRenew(b, CONFIG, i);
    var d := Step(b, CONFIG, i);
    Reaches(CONFIG, BOOT, inputs, b, i);
    HeadIs(d, DhcpRenew);
    LoadAgain(d);
    CanFireNow(d, FIRES_AGAIN);
    TwoChains(d, CONFIG, FIRES_AGAIN);
    Reaches(CONFIG, BOOT, inputs + [i], d, FIRES_AGAIN);
    assert GrantsOnly(inputs + [i] + [FIRES_AGAIN], p);
  }

  lemma OnlyOrdered(i: Input, p: Packet)
    requires OnlyBrings(i, p) && OrderedTimes(p)
    ensures OrderedInput(i)
  {
  }

  /** At most one retransmission is pending in every run that only ever brings this acknowledgement if
      and only if its times are in order. */
  lemma OneRetransmissionIff(p: Packet)
    requires GoodAck(p)
    ensures OrderedTimes(p) <==>
      forall c, s0, inputs, s :: Reached(c, s0, inputs, s) && GrantsOnly(inputs, p) ==> OneSender(s)
  {
    hide Reached, OneSender, OrderedTimes, OnlyBrings, OrderedInput;
    if OrderedTimes(p) {
      forall c, s0, inputs, s | Reached(c, s0, inputs, s) && GrantsOnly(inputs, p) ensures OneSender(s) {
        forall k | 0 <= k < |inputs| ensures OrderedInput(inputs[k]) {
          OnlyOrdered(inputs[k], p);
        }
        OneRetransmission(c, s0, inputs, s);
      }
    } else {
      TwoChainsReached(p);
    }
  }

  // ----- a saved lease

  /** dhcp_start with a saved lease: one second to confirm it, then the given callback. */
  function Confirms(arp: bool, lastLease: bool): Config {
    Config(arp, false, lastLease, 1)
  }

  function Restores(p: Packet, age: int): Input {
    Input(TimerFires(Saved(p, age)), [1], [], [], [])
  }

  function GiveUp(lastLease: bool): Callback {
    if lastLease then DhcpTimeout else DhcpExpire
  }

  function Restored(p: Packet, age: int): Lease {
    Aged(GetLease(NO_LEASE, p).(fromInfo := true), age).(server := 0)
  }

  /** The state after that: the request is out, and the saved lease waits as the offer. */
  function Confirming(p: Packet, age: int, lastLease: bool): State {
    State(
      Requesting, EMPTY_SLOTS.(offer := Some(Message(0, p)), heap := 1), Sockets(true, false, false),
      Counters(0, 4, 0, 0, 0), Restored(p, age), true, false,
      Loop([Timeout(1, 1 + SECOND, GiveUp(lastLease), IFACE, ELOOP_QUEUE),
            Timeout(2, 1 + 3 * SECOND, SendRequest, IFACE, ELOOP_QUEUE)], [0], None, 3),
      World(1, [], [], [], []))
  }

  lemma AddBehind(t: Timeout, delay: nat)
    requires t.callback != SendRequest && t.when <= 1 + delay < CLOCK_END
    ensures Add(Loop([t], [], Some(0), 2), ELOOP_QUEUE, 1, delay, SendRequest, IFACE).0 ==
      Loop([t, Timeout(2, 1 + delay, SendRequest, IFACE, ELOOP_QUEUE)], [], Some(0), 3)
  {
    var n := Timeout(2, 1 + delay, SendRequest, IFACE, ELOOP_QUEUE);
    assert [t][1..] == [];
    assert Place([], 1 + delay) == 0;
    assert Place([t], 1 + delay) == 1;
    assert Insert([t], n) == [t, n];
    assert Find([t], SendRequest, IFACE) == 1;
  }

  lemma RestoresStep(p: Packet, age: int, arp: bool, lastLease: bool)
    requires !Outdated(p, age)
    ensures Enabled4(BOOT, Restores(p, age))
    ensures Step(BOOT, Confirms(arp, lastLease), Restores(p, age)) == Confirming(p, age, lastLease)
  {
    hide Aged, GetLease, Reboot;
    var i, c := Restores(p, age), Confirms(arp, lastLease);
    var t := Load(BOOT, i);
    assert t == BOOT.(world := World(1, [], [], [], []));
    assert BeginFire(t.loop) == Loop([], [], Some(0), 1);
    var u := Read(p, age);
    assert StartInterface4(t.(loop := u.loop), c, Saved(p, age)) == Reboot(u, c);
    Reboots(p, age, arp, lastLease);
    assert EndFire(Loop(Confirming(p, age, lastLease).loop.timeouts, [], Some(0), 3)) == Confirming(p, age, lastLease).loop by {
      assert [] + [0] == [0];
    }
  }

  /** The state with the lease just read. */
  function Read(p: Packet, age: int): State {
    BOOT.(
      world := World(1, [], [], [], []), loop := Loop([], [], Some(0), 1), sockets := Sockets(true, false, false),
      lease := Aged(GetLease(NO_LEASE, p).(fromInfo := true), age),
      slots := EMPTY_SLOTS.(offer := Some(Message(0, p)), heap := 1))
  }

  lemma Reboots(p: Packet, age: int, arp: bool, lastLease: bool)
    ensures var s := Confirming(p, age, lastLease);
      Reboot(Read(p, age), Confirms(arp, lastLease)) == s.(loop := Loop(s.loop.timeouts, [], Some(0), 3))
  {
    hide Delete, Add, Aged, GetLease;
    var c, give := Confirms(arp, lastLease), GiveUp(lastLease);
    NothingToDelete(ELOOP_QUEUE, None, [], Some(0), 1);
    AddToEmpty(1, SECOND, give, 1);
    AddBehind(Timeout(1, 1 + SECOND, give, IFACE, ELOOP_QUEUE), 3 * SECOND);
    AgedKeeps(GetLease(NO_LEASE, p).(fromInfo := true), age);
    var v := Read(p, age).(phase := Rebooting, lease := Restored(p, age));
    assert ClearTimers(NewXid(v)) == v;
    var w := v.(loop := Loop([Timeout(1, 1 + SECOND, give, IFACE, ELOOP_QUEUE)], [], Some(0), 2));
    assert AddTimer(v, SECOND, give) == w;
    assert Reboot(Read(p, age), c) == RequestLease(w, c);
    assert RetryDelay(4, 0) == 3 * SECOND;
    var x := w.(phase := Requesting, counters := Counters(0, 4, 0, 0, 0));
    assert RequestLease(w, c) == AddTimer(x, 3 * SECOND, SendRequest);
  }

  lemma AgedKeeps(l: Lease, age: int)
    ensures Aged(l, age).fromInfo == l.fromInfo
  {
  }

  lemma ConfirmingReached(p: Packet, age: int, arp: bool, lastLease: bool)
    requires !Outdated(p, age)
    ensures var s := Confirming(p, age, lastLease);
      Reached(Confirms(arp, lastLease), BOOT, [Restores(p, age)], s) && Inv(s)
  {
    hide Reached, Step, Enabled4, Inv;
    var c, i := Confirms(arp, lastLease), Restores(p, age);
    Boots(c);
    RestoresStep(p, age, arp, lastLease);
    Reaches(c, BOOT, [], BOOT, i);
    assert [] + [i] == [i];
  }

  /** A saved lease of any age up to its own time that no server confirms is bound for its full time and
      left in force without an expiry. */
  lemma TimeoutReached(p: Packet, age: int)
    requires !Outdated(p, age)
    ensures exists s ::
      && Reached(Confirms(false, true), BOOT, [Restores(p, age), Fires(2 + SECOND)], s)
      && s.phase == Discovering && s.slots.current == Some(Message(0, p)) && s.lease.leaseTime == Granted(p)
      && !Armed(s, DhcpExpire)
  {
    hide Reached, Step, Enabled4, Inv, Armed, Load;
    var c, i, s := Confirms(false, true), Fires(2 + SECOND), Confirming(p, age, true);
    ConfirmingReached(p, age, false, true);
    LoadFires(s, 2 + SECOND);
    CanFireNow(s, i);
    TimeoutLosesExpiry(s, c, i);
    Reaches(c, BOOT, [Restores(p, age)], s, i);
    assert [Restores(p, age)] + [i] == [Restores(p, age), i];
  }

  // ----- binding without an offer

  /** The user asks for a restart, and the socket does not open. */
  const RESTART_FAILS := Input(Reconfigure(NoFile), [], [Failed], [], [])

  lemma RestartFails(p: Packet, age: int)
    ensures var s := Confirming(p, age, true); var t := Step(s, Confirms(false, true), RESTART_FAILS);
      && Enabled4(s, RESTART_FAILS)
      && t.slots.offer == None && t.loop == s.loop && !t.crashed && t.world.now == 1
  {
    hide Discover, Reboot, Restored;
  }

  /** A restart that fails while a saved lease waits to be bound ends in a crash. */
  lemma CrashReached(p: Packet, age: int)
    requires !Outdated(p, age)
    ensures exists inputs, s :: Run4(Confirms(false, true), BOOT, inputs, s) && s.crashed
  {
    hide Step, Enabled4, Run4;
    var c, s := Confirms(false, true), Confirming(p, age, true);
    ConfirmingReached(p, age, false, true);
    RestartFails(p, age);
    var t := Step(s, c, RESTART_FAILS);
    RunSnoc(c, BOOT, [Restores(p, age)], s, RESTART_FAILS);
    var i := Fires(2 + SECOND);
    assert Enabled4(t, i) by { FiresWithout(t, 2 + SECOND); }
    BindWithoutOfferCrashes(t, c, i);
    RunSnoc(c, BOOT, [Restores(p, age)] + [RESTART_FAILS], t, i);
  }

  lemma FiresWithout(s: State, now: int)
    requires !s.crashed && s.loop.timeouts != [] && s.loop.inFlight == None
    requires s.world.now <= now < CLOCK_END && s.loop.timeouts[0].when < now
    ensures Enabled4(s, Fires(now))
  {
  }

  // ----- probing while a lease is in force

  const ARPING := Config(true, false, false, 5)

  /** With sockets and packets going through and the clock standing still, sending takes no time and
      leaves the socket open. */
  lemma SendQuick(s: State, c: Config, cb: Callback)
    requires s.world.opens == [] && s.world.sends == [] && s.world.clock == []
    ensures var t := Send(s, c, Some(cb)); t.world.now == s.world.now && t.sockets.raw
  {
    hide Add, Drop;
  }

  /** The renewal timer fires: its own retransmission takes its place. */
  lemma RenewStep(s: State, c: Config, now: int)
    requires Inv(s) && Enabled4(s, Fires(now)) && s.world.now <= now < CLOCK_END && s.loop.timeouts[0].callback == DhcpRenew
    ensures var t := Step(s, c, Fires(now));
      && t.phase == Renewing && t.world.now == now && t.sockets.raw && t.slots == s.slots && t.lease == s.lease
      && (SendRenew, IFACE) in Pend(t) && now + SECOND <= Pend(t)[(SendRenew, IFACE)].0
      && Pend(t) == (Pend(s) - {(DhcpRenew, IFACE)})[(SendRenew, IFACE) := Pend(t)[(SendRenew, IFACE)]]
  {
    hide LoopOk, RenewFirst, Table, Ledger, Owned, Send, BeginFire, EndFire;
    var i := Fires(now);
    LoadInv(s, i);
    var t := Load(s, i);
    PopCore(t);
    var u := NewXid(t.(loop := BeginFire(t.loop), phase := Renewing));
    SendSucceeds(u, c, SendRenew);
    SendQuick(u, c, SendRenew);
    Ends(Send(u, c, Some(SendRenew)).loop);
  }

  lemma GrantEnabled(s: State, p: Packet)
    requires Inv(s) && s.sockets.raw && forall k :: k in Pend(s) ==> s.world.now <= Pend(s)[k].0
    ensures Enabled4(s, Grants(p, false))
    ensures Load(s, Grants(p, false)) == s.(world := World(s.world.now, [], [], [], []))
  {
    hide LoopOk, LeaseSafe, OfferReady, Owned;
    NotDue(s, s.world.now);
  }

  lemma AckedTerms(l: Lease)
    requires Terms(l, ACKED)
    ensures l.leaseTime == 3600 && l.renewalTime == 1800 && l.rebindTime == 3150
  {
  }

  /** A client whose lease is answered, when it renews, with any other usable address probes that while
      the old lease stays in force, and its expiry, pending until then, is gone. */
  lemma ProbingReached(a: uint32)
    requires Usable(a) && a != Address(ACKED)
    ensures exists inputs, i, s ::
      && Reached(ARPING, BOOT, inputs, s) && Enabled4(s, i) && Reached(ARPING, BOOT, inputs + [i], Step(s, ARPING, i))
      && Armed(s, DhcpExpire)
      && var t := Step(s, ARPING, i);
         t.phase == Probing && t.slots.current.Some? && t.lease.leaseTime == 3600 && !Armed(t, DhcpExpire)
  {
    hide Reached, Step, Enabled4, LoopOk, Table, Ledger, Owned, Inv, Terms, Load, TakeFrame, Clamp;
    AckedIsFinite();
    var inputs, b := BoundRun(ARPING, ACKED, true);
    AckedTerms(b.lease);
    var now := 2 + 1800 * SECOND;
    LoadFires(b, now);
    HeadIs(b, DhcpRenew);
    CanFireNow(b, Fires(now));
    RenewStep(b, ARPING, now);
    Reaches(ARPING, BOOT, inputs, b, Fires(now));
    var s, i := Step(b, ARPING, Fires(now)), Grants(ACKED.(yiaddr := a), false);
    GrantEnabled(s, ACKED.(yiaddr := a));
    Reaches(ARPING, BOOT, inputs + [Fires(now)], s, i);
    ProbingStep(s, a);
    assert Reached(ARPING, BOOT, inputs + [Fires(now)], s);
  }

  lemma AckedIsFinite()
    ensures GoodAck(ACKED) && Clamp(GetLease(NO_LEASE, ACKED)).leaseTime != INFINITE
  {
  }

  lemma ProbingStep(s: State, a: uint32)
    requires Usable(a) && Inv(s) && Enabled4(s, Grants(ACKED.(yiaddr := a), false))
    requires s.slots.current.Some? && Address(s.slots.current.value.body) != a
    ensures var t := Step(s, ARPING, Grants(ACKED.(yiaddr := a), false));
      t.phase == Probing && t.slots.current == s.slots.current && t.lease.leaseTime == s.lease.leaseTime && !Armed(t, DhcpExpire)
  {
    hide LoopOk, Table, Ledger, Owned, TakeFrame, Enabled4, Load;
    var p := ACKED.(yiaddr := a);
    var i, r := Grants(p, false), Arrived(p, true, true, false);
    LoadInv(s, i);
    ProbingLosesExpiry(Load(s, i), ARPING, r);
    OneFrameOf(Load(s, i), ARPING, r);
  }

  // ----- the same crash when carrier comes back

  /** Exactly one timer is listed. */
  predicate Alone(q: seq<Timeout>, cb: Callback, when: int) {
    |q| == 1 && q[0].callback == cb && q[0].when == when && q[0].arg == IFACE && q[0].queue == ELOOP_QUEUE
  }

  lemma DiscardNone(l: Loop, keep: Timeout -> bool)
    requires l.timeouts == []
    ensures Discard(l, keep).timeouts == [] && Discard(l, keep).inFlight == l.inFlight
  {
  }

  lemma DeleteNone(l: Loop)
    requires l.timeouts == []
    ensures Delete(l, ELOOP_QUEUE, None, IFACE).timeouts == [] && Delete(l, ELOOP_QUEUE, None, IFACE).inFlight == l.inFlight
  {
    DiscardNone(l, KeepUnless(ELOOP_QUEUE, None, IFACE));
  }

  lemma ClearAlone(l: Loop, cb: Callback, when: int)
    requires Alone(l.timeouts, cb, when)
    ensures Delete(l, ELOOP_QUEUE, None, IFACE).timeouts == [] && Delete(l, ELOOP_QUEUE, None, IFACE).inFlight == l.inFlight
  {
    var t, keep := l.timeouts[0], KeepUnless(ELOOP_QUEUE, None, IFACE);
    assert l.timeouts[1..] == [] && !keep(t);
    assert Kept(l.timeouts, keep) == Kept([], keep);
  }

  lemma AddAlone(s: State, delay: nat, cb: Callback)
    requires s.loop.timeouts == [] && s.world.clock == [] && 0 <= s.world.now < CLOCK_END && delay < CLOCK_END
    ensures var t := AddTimer(s, delay, cb);
      && Alone(t.loop.timeouts, cb, s.world.now + delay) && t.loop.inFlight == s.loop.inFlight
      && t == s.(loop := t.loop)
  {
  }

  const LOST := Input(CarrierLost, [], [], [], [])

  /** Carrier comes back, and the socket does not open. */
  const BACK_FAILS := Input(CarrierAcquired(NoFile), [], [Failed], [], [])

  /** A client that confirms a saved lease loses carrier: only the give-up timer stays. */
  lemma LosesCarrier(p: Packet)
    ensures var s := Confirming(p, 0, false); var t := Step(s, Confirms(true, false), LOST);
      && Enabled4(s, LOST)
      && !t.carrier && !t.crashed && t.slots == s.slots && t.world == World(1, [], [], [], [])
      && Alone(t.loop.timeouts, DhcpExpire, 1 + SECOND) && t.loop.inFlight == None && !t.sockets.raw && !t.sockets.udp
  {
    hide Restored;
    var s := Confirming(p, 0, false);
    var a, b := s.loop.timeouts[0], s.loop.timeouts[1];
    var keep := KeepOnly(ELOOP_QUEUE, IFACE, [DhcpExpire]);
    assert keep(a) && !keep(b);
    assert [a, b][1..] == [b] && [b][1..] == [];
    assert Kept([b], keep) == Kept([], keep) == [];
    assert Kept([a, b], keep) == [a] + Kept([b], keep) == [a];
  }

  /** The give-up timer fires and discovery opens the socket, carrier or not. */
  lemma DiscoversWithoutCarrier(s: State, c: Config, now: int)
    requires !s.crashed && !c.release && s.slots.current == None && s.slots.previous == None && s.slots.buffer == None
    requires Alone(s.loop.timeouts, DhcpExpire, now - 1) && s.loop.inFlight == None
    requires 0 <= s.world.now <= now < CLOCK_END
    ensures Enabled4(s, Fires(now))
    ensures var t := Step(s, c, Fires(now));
      && !t.crashed && t.phase == Discovering && t.carrier == s.carrier && t.sockets.raw && t.slots == s.slots && t.world.now == now
      && Alone(t.loop.timeouts, SendDiscover, now + 3 * SECOND) && t.loop.inFlight == None
  {
    hide Delete, DeleteExcept, Add;
    var i := Fires(now);
    var u := Load(s, i).(loop := BeginFire(s.loop));
    assert u == s.(world := World(now, [], [], [], []), loop := BeginFire(s.loop));
    DeleteNone(u.loop);
    var v := ClearTimers(u);
    EmptyDrop(v, c);
    var w := SetInterval(Drop(v, c), 0);
    DeleteNone(w.loop);
    var x := ClearTimers(NewXid(w.(phase := Discovering)));
    assert Expire(u, c) == Send(x, c, Some(SendDiscover));
    assert RetryDelay(4, 0) == 3 * SECOND;
    SendAlone(x, c);
    var y := Expire(u, c);
    assert Step(s, c, i) == y.(loop := EndFire(y.loop));
  }

  lemma EmptyDrop(s: State, c: Config)
    requires !c.release && s.slots.current == None && s.slots.previous == None && s.loop.timeouts == []
    ensures var t := Drop(s, c); t == s.(loop := t.loop, lease := t.lease) && t.loop.timeouts == [] && t.loop.inFlight == s.loop.inFlight
  {
    DiscardNone(s.loop, KeepOnly(ELOOP_QUEUE, IFACE, [DhcpExpire]));
  }

  lemma SendAlone(s: State, c: Config)
    requires s.loop.timeouts == [] && s.counters.interval == 0 && s.slots.current == None
    requires s.world.clock == [] && s.world.opens == [] && s.world.sends == [] && s.world.randoms == []
    requires 0 <= s.world.now < CLOCK_END
    ensures var t := Send(s, c, Some(SendDiscover));
      && Alone(t.loop.timeouts, SendDiscover, s.world.now + 3 * SECOND) && t.loop.inFlight == s.loop.inFlight
      && t.sockets.raw && t.world == s.world
      && t.slots == s.slots && t.phase == s.phase && t.carrier == s.carrier && t.crashed == s.crashed
  {
    hide Add, Drop, AddTimer;
    var u := SetInterval(s, 4).(sockets := OpenSockets(s.sockets, s.world, false).0);
    assert RetryDelay(4, 0) == 3 * SECOND;
    assert Send(s, c, Some(SendDiscover)) == AddTimer(u, 3 * SECOND, SendDiscover);
    AddAlone(u, 3 * SECOND, SendDiscover);
  }

  /** An acknowledgement during discovery is probed first. */
  lemma ProbesAnswer(s: State, c: Config, when: int)
    requires !s.crashed && c.arp && s.phase == Discovering && s.sockets.raw && s.slots.buffer == None && s.slots.current == None
    requires Alone(s.loop.timeouts, SendDiscover, when) && s.loop.inFlight == None && 0 <= s.world.now < when && s.world.now < CLOCK_END
    ensures Enabled4(s, Grants(ACKED, false))
    ensures var t := Step(s, c, Grants(ACKED, false));
      && !t.crashed && t.carrier == s.carrier && t.counters.probes == 1 && t.world.now == s.world.now
      && t.slots.offer.Some? && t.slots.buffer == None && !t.sockets.raw
      && Alone(t.loop.timeouts, ArpProbe, s.world.now + SECOND) && t.loop.inFlight == None
  {
    hide Delete, Add, AddTimer, Free;
    var i, r := Grants(ACKED, false), Arrived(ACKED, true, true, false);
    var u := Load(s, i);
    assert u == s.(world := World(s.world.now, [], [], [], []));
    ClearAlone(u.loop, SendDiscover, when);
    var v := SetInterval(u.(slots := Fill(u.slots, ACKED)), 0);
    assert TakeFrame(u, c, r) == Accept(v, c, false);
    AdoptsBuffer(v.slots);
    var w := Close(ClearTimers(v.(
      counters := v.counters.(nakoff := 0), slots := AdoptBuffer(v.slots), lease := v.lease.(fromInfo := false))));
    var x := w.(phase := Probing, counters := w.counters.(claims := 0, probes := 0));
    assert Accept(v, c, false) == Probe(x);
    var y := x.(sockets := Sockets(false, false, true), counters := x.counters.(probes := 1));
    assert Probe(x) == AddTimer(y, SECOND, ArpProbe);
    AddAlone(y, SECOND, ArpProbe);
    OneFrameOf(u, c, r);
    FreesNothing(y.slots);
  }

  lemma AdoptsBuffer(m: Slots)
    requires m.buffer.Some?
    ensures AdoptBuffer(m).offer == m.buffer && AdoptBuffer(m).buffer == None && AdoptBuffer(m).current == m.current
  {
  }

  lemma FreesNothing(m: Slots)
    ensures Free(m, None) == m
  {
  }

  /** Carrier comes back while an address is probed, and its socket does not open. */
  lemma BackFails(s: State, c: Config, when: int)
    requires !s.crashed && !s.carrier && Alone(s.loop.timeouts, ArpProbe, when) && s.world.now < when
    ensures Enabled4(s, BACK_FAILS)
    ensures var t := Step(s, c, BACK_FAILS);
      && !t.crashed && t.slots.offer == None && t.loop == s.loop && t.counters.probes == s.counters.probes
      && t.world.now == s.world.now
  {
    hide Discover, Reboot;
  }

  /** A probe that fires keeps the offer missing and counts on, up to the bind. */
  lemma ProbeFires(s: State, c: Config, now: int)
    requires !s.crashed && s.slots.offer == None && Alone(s.loop.timeouts, ArpProbe, now - 1) && s.loop.inFlight == None
    requires 0 <= s.world.now <= now < CLOCK_END
    ensures Enabled4(s, Fires(now))
    ensures var t := Step(s, c, Fires(now)); var last := s.counters.probes + 1 >= PROBE_NUM;
      && !t.crashed && t.slots.offer == None && t.loop.inFlight == None && t.world.now == now
      && t.counters.probes == s.counters.probes + 1
      && Alone(t.loop.timeouts, if last then DhcpBind else ArpProbe, now + (if last then 2 else 1) * SECOND)
  {
    hide Add, AddTimer;
    var i := Fires(now);
    var u := Load(s, i).(loop := BeginFire(s.loop));
    assert u == s.(world := World(now, [], [], [], []), loop := BeginFire(s.loop));
    var v := u.(sockets := u.sockets.(arp := true), counters := u.counters.(probes := u.counters.probes + 1));
    if v.counters.probes < PROBE_NUM {
      assert Probe(u) == AddTimer(v, SECOND, ArpProbe);
      AddAlone(v, SECOND, ArpProbe);
    } else {
      assert Probe(u) == AddTimer(v, 2 * SECOND, DhcpBind);
      AddAlone(v, 2 * SECOND, DhcpBind);
    }
    var y := Probe(u);
    assert Step(s, c, i) == y.(loop := EndFire(y.loop));
  }

  /** Carrier that comes back while an address accepted without it is probed, on a socket that does not
      open, ends in the same crash. */
  lemma CarrierCrashReached(p: Packet)
    ensures exists inputs, s :: Run4(Confirms(true, false), BOOT, inputs, s) && s.crashed
  {
    hide Step, Enabled4, Run4, Alone;
    var c, s1 := Confirms(true, false), Confirming(p, 0, false);
    ConfirmingReached(p, 0, true, false);
    LosesCarrier(p);
    RunSnoc(c, BOOT, [Restores(p, 0)], s1, LOST);
    var s2, t3 := Step(s1, c, LOST), 2 + SECOND;
    DiscoversWithoutCarrier(s2, c, t3);
    RunSnoc(c, BOOT, [Restores(p, 0)] + [LOST], s2, Fires(t3));
    var s3 := Step(s2, c, Fires(t3));
    ProbesAnswer(s3, c, t3 + 3 * SECOND);
    var in3 := [Restores(p, 0)] + [LOST] + [Fires(t3)];
    RunSnoc(c, BOOT, in3, s3, Grants(ACKED, false));
    var s4 := Step(s3, c, Grants(ACKED, false));
    BackFails(s4, c, t3 + SECOND);
    RunSnoc(c, BOOT, in3 + [Grants(ACKED, false)], s4, BACK_FAILS);
    CrashesFrom(c, in3 + [Grants(ACKED, false)] + [BACK_FAILS], Step(s4, c, BACK_FAILS), t3 + SECOND);
  }

  /** From a first probe without an offer it takes two more and the bind. */
  lemma CrashesFrom(c: Config, inputs: seq<Input>, s: State, when: int)
    requires Run4(c, BOOT, inputs, s) && !s.crashed && s.slots.offer == None && s.counters.probes == 1
    requires Alone(s.loop.timeouts, ArpProbe, when) && s.loop.inFlight == None
    requires 0 <= s.world.now <= when && when + 5 * SECOND < CLOCK_END
    ensures exists more, t :: Run4(c, BOOT, more, t) && t.crashed
  {
    hide Step, Enabled4, Run4;
    var i5 := Fires(when + 1);
    ProbeFires(s, c, when + 1);
    RunSnoc(c, BOOT, inputs, s, i5);
    var s6, t6 := Step(s, c, i5), when + 2 + SECOND;
    ProbeFires(s6, c, t6);
    RunSnoc(c, BOOT, inputs + [i5], s6, Fires(t6));
    var s7, t7 := Step(s6, c, Fires(t6)), t6 + 1 + 2 * SECOND;
    FiresWithout(s7, t7);
    BindWithoutOfferCrashes(s7, c, Fires(t7));
    RunSnoc(c, BOOT, inputs + [i5] + [Fires(t6)], s7, Fires(t7));
  }
}
