/** The results about whole runs of the DHCPv4 client, and where its promises stop. */
module Dhcp4Theorems {
  import opened Common
  import opened Eloop
  import opened Dhcp4
  import opened Dhcp4Timers
  import opened Dhcp4Effects
  import opened Dhcp4Safety
  import opened Dhcp4Chains
  import opened Dhcp4Timing

  /** s is reached from start-up by a run, and not the end of a crash. */
  ghost predicate Reached(c: Config, s0: State, inputs: seq<Input>, s: State) {
    Initial(s0) && Run4(c, s0, inputs, s) && !s.crashed
  }

  lemma ReachedInv(c: Config, s0: State, inputs: seq<Input>, s: State)
    requires Reached(c, s0, inputs, s)
    ensures Inv(s)
  {
    InitialInv(s0);
    RunInv(c, s0, inputs, s);
  }

  // ----- leases

  /** The lease time a message grants: for ever without the option, and at least twenty seconds. */
  function Granted(p: Packet): uint32 {
    if p.leaseTime == None then INFINITE else Max(MIN_LEASE, p.leaseTime.value)
  }

  /** A finite lease in use has its expiry pending, one lease time after its timers were set. */
  lemma LeaseSafety(c: Config, s0: State, inputs: seq<Input>, s: State)
    requires Reached(c, s0, inputs, s)
    requires Holding(s.phase) && s.slots.current.Some? && s.lease.leaseTime != INFINITE
    ensures Armed(s, DhcpExpire)
    ensures Pend(s)[(DhcpExpire, IFACE)].0 == s.lease.timersSet + s.lease.leaseTime * SECOND
    ensures s.lease.boundTime <= s.lease.timersSet <= s.world.now
  {
    hide Inv, Run4, Initial;
    ReachedInv(c, s0, inputs, s);
    assert ExpiryOk(s) by { InvExpiry(s); }
  }

  lemma InvExpiry(s: State)
    requires Inv(s) && Holding(s.phase) && s.slots.current.Some? && s.lease.leaseTime != INFINITE
    ensures ExpiryOk(s)
  {
    hide LoopOk, Table, Ledger, Owned;
  }

  /** The address in use is the one the message in force grants, for the time it grants, and a
      grant of less than twenty seconds counts as twenty. */
  lemma LeaseTerms(c: Config, s0: State, inputs: seq<Input>, s: State)
    requires Reached(c, s0, inputs, s) && Holding(s.phase) && s.slots.current.Some?
    ensures var p := s.slots.current.value.body;
      && s.lease.addr == Address(p)
      && s.lease.leaseTime == Granted(p)
      && (s.lease.leaseTime != INFINITE ==> 0 < s.lease.renewalTime < s.lease.leaseTime && 0 < s.lease.rebindTime < s.lease.leaseTime)
  {
    hide Run4, Initial, LoopOk, Table, Ledger, Owned, Scheduled, OfferReady;
    ReachedInv(c, s0, inputs, s);
    assert Terms(s.lease, s.slots.current.value.body);
  }

  /** A bound client with a finite lease always has its renewal and its rebinding pending, T1 and T2
      after the lease was bound, up to the time binding itself took. */
  lemma RenewalsScheduled(c: Config, s0: State, inputs: seq<Input>, s: State)
    requires Reached(c, s0, inputs, s)
    requires s.phase == Bound && s.slots.current.Some? && s.lease.leaseTime != INFINITE
    ensures Armed(s, DhcpRenew) && Due(s, DhcpRenew, s.lease.renewalTime)
    ensures Armed(s, DhcpRebind) && Due(s, DhcpRebind, s.lease.rebindTime)
  {
    hide Run4, Initial, LoopOk, Table, Ledger, Owned, Due;
    ReachedInv(c, s0, inputs, s);
  }

  /** No packet, carrier change or address event is ever handled with a leased address in use
      after its lease time has passed. */
  lemma NeverOutlived(c: Config, s0: State, inputs: seq<Input>, s: State, i: Input)
    requires Reached(c, s0, inputs, s) && Enabled4(s, i)
    requires !i.event.TimerFires? && !i.event.Reconfigure?
    requires Holding(s.phase) && s.slots.current.Some? && s.lease.leaseTime != INFINITE
    ensures Load(s, i).world.now <= s.lease.timersSet + s.lease.leaseTime * SECOND
  {
    hide Run4, Initial, LoopOk, Table, Ledger, Owned;
    ReachedInv(c, s0, inputs, s);
    assert s.loop.timeouts != [] by { ArmedNonempty(s, DhcpExpire); }
    HeadIsFirst(s.loop, (DhcpExpire, IFACE));
  }

  lemma ArmedNonempty(s: State, cb: Callback)
    requires Armed(s, cb)
    ensures s.loop.timeouts != []
  {
  }

  /** When the expiry fires, the address is given up and discovery starts. */
  lemma ExpiryClears(c: Config, s0: State, inputs: seq<Input>, s: State, i: Input)
    requires Reached(c, s0, inputs, s) && Enabled4(s, i) && i.event.TimerFires?
    requires s.loop.timeouts[0].callback == DhcpExpire
    ensures Step(s, c, i).slots.current == None && Step(s, c, i).phase == Discovering
  {
    hide Run4, Initial, LoopOk, Table, Ledger, Owned, Expire, BeginFire, EndFire, Load;
    ReachedInv(c, s0, inputs, s);
    LoadInv(s, i);
    var t := Load(s, i);
    PopCore(t);
    ExpireCore(t.(loop := BeginFire(t.loop)), c);
  }

  /** Outside the three phases that maintain the lease nothing will end it: while discovering or
      probing, a lease in force has no expiry pending at all. */
  lemma ExpiryIffHolding(c: Config, s0: State, inputs: seq<Input>, s: State)
    requires Reached(c, s0, inputs, s) && s.slots.current.Some? && s.lease.leaseTime != INFINITE
    requires s.phase != Init && s.phase != Requesting
    ensures Armed(s, DhcpExpire) <==> Holding(s.phase)
  {
    hide Run4, Initial, LoopOk, Table, Ledger, Owned;
    ReachedInv(c, s0, inputs, s);
  }

  /** The reboot phase is always left before the handler returns, so no step ever sees it. */
  lemma NeverRebooting(c: Config, s0: State, inputs: seq<Input>, s: State)
    requires Reached(c, s0, inputs, s)
    ensures s.phase != Rebooting
  {
    ReachedInv(c, s0, inputs, s);
  }

  /** dhcp_timeout is one way there: it binds the saved lease, and its expiry is deleted at once. */
  lemma TimeoutLosesExpiry(s: State, c: Config, i: Input)
    requires Inv(s) && Enabled4(s, i) && i.event.TimerFires? && i.opens == [] && i.sends == []
    requires s.loop.timeouts[0].callback == DhcpTimeout && s.slots.offer.Some?
    ensures var t := Step(s, c, i);
      && t.phase == Discovering && t.slots.current.Some? && t.slots.current == s.slots.offer && !Armed(t, DhcpExpire)
      && t.lease.leaseTime == Granted(s.slots.offer.value.body)
  {
    hide LoopOk, RenewFirst, Table, Ledger, Owned, Bind, Discover, BeginFire, EndFire;
    LoadInv(s, i);
    var t := Load(s, i);
    CallCore(t, c, i.event.file);
    PopCore(t);
    var u := t.(loop := BeginFire(t.loop));
    BindBase(u, c);
    BindTapes(u, c);
    BindLease(u, c);
    var v := SetInterval(Bind(u, c), 0);
    DiscoverCore(v, c);
    DiscoverKeepsLease(v, c);
    Ends(Discover(v, c).loop);
  }

  lemma BindTapes(s: State, c: Config)
    requires s.slots.offer.Some?
    requires s.world.opens == [] && s.world.sends == []
    ensures Bind(s, c).world.opens == [] && Bind(s, c).world.sends == []
  {
    hide Add, Clamp, Adopt, GetLease;
  }

  lemma BindLease(s: State, c: Config)
    requires s.slots.offer.Some?
    ensures Bind(s, c).lease == TakeLease(s).lease && Bind(s, c).lease.leaseTime == Granted(s.slots.offer.value.body)
  {
    hide Add, TakeLease;
    TakeLeaseTimes(s);
  }

  lemma DiscoverKeepsLease(s: State, c: Config)
    requires s.world.opens == [] && s.world.sends == []
    ensures Discover(s, c).slots == s.slots && Discover(s, c).lease == s.lease
  {
    hide Add, Discard, Drop;
  }

  /** Duplicate detection is the other: an acknowledged new address is probed while the old lease
      stays in force with no timer to end it. */
  lemma ProbingLosesExpiry(s: State, c: Config, r: Received)
    requires Inv(s) && c.arp
    requires r.Arrived? && r.authentic && r.complete && !r.configured && r.p.kind == ACK && Usable(r.p.yiaddr)
    requires s.slots.current.Some? ==> Address(s.slots.current.value.body) != r.p.yiaddr
    ensures var t := TakeFrame(s, c, r);
      t.phase == Probing && t.slots.current == s.slots.current && !Armed(t, DhcpExpire)
      && t.lease == s.lease.(fromInfo := false) && !t.crashed
  {
    hide LoopOk, RenewFirst, Table, Ledger, Owned, Add, Discard, AdoptBuffer, Fill;
    FillConserves(s.slots, r.p);
    FillBody(s.slots, r.p);
    FrameCore(s, c, r);
    AdoptBufferConserves(Fill(s.slots, r.p));
  }

  lemma FillBody(m: Slots, p: Packet)
    ensures Fill(m, p).buffer.Some? && Fill(m, p).buffer.value.body == p && Fill(m, p).current == m.current
  {
  }

  /** The times of a lease read from a file are counted from the bind, not from the file: whatever
      age dhcp_start subtracted, when the reboot timeout binds the saved lease its expiry is set a full
      lease time, as the message grants it, after the bind. */
  lemma FileAgeIsIgnored(c: Config, s0: State, inputs: seq<Input>, s: State, i: Input)
    requires Reached(c, s0, inputs, s) && Enabled4(s, i) && i.event.TimerFires?
    requires s.loop.timeouts[0].callback == DhcpTimeout
    requires s.slots.offer.Some?
    ensures var u := Load(s, i).(loop := BeginFire(s.loop)); var b := Bind(u, c); var p := s.slots.offer.value.body;
      && b.slots.current == s.slots.offer
      && b.lease.leaseTime == Granted(p)
      && (b.lease.leaseTime != INFINITE ==>
            && Armed(b, DhcpExpire) && u.world.now <= b.lease.timersSet
            && Pend(b)[(DhcpExpire, IFACE)].0 == b.lease.timersSet + b.lease.leaseTime * SECOND)
  {
    hide Run4, Initial, LoopOk, RenewFirst, Table, Ledger, Owned, TakeLease, Announce, BeginFire;
    ReachedInv(c, s0, inputs, s);
    LoadInv(s, i);
    PopCore(Load(s, i));
    var u := Load(s, i).(loop := BeginFire(s.loop));
    TakeLeaseEffect(u);
    TakeLeaseTimes(u);
    var t := TakeLease(u).(phase := Bound);
    if c.arp {
      AnnounceCore(t.(counters := t.counters.(claims := 0)));
    }
  }

  lemma TakeLeaseTimes(s: State)
    requires s.slots.offer.Some?
    ensures var p := s.slots.offer.value.body; var t := TakeLease(s);
      && t.lease.leaseTime == Granted(p)
      && s.world.now <= t.world.now
      && (t.lease.leaseTime != INFINITE ==> s.world.now <= t.lease.timersSet)
  {
    hide Add, Adopt;
  }

  // ----- messages

  /** Every message ever allocated is in exactly one of the slots or was freed exactly once, also when
      the run ended in a crash. */
  lemma LinearOwnership(c: Config, s0: State, inputs: seq<Input>, s: State, id: nat)
    requires Initial(s0) && Run4(c, s0, inputs, s)
    ensures Ledger(s.slots)[id] == if id < s.slots.heap then 1 else 0
    ensures s.slots.buffer == None
  {
    hide Run4, Initial, LoopOk, Table, LeaseSafe, OfferReady;
    InitialInv(s0);
    RunInv(c, s0, inputs, s);
  }

  // ----- retransmissions

  /** With leases that renew no later than they rebind, at most one retransmission is pending. */
  lemma OneRetransmission(c: Config, s0: State, inputs: seq<Input>, s: State)
    requires Reached(c, s0, inputs, s)
    requires forall i :: 0 <= i < |inputs| ==> OrderedInput(inputs[i])
    ensures OneSender(s)
  {
    hide Chain, Run4, Initial, Inv;
    ReachedChain(c, s0, inputs, s);
    assert OneSender(s) by { ChainIsOne(s); }
  }

  lemma ChainIsOne(s: State)
    requires Chain(s)
    ensures OneSender(s) && RenewFirst(s.loop.timeouts)
  {
  }

  lemma ReachedChain(c: Config, s0: State, inputs: seq<Input>, s: State)
    requires Reached(c, s0, inputs, s)
    requires forall i :: 0 <= i < |inputs| ==> OrderedInput(inputs[i])
    ensures Inv(s) && Chain(s)
  {
    hide Chain, Run4, Initial, Inv;
    InitialInv(s0);
    InitialChain(s0);
    RunChain(c, s0, inputs, s);
  }

  /** Renewal, rebinding and expiry fire in that order, also when T1 equals T2: when the rebind
      timer fires no renewal is pending, and when the expiry fires neither is. */
  lemma FiringOrder(c: Config, s0: State, inputs: seq<Input>, s: State, i: Input)
    requires Reached(c, s0, inputs, s) && Enabled4(s, i) && i.event.TimerFires?
    requires forall k :: 0 <= k < |inputs| ==> OrderedInput(inputs[k])
    ensures s.loop.timeouts[0].callback == DhcpRebind ==> !Armed(s, DhcpRenew)
    ensures s.loop.timeouts[0].callback == DhcpExpire ==> !Armed(s, DhcpRenew) && !Armed(s, DhcpRebind)
  {
    hide Run4, Initial, LoopOk, Table, Ledger, Owned, OneSender, NoRival, RenewFirst;
    ReachedChain(c, s0, inputs, s);
    PopsInOrder(s.loop);
    if s.loop.timeouts[0].callback == DhcpExpire {
      ExpiryFiresLast(s);
    }
  }

  lemma ExpiryFiresLast(s: State)
    requires Inv(s) && s.loop.timeouts != [] && s.loop.timeouts[0].callback == DhcpExpire
    ensures !Armed(s, DhcpRenew) && !Armed(s, DhcpRebind)
  {
    hide LoopOk, Table, Ledger, Owned;
    Pops(s.loop);
    if Armed(s, DhcpRenew) {
      HeadIsFirst(s.loop, (DhcpRenew, IFACE));
    }
    if Armed(s, DhcpRebind) {
      HeadIsFirst(s.loop, (DhcpRebind, IFACE));
    }
  }

  /** A lease that rebinds before it renews breaks the promise: firing the rebind first leaves the
      renewal pending, ... */
  lemma RebindBeforeRenew(s: State, c: Config, i: Input)
    requires Inv(s) && Enabled4(s, i) && i.event.TimerFires? && i.opens == [] && i.sends == []
    requires s.loop.timeouts[0].callback == DhcpRebind && Armed(s, DhcpRenew)
    ensures var t := Step(s, c, i);
      && t.phase == Rebinding && Armed(t, SendRebind) && Armed(t, DhcpRenew)
      && Pend(t) == (Pend(s) - {(DhcpRebind, IFACE), (SendRenew, IFACE)})[(SendRebind, IFACE) := Pend(t)[(SendRebind, IFACE)]]
      && Load(s, i).world.now + SECOND <= t.world.now + SECOND <= Pend(t)[(SendRebind, IFACE)].0
  {
    hide LoopOk, RenewFirst, Table, Ledger, Owned, Send, BeginFire, EndFire, Delete;
    LoadInv(s, i);
    var t := Load(s, i);
    PopCore(t);
    var u := t.(loop := BeginFire(t.loop));
    Stops(u.loop, SendRenew);
    var v := StopTimer(u.(phase := Rebinding, lease := u.lease.(server := 0)), SendRenew);
    SendEffect(v, c, Some(SendRebind));
    SendSucceeds(v, c, SendRebind);
    Ends(Send(v, c, Some(SendRebind)).loop);
  }

  /** ... and the renewal then starts a second chain beside the first. */
  lemma TwoChains(s: State, c: Config, i: Input)
    requires Inv(s) && Enabled4(s, i) && i.event.TimerFires? && i.opens == [] && i.sends == []
    requires s.loop.timeouts[0].callback == DhcpRenew && Armed(s, SendRebind)
    ensures var t := Step(s, c, i); Armed(t, SendRebind) && Armed(t, SendRenew) && !OneSender(t)
  {
    hide LoopOk, RenewFirst, Table, Ledger, Owned, Send, BeginFire, EndFire;
    LoadInv(s, i);
    var t := Load(s, i);
    PopCore(t);
    var u := NewXid(t.(loop := BeginFire(t.loop), phase := Renewing));
    SendEffect(u, c, Some(SendRenew));
    SendSucceeds(u, c, SendRenew);
    Ends(Send(u, c, Some(SendRenew)).loop);
  }

  /** When sockets open and packets leave, the lease stays and the timer is armed. */
  lemma SendSucceeds(s: State, c: Config, cb: Callback)
    requires Sound(s) && s.world.opens == [] && s.world.sends == []
    ensures Sent4(s, Some(cb), Send(s, c, Some(cb)))
    ensures Send(s, c, Some(cb)).counters.interval == NextInterval(s.counters.interval)
    ensures var (t, interval) := (Send(s, c, Some(cb)), NextInterval(s.counters.interval));
      t.world.now + (interval - 1) * SECOND <= Pend(t)[(cb, IFACE)].0 < t.world.now + (interval + 1) * SECOND
  {
    hide LoopOk, RenewFirst, Table, Ledger, Add, Drop;
    var (w, r) := Random(s.world);
    var s1 := SetInterval(s, NextInterval(s.counters.interval)).(world := w);
    var s2 := Open(s1).0;
    TimerArms(s2, RetryDelay(s1.counters.interval, r), cb);
  }

  /** The n-th transmission since a reset is followed after min(4 * 2^(n-1), 64) seconds, give or
      take one. */
  lemma NthTransmission(s: State, c: Config, cb: Callback, n: nat)
    requires Sound(s) && s.world.opens == [] && s.world.sends == []
    requires s.counters.interval == Interval(n)
    ensures var t := Send(s, c, Some(cb)); var wait := Min(4 * Pow2(n), 64);
      && t.counters.interval == Interval(n + 1) == wait
      && Armed(t, cb)
      && t.world.now + (wait - 1) * SECOND <= Pend(t)[(cb, IFACE)].0 < t.world.now + (wait + 1) * SECOND
  {
    hide LoopOk, RenewFirst, Table, Ledger, Send, Pow2;
    IntervalDoubles(n + 1);
    SendSucceeds(s, c, cb);
  }

  /** The n-th NAK in a row (from zero) restarts discovery after 0, 1, 2, 4, ... at most 60 seconds. */
  lemma NthNak(s: State, c: Config, n: nat)
    requires Sound(s) && s.counters.nakoff == Nakoff(n)
    ensures var t := HandleNak(s, c);
      && t.slots.current == None
      && t.counters.nakoff == Nakoff(n + 1)
      && Armed(t, DhcpDiscover)
      && Pend(t)[(DhcpDiscover, IFACE)].0 == t.world.now + (if n == 0 then 0 else Min(Pow2(n - 1), NAKOFF_MAX)) * SECOND
  {
    hide LoopOk, RenewFirst, Table, Ledger, Drop, AddTimer, Pow2;
    if n > 0 {
      NakoffDoubles(n);
    }
    DropEffect(s, c);
    var t := Close(Drop(s, c));
    TimerArms(t, t.counters.nakoff * SECOND, DhcpDiscover);
  }
}
