/** Retransmissions and NAKs counted over runs of the DHCPv4 client. */
module Dhcp4Retries {
  import opened Common
  import opened Eloop
  import opened Dhcp4
  import opened Dhcp4Timers
  import opened Dhcp4Effects
  import opened Dhcp4Safety
  import opened Dhcp4Chains
  import opened Dhcp4Timing
  import opened Dhcp4Theorems

  // ----- retransmissions

  /** The timer of this retransmission fires, and the message leaves. */
  ghost predicate Retry(s: State, i: Input, cb: Callback) {
    && Enabled4(s, i) && i.event.TimerFires? && i.opens == [] && i.sends == []
    && s.loop.timeouts[0].callback == cb
  }

  ghost predicate AllRetries(c: Config, s: State, inputs: seq<Input>, cb: Callback)
    decreases |inputs|
  {
    inputs == [] || (Retry(s, inputs[0], cb) && AllRetries(c, Step(s, c, inputs[0]), inputs[1..], cb))
  }

  /** Armed within a second of the interval after the last reading of the clock. */
  ghost predicate DueIn(s: State, cb: Callback, wait: nat) {
    && Armed(s, cb)
    && s.world.now + (wait - 1) * SECOND <= Pend(s)[(cb, IFACE)].0 < s.world.now + (wait + 1) * SECOND
  }

  lemma RetryStep(c: Config, s: State, i: Input, cb: Callback, n: nat)
    requires cb in SENDS && Inv(s) && Retry(s, i, cb) && s.counters.interval == Interval(n)
    ensures var t := Step(s, c, i);
      Inv(t) && t.counters.interval == Interval(n + 1) && DueIn(t, cb, Min(4 * Pow2(n), 64))
  {
    hide LoopOk, RenewFirst, Table, Ledger, Owned, Send, BeginFire, EndFire, Pow2, Interval;
    StepInv(s, c, i);
    LoadInv(s, i);
    var t := Load(s, i);
    PopCore(t);
    var u := t.(loop := BeginFire(t.loop));
    SendSucceeds(u, c, cb);
    NthTransmission(u, c, cb, n);
    assert LoopOk(Send(u, c, Some(cb)).loop);
    Ends(Send(u, c, Some(cb)).loop);
  }

  /** Over every run of retransmissions that leave, from the n-th on, each waits twice as long as the
      one before, from four seconds up to sixty-four, give or take one. */
  lemma {:induction false} RetriesDouble(c: Config, s: State, inputs: seq<Input>, t: State, cb: Callback, n: nat)
    requires cb in SENDS && Inv(s) && Run4(c, s, inputs, t) && AllRetries(c, s, inputs, cb)
    requires s.counters.interval == Interval(n)
    ensures t.counters.interval == Interval(n + |inputs|)
    ensures inputs != [] ==> DueIn(t, cb, Min(4 * Pow2(n + |inputs| - 1), 64))
    decreases |inputs|
  {
    hide Inv, Step, Retry, DueIn, Interval, Pow2, Enabled4;
    if inputs != [] {
      RetryStep(c, s, inputs[0], cb, n);
      var u := Step(s, c, inputs[0]);
      RetriesDouble(c, u, inputs[1..], t, cb, n + 1);
      if inputs[1..] == [] {
        assert u == t;
      }
    }
  }

  // ----- NAKs

  /** A refusal that is authentic and names its server where it must. */
  predicate Refuses(r: Received) {
    r.Arrived? && r.p.kind == NAK && r.authentic && r.complete
  }

  /** An acknowledgement or BOOTP reply that is accepted. */
  predicate Accepted(r: Received) {
    && r.Arrived? && (r.p.kind == ACK || r.p.kind == BOOTP) && r.authentic && r.complete
    && (Usable(r.p.ciaddr) || Usable(r.p.yiaddr))
  }

  /** The refusals among these frames that are handled: the first closes the socket. */
  function Handled(s: State, c: Config, rs: seq<Received>): nat
    decreases |rs|
  {
    if rs == [] then 0
    else
      var t := TakeFrame(s, c, rs[0]);
      (if Refuses(rs[0]) then 1 else 0)
      + if t.crashed then 0 else Handled(t, c, if rs[0].Arrived? && !t.sockets.raw then [] else rs[1..])
  }

  /** The input starts the client over. */
  ghost predicate StartsOver(s: State, i: Input) {
    match i.event
    case TimerFires(_) => s.carrier && s.loop.timeouts != [] && s.loop.timeouts[0].callback == StartInterface
    case CarrierAcquired(_) => true
    case AddressClaimed(_) => s.carrier && s.lease.fromInfo
    case Reconfigure(_) => s.carrier
    case _ => false
  }

  ghost predicate Quiet(s: State, i: Input) {
    !StartsOver(s, i) && (i.event.PacketsArrive? ==> forall k :: 0 <= k < |i.event.frames| ==> !Accepted(i.event.frames[k]))
  }

  function NaksIn(s: State, c: Config, i: Input): nat {
    if i.event.PacketsArrive? then Handled(Load(s, i), c, i.event.frames) else 0
  }

  // what a handler does to the backoff

  lemma SendNakoff(s: State, c: Config, again: Option<Callback>)
    requires Sound(s)
    ensures Send(s, c, again).counters.nakoff == s.counters.nakoff
  {
    hide LoopOk, RenewFirst, Table, Ledger, Send;
    SendEffect(s, c, again);
  }

  lemma DropNakoff(s: State, c: Config)
    requires Sound(s)
    ensures Sound(Drop(s, c)) && Drop(s, c).counters.nakoff == s.counters.nakoff
  {
    hide LoopOk, RenewFirst, Table, Ledger, Drop;
    DropEffect(s, c);
  }

  lemma DiscoverNakoff(s: State, c: Config)
    requires Sound(s)
    ensures Discover(s, c).counters.nakoff == s.counters.nakoff
  {
    hide LoopOk, RenewFirst, Table, Ledger, Send, Delete;
    var v := NewXid(s.(phase := Discovering));
    ClearEffect(v);
    SendNakoff(ClearTimers(v), c, Some(SendDiscover));
  }

  lemma BindNakoff(s: State, c: Config)
    ensures Bind(s, c).counters.nakoff == s.counters.nakoff
  {
    hide Add, Adopt, Clamp, GetLease;
  }

  lemma ProbeNakoff(s: State)
    ensures Probe(s).counters.nakoff == s.counters.nakoff && Announce(s).counters.nakoff == s.counters.nakoff
  {
    hide Add;
  }

  lemma NakNakoff(s: State, c: Config)
    requires Sound(s)
    ensures HandleNak(s, c).counters.nakoff == NextNakoff(s.counters.nakoff)
  {
    hide Drop, Add;
    DropNakoff(s, c);
  }

  lemma FrameNakoff(s: State, c: Config, r: Received)
    requires Core(s) && !Accepted(r)
    ensures TakeFrame(s, c, r).counters.nakoff == if Refuses(r) then NextNakoff(s.counters.nakoff) else s.counters.nakoff
  {
    hide LoopOk, RenewFirst, Table, Ledger, Owned, Fill, HandleNak, Send, Accept, Delete, AdoptBuffer;
    if r.Arrived? {
      var t := SetInterval(s.(slots := Fill(s.slots, r.p)), 0);
      NakNakoff(t, c);
      var l := t.lease.(
        fromInfo := false, addr := r.p.yiaddr, server := if r.p.kind == BOOTP || r.p.server == None then 0 else r.p.server.value);
      var u := t.(lease := l, slots := AdoptBuffer(t.slots));
      Stops(u.loop, SendDiscover);
      SendNakoff(StopTimer(u, SendDiscover).(phase := Requesting), c, Some(SendRequest));
    }
  }

  lemma {:induction false} PacketsNakoff(s: State, c: Config, rs: seq<Received>, n: nat)
    requires Core(s) && s.counters.nakoff == Nakoff(n) && forall k :: 0 <= k < |rs| ==> !Accepted(rs[k])
    ensures HandlePackets(s, c, rs).counters.nakoff == Nakoff(n + Handled(s, c, rs))
    decreases |rs|
  {
    hide LoopOk, RenewFirst, Table, Ledger, Owned, TakeFrame, Refuses, Accepted;
    if rs != [] {
      FrameCore(s, c, rs[0]);
      FrameNakoff(s, c, rs[0]);
      var t := TakeFrame(s, c, rs[0]);
      PacketsNakoff(t, c, if rs[0].Arrived? && !t.sockets.raw then [] else rs[1..], if Refuses(rs[0]) then n + 1 else n);
    }
  }

  lemma RenewNakoff(s: State, c: Config)
    requires Sound(s)
    ensures RenewLease(s, c).counters.nakoff == s.counters.nakoff && RebindLease(s, c).counters.nakoff == s.counters.nakoff
  {
    hide LoopOk, RenewFirst, Table, Ledger, Send, Delete;
    SendNakoff(NewXid(s.(phase := Renewing)), c, Some(SendRenew));
    var s1 := s.(phase := Rebinding, lease := s.lease.(server := 0));
    Stops(s1.loop, SendRenew);
    SendNakoff(StopTimer(s1, SendRenew), c, Some(SendRebind));
  }

  lemma ExpireNakoff(s: State, c: Config)
    requires Sound(s)
    ensures Expire(s, c).counters.nakoff == s.counters.nakoff
  {
    hide LoopOk, RenewFirst, Table, Ledger, Drop, Discover, Delete;
    ClearEffect(s);
    DropNakoff(ClearTimers(s), c);
    DiscoverNakoff(SetInterval(Drop(ClearTimers(s), c), 0), c);
  }

  lemma TimeoutNakoff(s: State, c: Config)
    requires Base(s)
    ensures BindThenDiscover(s, c).counters.nakoff == s.counters.nakoff
  {
    hide LoopOk, RenewFirst, Table, Ledger, Bind, Discover, Owned;
    BindNakoff(s, c);
    if s.slots.offer.Some? {
      BindBase(s, c);
      DiscoverNakoff(SetInterval(Bind(s, c), 0), c);
    } else {
      NoOffer(s, c);
    }
  }

  lemma FireNakoff(s: State, c: Config, file: LeaseFile)
    requires Inv(s) && s.loop.timeouts != [] && (s.carrier ==> s.loop.timeouts[0].callback != StartInterface)
    ensures Fire(s, c, file).counters.nakoff == s.counters.nakoff
  {
    hide LoopOk, RenewFirst, Table, Ledger, Owned, BeginFire, EndFire, Send, Discover, RenewLease, RebindLease, Expire, Bind, BindThenDiscover, Probe, Announce, Start, LeaseSafe, OfferReady;
    PopCore(s);
    var t := s.(loop := BeginFire(s.loop));
    match s.loop.timeouts[0].callback
    case SendDiscover => SendNakoff(t, c, Some(SendDiscover));
    case SendRequest => SendNakoff(t, c, Some(SendRequest));
    case SendRenew => SendNakoff(t, c, Some(SendRenew));
    case SendRebind => SendNakoff(t, c, Some(SendRebind));
    case DhcpDiscover => DiscoverNakoff(t, c);
    case DhcpRenew => RenewNakoff(t, c);
    case DhcpRebind => RenewNakoff(t, c);
    case DhcpExpire => ExpireNakoff(t, c);
    case DhcpBind => BindNakoff(t, c);
    case DhcpTimeout => TimeoutNakoff(t, c);
    case ArpProbe => ProbeNakoff(t);
    case ArpAnnounce => ProbeNakoff(t);
    case StartInterface =>
    case Other(_) =>
  }

  lemma ConflictNakoff(s: State, c: Config, file: LeaseFile)
    requires Core(s) && !(s.carrier && s.lease.fromInfo)
    ensures Conflict4(s, c, file).counters.nakoff == s.counters.nakoff
  {
    hide LoopOk, RenewFirst, Table, Ledger, Send, Discard, Add, Start, Owned;
    SendNakoff(s, c, None);
    SendEffect(s, c, None);
  }

  /** A step without an accepted message or a start counts the refusals it handles. */
  lemma StepNakoff(s: State, c: Config, i: Input, n: nat)
    requires Inv(s) && Enabled4(s, i) && Quiet(s, i) && s.counters.nakoff == Nakoff(n)
    ensures Step(s, c, i).counters.nakoff == Nakoff(n + NaksIn(s, c, i))
  {
    hide LoopOk, RenewFirst, Table, Ledger, Owned, Fire, HandlePackets, Handled, Drop, Start, Conflict4, Load, LeaseSafe, OfferReady;
    LoadInv(s, i);
    var t := Load(s, i);
    match i.event
    case TimerFires(file) => FireNakoff(t, c, file);
    case PacketsArrive(frames) => PacketsNakoff(t, c, frames, n);
    case CarrierLost => DropNakoff(Close(t.(carrier := false)), c);
    case CarrierAcquired(_) =>
    case AddressClaimed(file) => ConflictNakoff(t, c, file);
    case AddressRemoved => DropNakoff(t, c);
    case Reconfigure(_) =>
  }

  ghost predicate AllQuiet(c: Config, s: State, inputs: seq<Input>)
    decreases |inputs|
  {
    inputs == [] || (Quiet(s, inputs[0]) && (Enabled4(s, inputs[0]) ==> AllQuiet(c, Step(s, c, inputs[0]), inputs[1..])))
  }

  /** The refusals handled over a run. */
  ghost function Naks(c: Config, s: State, inputs: seq<Input>): nat
    decreases |inputs|
  {
    if inputs == [] || !Enabled4(s, inputs[0]) then 0
    else NaksIn(s, c, inputs[0]) + Naks(c, Step(s, c, inputs[0]), inputs[1..])
  }

  /** Over every run without an accepted message or a start, offers, requests and everything else
      included, the backoff is that of the number of refusals handled. */
  lemma {:induction false} NaksBackOff(c: Config, s: State, inputs: seq<Input>, t: State, n: nat)
    requires Inv(s) && Run4(c, s, inputs, t) && AllQuiet(c, s, inputs) && s.counters.nakoff == Nakoff(n)
    ensures t.counters.nakoff == Nakoff(n + Naks(c, s, inputs))
    decreases |inputs|
  {
    hide Inv, Step, Quiet, Nakoff, Enabled4, NaksIn;
    if inputs != [] {
      StepInv(s, c, inputs[0]);
      StepNakoff(s, c, inputs[0], n);
      var u := Step(s, c, inputs[0]);
      if Inv(u) {
        NaksBackOff(c, u, inputs[1..], t, n + NaksIn(s, c, inputs[0]));
      } else {
        CrashEnds(c, u, inputs[1..], t);
      }
    }
  }

  /** A refusal handled as the n-th drops the lease and restarts discovery after that backoff. */
  lemma NakStep(c: Config, s: State, i: Input, r: Received, n: nat)
    requires Inv(s) && Enabled4(s, i) && i.event == PacketsArrive([r]) && Refuses(r) && s.counters.nakoff == Nakoff(n)
    ensures var t := Step(s, c, i);
      && t.slots.current == None && t.counters.nakoff == Nakoff(n + 1) && Armed(t, DhcpDiscover)
      && Pend(t)[(DhcpDiscover, IFACE)].0 == t.world.now + (if n == 0 then 0 else Min(Pow2(n - 1), NAKOFF_MAX)) * SECOND
  {
    hide LoopOk, RenewFirst, Table, Ledger, Owned, HandleNak, Nakoff, Pow2, Fill;
    LoadInv(s, i);
    var t := Load(s, i);
    FillConserves(t.slots, r.p);
    var u := SetInterval(t.(slots := Fill(t.slots, r.p)), 0);
    assert TakeFrame(t, c, r) == HandleNak(u, c);
    NthNak(u, c, n);
    FrameCore(t, c, r);
    assert [r][1..] == [];
    var v := HandleNak(u, c);
    assert HandlePackets(t, c, [r]) == HandlePackets(v, c, []);
    assert HandlePackets(v, c, []) == v.(slots := Free(v.slots, v.slots.buffer).(buffer := None));
  }

  // ----- releasing on a socket that does not open

  /** How deep dhcp_drop and send_message nest: a lease to release is sent, a socket that does not open
      drops it, and so on. */
  function Nested(s: State, c: Config): nat
    decreases |s.world.opens| + |s.world.sends|
  {
    if c.release && s.carrier && s.slots.current.Some? then
      var (s2, ok) := Open(NewXid(s.(loop := DeleteExcept(s.loop, ELOOP_QUEUE, IFACE, [DhcpExpire]))));
      var (w3, sent) := NextSend(s2.world);
      if !ok then 1 + Nested(s2, c)
      else if sent == RawError then 1 + Nested(s2.(world := w3), c)
      else 1
    else 1
  }

  /** With a lease to release, dhcp_drop is entered once for each time the socket fails to open in a
      row, and once more: no bound, and no end if it never opens. */
  lemma {:induction false} NestsWithFailures(s: State, c: Config, k: nat)
    requires c.release && s.carrier && s.slots.current.Some? && !s.sockets.raw
    requires s.world.opens == seq(k, _ => Failed) && s.world.sends == []
    ensures Nested(s, c) == k + 1
    decreases k
  {
    hide Discard;
    if k > 0 {
      var t := Open(NewXid(s.(loop := DeleteExcept(s.loop, ELOOP_QUEUE, IFACE, [DhcpExpire])))).0;
      assert t.world.opens == seq(k - 1, _ => Failed);
      NestsWithFailures(t, c, k - 1);
    }
  }
}
