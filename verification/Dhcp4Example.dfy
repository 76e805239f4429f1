/** A run of the DHCPv4 client that obtains a lease: what is proved of such runs is about something. */
module Dhcp4Example {
  import opened Common
  import opened Eloop
  import opened Dhcp4
  import opened Dhcp4Safety
  import opened Dhcp4Theorems

  const CONFIG := Config(false, false, false, 5)
  const OFFERED := Packet(OFFER, 7, 0, Some(3600), None, None, Some(9))
  const ACKED := Packet(ACK, 7, 0, Some(3600), None, None, Some(9))
  const NO_LEASE := Lease(0, 0, 0, 0, 0, false, 0, 0)
  const EMPTY_SLOTS := Slots(None, None, None, None, 0, multiset{})

  const BOOT := State(
    Init, EMPTY_SLOTS, Sockets(false, false, false), Counters(0, 0, 0, 0, 0), NO_LEASE, true, false,
    Loop([Timeout(0, 0, StartInterface, IFACE, ELOOP_QUEUE)], [], None, 1), World(0, [], [], [], []))

  /** The interface is started, an offer arrives, then its acknowledgement. */
  const STARTS := Input(TimerFires(NoFile), [1], [], [], [])
  const OFFERS := Input(PacketsArrive([Arrived(OFFERED, true, true, false)]), [], [], [], [])
  const ACKS := Input(PacketsArrive([Arrived(ACKED, true, true, false)]), [], [], [], [])

  /** After the first step: discovering, with one retransmission due in three seconds. */
  const ASKING := State(
    Discovering, EMPTY_SLOTS, Sockets(true, false, false), Counters(0, 4, 0, 0, 0), NO_LEASE, true, false,
    Loop([Timeout(1, 1 + 3 * SECOND, SendDiscover, IFACE, ELOOP_QUEUE)], [0], None, 2), World(1, [], [], [], []))

  /** After the second: requesting what was offered. */
  const REQUESTING := State(
    Requesting, EMPTY_SLOTS.(offer := Some(Message(0, OFFERED)), heap := 1), Sockets(true, false, false),
    Counters(0, 4, 0, 0, 0), NO_LEASE.(addr := 7, server := 9), true, false,
    Loop([Timeout(0, 1 + 3 * SECOND, SendRequest, IFACE, ELOOP_QUEUE)], [1], None, 2), World(1, [], [], [], []))

  lemma NothingToDelete(q: int, cb: Option<Callback>, free: seq<nat>, f: Option<nat>, n: nat)
    ensures Delete(Loop([], free, f, n), q, cb, IFACE) == Loop([], free, f, n)
  {
    assert free + [] == free;
  }

  lemma AddToEmpty(now: int, delay: nat, cb: Callback, n: nat)
    requires 0 <= now < CLOCK_END && delay < CLOCK_END
    ensures Add(Loop([], [], Some(0), n), ELOOP_QUEUE, now, delay, cb, IFACE).0 ==
      Loop([Timeout(n, now + delay, cb, IFACE, ELOOP_QUEUE)], [], Some(0), n + 1)
  {
  }

  lemma FirstStep(c: Config)
    ensures Enabled4(BOOT, STARTS) && Step(BOOT, c, STARTS) == ASKING
  {
    hide Delete, Add;
    var l := Loop([], [], Some(0), 1);
    NothingToDelete(ELOOP_QUEUE, None, [], Some(0), 1);
    AddToEmpty(1, 3 * SECOND, SendDiscover, 1);
    var t := Load(BOOT, STARTS);
    assert t == BOOT.(world := World(1, [], [], [], []));
    assert BeginFire(t.loop) == l;
    var u := t.(loop := l, sockets := Sockets(true, false, false));
    assert StartInterface4(t.(loop := l), c, NoFile) == Discover(u, c);
    var v := u.(phase := Discovering);
    assert ClearTimers(NewXid(v)) == v;
    assert Discover(u, c) == Send(v, c, Some(SendDiscover));
    var w := v.(counters := Counters(0, 4, 0, 0, 0));
    assert RetryDelay(4, 0) == 3 * SECOND;
    assert Send(v, c, Some(SendDiscover)) == AddTimer(w, 3 * SECOND, SendDiscover);
  }

  lemma StopOnly(t: Timeout, free: seq<nat>)
    requires t.arg == IFACE && t.queue == ELOOP_QUEUE
    ensures Delete(Loop([t], free, None, 2), ELOOP_QUEUE, Some(t.callback), IFACE) == Loop([], free + [t.node], None, 2)
  {
    var keep := KeepUnless(ELOOP_QUEUE, Some(t.callback), IFACE);
    assert [t][1..] == [] && !keep(t);
    assert Kept([t], keep) == Kept([], keep) == [];
    assert Dropped([t], keep) == [t.node] + Dropped([], keep) == [t.node];
  }

  /** A single frame is handled and what is left of its buffer freed. */
  lemma OneFrame(s: State, r: Received)
    requires !TakeFrame(s, CONFIG, r).crashed
    ensures var t := TakeFrame(s, CONFIG, r);
      HandlePackets(s, CONFIG, [r]) == t.(slots := Free(t.slots, t.slots.buffer).(buffer := None))
  {
    hide TakeFrame;
    assert [r][1..] == [];
    assert HandlePackets(s, CONFIG, [r]) == HandlePackets(TakeFrame(s, CONFIG, r), CONFIG, []);
  }

  lemma AddFromPool(now: int, delay: nat, cb: Callback)
    requires 0 <= now < CLOCK_END && delay < CLOCK_END
    ensures Add(Loop([], [0, 1], None, 2), ELOOP_QUEUE, now, delay, cb, IFACE).0 ==
      Loop([Timeout(0, now + delay, cb, IFACE, ELOOP_QUEUE)], [1], None, 2)
  {
    assert [0, 1][1..] == [1];
  }

  lemma SecondStep()
    ensures Enabled4(ASKING, OFFERS) && Step(ASKING, CONFIG, OFFERS) == REQUESTING
  {
    hide Delete, Add;
    var r := Arrived(OFFERED, true, true, false);
    StopOnly(ASKING.loop.timeouts[0], [0]);
    AddFromPool(1, 3 * SECOND, SendRequest);
    assert Load(ASKING, OFFERS) == ASKING;
    var m := EMPTY_SLOTS.(buffer := Some(Message(0, OFFERED)), heap := 1);
    var t := SetInterval(ASKING.(slots := m), 0);
    assert TakeFrame(ASKING, CONFIG, r) == TakeOffer(t, CONFIG, r);
    var u := t.(lease := NO_LEASE.(addr := 7, server := 9), slots := AdoptBuffer(m), loop := Loop([], [0, 1], None, 2));
    assert [0] + [1] == [0, 1];
    assert TakeOffer(t, CONFIG, r) == RequestLease(u, CONFIG);
    var v := u.(phase := Requesting, counters := Counters(0, 4, 0, 0, 0));
    assert RetryDelay(4, 0) == 3 * SECOND;
    assert RequestLease(u, CONFIG) == AddTimer(v, 3 * SECOND, SendRequest);
    assert TakeFrame(ASKING, CONFIG, r) == REQUESTING;
    OneFrame(ASKING, r);
  }

  lemma ThirdStep()
    ensures Enabled4(REQUESTING, ACKS)
    ensures var s := Step(REQUESTING, CONFIG, ACKS);
      s.phase == Bound && s.slots.current.Some? && s.lease.leaseTime == 3600 && !s.crashed
  {
    hide Delete, Add;
    var r := Arrived(ACKED, true, true, false);
    assert Load(REQUESTING, ACKS) == REQUESTING;
    var t := SetInterval(REQUESTING.(slots := Fill(REQUESTING.slots, ACKED)), 0);
    assert TakeFrame(REQUESTING, CONFIG, r) == Accept(t, CONFIG, false);
    var m := Message(1, ACKED);
    assert AdoptBuffer(t.slots).offer == Some(m);
    var u := Close(ClearTimers(t.(counters := t.counters.(nakoff := 0), slots := AdoptBuffer(t.slots), lease := t.lease.(fromInfo := false))));
    assert Accept(t, CONFIG, false) == Bind(u, CONFIG);
    OneFrame(REQUESTING, r);
  }

  /** A state with a finite lease in force is reached. */
  lemma LeaseIsReached()
    ensures exists c, s0, inputs, s ::
      Reached(c, s0, inputs, s) && Holding(s.phase) && s.slots.current.Some? && s.lease.leaseTime != INFINITE
  {
    hide Step, Enabled4;
    FirstStep(CONFIG);
    SecondStep();
    ThirdStep();
    var s := Step(REQUESTING, CONFIG, ACKS);
    LastStep(s);
    var inputs := [STARTS, OFFERS, ACKS];
    assert inputs[1..] == [OFFERS, ACKS] && inputs[1..][1..] == [ACKS];
    assert Run4(CONFIG, ASKING, [OFFERS, ACKS], s);
    assert Reached(CONFIG, BOOT, inputs, s);
  }

  lemma LastStep(s: State)
    requires Enabled4(REQUESTING, ACKS) && s == Step(REQUESTING, CONFIG, ACKS)
    ensures Run4(CONFIG, REQUESTING, [ACKS], s)
  {
    hide Step, Enabled4;
    assert [ACKS][1..] == [];
  }
}
