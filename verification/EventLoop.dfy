/**
 The mutable event loop of dhcpcd/eloop.c: the timeout list with its free pool, and the set of
 watched descriptors with the array handed to poll.  Every method is proved against the
 functions of module Eloop, or against the list of watched descriptors.
 */
module EventLoopClass {
  import opened Common
  import opened Eloop

  /** What one turn of the loop decides to do before it polls. */
  datatype Turn =
    | RunNow(callback: Callback, arg: nat)   // the single slot of eloop_timeout_add_now
    | RunTimeout(callback: Callback, arg: nat)
    | Wait(until: Option<int>)

  class EventLoop {
    var timeouts: seq<Timeout>
    var free: seq<nat>
    var inFlight: Option<nat>
    var nodes: nat
    var timeout0: Option<(Callback, nat)>

    constructor ()
      ensures State() == Loop([], [], None, 0) && timeout0 == None
      ensures Valid(State())
    {
      timeouts, free, inFlight, nodes, timeout0 := [], [], None, 0, None;
    }

    function State(): Loop
      reads this
    {
      Loop(timeouts, free, inFlight, nodes)
    }

    method AddTimeout(queue: int, now: int, delay: int, callback: Callback, arg: nat) returns (ok: bool)
      modifies this`timeouts, this`free, this`nodes
      ensures (State(), ok) == Add(old(State()), queue, now, delay, callback, arg)
    {
      var w := TimerAdd(now, delay);
      if w < now {
        return false;
      }
      var i := FindTimeout(callback, arg);
      var node;
      if i < |timeouts| {
        node := timeouts[i].node;
        timeouts := timeouts[..i] + timeouts[i + 1..];
      } else if free != [] {
        node, free := free[0], free[1..];
      } else {
        node, nodes := nodes, nodes + 1;
      }
      InsertSorted(Timeout(node, w, callback, arg, queue));
      ok := true;
    }

    method FindTimeout(callback: Callback, arg: nat) returns (i: nat)
      ensures i == Find(timeouts, callback, arg)
    {
      i := 0;
      while i < |timeouts| && !(timeouts[i].callback == callback && timeouts[i].arg == arg)
        invariant 0 <= i <= |timeouts|
        invariant forall j :: 0 <= j < i ==> !(timeouts[j].callback == callback && timeouts[j].arg == arg)
      {
        i := i + 1;
      }
    }

    method InsertSorted(t: Timeout)
      modifies this`timeouts
      ensures timeouts == Insert(old(timeouts), t)
    {
      var k := 0;
      while k < |timeouts| && !(t.when < timeouts[k].when)
        invariant 0 <= k <= |timeouts| && timeouts == old(timeouts)
        invariant forall j :: 0 <= j < k ==> timeouts[j].when <= t.when
      {
        k := k + 1;
      }
      assert k == Place(timeouts, t.when);
      timeouts := timeouts[..k] + [t] + timeouts[k..];
    }

    method DeleteTimeout(queue: int, callback: Option<Callback>, arg: nat)
      modifies this`timeouts, this`free
      ensures State() == Delete(old(State()), queue, callback, arg)
    {
      ghost var keep := KeepUnless(queue, callback, arg);
      var k := 0;
      while k < |timeouts|
        invariant 0 <= k <= |timeouts|
        invariant timeouts[..k] + Kept(timeouts[k..], keep) == Kept(old(timeouts), keep)
        invariant free + Dropped(timeouts[k..], keep) == old(free) + Dropped(old(timeouts), keep)
        decreases |timeouts| - k
      {
        var t := timeouts[k];
        assert timeouts[k..] == [t] + timeouts[k + 1..];
        if t.queue == queue && t.arg == arg && (callback == None || callback == Some(t.callback)) {
          RemoveToPool(k);
        } else {
          k := k + 1;
        }
      }
    }

    method RemoveToPool(k: nat)
      requires k < |timeouts|
      modifies this`timeouts, this`free
      ensures timeouts == RemoveAt(old(timeouts), k)
      ensures timeouts[..k] == old(timeouts)[..k] && timeouts[k..] == old(timeouts)[k + 1..]
      ensures free == old(free) + [old(timeouts)[k].node]
    {
      free := free + [timeouts[k].node];
      timeouts := timeouts[..k] + timeouts[k + 1..];
    }

    method DeleteTimeoutsExcept(queue: int, arg: nat, callbacks: seq<Callback>)
      modifies this`timeouts, this`free
      ensures State() == DeleteExcept(old(State()), queue, arg, callbacks)
    {
      ghost var keep := KeepOnly(queue, arg, callbacks);
      var k := 0;
      while k < |timeouts|
        invariant 0 <= k <= |timeouts|
        invariant timeouts[..k] + Kept(timeouts[k..], keep) == Kept(old(timeouts), keep)
        invariant free + Dropped(timeouts[k..], keep) == old(free) + Dropped(old(timeouts), keep)
        decreases |timeouts| - k
      {
        var t := timeouts[k];
        assert timeouts[k..] == [t] + timeouts[k + 1..];
        var listed := true;
        if (queue == 0 || t.queue == queue) && t.arg == arg {
          var f := 0;
          while f < |callbacks| && callbacks[f] != t.callback
            invariant 0 <= f <= |callbacks|
            invariant forall j :: 0 <= j < f ==> callbacks[j] != t.callback
          {
            f := f + 1;
          }
          listed := f < |callbacks|;
        }
        if listed {
          k := k + 1;
        } else {
          RemoveToPool(k);
        }
      }
    }

    /** eloop_timeout_add_now: one slot, and an ordinary zero-delay timeout when it is taken. */
    method AddNow(now: int, callback: Callback, arg: nat) returns (ok: bool)
      modifies this
      ensures old(timeout0) == None ==> ok && timeout0 == Some((callback, arg)) && State() == old(State())
      ensures old(timeout0) != None ==>
        timeout0 == old(timeout0) && (State(), ok) == Add(old(State()), 0, now, 0, callback, arg)
    {
      if timeout0 != None {
        ok := AddTimeout(0, now, 0, callback, arg);
      } else {
        timeout0, ok := Some((callback, arg)), true;
      }
    }

    /** The head of one iteration of eloop_start: the zero slot first, then the earliest timeout
        if its time has passed, else how long to wait. */
    method Next(now: int) returns (turn: Turn)
      requires inFlight == None
      modifies this
      ensures match turn
        case RunNow(cb, arg) => old(timeout0) == Some((cb, arg)) && timeout0 == None && State() == old(State())
        case RunTimeout(cb, arg) =>
          && old(timeout0) == None && timeout0 == None && CanFire(old(State()), now)
          && State() == BeginFire(old(State()))
          && cb == old(timeouts)[0].callback && arg == old(timeouts)[0].arg
        case Wait(until) =>
          && old(timeout0) == None && timeout0 == None && State() == old(State()) && !CanFire(State(), now)
          && until == if timeouts == [] then None else Some(timeouts[0].when)
    {
      if timeout0.Some? {
        turn, timeout0 := RunNow(timeout0.value.0, timeout0.value.1), None;
      } else if timeouts != [] {
        var t := timeouts[0];
        if now > t.when {
          timeouts, inFlight := timeouts[1..], Some(t.node);
          turn := RunTimeout(t.callback, t.arg);
        } else {
          turn := Wait(Some(t.when));
        }
      } else {
        turn := Wait(None);
      }
    }

    /** The callback of the timeout in flight has returned. */
    method Finish()
      requires inFlight.Some?
      modifies this`free, this`inFlight
      ensures State() == EndFire(old(State()))
    {
      free, inFlight := free + [inFlight.value], None;
    }
  }

  // ----- watched descriptors

  datatype Event = Event(fd: int, callback: Callback, arg: nat, pollfd: nat)

  /** The descriptors in list order; the slot in the poll array is left out. */
  function Watched(events: seq<Event>): seq<(int, Callback, nat)> {
    seq(|events|, i requires 0 <= i < |events| => (events[i].fd, events[i].callback, events[i].arg))
  }

  class Poller {
    var events: seq<Event>
    var eventsLen: nat
    var fds: array<int>   // the fd members of the pollfd array

    /** The array is long enough, entry i of the list polls slot i, and a descriptor occurs once. */
    ghost predicate Valid()
      reads this, fds
    {
      && eventsLen == |events| <= fds.Length
      && (forall i :: 0 <= i < |events| ==> events[i].pollfd == i && fds[i] == events[i].fd)
      && (forall i, j :: 0 <= i < j < |events| ==> events[i].fd != events[j].fd)
    }

    constructor ()
      ensures Valid() && events == [] && fresh(fds)
    {
      events, eventsLen := [], 0;
      fds := new int[0];
    }

    method SetupFds()
      requires |events| <= fds.Length
      modifies this`events, fds
      ensures Watched(events) == old(Watched(events))
      ensures |events| == |old(events)|
      ensures forall i :: 0 <= i < |events| ==> events[i].pollfd == i && fds[i] == events[i].fd
    {
      var i := 0;
      while i < |events|
        invariant 0 <= i <= |events| == |old(events)|
        invariant forall j :: 0 <= j < |events| ==> events[j].(pollfd := old(events)[j].pollfd) == old(events)[j]
        invariant forall j :: 0 <= j < i ==> events[j].pollfd == j && fds[j] == events[j].fd
      {
        fds[i] := events[i].fd;
        events := events[i := events[i].(pollfd := i)];
        i := i + 1;
      }
    }

    /** eloop_event_add: a descriptor has one callback; a new one goes to the head of the list. */
    method AddEvent(fd: int, callback: Callback, arg: nat)
      requires Valid()
      modifies this, fds
      ensures Valid() && (fds == old(fds) || fresh(fds))
      ensures forall i :: 0 <= i < |old(events)| && old(events)[i].fd == fd ==>
        Watched(events) == old(Watched(events))[i := (fd, callback, arg)]
      ensures (forall i :: 0 <= i < |old(events)| ==> old(events)[i].fd != fd) ==>
        Watched(events) == [(fd, callback, arg)] + old(Watched(events))
    {
      var i := 0;
      while i < |events|
        invariant 0 <= i <= |events|
        invariant forall j :: 0 <= j < i ==> events[j].fd != fd
      {
        if events[i].fd == fd {
          events := events[i := events[i].(callback := callback, arg := arg)];
          return;
        }
        i := i + 1;
      }
      eventsLen := eventsLen + 1;
      if eventsLen > fds.Length {
        fds := new int[fds.Length + 5];
      }
      events := [Event(fd, callback, arg, 0)] + events;
      assert Watched(events) == [(fd, callback, arg)] + old(Watched(events));
      label before:
      SetupFds();
      assert forall j :: 0 <= j < |events| ==> events[j].fd == Watched(events)[j].0 == old@before(Watched(events))[j].0;
    }

    /** eloop_event_delete: the descriptor is no longer watched; the others keep their order. */
    method DeleteEvent(fd: int)
      requires Valid()
      modifies this, fds
      ensures Valid() && fds == old(fds)
      ensures forall i :: 0 <= i < |old(events)| && old(events)[i].fd == fd ==>
        Watched(events) == old(Watched(events))[..i] + old(Watched(events))[i + 1..]
      ensures (forall i :: 0 <= i < |old(events)| ==> old(events)[i].fd != fd) ==> events == old(events)
    {
      var i := 0;
      while i < |events|
        invariant 0 <= i <= |events| && events == old(events) && eventsLen == old(eventsLen)
        invariant forall j :: 0 <= j < |events| ==> fds[j] == events[j].fd
        invariant forall j :: 0 <= j < i ==> events[j].fd != fd
      {
        if events[i].fd == fd {
          events := events[..i] + events[i + 1..];
          assert Watched(events) == old(Watched(events))[..i] + old(Watched(events))[i + 1..];
          eventsLen := eventsLen - 1;
          label before:
          SetupFds();
          assert forall j :: 0 <= j < |events| ==> events[j].fd == Watched(events)[j].0 == old@before(Watched(events))[j].0;
          return;
        }
        i := i + 1;
      }
    }
  }
}
