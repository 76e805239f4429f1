/**
 Retransmission of DHCPv6 messages (the timing part of dhcp6_sendmessage in dhcpcd/dhcp6.c, after
 section 14 of RFC 3315).  Times are in microseconds.
 */
module Dhcp6Backoff {
  import opened Common

  const SECOND := 1_000_000

  /** Initial and largest retransmission time in seconds, and how often to send (0: for ever). */
  datatype Timing = Timing(irt: nat, mrt: nat, mrc: nat)

  const SOLICIT := Timing(1, 120, 0)
  const REQUEST := Timing(1, 30, 10)
  const CONFIRM := Timing(1, 4, 0)
  const RENEW := Timing(10, 600, 0)
  const INFORM := Timing(1, 120, 0)

  /** The timings of the phases that retransmit; rebinding uses RENEW's, or CONFIRM's for prefixes.
      dhcp6_startrelease sets one as well, but a release is sent without a callback, so nothing uses it. */
  predicate OfPhase(t: Timing) {
    t in {SOLICIT, REQUEST, CONFIRM, RENEW, INFORM}
  }

  /** The current time to wait, how often was sent, the initial delay still to come, and whether
      the link is point to point. */
  datatype Sender = Sender(rt: nat, rtc: nat, imd: nat, ptp: bool)

  /** What chance decides: thousandths from -100 to 99; whether a product that is a whole number of
      milliseconds comes out just below it in binary floating point; the initial delay; and whether the
      message, authenticated where it must be, leaves the socket. */
  datatype Draw = Draw(k: int, slip: bool, delay: uint32, sent: bool)

  predicate Drawn(d: Draw) {
    -100 <= d.k < 100
  }

  function Size(k: int): nat {
    if k < 0 then -k else k
  }

  // ----- one transmission

  /** The random part in milliseconds: the product cut to an integer. */
  function Jitter(ms: nat, d: Draw): nat {
    var p := ms * Size(d.k);
    if d.slip && p % 1000 == 0 && p > 0 then p / 1000 - 1 else p / 1000
  }

  function Spread(base: nat, from: nat, d: Draw): int {
    var j := 1000 * Jitter(from / 1000, d);
    if d.k < 0 then base - j else base + j
  }

  /** The random part is at most a tenth. */
  lemma JitterSmall(ms: nat, d: Draw)
    requires Drawn(d)
    ensures 10 * Jitter(ms, d) <= ms
  {
    var p := ms * Size(d.k);
    assert p <= ms * 100;
    assert 1000 * (p / 1000) <= p;
  }

  lemma SpreadSmall(base: nat, from: nat, d: Draw)
    requires Drawn(d)
    ensures 10 * base - from <= 10 * Spread(base, from, d) <= 10 * base + from
  {
    JitterSmall(from / 1000, d);
  }

  /** The next retransmission time; it is spread anew from the maximum when its whole seconds
      exceed that. */
  function NextRt(t: Timing, s: Sender, d: Draw): nat
    requires Drawn(d)
  {
    var prev := if s.rtc == 0 then t.irt * SECOND else s.rt;
    var base := if s.rtc == 0 then prev else 2 * s.rt;
    SpreadSmall(base, prev, d);
    var r := Spread(base, prev, d);
    SpreadSmall(t.mrt * SECOND, t.mrt * SECOND, d);
    if r / SECOND > t.mrt then Spread(t.mrt * SECOND, t.mrt * SECOND, d) else r
  }

  // ----- bounds

  /** Between nine tenths of the initial time and the larger of a tenth or a second over the maximum. */
  predicate InBounds(t: Timing, rt: nat) {
    && 9 * t.irt * SECOND <= 10 * rt
    && (10 * rt <= 11 * t.mrt * SECOND || rt < (t.mrt + 1) * SECOND)
  }

  /** Within a tenth of the maximum. */
  predicate AtCap(t: Timing, rt: nat) {
    9 * t.mrt * SECOND <= 10 * rt <= 11 * t.mrt * SECOND
  }

  /** Every retransmission time stays in bounds, and either almost doubles or is at the maximum. */
  lemma NextInBounds(t: Timing, s: Sender, d: Draw)
    requires Drawn(d) && t.irt <= t.mrt && (s.rtc == 0 || InBounds(t, s.rt))
    ensures InBounds(t, NextRt(t, s, d))
    ensures AtCap(t, NextRt(t, s, d)) || s.rtc == 0 || 10 * NextRt(t, s, d) >= 19 * s.rt
  {
    hide Spread;
    var prev := if s.rtc == 0 then t.irt * SECOND else s.rt;
    SpreadSmall(if s.rtc == 0 then prev else 2 * s.rt, prev, d);
    SpreadSmall(t.mrt * SECOND, t.mrt * SECOND, d);
  }

  /** Once at the maximum the time stays there, unless the maximum is a single second. */
  lemma StaysAtCap(t: Timing, s: Sender, d: Draw)
    requires Drawn(d) && t.mrt != 1 && s.rtc > 0 && AtCap(t, s.rt)
    ensures AtCap(t, NextRt(t, s, d))
  {
    hide Spread;
    SpreadSmall(2 * s.rt, s.rt, d);
    SpreadSmall(t.mrt * SECOND, t.mrt * SECOND, d);
  }

  /** ... and with a single second it need not. */
  lemma CapHoldsIff(t: Timing)
    ensures (forall s: Sender, d: Draw :: Drawn(d) && s.rtc > 0 && AtCap(t, s.rt) ==> AtCap(t, NextRt(t, s, d)))
      <==> t.mrt != 1
  {
    hide NextRt;
    if t.mrt != 1 {
      forall s: Sender, d: Draw | Drawn(d) && s.rtc > 0 && AtCap(t, s.rt) ensures AtCap(t, NextRt(t, s, d)) {
        StaysAtCap(t, s, d);
      }
    } else {
      var s, d := Sender(900_000, 1, 0, false), Draw(-100, false, 0, true);
      assert NextRt(t, s, d) == 1_710_000 by {
        SlipsPast(t);
      }
      assert Drawn(d) && AtCap(t, s.rt) && !AtCap(t, NextRt(t, s, d));
    }
  }

  lemma SlipsPast(t: Timing)
    requires t.mrt == 1
    ensures NextRt(t, Sender(900_000, 1, 0, false), Draw(-100, false, 0, true)) == 1_710_000
  {
    assert Jitter(900, Draw(-100, false, 0, true)) == 90;
  }

  // ----- whole runs

  datatype Next = Wait | Resend | GiveUp | Lost

  /** One call of the sending callback: the first, when an initial delay is set, only waits; a message
      that does not leave ends the retransmission. */
  function Send(t: Timing, s: Sender, d: Draw): (Sender, Next)
    requires Drawn(d)
  {
    if s.imd != 0 then (s.(rt := (if s.ptp then SECOND else 0) + d.delay % (s.imd * SECOND), imd := 0), Wait)
    else if !d.sent then (s.(rt := NextRt(t, s, d)), Lost)
    else
      (s.(rt := NextRt(t, s, d), rtc := s.rtc + 1),
       if t.mrc == 0 || s.rtc + 1 < t.mrc then Resend else GiveUp)
  }

  ghost predicate AllDrawn(ds: seq<Draw>) {
    forall i :: 0 <= i < |ds| ==> Drawn(ds[i])
  }

  /** The sender after these calls without a reply; nothing is called any more after giving up or a
      message lost. */
  ghost function Run(t: Timing, s: Sender, ds: seq<Draw>): (Sender, bool)
    requires AllDrawn(ds)
  {
    if ds == [] then (s, false)
    else
      var (s1, over) := Run(t, s, ds[..|ds| - 1]);
      if over then (s1, true)
      else
        var (s2, next) := Send(t, s1, ds[|ds| - 1]);
        (s2, next == GiveUp || next == Lost)
  }

  /** Calls that only waited. */
  function Waits(s: Sender): nat {
    if s.imd != 0 then 1 else 0
  }

  /** The first call, after the initial delay, whose message does not leave; the length without one. */
  function FirstLost(w: nat, ds: seq<Draw>): (f: nat)
    ensures f <= |ds| && (f < |ds| ==> w <= f && !ds[f].sent)
    ensures forall i :: w <= i < f ==> ds[i].sent
  {
    if ds == [] then 0
    else
      var n := |ds| - 1;
      var f := FirstLost(w, ds[..n]);
      if f < n then f else if w <= n && !ds[n].sent then n else n + 1
  }

  /** All mrc messages left before any was lost. */
  predicate SentAll(t: Timing, s: Sender, ds: seq<Draw>) {
    t.mrc != 0 && FirstLost(Waits(s), ds) >= t.mrc + Waits(s)
  }

  /** From a fresh start each call, but for an initial delay, sends one message until one is lost or mrc
      are sent: the client gives up after exactly mrc, and never if mrc = 0. */
  lemma {:induction false} SendsExactly(t: Timing, s: Sender, ds: seq<Draw>)
    requires AllDrawn(ds) && s.rtc == 0
    ensures var (r, over) := Run(t, s, ds); var f := FirstLost(Waits(s), ds);
      && (over <==> SentAll(t, s, ds) || f < |ds|)
      && r.rtc == (if SentAll(t, s, ds) then t.mrc else Max(0, f - Waits(s)))
      && (ds != [] ==> r.imd == 0) && (ds == [] ==> r == s)
  {
    hide NextRt;
    if ds != [] {
      SendsExactly(t, s, ds[..|ds| - 1]);
    }
  }

  /** REQUEST ends after ten messages, or after the first that is lost. */
  lemma RequestSendsTen(s: Sender, ds: seq<Draw>)
    requires AllDrawn(ds) && s.rtc == 0 && Run(REQUEST, s, ds).1
    ensures var f := FirstLost(Waits(s), ds);
      Run(REQUEST, s, ds).0.rtc == if f >= 10 + Waits(s) then 10 else f - Waits(s)
    ensures Run(REQUEST, s, ds).0.rtc <= 10
  {
    hide Run, FirstLost;
    SendsExactly(REQUEST, s, ds);
  }

  /** In every run, every time waited after a transmission is in bounds. */
  lemma {:induction false} RunInBounds(t: Timing, s: Sender, ds: seq<Draw>)
    requires AllDrawn(ds) && s.rtc == 0 && t.irt <= t.mrt
    ensures var (r, over) := Run(t, s, ds); r.rtc > 0 ==> InBounds(t, r.rt)
  {
    hide NextRt, InBounds;
    if ds != [] {
      var before := ds[..|ds| - 1];
      RunInBounds(t, s, before);
      SendsExactly(t, s, before);
      var (s1, over) := Run(t, s, before);
      if !over && s1.imd == 0 {
        NextInBounds(t, s1, ds[|ds| - 1]);
      }
    }
  }

  /** Nine tenths of the initial time, times 1.9 for each transmission after the first, rounded down. */
  function Least(irt: nat, n: nat): nat {
    if n == 0 then irt * 900_000 else Least(irt, n - 1) * 19 / 10
  }

  /** Until the maximum is reached the time grows at least that fast. */
  lemma {:induction false} RunGrows(t: Timing, s: Sender, ds: seq<Draw>)
    requires AllDrawn(ds) && s.rtc == 0 && t.irt <= t.mrt && t.mrt != 1
    ensures var (r, over) := Run(t, s, ds); r.rtc > 0 ==> AtCap(t, r.rt) || r.rt >= Least(t.irt, r.rtc - 1)
  {
    hide NextRt, InBounds, AtCap;
    if ds != [] {
      var before, d := ds[..|ds| - 1], ds[|ds| - 1];
      RunGrows(t, s, before);
      RunInBounds(t, s, before);
      RunInBounds(t, s, ds);
      SendsExactly(t, s, before);
      var (s1, over) := Run(t, s, before);
      if !over && s1.imd == 0 {
        Grows(t, s1, d);
        if s1.rtc > 0 {
          LeastMonotone(t.irt, s1.rtc - 1, s1.rtc);
        }
      }
    }
  }

  lemma Grows(t: Timing, s: Sender, d: Draw)
    requires Drawn(d) && t.irt <= t.mrt && t.mrt != 1
    requires s.rtc > 0 ==> InBounds(t, s.rt) && (AtCap(t, s.rt) || s.rt >= Least(t.irt, s.rtc - 1))
    ensures AtCap(t, NextRt(t, s, d)) || NextRt(t, s, d) >= Least(t.irt, s.rtc)
  {
    hide NextRt;
    NextInBounds(t, s, d);
    if s.rtc > 0 && AtCap(t, s.rt) {
      StaysAtCap(t, s, d);
    }
  }

  lemma LeastStep(irt: nat, n: nat)
    ensures Least(irt, n + 1) == Least(irt, n) * 19 / 10 && Least(irt, 0) == irt * 900_000
  {
  }

  lemma LeastGrows()
    ensures Least(1, 8) > 132 * SECOND && Least(10, 8) > 660 * SECOND
  {
    hide Least;
    LeastStep(1, 0);
    LeastStep(10, 0);
    for n := 0 to 8
      invariant Least(1, n) >= [900, 1710, 3249, 6173, 11728, 22283, 42337, 80440, 152836][n] * 1000
      invariant Least(10, n) >= 10 * Least(1, n)
    {
      LeastStep(1, n);
      LeastStep(10, n);
    }
  }

  lemma {:induction false} LeastMonotone(irt: nat, m: nat, n: nat)
    requires m <= n
    ensures Least(irt, m) <= Least(irt, n)
  {
    if m < n {
      LeastMonotone(irt, m, n - 1);
    }
  }

  /** In every phase, from the ninth transmission on the client waits the maximum, give or take a
      tenth, for ever. */
  lemma NinthAtCap(t: Timing, s: Sender, ds: seq<Draw>)
    requires AllDrawn(ds) && s.rtc == 0 && OfPhase(t)
    ensures var (r, over) := Run(t, s, ds); r.rtc >= 9 ==> AtCap(t, r.rt)
  {
    hide Run, Least;
    var (r, over) := Run(t, s, ds);
    if r.rtc >= 9 {
      RunGrows(t, s, ds);
      RunInBounds(t, s, ds);
      LeastGrows();
      LeastMonotone(t.irt, 8, r.rtc - 1);
    }
  }

  // ----- the same on seconds and microseconds

  lemma WholeSeconds(sec: nat, usec: nat)
    requires usec < SECOND
    ensures (sec * SECOND + usec) / SECOND == sec
  {
  }

  class Retransmitter {
    var sec: nat
    var usec: nat
    var rtc: nat
    var imd: nat
    const ptp: bool
    const timing: Timing

    ghost predicate Valid()
      reads this
    {
      usec < SECOND
    }

    ghost function View(): Sender
      reads this
    {
      Sender(sec * SECOND + usec, rtc, imd, ptp)
    }

    /** timernorm. */
    method Normalise()
      modifies this`sec, this`usec
      ensures Valid() && View() == old(View())
    {
      while usec >= SECOND
        invariant View() == old(View())
      {
        sec := sec + 1;
        usec := usec - SECOND;
      }
    }

    /** Adds or takes away the random part of a time of so many milliseconds, as timeradd and timersub
        do with a carry or borrow of one second. */
    method AddJitter(ms: nat, d: Draw)
      requires Valid() && Drawn(d) && ms * 1000 <= sec * SECOND + usec
      modifies this`sec, this`usec
      ensures Valid()
      ensures sec * SECOND + usec == old(sec * SECOND + usec) + (if d.k < 0 then -1000 else 1000) * Jitter(ms, d)
    {
      hide Jitter;
      JitterSmall(ms, d);
      var j := Jitter(ms, d);
      var jsec := j / 1000;
      var jusec := (j - jsec * 1000) * 1000;
      if d.k < 0 {
        var s, u := sec - jsec, usec - jusec;
        if u < 0 {
          s, u := s - 1, u + SECOND;
        }
        sec, usec := s, u;
      } else {
        sec, usec := sec + jsec, usec + jusec;
        if usec >= SECOND {
          sec, usec := sec + 1, usec - SECOND;
        }
      }
    }

    /** The timing of dhcp6_sendmessage called from its own timer. */
    method SendMessage(d: Draw) returns (next: Next)
      requires Valid() && Drawn(d)
      modifies this
      ensures Valid() && (View(), next) == Send(timing, old(View()), d)
    {
      hide Jitter;
      if imd != 0 {
        sec := if ptp then 1 else 0;
        usec := d.delay % (imd * SECOND);
        Normalise();
        imd := 0;
        return Wait;
      }
      ComputeRt(d);
      if !d.sent {
        return Lost;
      }
      rtc := rtc + 1;
      next := if timing.mrc == 0 || rtc < timing.mrc then Resend else GiveUp;
    }

    /** The time before the random part, and the time that part is taken of, in milliseconds. */
    method Base() returns (ms: nat)
      requires Valid()
      modifies this`sec, this`usec
      ensures Valid()
      ensures var prev := if rtc == 0 then timing.irt * SECOND else old(sec * SECOND + usec);
        ms == prev / 1000 && sec * SECOND + usec == if rtc == 0 then prev else 2 * prev
    {
      if rtc == 0 {
        sec, usec := timing.irt, 0;
        ms := sec * 1000;
      } else {
        ms := sec * 1000 + usec / 1000;
        sec, usec := 2 * sec, 2 * usec;
        if usec >= SECOND {
          sec, usec := sec + 1, usec - SECOND;
        }
      }
    }

    method ComputeRt(d: Draw)
      requires Valid() && Drawn(d)
      modifies this`sec, this`usec
      ensures Valid() && sec * SECOND + usec == NextRt(timing, old(View()), d)
    {
      hide Jitter;
      var ms := Base();
      AddJitter(ms, d);
      WholeSeconds(sec, usec);
      if sec > timing.mrt {
        sec, usec := timing.mrt, 0;
        AddJitter(timing.mrt * 1000, d);
      }
    }
  }
}
