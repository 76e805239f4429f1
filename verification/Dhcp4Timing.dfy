/** The numbers of the DHCPv4 client: lease times, retransmission intervals and NAK backoff. */
module Dhcp4Timing {
  import opened Common
  import opened Dhcp4

  /** A finite lease lasts at least twenty seconds, and both T1 and T2 lie strictly inside it. */
  lemma LeaseTimes(l: Lease)
    requires l.leaseTime != INFINITE
    ensures var b := Clamp(l);
      && b.leaseTime == Max(MIN_LEASE, l.leaseTime) && b.leaseTime != INFINITE
      && 0 < b.rebindTime < b.leaseTime
      && 0 < b.renewalTime < b.leaseTime
  {
  }

  /** What the server says is kept where it makes sense: T2 below the lease, T1 not above T2. */
  lemma ServerTimesKept(l: Lease)
    requires l.leaseTime != INFINITE
    ensures var b := Clamp(l);
      && (0 < l.rebindTime < b.leaseTime ==> b.rebindTime == l.rebindTime)
      && (0 < l.renewalTime <= b.rebindTime ==> b.renewalTime == l.renewalTime)
  {
  }

  /** T1 ends up after T2 exactly when the server's T2 is below half the lease and its T1 is absent
      or above that T2: the fallback for T1 ignores T2. */
  lemma RenewAfterRebind(l: Lease)
    requires l.leaseTime != INFINITE
    ensures var b := Clamp(l);
      b.renewalTime > b.rebindTime <==>
        0 < l.rebindTime < b.leaseTime / 2 && (l.renewalTime == 0 || l.renewalTime > l.rebindTime)
  {
    var lease := if l.leaseTime < MIN_LEASE then MIN_LEASE else l.leaseTime;
    assert lease / 2 <= lease * 7 / 8;
  }

  function Pow2(n: nat): nat {
    if n == 0 then 1 else 2 * Pow2(n - 1)
  }

  /** The interval with which the n-th transmission since the last reset is followed. */
  function Interval(n: nat): nat {
    if n == 0 then 0 else NextInterval(Interval(n - 1))
  }

  lemma {:induction false} Pow2Grows(m: nat, n: nat)
    requires m <= n
    ensures Pow2(m) <= Pow2(n)
    decreases n
  {
    if m < n {
      Pow2Grows(m, n - 1);
    }
  }

  /** Four seconds, doubling up to sixty-four (section 4.1 of RFC 2131). */
  lemma {:induction false} IntervalDoubles(n: nat)
    requires 0 < n
    ensures Interval(n) == Min(4 * Pow2(n - 1), 64)
  {
    if n == 1 {
      assert Interval(0) == 0;
    } else {
      IntervalDoubles(n - 1);
      if n >= 6 {
        Pow2Grows(4, n - 2);
      }
    }
  }

  /** The wait is the interval, give or take a second. */
  lemma DelayWindow(interval: nat, random: nat)
    requires 0 < interval
    ensures (interval - 1) * SECOND <= RetryDelay(interval, random) < (interval + 1) * SECOND
  {
  }

  /** The backoff after n NAKs in a row. */
  function Nakoff(n: nat): nat {
    if n == 0 then 0 else NextNakoff(Nakoff(n - 1))
  }

  /** No wait, one second, then doubling up to a minute. */
  lemma {:induction false} NakoffDoubles(n: nat)
    requires 0 < n
    ensures Nakoff(n) == Min(Pow2(n - 1), NAKOFF_MAX)
  {
    if n == 1 {
      assert Nakoff(0) == 0;
    } else {
      NakoffDoubles(n - 1);
      Pow2Grows(0, n - 2);
      if n >= 8 {
        Pow2Grows(6, n - 2);
      }
      assert Pow2(5) == 32;
      if n <= 7 {
        Pow2Grows(n - 2, 5);
      }
    }
  }
}
