/**
 Site level aggregation ids for delegated prefixes (dhcp6_findsla and dhcp6_delegate_addr in
 dhcpcd/dhcp6.c): each interface without a configured id gets the lowest one no interface has.
 */
module Sla {
  import opened Common

  const LAST: uint32 := 0xffff_ffff

  /** The id the state of each interface holds, if it has one. */
  type Slas = seq<Option<uint32>>

  predicate InUse(slas: Slas, v: uint32) {
    Some(v) in slas
  }

  /** The lowest id from v on that is not in use; none when only the last value is left. */
  function LowestFrom(slas: Slas, v: uint32): (r: Option<uint32>)
    ensures r.Some? ==> v <= r.value < LAST && !InUse(slas, r.value)
    ensures forall u: uint32 :: v <= u < LAST && (r.Some? ==> u < r.value) ==> InUse(slas, u)
    decreases LAST - v
  {
    if v == LAST then None else if !InUse(slas, v) then Some(v) else LowestFrom(slas, v + 1)
  }

  /** dhcp6_findsla: for every candidate a walk over the interfaces. */
  method FindSla(slas: Slas) returns (r: Option<uint32>)
    ensures r.Some? ==> r.value < LAST && !InUse(slas, r.value)
    ensures forall u: uint32 :: u < LAST && (r.Some? ==> u < r.value) ==> InUse(slas, u)
    ensures r == LowestFrom(slas, 0)
  {
    var sla: uint32 := 0;
    while sla < LAST
      invariant LowestFrom(slas, 0) == LowestFrom(slas, sla)
      invariant forall u: uint32 :: u < sla ==> InUse(slas, u)
      decreases LAST - sla
    {
      var i := 0;
      while i < |slas| && slas[i] != Some(sla)
        invariant 0 <= i <= |slas| && forall j :: 0 <= j < i ==> slas[j] != Some(sla)
      {
        i := i + 1;
      }
      if i == |slas| {
        return Some(sla);
      }
      sla := sla + 1;
    }
    r := None;
  }

  // ----- it never runs out

  function Upto(n: nat): (r: set<Option<uint32>>)
    requires n <= LAST
    ensures |r| == n && forall x :: x in r <==> x.Some? && x.value < n
  {
    if n == 0 then {} else Upto(n - 1) + {Some(n - 1)}
  }

  function Elements(slas: Slas): (r: set<Option<uint32>>)
    ensures forall x :: x in slas ==> x in r
    ensures |r| <= |slas|
  {
    if slas == [] then {} else {slas[0]} + Elements(slas[1..])
  }

  lemma SubsetSize(a: set<Option<uint32>>, b: set<Option<uint32>>)
    requires a <= b
    ensures |a| <= |b|
  {
    assert b == a + (b - a);
  }

  /** With fewer than 2^32 - 1 interfaces an id is always found. */
  lemma AlwaysFound(slas: Slas)
    requires |slas| < LAST
    ensures LowestFrom(slas, 0).Some?
  {
    if LowestFrom(slas, 0) == None {
      forall x | x in Upto(LAST) ensures x in Elements(slas) {
        assert InUse(slas, x.value);
      }
      SubsetSize(Upto(LAST), Elements(slas));
    }
  }

  // ----- delegation

  /** The part of dhcp6_delegate_addr that chooses the id for interface i: the configured one, or the
      interface's own, made up on first use. */
  function Delegate(slas: Slas, i: nat, configured: Option<uint32>): (Slas, Option<uint32>)
    requires i < |slas|
  {
    if configured.Some? then (slas, configured)
    else if slas[i].Some? then (slas, slas[i])
    else
      var v := LowestFrom(slas, 0);
      (slas[i := v], v)
  }

  datatype Event = Delegated(i: nat, configured: Option<uint32>) | Forgotten(i: nat)

  /** Delegating to an interface, or freeing its state. */
  function Step(slas: Slas, e: Event): (r: Slas)
    requires e.i < |slas|
    ensures |r| == |slas|
  {
    match e
    case Delegated(i, configured) => Delegate(slas, i, configured).0
    case Forgotten(i) => slas[i := None]
  }

  ghost predicate Distinct(slas: Slas) {
    forall i, j :: 0 <= i < j < |slas| && slas[i].Some? ==> slas[i] != slas[j]
  }

  function RunOf(slas: Slas, es: seq<Event>): (r: Slas)
    requires forall k :: 0 <= k < |es| ==> es[k].i < |slas|
    ensures |r| == |slas|
    decreases |es|
  {
    if es == [] then slas else RunOf(Step(slas, es[0]), es[1..])
  }

  lemma StepKeepsDistinct(slas: Slas, e: Event)
    requires e.i < |slas| && Distinct(slas)
    ensures Distinct(Step(slas, e))
  {
    hide LowestFrom;
    var v := LowestFrom(slas, 0);
    assert v.Some? ==> forall j :: 0 <= j < |slas| ==> slas[j] != v;
  }

  /** Whatever is delegated or freed in whatever order, no two interfaces share an id made up for
      them. */
  lemma {:induction false} AlwaysDistinct(slas: Slas, es: seq<Event>)
    requires Distinct(slas) && forall k :: 0 <= k < |es| ==> es[k].i < |slas|
    ensures Distinct(RunOf(slas, es))
    decreases |es|
  {
    if es != [] {
      StepKeepsDistinct(slas, es[0]);
      AlwaysDistinct(Step(slas, es[0]), es[1..]);
    }
  }

  /** An interface keeps its id for as long as its state lives. */
  lemma {:induction false} IdIsKept(slas: Slas, es: seq<Event>, i: nat)
    requires (forall k :: 0 <= k < |es| ==> es[k].i < |slas|) && i < |slas| && slas[i].Some?
    requires forall k :: 0 <= k < |es| ==> es[k] != Forgotten(i)
    ensures RunOf(slas, es)[i] == slas[i]
    decreases |es|
  {
    hide LowestFrom;
    if es != [] {
      assert es[0] != Forgotten(i);
      IdIsKept(Step(slas, es[0]), es[1..], i);
    }
  }

  /** With none freed, the ids made up are 0, 1, 2, ... without a gap. */
  ghost predicate Dense(slas: Slas, n: nat) {
    n <= LAST && forall v: uint32 :: InUse(slas, v) <==> v < n
  }

  lemma DelegateIsNext(slas: Slas, i: nat, n: uint32)
    requires i < |slas| && Dense(slas, n) && |slas| < LAST && slas[i] == None
    ensures Delegate(slas, i, None).1 == Some(n) && Dense(Delegate(slas, i, None).0, n + 1)
  {
    hide LowestFrom;
    AlwaysFound(slas);
    var v := LowestFrom(slas, 0);
    assert n < v.value ==> InUse(slas, n);
    var r := slas[i := v];
    assert r[i] == v;
    forall u: uint32 ensures InUse(r, u) <==> u < n + 1 {
      if InUse(slas, u) {
        var j :| 0 <= j < |slas| && slas[j] == Some(u);
        assert r[j] == Some(u);
      }
    }
  }

  // ----- configured ids

  /** An id made up is a given one if and only if that is the least no interface has made up: whether
      it is configured somewhere does not matter. */
  lemma MadeUpIff(slas: Slas, i: nat, c: uint32)
    requires i < |slas| && slas[i] == None
    ensures Delegate(slas, i, None).1 == Some(c) <==>
      c < LAST && !InUse(slas, c) && forall u: uint32 :: u < c ==> InUse(slas, u)
  {
    hide LowestFrom;
    var r := LowestFrom(slas, 0);
    assert r.Some? && r.value < c ==> !InUse(slas, r.value);
    assert r.Some? && c < r.value ==> InUse(slas, c);
    assert r == None && c < LAST ==> InUse(slas, c);
  }

  /** The ids made up, and those configured ones in force on each interface. */
  datatype Site = Site(slas: Slas, configured: seq<set<uint32>>)

  ghost predicate Sized(t: Site) {
    |t.configured| == |t.slas|
  }

  function SiteStep(t: Site, e: Event): (r: Site)
    requires |t.configured| == |t.slas| && e.i < |t.slas|
    ensures |r.configured| == |r.slas| == |t.slas|
  {
    match e
    case Delegated(i, configured) =>
      var slas := Delegate(t.slas, i, configured).0;
      Site(slas, if configured.Some? then t.configured[i := t.configured[i] + {configured.value}] else t.configured)
    case Forgotten(i) => Site(t.slas[i := None], t.configured[i := {}])
  }

  /** The ids in force on an interface. */
  function Ids(t: Site, i: nat): set<uint32>
    requires |t.configured| == |t.slas| && i < |t.slas|
  {
    t.configured[i] + (if t.slas[i].Some? then {t.slas[i].value} else {})
  }

  /** No id is in force on two interfaces. */
  ghost predicate AllDistinct(t: Site)
    requires Sized(t)
  {
    forall i, j :: 0 <= i < |t.slas| && 0 <= j < |t.slas| && i != j ==> Ids(t, i) !! Ids(t, j)
  }

  /** The step brings in an id another interface has: a configured one in force elsewhere, or a made-up
      one that is configured elsewhere. */
  ghost predicate Collides(t: Site, e: Event)
    requires Sized(t) && e.i < |t.slas|
  {
    match e
    case Delegated(i, Some(c)) => exists j :: 0 <= j < |t.slas| && j != i && c in Ids(t, j)
    case Delegated(i, None) =>
      && t.slas[i] == None
      && exists j :: 0 <= j < |t.slas| && j != i && LeastConfigured(t, j)
    case Forgotten(i) => false
  }

  /** The least id no interface has made up is configured here. */
  ghost predicate LeastConfigured(t: Site, j: nat)
    requires Sized(t) && j < |t.slas|
  {
    exists c :: c in t.configured[j] && c < LAST && !InUse(t.slas, c) && forall u: uint32 :: u < c ==> InUse(t.slas, u)
  }

  lemma MadeUpCollides(t: Site, i: nat)
    requires Sized(t) && i < |t.slas| && t.slas[i] == None
    ensures var v := LowestFrom(t.slas, 0);
      Collides(t, Delegated(i, None)) <==> v.Some? && exists j :: 0 <= j < |t.slas| && j != i && v.value in Ids(t, j)
  {
    hide LowestFrom, InUse;
    var v := LowestFrom(t.slas, 0);
    forall j | 0 <= j < |t.slas| ensures LeastConfigured(t, j) <==> v.Some? && v.value in t.configured[j] {
      if c :| c in t.configured[j] && c < LAST && !InUse(t.slas, c) && forall u: uint32 :: u < c ==> InUse(t.slas, u) {
        MadeUpIff(t.slas, i, c);
      }
      if v.Some? {
        MadeUpIff(t.slas, i, v.value);
      }
    }
    if v.Some? {
      forall j | 0 <= j < |t.slas| ensures v.value in Ids(t, j) <==> LeastConfigured(t, j) {
        FreeIsUnused(t.slas, v.value, j);
      }
    }
  }

  lemma FreeIsUnused(slas: Slas, v: uint32, j: nat)
    requires !InUse(slas, v) && j < |slas|
    ensures slas[j] != Some(v)
  {
  }

  /** One interface gains ids: distinctness survives exactly when no other interface has them. */
  lemma GainDistinct(t: Site, r: Site, i: nat, c: uint32)
    requires Sized(t) && Sized(r) && |r.slas| == |t.slas| && i < |t.slas| && AllDistinct(t)
    requires Ids(r, i) == Ids(t, i) + {c}
    requires forall j :: 0 <= j < |t.slas| && j != i ==> Ids(r, j) == Ids(t, j)
    ensures AllDistinct(r) <==> !exists j :: 0 <= j < |t.slas| && j != i && c in Ids(t, j)
  {
    hide Ids;
    if j :| 0 <= j < |t.slas| && j != i && c in Ids(t, j) {
      assert c in Ids(r, i) && c in Ids(r, j);
    }
  }

  /** A step keeps all ids in force distinct if and only if it does not collide. */
  lemma StepDistinctIff(t: Site, e: Event)
    requires Sized(t) && e.i < |t.slas| && AllDistinct(t)
    ensures AllDistinct(SiteStep(t, e)) <==> !Collides(t, e)
  {
    hide LowestFrom, InUse, LeastConfigured;
    var r := SiteStep(t, e);
    match e
    case Delegated(i, Some(c)) =>
      GainDistinct(t, r, i, c);
    case Delegated(i, None) =>
      if t.slas[i].Some? {
        assert r == t;
      } else {
        MadeUpCollides(t, i);
        var v := LowestFrom(t.slas, 0);
        if v.Some? {
          GainDistinct(t, r, i, v.value);
        } else {
          assert r.slas == t.slas;
        }
      }
    case Forgotten(i) =>
      assert forall j :: 0 <= j < |t.slas| ==> Ids(r, j) <= Ids(t, j);
  }

  /** All ids are distinct at every point of the run. */
  ghost predicate DistinctThroughout(t: Site, es: seq<Event>)
    requires Sized(t) && forall k :: 0 <= k < |es| ==> es[k].i < |t.slas|
    decreases |es|
  {
    AllDistinct(t) && (es == [] || DistinctThroughout(SiteStep(t, es[0]), es[1..]))
  }

  ghost predicate NoCollision(t: Site, es: seq<Event>)
    requires Sized(t) && forall k :: 0 <= k < |es| ==> es[k].i < |t.slas|
    decreases |es|
  {
    es == [] || (!Collides(t, es[0]) && NoCollision(SiteStep(t, es[0]), es[1..]))
  }

  /** Over every run all ids in force, configured and made up, stay distinct if and only if no step
      collides. */
  lemma {:induction false} DistinctIffNoCollision(t: Site, es: seq<Event>)
    requires Sized(t) && AllDistinct(t) && forall k :: 0 <= k < |es| ==> es[k].i < |t.slas|
    ensures DistinctThroughout(t, es) <==> NoCollision(t, es)
    decreases |es|
  {
    hide AllDistinct, Collides;
    if es != [] {
      StepDistinctIff(t, es[0]);
      if AllDistinct(SiteStep(t, es[0])) {
        DistinctIffNoCollision(SiteStep(t, es[0]), es[1..]);
      }
    }
  }

  /** A configured id is not recorded: whichever one the made-up ids come to next is handed out again,
      to any interface that has none. */
  lemma ConfiguredMayCollide(slas: Slas, i: nat, j: nat, n: uint32)
    requires i < |slas| && j < |slas| && i != j && slas[j] == None && Dense(slas, n) && |slas| < LAST
    ensures var (s1, a) := Delegate(slas, i, Some(n)); a == Some(n) && Delegate(s1, j, None).1 == Some(n)
  {
    hide LowestFrom;
    DelegateIsNext(slas, j, n);
  }

  class Interfaces {
    var slas: Slas

    method DelegateTo(i: nat, configured: Option<uint32>) returns (r: Option<uint32>)
      requires i < |slas|
      modifies this
      ensures (slas, r) == Delegate(old(slas), i, configured)
    {
      hide LowestFrom;
      if configured.Some? {
        return configured;
      }
      if slas[i] == None {
        var v := FindSla(slas);
        slas := slas[i := v];
      }
      r := slas[i];
    }
  }
}
