/**
 Messages whose options continue in the boot file and server name fields (get_option in
 dhcpcd/dhcp.c): what those areas add to an answer, when the walk never ends, and what saving and
 reloading a lease does to such a message.
 */
module Overload {
  import opened Common
  import opened Options

  // ----- what was gathered before does not steer the walk

  /** An answer with `acc` in front of what was gathered. */
  function With(acc: Option<seq<byte>>, r: Lookup): Lookup {
    match r
    case Found(x) => Answer(Append(acc, Some(x)))
    case Missing => Answer(acc)
    case Malformed(x) => Malformed(Append(acc, x))
    case Elsewhere(over, x) => Elsewhere(over, Append(acc, x))
    case _ => r
  }

  lemma ExtendAppend(acc: Option<seq<byte>>, x: Option<seq<byte>>, more: seq<byte>)
    ensures Extend(Append(acc, x), more) == Append(acc, Extend(x, more))
    ensures With(acc, Answer(x)) == Answer(Append(acc, x)) && Append(acc, None) == acc
  {
    if acc.Some? && x.Some? {
      assert acc.value + x.value + more == acc.value + (x.value + more);
    } else if acc.Some? {
      assert acc.value + more == acc.value + ([] + more);
    } else if x.Some? {
      assert [] + x.value + more == [] + (x.value + more);
    } else {
      assert [] + ([] + more) == [] + more;
    }
  }

  lemma {:induction false} ScanWith(m: seq<byte>, opt: byte, p: nat, over: byte, acc: Option<seq<byte>>, x: Option<seq<byte>>)
    requires |m| >= 2
    ensures Scan(m, opt, p, over, Append(acc, x)) == With(acc, Scan(m, opt, p, over, x))
    decreases |m| - p
  {
    hide Scan, Append, Extend, With, Answer;
    ScanStep(m, opt, p, over, Append(acc, x));
    ScanStep(m, opt, p, over, x);
    ExtendAppend(acc, x, []);
    WithOthers(acc, over, x);
    if p < |m| - 2 && (m[p] == opt ==> p + 1 + m[p + 1] <= |m| - 2) {
      var l := m[p + 1];
      var d := m[p + 2..p + 2 + if m[p] == opt then l else 0];
      ExtendAppend(acc, x, d);
      var x' := if m[p] == opt then Extend(x, d) else x;
      WithOthers(acc, over, x');
      ExtendAppend(acc, x', []);
      if m[p] == PAD {
        ScanWith(m, opt, p + 1, over, acc, x');
      } else if m[p] != END {
        ScanWith(m, opt, p + 2 + l, if m[p] == OVERLOADED && over == 0 then m[p + 2] else over, acc, x');
      }
    }
  }

  lemma WithOthers(acc: Option<seq<byte>>, over: byte, x: Option<seq<byte>>)
    ensures With(acc, Malformed(x)) == Malformed(Append(acc, x)) && With(acc, Elsewhere(over, x)) == Elsewhere(over, Append(acc, x))
  {
  }

  lemma {:induction false} HopsWith(h: Header, opt: byte, acc: Option<seq<byte>>, r: Lookup, n: nat)
    ensures Hops(h, opt, With(acc, r), n) == With(acc, Hops(h, opt, r, n))
    decreases n
  {
    hide Scan, Append;
    if n > 0 && r.Elsewhere? && r.over % 4 != 0 {
      var a := Area(h, r.over);
      var skipped: nat := a[0];
      ScanWith(a, opt, 1 + skipped, Left(r.over), acc, r.acc);
      HopsWith(h, opt, acc, Hop(h, opt, r.over, r.acc), n - 1);
    }
  }

  // ----- walks that never end

  /** The overload byte with which the area this one asks for ends, if it asks for another. */
  function NextOver(h: Header, opt: byte, over: byte): Option<byte>
    requires over % 4 != 0
  {
    var r := Hop(h, opt, over, None);
    if r.Elsewhere? then Some(r.over) else None
  }

  /** An overload byte is read only while it is zero. */
  lemma {:induction false} ScanOver(m: seq<byte>, opt: byte, p: nat, over: byte, acc: Option<seq<byte>>)
    requires |m| >= 2
    ensures var r := Scan(m, opt, p, over, acc); r.Elsewhere? ==> r.over % 4 != 0 && (over != 0 ==> r.over == over)
    decreases |m| - p
  {
    hide Scan, Extend;
    ScanStep(m, opt, p, over, acc);
    if p < |m| - 2 && (m[p] == opt ==> p + 1 + m[p + 1] <= |m| - 2) {
      var l := m[p + 1];
      var acc' := if m[p] == opt then Extend(acc, m[p + 2..p + 2 + l]) else acc;
      if m[p] == PAD {
        ScanOver(m, opt, p + 1, over, acc');
      } else if m[p] != END {
        ScanOver(m, opt, p + 2 + l, if m[p] == OVERLOADED && over == 0 then m[p + 2] else over, acc');
      }
    }
  }

  lemma NextOverIs(h: Header, opt: byte, over: byte)
    requires over % 4 != 0
    ensures var n := NextOver(h, opt, over);
      && (n.Some? ==> n.value % 4 != 0)
      && (over != 1 && over != 2 && n.Some? ==> over % 4 == 3 && n.value == over - 1)
  {
    hide Scan;
    var a := Area(h, over);
    var skipped: nat := a[0];
    ScanOver(a, opt, 1 + skipped, Left(over), None);
  }

  /** The overload bytes after n more areas. */
  function Overs(h: Header, opt: byte, over: byte, n: nat): (r: Option<byte>)
    requires over % 4 != 0
    ensures r.Some? ==> r.value % 4 != 0
    decreases n
  {
    if n == 0 then Some(over)
    else
      var o := NextOver(h, opt, over);
      NextOverIs(h, opt, over);
      if o == None then None else Overs(h, opt, o.value, n - 1)
  }

  lemma {:induction false} HopsIsOvers(h: Header, opt: byte, over: byte, acc: Option<seq<byte>>, n: nat)
    requires over % 4 != 0
    ensures var r := Hops(h, opt, Elsewhere(over, acc), n);
      (r.Elsewhere? <==> Overs(h, opt, over, n).Some?) && (r.Elsewhere? ==> Overs(h, opt, over, n) == Some(r.over))
    decreases n
  {
    hide Scan, Append;
    if n > 0 {
      var a := Area(h, over);
      var skipped: nat := a[0];
      ScanWith(a, opt, 1 + skipped, Left(over), acc, None);
      assert Append(acc, None) == acc by {
        ExtendAppend(acc, None, []);
      }
      NextOverIs(h, opt, over);
      var r := Hop(h, opt, over, acc);
      if r.Elsewhere? {
        HopsIsOvers(h, opt, r.over, r.acc, n - 1);
      }
    }
  }

  /** From 2 the walk goes on for ever: the server name field asks for itself, or for the file field
      which asks for either again. */
  predicate NameStuck(h: Header, opt: byte) {
    var (f, g, t) := (NextOver(h, opt, 1), NextOver(h, opt, 2), NextOver(h, opt, 3));
    || g == Some(2) || (g == Some(3) && t.Some?)
    || (g == Some(1) && (f == Some(1) || f == Some(2) || (f == Some(3) && t.Some?)))
  }

  /** With this overload byte the walk over the two fields never ends. */
  predicate Stuck(h: Header, opt: byte, over: byte) {
    var (f, t) := (NextOver(h, opt, 1), NextOver(h, opt, 3));
    if over == 1 then f == Some(1) || ((f == Some(2) || (f == Some(3) && t.Some?)) && NameStuck(h, opt))
    else if over == 2 then NameStuck(h, opt)
    else over == 3 && t.Some? && NameStuck(h, opt)
  }

  lemma StuckStays(h: Header, opt: byte, over: byte)
    requires Stuck(h, opt, over)
    ensures over % 4 != 0 && NextOver(h, opt, over).Some? && Stuck(h, opt, NextOver(h, opt, over).value)
  {
    hide NextOver;
    NextOverIs(h, opt, 3);
  }

  lemma {:induction false} StuckForever(h: Header, opt: byte, over: byte, n: nat)
    requires Stuck(h, opt, over)
    ensures over % 4 != 0 && Overs(h, opt, over, n).Some?
    decreases n
  {
    hide NextOver, Stuck;
    StuckStays(h, opt, over);
    if n > 0 {
      StuckForever(h, opt, NextOver(h, opt, over).value, n - 1);
    }
  }

  /** From a byte that is neither 1, 2 nor 3 the walk ends after at most two areas. */
  lemma LargeEnds(h: Header, opt: byte, over: byte)
    requires over > 3 && over % 4 != 0
    ensures Overs(h, opt, over, 2) == None
  {
    hide NextOver;
    NextOverIs(h, opt, over);
    var o := NextOver(h, opt, over);
    if o.Some? {
      NextOverIs(h, opt, o.value);
      assert Overs(h, opt, over, 2) == Overs(h, opt, o.value, 1);
    }
  }

  lemma {:induction false} OversShorter(h: Header, opt: byte, over: byte, m: nat, n: nat)
    requires over % 4 != 0 && m <= n && Overs(h, opt, over, m) == None
    ensures Overs(h, opt, over, n) == None
    decreases m
  {
    hide NextOver;
    var o := NextOver(h, opt, over);
    NextOverIs(h, opt, over);
    if o.Some? {
      OversShorter(h, opt, o.value, m - 1, n - 1);
    }
  }

  lemma OversStep(h: Header, opt: byte, over: byte, n: nat)
    requires over % 4 != 0
    ensures var o := NextOver(h, opt, over);
      && (o == None ==> Overs(h, opt, over, n + 1) == None)
      && (o.Some? ==> o.value % 4 != 0 && Overs(h, opt, over, n + 1) == Overs(h, opt, o.value, n))
  {
    hide NextOver;
    NextOverIs(h, opt, over);
  }

  lemma LargeEndsAlso(h: Header, opt: byte, over: byte, n: nat)
    requires over > 3 && over % 4 != 0 && n >= 2
    ensures Overs(h, opt, over, n) == None
  {
    hide NextOver, Overs;
    LargeEnds(h, opt, over);
    OversShorter(h, opt, over, 2, n);
  }

  lemma NameEnds(h: Header, opt: byte)
    requires !NameStuck(h, opt)
    ensures Overs(h, opt, 2, 4) == None
    ensures NextOver(h, opt, 2) != Some(1) ==> Overs(h, opt, 2, 3) == None
  {
    hide NextOver, Overs;
    var (f, g) := (NextOver(h, opt, 1), NextOver(h, opt, 2));
    OversStep(h, opt, 2, 3);
    OversStep(h, opt, 2, 2);
    OversStep(h, opt, 1, 2);
    OversStep(h, opt, 3, 2);
    OversStep(h, opt, 3, 1);
    if g.Some? && g.value > 3 {
      LargeEndsAlso(h, opt, g.value, 3);
      LargeEndsAlso(h, opt, g.value, 2);
    }
    if f.Some? && f.value > 3 {
      LargeEndsAlso(h, opt, f.value, 2);
    }
  }

  /** A walk that is not stuck needs at most five more areas. */
  lemma FreeEnds(h: Header, opt: byte, over: byte)
    requires over % 4 != 0 && !Stuck(h, opt, over)
    ensures Overs(h, opt, over, AREAS) == None
  {
    hide NextOver, Overs, NameStuck;
    if over > 3 {
      LargeEndsAlso(h, opt, over, AREAS);
    } else if over == 3 {
      OversStep(h, opt, 3, 4);
      NextOverIs(h, opt, 3);
      if NextOver(h, opt, 3).Some? {
        NameEnds(h, opt);
      }
    } else if over == 2 {
      NameEnds(h, opt);
      OversShorter(h, opt, 2, 4, AREAS);
    } else {
      FileEnds(h, opt);
    }
  }

  lemma FileEnds(h: Header, opt: byte)
    requires !Stuck(h, opt, 1)
    ensures Overs(h, opt, 1, AREAS) == None
  {
    hide NextOver, Overs, NameStuck;
    var f := NextOver(h, opt, 1);
    OversStep(h, opt, 1, 4);
    if f == Some(2) {
      NameEnds(h, opt);
    } else if f == Some(3) {
      OversStep(h, opt, 3, 3);
      NextOverIs(h, opt, 3);
      if NextOver(h, opt, 3).Some? {
        NameEnds(h, opt);
        NotBothOnes(h, opt);
      }
    } else if f.Some? {
      LargeEndsAlso(h, opt, f.value, 4);
    }
  }

  lemma NotBothOnes(h: Header, opt: byte)
    requires !NameStuck(h, opt) && NextOver(h, opt, 1) == Some(3) && NextOver(h, opt, 3).Some?
    ensures NextOver(h, opt, 2) != Some(1)
  {
    hide NextOver;
  }

  /** get_option never answers if and only if the options area ends overloaded and stuck. */
  lemma EndlessIff(h: Header, m: Memory, opt: byte)
    ensures var r := Scan(m, opt, 0, 0, None);
      GetOption(h, m, opt) == Endless <==> r.Elsewhere? && Stuck(h, opt, r.over)
  {
    hide Scan, Hops, Stuck, Overs;
    var r := Scan(m, opt, 0, 0, None);
    ScanEnds(m, opt, 0, 0, None);
    if r.Elsewhere? {
      ScanOver(m, opt, 0, 0, None);
      HopsIsOvers(h, opt, r.over, r.acc, AREAS);
      if Stuck(h, opt, r.over) {
        StuckForever(h, opt, r.over, AREAS);
      } else {
        FreeEnds(h, opt, r.over);
        HopsEndless(h, opt, r, AREAS);
      }
    } else {
      HopsEnd(h, opt, r, AREAS);
    }
  }

  lemma {:induction false} ScanEnds(m: seq<byte>, opt: byte, p: nat, over: byte, acc: Option<seq<byte>>)
    requires |m| >= 2
    ensures !Scan(m, opt, p, over, acc).Endless? && !Scan(m, opt, p, over, acc).Overrun?
    decreases |m| - p
  {
    hide Scan, Extend;
    ScanStep(m, opt, p, over, acc);
    if p < |m| - 2 && (m[p] == opt ==> p + 1 + m[p + 1] <= |m| - 2) {
      var l := m[p + 1];
      var acc' := if m[p] == opt then Extend(acc, m[p + 2..p + 2 + l]) else acc;
      if m[p] == PAD {
        ScanEnds(m, opt, p + 1, over, acc');
      } else if m[p] != END {
        ScanEnds(m, opt, p + 2 + l, if m[p] == OVERLOADED && over == 0 then m[p + 2] else over, acc');
      }
    }
  }

  lemma {:induction false} HopsEndless(h: Header, opt: byte, r: Lookup, n: nat)
    requires r != Endless
    ensures Hops(h, opt, r, n) != Endless
    decreases n
  {
    hide Scan;
    if n > 0 && r.Elsewhere? && r.over % 4 != 0 {
      var a := Area(h, r.over);
      var skipped: nat := a[0];
      ScanEnds(a, opt, 1 + skipped, Left(r.over), r.acc);
      HopsEndless(h, opt, Hop(h, opt, r.over, r.acc), n - 1);
    }
  }

  /** ... and then no number of areas brings it to an end. */
  lemma EndlessIsForever(h: Header, m: Memory, opt: byte, n: nat)
    requires GetOption(h, m, opt) == Endless
    ensures Hops(h, opt, Scan(m, opt, 0, 0, None), n).Elsewhere?
  {
    hide Scan, Hops, Stuck, Overs;
    EndlessIff(h, m, opt);
    var r := Scan(m, opt, 0, 0, None);
    StuckForever(h, opt, r.over, n);
    HopsIsOvers(h, opt, r.over, r.acc, n);
  }

  /** A file field that asks for itself again does that, whatever is looked up. */
  lemma SelfOverloadIsEndless(h: Header, m: Memory, opt: byte)
    requires opt != PAD && opt != END && opt != OVERLOADED
    requires m[..4] == [OVERLOADED, 1, 1, END] && h[FILE..FILE + 5] == [0, OVERLOADED, 1, 1, END]
    ensures GetOption(h, m, opt) == Endless
  {
    hide Scan, Hops, Overs;
    assert m[0] == m[..4][0] && m[1] == m[..4][1] && m[2] == m[..4][2] && m[3] == m[..4][3];
    ScanStep(m, opt, 0, 0, None);
    ScanStep(m, opt, 3, 1, None);
    var a, five := FileField(h), h[FILE..FILE + 5];
    assert a[0] == five[0] && a[1] == five[1] && a[2] == five[2] && a[3] == five[3] && a[4] == five[4];
    ScanStep(a, opt, 1, 0, None);
    ScanStep(a, opt, 4, 1, None);
    assert NextOver(h, opt, 1) == Some(1);
    EndlessIff(h, m, opt);
  }

  // ----- what the two fields add to an answer

  /** What the walk over the fields gathers when it starts with this overload byte. */
  function Beyond(h: Header, opt: byte, over: byte): Lookup {
    Final(h, opt, Elsewhere(over, None), AREAS)
  }

  lemma FinalWith(h: Header, opt: byte, over: byte, acc: Option<seq<byte>>)
    ensures Final(h, opt, Elsewhere(over, acc), AREAS) == With(acc, Beyond(h, opt, over))
  {
    hide Hops, Append;
    HopsWith(h, opt, acc, Elsewhere(over, None), AREAS);
    assert Append(acc, None) == acc by {
      ExtendAppend(acc, None, []);
    }
  }

  /** The fields change nothing: they hold no instance, or only empty ones of an option already found. */
  predicate AddsNothing(acc: Option<seq<byte>>, r: Lookup) {
    r == Missing || (r == Found([]) && acc.Some?)
  }

  lemma WithIsAnswer(acc: Option<seq<byte>>, r: Lookup)
    ensures !r.Elsewhere? ==> (With(acc, r) == Answer(acc) <==> AddsNothing(acc, r))
  {
    if r.Found? && acc.Some? {
      assert acc.value + r.data == acc.value <==> r.data == [] by {
        assert |acc.value + r.data| == |acc.value| + |r.data|;
        assert acc.value + [] == acc.value;
      }
    }
  }

  /** What the options area itself holds of an option. */
  function Own(m: Memory, opt: byte): Option<seq<byte>> {
    var r := Scan(m, opt, 0, 0, None);
    if r.Elsewhere? then r.acc else if r.Found? then Some(r.data) else None
  }

  /** Saving a lease and reading it back, although the END marker is not written, leaves an answer
      as it was if and only if there was no END marker to lose, or the message was not overloaded, or
      the boot file and server name fields, which are no longer visited, added nothing to it. */
  lemma LeaseRoundTrip(h: Header, m: Memory, past: seq<byte>, opt: byte)
    requires |past| == 2 && opt != PAD && opt != END
    requires EndOffset(m, 0) == None ==> past == m[N..]
    ensures var file := WriteLease(h, m); var over := Overload(m, 0, 0);
      && HEADER <= |file| <= MESSAGE && file[..HEADER] == h
      && (GetOption(h, ReadLease(file, past), opt) == GetOption(h, m, opt)
          <==> EndOffset(m, 0) == None || over % 4 == 0 || AddsNothing(Own(m, opt), Beyond(h, opt, over)))
  {
    hide Scan, Hops, Options.Overload, EndOffset, Beyond, AddsNothing;
    var file := WriteLease(h, m);
    var k := EndOffset(m, 0);
    var m' := ReadLease(file, past);
    if k.Some? {
      assert file[HEADER..] == m[..k.value];
      ScanReloaded(m, m', opt, 0, k.value, 0, None);
      ElsewhereIfOverloaded(m, opt, 0, 0, None);
      var r := Scan(m, opt, 0, 0, None);
      ScanEnds(m, opt, 0, 0, None);
      if r.Elsewhere? {
        HopsEnd(h, opt, Answer(r.acc), AREAS);
        FinalWith(h, opt, r.over, r.acc);
        BeyondIsFinal(h, opt, r.over);
        WithIsAnswer(r.acc, Beyond(h, opt, r.over));
      }
    } else {
      assert file[HEADER..] == m[..N];
      assert m' == m[..N] + past == m;
    }
  }

  lemma BeyondIsFinal(h: Header, opt: byte, over: byte)
    ensures !Beyond(h, opt, over).Elsewhere?
  {
  }
}
