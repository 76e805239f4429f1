/**
 The buffer of get_option (dhcpcd/dhcp.c).  An option split over several instances is put together in
 a buffer as large as a whole message, with no check: when this is enough, and when the walk over the
 fields of an overloaded message writes behind it.
 */
module OptionBuffer {
  import opened Common
  import opened Options
  import opened Overload

  const BUFFER := MESSAGE

  function Size(acc: Option<seq<byte>>): nat {
    if acc.Some? then |acc.value| else 0
  }

  predicate Long(acc: Option<seq<byte>>) {
    Size(acc) > BUFFER
  }

  /** What had been gathered where a walk stopped. */
  function Total(r: Lookup): Option<seq<byte>> {
    match r
    case Found(x) => Some(x)
    case Malformed(x) => x
    case Elsewhere(_, x) => x
    case _ => None
  }

  // ----- the walk with its copies

  function Copied(acc: Option<seq<byte>>): Lookup {
    if Long(acc) then Overrun else Answer(acc)
  }

  /** The walk over one area: what was gathered is copied when another instance is met, before its
      length is tested, and when the walk ends, but not when it moves to another area. */
  function Copying(m: seq<byte>, opt: byte, p: nat, over: byte, acc: Option<seq<byte>>): Lookup
    requires |m| >= 2
    decreases |m| - p
  {
    if p >= |m| - 2 then Copied(acc)
    else
      var o, l := m[p], m[p + 1];
      if o == opt && Long(acc) then Overrun
      else if o == opt && p + 1 + l > |m| - 2 then Malformed(acc)
      else
        var acc' := if o == opt then Extend(acc, m[p + 2..p + 2 + l]) else acc;
        if o == PAD then Copying(m, opt, p + 1, over, acc')
        else if o == END then (if over % 4 != 0 then Elsewhere(over, acc') else Copied(acc'))
        else Copying(m, opt, p + 2 + l, if o == OVERLOADED && over == 0 then m[p + 2] else over, acc')
  }

  function CopyHop(h: Header, opt: byte, over: byte, acc: Option<seq<byte>>): Lookup
    requires over % 4 != 0
  {
    var a := Area(h, over);
    var skipped: nat := a[0];
    Copying(a, opt, 1 + skipped, Left(over), acc)
  }

  function CopyHops(h: Header, opt: byte, r: Lookup, n: nat): Lookup
    decreases n
  {
    if n == 0 || !r.Elsewhere? || r.over % 4 == 0 then r
    else CopyHops(h, opt, CopyHop(h, opt, r.over, r.acc), n - 1)
  }

  function Start(m: Memory, opt: byte): Lookup {
    Scan(m, opt, 0, 0, None)
  }

  /** get_option with at most n areas after the options. */
  function Walk(h: Header, m: Memory, opt: byte, n: nat): Lookup {
    CopyHops(h, opt, Copying(m, opt, 0, 0, None), n)
  }

  // ----- one area

  lemma CopyStep(m: seq<byte>, opt: byte, p: nat, over: byte, acc: Option<seq<byte>>)
    requires |m| >= 2
    ensures p >= |m| - 2 ==> Copying(m, opt, p, over, acc) == Copied(acc)
    ensures p < |m| - 2 && m[p] == opt && Long(acc) ==> Copying(m, opt, p, over, acc) == Overrun
    ensures p < |m| - 2 && m[p] == opt && !Long(acc) && p + 1 + m[p + 1] > |m| - 2 ==>
      Copying(m, opt, p, over, acc) == Malformed(acc)
    ensures p < |m| - 2 && (m[p] == opt ==> !Long(acc) && p + 1 + m[p + 1] <= |m| - 2) ==>
      var l := m[p + 1]; var acc' := if m[p] == opt then Extend(acc, m[p + 2..p + 2 + l]) else acc;
      Copying(m, opt, p, over, acc) ==
        if m[p] == PAD then Copying(m, opt, p + 1, over, acc')
        else if m[p] == END then (if over % 4 != 0 then Elsewhere(over, acc') else Copied(acc'))
        else Copying(m, opt, p + 2 + l, if m[p] == OVERLOADED && over == 0 then m[p + 2] else over, acc')
  {
    hide Copied, Extend, Long;
  }

  /** What one area does to the copies: `r` is the walk that never copies, `c` the one that does. */
  predicate Agree(acc: Option<seq<byte>>, r: Lookup, c: Lookup) {
    && (c == r || c == Overrun) && Size(acc) <= Size(Total(r))
    && (c == Overrun ==> Long(Total(r)))
    && (!r.Elsewhere? && Long(Total(r)) ==> c == Overrun)
    && (Long(acc) && c != Overrun ==> Total(r) == acc)
  }

  lemma AgreeEnds(acc: Option<seq<byte>>, over: byte)
    ensures Agree(acc, Answer(acc), Copied(acc)) && Agree(acc, Elsewhere(over, acc), Elsewhere(over, acc))
    ensures Agree(acc, Malformed(acc), if Long(acc) then Overrun else Malformed(acc))
  {
  }

  /** An area behind one more instance agrees when the rest does. */
  lemma AgreeMore(acc: Option<seq<byte>>, more: seq<byte>, r: Lookup, c: Lookup)
    requires Agree(Extend(acc, more), r, c)
    ensures Agree(acc, r, if Long(acc) then Overrun else c)
  {
  }

  lemma {:induction false} CopyingAgrees(m: seq<byte>, opt: byte, p: nat, over: byte, acc: Option<seq<byte>>)
    requires |m| >= 2
    ensures Agree(acc, Scan(m, opt, p, over, acc), Copying(m, opt, p, over, acc))
    decreases |m| - p
  {
    hide Agree, Scan, Copying, Long, Extend, Copied, Answer;
    ScanStep(m, opt, p, over, acc);
    CopyStep(m, opt, p, over, acc);
    AgreeEnds(acc, over);
    if p < |m| - 2 && (m[p] == opt ==> p + 1 + m[p + 1] <= |m| - 2) {
      var l := m[p + 1];
      var d := m[p + 2..p + 2 + if m[p] == opt then l else 0];
      var acc' := if m[p] == opt then Extend(acc, d) else acc;
      var over' := if m[p] == OVERLOADED && over == 0 then m[p + 2] else over;
      AgreeEnds(acc', over);
      if m[p] == PAD {
        CopyingAgrees(m, opt, p + 1, over, acc');
      } else if m[p] != END {
        CopyingAgrees(m, opt, p + 2 + l, over', acc');
      }
      if m[p] == opt {
        var (r, c) :=
          if m[p] == PAD then (Scan(m, opt, p + 1, over, acc'), Copying(m, opt, p + 1, over, acc'))
          else if m[p] != END then (Scan(m, opt, p + 2 + l, over', acc'), Copying(m, opt, p + 2 + l, over', acc'))
          else if over % 4 != 0 then (Elsewhere(over, acc'), Elsewhere(over, acc'))
          else (Answer(acc'), Copied(acc'));
        AgreeMore(acc, d, r, c);
      }
    }
  }

  // ----- every area

  lemma {:induction false} HopsAgree(h: Header, opt: byte, r: Lookup, n: nat)
    requires !r.Overrun? && (!r.Elsewhere? ==> !Long(Total(r)))
    ensures Agree(Total(r), Hops(h, opt, r, n), CopyHops(h, opt, r, n))
    decreases n
  {
    hide Scan, Copying, Long;
    if n > 0 && r.Elsewhere? && r.over % 4 != 0 {
      var a := Area(h, r.over);
      var skipped: nat := a[0];
      CopyingAgrees(a, opt, 1 + skipped, Left(r.over), r.acc);
      ScanEnds(a, opt, 1 + skipped, Left(r.over), r.acc);
      var r', c := Hop(h, opt, r.over, r.acc), CopyHop(h, opt, r.over, r.acc);
      if c == Overrun {
        HopsGrow(h, opt, r', n - 1);
        LongGrows(Total(r'), Total(Hops(h, opt, r', n - 1)));
      } else {
        HopsAgree(h, opt, r', n - 1);
      }
    }
  }

  lemma LongGrows(a: Option<seq<byte>>, b: Option<seq<byte>>)
    requires Size(a) <= Size(b)
    ensures Long(a) ==> Long(b)
  {
  }

  lemma {:induction false} HopsGrow(h: Header, opt: byte, r: Lookup, n: nat)
    ensures Size(Total(r)) <= Size(Total(Hops(h, opt, r, n)))
    decreases n
  {
    hide Scan, Copying, Long;
    if n > 0 && r.Elsewhere? && r.over % 4 != 0 {
      var a := Area(h, r.over);
      var skipped: nat := a[0];
      CopyingAgrees(a, opt, 1 + skipped, Left(r.over), r.acc);
      HopsGrow(h, opt, Hop(h, opt, r.over, r.acc), n - 1);
    }
  }

  // ----- an area is never too long for the buffer

  lemma ExtendSize(acc: Option<seq<byte>>, more: seq<byte>)
    ensures Size(Extend(acc, more)) == Size(acc) + |more|
  {
  }

  /** Instances do not overlap, so an area adds no more than its length.  (The padding code, which no
      caller asks for, is the exception.) */
  lemma {:induction false} AreaFits(m: seq<byte>, opt: byte, p: nat, over: byte, acc: Option<seq<byte>>, was: nat)
    requires |m| >= 2 && opt != PAD && Size(acc) <= was + Min(p, |m| - 2)
    ensures Size(Total(Scan(m, opt, p, over, acc))) <= was + |m| - 2
    decreases |m| - p
  {
    hide Scan, Extend;
    ScanStep(m, opt, p, over, acc);
    if p < |m| - 2 && (m[p] == opt ==> p + 1 + m[p + 1] <= |m| - 2) {
      var l := m[p + 1];
      var d := m[p + 2..p + 2 + if m[p] == opt then l else 0];
      ExtendSize(acc, d);
      var acc' := if m[p] == opt then Extend(acc, d) else acc;
      if m[p] == PAD {
        AreaFits(m, opt, p + 1, over, acc', was);
      } else if m[p] != END {
        AreaFits(m, opt, p + 2 + l, if m[p] == OVERLOADED && over == 0 then m[p + 2] else over, acc', was);
      }
    }
  }

  lemma StartFits(m: Memory, opt: byte)
    requires opt != PAD
    ensures Size(Total(Start(m, opt))) <= N && Copying(m, opt, 0, 0, None) == Start(m, opt)
  {
    hide Scan, Copying;
    AreaFits(m, opt, 0, 0, None, 0);
    CopyingAgrees(m, opt, 0, 0, None);
  }

  lemma HopFits(h: Header, opt: byte, over: byte, acc: Option<seq<byte>>)
    requires opt != PAD && over % 4 != 0
    ensures Size(Total(Hop(h, opt, over, acc))) <= Size(acc) + |Area(h, over)| - 2
  {
    hide Scan;
    var a := Area(h, over);
    var skipped: nat := a[0];
    AreaFits(a, opt, 1 + skipped, Left(over), acc, Size(acc));
  }

  // ----- what a lookup comes to

  /** The areas a walk that never ends takes at most before it goes round in circles, and a number of
      areas in which every circle is closed. */
  const TAIL := 2
  const CIRCLE := 6

  /** A walk gathers something in its circle. */
  predicate Gains(h: Header, opt: byte, r: Lookup) {
    Size(Total(Hops(h, opt, r, TAIL))) < Size(Total(Hops(h, opt, r, TAIL + CIRCLE)))
  }

  /** What get_option comes to.  A walk that ends overruns the buffer if it gathered too much in all;
      one that would never end does if its circle holds data, or if it does in going round once. */
  function Outcome(h: Header, m: Memory, opt: byte): Lookup {
    var r := GetOption(h, m, opt);
    if r != Endless then (if Long(Total(r)) then Overrun else r)
    else if Gains(h, opt, Start(m, opt)) || Walk(h, m, opt, TAIL + CIRCLE) == Overrun then Overrun
    else Endless
  }

  lemma WalkAgrees(h: Header, m: Memory, opt: byte, n: nat)
    ensures Agree(None, Hops(h, opt, Start(m, opt), n), Walk(h, m, opt, n))
  {
    hide Scan, Copying, Hops, CopyHops, Long;
    var r, c := Start(m, opt), Copying(m, opt, 0, 0, None);
    CopyingAgrees(m, opt, 0, 0, None);
    ScanEnds(m, opt, 0, 0, None);
    if c == Overrun {
      HopsGrow(h, opt, r, n);
      LongGrows(Total(r), Total(Hops(h, opt, r, n)));
      CopyHopsEnd(h, opt, c, n);
    } else {
      HopsAgree(h, opt, r, n);
      AgreeWeaker(Total(r), Hops(h, opt, r, n), Walk(h, m, opt, n));
    }
  }

  lemma AgreeWeaker(acc: Option<seq<byte>>, r: Lookup, c: Lookup)
    requires Agree(acc, r, c)
    ensures Agree(None, r, c)
  {
  }

  lemma CopyHopsEnd(h: Header, opt: byte, r: Lookup, n: nat)
    requires !r.Elsewhere?
    ensures CopyHops(h, opt, r, n) == r
  {
  }

  /** A walk that ends: its answer, or an overrun. */
  lemma EndedWalk(h: Header, m: Memory, opt: byte)
    requires GetOption(h, m, opt) != Endless
    ensures Walk(h, m, opt, AREAS) == Outcome(h, m, opt) && !Walk(h, m, opt, AREAS).Elsewhere?
  {
    hide Scan, Hops, CopyHops, Copying, Long;
    WalkAgrees(h, m, opt, AREAS);
  }

  // ----- walks that never end go round in circles

  lemma {:induction false} HopsSnoc(h: Header, opt: byte, r: Lookup, n: nat)
    ensures var x := Hops(h, opt, r, n);
      Hops(h, opt, r, n + 1) == if x.Elsewhere? && x.over % 4 != 0 then Hop(h, opt, x.over, x.acc) else x
    decreases n
  {
    hide Scan;
    if n > 0 && r.Elsewhere? && r.over % 4 != 0 {
      HopsSnoc(h, opt, Hop(h, opt, r.over, r.acc), n - 1);
    }
  }

  lemma {:induction false} CopyHopsSnoc(h: Header, opt: byte, r: Lookup, n: nat)
    ensures var x := CopyHops(h, opt, r, n);
      CopyHops(h, opt, r, n + 1) == if x.Elsewhere? && x.over % 4 != 0 then CopyHop(h, opt, x.over, x.acc) else x
    decreases n
  {
    hide Copying;
    if n > 0 && r.Elsewhere? && r.over % 4 != 0 {
      CopyHopsSnoc(h, opt, CopyHop(h, opt, r.over, r.acc), n - 1);
    }
  }

  /** The n-th area of a stuck walk. */
  predicate Circling(h: Header, opt: byte, r: Lookup, n: nat) {
    var x := Hops(h, opt, r, n);
    x.Elsewhere? && Stuck(h, opt, x.over) && 1 <= x.over <= 3
  }

  lemma {:induction false} StuckCircles(h: Header, opt: byte, r: Lookup, n: nat)
    requires r.Elsewhere? && Stuck(h, opt, r.over)
    ensures Circling(h, opt, r, n)
    decreases n
  {
    hide Scan, Hops, NameStuck;
    if n == 0 {
      HopsNone(h, opt, r);
    } else {
      StuckCircles(h, opt, r, n - 1);
      var x := Hops(h, opt, r, n - 1);
      HopsSnoc(h, opt, r, n - 1);
      HopIs(h, opt, x.over, x.acc);
      StuckStays(h, opt, x.over);
    }
  }

  lemma HopsNone(h: Header, opt: byte, r: Lookup)
    ensures Hops(h, opt, r, 0) == r
  {
  }

  /** An area adds the same and leads to the same whatever was gathered before. */
  lemma HopIs(h: Header, opt: byte, over: byte, acc: Option<seq<byte>>)
    requires over % 4 != 0
    ensures Hop(h, opt, over, acc) == With(acc, Hop(h, opt, over, None))
  {
    hide Scan, With, Append;
    var a := Area(h, over);
    var skipped: nat := a[0];
    ScanWith(a, opt, 1 + skipped, Left(over), acc, None);
    ExtendAppend(acc, None, []);
  }

  function OverAt(h: Header, opt: byte, r: Lookup, n: nat): byte {
    var x := Hops(h, opt, r, n);
    if x.Elsewhere? then x.over else 0
  }

  function SizeAt(h: Header, opt: byte, r: Lookup, n: nat): nat {
    Size(Total(Hops(h, opt, r, n)))
  }

  lemma SameNext(h: Header, opt: byte, r: Lookup, i: nat, j: nat)
    requires r.Elsewhere? && Stuck(h, opt, r.over) && OverAt(h, opt, r, i) == OverAt(h, opt, r, j)
    ensures OverAt(h, opt, r, i + 1) == OverAt(h, opt, r, j + 1)
    ensures SizeAt(h, opt, r, i + 1) - SizeAt(h, opt, r, i) == SizeAt(h, opt, r, j + 1) - SizeAt(h, opt, r, j)
  {
    hide Scan, Hops, Stuck;
    StuckCircles(h, opt, r, i);
    StuckCircles(h, opt, r, j);
    StuckCircles(h, opt, r, i + 1);
    StuckCircles(h, opt, r, j + 1);
    HopsSnoc(h, opt, r, i);
    HopsSnoc(h, opt, r, j);
    var (x, y) := (Hops(h, opt, r, i), Hops(h, opt, r, j));
    HopIs(h, opt, x.over, x.acc);
    HopIs(h, opt, y.over, y.acc);
  }

  lemma {:induction false} Repeats(h: Header, opt: byte, r: Lookup, i: nat, d: nat, k: nat)
    requires r.Elsewhere? && Stuck(h, opt, r.over) && OverAt(h, opt, r, i) == OverAt(h, opt, r, i + d)
    ensures OverAt(h, opt, r, i + k) == OverAt(h, opt, r, i + k + d)
    decreases k
  {
    hide Stuck, OverAt, SizeAt;
    if k > 0 {
      Repeats(h, opt, r, i, d, k - 1);
      SameNext(h, opt, r, i + k - 1, i + k - 1 + d);
    }
  }

  /** Of the first four overload bytes two are the same, so the walk repeats itself after one, two or
      three areas; all of these divide six. */
  lemma FirstCircle(h: Header, opt: byte, r: Lookup)
    requires r.Elsewhere? && Stuck(h, opt, r.over)
    ensures OverAt(h, opt, r, TAIL) == OverAt(h, opt, r, TAIL + CIRCLE)
  {
    hide Stuck, Hops;
    StuckCircles(h, opt, r, 0);
    StuckCircles(h, opt, r, 1);
    StuckCircles(h, opt, r, 2);
    StuckCircles(h, opt, r, 3);
    var i: nat, d: nat :| i <= 2 && 1 <= d <= 3 - i && OverAt(h, opt, r, i) == OverAt(h, opt, r, i + d);
    Closes(h, opt, r, i, d);
  }

  lemma Closes(h: Header, opt: byte, r: Lookup, i: nat, d: nat)
    requires r.Elsewhere? && Stuck(h, opt, r.over)
    requires i <= TAIL && 1 <= d <= 3 && OverAt(h, opt, r, i) == OverAt(h, opt, r, i + d)
    ensures OverAt(h, opt, r, TAIL) == OverAt(h, opt, r, TAIL + CIRCLE)
  {
    hide Stuck, OverAt;
    var k := TAIL;
    while k < TAIL + CIRCLE
      invariant TAIL <= k <= TAIL + CIRCLE && (k - TAIL) % d == 0 && OverAt(h, opt, r, TAIL) == OverAt(h, opt, r, k)
    {
      Repeats(h, opt, r, i, d, k - i);
      k := k + d;
    }
  }

  lemma {:induction false} Circle(h: Header, opt: byte, r: Lookup, n: nat)
    requires r.Elsewhere? && Stuck(h, opt, r.over) && n >= TAIL
    ensures OverAt(h, opt, r, n) == OverAt(h, opt, r, n + CIRCLE)
    ensures SizeAt(h, opt, r, n + CIRCLE) - SizeAt(h, opt, r, n) ==
      SizeAt(h, opt, r, TAIL + CIRCLE) - SizeAt(h, opt, r, TAIL)
    decreases n
  {
    hide Stuck, OverAt, SizeAt;
    if n == TAIL {
      FirstCircle(h, opt, r);
    } else {
      Circle(h, opt, r, n - 1);
      SameNext(h, opt, r, n - 1, n - 1 + CIRCLE);
    }
  }

  lemma {:induction false} HopsCompose(h: Header, opt: byte, r: Lookup, n: nat, k: nat)
    ensures Hops(h, opt, r, n + k) == Hops(h, opt, Hops(h, opt, r, n), k)
    decreases n
  {
    hide Scan;
    if n > 0 && r.Elsewhere? && r.over % 4 != 0 {
      HopsCompose(h, opt, Hop(h, opt, r.over, r.acc), n - 1, k);
    }
  }

  lemma {:induction false} CopyHopsCompose(h: Header, opt: byte, r: Lookup, n: nat, k: nat)
    ensures CopyHops(h, opt, r, n + k) == CopyHops(h, opt, CopyHops(h, opt, r, n), k)
    decreases n
  {
    hide Copying;
    if n > 0 && r.Elsewhere? && r.over % 4 != 0 {
      CopyHopsCompose(h, opt, CopyHop(h, opt, r.over, r.acc), n - 1, k);
    }
  }

  lemma SizesGrow(h: Header, opt: byte, r: Lookup, n: nat, k: nat)
    ensures SizeAt(h, opt, r, n) <= SizeAt(h, opt, r, n + k)
  {
    hide Hops;
    HopsCompose(h, opt, r, n, k);
    HopsGrow(h, opt, Hops(h, opt, r, n), k);
  }

  // ----- a circle that holds data

  lemma {:induction false} Rounds(h: Header, opt: byte, r: Lookup, k: nat)
    requires r.Elsewhere? && Stuck(h, opt, r.over) && Gains(h, opt, r)
    ensures SizeAt(h, opt, r, TAIL + CIRCLE * k) >= k
    decreases k
  {
    hide Stuck, Hops;
    if k > 0 {
      Rounds(h, opt, r, k - 1);
      Circle(h, opt, r, TAIL + CIRCLE * (k - 1));
    }
  }

  const ENOUGH := TAIL + CIRCLE * (BUFFER + 1)

  lemma GainsOverruns(h: Header, m: Memory, opt: byte)
    requires var r := Start(m, opt); r.Elsewhere? && Stuck(h, opt, r.over) && Gains(h, opt, r)
    ensures Walk(h, m, opt, ENOUGH + CIRCLE) == Overrun
  {
    hide Scan, Copying, Stuck, Hops, CopyHops;
    var r := Start(m, opt);
    Rounds(h, opt, r, BUFFER + 1);
    Circle(h, opt, r, ENOUGH);
    WalkAgrees(h, m, opt, ENOUGH);
    CopyHopsCompose(h, opt, Copying(m, opt, 0, 0, None), ENOUGH, CIRCLE);
    var x, c := Hops(h, opt, r, ENOUGH), Walk(h, m, opt, ENOUGH);
    if c == Overrun {
      CopyHopsEnd(h, opt, c, CIRCLE);
    } else {
      StuckCircles(h, opt, r, ENOUGH);
      HopsAgree(h, opt, x, CIRCLE);
      HopsCompose(h, opt, r, ENOUGH, CIRCLE);
    }
  }

  // ----- a circle without data

  /** Without data in the circle nothing more is gathered. */
  lemma {:induction false} SameSize(h: Header, opt: byte, r: Lookup, n: nat)
    requires r.Elsewhere? && Stuck(h, opt, r.over) && !Gains(h, opt, r) && n >= TAIL
    ensures SizeAt(h, opt, r, n) == SizeAt(h, opt, r, TAIL)
    decreases n
  {
    hide Stuck, Hops;
    if n > TAIL {
      SameSize(h, opt, r, n - 1);
      Circle(h, opt, r, n - 1);
      SizesGrow(h, opt, r, TAIL, CIRCLE);
      SizesGrow(h, opt, r, n - 1, 1);
      SizesGrow(h, opt, r, n, CIRCLE - 1);
    }
  }

  lemma SameBytes(acc: Option<seq<byte>>, more: Option<seq<byte>>)
    requires acc.Some? && Size(Append(acc, more)) == Size(acc)
    ensures Append(acc, more) == acc
  {
    if more.Some? {
      assert |acc.value + more.value| == |acc.value| + |more.value|;
      assert acc.value + [] == acc.value;
    }
  }

  /** ... and what was gathered stays as it is, so that each round is like the one before. */
  lemma SameRound(h: Header, opt: byte, r: Lookup, n: nat)
    requires r.Elsewhere? && Stuck(h, opt, r.over) && !Gains(h, opt, r) && n >= TAIL
    requires SizeAt(h, opt, r, TAIL) > 0
    ensures Hops(h, opt, r, n + CIRCLE) == Hops(h, opt, r, n)
  {
    hide Scan, Stuck, Append;
    var x, y := Hops(h, opt, r, n), Hops(h, opt, r, n + CIRCLE);
    assert x.Elsewhere? && y.Elsewhere? && x.over == y.over && Size(x.acc) == Size(y.acc) && x.acc.Some? by {
      hide Hops;
      StuckCircles(h, opt, r, n);
      StuckCircles(h, opt, r, n + CIRCLE);
      Circle(h, opt, r, n);
      SameSize(h, opt, r, n);
      SameSize(h, opt, r, n + CIRCLE);
    }
    hide Hops;
    HopsCompose(h, opt, r, n, CIRCLE);
    HopsWith(h, opt, x.acc, Elsewhere(x.over, None), CIRCLE);
    ExtendAppend(x.acc, None, []);
    var z := Hops(h, opt, Elsewhere(x.over, None), CIRCLE);
    assert y == With(x.acc, z);
    assert z.Elsewhere?;
    SameBytes(x.acc, z.acc);
  }

  lemma {:induction false} NoOverrunLater(h: Header, m: Memory, opt: byte, n: nat)
    requires var r := Start(m, opt); r.Elsewhere? && Stuck(h, opt, r.over) && !Gains(h, opt, r)
    requires Walk(h, m, opt, TAIL + CIRCLE) != Overrun
    ensures Walk(h, m, opt, n) != Overrun
    decreases n
  {
    hide Scan, Copying, Stuck, Hops, CopyHops;
    var r, c := Start(m, opt), Copying(m, opt, 0, 0, None);
    if n <= TAIL + CIRCLE {
      CopyHopsCompose(h, opt, c, n, TAIL + CIRCLE - n);
      CopyHopsEndsOverrun(h, opt, TAIL + CIRCLE - n);
    } else if SizeAt(h, opt, r, TAIL) <= BUFFER {
      WalkAgrees(h, m, opt, n);
      SameSize(h, opt, r, n);
    } else {
      var (i, j) := (n - 1 - CIRCLE, n - 1);
      NoOverrunLater(h, m, opt, i + 1);
      NoOverrunLater(h, m, opt, i);
      NoOverrunLater(h, m, opt, j);
      WalkAgrees(h, m, opt, i);
      WalkAgrees(h, m, opt, j);
      SameRound(h, opt, r, i);
      CopyHopsSnoc(h, opt, c, i);
      CopyHopsSnoc(h, opt, c, j);
    }
  }

  lemma CopyHopsEndsOverrun(h: Header, opt: byte, n: nat)
    ensures CopyHops(h, opt, Overrun, n) == Overrun
  {
  }

  // ----- the main results

  /** get_option writes past its buffer, in some number of areas, if and only if Outcome says so. */
  lemma OverrunIff(h: Header, m: Memory, opt: byte)
    ensures (exists n: nat :: Walk(h, m, opt, n) == Overrun) <==> Outcome(h, m, opt) == Overrun
  {
    hide Scan, Copying, Hops, CopyHops, Stuck, Gains;
    EndlessIff(h, m, opt);
    var r := Start(m, opt);
    if GetOption(h, m, opt) != Endless {
      EndedWalk(h, m, opt);
      forall n: nat | Walk(h, m, opt, n) == Overrun
        ensures Walk(h, m, opt, AREAS) == Overrun
      {
        OverrunByAreas(h, m, opt, n);
      }
    } else if Gains(h, opt, r) {
      GainsOverruns(h, m, opt);
    } else if Walk(h, m, opt, TAIL + CIRCLE) != Overrun {
      forall n: nat
        ensures Walk(h, m, opt, n) != Overrun
      {
        NoOverrunLater(h, m, opt, n);
      }
    }
  }

  /** A walk that ends has done so after AREAS areas. */
  lemma OverrunByAreas(h: Header, m: Memory, opt: byte, n: nat)
    requires GetOption(h, m, opt) != Endless && Walk(h, m, opt, n) == Overrun
    ensures Walk(h, m, opt, AREAS) == Overrun
  {
    hide Scan, Copying, Hops, CopyHops;
    var c := Copying(m, opt, 0, 0, None);
    EndedWalk(h, m, opt);
    var x := Walk(h, m, opt, AREAS);
    if n >= AREAS {
      CopyHopsCompose(h, opt, c, AREAS, n - AREAS);
      CopyHopsEnd(h, opt, x, n - AREAS);
    } else {
      CopyHopsCompose(h, opt, c, n, AREAS - n);
      CopyHopsEndsOverrun(h, opt, AREAS - n);
    }
  }

  /** It goes on for ever if and only if Outcome says so; otherwise Outcome is its answer. */
  lemma OutcomeIff(h: Header, m: Memory, opt: byte)
    ensures Outcome(h, m, opt) == Endless <==> forall n: nat :: Walk(h, m, opt, n).Elsewhere?
    ensures Outcome(h, m, opt) != Endless ==>
      exists n: nat :: Walk(h, m, opt, n) == Outcome(h, m, opt) && !Walk(h, m, opt, n).Elsewhere?
  {
    hide Scan, Copying, Hops, CopyHops, Stuck, Gains, Long;
    OverrunIff(h, m, opt);
    if GetOption(h, m, opt) != Endless {
      EndedWalk(h, m, opt);
    } else if Outcome(h, m, opt) == Endless {
      forall n: nat
        ensures Walk(h, m, opt, n).Elsewhere?
      {
        EndlessIsForever(h, m, opt, n);
        WalkAgrees(h, m, opt, n);
      }
    } else {
      var n: nat :| Walk(h, m, opt, n) == Overrun;
      assert !Walk(h, m, opt, n).Elsewhere?;
    }
  }

  /** A message whose options do not go on elsewhere never overruns the buffer, ... */
  lemma NotOverloadedFits(h: Header, m: Memory, opt: byte)
    requires opt != PAD && !Start(m, opt).Elsewhere?
    ensures Outcome(h, m, opt) == GetOption(h, m, opt) != Endless
  {
    hide Scan, Hops;
    StartFits(m, opt);
    ScanEnds(m, opt, 0, 0, None);
    HopsEnd(h, opt, Start(m, opt), AREAS);
  }

  /** ... nor does one whose options go on in each of the two fields at most once: the buffer holds
      every area of the message.  So an overrun takes a field that asks for a field seen before. */
  lemma OnceFits(h: Header, m: Memory, opt: byte)
    requires opt != PAD && Start(m, opt).Elsewhere?
    requires var r := Start(m, opt); var r' := Hops(h, opt, r, 1);
      !r'.Elsewhere? || (r'.over % 2 != r.over % 2 && !Hops(h, opt, r, 2).Elsewhere?)
    ensures Outcome(h, m, opt) == GetOption(h, m, opt) != Endless
  {
    hide Scan, Hops;
    var r := Start(m, opt);
    StartFits(m, opt);
    ScanOver(m, opt, 0, 0, None);
    HopsNone(h, opt, r);
    HopsSnoc(h, opt, r, 0);
    HopFits(h, opt, r.over, r.acc);
    var r' := Hops(h, opt, r, 1);
    HopEnds(h, opt, r.over, r.acc);
    if r'.Elsewhere? {
      HopsSnoc(h, opt, r, 1);
      HopFits(h, opt, r'.over, r'.acc);
      HopEnds(h, opt, r'.over, r'.acc);
      HopsCompose(h, opt, r, 2, AREAS - 2);
      HopsEnd(h, opt, Hops(h, opt, r, 2), AREAS - 2);
    } else {
      HopsCompose(h, opt, r, 1, AREAS - 1);
      HopsEnd(h, opt, r', AREAS - 1);
    }
  }

  lemma HopEnds(h: Header, opt: byte, over: byte, acc: Option<seq<byte>>)
    requires over % 4 != 0
    ensures var r := Hop(h, opt, over, acc); !r.Endless? && !r.Overrun? && (r.Elsewhere? ==> r.over % 4 != 0)
  {
    hide Scan;
    var a := Area(h, over);
    var skipped: nat := a[0];
    ScanEnds(a, opt, 1 + skipped, Left(over), acc);
    ScanOver(a, opt, 1 + skipped, Left(over), acc);
  }

  /** A file field that asks for itself and holds a byte of the option overruns the buffer. */
  lemma CircleOverruns(h: Header, m: Memory, opt: byte, x: byte)
    requires opt != PAD && opt != END && opt != OVERLOADED
    requires m[..4] == [OVERLOADED, 1, 1, END] && h[FILE..FILE + 8] == [0, opt, 1, x, OVERLOADED, 1, 1, END]
    ensures GetOption(h, m, opt) == Endless && Outcome(h, m, opt) == Overrun
  {
    hide Scan, Hops, Overs, Walk;
    assert m[0] == m[..4][0] && m[1] == m[..4][1] && m[2] == m[..4][2] && m[3] == m[..4][3];
    ScanStep(m, opt, 0, 0, None);
    ScanStep(m, opt, 3, 1, None);
    var r := Start(m, opt);
    assert r == Elsewhere(1, None);
    SelfHop(h, opt, x, None);
    assert NextOver(h, opt, 1) == Some(1);
    EndlessIff(h, m, opt);
    HopsNone(h, opt, r);
    HopsSnoc(h, opt, r, TAIL);
    StuckCircles(h, opt, r, TAIL);
    StuckCircles(h, opt, r, 0);
    StuckCircles(h, opt, r, 1);
    HopsSnoc(h, opt, r, 0);
    HopsSnoc(h, opt, r, 1);
    SelfHop(h, opt, x, Hops(h, opt, r, 1).acc);
    SelfHop(h, opt, x, Hops(h, opt, r, 2).acc);
    SizesGrow(h, opt, r, TAIL + 1, CIRCLE - 1);
  }

  lemma SelfHop(h: Header, opt: byte, x: byte, acc: Option<seq<byte>>)
    requires opt != PAD && opt != END && opt != OVERLOADED
    requires h[FILE..FILE + 8] == [0, opt, 1, x, OVERLOADED, 1, 1, END]
    ensures Hop(h, opt, 1, acc) == Elsewhere(1, Extend(acc, [x]))
  {
    hide Scan, Extend;
    var a, eight := FileField(h), h[FILE..FILE + 8];
    assert forall i :: 0 <= i < 8 ==> a[i] == eight[i];
    assert a[3..4] == [x];
    ScanStep(a, opt, 1, 0, acc);
    ScanStep(a, opt, 4, 0, Extend(acc, [x]));
    ScanStep(a, opt, 7, 1, Extend(acc, [x]));
  }

  /** Where the walk over the fields ends, the buffer overruns if and only if the options area and the
      fields, however often each is seen, hold more than its size. */
  lemma OverrunBySum(h: Header, m: Memory, opt: byte)
    requires opt != PAD && Start(m, opt).Elsewhere? && Beyond(h, opt, Start(m, opt).over) != Endless
    ensures var r := Start(m, opt);
      Outcome(h, m, opt) == Overrun <==> Size(r.acc) + Size(Total(Beyond(h, opt, r.over))) > BUFFER
  {
    hide Scan, Hops, Beyond;
    var r := Start(m, opt);
    FinalWith(h, opt, r.over, r.acc);
    BeyondIsFinal(h, opt, r.over);
    BeyondEnds(h, opt, r.over);
    StartFits(m, opt);
    WithTotal(r.acc, Beyond(h, opt, r.over));
  }

  lemma BeyondEnds(h: Header, opt: byte, over: byte)
    ensures Beyond(h, opt, over) != Overrun
  {
    hide Scan, Hops;
    HopsNoOverrun(h, opt, Elsewhere(over, None), AREAS);
  }

  lemma {:induction false} HopsNoOverrun(h: Header, opt: byte, r: Lookup, n: nat)
    requires !r.Overrun?
    ensures !Hops(h, opt, r, n).Overrun?
    decreases n
  {
    hide Scan;
    if n > 0 && r.Elsewhere? && r.over % 4 != 0 {
      HopEnds(h, opt, r.over, r.acc);
      HopsNoOverrun(h, opt, Hop(h, opt, r.over, r.acc), n - 1);
    }
  }

  lemma WithTotal(acc: Option<seq<byte>>, r: Lookup)
    requires r != Endless && r != Overrun
    ensures Size(Total(With(acc, r))) == Size(acc) + Size(Total(r)) && With(acc, r) != Endless
  {
  }

  /** A file field seen twice, then the name field: 303 bytes more than the options area holds. */
  lemma TwiceOverruns(h: Header, m: Memory, opt: byte)
    requires opt != PAD && opt != END && opt != OVERLOADED
    requires h[FILE..FILE + 6] == [0, OVERLOADED, 1, 3, opt, 121] && h[FILE + 127] == END
    requires h[SNAME..SNAME + 3] == [0, opt, 61]
    requires Start(m, opt).Elsewhere? && Start(m, opt).over == 1
    ensures GetOption(h, m, opt).Found?
    ensures Outcome(h, m, opt) == Overrun <==> Size(Start(m, opt).acc) > 1169
  {
    hide Scan, Hops;
    var r := Start(m, opt);
    FieldHops(h, opt, r.acc);
    var r1 := Hop(h, opt, 1, r.acc);
    FieldHops(h, opt, r1.acc);
    var r2 := Hop(h, opt, 3, r1.acc);
    FieldHops(h, opt, r2.acc);
    HopsNone(h, opt, r);
    HopsSnoc(h, opt, r, 0);
    HopsSnoc(h, opt, r, 1);
    HopsSnoc(h, opt, r, 2);
    HopsCompose(h, opt, r, 3, 2);
    HopsEnd(h, opt, Hop(h, opt, 2, r2.acc), 2);
  }

  lemma FieldHops(h: Header, opt: byte, acc: Option<seq<byte>>)
    requires opt != PAD && opt != END && opt != OVERLOADED
    requires h[FILE..FILE + 6] == [0, OVERLOADED, 1, 3, opt, 121] && h[FILE + 127] == END
    requires h[SNAME..SNAME + 3] == [0, opt, 61]
    ensures var (f, t, g) := (Hop(h, opt, 1, acc), Hop(h, opt, 3, acc), Hop(h, opt, 2, acc));
      && f.Elsewhere? && f.over == 3 && Size(f.acc) == Size(acc) + 121
      && t.Elsewhere? && t.over == 2 && Size(t.acc) == Size(acc) + 121
      && g.Found? && |g.data| == Size(acc) + 61
  {
    hide Scan;
    var a, six := FileField(h), h[FILE..FILE + 6];
    assert forall i :: 0 <= i < 6 ==> a[i] == six[i];
    ScanStep(a, opt, 1, 0, acc);
    ScanStep(a, opt, 4, 3, acc);
    ScanStep(a, opt, 127, 3, Extend(acc, a[6..127]));
    ScanStep(a, opt, 1, 2, acc);
    ScanStep(a, opt, 4, 2, acc);
    ScanStep(a, opt, 127, 2, Extend(acc, a[6..127]));
    var b, three := NameField(h), h[SNAME..SNAME + 3];
    assert forall i :: 0 <= i < 3 ==> b[i] == three[i];
    ScanStep(b, opt, 1, 0, acc);
    ScanStep(b, opt, 64, 0, Extend(acc, b[3..64]));
  }

  /** The condition under which saving and reloading a lease keeps an answer is the same with the
      buffer: a reloaded lease never overruns it. */
  lemma ReloadedOutcome(h: Header, m: Memory, past: seq<byte>, opt: byte)
    requires |past| == 2 && opt != PAD && opt != END
    requires EndOffset(m, 0) == None ==> past == m[N..]
    ensures var file := WriteLease(h, m); var over := Options.Overload(m, 0, 0);
      && HEADER <= |file| <= MESSAGE
      && (Outcome(h, ReadLease(file, past), opt) == Outcome(h, m, opt)
          <==> EndOffset(m, 0) == None || over % 4 == 0 || AddsNothing(Own(m, opt), Beyond(h, opt, over)))
  {
    hide Scan, Hops, Options.Overload, EndOffset, Beyond, AddsNothing, Gains, Walk, Own;
    var file := WriteLease(h, m);
    LeaseRoundTrip(h, m, past, opt);
    var m' := ReadLease(file, past);
    var k := EndOffset(m, 0);
    if k.Some? {
      assert file[HEADER..] == m[..k.value];
      ScanReloaded(m, m', opt, 0, k.value, 0, None);
      NotOverloadedFits(h, m', opt);
      StartFits(m', opt);
      HopsEnd(h, opt, Start(m', opt), AREAS);
      if !Start(m, opt).Elsewhere? {
        NotOverloadedFits(h, m, opt);
      }
    } else {
      assert file[HEADER..] == m[..N];
      assert m' == m[..N] + past == m;
    }
  }

  // ----- the program

  /** What LookUp has gathered: earlier instances in the buffer, the last one still in its area. */
  function Gathered(copied: seq<byte>, last: Option<seq<byte>>): Option<seq<byte>> {
    if last == None then None else Some(copied + last.value)
  }

  /** The end of get_option: with several instances the last is copied too, a single one is returned
      where it lies. */
  method Finish(buffer: array<byte>, used: nat, last: Option<seq<byte>>, split: bool) returns (r: Lookup)
    requires buffer.Length == BUFFER && used <= BUFFER && (split ==> last.Some?)
    requires !split ==> used == 0 && Size(last) <= BUFFER
    modifies buffer
    ensures r == Copied(Gathered(old(buffer[..used]), last))
  {
    if split {
      if used + |last.value| > BUFFER {
        return Overrun;
      }
      Put(buffer, used, last.value);
      r := Found(buffer[..used + |last.value|]);
    } else {
      assert last.Some? ==> [] + last.value == last.value;
      r := Answer(last);
    }
  }

  /** get_option as the program runs it: `last` is the last instance seen, earlier ones are copied to
      `buffer`, and END may move the walk to another area.  It must not be asked where it would never
      answer; a copy that does not fit ends it. */
  method LookUp(h: Header, m: Memory, opt: byte) returns (r: Lookup)
    requires Outcome(h, m, opt) != Endless
    ensures r == Outcome(h, m, opt)
  {
    hide Copying, CopyHops, FileField, NameField, Outcome, Extend;
    OutcomeIff(h, m, opt);
    ghost var left: nat :| Walk(h, m, opt, left) == Outcome(h, m, opt) && !Walk(h, m, opt, left).Elsewhere?;
    var a: seq<byte>, p: nat, over: byte := m, 0, 0;
    var last: Option<seq<byte>>, split := None, false;
    var buffer, used := new byte[BUFFER], 0;
    while p < |a| - 2
      invariant |a| >= 2 && used <= BUFFER && (split ==> last.Some?) && Size(last) <= 255 && (!split ==> used == 0)
      invariant Outcome(h, m, opt) == CopyHops(h, opt, Copying(a, opt, p, over, Gathered(buffer[..used], last)), left)
      invariant !Outcome(h, m, opt).Elsewhere?
      decreases left, |a| - p
    {
      ghost var acc := Gathered(buffer[..used], last);
      CopyStep(a, opt, p, over, acc);
      var o := a[p];
      p := p + 1;
      if o == opt {
        if last.Some? {
          if used + |last.value| > BUFFER {
            CopyHopsEnd(h, opt, Overrun, left);
            return Overrun;
          }
          Put(buffer, used, last.value);
          used, split := used + |last.value|, true;
        }
        var before := if last.Some? then Some(buffer[..used]) else None;
        assert before == acc && !Long(acc);
        if p + a[p] > |a| - 2 {
          CopyHopsEnd(h, opt, Malformed(before), left);
          return Malformed(before);
        }
        last := Some(a[p + 1..p + 1 + a[p]]);
        GatheredNext(acc, buffer[..used], last.value);
      }
      if o == PAD {
        continue;
      }
      if o == END {
        ghost var acc' := Gathered(buffer[..used], last);
        if over % 4 == 0 {
          CopyHopsEnd(h, opt, Copied(acc'), left);
          r := Finish(buffer, used, last, split);
          return;
        }
        CopyHopsStep(h, opt, over, acc', left);
        a, p, over := Area(h, over), 0, Left(over);
        left := left - 1;
      } else if o == OVERLOADED && over == 0 {
        over := a[p + 1];
      }
      p := p + 1 + a[p];
    }
    CopyStep(a, opt, p, over, Gathered(buffer[..used], last));
    CopyHopsEnd(h, opt, Copied(Gathered(buffer[..used], last)), left);
    r := Finish(buffer, used, last, split);
  }

  lemma GatheredNext(acc: Option<seq<byte>>, copied: seq<byte>, more: seq<byte>)
    requires copied == if acc.Some? then acc.value else []
    ensures Gathered(copied, Some(more)) == Extend(acc, more)
  {
  }

  lemma CopyHopsStep(h: Header, opt: byte, over: byte, acc: Option<seq<byte>>, n: nat)
    requires over % 4 != 0 && !CopyHops(h, opt, Elsewhere(over, acc), n).Elsewhere?
    ensures n > 0 && CopyHops(h, opt, Elsewhere(over, acc), n) == CopyHops(h, opt, CopyHop(h, opt, over, acc), n - 1)
  {
  }
}
