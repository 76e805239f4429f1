/** Decoding a DNS search list with compression pointers (decode_rfc3397 in dhcpcd/dhcp-common.c). */
module Names {
  import opened Common

  const DOT: byte := 46
  const SPACE: byte := 32

  /** Memory from the start of the option on; what lies behind the option's length is arbitrary. */
  type Memory = nat -> byte

  function Slice(mem: Memory, q: nat, l: nat): (s: seq<byte>)
    ensures |s| == l
  {
    seq(l, i requires 0 <= i < l => mem(q + i))
  }

  // ----- decoding

  /** One name: its labels, each followed by a dot, and where the next name starts. */
  datatype Name = Bad | Name(text: seq<byte>, next: nat)

  function Prefixed(t: seq<byte>, n: Name): Name {
    if n.Bad? then Bad else Name(t + n.text, n.next)
  }

  /** The inner loop of decode_rfc3397 at position q after `hops` pointers; `r` is where reading
      resumes once a pointer was followed.  It ends because pointers are counted and labels move
      forward. */
  function ReadName(mem: Memory, pl: nat, q: nat, hops: nat, r: Option<nat>): Name
    requires hops <= 255
    decreases 256 - hops, Max(pl - q, 0)
  {
    if q >= pl then Name([], if r.Some? then r.value else q)
    else
      var l := mem(q);
      if l == 0 then Name([], if r.Some? then r.value else q + 1)
      else if 0x40 <= l < 0xc0 then Bad
      else if l >= 0xc0 then
        var target := l % 0x40 * 256 + mem(q + 1);
        if hops + 1 > 255 || target >= pl then Bad
        else ReadName(mem, pl, target, hops + 1, if r.Some? then r else Some(q + 2))
      else Prefixed(Slice(mem, q + 1, l) + [DOT], ReadName(mem, pl, q + 1 + l, hops, r))
  }

  /** The next name starts further on, so the list ends. */
  lemma {:induction false} NextAdvances(mem: Memory, pl: nat, q: nat, hops: nat, r: Option<nat>)
    requires hops <= 255
    ensures var n := ReadName(mem, pl, q, hops, r);
      n.Name? ==> (r.Some? ==> n.next == r.value) && (r == None ==> n.next >= q && (q < pl ==> n.next > q))
    decreases 256 - hops, Max(pl - q, 0)
  {
    if q < pl {
      var l := mem(q);
      if l >= 0xc0 {
        var target := l % 0x40 * 256 + mem(q + 1);
        if hops + 1 <= 255 && target < pl {
          NextAdvances(mem, pl, target, hops + 1, if r.Some? then r else Some(q + 2));
        }
      } else if 0 < l < 0x40 {
        NextAdvances(mem, pl, q + 1 + l, hops, r);
      }
    }
  }

  /** The last dot of a name becomes the space between names. */
  function Spaced(t: seq<byte>): (s: seq<byte>)
    ensures |s| == |t|
    ensures t != [] ==> s[|s| - 1] == SPACE
  {
    if t == [] then [] else t[..|t| - 1] + [SPACE]
  }

  function Join(t: seq<byte>, rest: Option<seq<byte>>): Option<seq<byte>> {
    if rest == None then None else Some(t + rest.value)
  }

  /** The names from q on, each ended by a space; none when a name is bad. */
  function Decode(mem: Memory, pl: nat, q: nat): Option<seq<byte>>
    decreases Max(pl - q, 0)
  {
    if q >= pl then Some([])
    else
      var n := ReadName(mem, pl, q, 0, None);
      if n.Bad? then None
      else
        NextAdvances(mem, pl, q, 0, None);
        Join(Spaced(n.text), Decode(mem, pl, n.next))
  }

  /** The text as stored: the last space is the terminator. */
  function Terminated(t: seq<byte>): (s: seq<byte>)
    requires t != []
    ensures |s| == |t|
  {
    t[..|t| - 1] + [0]
  }

  /** What the measuring pass returns: the length with terminator, or zero. */
  function Measure(mem: Memory, pl: nat): nat {
    var d := Decode(mem, pl, 0);
    if d == None then 0 else |d.value|
  }

  datatype Status = Good | Invalid | NoRoom

  method CopyLabel(out: array<byte>, at: nat, mem: Memory, q: nat, l: nat)
    requires at + l < out.Length
    modifies out
    ensures out[..at + l + 1] == old(out[..at]) + (Slice(mem, q, l) + [DOT])
  {
    for i := 0 to l
      invariant out[..at + i] == old(out[..at]) + Slice(mem, q, i)
    {
      out[at + i] := mem(q + i);
      assert Slice(mem, q, i + 1) == Slice(mem, q, i) + [mem(q + i)];
    }
    out[at + l] := DOT;
  }

  lemma PrefixedTwice(a: seq<byte>, b: seq<byte>, n: Name)
    ensures Prefixed(a, Prefixed(b, n)) == Prefixed(a + b, n)
  {
    if n.Name? {
      assert a + (b + n.text) == (a + b) + n.text;
    }
  }

  /** The inner loop: one name is appended to the `at` bytes already in `out`, or only measured. */
  method DecodeName(out: array?<byte>, at: nat, room: nat, pl: nat, mem: Memory, start: nat)
    returns (st: Status, q: nat, n: nat)
    requires start < pl && (out != null ==> at <= room <= out.Length)
    modifies out
    ensures var w := ReadName(mem, pl, start, 0, None);
      match st
      case Good =>
        && w.Name? && start < q == w.next && n == at + |w.text|
        && (out != null ==> n <= room && out[..n] == old(out[..at]) + w.text)
      case Invalid => w.Bad?
      case NoRoom => out != null && (w.Name? ==> at + |w.text| > room)
  {
    hide Slice, ReadName, Prefixed;
    ghost var w := ReadName(mem, pl, start, 0, None);
    ghost var part: seq<byte> := [];
    ghost var before := if out != null then out[..at] else [];
    NextAdvances(mem, pl, start, 0, None);
    var r: Option<nat>, hops, l := None, 0, 0;
    q, n := start, at;
    PrefixedBy([], w);
    while q < pl
      invariant hops <= 255 && w == Prefixed(part, ReadName(mem, pl, q, hops, r))
      invariant n == at + |part|
      invariant out != null ==> n <= room && out[..n] == before + part
      decreases 256 - hops, Max(pl - q, 0)
    {
      NameStep(mem, pl, q, hops, r);
      PrefixedBy(part, ReadName(mem, pl, q, hops, r));
      l := mem(q);
      q := q + 1;
      if l == 0 {
        break;
      }
      if 0x40 <= l < 0xc0 {
        return Invalid, q, n;
      } else if l >= 0xc0 {
        l := l % 0x40 * 256 + mem(q);
        q := q + 1;
        if r == None {
          r := Some(q);
        }
        hops := hops + 1;
        if hops > 255 {
          return Invalid, q, n;
        }
        q := l;
        if q >= pl {
          return Invalid, q, n;
        }
      } else {
        ghost var segment := Slice(mem, q, l) + [DOT];
        PrefixedTwice(part, segment, ReadName(mem, pl, q + l, hops, r));
        PrefixedBy(part + segment, ReadName(mem, pl, q + l, hops, r));
        if out != null {
          if n + l + 1 > room {
            return NoRoom, q, n;
          }
          CopyLabel(out, n, mem, q, l);
          assert out[..n + l + 1] == before + (part + segment);
        }
        part := part + segment;
        n := n + l + 1;
        q := q + l;
      }
    }
    NameEnds(mem, pl, q, hops, r);
    PrefixedBy(part, ReadName(mem, pl, q, hops, r));
    if r.Some? {
      q := r.value;
    }
    assert w == Name(part, q);
    st := Good;
  }

  lemma PrefixedBy(t: seq<byte>, n: Name)
    ensures n == Bad ==> Prefixed(t, n) == Bad
    ensures n.Name? ==> Prefixed(t, n).Name? && |Prefixed(t, n).text| >= |t|
    ensures n.Name? && n.text == [] ==> Prefixed(t, n) == Name(t, n.next)
    ensures t == [] ==> Prefixed(t, n) == n
  {
    if n.Name? {
      assert t + [] == t && [] + n.text == n.text;
    }
  }

  /** ReadName unfolded once. */
  lemma NameStep(mem: Memory, pl: nat, q: nat, hops: nat, r: Option<nat>)
    requires hops <= 255 && q < pl
    ensures var l := mem(q); var n := ReadName(mem, pl, q, hops, r);
      && (l == 0 ==> n == Name([], if r.Some? then r.value else q + 1))
      && (0x40 <= l < 0xc0 ==> n == Bad)
      && (l >= 0xc0 ==> var target := l % 0x40 * 256 + mem(q + 1);
            n == if hops + 1 > 255 || target >= pl then Bad
                 else ReadName(mem, pl, target, hops + 1, if r.Some? then r else Some(q + 2)))
      && (0 < l < 0x40 ==> n == Prefixed(Slice(mem, q + 1, l) + [DOT], ReadName(mem, pl, q + 1 + l, hops, r)))
  {
  }

  lemma NameEnds(mem: Memory, pl: nat, q: nat, hops: nat, r: Option<nat>)
    requires hops <= 255
    ensures q >= pl ==> ReadName(mem, pl, q, hops, r) == Name([], if r.Some? then r.value else q)
  {
  }

  lemma JoinTwice(a: seq<byte>, b: seq<byte>, rest: Option<seq<byte>>)
    ensures Join(a, Join(b, rest)) == Join(a + b, rest)
  {
    if rest.Some? {
      assert a + (b + rest.value) == (a + b) + rest.value;
    }
  }

  /** decode_rfc3397: without `out` it measures; with room for what it measured it writes exactly
      that; with less room it fails. */
  method DecodeRfc3397(out: array?<byte>, room: nat, pl: nat, mem: Memory) returns (n: int)
    requires out != null ==> room <= out.Length
    modifies out
    ensures out == null ==> n == Measure(mem, pl)
    ensures out != null && Measure(mem, pl) > 0 && Measure(mem, pl) <= room ==>
      n == Measure(mem, pl) && out[..n] == Terminated(Decode(mem, pl, 0).value)
    ensures out != null && Measure(mem, pl) > room ==> n == -1
    ensures out != null && Decode(mem, pl, 0) == None ==> n == 0 || n == -1
    ensures out != null && Decode(mem, pl, 0) == Some([]) ==> n == 0 && (room > 0 ==> out[0] == 0)
  {
    hide ReadName, Decode;
    ghost var text: seq<byte> := [];
    var q: nat, count: nat := 0, 0;
    JoinNothing(Decode(mem, pl, 0));
    while q < pl
      invariant Decode(mem, pl, 0) == Join(text, Decode(mem, pl, q))
      invariant count == |text| && (text != [] ==> text[|text| - 1] == SPACE)
      invariant out != null ==> count <= room && out[..count] == text
      decreases Max(pl - q, 0)
    {
      DecodeStep(mem, pl, q);
      ghost var w := ReadName(mem, pl, q, 0, None);
      ghost var start := q;
      var st, next, m := DecodeName(out, count, room, pl, mem, q);
      if st == Invalid {
        return 0;
      }
      if st == NoRoom {
        return -1;
      }
      JoinTwice(text, Spaced(w.text), Decode(mem, pl, next));
      q, count := next, m;
      if out != null && count != 0 {
        assert out[..count] == text + w.text;
        out[count - 1] := SPACE;
        assert out[..count] == text + Spaced(w.text);
      }
      text := text + Spaced(w.text);
    }
    DecodeEnds(mem, pl, q);
    assert text + [] == text;
    if out != null {
      if count != 0 {
        assert out[..count] == text;
        out[count - 1] := 0;
        assert out[..count] == Terminated(text);
      } else if room > 0 {
        out[0] := 0;
      }
    }
    n := count;
  }

  lemma JoinNothing(d: Option<seq<byte>>)
    ensures Join([], d) == d
  {
    if d.Some? {
      assert [] + d.value == d.value;
    }
  }

  lemma DecodeStep(mem: Memory, pl: nat, q: nat)
    requires q < pl
    ensures var n := ReadName(mem, pl, q, 0, None);
      Decode(mem, pl, q) == if n.Bad? then None else Join(Spaced(n.text), Decode(mem, pl, n.next))
  {
  }

  lemma DecodeEnds(mem: Memory, pl: nat, q: nat)
    ensures q >= pl ==> Decode(mem, pl, q) == Some([])
  {
  }
}
