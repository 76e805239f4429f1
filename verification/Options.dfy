/**
 The options of a DHCPv4 message (dhcpcd/dhcp.c): looking them up, saving and reloading a lease, and
 appending addresses in place.

 The options area is 1232 bytes; two more bytes of memory follow it because the lookup may read that
 far.  The same walk goes on in the boot file and server name fields of an overloaded message.
 */
module Options {
  import opened Common

  const N := 1232
  const HEADER := 240           // the fixed part of the message before the options
  const MESSAGE := 1472

  const PAD: byte := 0
  const SUBNET_MASK: byte := 1
  const OVERLOADED: byte := 52
  const END: byte := 255

  type Memory = m: seq<byte> | |m| == N + 2 witness Zeros(N + 2)

  /** What get_option answers.  Elsewhere: a walk met END with the overload byte `over` still asking
      for another area, having gathered `acc`.  Malformed: an option runs out of its area, with `before`
      gathered.  Endless: it never answers.  Overrun: it wrote past the end of its buffer. */
  datatype Lookup =
    | Found(data: seq<byte>) | Missing | Malformed(before: Option<seq<byte>>)
    | Elsewhere(over: byte, acc: Option<seq<byte>>) | Endless | Overrun

  function Answer(acc: Option<seq<byte>>): Lookup {
    if acc.Some? then Found(acc.value) else Missing
  }

  function Extend(acc: Option<seq<byte>>, more: seq<byte>): Option<seq<byte>> {
    Some((if acc.Some? then acc.value else []) + more)
  }

  /** The walk of get_option from position p of an area with two bytes of memory behind it; `acc` is
      what was gathered, `over` the overload byte. */
  function Scan(m: seq<byte>, opt: byte, p: nat, over: byte, acc: Option<seq<byte>>): Lookup
    requires |m| >= 2
    decreases |m| - p
  {
    if p >= |m| - 2 then Answer(acc)
    else
      var o, l := m[p], m[p + 1];
      if o == opt && p + 1 + l > |m| - 2 then Malformed(acc)
      else
        var acc' := if o == opt then Extend(acc, m[p + 2..p + 2 + l]) else acc;
        if o == PAD then Scan(m, opt, p + 1, over, acc')
        else if o == END then (if over % 4 != 0 then Elsewhere(over, acc') else Answer(acc'))
        else Scan(m, opt, p + 2 + l, if o == OVERLOADED && over == 0 then m[p + 2] else over, acc')
  }

  const SNAME := 44
  const FILE := 108

  type Header = h: seq<byte> | |h| == HEADER witness Zeros(HEADER)

  /** The server name and boot file fields, each with the two bytes behind it. */
  function NameField(h: Header): seq<byte> {
    h[SNAME..SNAME + 66]
  }

  function FileField(h: Header): seq<byte> {
    h[FILE..FILE + 130]
  }

  /** The area an overload byte asks for next, and what is left of the byte. */
  function Area(h: Header, over: byte): (a: seq<byte>)
    ensures |a| >= 2
  {
    if over % 2 == 1 then FileField(h) else NameField(h)
  }

  function Left(over: byte): byte
    requires over % 4 != 0
  {
    if over % 2 == 1 then over - 1 else over - 2
  }

  /** One more area: its first byte is taken for a length before the walk goes on. */
  function Hop(h: Header, opt: byte, over: byte, acc: Option<seq<byte>>): Lookup
    requires over % 4 != 0
  {
    var a := Area(h, over);
    var skipped: nat := a[0];
    Scan(a, opt, 1 + skipped, Left(over), acc)
  }

  /** At most n more areas. */
  function Hops(h: Header, opt: byte, r: Lookup, n: nat): Lookup
    decreases n
  {
    if n == 0 || !r.Elsewhere? || r.over % 4 == 0 then r else Hops(h, opt, Hop(h, opt, r.over, r.acc), n - 1)
  }

  /** A walk that needs a sixth area never ends, as EndlessIsForever shows. */
  const AREAS := 5

  function Final(h: Header, opt: byte, r: Lookup, n: nat): Lookup {
    var x := Hops(h, opt, r, n);
    if x.Elsewhere? then Endless else x
  }

  /** get_option on a message of header and options area, were its buffer large enough. */
  function GetOption(h: Header, m: Memory, opt: byte): Lookup {
    Final(h, opt, Scan(m, opt, 0, 0, None), AREAS)
  }

  // ----- what a lookup means

  datatype Entry = Entry(code: byte, data: seq<byte>)

  /** Every option from p on lies inside the area. */
  predicate Fits(m: Memory, p: nat)
    decreases N - p
  {
    if p >= N then p == N
    else if m[p] == PAD then Fits(m, p + 1)
    else if m[p] == END then true
    else p + 2 + m[p + 1] <= N && Fits(m, p + 2 + m[p + 1])
  }

  /** The options from p on, in order. */
  function Entries(m: Memory, p: nat): seq<Entry>
    requires Fits(m, p)
    decreases N - p
  {
    if p >= N then []
    else if m[p] == PAD then Entries(m, p + 1)
    else if m[p] == END then []
    else [Entry(m[p], m[p + 2..p + 2 + m[p + 1]])] + Entries(m, p + 2 + m[p + 1])
  }

  /** Section 5 of RFC 3396: the value of a split option is its instances joined in order. */
  function Joined(es: seq<Entry>, opt: byte): Option<seq<byte>> {
    if es == [] then None
    else
      var rest := Joined(es[1..], opt);
      if es[0].code != opt then rest
      else Some(es[0].data + (if rest.Some? then rest.value else []))
  }

  function Append(a: Option<seq<byte>>, b: Option<seq<byte>>): Option<seq<byte>> {
    if b == None then a else Extend(a, b.value)
  }

  /** Gathering one more instance first, or joining it to what follows, is the same. */
  lemma AppendJoined(acc: Option<seq<byte>>, e: Entry, es: seq<Entry>, opt: byte)
    ensures Append(acc, Joined([e] + es, opt)) ==
      Append(if e.code == opt then Extend(acc, e.data) else acc, Joined(es, opt))
  {
    assert ([e] + es)[1..] == es;
    var rest := Joined(es, opt);
    if e.code == opt && rest.Some? {
      var head := if acc.Some? then acc.value else [];
      assert (head + e.data) + rest.value == head + (e.data + rest.value);
    } else if e.code == opt {
      assert e.data + [] == e.data;
    }
  }

  predicate NoOverload(m: Memory, p: nat)
    requires Fits(m, p)
  {
    forall i :: 0 <= i < |Entries(m, p)| ==> Entries(m, p)[i].code != OVERLOADED
  }

  lemma {:induction false} ScanJoins(m: Memory, opt: byte, p: nat, acc: Option<seq<byte>>)
    requires Fits(m, p) && opt != PAD && opt != END && NoOverload(m, p)
    ensures Scan(m, opt, p, 0, acc) == Answer(Append(acc, Joined(Entries(m, p), opt)))
    decreases N - p
  {
    hide Append, Extend, Joined, Answer;
    if p >= N || m[p] == END {
      JoinedNone(acc, opt);
    } else if m[p] == PAD {
      assert Entries(m, p) == Entries(m, p + 1);
      ScanJoins(m, opt, p + 1, acc);
    } else {
      var q := p + 2 + m[p + 1];
      var e := Entry(m[p], m[p + 2..q]);
      var es := Entries(m, q);
      assert Entries(m, p) == [e] + es;
      assert forall i :: 0 <= i < |es| ==> es[i] == ([e] + es)[i + 1];
      assert ([e] + es)[0].code != OVERLOADED;
      AppendJoined(acc, e, es, opt);
      ScanJoins(m, opt, q, if e.code == opt then Extend(acc, e.data) else acc);
    }
  }

  lemma JoinedNone(acc: Option<seq<byte>>, opt: byte)
    ensures Append(acc, Joined([], opt)) == acc
  {
  }

  /** In a well-formed area without overloading, an option's value is all its instances in order. */
  lemma GetOptionJoins(h: Header, m: Memory, opt: byte)
    requires Fits(m, 0) && opt != PAD && opt != END && NoOverload(m, 0)
    ensures GetOption(h, m, opt) == Answer(Joined(Entries(m, 0), opt))
  {
    ScanJoins(m, opt, 0, None);
    var j := Joined(Entries(m, 0), opt);
    if j.Some? {
      assert [] + j.value == j.value;
    }
  }

  lemma ScanStep(m: seq<byte>, opt: byte, p: nat, over: byte, acc: Option<seq<byte>>)
    requires |m| >= 2
    ensures p >= |m| - 2 ==> Scan(m, opt, p, over, acc) == Answer(acc)
    ensures p < |m| - 2 && m[p] == opt && p + 1 + m[p + 1] > |m| - 2 ==> Scan(m, opt, p, over, acc) == Malformed(acc)
    ensures p < |m| - 2 && (m[p] == opt ==> p + 1 + m[p + 1] <= |m| - 2) ==>
      var l := m[p + 1]; var acc' := if m[p] == opt then Extend(acc, m[p + 2..p + 2 + l]) else acc;
      Scan(m, opt, p, over, acc) ==
        if m[p] == PAD then Scan(m, opt, p + 1, over, acc')
        else if m[p] == END then (if over % 4 != 0 then Elsewhere(over, acc') else Answer(acc'))
        else Scan(m, opt, p + 2 + l, if m[p] == OVERLOADED && over == 0 then m[p + 2] else over, acc')
  {
    hide Answer, Extend;
  }

  lemma HopsEnd(h: Header, opt: byte, r: Lookup, n: nat)
    requires !r.Elsewhere?
    ensures Final(h, opt, r, n) == r
  {
  }

  // ----- saving and reloading a lease

  /** Where write_lease stops: the END marker, if the walk meets one. */
  function EndOffset(m: Memory, p: nat): (k: Option<nat>)
    ensures k.Some? ==> p <= k.value < N && m[k.value] == END
    decreases N - p
  {
    if p >= N then None
    else if m[p] == END then Some(p)
    else if m[p] == PAD then EndOffset(m, p + 1)
    else EndOffset(m, p + 2 + m[p + 1])
  }

  /** The bytes write_lease puts in the file for a lease that is not BOOTP's. */
  function WriteLease(h: Header, m: Memory): seq<byte> {
    var k := EndOffset(m, 0);
    h + m[..if k.Some? then k.value else N]
  }

  /** The options area of the zeroed message read_lease fills; `past` is the memory behind it. */
  function ReadLease(file: seq<byte>, past: seq<byte>): Memory
    requires HEADER <= |file| <= MESSAGE && |past| == 2
  {
    file[HEADER..] + Zeros(MESSAGE - |file|) + past
  }

  lemma {:induction false} ScanPads(m: Memory, opt: byte, p: nat, over: byte, acc: Option<seq<byte>>)
    requires opt != PAD && p <= N && forall i :: p <= i < N ==> m[i] == PAD
    ensures Scan(m, opt, p, over, acc) == Answer(acc)
    decreases N - p
  {
    if p < N {
      ScanPads(m, opt, p + 1, over, acc);
    }
  }

  /** Up to the END at k the two areas agree; behind it the reloaded one is padding. */
  lemma {:induction false} ScanReloaded(m: Memory, m': Memory, opt: byte, p: nat, k: nat, over: byte, acc: Option<seq<byte>>)
    requires opt != PAD && opt != END && EndOffset(m, p) == Some(k)
    requires forall i :: 0 <= i < k ==> m'[i] == m[i]
    requires forall i :: k <= i < N ==> m'[i] == PAD
    ensures var r := Scan(m, opt, p, over, acc); Scan(m', opt, p, over, acc) == if r.Elsewhere? then Answer(r.acc) else r
    decreases N - p
  {
    hide Scan, Extend;
    ScanStep(m, opt, p, over, acc);
    ScanStep(m', opt, p, over, acc);
    if p == k {
      ScanPads(m', opt, k, over, acc);
    } else if m[p] == PAD {
      ScanReloaded(m, m', opt, p + 1, k, over, acc);
    } else {
      var l := m[p + 1];
      var q := p + 2 + l;
      assert q <= k && m'[p] == m[p];
      OptionBefore(m, m', p, k);
      var acc' := if m[p] == opt then Extend(acc, m[p + 2..q]) else acc;
      var over' := if m[p] == OVERLOADED && over == 0 then m[p + 2] else over;
      var over'' := if m[p] == OVERLOADED && over == 0 then m'[p + 2] else over;
      ScanReloaded(m, m', opt, q, k, over', acc');
      if over'' != over' {
        // an overload option of length zero whose value byte is the END marker itself
        assert l == 0 && p + 2 == k;
        ScanStep(m, opt, k, over', acc');
        ScanPads(m', opt, k, over'', acc');
      }
    }
  }

  lemma OptionBefore(m: Memory, m': Memory, p: nat, k: nat)
    requires p < k < N && m[p] != PAD && EndOffset(m, p) == Some(k) && m[p] != END
    requires forall i :: 0 <= i < k ==> m'[i] == m[i]
    ensures p + 2 + m[p + 1] <= k && m'[p + 1] == m[p + 1]
    ensures m'[p + 2..p + 2 + m[p + 1]] == m[p + 2..p + 2 + m[p + 1]]
  {
  }

  /** The overload byte in effect when the walk meets the END marker: the value of the first
      overload option, zero without one. */
  function Overload(m: Memory, p: nat, over: byte): byte
    decreases N - p
  {
    if p >= N || m[p] == END then over
    else if m[p] == PAD then Overload(m, p + 1, over)
    else Overload(m, p + 2 + m[p + 1], if m[p] == OVERLOADED && over == 0 then m[p + 2] else over)
  }

  /** With an END marker, a lookup continues elsewhere exactly when the message is overloaded. */
  lemma {:induction false} ElsewhereIfOverloaded(m: Memory, opt: byte, p: nat, over: byte, acc: Option<seq<byte>>)
    requires opt != PAD && opt != END && EndOffset(m, p).Some?
    ensures var r := Scan(m, opt, p, over, acc); var o := Overload(m, p, over);
      (r.Elsewhere? <==> o % 4 != 0) && (r.Elsewhere? ==> r.over == o) && !r.Malformed?
    decreases N - p
  {
    if m[p] == END {
    } else if m[p] == PAD {
      ElsewhereIfOverloaded(m, opt, p + 1, over, acc);
    } else {
      var q := p + 2 + m[p + 1];
      ElsewhereIfOverloaded(m, opt, q, if m[p] == OVERLOADED && over == 0 then m[p + 2] else over,
        if m[p] == opt then Extend(acc, m[p + 2..q]) else acc);
    }
  }

  /** The loop of write_lease. */
  method LeaseLength(m: Memory) returns (bytes: nat)
    ensures bytes == HEADER + (if EndOffset(m, 0).Some? then EndOffset(m, 0).value else N)
  {
    var p := 0;
    while p < N
      invariant 0 <= p && EndOffset(m, 0) == EndOffset(m, p)
      decreases N - p
    {
      var o := m[p];
      if o == END {
        return HEADER + p;
      }
      p := p + 1;
      if o != PAD {
        p := p + 1 + m[p];
      }
    }
    bytes := MESSAGE;
  }

  // ----- appending addresses in place

  /** The END marker the walk of dhcp_message_add_addr stops at; it knows no padding. */
  function EndAt(o: seq<byte>, p: nat): (k: Option<nat>)
    requires |o| >= N
    ensures k.Some? ==> p <= k.value < N && o[k.value] == END
    decreases N - p
  {
    if p >= N then None
    else if o[p] == END then Some(p)
    else if p + 1 >= N then None
    else EndAt(o, p + 2 + o[p + 1])
  }

  /** The guard of dhcp_message_add_addr: six bytes fit in the message. */
  predicate RoomAt(k: nat) {
    HEADER + k + 6 <= MESSAGE
  }

  /** Seven bytes are written where the guard checked for six: with any other END offset than 1226
      the marker stays inside the area, at 1226 it lands on the byte behind it. */
  lemma OverrunsOnlyAt1226(k: nat)
    ensures RoomAt(k) && k + 6 >= N <==> k == 1226
  {
  }

  function Appended(o: seq<byte>, k: nat, kind: byte, addr: seq<byte>): (r: seq<byte>)
    requires |addr| == 4 && k + 7 <= |o|
    ensures |r| == |o|
  {
    o[..k] + [kind, 4] + addr + [END] + o[k + 7..]
  }

  /** How dhcp_message_add_addr ends.  Astray: without an END its walk reads on behind the array. */
  datatype Adding = Added | NoRoom | Astray

  function Adds(k: Option<nat>): Adding {
    if k == None then Astray else if RoomAt(k.value) then Added else NoRoom
  }

  /** dhcp_message_add_addr on memory that begins with the options array; with END at 1226 it writes
      the byte behind the array. */
  method AddAddr(o: array<byte>, kind: byte, addr: seq<byte>) returns (r: Adding)
    requires o.Length >= N && |addr| == 4
    requires var k := EndAt(o[..], 0); k.Some? && RoomAt(k.value) ==> k.value + 7 <= o.Length
    modifies o
    ensures r == Adds(old(EndAt(o[..], 0)))
    ensures o[..] == if r == Added then Appended(old(o[..]), old(EndAt(o[..], 0)).value, kind, addr) else old(o[..])
  {
    var p := 0;
    while p < N && o[p] != END
      invariant 0 <= p && o[..] == old(o[..])
      invariant EndAt(o[..], p) == EndAt(o[..], 0)
      decreases N - p
    {
      p := p + 1;
      if p >= N {
        return Astray;
      }
      p := p + o[p] + 1;
    }
    if p >= N {
      return Astray;
    }
    if HEADER + p + 6 > MESSAGE {
      return NoRoom;
    }
    AppendedIs(o[..], p, kind, addr);
    Store(o, p, [kind, 4] + addr + [END]);
    r := Added;
  }

  lemma AppendedIs(o: seq<byte>, k: nat, kind: byte, addr: seq<byte>)
    requires |addr| == 4 && k + 7 <= |o|
    ensures Appended(o, k, kind, addr) == Overwritten(o, k, [kind, 4] + addr + [END])
  {
  }

  // ----- messages made of addresses

  datatype AddrOption = AddrOption(kind: byte, addr: seq<byte>)

  /** An address option any lookup can tell from padding, overloading and the END marker. */
  predicate Plain(a: AddrOption) {
    a.kind != PAD && a.kind != OVERLOADED && a.kind != END && |a.addr| == 4
  }

  predicate AllPlain(l: seq<AddrOption>) {
    forall i :: 0 <= i < |l| ==> Plain(l[i])
  }

  function Encoded(l: seq<AddrOption>): (b: seq<byte>)
    requires AllPlain(l)
    ensures |b| == 6 * |l|
  {
    if l == [] then [] else [l[0].kind, 4] + l[0].addr + Encoded(l[1..])
  }

  /** The options of a message that holds these addresses; 205 fit. */
  function Rendered(l: seq<AddrOption>): (o: seq<byte>)
    requires AllPlain(l) && |l| <= 205
    ensures |o| == N
  {
    Encoded(l) + [END] + Zeros(N - 1 - 6 * |l|)
  }

  /** dhcp_message_new: the netmask, if it is not zero. */
  function NewMessage(mask: seq<byte>): (o: seq<byte>)
    requires |mask| == 4
    ensures |o| == N
  {
    if mask == [0, 0, 0, 0] then [END] + Zeros(N - 1)
    else [SUBNET_MASK, 4] + mask + [END] + Zeros(N - 7)
  }

  lemma NewIsRendered(mask: seq<byte>)
    requires |mask| == 4
    ensures AllPlain(Initially(mask)) && NewMessage(mask) == Rendered(Initially(mask))
  {
    var l := [AddrOption(SUBNET_MASK, mask)];
    assert Encoded(l) == [SUBNET_MASK, 4] + mask + Encoded(l[1..]);
    assert Encoded(l) == [SUBNET_MASK, 4] + mask;
    assert Encoded([]) + [END] == [END];
  }

  lemma {:induction false} EncodedSnoc(l: seq<AddrOption>, a: AddrOption)
    requires AllPlain(l) && Plain(a)
    ensures AllPlain(l + [a]) && Encoded(l + [a]) == Encoded(l) + ([a.kind, 4] + a.addr)
  {
    if l == [] {
      assert l + [a] == [a];
      assert Encoded([a]) == [a.kind, 4] + a.addr + Encoded([a][1..]);
    } else {
      assert (l + [a])[1..] == l[1..] + [a] && (l + [a])[0] == l[0];
      EncodedSnoc(l[1..], a);
      var h: seq<byte> := [l[0].kind, 4] + l[0].addr;
      assert h + (Encoded(l[1..]) + ([a.kind, 4] + a.addr)) == (h + Encoded(l[1..])) + ([a.kind, 4] + a.addr);
    }
  }

  /** The walk steps over every address to the END marker, so its offset is a multiple of six. */
  lemma {:induction false} EndOfRendered(l: seq<AddrOption>, done: nat, o: seq<byte>)
    requires AllPlain(l) && |l| <= 205 && done <= |l| && o == Rendered(l)
    ensures EndAt(o, 6 * done) == Some(6 * |l|)
    decreases |l| - done
  {
    if done < |l| {
      EncodedAt(l, done);
      assert o[6 * done] == Encoded(l)[6 * done] == l[done].kind;
      assert o[6 * done + 1] == Encoded(l)[6 * done + 1] == 4;
      EndOfRendered(l, done + 1, o);
    } else {
      assert o[6 * |l|] == END;
    }
  }

  lemma {:induction false} EncodedAt(l: seq<AddrOption>, i: nat)
    requires AllPlain(l) && i < |l|
    ensures Encoded(l)[6 * i..6 * i + 6] == [l[i].kind, 4] + l[i].addr
    ensures Encoded(l)[6 * i] == l[i].kind && Encoded(l)[6 * i + 1] == 4
  {
    if i == 0 {
      assert Encoded(l)[..6] == [l[0].kind, 4] + l[0].addr;
    } else {
      EncodedAt(l[1..], i - 1);
      assert Encoded(l)[6..] == Encoded(l[1..]);
      assert Encoded(l)[6 * i..6 * i + 6] == Encoded(l[1..])[6 * (i - 1)..6 * (i - 1) + 6];
    }
  }

  /** Appending to a message of addresses gives the message with one more, until 205 are held. */
  lemma AppendRendered(l: seq<AddrOption>, a: AddrOption)
    requires AllPlain(l) && Plain(a) && |l| <= 205
    ensures EndAt(Rendered(l), 0) == Some(6 * |l|) && 6 * |l| != 1226
    ensures RoomAt(6 * |l|) <==> |l| < 205
    ensures |l| < 205 ==> AllPlain(l + [a]) && Appended(Rendered(l), 6 * |l|, a.kind, a.addr) == Rendered(l + [a])
  {
    EndOfRendered(l, 0, Rendered(l));
    if |l| < 205 {
      EncodedSnoc(l, a);
      var k := 6 * |l|;
      var o := Rendered(l);
      assert o[..k] == Encoded(l);
      assert o[k + 7..] == Zeros(N - k - 7);
      assert Rendered(l + [a]) == Encoded(l + [a]) + [END] + Zeros(N - 7 - k);
    }
  }

  /** All addresses of one kind, joined in order. */
  function AddrsOf(l: seq<AddrOption>, kind: byte): Option<seq<byte>> {
    if l == [] then None
    else
      var rest := AddrsOf(l[1..], kind);
      if l[0].kind != kind then rest
      else Some(l[0].addr + (if rest.Some? then rest.value else []))
  }

  function AsEntries(l: seq<AddrOption>): seq<Entry> {
    seq(|l|, i requires 0 <= i < |l| => Entry(l[i].kind, l[i].addr))
  }

  lemma {:induction false} JoinedAddrs(l: seq<AddrOption>, kind: byte)
    ensures Joined(AsEntries(l), kind) == AddrsOf(l, kind)
  {
    if l != [] {
      assert AsEntries(l)[1..] == AsEntries(l[1..]);
      JoinedAddrs(l[1..], kind);
    }
  }

  lemma EntryStep(m: Memory, p: nat, code: byte, data: seq<byte>)
    requires p + 2 + |data| < N && m[p] == code && code != PAD && code != END
    requires m[p + 1] == |data| && m[p + 2..p + 2 + |data|] == data && Fits(m, p + 2 + |data|)
    ensures Fits(m, p) && Entries(m, p) == [Entry(code, data)] + Entries(m, p + 2 + |data|)
  {
  }

  lemma EntryEnd(m: Memory, p: nat)
    requires p < N && m[p] == END
    ensures Fits(m, p) && Entries(m, p) == []
  {
  }

  lemma AsEntriesStep(l: seq<AddrOption>, i: nat)
    requires i < |l|
    ensures AsEntries(l[i..]) == [Entry(l[i].kind, l[i].addr)] + AsEntries(l[i + 1..])
  {
  }

  lemma {:induction false} EntriesOfRendered(l: seq<AddrOption>, done: nat, m: Memory)
    requires AllPlain(l) && |l| <= 205 && done <= |l| && m[..N] == Rendered(l)
    ensures Fits(m, 6 * done) && Entries(m, 6 * done) == AsEntries(l[done..])
    decreases |l| - done
  {
    hide Encoded, Rendered, AllPlain, Fits, Entries, AsEntries;
    RenderedAt(l, done, m);
    if done < |l| {
      EntriesOfRendered(l, done + 1, m);
      PlainAt(l, done);
      AsEntriesStep(l, done);
      EntryStep(m, 6 * done, l[done].kind, l[done].addr);
    } else {
      EntryEnd(m, 6 * done);
      NoEntries(l[done..]);
    }
  }

  lemma NoEntries(l: seq<AddrOption>)
    requires l == []
    ensures AsEntries(l) == []
  {
  }

  /** The bytes of one address, or the END behind all of them. */
  lemma RenderedAt(l: seq<AddrOption>, i: nat, m: Memory)
    requires AllPlain(l) && |l| <= 205 && i <= |l| && m[..N] == Rendered(l)
    ensures i == |l| ==> m[6 * i] == END
    ensures i < |l| ==> m[6 * i] == l[i].kind && m[6 * i + 1] == 4 && m[6 * i + 2..6 * i + 6] == l[i].addr
  {
    hide Encoded;
    var o, p := Rendered(l), 6 * i;
    if i < |l| {
      EncodedAt(l, i);
      assert m[p..p + 6] == m[..N][p..p + 6] == Encoded(l)[p..p + 6];
      assert m[p] == m[p..p + 6][0] && m[p + 1] == m[p..p + 6][1];
      assert m[p + 2..p + 6] == m[p..p + 6][2..];
    } else {
      assert m[p] == m[..N][p];
    }
  }

  /** Looking a kind up in a message of addresses gives all of them in the order they were added. */
  lemma LookUpRendered(l: seq<AddrOption>, h: Header, m: Memory, kind: byte)
    requires AllPlain(l) && |l| <= 205 && m[..N] == Rendered(l) && kind != PAD && kind != END
    ensures GetOption(h, m, kind) == Answer(AddrsOf(l, kind))
  {
    EntriesOfRendered(l, 0, m);
    assert l[0..] == l;
    GetOptionJoins(h, m, kind);
    JoinedAddrs(l, kind);
  }

  lemma {:induction false} AddrsSnoc(l: seq<AddrOption>, a: AddrOption, kind: byte)
    ensures AddrsOf(l + [a], kind) == if a.kind == kind then Append(AddrsOf(l, kind), Some(a.addr)) else AddrsOf(l, kind)
  {
    if l == [] {
      assert l + [a] == [a];
      assert AddrsOf([a][1..], kind) == None;
      assert a.addr + [] == a.addr == [] + a.addr;
    } else {
      assert (l + [a])[1..] == l[1..] + [a] && (l + [a])[0] == l[0];
      AddrsSnoc(l[1..], a, kind);
      var rest := AddrsOf(l[1..], kind);
      assert l[0].addr + [] == l[0].addr && [] + a.addr == a.addr;
      if rest.Some? {
        assert l[0].addr + (rest.value + a.addr) == (l[0].addr + rest.value) + a.addr;
      }
    }
  }

  /** One append: lookups of other kinds answer as before, its own kind gains the address at the
      end, so a fresh kind reads back exactly what was added. */
  lemma AppendThenLookUp(l: seq<AddrOption>, a: AddrOption, h: Header, m: Memory, m': Memory, kind: byte)
    requires AllPlain(l) && Plain(a) && |l| < 205 && m[..N] == Rendered(l)
    requires m'[..N] == Appended(m[..N], 6 * |l|, a.kind, a.addr)
    requires kind != PAD && kind != END
    ensures kind != a.kind ==> GetOption(h, m', kind) == GetOption(h, m, kind)
    ensures kind == a.kind && GetOption(h, m, kind) == Missing ==> GetOption(h, m', kind) == Found(a.addr)
    ensures kind == a.kind && GetOption(h, m, kind).Found? ==> GetOption(h, m', kind) == Found(GetOption(h, m, kind).data + a.addr)
  {
    AppendRendered(l, a);
    LookUpRendered(l, h, m, kind);
    LookUpRendered(l + [a], h, m', kind);
    AddrsSnoc(l, a, kind);
    assert [] + a.addr == a.addr;
  }

  /** What a new message holds. */
  function Initially(mask: seq<byte>): seq<AddrOption> {
    if mask == [0, 0, 0, 0] then [] else [AddrOption(SUBNET_MASK, mask)]
  }

  /** What it holds after the appends, of which those beyond 205 entries are refused. */
  function Holds(mask: seq<byte>, adds: seq<AddrOption>): seq<AddrOption> {
    var all := Initially(mask) + adds;
    all[..Min(|all|, 205)]
  }

  lemma HoldsStep(mask: seq<byte>, adds: seq<AddrOption>, i: nat)
    requires |mask| == 4 && AllPlain(adds) && i < |adds|
    ensures var h := Holds(mask, adds[..i]);
      && AllPlain(h) && |h| <= 205
      && Holds(mask, adds[..i + 1]) == if |h| < 205 then h + [adds[i]] else h
  {
    assert Initially(mask) + adds[..i + 1] == (Initially(mask) + adds[..i]) + [adds[i]];
  }

  /** From dhcp_message_new through any sequence of appends: none leaves the array, and the message
      holds the mask and the addresses that fit, in order. */
  method BuildMessage(mask: seq<byte>, adds: seq<AddrOption>) returns (o: array<byte>)
    requires |mask| == 4 && AllPlain(adds)
    ensures fresh(o) && AllPlain(Holds(mask, adds)) && |Holds(mask, adds)| <= 205
    ensures o[..] == Rendered(Holds(mask, adds))
  {
    hide Rendered, EndAt, Holds, Appended, AllPlain, NewMessage;
    o := new byte[N](i requires 0 <= i < N => NewMessage(mask)[i]);
    assert o[..] == NewMessage(mask);
    NewIsRendered(mask);
    HoldsFirst(mask, adds);
    for i := 0 to |adds|
      invariant AllPlain(Holds(mask, adds[..i])) && |Holds(mask, adds[..i])| <= 205
      invariant o[..] == Rendered(Holds(mask, adds[..i]))
    {
      PlainAt(adds, i);
      HoldsStep(mask, adds, i);
      AppendRendered(Holds(mask, adds[..i]), adds[i]);
      var _ := AddAddr(o, adds[i].kind, adds[i].addr);
    }
    assert adds[..|adds|] == adds;
  }

  lemma PlainAt(l: seq<AddrOption>, i: nat)
    requires AllPlain(l) && i < |l|
    ensures Plain(l[i])
  {
  }

  lemma HoldsFirst(mask: seq<byte>, adds: seq<AddrOption>)
    requires |mask| == 4
    ensures Holds(mask, adds[..0]) == Initially(mask) && AllPlain(Initially(mask))
  {
  }
}
