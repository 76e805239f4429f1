/** DHCPv6 options on the wire (dhcpcd/dhcp6.c): code, length, data, one behind the other. */
module Dhcp6Wire {
  import opened Common

  const OPTION_HEADER := 4

  datatype Opt = Opt(code: uint16, data: seq<byte>)

  function CodeAt(b: seq<byte>, p: nat): uint16
    requires p + OPTION_HEADER <= |b|
  {
    Word(b[p], b[p + 1])
  }

  function LenAt(b: seq<byte>, p: nat): uint16
    requires p + OPTION_HEADER <= |b|
  {
    Word(b[p + 2], b[p + 3])
  }

  /** dhcp6_findoption from position p.  The loop asks for more than a header's worth of bytes, so
      an empty option at the very end is not seen. */
  function Find(b: seq<byte>, code: uint16, p: nat): (r: Option<nat>)
    ensures r.Some? ==> p <= r.value && r.value + OPTION_HEADER < |b|
    ensures r.Some? ==> r.value + OPTION_HEADER + LenAt(b, r.value) <= |b| && CodeAt(b, r.value) == code
    decreases |b| - p
  {
    if p + OPTION_HEADER >= |b| then None
    else
      var next := p + OPTION_HEADER + LenAt(b, p);
      if next > |b| then None
      else if CodeAt(b, p) == code then Some(p)
      else Find(b, code, next)
  }

  /** The data of every option of this code that repeated searches find, in order. */
  function FindAll(b: seq<byte>, code: uint16, p: nat): seq<seq<byte>>
    decreases |b| - p
  {
    var r := Find(b, code, p);
    if r == None then []
    else
      var next := r.value + OPTION_HEADER + LenAt(b, r.value);
      [b[r.value + OPTION_HEADER..next]] + FindAll(b, code, next)
  }

  /** dhcp6_findoption's loop. */
  method FindOption(b: seq<byte>, code: uint16, start: nat) returns (r: Option<nat>)
    ensures r == Find(b, code, start)
  {
    var o, len := start, |b| - start;
    while len > OPTION_HEADER
      invariant start <= o && len == |b| - o
      invariant Find(b, code, start) == Find(b, code, o)
      decreases len
    {
      var olen := LenAt(b, o);
      len := len - (OPTION_HEADER + olen);
      if len < 0 {
        return None;
      }
      if CodeAt(b, o) == code {
        return Some(o);
      }
      o := o + OPTION_HEADER + olen;
    }
    r := None;
  }

  // ----- writing

  /** One option with its header. */
  function Encoded(o: Opt): (b: seq<byte>)
    requires |o.data| < U16_LIMIT
    ensures |b| == OPTION_HEADER + |o.data|
  {
    Be16(o.code) + Be16(|o.data|) + o.data
  }

  predicate Encodable(os: seq<Opt>) {
    forall i :: 0 <= i < |os| ==> |os[i].data| < U16_LIMIT
  }

  function EncodedAll(os: seq<Opt>): seq<byte>
    requires Encodable(os)
  {
    if os == [] then [] else Encoded(os[0]) + EncodedAll(os[1..])
  }

  /** The options a byte string consists of, if it is made of whole options. */
  function Parsed(b: seq<byte>): Option<seq<Opt>> {
    if b == [] then Some([])
    else if |b| < OPTION_HEADER || OPTION_HEADER + LenAt(b, 0) > |b| then None
    else
      var next := OPTION_HEADER + LenAt(b, 0);
      var rest := Parsed(b[next..]);
      if rest == None then None else Some([Opt(CodeAt(b, 0), b[OPTION_HEADER..next])] + rest.value)
  }

  lemma EncodedFields(o: Opt, rest: seq<byte>)
    requires |o.data| < U16_LIMIT
    ensures var b := Encoded(o) + rest;
      CodeAt(b, 0) == o.code && LenAt(b, 0) == |o.data| && b[OPTION_HEADER..OPTION_HEADER + |o.data|] == o.data
      && b[OPTION_HEADER + |o.data|..] == rest
  {
    hide Be16;
    var b := Encoded(o) + rest;
    assert b[0] == Be16(o.code)[0] && b[1] == Be16(o.code)[1];
    assert b[2] == Be16(|o.data|)[0] && b[3] == Be16(|o.data|)[1];
    assert b[OPTION_HEADER..OPTION_HEADER + |o.data|] == o.data;
  }

  /** What is written parses back to the same options. */
  lemma {:induction false} ParsedEncoded(os: seq<Opt>)
    requires Encodable(os)
    ensures Parsed(EncodedAll(os)) == Some(os)
  {
    hide Encoded, CodeAt, LenAt;
    if os != [] {
      ParsedEncoded(os[1..]);
      EncodedFields(os[0], EncodedAll(os[1..]));
      EncodedSize(os[0]);
      assert os == [os[0]] + os[1..];
    }
  }

  lemma EncodedSize(o: Opt)
    requires |o.data| < U16_LIMIT
    ensures |Encoded(o)| == OPTION_HEADER + |o.data|
  {
  }

  lemma EncodedNone()
    ensures EncodedAll([]) == []
  {
  }

  lemma EncodedFirst(os: seq<Opt>)
    requires os != [] && Encodable(os)
    ensures EncodedAll(os) == Encoded(os[0]) + EncodedAll(os[1..])
  {
    hide Encoded;
  }

  lemma {:induction false} EncodedAllAppend(a: seq<Opt>, b: seq<Opt>)
    requires Encodable(a) && Encodable(b)
    ensures Encodable(a + b) && EncodedAll(a + b) == EncodedAll(a) + EncodedAll(b)
  {
    hide Encoded, EncodedAll;
    if a == [] {
      assert a + b == b;
      assert [] + EncodedAll(b) == EncodedAll(b);
      EncodedNone();
    } else {
      assert (a + b)[0] == a[0] && (a + b)[1..] == a[1..] + b;
      EncodedAllAppend(a[1..], b);
      EncodedFirst(a);
      EncodedFirst(a + b);
      assert Encoded(a[0]) + (EncodedAll(a[1..]) + EncodedAll(b)) == (Encoded(a[0]) + EncodedAll(a[1..])) + EncodedAll(b);
    }
  }

  // ----- searching what was written

  /** The data of the options with this code, in order. */
  function DataOf(os: seq<Opt>, code: uint16): seq<seq<byte>> {
    if os == [] then []
    else if os[0].code == code then [os[0].data] + DataOf(os[1..], code)
    else DataOf(os[1..], code)
  }

  function Shift(r: Option<nat>, n: nat): Option<nat> {
    if r.Some? then Some(r.value + n) else None
  }

  lemma ShiftedHeader(pre: seq<byte>, b: seq<byte>, p: nat)
    requires p + OPTION_HEADER <= |b|
    ensures CodeAt(pre + b, |pre| + p) == CodeAt(b, p) && LenAt(pre + b, |pre| + p) == LenAt(b, p)
  {
    assert forall i :: 0 <= i < |b| ==> (pre + b)[|pre| + i] == b[i];
  }

  lemma {:induction false} FindShift(pre: seq<byte>, b: seq<byte>, code: uint16, p: nat)
    ensures Find(pre + b, code, |pre| + p) == Shift(Find(b, code, p), |pre|)
    decreases |b| - p
  {
    hide CodeAt, LenAt;
    if p + OPTION_HEADER < |b| {
      ShiftedHeader(pre, b, p);
      FindShift(pre, b, code, p + OPTION_HEADER + LenAt(b, p));
    }
  }

  lemma {:induction false} FindAllShift(pre: seq<byte>, b: seq<byte>, code: uint16, p: nat)
    ensures FindAll(pre + b, code, |pre| + p) == FindAll(b, code, p)
    decreases |b| - p
  {
    hide CodeAt, LenAt, Find;
    FindShift(pre, b, code, p);
    var r := Find(b, code, p);
    if r.Some? {
      ShiftedHeader(pre, b, r.value);
      var next := r.value + OPTION_HEADER + LenAt(b, r.value);
      assert (pre + b)[|pre| + r.value + OPTION_HEADER..|pre| + next] == b[r.value + OPTION_HEADER..next];
      FindAllShift(pre, b, code, next);
    }
  }

  /** Searching from an option on: taken if it has the code, passed over if not; an empty one with
      nothing behind it is not seen. */
  lemma FindAllFrom(o: Opt, rest: seq<byte>, code: uint16)
    requires |o.data| < U16_LIMIT
    ensures FindAll(Encoded(o) + rest, code, 0) ==
      if o.code == code && (o.data != [] || rest != []) then [o.data] + FindAll(rest, code, 0) else FindAll(rest, code, 0)
  {
    hide CodeAt, LenAt, Encoded, FindAll;
    var b := Encoded(o) + rest;
    EncodedSize(o);
    EncodedFields(o, rest);
    FindAllShift(Encoded(o), rest, code, 0);
    FindAllOnce(b, code, 0);
    FindAllOnce(b, code, |Encoded(o)|);
    if rest == [] {
      FindAllOnce(rest, code, 0);
    }
  }

  /** One search of FindAll. */
  lemma FindAllOnce(b: seq<byte>, code: uint16, p: nat)
    ensures var r := Find(b, code, p);
      FindAll(b, code, p) ==
        if r == None then []
        else
          var next := r.value + OPTION_HEADER + LenAt(b, r.value);
          [b[r.value + OPTION_HEADER..next]] + FindAll(b, code, next)
  {
    hide Find;
  }

  /** The message ends in an empty option of this code. */
  predicate EndsEmpty(os: seq<Opt>, code: uint16) {
    os != [] && os[|os| - 1] == Opt(code, [])
  }

  /** Repeated searches find every option that was written, in order, except an empty one at the very
      end. */
  lemma {:induction false} FindAllEncoded(os: seq<Opt>, code: uint16)
    requires Encodable(os)
    ensures FindAll(EncodedAll(os), code, 0) == DataOf(if EndsEmpty(os, code) then os[..|os| - 1] else os, code)
  {
    hide FindAll, Encoded;
    if os == [] {
      FindAllOnce([], code, 0);
    } else {
      var rest := os[1..];
      FindAllEncoded(rest, code);
      FindAllFrom(os[0], EncodedAll(rest), code);
      if rest == [] {
        FindAllOnce([], code, 0);
        assert os[..|os| - 1] == [];
      } else {
        EncodedSize(rest[0]);
        assert EncodedAll(rest) != [];
        assert os[..|os| - 1][1..] == rest[..|rest| - 1];
      }
    }
  }

  lemma {:induction false} DataOfSnoc(os: seq<Opt>, o: Opt, code: uint16)
    ensures DataOf(os + [o], code) == DataOf(os, code) + (if o.code == code then [o.data] else [])
  {
    if os == [] {
      assert os + [o] == [o];
      assert [o][1..] == [];
    } else {
      assert (os + [o])[1..] == os[1..] + [o];
      DataOfSnoc(os[1..], o, code);
    }
  }

  /** So every option written is found if and only if the last is not an empty one of that code. */
  lemma AllFoundIff(os: seq<Opt>, code: uint16)
    requires Encodable(os)
    ensures FindAll(EncodedAll(os), code, 0) == DataOf(os, code) <==> !EndsEmpty(os, code)
  {
    hide FindAll, EncodedAll, DataOf;
    FindAllEncoded(os, code);
    if EndsEmpty(os, code) {
      assert os == os[..|os| - 1] + [Opt(code, [])];
      DataOfSnoc(os[..|os| - 1], Opt(code, []), code);
    }
  }
}
