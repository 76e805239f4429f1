/** Encoding a host name (encode_rfc1035) and its round trip through the decoder. */
module Hostname {
  import opened Common
  import opened Names

  // ----- the encoding

  /** A label behind the one byte kept of its length. */
  function Label(seg: seq<byte>): (r: seq<byte>)
    ensures |r| == 1 + |seg| && r[0] == |seg| % 256
  {
    [|seg| % 256] + seg
  }

  /** The bytes encode_rfc1035 puts from the current length byte on: `seg` is the label collected
      so far, `dotted` whether a dot was met.  A dot after an empty label ends everything. */
  function Labels(src: seq<byte>, seg: seq<byte>, dotted: bool): seq<byte> {
    if src == [] || src == [DOT] then Label(seg) + (if dotted then [0] else [])
    else if src[0] == DOT then
      if Label(seg)[0] == 0 then Label(seg)
      else Label(seg) + Labels(src[1..], [], true)
    else Labels(src[1..], seg + [src[0]], dotted)
  }

  /** What encode_rfc1035 writes for a C string. */
  function Encode(src: seq<byte>): seq<byte> {
    if src == [] then [] else Labels(src, [], false)
  }

  /** Whether a dot other than the last character occurs. */
  predicate Dotted(src: seq<byte>) {
    exists i :: 0 <= i < |src| - 1 && src[i] == DOT
  }

  /** What it returns when it only measures. */
  function EncodedLength(src: seq<byte>): nat {
    if src == [] then 0
    else
      (if src[|src| - 1] == DOT then |src| else |src| + 1) + (if Dotted(src) then 1 else 0)
  }

  /** The early return is taken: an inner dot follows a label of length 0 (or 256, 512, ...). */
  predicate Stops(src: seq<byte>, seg: nat) {
    if src == [] || src == [DOT] then false
    else if src[0] == DOT then seg % 256 == 0 || Stops(src[1..], 0)
    else Stops(src[1..], seg + 1)
  }

  lemma {:induction false} LabelsLength(src: seq<byte>, seg: seq<byte>, dotted: bool)
    ensures var full := 1 + |seg| + |src| - (if src != [] && src[|src| - 1] == DOT then 1 else 0)
        + (if dotted || Dotted(src) then 1 else 0);
      if Stops(src, |seg|) then |Labels(src, seg, dotted)| < full else |Labels(src, seg, dotted)| == full
  {
    if src != [] && src != [DOT] {
      var rest := src[1..];
      assert rest != [] ==> rest[|rest| - 1] == src[|src| - 1];
      DottedTail(src);
      if src[0] == DOT {
        LabelsLength(rest, [], true);
      } else {
        LabelsLength(rest, seg + [src[0]], dotted);
      }
    }
  }

  lemma DottedTail(src: seq<byte>)
    requires src != []
    ensures Dotted(src) <==> (src[0] == DOT && |src| > 1) || Dotted(src[1..])
  {
    if Dotted(src) {
      var i :| 0 <= i < |src| - 1 && src[i] == DOT;
      if i > 0 {
        assert src[1..][i - 1] == DOT;
      }
    }
    if Dotted(src[1..]) {
      var i :| 0 <= i < |src[1..]| - 1 && src[1..][i] == DOT;
      assert src[i + 1] == DOT;
    }
  }

  /** The measured length is the number of bytes written exactly when no inner label has length 0, 256,
      512, ...; otherwise fewer are written. */
  lemma MeasuredIsWritten(src: seq<byte>)
    ensures |Encode(src)| == EncodedLength(src) <==> !Stops(src, 0)
    ensures |Encode(src)| <= EncodedLength(src)
  {
    LabelsLength(src, [], false);
  }

  /** Labels unfolded once. */
  lemma LabelsStep(src: seq<byte>, i: nat, seg: seq<byte>, dotted: bool)
    requires i < |src|
    ensures var l := Labels(src[i..], seg, dotted);
      && (src[i] != DOT ==> l == Labels(src[i + 1..], seg + [src[i]], dotted))
      && (src[i] == DOT && i + 1 == |src| ==> l == Labels([], seg, dotted))
      && (src[i] == DOT && i + 1 < |src| ==>
            l == if Label(seg)[0] == 0 then Label(seg) else Label(seg) + Labels(src[i + 1..], [], true))
  {
    hide Label;
    assert src[i..][1..] == src[i + 1..];
    assert i + 1 == |src| ==> src[i..] == [src[i]];
  }

  lemma LabelsEnd(seg: seq<byte>, dotted: bool)
    ensures Labels([], seg, dotted) == Label(seg) + (if dotted then [0] else [])
  {
  }

  lemma DottedStep(src: seq<byte>, i: nat)
    requires i < |src|
    ensures Dotted(src[i..]) <==> (src[i] == DOT && i + 1 < |src|) || Dotted(src[i + 1..])
    ensures i + 1 == |src| ==> !Dotted(src[i..])
    ensures !Dotted([]) && src[0..] == src && src[|src|..] == []
  {
    DottedTail(src[i..]);
    assert src[i..][1..] == src[i + 1..];
  }

  /** The length byte of a finished label. */
  method PutLength(dst: array<byte>, lp: nat, p: nat, ghost out: seq<byte>, ghost seg: seq<byte>)
    requires lp < p <= dst.Length && dst[..lp] == out && dst[lp + 1..p] == seg
    modifies dst
    ensures dst[..p] == out + Label(seg) && dst[lp] == Label(seg)[0]
  {
    dst[lp] := (p - lp - 1) % 256;
  }

  method PutByte(dst: array<byte>, lp: nat, p: nat, c: byte, ghost out: seq<byte>, ghost seg: seq<byte>)
    requires lp < p < dst.Length && dst[..lp] == out && dst[lp + 1..p] == seg
    modifies dst
    ensures dst[..lp] == out && dst[lp + 1..p + 1] == seg + [c]
  {
    dst[p] := c;
  }

  /** The last label and, after several, the terminator. */
  method PutEnd(dst: array<byte>, lp: nat, p: nat, dotted: bool, ghost out: seq<byte>, ghost seg: seq<byte>)
    requires lp < p <= dst.Length && dst[..lp] == out && dst[lp + 1..p] == seg && (dotted ==> p < dst.Length)
    modifies dst
    ensures |Labels([], seg, dotted)| == 1 + |seg| + (if dotted then 1 else 0)
    ensures dst[..if dotted then p + 1 else p] == out + Labels([], seg, dotted)
  {
    hide Labels, Label;
    LabelsEnd(seg, dotted);
    PutLength(dst, lp, p, out, seg);
    if dotted {
      dst[p] := 0;
      assert dst[..p + 1] == out + (Label(seg) + [0]);
    } else {
      assert Label(seg) + [] == Label(seg);
    }
  }

  lemma EncodeIsLabels(src: seq<byte>)
    ensures src == [] ==> Encode(src) == []
    ensures src != [] ==> Encode(src) == Labels(src, [], false)
  {
  }

  /** encode_rfc1035 itself: `lp` is the length byte of the current label, `p` the next free one. */
  method EncodeRfc1035(src: seq<byte>, dst: array?<byte>) returns (len: nat)
    requires dst != null ==> EncodedLength(src) <= dst.Length
    modifies dst
    ensures len <= EncodedLength(src)
    ensures dst == null ==> len == EncodedLength(src)
    ensures dst != null ==> len == |Encode(src)| && dst[..len] == Encode(src)
  {
    hide Dotted, Labels, Encode, Label;
    EncodeIsLabels(src);
    if src == [] {
      return 0;
    }
    DottedStep(src, 0);
    var i, p, lp, dotted := 0, 1, 0, false;
    len := 1;
    ghost var seg: seq<byte>, out: seq<byte> := [], [];   // the current label and those before it
    while i < |src|
      invariant 0 <= i <= |src| && len == 1 + i && p == len && lp == |out| && p == lp + 1 + |seg|
      invariant dotted || Dotted(src[i..]) <==> Dotted(src)
      invariant i == |src| ==> src[i - 1] != DOT
      invariant dst != null ==> out + Labels(src[i..], seg, dotted) == Encode(src)
      invariant dst != null ==> dst[..lp] == out && dst[lp + 1..p] == seg
    {
      DottedStep(src, i);
      LabelsStep(src, i, seg, dotted);
      if src[i] == DOT {
        if i + 1 == |src| {
          break;
        }
        dotted := true;
        if dst != null {
          PutLength(dst, lp, p, out, seg);
          if dst[lp] == 0 {
            return;
          }
          assert out + (Label(seg) + Labels(src[i + 1..], [], true)) == (out + Label(seg)) + Labels(src[i + 1..], [], true);
        }
        out, seg := out + Label(seg), [];
        lp, p := p, p + 1;
      } else {
        if dst != null {
          PutByte(dst, lp, p, src[i], out, seg);
        }
        seg := seg + [src[i]];
        p := p + 1;
      }
      len := len + 1;
      i := i + 1;
    }
    assert i == |src| ==> src[i..] == [];
    if dst != null {
      PutEnd(dst, lp, p, dotted, out, seg);
    }
    if dotted {
      len := len + 1;
    }
  }

  // ----- round trip

  /** A label a host name may have: 1 to 63 bytes, neither a dot nor a terminator among them. */
  predicate GoodLabel(l: seq<byte>) {
    1 <= |l| <= 63 && DOT !in l && 0 !in l
  }

  predicate GoodName(ls: seq<seq<byte>>) {
    ls != [] && forall i :: 0 <= i < |ls| ==> GoodLabel(ls[i])
  }

  /** Labels joined by dots. */
  function Dots(ls: seq<seq<byte>>): seq<byte>
    requires ls != []
  {
    if |ls| == 1 then ls[0] else ls[0] + [DOT] + Dots(ls[1..])
  }

  /** Each label behind its length. */
  function Prefixes(ls: seq<seq<byte>>): seq<byte>
    requires forall i :: 0 <= i < |ls| ==> GoodLabel(ls[i])
  {
    if ls == [] then []
    else
      assert GoodLabel(ls[0]);
      var n: byte := |ls[0]|;
      [n] + ls[0] + Prefixes(ls[1..])
  }

  lemma {:induction false} LabelsOverWord(w: seq<byte>, rest: seq<byte>, seg: seq<byte>, dotted: bool)
    requires DOT !in w
    ensures Labels(w + rest, seg, dotted) == Labels(rest, seg + w, dotted)
  {
    if w == [] {
      assert w + rest == rest && seg + w == seg;
    } else {
      assert (w + rest)[1..] == w[1..] + rest;
      assert seg + w == (seg + [w[0]]) + w[1..];
      LabelsOverWord(w[1..], rest, seg + [w[0]], dotted);
    }
  }

  function Tail(trailing: bool): seq<byte> {
    if trailing then [DOT] else []
  }

  /** A good name encodes to its length-prefixed labels, terminated only if it has several. */
  lemma {:induction false} LabelsOfName(ls: seq<seq<byte>>, trailing: bool, dotted: bool)
    requires GoodName(ls)
    ensures Labels(Dots(ls) + Tail(trailing), [], dotted) ==
      Prefixes(ls) + (if dotted || |ls| > 1 then [0] else [])
    decreases |ls|
  {
    hide GoodLabel;
    var w, t := ls[0], Tail(trailing);
    GoodIsWord(w);
    if |ls| == 1 {
      LabelsOverWord(w, t, [], dotted);
      assert [] + w == w;
      assert ls[1..] == [];
      assert Prefixes(ls) == [|w|] + w + Prefixes(ls[1..]);
      assert Prefixes(ls) == [|w|] + w;
    } else {
      var rest := Dots(ls[1..]) + t;
      DotsNonempty(ls[1..]);
      assert Dots(ls) + t == w + ([DOT] + rest);
      LabelsOverDot(w, rest, dotted);
      LabelsOfName(ls[1..], trailing, true);
      assert Prefixes(ls) == [|w|] + w + Prefixes(ls[1..]);
      assert [|w|] + w + (Prefixes(ls[1..]) + [0]) == ([|w|] + w + Prefixes(ls[1..])) + [0];
    }
  }

  lemma GoodIsWord(w: seq<byte>)
    requires GoodLabel(w)
    ensures 1 <= |w| <= 63 && DOT !in w
  {
  }

  lemma LabelsOverDot(w: seq<byte>, rest: seq<byte>, dotted: bool)
    requires GoodLabel(w) && rest != []
    ensures Labels(w + ([DOT] + rest), [], dotted) == [|w|] + w + Labels(rest, [], true)
  {
    LabelsOverWord(w, [DOT] + rest, [], dotted);
    assert [] + w == w;
    assert ([DOT] + rest)[1..] == rest;
  }

  lemma DotsNonempty(ls: seq<seq<byte>>)
    requires GoodName(ls)
    ensures Dots(ls) != []
  {
    assert GoodLabel(ls[0]);
  }

  /** Memory whose first bytes are e. */
  ghost predicate Holds(mem: Memory, at: nat, e: seq<byte>) {
    forall i :: 0 <= i < |e| ==> mem(at + i) == e[i]
  }

  lemma HoldsTail(mem: Memory, at: nat, a: seq<byte>, b: seq<byte>)
    requires Holds(mem, at, a + b)
    ensures Holds(mem, at, a) && Holds(mem, at + |a|, b)
  {
    forall i | 0 <= i < |a| ensures mem(at + i) == a[i] {
      assert (a + b)[i] == a[i];
    }
    forall i | 0 <= i < |b| ensures mem(at + |a| + i) == b[i] {
      assert (a + b)[|a| + i] == b[i];
    }
  }

  /** Reading the encoded labels gives the name back, with a dot behind the last label too. */
  lemma {:induction false} ReadsName(ls: seq<seq<byte>>, end: seq<byte>, mem: Memory, pl: nat, q: nat)
    requires forall i :: 0 <= i < |ls| ==> GoodLabel(ls[i])
    requires end == [] || end == [0]
    requires Holds(mem, q, Prefixes(ls) + end) && pl == q + |Prefixes(ls) + end|
    ensures ReadName(mem, pl, q, 0, None) == Name(if ls == [] then [] else Dots(ls) + [DOT], pl)
    decreases |ls|
  {
    if ls == [] {
      assert Prefixes(ls) + end == end;
      if end == [0] {
        assert mem(q + 0) == end[0];
      }
    } else {
      var w := ls[0];
      assert GoodLabel(w);
      var rest := Prefixes(ls[1..]) + end;
      assert Prefixes(ls) + end == [|w|] + (w + rest);
      HoldsTail(mem, q, [|w|], w + rest);
      assert mem(q + 0) == [|w|][0];
      HoldsTail(mem, q + 1, w, rest);
      assert Slice(mem, q + 1, |w|) == w;
      ReadsName(ls[1..], end, mem, pl, q + 1 + |w|);
      if |ls| == 1 {
        assert ls[1..] == [];
        assert (w + [DOT]) + [] == Dots(ls) + [DOT];
      } else {
        assert (w + [DOT]) + (Dots(ls[1..]) + [DOT]) == Dots(ls) + [DOT];
      }
    }
  }

  /** Decoding an encoded host name gives it back without a trailing dot, also in the single-label
      case that is encoded without terminator. */
  lemma RoundTrip(ls: seq<seq<byte>>, trailing: bool, mem: Memory)
    requires GoodName(ls)
    requires Holds(mem, 0, Encode(Dots(ls) + Tail(trailing)))
    ensures var src := Dots(ls) + Tail(trailing);
      && |Encode(src)| == EncodedLength(src)
      && Measure(mem, |Encode(src)|) == |Dots(ls)| + 1
      && Terminated(Decode(mem, |Encode(src)|, 0).value) == Dots(ls) + [0]
  {
    var src := Dots(ls) + Tail(trailing);
    DotsNonempty(ls);
    LabelsOfName(ls, trailing, false);
    var end: seq<byte> := if |ls| > 1 then [0] else [];
    var e := Encode(src);
    assert e == Prefixes(ls) + end;
    ReadsName(ls, end, mem, |e|, 0);
    assert |e| > 0;
    var name := Dots(ls) + [DOT];
    assert Spaced(name) == Dots(ls) + [SPACE];
    assert Decode(mem, |e|, |e|) == Some([]);
    assert Spaced(name) + [] == Spaced(name);
    assert Terminated(Spaced(name)) == Dots(ls) + [0];
    NameNeverStops(ls, trailing);
    MeasuredIsWritten(src);
  }

  lemma {:induction false} StopsOverWord(w: seq<byte>, rest: seq<byte>, n: nat)
    requires DOT !in w
    ensures Stops(w + rest, n) == Stops(rest, n + |w|)
  {
    if w == [] {
      assert w + rest == rest;
    } else {
      assert (w + rest)[1..] == w[1..] + rest;
      StopsOverWord(w[1..], rest, n + 1);
    }
  }

  lemma {:induction false} NameNeverStops(ls: seq<seq<byte>>, trailing: bool)
    requires GoodName(ls)
    ensures !Stops(Dots(ls) + Tail(trailing), 0)
    decreases |ls|
  {
    var w, t := ls[0], Tail(trailing);
    assert GoodLabel(w);
    if |ls| == 1 {
      StopsOverWord(w, t, 0);
    } else {
      var rest := Dots(ls[1..]) + t;
      assert Dots(ls) + t == w + ([DOT] + rest);
      StopsOverWord(w, [DOT] + rest, 0);
      assert ([DOT] + rest)[1..] == rest;
      DotsNonempty(ls[1..]);
      NameNeverStops(ls[1..], trailing);
    }
  }
}
