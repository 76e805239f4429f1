/** Printing received text for the hook scripts (print_string, and print_option for RFC 3397). */
module PrintText {
  import opened Common
  import opened Names

  const BACKSLASH: byte := 92

  /** isascii and isprint in the C locale. */
  predicate Printable(c: byte) {
    0x20 <= c <= 0x7e
  }

  /** The characters a shell would interpret: " ' $ ` \\ | & */
  predicate Special(c: byte) {
    c == 34 || c == 39 || c == 36 || c == 96 || c == BACKSLASH || c == 124 || c == 38
  }

  predicate AllZero(d: seq<byte>) {
    forall i :: 0 <= i < |d| ==> d[i] == 0
  }

  /** Backslash and three octal digits. */
  function Octal(c: byte): (s: seq<byte>)
    ensures |s| == 4
  {
    [BACKSLASH, 48 + c / 64, 48 + c / 8 % 8, 48 + c % 8]
  }

  /** What one character is printed as. */
  function Shown(c: byte): (s: seq<byte>)
    ensures 1 <= |s| <= 4
  {
    if !Printable(c) then Octal(c) else if Special(c) then [BACKSLASH, c] else [c]
  }

  /** The printed text; trailing zeros are dropped. */
  function Text(d: seq<byte>): seq<byte> {
    if AllZero(d) then [] else Shown(d[0]) + Text(d[1..])
  }

  /** The room check before a character: five for an octal escape, three for a backslash, none for a
      plain character. */
  predicate Short(c: byte, room: int) {
    if !Printable(c) then room < 5 else Special(c) && room < 3
  }

  /** Every check of print_string passes. */
  predicate Enough(d: seq<byte>, room: int) {
    AllZero(d) || (!Short(d[0], room) && Enough(d[1..], room - |Shown(d[0])|))
  }

  /** How many bytes print_string stores before it returns: the text before the check that fails, or
      all of it and the terminator. */
  function Stored(d: seq<byte>, room: int): nat {
    if AllZero(d) then 1
    else if Short(d[0], room) then 0
    else |Shown(d[0])| + Stored(d[1..], room - |Shown(d[0])|)
  }

  /** print_string: measures without a buffer, else writes the text and a terminator.  `s` is the
      memory from the buffer on, of which `room` bytes are the buffer. */
  method PrintString(s: array?<byte>, room: int, d: seq<byte>) returns (n: int)
    requires s != null ==> Stored(d, room) <= s.Length
    modifies s
    ensures s == null ==> n == |Text(d)| + 1
    ensures s != null ==> n == if Enough(d, room) then |Text(d)| + 1 else -1
    ensures Stored(d, room) <= |Text(d)| + 1 && (Enough(d, room) ==> Stored(d, room) == |Text(d)| + 1)
    ensures s != null ==> s[..Stored(d, room)] == (Text(d) + [0])[..Stored(d, room)]
    ensures s != null ==> s[Stored(d, room)..] == old(s[..])[Stored(d, room)..]
  {
    hide Octal, Text, Enough, Stored, Shown, AllZero;
    var i: nat, bytes: nat := 0, 0;
    ghost var out: seq<byte>, k := [], Stored(d, room);
    ghost var mem := if s != null then s[..] else [];
    StoredBounds(d, room);
    assert d[0..] == d;
    while i < |d|
      invariant 0 <= i <= |d| && bytes == |out|
      invariant out + Text(d[i..]) == Text(d)
      invariant s != null ==> Enough(d, room) == Enough(d[i..], room - bytes)
      invariant s != null ==> k == bytes + Stored(d[i..], room - bytes)
      invariant s != null ==> s[..bytes] == out && s[bytes..] == mem[bytes..]
    {
      var c := d[i];
      if c == 0 {
        var zero := RestIsZero(d, i);
        if zero {
          break;
        }
      }
      TextStep(d, i, room - bytes);
      assert out + (Shown(c) + Text(d[i + 1..])) == (out + Shown(c)) + Text(d[i + 1..]);
      if s != null {
        if Short(c, room - bytes) {
          assert (Text(d) + [0])[..k] == out;
          return -1;
        }
        Advance(s, bytes, Shown(c), mem);
      }
      bytes := bytes + |Shown(c)|;
      out := out + Shown(c);
      i := i + 1;
    }
    TextEnd(d, i, room - bytes);
    assert out + [] == out;
    if s != null {
      Advance(s, bytes, [0], mem);
    }
    n := bytes + 1;
  }

  /** Writes at the cursor; behind it the memory is as it was. */
  method Advance(s: array<byte>, at: nat, t: seq<byte>, ghost mem: seq<byte>)
    requires at + |t| <= s.Length == |mem| && s[at..] == mem[at..]
    modifies s
    ensures s[..at + |t|] == old(s[..at]) + t && s[at + |t|..] == mem[at + |t|..]
  {
    assert s[at + |t|..] == s[at..][|t|..] == mem[at..][|t|..] == mem[at + |t|..];
    Put(s, at, t);
  }

  lemma {:induction false} StoredBounds(d: seq<byte>, room: int)
    ensures Stored(d, room) <= |Text(d)| + 1
    ensures Enough(d, room) <==> Stored(d, room) == |Text(d)| + 1
  {
    hide Shown;
    if !AllZero(d) {
      StoredBounds(d[1..], room - |Shown(d[0])|);
    }
  }

  lemma TextStep(d: seq<byte>, i: nat, room: int)
    requires i < |d| && (d[i] == 0 ==> !AllZero(d[i..]))
    ensures Text(d[i..]) == Shown(d[i]) + Text(d[i + 1..])
    ensures Enough(d[i..], room) <==> !Short(d[i], room) && Enough(d[i + 1..], room - |Shown(d[i])|)
    ensures Stored(d[i..], room) == if Short(d[i], room) then 0 else |Shown(d[i])| + Stored(d[i + 1..], room - |Shown(d[i])|)
  {
    hide Shown;
    var rest := d[i..];
    assert rest[1..] == d[i + 1..] && rest[0] == d[i];
  }

  lemma TextEnd(d: seq<byte>, i: nat, room: int)
    requires i <= |d| && (i == |d| || AllZero(d[i..]))
    ensures Text(d[i..]) == [] && Enough(d[i..], room) && Stored(d[i..], room) == 1
  {
  }

  method RestIsZero(d: seq<byte>, i: nat) returns (zero: bool)
    requires i < |d| && d[i] == 0
    ensures zero == AllZero(d[i..])
  {
    var p := i + 1;
    while p < |d| && d[p] == 0
      invariant i < p <= |d| && forall j :: i <= j < p ==> d[j] == 0
    {
      p := p + 1;
    }
    zero := p == |d|;
    assert !zero ==> d[i..][p - i] != 0;
  }

  /** With the measured room every check passes: the second pass never runs short. */
  lemma {:induction false} MeasuredIsEnough(d: seq<byte>, room: int)
    requires room >= |Text(d)| + 1
    ensures Enough(d, room)
  {
    if !AllZero(d) {
      MeasuredIsEnough(d[1..], room - |Shown(d[0])|);
    }
  }

  /** No shell-active or unprintable byte survives unescaped: every one in the printed text is
      either a backslash or stands behind one. */
  lemma {:induction false} EscapesAreGuarded(d: seq<byte>, i: nat)
    requires i < |Text(d)| && Special(Text(d)[i]) && Text(d)[i] != BACKSLASH
    ensures i > 0 && Text(d)[i - 1] == BACKSLASH
  {
    var k := |Shown(d[0])|;
    if i >= k {
      EscapesAreGuarded(d[1..], i - k);
    }
  }

  lemma {:induction false} TextIsPrintable(d: seq<byte>)
    ensures forall i :: 0 <= i < |Text(d)| ==> Printable(Text(d)[i])
  {
    if !AllZero(d) {
      TextIsPrintable(d[1..]);
      assert forall i :: 0 <= i < |Shown(d[0])| ==> Printable(Shown(d[0])[i]);
    }
  }

  // ----- reading the text back

  predicate Digit(c: byte) {
    48 <= c < 56
  }

  /** The byte three octal digits name. */
  function Value(a: int, b: int, c: int): byte {
    (64 * (a - 48) + 8 * (b - 48) + (c - 48)) % 256
  }

  /** What a reader of the escapes makes of a text: an octal number, or the character itself. */
  function Unprinted(t: seq<byte>): seq<byte> {
    if t == [] then []
    else if t[0] != BACKSLASH || |t| == 1 then [t[0]] + Unprinted(t[1..])
    else if Digit(t[1]) && |t| >= 4 then [Value(t[1], t[2], t[3])] + Unprinted(t[4..])
    else [t[1]] + Unprinted(t[2..])
  }

  /** Without trailing zeros. */
  function Trimmed(d: seq<byte>): seq<byte> {
    if AllZero(d) then [] else [d[0]] + Trimmed(d[1..])
  }

  lemma OctalValue(c: byte)
    ensures Digit(48 + c / 64) && Value(48 + c / 64, 48 + c / 8 % 8, 48 + c % 8) == c
  {
    assert 64 * (c / 64) + 8 * (c / 8 % 8) + c % 8 == c;
  }

  lemma ShownReadsBack(c: byte, rest: seq<byte>)
    ensures Unprinted(Shown(c) + rest) == [c] + Unprinted(rest)
  {
    hide Value;
    var t := Shown(c) + rest;
    OctalValue(c);
    assert t[|Shown(c)|..] == rest;
  }

  /** The text tells every byte but the trailing zeros: reading the escapes gives the data back. */
  lemma {:induction false} TextReadsBack(d: seq<byte>)
    ensures Unprinted(Text(d)) == Trimmed(d)
  {
    hide Shown;
    if AllZero(d) {
      assert Unprinted([]) == [];
    } else {
      TextReadsBack(d[1..]);
      ShownReadsBack(d[0], Text(d[1..]));
    }
  }

  // ----- when the text leaves the room

  /** Every character as it is shown. */
  function Show(t: seq<byte>): seq<byte> {
    if t == [] then [] else Shown(t[0]) + Show(t[1..])
  }

  lemma {:induction false} TextIsShow(d: seq<byte>)
    ensures Text(d) == Show(Trimmed(d))
  {
    hide Shown;
    if AllZero(d) {
      assert Show([]) == [];
    } else {
      TextIsShow(d[1..]);
      assert ([d[0]] + Trimmed(d[1..]))[1..] == Trimmed(d[1..]);
    }
  }

  predicate Escaped(c: byte) {
    !Printable(c) || Special(c)
  }

  /** The bytes shown through the last escape; zero without one. */
  function Checked(t: seq<byte>): nat {
    if t == [] then 0
    else
      var r := Checked(t[1..]);
      if r > 0 || Escaped(t[0]) then |Shown(t[0])| + r else 0
  }

  /** The checks ask for one byte more than the text takes through its last escape, and for nothing
      without an escape. */
  predicate Passes(t: seq<byte>, room: int) {
    Checked(t) == 0 || room > Checked(t)
  }

  lemma {:induction false} EnoughIff(d: seq<byte>, room: int)
    ensures Enough(d, room) <==> Passes(Trimmed(d), room)
  {
    if AllZero(d) {
      assert Checked([]) == 0;
    } else {
      EnoughIff(d[1..], room - |Shown(d[0])|);
      assert ([d[0]] + Trimmed(d[1..]))[1..] == Trimmed(d[1..]);
    }
  }

  predicate Plain(d: seq<byte>) {
    forall i :: 0 <= i < |d| ==> !Escaped(d[i])
  }

  /** Plain text passes every check in any room at all: only escapes are guarded, so the caller's
      measuring pass is what keeps the writes inside the buffer. */
  lemma {:induction false} PlainIsUnchecked(d: seq<byte>, room: int)
    requires Plain(d)
    ensures Enough(d, room)
  {
    if !AllZero(d) {
      PlainIsUnchecked(d[1..], room - |Shown(d[0])|);
    }
  }

  /** A successful call writes past the room if and only if the text is too long for it and either has
      no escape or fits through its last one. */
  lemma SucceedsPastRoomIff(d: seq<byte>, room: int)
    ensures Enough(d, room) && Stored(d, room) > room <==> Passes(Trimmed(d), room) && room <= |Text(d)|
  {
    hide Enough, Stored, Text, Passes, Trimmed;
    EnoughIff(d, room);
    StoredBounds(d, room);
  }

  /** The first i characters pass the checks and, with the terminator if they are all, do not fit. */
  predicate PastAt(t: seq<byte>, room: int, i: nat)
    requires i <= |t|
  {
    Passes(t[..i], room) && |Show(t[..i])| + (if i == |t| then 1 else 0) > room
  }

  lemma PastStep(t: seq<byte>, room: int, i: nat)
    requires i < |t|
    ensures var k := |Shown(t[0])|;
      PastAt(t, room, i + 1) <==> (PastAt(t[1..], room - k, i) && (Checked(t[..i + 1]) > 0 ==> !Short(t[0], room)))
  {
    var a, b := t[..i + 1], t[1..][..i];
    assert a[1..] == b && a[0] == t[0];
  }

  lemma {:induction false} PastFound(d: seq<byte>, room: int) returns (i: nat)
    requires Stored(d, room) > room
    ensures i <= |Trimmed(d)| && PastAt(Trimmed(d), room, i)
  {
    var t := Trimmed(d);
    assert t[..0] == [] && Checked([]) == 0 && Show([]) == [];
    if AllZero(d) || Short(d[0], room) || room < 0 {
      i := 0;
    } else {
      var k := |Shown(d[0])|;
      var j := PastFound(d[1..], room - k);
      assert t[1..] == Trimmed(d[1..]);
      PastStep(t, room, j);
      i := j + 1;
    }
  }

  lemma {:induction false} PastHolds(d: seq<byte>, room: int, i: nat)
    requires i <= |Trimmed(d)| && PastAt(Trimmed(d), room, i)
    ensures Stored(d, room) > room
  {
    var t := Trimmed(d);
    if i == 0 {
      assert t[..0] == [] && Show([]) == [];
    } else {
      var k := |Shown(d[0])|;
      assert t[1..] == Trimmed(d[1..]);
      PastStep(t, room, i - 1);
      PastHolds(d[1..], room - k, i - 1);
    }
  }

  /** Whether it succeeds or not, print_string writes past the room if and only if some beginning of
      the text passes its checks and does not fit. */
  lemma WritesPastRoomIff(d: seq<byte>, room: int)
    ensures Stored(d, room) > room <==> exists i: nat :: i <= |Trimmed(d)| && PastAt(Trimmed(d), room, i)
  {
    hide Stored, Trimmed, PastAt;
    if Stored(d, room) > room {
      var i := PastFound(d, room);
    }
    if i: nat :| i <= |Trimmed(d)| && PastAt(Trimmed(d), room, i) {
      PastHolds(d, room, i);
    }
  }

  // ----- the RFC 3397 path of print_option

  /** The decoded list without its terminator. */
  function SearchList(mem: Memory, pl: nat): seq<byte> {
    var n := Measure(mem, pl);
    if n == 0 then [] else Terminated(Decode(mem, pl, 0).value)[..n - 1]
  }

  /** What the path returns when it only measures. */
  function PrintedLength(mem: Memory, pl: nat): nat {
    if Measure(mem, pl) == 0 then 0 else |Text(SearchList(mem, pl))| + 1
  }

  /** print_option for a DNS search list: decode into a buffer of the measured size, then print.
      With the room a first call measured, a second call writes exactly that much. */
  method PrintSearchList(s: array?<byte>, room: nat, pl: nat, mem: Memory) returns (n: int)
    requires s != null ==> PrintedLength(mem, pl) <= s.Length
    modifies s
    ensures s == null ==> n == PrintedLength(mem, pl)
    ensures s != null && room >= PrintedLength(mem, pl) ==> n == PrintedLength(mem, pl)
    ensures s != null && room >= n > 0 ==> s[..n] == Text(SearchList(mem, pl)) + [0]
  {
    hide Decode, Text, Enough, Stored;
    n := DecodeRfc3397(null, 0, pl, mem);
    if n < 1 {
      return;
    }
    var tmp := new byte[n](_ => 0);
    var m := DecodeRfc3397(tmp, n, pl, mem);
    var d := tmp[..n - 1];
    assert d == tmp[..m][..n - 1];
    if room >= PrintedLength(mem, pl) {
      MeasuredIsEnough(d, room);
    }
    StoredBounds(d, room);
    n := PrintString(s, room, d);
  }
}
