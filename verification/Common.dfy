/** Small shared vocabulary: optional values, bytes and the byte order of the wire. */
module Common {

  datatype Option<+T> = None | Some(value: T)

  /** The functions the daemon registers with its event loop, by name; `Other` stands for every
      callback outside the DHCPv4 client. */
  datatype Callback =
    | SendDiscover | SendRequest | SendRenew | SendRebind
    | DhcpDiscover | DhcpRenew | DhcpRebind | DhcpExpire | DhcpBind | DhcpTimeout
    | ArpProbe | ArpAnnounce | StartInterface
    | Other(id: nat)

  type byte = x: int | 0 <= x < 0x100 witness 0

  const U16_LIMIT := 0x1_0000
  const U32_LIMIT := 0x1_0000_0000

  type uint16 = x: int | 0 <= x < U16_LIMIT witness 0
  type uint32 = x: int | 0 <= x < U32_LIMIT witness 0

  /** Big-endian value of two bytes. */
  function Word(hi: byte, lo: byte): uint16 {
    256 * hi + lo
  }

  /** The two bytes of a 16-bit value as they travel on the wire. */
  function Be16(v: uint16): (s: seq<byte>)
    ensures |s| == 2 && Word(s[0], s[1]) == v
  {
    assert Word(v / 256, v % 256) == v;
    var hi: byte, lo: byte :| Word(hi, lo) == v;
    [hi, lo]
  }

  lemma BlankWord()
    ensures Be16(0) == [0, 0]
  {
  }

  /** The four bytes of a 32-bit value as they travel on the wire. */
  function Be32(v: uint32): (s: seq<byte>)
    ensures |s| == 4 && FromBe32(s) == v
  {
    assert U16_LIMIT * (v / U16_LIMIT) + v % U16_LIMIT == v;
    var hi: uint16, lo: uint16 :| U16_LIMIT * hi + lo == v;
    Be16(hi) + Be16(lo)
  }

  function FromBe32(s: seq<byte>): uint32
    requires |s| == 4
  {
    U16_LIMIT * Word(s[0], s[1]) + Word(s[2], s[3])
  }

  /** n zero bytes, as calloc and memset leave them. */
  function Zeros(n: nat): (s: seq<byte>)
    ensures |s| == n && forall i :: 0 <= i < n ==> s[i] == 0
  {
    seq(n, i => 0)
  }

  /** b with d written at position `at`. */
  function Overwritten(b: seq<byte>, at: nat, d: seq<byte>): (r: seq<byte>)
    requires at + |d| <= |b|
    ensures |r| == |b|
    ensures forall i :: 0 <= i < |b| ==> r[i] == if at <= i < at + |d| then d[i - at] else b[i]
  {
    b[..at] + d + b[at + |d|..]
  }

  /** memcpy into a buffer. */
  method Store(b: array<byte>, at: nat, d: seq<byte>)
    requires at + |d| <= b.Length
    modifies b
    ensures b[..] == Overwritten(old(b[..]), at, d)
  {
    for i := 0 to |d|
      invariant forall j :: 0 <= j < b.Length ==> b[j] == if at <= j < at + i then d[j - at] else old(b[j])
    {
      b[at + i] := d[i];
    }
    assert b[..] == Overwritten(old(b[..]), at, d);
  }

  /** The same seen from a write cursor: what was written before gets longer. */
  method Put(b: array<byte>, at: nat, d: seq<byte>)
    requires at + |d| <= b.Length
    modifies b
    ensures b[..at + |d|] == old(b[..at]) + d
    ensures b[at + |d|..] == old(b[at + |d|..])
  {
    ghost var before := b[..];
    Store(b, at, d);
    assert before[..at] == old(b[..at]) && before[at + |d|..] == old(b[at + |d|..]);
    assert b[..at + |d|] == b[..][..at + |d|] && b[at + |d|..] == b[..][at + |d|..];
  }

  function Min(a: int, b: int): int {
    if a < b then a else b
  }

  function Max(a: int, b: int): int {
    if a < b then b else a
  }
}
