/** The internet checksum (dhcpcd/dhcp.c) and what it means in one's-complement arithmetic. */
module Checksum {
  import opened Common

  const ONES := 0xffff

  /** Sum of the big-endian 16-bit words; an odd last byte is the high half of a word. */
  function WordSum(data: seq<byte>): nat {
    if data == [] then 0
    else if |data| == 1 then data[0] as int * 256
    else Word(data[0], data[1]) + WordSum(data[2..])
  }

  /** Two folds of the carries into the low half, as the program does them on 32 bits. */
  function Fold(sum: nat): uint16 {
    var s := sum / U16_LIMIT + sum % U16_LIMIT;
    (s + s / U16_LIMIT) % U16_LIMIT
  }

  /** The checksum as the 16-bit value whose big-endian bytes are stored. */
  function Sum(data: seq<byte>): uint16 {
    ONES - Fold(WordSum(data))
  }

  // ----- one's-complement arithmetic, by itself

  /** Addition with end-around carry (RFC 1071). */
  function OnesAdd(a: uint16, b: uint16): uint16 {
    if a + b < U16_LIMIT then a + b else a + b - ONES
  }

  function OnesSum(data: seq<byte>): uint16 {
    if data == [] then 0
    else if |data| == 1 then data[0] * 256
    else OnesAdd(Word(data[0], data[1]), OnesSum(data[2..]))
  }

  /** The representative of n in one's-complement 16-bit arithmetic. */
  function Canon(n: nat): uint16 {
    if n == 0 then 0 else (n - 1) % ONES + 1
  }

  lemma CanonShift(n: nat, q: nat)
    requires n > 0
    ensures Canon(n + ONES * q) == Canon(n)
    decreases q
  {
    if q > 0 {
      CanonShift(n, q - 1);
      var m := n + ONES * (q - 1) - 1;
      assert (m + ONES) % ONES == m % ONES;
      assert n + ONES * q - 1 == m + ONES;
    }
  }

  /** Two folds reach the representative for every sum of at most 32768 words. */
  lemma FoldIsCanon(n: nat)
    requires n <= 0x8000 * ONES
    ensures Fold(n) == Canon(n)
  {
    var q, r := n / U16_LIMIT, n % U16_LIMIT;
    assert n == U16_LIMIT * q + r;
    var s := q + r;
    assert n == s + ONES * q;
    if s > 0 {
      CanonShift(s, q);
    }
    assert q < 0x8000;
  }

  lemma CanonAdd(a: uint16, m: nat)
    ensures Canon(a + m) == OnesAdd(a, Canon(m))
  {
    if m > 0 {
      var q := (m - 1) / ONES;
      assert m == Canon(m) + ONES * q;
      CanonShift(a + Canon(m), q);
    }
  }

  lemma {:induction false} WordSumIsOnes(data: seq<byte>)
    ensures Canon(WordSum(data)) == OnesSum(data)
  {
    if |data| >= 2 {
      WordSumIsOnes(data[2..]);
      CanonAdd(Word(data[0], data[1]), WordSum(data[2..]));
    }
  }

  lemma {:induction false} WordSumBound(data: seq<byte>)
    ensures WordSum(data) <= ONES * ((|data| + 1) / 2)
  {
    if |data| >= 2 {
      WordSumBound(data[2..]);
    }
  }

  /** The checksum is the complement of the one's-complement sum of the words. */
  lemma SumIsOnesComplement(data: seq<byte>)
    requires |data| < U16_LIMIT
    ensures Sum(data) == ONES - OnesSum(data)
  {
    WordSumBound(data);
    assert ONES * ((|data| + 1) / 2) <= ONES * 0x8000;
    FoldIsCanon(WordSum(data));
    WordSumIsOnes(data);
  }

  // ----- sums of pieces

  lemma {:induction false} WordSumAppend(a: seq<byte>, b: seq<byte>)
    requires |a| % 2 == 0
    ensures WordSum(a + b) == WordSum(a) + WordSum(b)
  {
    if a == [] {
      assert a + b == b;
    } else {
      assert (a + b)[2..] == a[2..] + b;
      WordSumAppend(a[2..], b);
    }
  }

  /** Zero padding does not change the sum, also after an odd number of bytes. */
  lemma {:induction false} WordSumPad(a: seq<byte>, n: nat)
    ensures WordSum(a + Zeros(n)) == WordSum(a)
  {
    var z := Zeros(n);
    if |a| >= 2 {
      assert (a + z)[2..] == a[2..] + z;
      WordSumPad(a[2..], n);
    } else if |a| == 1 && n > 0 {
      assert (a + z)[2..] == Zeros(n - 1);
      WordSumZeros(n - 1);
    } else if |a| == 1 {
      assert a + z == a;
    } else {
      assert a + z == z;
      WordSumZeros(n);
    }
  }

  lemma {:induction false} WordSumZeros(n: nat)
    ensures WordSum(Zeros(n)) == 0
  {
    if n >= 2 {
      assert Zeros(n)[2..] == Zeros(n - 2);
      WordSumZeros(n - 2);
    }
  }

  /** A block that stores its own checksum, computed with the field zero, sums to zero. */
  lemma StoredSumIsZero(a: seq<byte>, b: seq<byte>)
    requires |a| % 2 == 0 && |a| + 2 + |b| < U16_LIMIT
    ensures Sum(a + Be16(Sum(a + [0, 0] + b)) + b) == 0
  {
    hide WordSum, Be16, Canon;
    var blank: seq<byte> := [0, 0];
    var c := Sum(a + blank + b);
    var n := WordSum(a) + WordSum(b);
    FieldSum(a, blank, b);
    FieldSum(a, Be16(c), b);
    WordSumBound(a + blank + b);
    WordSumBound(a + Be16(c) + b);
    assert ONES * ((|a| + 2 + |b| + 1) / 2) <= ONES * 0x8000;
    FoldIsCanon(n);
    FoldIsCanon(n + c);
    CanonComplement(n);
  }

  /** A sum and its complement make all ones. */
  lemma CanonComplement(n: nat)
    ensures Canon(n) <= ONES && Canon(n + (ONES - Canon(n))) == ONES
  {
    var q := if n == 0 then 0 else (n - 1) / ONES;
    assert n == Canon(n) + ONES * q;
    CanonShift(ONES, q);
  }

  lemma FieldSum(a: seq<byte>, f: seq<byte>, b: seq<byte>)
    requires |a| % 2 == 0 && |f| == 2
    ensures WordSum(a + f + b) == WordSum(a) + Word(f[0], f[1]) + WordSum(b)
  {
    assert a + f + b == a + (f + b);
    WordSumAppend(a, f + b);
    WordSumAppend(f, b);
    assert WordSum(f) == Word(f[0], f[1]) + WordSum(f[2..]);
  }

  lemma WordStep(data: seq<byte>, i: nat)
    requires i <= |data|
    ensures i == |data| ==> WordSum(data[i..]) == 0
    ensures i + 1 == |data| ==> WordSum(data[i..]) == data[i] as int * 256
    ensures i + 2 <= |data| ==> WordSum(data[i..]) == Word(data[i], data[i + 1]) + WordSum(data[i + 2..])
  {
    if i + 2 <= |data| {
      assert data[i..][2..] == data[i + 2..];
    }
  }

  /** The program's loop; the running sum fits 32 bits for every length a uint16_t can hold. */
  method Compute(data: seq<byte>) returns (r: uint16)
    requires |data| < U16_LIMIT
    ensures r == Sum(data)
  {
    hide WordSum, Word;
    var sum: uint32 := 0;
    var i := 0;
    assert data[0..] == data;
    while |data| - i > 1
      invariant 0 <= i <= |data|
      invariant sum + WordSum(data[i..]) == WordSum(data)
      invariant 2 * sum <= ONES * i
    {
      WordStep(data, i);
      sum := sum + Word(data[i], data[i + 1]);
      i := i + 2;
    }
    WordStep(data, i);
    if |data| - i == 1 {
      sum := sum + data[i] as int * 256;
    }
    var folded := sum / U16_LIMIT + sum % U16_LIMIT;
    folded := folded + folded / U16_LIMIT;
    r := ONES - folded % U16_LIMIT;
  }
}
