/** Bytes and the 4-byte big-endian numbers every payload uses.
    A Go string is a sequence of bytes here, so lengths are byte counts as in the source. */
module Bytes {

  type byte = x: int | 0 <= x < 256

  type Bytes = seq<byte>

  const TWO_32: int := 0x1_0000_0000

  /** binary.BigEndian.PutUint32 of uint32(n): the conversion drops everything above 32 bits. */
  function U32(n: nat): (b: Bytes)
    ensures |b| == 4
  {
    var m := n % TWO_32;
    [m / 0x100_0000, m / 0x1_0000 % 0x100, m / 0x100 % 0x100, m % 0x100]
  }

  /** binary.BigEndian.Uint32 of the first four bytes. */
  function GetU32(b: Bytes): (n: nat)
    requires |b| >= 4
    ensures n < TWO_32
  {
    var (b0: int, b1: int, b2: int, b3: int) := (b[0], b[1], b[2], b[3]);
    b0 * 0x100_0000 + b1 * 0x1_0000 + b2 * 0x100 + b3
  }

  /** The four base-256 digits of a number are unique. */
  lemma Digits(n: int, b0: int, b1: int, b2: int, b3: int)
    requires 0 <= b0 < 0x100 && 0 <= b1 < 0x100 && 0 <= b2 < 0x100 && 0 <= b3 < 0x100
    requires n == b0 * 0x100_0000 + b1 * 0x1_0000 + b2 * 0x100 + b3
    ensures n / 0x100_0000 == b0 && n / 0x1_0000 % 0x100 == b1 && n / 0x100 % 0x100 == b2 && n % 0x100 == b3
    ensures n % TWO_32 == n
  {
    assert n / 0x1_0000 == b0 * 0x100 + b1;
    assert n / 0x100 == b0 * 0x1_0000 + b1 * 0x100 + b2;
  }

  lemma Recompose(m: int)
    requires 0 <= m < TWO_32
    ensures m == m / 0x100_0000 * 0x100_0000 + m / 0x1_0000 % 0x100 * 0x1_0000 + m / 0x100 % 0x100 * 0x100 + m % 0x100
  {
    assert m == m / 0x100 * 0x100 + m % 0x100;
    assert m / 0x100 == m / 0x1_0000 * 0x100 + m / 0x100 % 0x100;
    assert m / 0x1_0000 == m / 0x100_0000 * 0x100 + m / 0x1_0000 % 0x100;
  }

  lemma GetAfterPut(n: nat)
    ensures GetU32(U32(n)) == n % TWO_32
    ensures GetU32(U32(n)) == n <==> n < TWO_32
  {
    Recompose(n % TWO_32);
  }

  lemma PutAfterGet(b: Bytes)
    requires |b| >= 4
    ensures U32(GetU32(b)) == b[..4]
  {
    Digits(GetU32(b), b[0], b[1], b[2], b[3]);
  }

  /** binary.BigEndian.PutUint32(a[at:at+4], uint32(n)). */
  method PutU32(a: array<byte>, at: nat, n: nat)
    requires at + 4 <= a.Length
    modifies a
    ensures a[..] == old(a[..at]) + U32(n) + old(a[at + 4..])
    ensures forall i :: 0 <= i < a.Length && !(at <= i < at + 4) ==> a[i] == old(a[i])
  {
    var b := U32(n);
    a[at], a[at + 1], a[at + 2], a[at + 3] := b[0], b[1], b[2], b[3];
  }

  /** copy(a[at:], src), where the source always sized the buffer to fit. */
  method Copy(a: array<byte>, at: nat, src: Bytes)
    requires at + |src| <= a.Length
    modifies a
    ensures a[..] == old(a[..at]) + src + old(a[at + |src|..])
    ensures forall i :: 0 <= i < a.Length && !(at <= i < at + |src|) ==> a[i] == old(a[i])
  {
    for i := 0 to |src|
      invariant a[..at] == old(a[..at])
      invariant a[at..at + i] == src[..i]
      invariant a[at + i..] == old(a[at + i..])
      invariant forall j :: 0 <= j < a.Length && !(at <= j < at + i) ==> a[j] == old(a[j])
    {
      a[at + i] := src[i];
    }
    assert a[..] == a[..at] + a[at..at + |src|] + a[at + |src|..];
  }
}
