/**
  Byte encodings that are hashed: big-endian scalars, UTF-8 text behind its length,
  instants in microseconds. Each is injective, and so is a concatenation of them.
 */
module Encoding {
  import opened Prelude

  type Byte = b: nat | b < 256

  type Bytes = seq<Byte>

  const U64_LIMIT: nat := 0x1_0000_0000_0000_0000

  type U64 = n: nat | n < U64_LIMIT

  function Zeros(n: nat): (r: Bytes)
    ensures |r| == n
  {
    if n == 0 then [] else [0] + Zeros(n - 1)
  }

  /** A 32-byte hash value. */
  type Root = r: Bytes | |r| == 32 witness Zeros(32)

  const ZERO_ROOT: Root := Zeros(32)

  // Scalars ----------------------------------------------------------------------------------

  function Pow256(w: nat): nat
  {
    if w == 0 then 1 else 256 * Pow256(w - 1)
  }

  /** The last `w` base-256 digits, most significant first. */
  function BigEndian(n: nat, w: nat): (r: Bytes)
    ensures |r| == w
  {
    if w == 0 then [] else BigEndian(n / 256, w - 1) + [n % 256]
  }

  lemma {:induction false} BigEndianIsInjective(a: nat, b: nat, w: nat)
    requires a < Pow256(w) && b < Pow256(w) && BigEndian(a, w) == BigEndian(b, w)
    ensures a == b
  {
    if w > 0 {
      var x, y := BigEndian(a, w), BigEndian(b, w);
      assert x[..w - 1] == BigEndian(a / 256, w - 1) && y[..w - 1] == BigEndian(b / 256, w - 1);
      assert x[w - 1] == a % 256 && y[w - 1] == b % 256;
      BigEndianIsInjective(a / 256, b / 256, w - 1);
    }
  }

  function Scalar(n: U64): (r: Bytes)
    ensures |r| == 8
  {
    BigEndian(n, 8)
  }

  lemma ScalarIsInjective(a: U64, b: U64)
    requires Scalar(a) == Scalar(b)
    ensures a == b
  {
    assert Pow256(8) == U64_LIMIT by {
      assert Pow256(2) == 65536 && Pow256(4) == 65536 * Pow256(2) && Pow256(6) == 65536 * Pow256(4) && Pow256(8) == 65536 * Pow256(6);
    }
    BigEndianIsInjective(a, b, 8);
  }

  /** Reading base-256 digits, most significant first. */
  function ValueOf(bytes: Bytes): nat
  {
    if bytes == [] then 0 else 256 * ValueOf(bytes[..|bytes| - 1]) + bytes[|bytes| - 1]
  }

  lemma {:induction false} BigEndianReadsBack(n: nat, w: nat)
    requires n < Pow256(w)
    ensures ValueOf(BigEndian(n, w)) == n
  {
    if w > 0 {
      BigEndianReadsBack(n / 256, w - 1);
      assert BigEndian(n, w)[..w - 1] == BigEndian(n / 256, w - 1);
    }
  }

  /** A scalar is read back from its eight bytes. */
  lemma ScalarReadsBack(n: U64)
    ensures ValueOf(Scalar(n)) == n
  {
    assert Pow256(8) == U64_LIMIT by {
      assert Pow256(2) == 65536 && Pow256(4) == 65536 * Pow256(2) && Pow256(6) == 65536 * Pow256(4) && Pow256(8) == 65536 * Pow256(6);
    }
    BigEndianReadsBack(n, 8);
  }

  /** Writes a scalar into a buffer, digit by digit. */
  method PutUint64(buffer: array<Byte>, offset: nat, n: U64)
    requires offset + 8 <= buffer.Length
    modifies buffer
    ensures buffer[..offset + 8] == old(buffer[..offset]) + Scalar(n)
    ensures buffer[offset + 8..] == old(buffer[offset + 8..])
  {
    var left, rest := 8, n as nat;
    while left > 0
      invariant 0 <= left <= 8
      invariant BigEndian(rest, left) + buffer[offset + left..offset + 8] == Scalar(n)
      invariant forall i :: 0 <= i < buffer.Length && !(offset <= i < offset + 8) ==> buffer[i] == old(buffer[i])
    {
      ghost var tail := buffer[offset + left..offset + 8];
      ghost var digits := BigEndian(rest, left);
      buffer[offset + left - 1] := rest % 256;
      assert buffer[offset + left - 1..offset + 8] == [rest % 256] + tail;
      assert digits + tail == BigEndian(rest / 256, left - 1) + ([rest % 256] + tail);
      left, rest := left - 1, rest / 256;
    }
    assert BigEndian(rest, 0) + buffer[offset..offset + 8] == buffer[offset..offset + 8];
    assert buffer[..offset + 8] == buffer[..offset] + buffer[offset..offset + 8];
  }

  // Framing -----------------------------------------------------------------------------------

  /** Equal-length heads of equal concatenations are equal, and so are the tails. */
  lemma SplitAt(a: Bytes, x: Bytes, b: Bytes, y: Bytes)
    requires a + x == b + y && |a| == |b|
    ensures a == b && x == y
  {
    assert a == (a + x)[..|a|] && b == (b + y)[..|b|];
    assert x == (a + x)[|a|..] && y == (b + y)[|b|..];
  }

  /** Go slices are shorter than 2^64 bytes. */
  type Sized = s: Bytes | |s| < U64_LIMIT witness []

  function Framed(s: Sized): Bytes
  {
    Scalar(|s|) + s
  }

  lemma FramedIsPrefixFree(a: Sized, x: Bytes, b: Sized, y: Bytes)
    requires Framed(a) + x == Framed(b) + y
    ensures a == b && x == y
  {
    assert Framed(a) + x == Scalar(|a|) + (a + x) && Framed(b) + y == Scalar(|b|) + (b + y);
    SplitAt(Scalar(|a|), a + x, Scalar(|b|), b + y);
    ScalarIsInjective(|a|, |b|);
    SplitAt(a, x, b, y);
  }

  lemma ScalarIsPrefixFree(a: U64, x: Bytes, b: U64, y: Bytes)
    requires Scalar(a) + x == Scalar(b) + y
    ensures a == b && x == y
  {
    SplitAt(Scalar(a), x, Scalar(b), y);
    ScalarIsInjective(a, b);
  }

  // Text ---------------------------------------------------------------------------------------

  function Utf8Char(c: char): (r: Bytes)
    ensures 1 <= |r| <= 4
  {
    var n := c as int;
    if n < 0x80 then [n]
    else if n < 0x800 then [0xC0 + n / 64, 0x80 + n % 64]
    else if n < 0x10000 then [0xE0 + n / 4096, 0x80 + n / 64 % 64, 0x80 + n % 64]
    else [0xF0 + n / 262144, 0x80 + n / 4096 % 64, 0x80 + n / 64 % 64, 0x80 + n % 64]
  }

  function Utf8(s: string): Bytes
  {
    if s == "" then [] else Utf8Char(s[0]) + Utf8(s[1..])
  }

  /** The first byte of a character tells how many follow. */
  lemma Utf8CharIsPrefixFree(c: char, x: Bytes, d: char, y: Bytes)
    requires Utf8Char(c) + x == Utf8Char(d) + y
    ensures c == d && x == y
  {
    var a, b := Utf8Char(c), Utf8Char(d);
    assert (a + x)[0] == a[0] && (b + y)[0] == b[0];
    assert |a| == |b|;
    SplitAt(a, x, b, y);
    assert forall i :: 0 <= i < |a| ==> a[i] == b[i];
    var n, m := c as int, d as int;
    if |a| == 2 {
      assert n == 64 * (n / 64) + n % 64 && m == 64 * (m / 64) + m % 64;
    } else if |a| >= 3 {
      Digits(n);
      Digits(m);
    }
  }

  lemma Digits(n: nat)
    ensures n == 4096 * (n / 4096) + 64 * (n / 64 % 64) + n % 64
    ensures n / 4096 == 64 * (n / 262144) + n / 4096 % 64
  {
    var a := n / 64;
    var b := a / 64;
    assert n == 64 * a + n % 64;
    assert a == 64 * b + a % 64;
    assert b == n / 4096 by { Quotients(n, a, b); }
    var c := b / 64;
    assert b == 64 * c + b % 64;
    assert c == n / 262144 by { Quotients64(n, b, c); }
  }

  lemma Quotients(n: nat, a: nat, b: nat)
    requires 64 * a <= n < 64 * a + 64 && 64 * b <= a < 64 * b + 64
    ensures n / 4096 == b
  {
  }

  lemma Quotients64(n: nat, b: nat, c: nat)
    requires b == n / 4096 && 64 * c <= b < 64 * c + 64
    ensures n / 262144 == c
  {
    assert 4096 * b <= n < 4096 * b + 4096;
  }

  lemma {:induction false} Utf8IsInjective(s: string, t: string)
    requires Utf8(s) == Utf8(t)
    ensures s == t
  {
    if s != "" && t != "" {
      Utf8CharIsPrefixFree(s[0], Utf8(s[1..]), t[0], Utf8(t[1..]));
      Utf8IsInjective(s[1..], t[1..]);
      assert s == [s[0]] + s[1..] && t == [t[0]] + t[1..];
    }
  }

  // Instants --------------------------------------------------------------------------------------

  /** Instants count nanoseconds from the zero time; the Unix epoch lies this many microseconds later. */
  const EPOCH_MICROS: int := 62_135_596_800_000_000

  /** Rounding down to the microsecond. */
  function Truncated(at: Time): Time
  {
    at - at % 1000
  }

  function UnixMicro(at: Time): int
  {
    at / 1000 - EPOCH_MICROS
  }

  /** Instants whose Unix microseconds fit a signed 64-bit number; the function is undefined on others. */
  predicate Representable(at: Time)
  {
    -(U64_LIMIT / 2) <= UnixMicro(at) < U64_LIMIT / 2
  }

  /** Reinterpreting a signed 64-bit number as unsigned. */
  function Unsigned(n: int): U64
  {
    n % U64_LIMIT
  }

  function Micros(at: Time): U64
  {
    Unsigned(UnixMicro(at))
  }

  lemma MicrosTellInstants(a: Time, b: Time)
    requires Representable(a) && Representable(b) && Micros(a) == Micros(b)
    ensures Truncated(a) == Truncated(b)
  {
    var x, y := UnixMicro(a), UnixMicro(b);
    assert x == y;
    assert a == 1000 * (a / 1000) + a % 1000 && b == 1000 * (b / 1000) + b % 1000;
  }

  lemma TruncatedOnce(at: Time)
    ensures Truncated(Truncated(at)) == Truncated(at) && Micros(Truncated(at)) == Micros(at)
    ensures Representable(Truncated(at)) <==> Representable(at)
  {
    var t := Truncated(at);
    assert t == 1000 * (at / 1000);
    assert t / 1000 == at / 1000;
  }

  // Hashing ------------------------------------------------------------------------------------------

  /** No two of these inputs collide. Over all inputs no hash can promise this. */
  ghost predicate CollisionFreeOn(H: Bytes -> Root, inputs: set<Bytes>)
  {
    forall x, y :: x in inputs && y in inputs && H(x) == H(y) ==> x == y
  }
}
