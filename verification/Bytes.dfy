/** Numbers as bytes.

    Bytes are numbers below 256.  Shifting a signed word to the right by 8k bits is division by
    256^k that rounds down, and `& 0xff` is the remainder by 256, never negative. */
module Bytes {

  type Byte = x: int | 0 <= x < 256

  // ---- big-endian numbers ----

  function Pow256(k: nat): (n: nat)
    ensures n > 0
  {
    if k == 0 then 1 else 256 * Pow256(k - 1)
  }

  /** `(v >> 8k) & 0xff`. */
  function ByteOf(v: int, k: nat): Byte {
    v / Pow256(k) % 256
  }

  /** The last `n` bytes of `v`, the highest first. */
  function BytesOf(v: int, n: nat): seq<Byte> {
    seq(n, i requires 0 <= i < n => ByteOf(v, n - i - 1))
  }

  /** Shifts the bytes of `x` into `v` from below, one after the other. */
  function ShiftIn(v: int, x: seq<Byte>): int {
    if x == [] then v else ShiftIn(v, x[..|x| - 1]) * 256 + x[|x| - 1]
  }

  lemma ShiftNext(v: int, x: seq<Byte>, n: nat)
    requires n < |x|
    ensures ShiftIn(v, x[..n + 1]) == ShiftIn(v, x[..n]) * 256 + x[n]
  {
    assert x[..n + 1][..n] == x[..n];
  }

  lemma ShiftNone(v: int)
    ensures ShiftIn(v, []) == v
  {
  }

  method ReadBytes(start: int, x: seq<Byte>, off: nat, n: nat) returns (v: int)
    requires off + n <= |x|
    ensures v == ShiftIn(start, x[off..off + n])
  {
    v := start;
    for i := 0 to n
      invariant v == ShiftIn(start, x[off..off + i])
    {
      assert x[off..off + i + 1][..i] == x[off..off + i];
      v := v * 256 + x[off + i];
    }
  }

  lemma Divisions(v: int, k: nat)
    ensures v / Pow256(k + 1) == v / 256 / Pow256(k)
  {
    DivideTwice(v, 256, Pow256(k));
  }

  lemma DivideTwice(v: int, a: nat, b: nat)
    requires a > 0 && b > 0
    ensures v / (a * b) == v / a / b
  {
    var q, r, s := v / a / b, v / a % b, v % a;
    assert v / a == b * q + r;
    assert v == a * (v / a) + s;
    Distributed(a, b, q, r, s);
    assert 0 <= a * r + s < a * b by { Below(a, b, r, s); }
    Quotient(v, a * b, q, a * r + s);
  }

  lemma Distributed(a: int, b: int, q: int, r: int, s: int)
    ensures a * (b * q + r) + s == (a * b) * q + (a * r + s)
  {
  }

  lemma Below(a: nat, b: nat, r: nat, s: nat)
    requires s < a && r < b
    ensures 0 <= a * r + s < a * b
  {
    assert a * b - a * r == a * (b - r);
    AtLeast(a, b - r);
    AtLeast(r, a);
  }

  lemma AtLeast(a: nat, n: nat)
    requires n > 0
    ensures a * n >= a && n * a >= a
  {
  }

  lemma Quotient(v: int, n: nat, q: int, r: nat)
    requires r < n && v == n * q + r
    ensures v / n == q && v % n == r
  {
    var q', r' := v / n, v % n;
    assert n * (q - q') == n * q - n * q';
    NoMultiple(n, q - q');
  }

  lemma NoMultiple(n: nat, d: int)
    requires -(n as int) < n * d < n
    ensures d == 0
  {
    if d > 0 {
      AtLeast(n, d);
    }
  }

  lemma ByteShifted(v: int, k: nat)
    ensures ByteOf(v, k + 1) == ByteOf(v / 256, k) && ByteOf(v, 0) == v % 256
  {
    Divisions(v, k);
    assert Pow256(0) == 1 && v / 1 == v;
  }

  lemma BytesShifted(v: int, n: nat)
    requires n > 0
    ensures BytesOf(v, n) == BytesOf(v / 256, n - 1) + [v % 256]
  {
    hide ByteOf;
    ByteShifted(v, 0);
    forall i | 0 <= i < n - 1
      ensures BytesOf(v, n)[i] == BytesOf(v / 256, n - 1)[i]
    {
      ByteShifted(v, n - i - 2);
    }
  }

  /** The bytes of a number, shifted into what is above them, make the number again. */
  lemma {:induction false} BytesMakeNumber(v: int, n: nat)
    ensures ShiftIn(v / Pow256(n), BytesOf(v, n)) == v
    decreases n
  {
    if n > 0 {
      hide BytesOf, ByteOf;
      BytesShifted(v, n);
      BytesMakeNumber(v / 256, n - 1);
      Divisions(v, n - 1);
      var x := BytesOf(v / 256, n - 1);
      assert (x + [v % 256])[..|x|] == x;
      hide Pow256;
    } else {
      assert BytesOf(v, 0) == [] && v / 1 == v;
    }
  }

  // ---- signs ----

  function SignExtension(b: Byte): int {
    if b / 0x80 == 1 then -1 else 0
  }

  lemma Powers()
    ensures Pow256(1) == 0x100 && Pow256(2) == 0x1_0000 && Pow256(3) == 0x100_0000 && Pow256(4) == 0x1_0000_0000
    ensures Pow256(8) == 0x1_0000_0000_0000_0000
  {
    assert Pow256(4) == 0x1_0000_0000;
    assert Pow256(8) == 0x1_0000_0000 * Pow256(4);
  }

  /** The first byte of a signed number says its sign. */
  lemma SignByte(v: int, n: nat)
    requires n > 0 && -(Pow256(n - 1) * 0x80) <= v < Pow256(n - 1) * 0x80
    ensures v / Pow256(n) == SignExtension(ByteOf(v, n - 1))
  {
    var p := Pow256(n - 1);
    var t := v / p;
    assert -0x80 <= t < 0x80 by { Between(v, p); }
    DivideTwice(v, p, 256);
    assert p * 256 == Pow256(n);
  }

  lemma Between(v: int, p: nat)
    requires p > 0 && -(p * 0x80) <= v < p * 0x80
    ensures -0x80 <= v / p < 0x80
  {
    var t, r := v / p, v % p;
    assert v == p * t + r;
    if t < -0x80 {
      assert p * t <= p * -0x81 by { Monotone(p, t, -0x81); }
    }
  }

  lemma Monotone(p: nat, a: int, b: int)
    requires a <= b
    ensures p * a <= p * b
  {
    assert p * b - p * a == p * (b - a);
    NonNegative(p, b - a);
  }

  lemma NonNegative(p: nat, d: nat)
    ensures p * d >= 0
  {
  }
}
