/** The byte codecs of the packed list (src/svalue/zip_list.rs). */
module ZipListCodec {
  import opened Bytes
  import opened Options

  // ---- the length of the previous entry ----

  const LARGE: Byte := 0xfe
  const LARGE_LENGTH := 254
  const LENGTH_LIMIT := 0xFFFF_FFFF

  function PrevLengthSize(len: nat): nat {
    if len < LARGE_LENGTH then 1 else 5
  }

  /** The bytes that are written for a length: none past the limit. */
  function PrevLengthBytes(len: nat): seq<Byte> {
    if len < LARGE_LENGTH then [len] else if len < LENGTH_LIMIT then [LARGE] + BytesOf(len, 4) else []
  }

  function PrevLengthOf(x: seq<Byte>): nat
    requires |x| >= 1 && (x[0] == LARGE ==> |x| >= 5)
  {
    if x[0] != LARGE then x[0] else Natural(x[1..5])
  }

  /** Unsigned bytes make a natural number. */
  function Natural(x: seq<Byte>): (n: nat)
    ensures n == ShiftIn(0, x)
  {
    if x == [] then 0 else Natural(x[..|x| - 1]) * 256 + x[|x| - 1]
  }

  method DecodePrevLength(x: seq<Byte>) returns (v: nat)
    requires |x| >= 1 && (x[0] == LARGE ==> |x| >= 5)
    ensures v == PrevLengthOf(x)
  {
    if x[0] != LARGE {
      return x[0];
    }
    var w := ReadBytes(0, x, 1, 4);
    assert Natural(x[1..5]) == w;
    v := w;
  }

  lemma SmallNumber(v: nat, n: nat)
    requires v < Pow256(n)
    ensures Natural(BytesOf(v, n)) == v
  {
    BytesMakeNumber(v, n);
    Quotient(v, Pow256(n), 0, v);
  }

  /** Every length below the limit, whatever follows it, is read back, and takes its size. */
  lemma PrevLengthRoundTrip(len: nat, rest: seq<Byte>)
    requires len < LENGTH_LIMIT
    ensures var x := PrevLengthBytes(len);
            |x| == PrevLengthSize(len) && (x[0] == LARGE <==> len >= LARGE_LENGTH) && PrevLengthOf(x + rest) == len
  {
    if len >= LARGE_LENGTH {
      var x := PrevLengthBytes(len) + rest;
      assert x[1..5] == BytesOf(len, 4);
      assert Pow256(4) == 0x1_0000_0000;
      SmallNumber(len, 4);
    }
  }

  lemma PrevLengthBytesSize(len: nat)
    requires len < LENGTH_LIMIT
    ensures |PrevLengthBytes(len)| == PrevLengthSize(len)
  {
  }

  // ---- encodings ----

  const I8_ENC: Byte := 0xfe
  const I16_ENC: Byte := 0xc0
  const I24_ENC: Byte := 0xf0
  const I32_ENC: Byte := 0xd0
  const I64_ENC: Byte := 0xe0

  datatype Encoding = Str(size: nat) | Int(value: int)

  /** What the encoder takes: strings below 2^32 bytes and 64-bit integers. */
  predicate Encodable(e: Encoding) {
    match e
    case Str(size) => size < 0x1_0000_0000
    case Int(v) => -0x8000_0000_0000_0000 <= v < 0x8000_0000_0000_0000
  }

  /** The number of bytes of an integer, behind its tag. */
  function IntSize(v: int): nat {
    if 0 < v < 12 then 0
    else if -0x80 < v < 0x7f then 1
    else if -0x8000 < v < 0x7fff then 2
    else if -0x80_0000 < v < 0x40_0000 then 3
    else if -0x8000_0000 < v < 0x7fff_ffff then 4
    else 8
  }

  /** The bytes of an encoding, without the content of a string. */
  function HeadSize(e: Encoding): nat {
    match e
    case Str(size) => if size < 0x40 then 1 else if size < 0x4000 then 2 else 5
    case Int(v) => 1 + IntSize(v)
  }

  function FullSize(e: Encoding): nat {
    HeadSize(e) + if e.Str? then e.size else 0
  }

  function IntTag(v: int): Byte {
    match IntSize(v)
    case 0 => if 0 < v < 12 then 0xf0 + v else 0xf0
    case 1 => I8_ENC
    case 2 => I16_ENC
    case 3 => I24_ENC
    case 4 => I32_ENC
    case _ => I64_ENC
  }

  /** Byte `i` of the head of an encoding. */
  function HeadByte(e: Encoding, i: nat): Byte
    requires i < HeadSize(e) && Encodable(e)
  {
    match e
    case Str(size) =>
      var n := HeadSize(e);
      if i == 0 && n == 5 then 0x80
      else if i == 0 && n == 2 then 0x40 + size / 256
      else ByteOf(size, n - i - 1)
    case Int(v) => if i == 0 then IntTag(v) else ByteOf(v, HeadSize(e) - i - 1)
  }

  function HeadBytes(e: Encoding): seq<Byte>
    requires Encodable(e)
  {
    seq(HeadSize(e), i requires 0 <= i < HeadSize(e) => HeadByte(e, i))
  }

  // ---- parsing ----

  /** The number of bytes behind the tag of an integer; none for a small one; no tag otherwise. */
  function TagSize(b: Byte): Option<nat> {
    if b == I16_ENC then Some(2)
    else if b == I32_ENC then Some(4)
    else if b == I64_ENC then Some(8)
    else if b == I24_ENC then Some(3)
    else if b == I8_ENC then Some(1)
    else if 0xf0 < b < 0xf0 + 12 then Some(0)
    else None
  }

  /** The encoding that some bytes begin with, if they begin with one. */
  function Parse(x: seq<Byte>): Option<Encoding> {
    if x == [] then None
    else if x[0] / 0x40 != 3 then
      var n := if x[0] / 0x40 == 0 then 1 else if x[0] / 0x40 == 1 then 2 else 5;
      if |x| < n then None else Some(Str(StrSize(x, n)))
    else
      match TagSize(x[0])
      case None => None
      case Some(0) => Some(Int(x[0] - 0xf0))
      case Some(n) => if |x| < 1 + n then None else Some(Int(ShiftIn(SignExtension(x[1]), x[1..1 + n])))
  }

  function StrSize(x: seq<Byte>, n: nat): nat
    requires 1 <= n <= |x|
  {
    if n == 1 then x[0] % 0x40 else StrSize(x, n - 1) * 256 + x[n - 1]
  }

  method ParseStr(x: seq<Byte>) returns (r: Option<Encoding>)
    requires |x| > 0 && x[0] / 0x40 != 3
    ensures r == Parse(x)
  {
    var n := match x[0] / 0x40 case 0 => 1 case 1 => 2 case _ => 5;
    if |x| < n {
      return None;
    }
    var v: nat := x[0] % 0x40;
    for i := 1 to n
      invariant v == StrSize(x, i)
    {
      v := v * 256 + x[i];
    }
    return Some(Str(v));
  }

  method ParseInt(x: seq<Byte>) returns (r: Option<Encoding>)
    requires |x| > 0 && x[0] / 0x40 == 3
    ensures r == Parse(x)
  {
    var n := TagSize(x[0]);
    if n.None? {
      return None;
    }
    if n.value == 0 {
      return Some(Int(x[0] - 0xf0));
    }
    if |x| < 1 + n.value {
      return None;
    }
    var v := ReadBytes(if x[1] / 0x80 == 1 then -1 else 0, x, 1, n.value);
    return Some(Int(v));
  }

  // ---- round trips ----

  lemma {:induction false} StrSizeShifts(x: seq<Byte>, n: nat)
    requires 1 <= n <= |x| && x[0] % 0x40 == 0
    ensures StrSize(x, n) == ShiftIn(0, x[1..n])
  {
    if n > 1 {
      StrSizeShifts(x, n - 1);
      assert x[1..n][..n - 2] == x[1..n - 1];
    }
  }

  lemma ParseStrRoundTrip(size: nat, rest: seq<Byte>)
    requires Encodable(Str(size))
    ensures Parse(HeadBytes(Str(size)) + rest) == Some(Str(size))
  {
    var e := Str(size);
    var x, n := HeadBytes(e) + rest, HeadSize(e);
    if n == 5 {
      assert x[1..5] == BytesOf(size, 4);
      Powers();
      SmallNumber(size, 4);
      StrSizeShifts(x, 5);
    } else {
      ByteShifted(size, 0);
      assert x[n - 1] == size % 256;
      if n == 2 {
        assert StrSize(x, 2) == StrSize(x, 1) * 256 + x[1];
      }
    }
  }

  lemma IntFits(v: int)
    requires Encodable(Int(v)) && IntSize(v) > 0
    ensures var n := IntSize(v); -(Pow256(n - 1) * 0x80) <= v < Pow256(n - 1) * 0x80
  {
    Powers();
    assert Pow256(7) == 0x100_0000_0000_0000 by { assert Pow256(8) == 256 * Pow256(7); }
    assert Pow256(0) == 1;
  }

  lemma ParseIntRoundTrip(v: int, rest: seq<Byte>)
    requires Encodable(Int(v))
    ensures Parse(HeadBytes(Int(v)) + rest) == Some(Int(v))
  {
    var x, n := HeadBytes(Int(v)) + rest, IntSize(v);
    assert x[0] == IntTag(v);
    if n > 0 {
      IntFits(v);
      SignByte(v, n);
      assert x[1..1 + n] == BytesOf(v, n);
      assert x[1] == ByteOf(v, n - 1);
      BytesMakeNumber(v, n);
    }
  }

  /** The head of every string below 2^32 bytes and of every 64-bit integer, whatever follows it,
      is read back. */
  lemma ParseRoundTrip(e: Encoding, rest: seq<Byte>)
    requires Encodable(e)
    ensures Parse(HeadBytes(e) + rest) == Some(e) && |HeadBytes(e)| == HeadSize(e)
  {
    match e
    case Str(size) => ParseStrRoundTrip(size, rest);
    case Int(v) => ParseIntRoundTrip(v, rest);
  }
}
