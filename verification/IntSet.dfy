/** The packed set of integers: sorted numbers of two, four or eight bytes each, the lowest byte
    first, behind a header of four bytes that begins with the width (src/svalue/int_set.rs). */
module IntSets {
  import opened Bytes
  import opened Options

  const HEADER := 4
  const MIN_VALUE := -0x8000_0000_0000_0000
  const MAX_VALUE := 0x7FFF_FFFF_FFFF_FFFF

  predicate IsWidth(w: int) {
    w == 2 || w == 4 || w == 8
  }

  /** The numbers that `w` bytes hold. */
  predicate Fits(v: int, w: int) {
    if w == 2 then -0x8000 <= v <= 0x7FFF
    else if w == 4 then -0x8000_0000 <= v <= 0x7FFF_FFFF
    else MIN_VALUE <= v <= MAX_VALUE
  }

  /** The least width that holds a number. */
  function ValueEncoding(v: int): (w: nat)
    ensures IsWidth(w) && (MIN_VALUE <= v <= MAX_VALUE ==> forall u | IsWidth(u) :: Fits(v, u) <==> w <= u)
  {
    if v < -0x8000_0000 || v > 0x7FFF_FFFF then 8
    else if v < -0x8000 || v > 0x7FFF then 4
    else 2
  }

  /** Where number `i` stands; a product, written out for each width. */
  function TruePos(i: nat, w: nat): nat {
    HEADER + if w == 2 then 2 * i else if w == 4 then 4 * i else 8 * i
  }

  // ---- one number ----

  /** The `w` bytes of number `i` are those of `v`. */
  ghost predicate Holds(x: seq<Byte>, i: nat, w: nat, v: int) {
    TruePos(i, w) + w <= |x| && forall b | 0 <= b < w :: x[TruePos(i, w) + b] == ByteOf(v, b)
  }

  /** What stands in some bytes, read from the highest, the last one, down. */
  function Backward(x: seq<Byte>): (r: seq<Byte>)
    ensures |r| == |x| && forall i | 0 <= i < |x| :: r[i] == x[|x| - 1 - i]
  {
    seq(|x|, i requires 0 <= i < |x| => x[|x| - 1 - i])
  }

  /** The bytes of a number that fits make the number. */
  lemma ReadBack(v: int, w: nat)
    requires IsWidth(w) && Fits(v, w)
    ensures ShiftIn(SignExtension(ByteOf(v, w - 1)), BytesOf(v, w)) == v
  {
    Widths(w);
    SignByte(v, w);
    BytesMakeNumber(v, w);
  }

  lemma Widths(w: nat)
    requires IsWidth(w)
    ensures Pow256(w - 1) * 0x80 == if w == 2 then 0x8000 else if w == 4 then 0x8000_0000 else 0x8000_0000_0000_0000
  {
    Powers();
    assert Pow256(8) == 256 * Pow256(7);
    assert Pow256(4) == 256 * Pow256(3);
  }

  method GetByEnc(x: seq<Byte>, pos: nat, w: nat, ghost v: int) returns (r: int)
    requires IsWidth(w) && Fits(v, w) && Holds(x, pos, w, v)
    ensures r == v
  {
    hide Holds, Fits, BytesOf, ByteOf, SignExtension, ShiftIn, TruePos;
    HeldBytes(x, pos, w, v);
    var p := TruePos(pos, w);
    ghost var bs := Backward(x[p..p + w]);
    r := if x[p + w - 1] > 127 then -1 else 0;
    ghost var start := r;
    ShiftNone(start);
    var i := w;
    while i > 0
      invariant 0 <= i <= w && r == ShiftIn(start, bs[..w - i])
    {
      i := i - 1;
      ShiftNext(start, bs, w - i - 1);
      r := r * 256 + x[p + i];
    }
    assert bs[..w] == bs;
    ReadBack(v, w);
  }

  lemma HeldBytes(x: seq<Byte>, pos: nat, w: nat, v: int)
    requires w > 0 && Holds(x, pos, w, v)
    ensures var p := TruePos(pos, w);
            p + w <= |x| && Backward(x[p..p + w]) == BytesOf(v, w) &&
            (if x[p + w - 1] > 127 then -1 else 0) == SignExtension(ByteOf(v, w - 1))
  {
    hide TruePos, ByteOf;
  }

  // ---- sorted numbers ----

  ghost predicate Increasing(es: seq<int>) {
    forall i, j | 0 <= i < j < |es| :: es[i] < es[j]
  }

  /** `es` with `v` in front of number `k`. */
  function With(es: seq<int>, k: nat, v: int): seq<int>
    requires k <= |es|
  {
    es[..k] + [v] + es[k..]
  }

  function Without(es: seq<int>, k: nat): seq<int>
    requires k < |es|
  {
    es[..k] + es[k + 1..]
  }

  /** `k` is where `v` belongs. */
  ghost predicate Belongs(es: seq<int>, v: int, k: nat) {
    k <= |es| && (forall i | 0 <= i < k :: es[i] < v) && forall i | k <= i < |es| :: v < es[i]
  }

  lemma WithIsSet(es: seq<int>, k: nat, v: int)
    requires Increasing(es) && Belongs(es, v, k)
    ensures v !in es && Increasing(With(es, k, v)) && forall u :: u in With(es, k, v) <==> u in es || u == v
  {
    var r := With(es, k, v);
    assert forall i | 0 <= i < |es| :: es[i] == r[if i < k then i else i + 1];
    assert r[k] == v;
  }

  lemma WithoutIsSet(es: seq<int>, k: nat)
    requires Increasing(es) && k < |es|
    ensures Increasing(Without(es, k)) && forall u :: u in Without(es, k) <==> u in es && u != es[k]
  {
    var r := Without(es, k);
    assert forall i | 0 <= i < |r| :: r[i] == es[if i < k then i else i + 1];
    forall u | u in es && u != es[k]
      ensures u in r
    {
      var i :| 0 <= i < |es| && es[i] == u;
      assert r[if i < k then i else i - 1] == u;
    }
  }

  // ---- the block ----

  /** The bytes hold these numbers with this width. */
  ghost predicate Packed(x: seq<Byte>, w: nat, es: seq<int>) {
    IsWidth(w) && |x| == TruePos(|es|, w) && x[0] == w && forall i | 0 <= i < |es| ::
      Fits(es[i], w) && Holds(x, i, w, es[i])
  }

  class IntSet {
    var bytes: seq<Byte>
    ghost var elements: seq<int>

    ghost predicate Valid()
      reads this
    {
      |bytes| > 0 && Packed(bytes, bytes[0], elements) && Increasing(elements)
    }

    constructor ()
      ensures Valid() && elements == []
    {
      bytes, elements := [2, 0, 0, 0], [];
    }

    method Len() returns (n: nat)
      requires |bytes| > 0 && Packed(bytes, bytes[0], elements)
      ensures n == |elements|
    {
      n := (|bytes| - HEADER) / bytes[0];
    }

    method Get(pos: nat) returns (v: int)
      requires Valid() && pos < |elements|
      ensures v == elements[pos]
    {
      v := GetByEnc(bytes, pos, bytes[0], elements[pos]);
    }

    /** Where a number is, or where it belongs. */
    method Search(value: int) returns (found: bool, pos: nat)
      requires Valid()
      ensures if found then pos < |elements| && elements[pos] == value
              else value !in elements && Belongs(elements, value, pos)
    {
      hide Packed;
      var len := Len() by { ValidIsPacked(); }
      if len == 0 {
        return false, 0;
      }
      var first := Get(0);
      if value < first {
        return false, 0;
      }
      var last := Get(len - 1);
      if last < value {
        return false, len;
      }
      var min: nat, max: nat, mid: nat, midValue := 0, len - 1, 0, 0;
      while min <= max
        invariant min <= max + 1 <= len && mid < len
        invariant elements[0] <= value <= elements[len - 1]
        invariant forall i | 0 <= i < min :: elements[i] < value
        invariant forall i | max < i < len :: value < elements[i]
        invariant min > 0 || max < len - 1 ==> midValue == elements[mid] != value
        decreases max + 1 - min
      {
        mid := min + (max - min) / 2;
        midValue := Get(mid);
        if value < midValue {
          max := mid - 1;
        } else if midValue < value {
          min := mid + 1;
        } else {
          break;
        }
      }
      if midValue == value {
        return true, mid;
      }
      return false, min;
    }

    lemma ValidIsPacked()
      requires Valid()
      ensures |bytes| > 0 && Packed(bytes, bytes[0], elements)
    {
    }

    method Find(value: int) returns (found: bool)
      requires Valid()
      ensures found <==> value in elements
    {
      var pos;
      found, pos := Search(value);
    }

    // ---- changing a number ----

    /** Writes the bytes of a number, and no other. */
    method SetByEnc(pos: nat, w: nat, value: int)
      requires IsWidth(w) && TruePos(pos, w) + w <= |bytes|
      modifies `bytes
      ensures |bytes| == |old(bytes)| && Holds(bytes, pos, w, value)
      ensures forall i | 0 <= i < |bytes| && (i < TruePos(pos, w) || i >= TruePos(pos, w) + w) ::
              bytes[i] == old(bytes)[i]
    {
      hide ByteOf;
      ghost var x := bytes;
      var p := TruePos(pos, w);
      for i := 0 to w
        invariant |bytes| == |x|
        invariant forall b | 0 <= b < i :: bytes[p + b] == ByteOf(value, b)
        invariant forall j | 0 <= j < |x| && (j < p || j >= p + i) :: bytes[j] == x[j]
      {
        bytes := bytes[p + i := ByteOf(value, i)];
      }
    }

    method Swap(i: nat, j: nat)
      requires i < |bytes| && j < |bytes|
      modifies `bytes
      ensures bytes == old(bytes)[i := old(bytes)[j]][j := old(bytes)[i]]
    {
      var b := bytes[i];
      bytes := bytes[i := bytes[j]];
      bytes := bytes[j := b];
    }

    /** Moves all from a place on to a later one, and makes the block as much longer. */
    method MoveUp(from: nat, to: nat)
      requires from <= to && from <= |bytes|
      modifies `bytes
      ensures |bytes| == |old(bytes)| + (to - from)
      ensures forall i | 0 <= i < from :: bytes[i] == old(bytes)[i]
      ensures bytes[to..] == old(bytes)[from..]
    {
      ghost var x := bytes;
      var diff := to - from;
      bytes := bytes + seq(diff, i => 0);
      var p := |bytes|;
      while p > to
        invariant to <= p <= |bytes| == |x| + diff
        invariant forall i | 0 <= i < p - diff :: bytes[i] == x[i]
        invariant forall i | p <= i < |bytes| :: bytes[i] == x[i - diff]
        decreases p
      {
        p := p - 1;
        Swap(p, p - diff);
      }
    }

    /** Moves all from a place on to an earlier one, and makes the block as much shorter. */
    method MoveDown(from: nat, to: nat)
      requires to < from <= |bytes|
      modifies `bytes
      ensures bytes == old(bytes)[..to] + old(bytes)[from..]
    {
      ghost var x := bytes;
      var diff := from - to;
      for p := from to |bytes|
        invariant |bytes| == |x|
        invariant forall i | 0 <= i < to :: bytes[i] == x[i]
        invariant forall i | to <= i < p - diff :: bytes[i] == x[i + diff]
        invariant forall i | p <= i < |x| :: bytes[i] == x[i]
      {
        Swap(p, p - diff);
      }
      bytes := bytes[..|bytes| - diff];
    }

    /** Moves all from one number's place on to another one's. */
    method MoveTail(from: nat, to: nat, w: nat)
      requires |bytes| > 0 && w == bytes[0] && IsWidth(w) && TruePos(from, w) <= |bytes|
      modifies `bytes
      ensures var x, f, t := old(bytes), TruePos(from, w), TruePos(to, w);
              if t >= f then |bytes| == |x| + (t - f) && bytes[..f] == x[..f] && bytes[t..] == x[f..]
                else bytes == x[..t] + x[f..]
    {
      var f, t := TruePos(from, w), TruePos(to, w);
      if t > f {
        MoveUp(f, t);
      } else if f > t {
        MoveDown(f, t);
      }
    }

    // ---- the operations ----

    /** Adds a number; fails just when it is there. */
    method Add(value: int) returns (ok: bool)
      requires Valid() && MIN_VALUE <= value <= MAX_VALUE
      modifies this
      ensures Valid() && (ok <==> value !in old(elements)) && (!ok ==> elements == old(elements))
      ensures forall v :: v in elements <==> v in old(elements) || v == value
    {
      var w := ValueEncoding(value);
      if w > bytes[0] {
        UpgradeAndAdd(value);
        return true;
      }
      w := bytes[0];
      var found, pos := Search(value);
      if found {
        return false;
      }
      ghost var x := bytes;
      hide Holds, Increasing, Belongs;
      MoveTail(pos, pos + 1, w);
      SetByEnc(pos, w, value);
      PackedWith(x, bytes, w, elements, pos, value);
      WithIsSet(elements, pos, value);
      elements := With(elements, pos, value);
      return true;
    }

    /** Takes a number out; fails just when it is not there. */
    method Remove(value: int) returns (ok: bool)
      requires Valid() && MIN_VALUE <= value <= MAX_VALUE
      modifies this
      ensures Valid() && (ok <==> value in old(elements)) && (!ok ==> elements == old(elements))
      ensures forall v :: v in elements <==> v in old(elements) && v != value
    {
      var w := bytes[0];
      if ValueEncoding(value) > w {
        return false;
      }
      var found, pos := Search(value);
      if !found {
        return false;
      }
      ghost var x := bytes;
      hide Holds, Increasing, Belongs;
      MoveTail(pos + 1, pos, w);
      PackedWithout(x, bytes, w, elements, pos);
      WithoutIsSet(elements, pos);
      elements := Without(elements, pos);
      return true;
    }

    /** Widens all numbers in place, from the last one down, and adds one that needs the width: it is
        less than all, or greater than all. */
    method UpgradeAndAdd(value: int)
      requires Valid() && MIN_VALUE <= value <= MAX_VALUE && ValueEncoding(value) > bytes[0]
      modifies this
      ensures Valid() && value !in old(elements) && forall v :: v in elements <==> v in old(elements) || v == value
    {
      hide Packed, Increasing;
      var w: nat, wide := bytes[0], ValueEncoding(value);
      ValidIsPacked();
      var oldLen := Len();
      ghost var es, x := elements, bytes;
      Spread(x, oldLen, w, wide, es, value);
      bytes := bytes + seq(TruePos(oldLen + 1, wide) - |bytes|, i => 0);
      Widened(x, bytes, w, es);
      var first := GetByEnc(bytes, 0, w, if oldLen > 0 then es[0] else 0);
      var j, k := if value < first then 1 else 0, if value < first then 0 else oldLen;
      WidenAll(oldLen, j, w, wide, es);
      ghost var y := bytes;
      RoomForWide(k, 0, oldLen + 1, wide);
      hide Holds;
      SetByEnc(k, wide, value);
      WideHolds(y, bytes, wide, es, j, k);
      WideIsPacked(bytes, w, wide, es, j, k, value);
      WithIsSet(es, k, value);
      bytes := bytes[0 := wide];
      elements := With(es, k, value);
    }

    /** Writes the first numbers again, wider and perhaps one place further on, the last one first: each
        is read before anything is written over it. */
    method WidenAll(n: nat, j: nat, w: nat, wide: nat, ghost es: seq<int>)
      requires IsWidth(w) && IsWidth(wide) && w < wide && n == |es| && j <= 1 && |bytes| == TruePos(n + 1, wide)
      requires forall q | 0 <= q < n :: Fits(es[q], w) && Holds(bytes, q, w, es[q])
      modifies `bytes
      ensures |bytes| == |old(bytes)| && bytes[0] == old(bytes)[0]
      ensures forall q | 0 <= q < n :: Holds(bytes, q + j, wide, es[q])
    {
      hide Holds, Fits;
      for i := n downto 0
        invariant |bytes| == |old(bytes)| && bytes[0] == old(bytes)[0]
        invariant forall q | 0 <= q < i :: Holds(bytes, q, w, es[q])
        invariant forall q | i <= q < n :: Holds(bytes, q + j, wide, es[q])
      {
        ghost var x := bytes;
        var v := GetByEnc(bytes, i, w, es[i]);
        RoomForWide(i, j, n, wide);
        SetByEnc(i + j, wide, v);
        forall q | 0 <= q < i
          ensures Holds(bytes, q, w, es[q])
        {
          InFront(q, i, j, w, wide);
          StillHolds(x, bytes, q, w, es[q], i + j, wide);
        }
        forall q | i < q < n
          ensures Holds(bytes, q + j, wide, es[q])
        {
          InFront(i + j, q + j, 0, wide, wide);
          StillHolds(x, bytes, q + j, wide, es[q], i + j, wide);
        }
      }
    }
  }

  // ---- places ----

  /** A number in front of another, narrow or not, ends before it begins. */
  lemma InFront(q: nat, i: nat, j: nat, w: nat, wide: nat)
    requires IsWidth(w) && IsWidth(wide) && w <= wide && q < i
    ensures TruePos(q, w) + w <= TruePos(i + j, wide)
  {
  }

  lemma RoomForWide(i: nat, j: nat, n: nat, wide: nat)
    requires IsWidth(wide) && i < n && j <= 1
    ensures TruePos(i + j, wide) + wide <= TruePos(n + 1, wide) && TruePos(i + j, wide) >= HEADER
  {
  }

  /** A number keeps its bytes when another place is written. */
  lemma StillHolds(x: seq<Byte>, x': seq<Byte>, q: nat, w: nat, v: int, i: nat, wide: nat)
    requires |x'| == |x| && Holds(x, q, w, v) && (TruePos(q, w) + w <= TruePos(i, wide) ||
             TruePos(i, wide) + wide <= TruePos(q, w))
    requires forall b | 0 <= b < |x| && (b < TruePos(i, wide) || b >= TruePos(i, wide) + wide) :: x'[b] == x[b]
    ensures Holds(x', q, w, v)
  {
  }

  lemma Spread(x: seq<Byte>, n: nat, w: nat, wide: nat, es: seq<int>, value: int)
    requires Packed(x, w, es) && n == |es| && IsWidth(wide) && w < wide && ValueEncoding(value) == wide
    ensures IsWidth(w) && |x| <= TruePos(n + 1, wide)
  {
  }

  lemma Widened(x: seq<Byte>, x': seq<Byte>, w: nat, es: seq<int>)
    requires Packed(x, w, es) && |x| <= |x'| && x'[..|x|] == x && (forall b | |x| <= b < |x'| :: x'[b] == 0)
    requires |x'| >= TruePos(|es| + 1, w)
    ensures forall q | 0 <= q < |es| :: Fits(es[q], w) && Holds(x', q, w, es[q])
    ensures es == [] ==> Holds(x', 0, w, 0)
  {
    assert forall k: nat {:trigger ByteOf(0, k)} :: ByteOf(0, k) == 0;
  }

  /** A block with a number put in. */
  lemma PackedWith(x: seq<Byte>, x': seq<Byte>, w: nat, es: seq<int>, pos: nat, v: int)
    requires Packed(x, w, es) && pos <= |es| && Fits(v, w) && |x'| == |x| + w && Holds(x', pos, w, v)
    requires x'[..TruePos(pos, w)] == x[..TruePos(pos, w)] && x'[TruePos(pos + 1, w)..] == x[TruePos(pos, w)..]
    ensures Packed(x', w, With(es, pos, v))
  {
    hide ByteOf;
    var es' := With(es, pos, v);
    forall i | 0 <= i < |es'| && i != pos
      ensures Holds(x', i, w, es'[i])
    {
      PutHolds(x, x', w, es, pos, i);
    }
  }

  /** A block with a number taken out. */
  lemma PackedWithout(x: seq<Byte>, x': seq<Byte>, w: nat, es: seq<int>, pos: nat)
    requires Packed(x, w, es) && pos < |es| && TruePos(pos + 1, w) <= |x| &&
             x' == x[..TruePos(pos, w)] + x[TruePos(pos + 1, w)..]
    ensures Packed(x', w, Without(es, pos))
  {
    hide ByteOf, Holds;
    var es' := Without(es, pos);
    forall i | 0 <= i < |es'|
      ensures Holds(x', i, w, es'[i])
    {
      var o := if i < pos then i else i + 1;
      assert x'[TruePos(i, w)..TruePos(i, w) + w] == x[TruePos(o, w)..TruePos(o, w) + w];
      SliceHolds(x, x', o, i, w, es[o]);
    }
  }

  lemma PutHolds(x: seq<Byte>, x': seq<Byte>, w: nat, es: seq<int>, pos: nat, i: nat)
    requires Packed(x, w, es) && pos <= |es| && |x'| == |x| + w && i <= |es| && i != pos
    requires x'[..TruePos(pos, w)] == x[..TruePos(pos, w)] && x'[TruePos(pos + 1, w)..] == x[TruePos(pos, w)..]
    ensures Holds(x', i, w, es[if i < pos then i else i - 1])
  {
    hide ByteOf;
    var o := if i < pos then i else i - 1;
    assert x'[TruePos(i, w)..TruePos(i, w) + w] == x[TruePos(o, w)..TruePos(o, w) + w] by {
      if i < pos {
        Same(x', x, TruePos(i, w), TruePos(pos, w), w);
      } else {
        SameBehind(x', x, TruePos(pos + 1, w), TruePos(pos, w), TruePos(o, w) - TruePos(pos, w), w);
      }
    }
    SliceHolds(x, x', o, i, w, es[o]);
  }

  lemma Same(x: seq<Byte>, y: seq<Byte>, p: nat, end: nat, w: nat)
    requires p + w <= end <= |x| && end <= |y| && x[..end] == y[..end]
    ensures x[p..p + w] == y[p..p + w]
  {
    assert x[p..p + w] == x[..end][p..p + w] && y[p..p + w] == y[..end][p..p + w];
  }

  lemma SameBehind(x: seq<Byte>, y: seq<Byte>, a: nat, b: nat, d: nat, w: nat)
    requires a <= |x| && b <= |y| && x[a..] == y[b..] && a + d + w <= |x|
    ensures b + d + w <= |y| && x[a + d..a + d + w] == y[b + d..b + d + w]
  {
    assert |x[a..]| == |y[b..]|;
    var s, t := x[a + d..a + d + w], y[b + d..b + d + w];
    forall k | 0 <= k < w
      ensures s[k] == t[k]
    {
      assert x[a..][d + k] == y[b..][d + k];
    }
  }

  lemma SliceHolds(x: seq<Byte>, x': seq<Byte>, o: nat, i: nat, w: nat, v: int)
    requires Holds(x, o, w, v) && TruePos(i, w) + w <= |x'|
    requires x'[TruePos(i, w)..TruePos(i, w) + w] == x[TruePos(o, w)..TruePos(o, w) + w]
    ensures Holds(x', i, w, v)
  {
    hide ByteOf, TruePos;
    var p, q := TruePos(i, w), TruePos(o, w);
    forall b: nat | b < w
      ensures x'[p + b] == ByteOf(v, b)
    {
      assert x'[p..p + w][b] == x[q..q + w][b];
    }
  }

  lemma WideHolds(y: seq<Byte>, x: seq<Byte>, wide: nat, es: seq<int>, j: nat, k: nat)
    requires IsWidth(wide) && |x| == |y| && (if j == 1 then k == 0 else j == 0 && k == |es|)
    requires forall q | 0 <= q < |es| :: Holds(y, q + j, wide, es[q])
    requires forall b | 0 <= b < |x| && (b < TruePos(k, wide) || b >= TruePos(k, wide) + wide) :: x[b] == y[b]
    ensures forall q | 0 <= q < |es| :: Holds(x, q + j, wide, es[q])
  {
    hide Holds;
    forall q | 0 <= q < |es|
      ensures Holds(x, q + j, wide, es[q])
    {
      if j == 1 {
        InFront(0, q + 1, 0, wide, wide);
      } else {
        InFront(q, k, 0, wide, wide);
      }
      StillHolds(y, x, q + j, wide, es[q], k, wide);
    }
  }

  /** A number that needs more bytes than all others belongs in front of them, or behind them. */
  lemma WideIsPacked(x: seq<Byte>, w: nat, wide: nat, es: seq<int>, j: nat, k: nat, value: int)
    requires IsWidth(w) && wide == ValueEncoding(value) && w < wide && MIN_VALUE <= value <= MAX_VALUE &&
             |x| == TruePos(|es| + 1, wide)
    requires forall q | 0 <= q < |es| :: Fits(es[q], w) && Holds(x, q + j, wide, es[q])
    requires Holds(x, k, wide, value)
    requires var first := if es == [] then 0 else es[0]; if value < first then j == 1 && k == 0 else j == 0 && k == |es|
    ensures Packed(x[0 := wide], wide, With(es, k, value)) && Belongs(es, value, k)
  {
    var x', es' := x[0 := wide], With(es, k, value);
    forall i | 0 <= i < |es'|
      ensures Fits(es'[i], wide) && Holds(x', i, wide, es'[i])
    {
      hide Holds, ByteOf;
      assert i != k ==> es'[i] == es[i - j] && Holds(x, (i - j) + j, wide, es[i - j]);
      HeaderApart(x, i, wide, es'[i], wide);
    }
  }

  lemma HeaderApart(x: seq<Byte>, i: nat, w: nat, v: int, b: Byte)
    requires Holds(x, i, w, v) && |x| > 0
    ensures Holds(x[0 := b], i, w, v)
  {
  }

  // ---- walking ----

  class Iter {
    const set': IntSet
    var idx: nat

    constructor (set': IntSet)
      ensures this.set' == set' && idx == 0
    {
      this.set', idx := set', 0;
    }

    method Next() returns (r: Option<int>)
      requires set'.Valid() && idx <= |set'.elements|
      modifies this
      ensures if old(idx) < |set'.elements| then r == Some(set'.elements[old(idx)]) && idx == old(idx) + 1
              else r == None && idx == old(idx)
    {
      set'.ValidIsPacked();
      var len := set'.Len();
      if idx == len {
        return None;
      }
      var i := set'.Get(idx);
      idx := idx + 1;
      return Some(i);
    }
  }
}
