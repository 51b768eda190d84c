/** An entry whose size has changed, and the entries behind it, which still record the old size
    (src/svalue/zip_list.rs). */
module ZipListSpots {
  import opened Bytes
  import opened Options
  import opened ZipListCodec
  import opened ZipListLayout
  import opened ZipListBlock

  /** Behind the bytes `a` stands `e`, behind one of `p` bytes; the `rest` was laid out behind one
      of `q` bytes. */
  datatype Spot = Spot(a: seq<Byte>, p: nat, e: Entry, q: nat, rest: seq<Entry>) {
    /** The size that `e` has now. */
    function Raw(): nat {
      EntrySize(p, e)
    }

    ghost predicate Fits() {
      && p < LENGTH_LIMIT && Encodable(EncodingOf(e))
      && Fit(Raw(), rest) && Fit(q, rest)
      && HEADER_SIZE + |Now()| < WORD_LIMIT && HEADER_SIZE + |Goal()| < WORD_LIMIT
    }

    /** What the block holds, and what it should hold. */
    ghost function Now(): seq<Byte>
      requires Encodable(EncodingOf(e)) && AllEncodable(rest)
    {
      a + (EntryBytes(p, e) + Layout(q, rest))
    }

    ghost function Goal(): seq<Byte>
      requires Encodable(EncodingOf(e)) && AllEncodable(rest)
    {
      a + (EntryBytes(p, e) + Layout(Raw(), rest))
    }

    ghost function TailNow(): nat
      requires AllEncodable(rest)
    {
      HEADER_SIZE + |a| + if rest == [] then 0 else Raw() + LastStart(q, rest)
    }

    ghost function TailGoal(): nat
      requires AllEncodable(rest)
    {
      HEADER_SIZE + |a| + if rest == [] then 0 else Raw() + LastStart(Raw(), rest)
    }

    /** The recorded size has more bytes than the new one needs. */
    predicate Shrinks() {
      rest != [] && PrevLengthSize(q) > PrevLengthSize(Raw())
    }

    /** The first of the rest, which comes to be the one whose size has changed. */
    ghost function Next(): Spot
      requires Encodable(EncodingOf(e)) && rest != []
    {
      Spot(a + EntryBytes(p, e), Raw(), rest[0], EntrySize(q, rest[0]), rest[1..])
    }
  }

  /** The last entry begins within the layout. */
  lemma {:induction false} LastStartWithin(p: nat, es: seq<Entry>)
    requires Fit(p, es)
    ensures LastStart(p, es) <= |Layout(p, es)|
    decreases |es|
  {
    if es != [] {
      EntryBytesSize(p, es[0]);
      LastStartWithin(EntrySize(p, es[0]), es[1..]);
    }
  }

  lemma FitsEncodable(s: Spot)
    requires s.Fits()
    ensures Encodable(EncodingOf(s.e)) && AllEncodable(s.rest)
  {
  }

  lemma TailWithin(s: Spot)
    requires s.Fits()
    ensures s.TailNow() <= HEADER_SIZE + |s.Now()|
  {
    LastStartWithin(s.q, s.rest);
    EntryBytesSize(s.p, s.e);
  }

  /** Writing the size into the first of the rest makes that one the place where the block is
      stale, and leaves the aim as it was. */
  lemma NextAims(s: Spot)
    requires Encodable(EncodingOf(s.e)) && AllEncodable(s.rest) && s.rest != []
    ensures AllEncodable(s.Next().rest) && s.Next().Goal() == s.Goal()
  {
    hide EntryBytes, EntrySize;
    Assoc(s.a, EntryBytes(s.p, s.e), EntryBytes(s.Raw(), s.rest[0]) +
      Layout(EntrySize(s.Raw(), s.rest[0]), s.rest[1..]));
  }

  lemma NextTails(s: Spot)
    requires s.p < LENGTH_LIMIT && Encodable(EncodingOf(s.e)) && AllEncodable(s.rest) && s.rest != []
    ensures AllEncodable(s.Next().rest) && s.Next().TailGoal() == s.TailGoal()
    ensures s.Next().TailNow() == s.TailNow() + if |s.rest| > 1 then EntrySize(s.Raw(), s.rest[0]) - EntrySize(s.q,
            s.rest[0]) else 0
  {
    hide EntryBytes;
    EntryBytesSize(s.p, s.e);
  }

  /** A longer recorded size has room for the ones behind it, too. */
  lemma NextFits(s: Spot)
    requires s.Fits() && s.rest != [] && PrevLengthSize(s.q) <= PrevLengthSize(s.Raw())
    ensures s.Next().Fits() && !s.Next().Shrinks()
  {
    NextAims(s);
    LayoutGrows(EntrySize(s.q, s.rest[0]), EntrySize(s.Raw(), s.rest[0]), s.rest[1..]);
  }

  /** Where the entry and the one behind it are read. */
  lemma SpotAt(s: Spot, x: seq<Byte>, tail: nat, len: nat)
    requires s.Fits() && x == Header(tail, len) + s.Now()
    ensures At(x, HEADER_SIZE + |s.a|, Header(tail, len) + s.a, s.p, s.e, Layout(s.q, s.rest))
  {
    hide EntryBytes, Header;
    HeaderSize(tail, len);
    Assoc(Header(tail, len), s.a, EntryBytes(s.p, s.e) + Layout(s.q, s.rest));
  }

  lemma NextAt(s: Spot, x: seq<Byte>, tail: nat, len: nat)
    requires s.Fits() && s.rest != [] && x == Header(tail, len) + s.Now()
    ensures var s' := s.Next();
            At(x, HEADER_SIZE + |s.a| + s.Raw(), Header(tail, len) + s'.a, s.q, s'.e, Layout(s'.q, s'.rest))
  {
    var h, b, c, d := Header(tail, len), EntryBytes(s.p, s.e), EntryBytes(s.q, s.rest[0]),
      Layout(EntrySize(s.q, s.rest[0]), s.rest[1..]);
    HeaderSize(tail, len);
    EntryBytesSize(s.p, s.e);
    hide EntryBytes, Header;
    assert h + (s.a + (b + (c + d))) == (h + (s.a + b)) + (c + d);
  }

  /** An unchanged size leaves nothing stale. */
  lemma SameSizeIsRight(s: Spot)
    requires AllEncodable(s.rest) && Encodable(EncodingOf(s.e)) && (s.rest == [] || s.q == s.Raw())
    ensures s.Now() == s.Goal() && s.TailNow() == s.TailGoal()
  {
    hide EntryBytes;
  }

  /** Nor does a size of the same width, once it is written. */
  lemma SameWidthIsRight(s: Spot)
    requires s.p < LENGTH_LIMIT && AllEncodable(s.rest) && Encodable(EncodingOf(s.e)) && s.rest != []
    requires PrevLengthSize(s.q) == PrevLengthSize(s.Raw())
    ensures AllEncodable(s.Next().rest) && s.Next().Now() == s.Goal() && s.TailNow() == s.TailGoal()
  {
    NextAims(s);
    LayoutOfSameWidth(s.q, s.Raw(), s.rest);
    hide EntryBytes;
  }

  /** A long recorded size with a small number in its last byte. */
  function Forced(q: nat, raw: nat): seq<Byte>
    requires LARGE_LENGTH <= q < LENGTH_LIMIT && raw < LARGE_LENGTH
  {
    PrevLengthBytes(q)[4 := raw]
  }

  /** What the block holds when the size of `e` has fallen to one byte: the field keeps five. */
  ghost function ForcedNow(s: Spot): seq<Byte>
    requires s.Fits() && s.Shrinks()
  {
    s.a + (EntryBytes(s.p, s.e) + (Forced(s.q, s.Raw()) + (HeadBytes(EncodingOf(s.rest[0])) + Content(s.rest[0]))
      + Layout(EntrySize(s.q, s.rest[0]), s.rest[1..])))
  }

  /** Such a block is too long. */
  lemma ForcedIsLonger(s: Spot)
    requires s.Fits() && s.Shrinks()
    ensures |ForcedNow(s)| >= |s.Goal()| + 4
  {
    var e, more := s.rest[0], s.rest[1..];
    hide HeadBytes, Content, Layout;
    PrevLengthRoundTrip(s.q, []);
    PrevLengthRoundTrip(s.Raw(), []);
    Grown(s);
  }

  lemma Grown(s: Spot)
    requires s.Fits() && s.Shrinks()
    ensures Layout(s.Raw(), s.rest) == EntryBytes(s.Raw(), s.rest[0]) +
            Layout(EntrySize(s.Raw(), s.rest[0]), s.rest[1..])
    ensures |Layout(EntrySize(s.Raw(), s.rest[0]), s.rest[1..])| <= |Layout(EntrySize(s.q, s.rest[0]), s.rest[1..])|
  {
    LayoutGrows(EntrySize(s.Raw(), s.rest[0]), EntrySize(s.q, s.rest[0]), s.rest[1..]);
  }

  /** And the field is misread.  A size that falls from 254 or 255 is read back, but as one byte, so
      that the entry it belongs to becomes an empty string; from 256 or 257, it comes back 256 too
      large. */
  lemma ForcedIsMisread(q: nat, rest: seq<Byte>)
    requires LARGE_LENGTH <= q < LARGE_LENGTH + 4
    ensures var x := Forced(q, q - 4) + rest;
            x[0] == LARGE && |x| >= 5 &&
            if q < 256 then PrevLengthOf(x) == q - 4 && Parse(x[PrevLengthSize(q - 4)..]) == Some(Str(0))
            else PrevLengthOf(x) == q - 4 + 256
  {
    var x := Forced(q, q - 4) + rest;
    Powers();
    LowBytes(q);
    var y := x[1..5];
    assert y == [0, 0, q / 256, q - 4];
    assert y[..3] == [0, 0, q / 256] && y[..3][..2] == [0, 0] && y[..3][..2][..1] == [0] && y[..3][..2][..1][..0] == [];
    assert Natural([0]) == 0;
    assert Natural([0, 0]) == 0;
    assert Natural([0, 0, q / 256]) == q / 256;
  }

  lemma LowBytes(q: nat)
    requires q < 0x1_0000
    ensures ByteOf(q, 3) == 0 && ByteOf(q, 2) == 0 && ByteOf(q, 1) == q / 256
  {
    Powers();
  }

  // ---- writing over the recorded size ----

  /** Where the recorded size stands, and what stands before and behind it. */
  lemma RecordedAt(s: Spot, x: seq<Byte>, tail: nat, len: nat, y: seq<Byte>)
    requires s.Fits() && s.rest != [] && x == Header(tail, len) + s.Now() && |y| == PrevLengthSize(s.q)
    ensures |x| >= HEADER_SIZE + |s.a| + s.Raw() + |y|
    ensures Overwritten(x, HEADER_SIZE + |s.a| + s.Raw(), y) ==
      Header(tail, len) + (s.a + (EntryBytes(s.p, s.e) + ((y + (HeadBytes(EncodingOf(s.rest[0])) + Content(s.rest[0])))
        + Layout(EntrySize(s.q, s.rest[0]), s.rest[1..]))))
  {
    hide Header, EntryBytes, HeadBytes, Content, Layout, PrevLengthBytes, Overwritten, Fit, EncodingOf, EntrySize;
    NowInParts(s);
    var h, b, c, d, f := Header(tail, len), EntryBytes(s.p, s.e), HeadBytes(EncodingOf(s.rest[0])) + Content(s.rest[0]),
      Layout(EntrySize(s.q, s.rest[0]), s.rest[1..]), PrevLengthBytes(s.q);
    HeaderSize(tail, len);
    Recorded(h, s.a, b, f, c, d, y);
  }

  lemma NowInParts(s: Spot)
    requires s.Fits() && s.rest != []
    ensures AllEncodable(s.rest[1..]) && Encodable(EncodingOf(s.rest[0])) && Encodable(EncodingOf(s.e))
    ensures s.Now() == s.a + (EntryBytes(s.p, s.e) + ((PrevLengthBytes(s.q) +
              (HeadBytes(EncodingOf(s.rest[0])) + Content(s.rest[0]))) +
                Layout(EntrySize(s.q, s.rest[0]), s.rest[1..])))
    ensures |EntryBytes(s.p, s.e)| == s.Raw() && |PrevLengthBytes(s.q)| == PrevLengthSize(s.q)
  {
    PrevLengthRoundTrip(s.q, []);
    EntryBytesSize(s.p, s.e);
    hide HeadBytes, Content;
  }

  lemma Recorded(h: seq<Byte>, a: seq<Byte>, b: seq<Byte>, f: seq<Byte>, c: seq<Byte>, d: seq<Byte>, y: seq<Byte>)
    requires |y| == |f|
    ensures |h + (a + (b + ((f + c) + d)))| >= |h| + |a| + |b| + |y|
    ensures Overwritten(h + (a + (b + ((f + c) + d))), |h| + |a| + |b|, y) == h + (a + (b + ((y + c) + d)))
  {
    assert h + (a + (b + ((f + c) + d))) == (h + a + b) + f + (c + d);
    OverwriteMiddle(h + a + b, f, c + d, y);
    assert (h + a + b) + y + (c + d) == h + (a + (b + ((y + c) + d)));
  }

  /** A size of the same width, written over the recorded one, makes the block right. */
  lemma RewrittenIsGoal(s: Spot, x: seq<Byte>, tail: nat, len: nat)
    requires s.Fits() && s.rest != [] && x == Header(tail, len) + s.Now() &&
             PrevLengthSize(s.q) == PrevLengthSize(s.Raw())
    ensures var y, off := PrevLengthBytes(s.Raw()), HEADER_SIZE + |s.a| + s.Raw();
            off + |y| <= |x| && Overwritten(x, off, y) == Header(tail, len) + s.Goal()
  {
    PrevLengthRoundTrip(s.Raw(), []);
    RecordedAt(s, x, tail, len, PrevLengthBytes(s.Raw()));
    SameWidthIsRight(s);
    hide Header, HeadBytes, Content, PrevLengthBytes, Layout;
    var b, y := EntryBytes(s.p, s.e), EntryBytes(s.Raw(), s.rest[0]);
    var d := Layout(EntrySize(s.q, s.rest[0]), s.rest[1..]);
    assert s.Next().Now() == s.a + (b + (y + d)) by { Assoc(s.a, b, y + d); }
  }

  lemma OverwriteLast(x: seq<Byte>, off: nat, y: seq<Byte>, b: Byte)
    requires |y| == 5 && off + 5 <= |x| && Overwritten(x, off, y) == x
    ensures x[off + 4 := b] == Overwritten(x, off, y[4 := b])
  {
    var w := Overwritten(x, off, y[4 := b]);
    assert |w| == |x| && w[..off] == x[..off] && w[off + 5..] == x[off + 5..];
    assert y == x[off..off + 5];
  }

  /** The block ends with the entry just when nothing is behind it. */
  lemma SpotEnds(s: Spot, x: seq<Byte>, tail: nat, len: nat)
    requires s.Fits() && x == Header(tail, len) + s.Now()
    ensures HEADER_SIZE + |s.a| + s.Raw() == |x| <==> s.rest == []
  {
    HeaderSize(tail, len);
    EntryBytesSize(s.p, s.e);
    if s.rest != [] {
      EntryBytesSize(s.q, s.rest[0]);
    }
  }

  /** What is needed to write a grown size: where the field is, that the tail is behind it unless it
      is the tail, and what follows from it. */
  lemma WidenFacts(t: Spot, x: seq<Byte>, tail: nat, len: nat, nextOff: nat)
    requires t.Fits() && t.rest != [] && x == Header(tail, len) + t.Now() && tail == t.TailNow()
    requires nextOff == HEADER_SIZE + |t.a| + t.Raw() && PrevLengthSize(t.q) < PrevLengthSize(t.Raw())
    ensures var n := t.Next(); n.Fits() && !n.Shrinks() && n.Goal() == t.Goal() && n.TailGoal() == t.TailGoal()
    ensures var n := t.Next();
            Encodable(EncodingOf(n.e)) && nextOff == HEADER_SIZE + |n.a| &&
              t.q < LARGE_LENGTH <= t.Raw() < LENGTH_LIMIT && tail < WORD_LIMIT &&
            x == Header(tail, len) + (n.a + (EntryBytes(t.q, n.e) + Layout(n.q, n.rest))) &&
            n.TailNow() == (if nextOff != tail then tail + 4 else tail) &&
            n.Now() == n.a + (EntryBytes(t.Raw(), n.e) + Layout(n.q, n.rest))
  {
    NextAims(t);
    NextTails(t);
    NextFits(t);
    TailWithin(t);
    EntryBytesSize(t.p, t.e);
    TailIsNext(t);
    hide EntryBytes;
    Assoc(t.a, EntryBytes(t.p, t.e), EntryBytes(t.q, t.rest[0]) + Layout(EntrySize(t.q, t.rest[0]), t.rest[1..]));
  }

  lemma TailIsNext(t: Spot)
    requires t.rest != [] && AllEncodable(t.rest)
    ensures t.TailNow() == HEADER_SIZE + |t.a| + t.Raw() <==> |t.rest| == 1
  {
  }
}
