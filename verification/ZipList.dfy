/** The packed list, and the loops that keep its recorded lengths and its tail right
    (src/svalue/zip_list.rs). */
module ZipLists {
  import opened Bytes
  import opened Options
  import opened ZipListCodec
  import opened ZipListLayout
  import opened ZipListBlock
  import opened ZipListSpots
  import opened ZipListEdits
  import opened ZipListDeletion

  method ParseHead(x: seq<Byte>) returns (r: Option<Encoding>)
    requires |x| > 0
    ensures r == Parse(x)
  {
    if x[0] / 0x40 != 3 {
      r := ParseStr(x);
    } else {
      r := ParseInt(x);
    }
  }

  lemma ZeroHeader()
    ensures Header(0, 0) == Zeros(HEADER_SIZE) && Header(0, 0) + [] == Header(0, 0)
  {
    assert forall k: nat {:trigger ByteOf(0, k)} :: ByteOf(0, k) == 0 by {
      forall k: nat
        ensures ByteOf(0, k) == 0
      {
        ZeroByte(Pow256(k));
      }
    }
  }

  lemma ZeroByte(n: nat)
    requires n > 0
    ensures 0 / n == 0
  {
  }

  class ZipList {
    var bytes: seq<Byte>

    constructor ()
      ensures bytes == Rep([])
    {
      bytes := Zeros(HEADER_SIZE);
      new;
      assert bytes == Header(0, 0) + [] by { ZeroHeader(); }
      SetTailOffset(|bytes|, 0, 0, []);
      SetLen(0, HEADER_SIZE, 0, []);
    }

    // ---- numbers in the header ----

    method WriteBytes(off: nat, y: seq<Byte>)
      requires off + |y| <= |bytes|
      modifies this
      ensures bytes == Overwritten(old(bytes), off, y)
    {
      ghost var x := bytes;
      for i := 0 to |y|
        invariant bytes == Overwritten(x, off, y[..i])
      {
        bytes := bytes[off + i := y[i]];
        assert bytes == Overwritten(x, off, y[..i + 1]);
      }
      assert y[..|y|] == y;
    }

    method GetTailOffset(ghost tail: nat, ghost len: nat, ghost body: seq<Byte>) returns (t: nat)
      requires bytes == Header(tail, len) + body && tail < WORD_LIMIT && len <= MAX_LEN
      ensures t == tail
    {
      HeaderNumbers(tail, len, body);
      var v := ReadBytes(0, bytes, 0, TAIL_SIZE);
      assert Natural(bytes[0..TAIL_SIZE]) == v;
      t := v;
    }

    method SetTailOffset(t: nat, ghost tail: nat, ghost len: nat, ghost body: seq<Byte>)
      requires bytes == Header(tail, len) + body
      modifies this
      ensures bytes == Header(t, len) + body
    {
      WriteBytes(0, BytesOf(t, TAIL_SIZE));
      hide BytesOf, ByteOf;
    }

    method GetLen(ghost tail: nat, ghost len: nat, ghost body: seq<Byte>) returns (l: nat)
      requires bytes == Header(tail, len) + body && tail < WORD_LIMIT && len <= MAX_LEN
      ensures l == len
    {
      HeaderNumbers(tail, len, body);
      var v := ReadBytes(0, bytes, TAIL_SIZE, LEN_SIZE);
      assert Natural(bytes[TAIL_SIZE..TAIL_SIZE + LEN_SIZE]) == v;
      l := v;
    }

    method SetLen(l: nat, ghost tail: nat, ghost len: nat, ghost body: seq<Byte>)
      requires bytes == Header(tail, len) + body
      modifies this
      ensures bytes == Header(tail, if l > MAX_LEN then MAX_LEN else l) + body
    {
      var l' := if l > MAX_LEN then MAX_LEN else l;
      WriteBytes(TAIL_SIZE, BytesOf(l', LEN_SIZE));
      hide BytesOf, ByteOf;
    }

    // ---- reading an entry ----

    /** The head of the entry at `off`. */
    method NodeAt(off: nat, ghost a: seq<Byte>, ghost p: nat, ghost e: Entry, ghost rest: seq<Byte>)
      returns (prevLen: nat, prevSize: nat, enc: Encoding)
      requires At(bytes, off, a, p, e, rest)
      ensures prevLen == p && prevSize == PrevLengthSize(p) && enc == EncodingOf(e)
    {
      AtFacts(bytes, off, a, p, e, rest);
      hide At, PrevLengthOf, Parse;
      var x := bytes[off..];
      prevLen := DecodePrevLength(x);
      prevSize := PrevLengthSize(prevLen);
      var r := ParseHead(x[prevSize..]);
      enc := r.value;
    }

    method BlobLenAt(off: nat, ghost a: seq<Byte>, ghost p: nat, ghost e: Entry, ghost rest: seq<Byte>) returns (n: nat)
      requires At(bytes, off, a, p, e, rest)
      ensures n == EntrySize(p, e)
    {
      var _, prevSize, enc := NodeAt(off, a, p, e, rest);
      n := prevSize + FullSize(enc);
    }

    method ValueAt(off: nat, ghost a: seq<Byte>, ghost p: nat, ghost e: Entry, ghost rest: seq<Byte>) returns (v: Entry)
      requires At(bytes, off, a, p, e, rest)
      ensures v == e
    {
      var _, prevSize, enc := NodeAt(off, a, p, e, rest);
      AtFacts(bytes, off, a, p, e, rest);
      hide At, PrevLengthOf, Parse;
      var x := bytes[off..];
      var head := prevSize + HeadSize(enc);
      v := match enc
        case Int(n) => Number(n)
        case Str(size) => Text(x[head..head + size]);
    }

    // ---- a change of size, and what it entails ----

    method InsertZeros(off: nat, n: nat, ghost a: seq<Byte>, ghost b: seq<Byte>)
      requires bytes == a + b && |a| == off
      modifies this
      ensures bytes == a + (Zeros(n) + b)
    {
      bytes := bytes[..off] + Zeros(n) + bytes[off..];
      Cut(a, b);
    }

    /** Writes the length of an entry into the next one, which has too little room for it. */
    method WidenNext(nextOff: nat, raw: nat, ghost tail: nat, ghost len: nat, ghost a: seq<Byte>, ghost q: nat,
                     ghost e: Entry, ghost more: seq<Byte>)
      requires Encodable(EncodingOf(e)) && bytes == Header(tail, len) + (a + (EntryBytes(q, e) + more)) &&
               nextOff == HEADER_SIZE + |a|
      requires q < LARGE_LENGTH <= raw < LENGTH_LIMIT && tail < WORD_LIMIT && len <= MAX_LEN
      modifies this
      ensures bytes == Header(if nextOff != tail then tail + 4 else tail, len) + (a + (EntryBytes(raw, e) + more))
    {
      hide BytesOf, ByteOf, HeadBytes;
      var extra := PrevLengthSize(raw) - 1;
      HeaderNumbers(tail, len, []);
      ghost var h := Header(tail, len);
      assert bytes == (h + a) + (EntryBytes(q, e) + more) by { Assoc(h, a, EntryBytes(q, e) + more); }
      InsertZeros(nextOff, extra, h + a, EntryBytes(q, e) + more);
      ghost var mid := a + (Zeros(extra) + (EntryBytes(q, e) + more));
      assert bytes == h + mid by { Assoc(h, a, Zeros(extra) + (EntryBytes(q, e) + more)); }
      var t := GetTailOffset(tail, len, mid);
      ghost var tail' := tail;
      if nextOff != t {
        SetTailOffset(t + extra, tail, len, mid);
        tail' := t + extra;
      }
      WriteFirst(nextOff, raw, tail', len, a, q, e, more);
    }

    /** Writes a long length over zeros and a short one. */
    method WriteFirst(nextOff: nat, raw: nat, ghost tail: nat, ghost len: nat, ghost a: seq<Byte>, ghost q: nat,
                      ghost e: Entry, ghost more: seq<Byte>)
      requires Encodable(EncodingOf(e)) && bytes == Header(tail, len) + (a + (Zeros(4) + (EntryBytes(q, e) + more)))
      requires nextOff == HEADER_SIZE + |a| && q < LARGE_LENGTH <= raw < LENGTH_LIMIT && tail < WORD_LIMIT + 4 &&
               len <= MAX_LEN
      modifies this
      ensures bytes == Header(tail, len) + (a + (EntryBytes(raw, e) + more))
    {
      ghost var h, y := Header(tail, len), PrevLengthBytes(raw);
      hide BytesOf, ByteOf, HeadBytes, Content, Header;
      PrevLengthRoundTrip(raw, []);
      HeaderSize(tail, len);
      WrittenOver(h, a, q, y, HeadBytes(EncodingOf(e)) + Content(e), more);
      WriteBytes(nextOff, PrevLengthBytes(raw));
    }

    /** Writes a size of the width that the recorded one has. */
    method OverwriteNext(nextOff: nat, raw: nat, ghost s: Spot, ghost tail: nat, ghost len: nat)
      requires s.Fits() && s.rest != [] && bytes == Header(tail, len) + s.Now()
      requires raw == s.Raw() && PrevLengthSize(s.q) == PrevLengthSize(raw) && nextOff == HEADER_SIZE + |s.a| + raw
      modifies this
      ensures bytes == Header(tail, len) + s.Goal()
    {
      hide Header, HeadBytes, Content, PrevLengthBytes, Layout, EntryBytes;
      RewrittenIsGoal(s, bytes, tail, len);
      hide Spot.Now, Spot.Goal, Spot.Fits, EntrySize;
      WriteBytes(nextOff, PrevLengthBytes(raw));
    }

    /** Writes a small size into the last byte of a long field. */
    method ForceNext(nextOff: nat, raw: nat, ghost s: Spot, ghost tail: nat, ghost len: nat)
      requires s.Fits() && s.Shrinks() && bytes == Header(tail, len) + s.Now()
      requires raw == s.Raw() && nextOff == HEADER_SIZE + |s.a| + raw
      modifies this
      ensures bytes == Header(tail, len) + ForcedNow(s)
    {
      PrevLengthRoundTrip(s.q, []);
      ghost var x := bytes;
      RecordedAt(s, x, tail, len, Forced(s.q, raw));
      RecordedAt(s, x, tail, len, PrevLengthBytes(s.q));
      hide Header, HeadBytes, Content, EntryBytes, Layout, Spot.Now;
      bytes := bytes[nextOff + 4 := raw];
      assert bytes == Overwritten(x, nextOff, Forced(s.q, raw)) by {
        OverwriteLast(x, nextOff, PrevLengthBytes(s.q), raw);
      }
    }

    /** Brings the sizes that are recorded behind a changed entry up to date, and the tail.  Behind
        the last entry there is nothing to do, whatever the tail is. */
    method CascadeUpdate(start: nat, ghost s: Spot, ghost tail: nat, ghost len: nat)
      requires s.Fits() && len <= MAX_LEN && bytes == Header(tail, len) + s.Now() && start == HEADER_SIZE + |s.a|
      requires s.rest != [] ==> tail == s.TailNow()
      modifies this
      ensures s.rest == [] ==> bytes == old(bytes)
      ensures s.rest != [] && !s.Shrinks() ==> bytes == Header(s.TailGoal(), len) + s.Goal()
      ensures s.Shrinks() ==> bytes == Header(s.TailNow(), len) + ForcedNow(s)
    {
      hide Header, EntryBytes, Layout, Spot.Now, Spot.Goal, Spot.TailNow, Spot.TailGoal, At, ForcedNow;
      var off := start;
      ghost var t, at := s, tail;
      while off != |bytes|
        invariant t.Fits() && bytes == Header(at, len) + t.Now() && off == HEADER_SIZE + |t.a|
        invariant t.Goal() == s.Goal() && t.TailGoal() == s.TailGoal()
        invariant if s.rest == [] then t == s && bytes == old(bytes) else at == t.TailNow()
        invariant t == s || (!t.Shrinks() && !s.Shrinks())
        decreases |t.rest|
      {
        SpotAt(t, bytes, at, len);
        var rawLen := BlobLenAt(off, Header(at, len) + t.a, t.p, t.e, Layout(t.q, t.rest));
        SpotEnds(t, bytes, at, len);
        if off + rawLen == |bytes| {
          SameSizeIsRight(t);
          return;
        }
        NextAt(t, bytes, at, len);
        ghost var n := t.Next();
        var nextPrevLen, nextPrevSize, _ := NodeAt(off + rawLen, Header(at, len) + n.a, t.q, n.e, Layout(n.q, n.rest));
        if nextPrevLen == rawLen {
          SameSizeIsRight(t);
          return;
        }
        if nextPrevSize < PrevLengthSize(rawLen) {
          WidenStep(off + rawLen, rawLen, t, len);
          off := off + rawLen;
          t, at := n, n.TailNow();
        } else {
          if nextPrevSize > PrevLengthSize(rawLen) {
            ForceNext(off + rawLen, rawLen, t, at, len);
          } else {
            SameWidthIsRight(t);
            OverwriteNext(off + rawLen, rawLen, t, at, len);
          }
          return;
        }
      }
      SpotAt(t, bytes, at, len);
      AtFacts(bytes, off, Header(at, len) + t.a, t.p, t.e, Layout(t.q, t.rest));
    }

    /** One more entry has the size behind it right; the next one has grown. */
    method WidenStep(nextOff: nat, raw: nat, ghost t: Spot, ghost len: nat)
      requires t.Fits() && t.rest != [] && len <= MAX_LEN && bytes == Header(t.TailNow(), len) + t.Now()
      requires raw == t.Raw() && nextOff == HEADER_SIZE + |t.a| + raw && PrevLengthSize(t.q) < PrevLengthSize(raw)
      modifies this
      ensures var n := t.Next(); n.Fits() && !n.Shrinks() && bytes == Header(n.TailNow(), len) + n.Now()
      ensures t.Next().Goal() == t.Goal() && t.Next().TailGoal() == t.TailGoal() &&
              |t.Next().a| == nextOff - HEADER_SIZE
    {
      ghost var n := t.Next();
      WidenFacts(t, bytes, t.TailNow(), len, nextOff);
      hide Header, EntryBytes, Layout, Spot.Now, Spot.Goal, Spot.TailNow, Spot.TailGoal, LastStart, Fit, Spot.Fits;
      WidenNext(nextOff, raw, t.TailNow(), len, n.a, t.q, n.e, Layout(n.q, n.rest));
    }

    // ---- insertion ----

    method PrevLengthAt(off: nat, ghost a: seq<Byte>, ghost p: nat, ghost e: Entry, ghost rest: seq<Byte>)
                        returns (v: nat)
      requires At(bytes, off, a, p, e, rest)
      ensures v == p && off < |bytes|
    {
      AtFacts(bytes, off, a, p, e, rest);
      hide At, PrevLengthOf, Parse;
      v := DecodePrevLength(bytes[off..]);
    }

    /** The size of the entry in front of a place: recorded there, or that of the tail. */
    method PrevLenAt(off: nat, ghost es: seq<Entry>, ghost i: nat) returns (prev: nat)
      requires Holdable(es) && i <= |es| && bytes == Rep(es) && off == Offset(es, i)
      ensures prev == PrevSize(es, i) && (off == |bytes| <==> i == |es|)
    {
      assert AllEncodable(es);
      hide Layout, Header, At, EntrySize, EntryBytes, Fit;
      HeaderSize(Tail(es), |es|);
      TailAt(es);
      ghost var h := Header(Tail(es), |es|);
      if i < |es| {
        EntryAt(es, i);
        AtFacts(bytes, off, h + Layout(0, es[..i]), PrevSize(es, i), es[i],
          Layout(EntrySize(PrevSize(es, i), es[i]), es[i + 1..]));
      }
      if off != |bytes| {
        prev := PrevLengthAt(off, h + Layout(0, es[..i]), PrevSize(es, i), es[i],
          Layout(EntrySize(PrevSize(es, i), es[i]), es[i + 1..]));
      } else {
        var tail := GetTailOffset(Tail(es), |es|, Layout(0, es));
        if tail != |bytes| {
          ghost var n := |es| - 1;
          EntryAt(es, n);
          prev := BlobLenAt(tail, h + Layout(0, es[..n]), PrevSize(es, n), es[n],
            Layout(EntrySize(PrevSize(es, n), es[n]), es[n + 1..]));
        } else {
          prev := 0;
          assert PrevSize([], 0) == 0;
        }
      }
    }

    /** Makes room in front of an entry, and writes the size of what will stand there into it. */
    method MakeRoom(off: nat, req: nat, nextDiff: int, ghost es: seq<Entry>, ghost i: nat, ghost e: Entry)
                    returns (ghost g: seq<Byte>)
      requires Insertable(es, i, e) && i < |es| && bytes == Rep(es) && off == Offset(es, i)
      requires req == EntrySize(PrevSize(es, i), e) && nextDiff == PrevLengthSize(req) - PrevLengthSize(PrevSize(es, i))
      modifies this
      ensures |g| == req && AllEncodable(es[..i])
      ensures Encodable(EncodingOf(es[i])) && AllEncodable(es[i + 1..])
      ensures bytes == Header(Tail(es), |es|) + ((Layout(0, es[..i]) + g) +
              (EntryBytes(req, es[i]) + Layout(EntrySize(PrevSize(es, i), es[i]), es[i + 1..])))
    {
      assert AllEncodable(es);
      hide Layout, Fit, HeadBytes, Content, FullSize, PrevSize, LastStart, Header, BytesOf, PrevLengthBytes, Zeros,
        Overwritten;
      InsertedParts(es, i, e);
      PartFrom(es, i);
      HeaderSize(Tail(es), |es|);
      ghost var h, a, p := Header(Tail(es), |es|), Layout(0, es[..i]), PrevSize(es, i);
      ghost var f, c, d := PrevLengthBytes(p), HeadBytes(EncodingOf(es[i])) + Content(es[i]),
        Layout(EntrySize(p, es[i]), es[i + 1..]);
      PrevLengthRoundTrip(p, []);
      PrevLengthRoundTrip(req, []);
      g := MoveField(off, req + nextDiff, req, h, a, f, c, d);
    }

    /** Writes a length so that it ends where the field `f` ended, behind room for an entry. */
    method MoveField(off: nat, room: nat, req: nat, ghost h: seq<Byte>, ghost a: seq<Byte>, ghost f: seq<Byte>,
                     ghost c: seq<Byte>, ghost d: seq<Byte>)
      returns (ghost g: seq<Byte>)
      requires bytes == h + (a + ((f + c) + d)) && off == |h| + |a| && room + |f| == req + |PrevLengthBytes(req)|
      modifies this
      ensures |g| == req && bytes == h + ((a + g) + ((PrevLengthBytes(req) + c) + d))
    {
      hide PrevLengthBytes, Zeros, Overwritten;
      RoomBytes(h, a, f, c, d);
      InsertZeros(off, room, h + a, f + (c + d));
      RoomMade(h, a, room, f, c, d, req, PrevLengthBytes(req));
      WriteBytes(off + req, PrevLengthBytes(req));
      g := (Zeros(room) + f)[..req];
    }

    /** Moves the tail by the room made in front of it, and by the change of the field in front of it. */
    method MoveTail(off: nat, req: nat, nextDiff: int, ghost es: seq<Entry>, ghost i: nat, ghost e: Entry,
                    ghost g: seq<Byte>)
      requires Insertable(es, i, e) && i < |es| && off == Offset(es, i) && |g| == req && AllEncodable(es[..i]) &&
               InsertSpot(es, i, e, g).Fits()
      requires req == EntrySize(PrevSize(es, i), e) && nextDiff == PrevLengthSize(req) - PrevLengthSize(PrevSize(es, i))
      requires bytes == Header(Tail(es), |es|) + InsertSpot(es, i, e, g).Now()
      modifies this
      ensures bytes == Header(InsertSpot(es, i, e, g).TailNow(), |es|) + InsertSpot(es, i, e, g).Now()
    {
      hide Layout, Fit, FullSize, PrevSize, LastStart, Header, EntrySize, EntryBytes, Spot.Now, Spot.TailNow, Spot.Fits,
        Insertable, Holdable, Tail, InsertSpot, Offset;
      InsertTail(es, i, e, g);
      TailsFit(es, i, e);
      FitsEncodable(InsertSpot(es, i, e, g));
      ghost var x := InsertSpot(es, i, e, g).Now();
      var t := GetTailOffset(Tail(es), |es|, x);
      SetTailOffset(t + req, Tail(es), |es|, x);
      t := GetTailOffset(Tail(es) + req, |es|, x);
      if off + req != t {
        SetTailOffset(t + nextDiff, Tail(es) + req, |es|, x);
      }
    }

    /** Writes an entry over a filler of its size. */
    method WriteEntry(off: nat, prev: nat, e: Entry, ghost h: seq<Byte>, ghost g: seq<Byte>, ghost d: seq<Byte>)
      requires prev < LENGTH_LIMIT && Encodable(EncodingOf(e)) && bytes == h + (g + d) && |h| == off &&
               |g| == EntrySize(prev, e)
      modifies this
      ensures bytes == h + (EntryBytes(prev, e) + d)
    {
      hide PrevLengthBytes, HeadBytes, Content, FullSize, BytesOf;
      PrevLengthRoundTrip(prev, []);
      ParseRoundTrip(EncodingOf(e), []);
      ContentSize(e);
      ghost var p, c := PrevLengthBytes(prev), HeadBytes(EncodingOf(e)) + Content(e);
      assert g == g[..|p|] + g[|p|..];
      EntryWritten(h, g[..|p|], g[|p|..], d, p, c);
      WriteBytes(off, PrevLengthBytes(prev));
      WriteBytes(off + PrevLengthSize(prev), HeadBytes(EncodingOf(e)) + Content(e));
    }

    method IncrLen(num: nat, ghost tail: nat, ghost len: nat, ghost body: seq<Byte>)
      requires bytes == Header(tail, len) + body && tail < WORD_LIMIT && len + num <= MAX_LEN
      modifies this
      ensures bytes == Header(tail, len + num) + body
    {
      var l := GetLen(tail, len, body);
      SetLen(l + num, tail, len, body);
    }

    /** Makes room for an entry, and brings the sizes behind it and the tail up to date. */
    method RoomFor(off: nat, prev: nat, req: nat, ghost es: seq<Entry>, ghost i: nat, ghost e: Entry)
                   returns (ghost g: seq<Byte>)
      requires Insertable(es, i, e) && bytes == Rep(es) && off == Offset(es, i) && (off == |bytes| <==> i == |es|)
      requires prev == PrevSize(es, i) && req == EntrySize(prev, e)
      modifies this
      ensures |g| == req && bytes == WithFiller(es, i, e, g, |es|)
    {
      assert AllEncodable(es);
      hide Layout, Fit, PrevSize, LastStart, Header, EntrySize, EntryBytes, Spot.Now, Spot.Goal, Spot.TailNow,
        Spot.TailGoal, Spot.Fits, ForcedNow;
      var oldLen := |bytes|;
      var nextDiff := if off != oldLen then PrevLengthSize(req) - PrevLengthSize(prev) else 0;
      if off != oldLen {
        g := MakeRoom(off, req, nextDiff, es, i, e);
        SpotNow(es, i, e, g);
        MoveTail(off, req, nextDiff, es, i, e, g);
      } else {
        g := RoomAtEnd(off, req, es, e);
      }
      if nextDiff != 0 {
        ghost var s := InsertSpot(es, i, e, g);
        if s.rest == [] {
          SameSizeIsRight(s);
        }
        CascadeUpdate(off + req, s, s.TailNow(), |es|);
      } else if i < |es| {
        SpotIsRight(es, i, e, g);
      }
      if i < |es| {
        FillerIsLeft(es, i, e, g);
      }
    }

    method RoomAtEnd(off: nat, req: nat, ghost es: seq<Entry>, ghost e: Entry) returns (ghost g: seq<Byte>)
      requires Insertable(es, |es|, e) && bytes == Rep(es) && off == Offset(es, |es|) &&
               req == EntrySize(PrevSize(es, |es|), e)
      modifies this
      ensures |g| == req && bytes == WithFiller(es, |es|, e, g, |es|)
    {
      assert AllEncodable(es) && es[..|es|] == es;
      hide Layout, Fit, PrevSize, LastStart, Header, EntrySize, EntryBytes, Tail;
      HeaderSize(Tail(es), |es|);
      ghost var h, a := Header(Tail(es), |es|), Layout(0, es);
      g := Zeros(req);
      assert h + a == (h + a) + [];
      InsertZeros(off, req, h + a, []);
      assert (h + a) + (g + []) == h + ((a + g) + []);
      SetTailOffset(off, Tail(es), |es|, (a + g) + []);
    }

    /** Inserts an entry: the block is that of the new entries, unless the size of an entry falls to
        one byte with another one behind it. */
    method InnerInsert(off: nat, e: Entry, ghost es: seq<Entry>, ghost i: nat)
      requires Insertable(es, i, e) && bytes == Rep(es) && off == Offset(es, i)
      modifies this
      ensures bytes == InsertResult(es, i, e)
      ensures bytes == Rep(Inserted(es, i, e)) <==> !InsertShrinks(es, i, e)
    {
      hide Layout, Fit, PrevSize, LastStart, Header, EntryBytes, InsertShrinks, Behind, Rep;
      var prev := PrevLenAt(off, es, i);
      var prevSize := PrevLengthSize(prev);
      var req := FullSize(EncodingOf(e)) + prevSize;
      ghost var g := RoomFor(off, prev, req, es, i, e);
      InsertedEncodable(es, i, e);
      TailBehindFits(es, i, e);
      InsertedParts(es, i, e);
      ghost var h, a, d := Header(TailBehind(es, i, e), |es|), Layout(0, es[..i]), Behind(es, i, e);
      hide EntrySize, TailBehind;
      HeaderSize(TailBehind(es, i, e), |es|);
      Assoc(h, a + g, d);
      assert bytes == (h + a) + (g + d) by { Regroup(h, a, g, d); }
      WriteEntry(off, prev, e, h + a, g, d);
      Regroup(h, a, EntryBytes(prev, e), d);
      IncrLen(1, TailBehind(es, i, e), |es|, (a + EntryBytes(prev, e)) + d);
      InsertIsRight(es, i, e);
    }

    // ---- deletion ----

    /** Passes over some entries, or as many as there are. */
    method SkipEntries(off: nat, num: nat, ghost es: seq<Entry>, ghost i: nat) returns (nextOff: nat, deleted: nat)
      requires Holdable(es) && i <= |es| && bytes == Rep(es) && off == Offset(es, i)
      ensures deleted == (if num < |es| - i then num else |es| - i) && nextOff == Offset(es, i + deleted) >= off
      ensures nextOff == |bytes| <==> i + deleted == |es|
    {
      hide Layout, Header, At, EntrySize, EntryBytes, Fit, Rep, Offset, Encodable, EncodingOf, Tail;
      FitIsEncodable(0, es);
      nextOff, deleted := off, 0;
      while deleted < num
        invariant deleted <= num && i + deleted <= |es| && nextOff == Offset(es, i + deleted) >= off
      {
        AtEnd(es, i + deleted);
        if nextOff == |bytes| {
          return;
        }
        ghost var j := i + deleted;
        EntryAt(es, j);
        var size := BlobLenAt(nextOff, Header(Tail(es), |es|) + Layout(0, es[..j]), PrevSize(es, j), es[j],
          Layout(EntrySize(PrevSize(es, j), es[j]), es[j + 1..]));
        nextOff := nextOff + size;
        deleted := deleted + 1;
      }
      AtEnd(es, i + deleted);
    }

    method Drain(off: nat, end: nat, ghost h: seq<Byte>, ghost a: seq<Byte>, ghost g: seq<Byte>, ghost r: seq<Byte>)
      requires bytes == h + ((a + g) + r) && off == |h| + |a| && end == off + |g|
      modifies this
      ensures bytes == h + (a + r)
    {
      TakenOut(h, a, g, r);
      bytes := bytes[..off] + bytes[end..];
    }

    method DecrLen(num: nat, ghost tail: nat, ghost len: nat, ghost body: seq<Byte>)
      requires bytes == Header(tail, len) + body && tail < WORD_LIMIT && num <= len <= MAX_LEN
      modifies this
      ensures bytes == Header(tail, len - num) + body
    {
      var l := GetLen(tail, len, body);
      SetLen(l - num, tail, len, body);
    }

    /** Takes out all entries from a place on. */
    method DeleteRest(off: nat, nextOff: nat, deleted: nat, ghost es: seq<Entry>, ghost i: nat)
      requires i + deleted == |es| && Deletable(es, i, deleted) && bytes == Rep(es) && off == Offset(es, i) &&
               nextOff == |bytes|
      modifies this
      ensures bytes == DeleteResult(es, i, deleted)
    {
      hide Layout, Header, At, EntrySize, EntryBytes, Fit, PrevSize;
      DeletableParts(es, i, deleted);
      CutAt(es, i);
      PartFrom(es, i);
      ghost var a, p := Layout(0, es[..i]), PrevSize(es, i);
      ghost var d := EntryBytes(p, es[i]) + Layout(EntrySize(p, es[i]), es[i + 1..]);
      assert Rep(es) == Header(Tail(es), |es|) + ((a + d) + []) by { assert (a + d) + [] == a + d; }
      var first := PrevLengthAt(off, Header(Tail(es), |es|) + a, p, es[i], Layout(EntrySize(p, es[i]), es[i + 1..]));
      SetTailOffset(off - first, Tail(es), |es|, (a + d) + []);
      HeaderSize(Tail(es), |es|);
      ghost var t := off - first;
      HeaderSize(t, |es|);
      hide Tail, Deletable;
      Drain(off, nextOff, Header(t, |es|), a, d, []);
      DecrLen(deleted, t, |es|, a + []);
      RestIsGone(es, i, deleted);
    }

    /** Writes the new length of the first entry left. */
    method RecordBefore(off: nat, nextOff: nat, ghost es: seq<Entry>, ghost i: nat, ghost k: nat)
                        returns (nextDiff: int, end: nat, ghost g: seq<Byte>)
      requires Deletable(es, i, k) && i + k < |es| && bytes == Rep(es)
      requires AllEncodable(es[..i]) && AllEncodable(es[..i + k]) && off == Offset(es, i) &&
               nextOff == Offset(es, i + k)
      modifies this
      ensures nextDiff == WidthChange(es, i, k) && end == nextOff - nextDiff > off && |g| == end - off
      ensures AllEncodable(es) && bytes == Header(Tail(es), |es|) +
              ((Layout(0, es[..i]) + g) + Kept(es, i, k, PrevSize(es, i)))
    {
      hide Layout, Header, EntryBytes, EntrySize, Fit, PrevSize, Rep, PrevLengthBytes, HeadBytes, Content, Deletable,
        Tail, Offset;
      DeletableParts(es, i, k);
      var first := LengthAt(off, es, i);
      var next := LengthAt(nextOff, es, i + k);
      BlockAt(es, i, k);
      KeptEncodable(es, i, k);
      PrevLengthBytesSize(PrevSize(es, i));
      PrevLengthBytesSize(PrevSize(es, i + k));
      ghost var a, p, q, b := Layout(0, es[..i]), PrevSize(es, i), PrevSize(es, i + k), es[i + k];
      OffsetIs(es, i);
      nextDiff := PrevLengthSize(first) - PrevLengthSize(next);
      end := nextOff - nextDiff;
      g := KeepField(off, end, first, Header(Tail(es), |es|), a, Layout(p, es[i..i + k]), PrevLengthBytes(q),
        HeadBytes(EncodingOf(b)) + Content(b), Layout(EntrySize(q, b), es[i + k + 1..]));
    }

    /** The length recorded at an entry. */
    method LengthAt(off: nat, ghost es: seq<Entry>, ghost i: nat) returns (v: nat)
      requires Fit(0, es) && i < |es| && AllEncodable(es[..i]) && bytes == Rep(es) && off == Offset(es, i)
      ensures v == PrevSize(es, i)
    {
      hide Layout, Header, At, EntrySize, EntryBytes, PrevSize, Rep, PrevLengthOf, Tail, Offset;
      EntryAt(es, i);
      v := PrevLengthAt(off, Header(Tail(es), |es|) + Layout(0, es[..i]), PrevSize(es, i), es[i],
        Layout(EntrySize(PrevSize(es, i), es[i]), es[i + 1..]));
    }

    /** Moves the tail by what is taken out, takes it out, and counts the entries. */
    method CloseGap(off: nat, end: nat, deleted: nat, ghost tail: nat, ghost len: nat, ghost a: seq<Byte>,
                    ghost g: seq<Byte>, ghost kept: seq<Byte>)
      requires bytes == Header(tail, len) + ((a + g) + kept) && off == HEADER_SIZE + |a| && end == off + |g|
      requires |g| <= tail < WORD_LIMIT && deleted <= len <= MAX_LEN
      modifies this
      ensures bytes == Header(tail - |g|, len - deleted) + (a + kept)
    {
      hide Header;
      var t := GetTailOffset(tail, len, (a + g) + kept);
      SetTailOffset(t - (end - off), tail, len, (a + g) + kept);
      HeaderSize(tail - |g|, len);
      Drain(off, end, Header(tail - |g|, len), a, g, kept);
      DecrLen(deleted, tail - |g|, len, a + kept);
    }

    /** Takes out what is in front of an entry that is left, and writes its new length. */
    method DeleteBefore(off: nat, nextOff: nat, deleted: nat, ghost es: seq<Entry>, ghost i: nat)
                        returns (nextDiff: int)
      requires Deletable(es, i, deleted) && i + deleted < |es| && bytes == Rep(es)
      requires AllEncodable(es[..i]) && AllEncodable(es[..i + deleted]) && off == Offset(es, i) &&
               nextOff == Offset(es, i + deleted)
      modifies this
      ensures nextDiff == WidthChange(es, i, deleted) && DeleteSpot(es, i, deleted).Fits()
      ensures var s := DeleteSpot(es, i, deleted);
              var tail := s.TailNow() + if i + deleted + 1 == |es| then nextDiff else 0;
              tail >= 0 && bytes == Header(tail, |es| - deleted) + s.Now()
    {
      hide Layout, Header, Fit, PrevSize, Rep, Deleted, Tail, LastStart, Spot.Now, Spot.TailNow, Spot.Fits, Kept,
        WidthChange, Holdable;
      var end;
      ghost var g;
      nextDiff, end, g := RecordBefore(off, nextOff, es, i, deleted);
      KeptSpot(es, i, deleted);
      CloseGap(off, end, deleted, Tail(es), |es|, Layout(0, es[..i]), g, Kept(es, i, deleted, PrevSize(es, i)));
    }

    method KeepField(off: nat, end: nat, first: nat, ghost h: seq<Byte>, ghost a: seq<Byte>, ghost z: seq<Byte>,
                     ghost f: seq<Byte>, ghost c: seq<Byte>, ghost d: seq<Byte>)
      returns (ghost g: seq<Byte>)
      requires bytes == h + (a + (z + ((f + c) + d))) && off == |h| + |a| && off <= end &&
               |z| + |f| == (end - off) + |PrevLengthBytes(first)|
      modifies this
      ensures |g| == end - off && bytes == h + ((a + g) + ((PrevLengthBytes(first) + c) + d))
    {
      hide PrevLengthBytes, Overwritten;
      FieldKept(h, a, z, f, c, d, end - off, PrevLengthBytes(first));
      WriteBytes(end, PrevLengthBytes(first));
      g := (z + f)[..end - off];
    }

    /** Takes out `num` entries, or as many as there are: the block is that of the entries that are
        left, unless the field in front of the first of them changes its width and either that one
        is the last or the size of the one behind it falls to one byte. */
    method InnerDelete(off: nat, num: nat, ghost es: seq<Entry>, ghost i: nat)
      requires Holdable(es) && i <= |es| && bytes == Rep(es) && off == Offset(es, i)
      requires var k := if num < |es| - i then num else |es| - i; k > 0 ==> Deletable(es, i, k)
      modifies this
      ensures var k := if num < |es| - i then num else |es| - i;
              if k == 0 then bytes == Rep(es)
              else bytes == DeleteResult(es, i, k) && (bytes == Rep(Deleted(es, i, k)) <==> !DeleteFails(es, i, k))
    {
      hide Rep, Holdable, Deletable, DeleteFails, Layout, Header, Fit, PrevSize, Deleted, DeleteResult;
      var nextOff, deleted := SkipEntries(off, num, es, i);
      Advanced(es, i, deleted);
      if nextOff > off {
        DeleteIsRight(es, i, deleted);
        if nextOff != |bytes| {
          var nextDiff := DeleteBefore(off, nextOff, deleted, es, i);
          if nextDiff != 0 {
            DeleteCascade(off, es, i, deleted);
          } else {
            DeleteSame(es, i, deleted);
          }
        } else {
          DeleteRest(off, nextOff, deleted, es, i);
        }
      }
    }

    method DeleteCascade(off: nat, ghost es: seq<Entry>, ghost i: nat, ghost k: nat)
      requires Deletable(es, i, k) && i + k < |es| && off == Offset(es, i) && WidthChange(es, i, k) != 0
      requires AllEncodable(es[..i]) && DeleteSpot(es, i, k).Fits()
      requires var s := DeleteSpot(es, i, k);
               var tail := s.TailNow() + if i + k + 1 == |es| then WidthChange(es, i, k) else 0;
               tail >= 0 && bytes == Header(tail, |es| - k) + s.Now()
      modifies this
      ensures bytes == DeleteResult(es, i, k)
    {
      hide Layout, Header, Fit, PrevSize, Deleted, LastStart, EntrySize, Spot.Now, Spot.TailNow, Spot.TailGoal,
        Spot.Goal, ForcedNow, Spot.Fits, DeleteFails, Holdable, WidthChange;
      DeleteSpotFits(es, i, k);
      ghost var s := DeleteSpot(es, i, k);
      FitsEncodable(s);
      ghost var tail := s.TailNow() + if i + k + 1 == |es| then WidthChange(es, i, k) else 0;
      CascadeUpdate(off, s, tail, |es| - k);
    }

    /** Adds an entry at the end, which is always right. */
    method Push(e: Entry, ghost es: seq<Entry>)
      requires Insertable(es, |es|, e) && bytes == Rep(es)
      modifies this
      ensures bytes == Rep(es + [e])
    {
      TailAt(es);
      InnerInsert(|bytes|, e, es, |es|);
      assert Inserted(es, |es|, e) == es + [e];
    }
  }
}
