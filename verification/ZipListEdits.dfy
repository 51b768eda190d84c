/** What an insertion or a deletion makes of the block of a packed list (src/svalue/zip_list.rs). */
module ZipListEdits {
  import opened Bytes
  import opened ZipListCodec
  import opened ZipListLayout
  import opened ZipListBlock
  import opened ZipListSpots

  // ---- places ----

  /** The size of the entry in front of the place `i`. */
  ghost function PrevSize(es: seq<Entry>, i: nat): nat
    requires i <= |es|
  {
    LastSize(0, es[..i])
  }

  lemma {:induction false} LastStartOfBoth(p: nat, a: seq<Entry>, b: seq<Entry>)
    requires Fit(p, a) && AllEncodable(a + b) && b != []
    ensures AllEncodable(b) && LastStart(p, a + b) == |Layout(p, a)| + LastStart(LastSize(p, a), b)
    decreases |a|
  {
    assert forall e <- b :: e in a + b;
    if a == [] {
      assert a + b == b;
    } else {
      assert (a + b)[1..] == a[1..] + b;
      assert forall e <- (a + b)[1..] :: e in a + b;
      LastStartOfBoth(EntrySize(p, a[0]), a[1..], b);
      EntryBytesSize(p, a[0]);
    }
  }

  /** The entries in front of a place, and those from it on. */
  lemma PartsFit(es: seq<Entry>, i: nat)
    requires Fit(0, es) && i <= |es|
    ensures Fit(0, es[..i]) && Fit(PrevSize(es, i), es[i..])
    ensures Layout(0, es) == Layout(0, es[..i]) + Layout(PrevSize(es, i), es[i..])
    ensures i < |es| ==> LastStart(0, es) == |Layout(0, es[..i])| + LastStart(PrevSize(es, i), es[i..])
    ensures i == |es| ==> PrevSize(es, i) == LastSize(0, es)
  {
    assert es == es[..i] + es[i..];
    FitBoth(0, es[..i], es[i..]);
    LayoutOfBoth(0, es[..i], es[i..]);
    if i < |es| {
      LastStartOfBoth(0, es[..i], es[i..]);
    }
  }

  /** The part that begins with entry `i`. */
  lemma PartFrom(es: seq<Entry>, i: nat)
    requires Fit(0, es) && i < |es|
    ensures AllEncodable(es[..i]) && PrevSize(es, i) < LENGTH_LIMIT && Encodable(EncodingOf(es[i]))
    ensures Fit(EntrySize(PrevSize(es, i), es[i]), es[i + 1..])
    ensures var p := PrevSize(es, i);
            Layout(0, es) == Layout(0, es[..i]) + (EntryBytes(p, es[i]) + Layout(EntrySize(p, es[i]), es[i + 1..]))
  {
    PartsFit(es, i);
    assert es[i..][1..] == es[i + 1..] && es[i..][0] == es[i];
    hide EntryBytes, EntrySize;
  }

  lemma PartTo(es: seq<Entry>, i: nat)
    requires Fit(0, es) && i < |es|
    ensures AllEncodable(es[..i]) && AllEncodable(es[..i + 1]) &&
            Offset(es, i + 1) == Offset(es, i) + EntrySize(PrevSize(es, i), es[i])
    ensures PrevSize(es, i + 1) == EntrySize(PrevSize(es, i), es[i])
  {
    hide EntryBytes, EntrySize, Layout, Fit, EncodingOf, LastSize;
    PartFrom(es, i);
    var a, b, p := es[..i], [es[i]], PrevSize(es, i);
    assert es[..i + 1] == a + b;
    LayoutOfBoth(0, a, b);
    EntryBytesSize(p, es[i]);
    LayoutOfOne(p, es[i]);
  }

  lemma LayoutOfOne(p: nat, e: Entry)
    requires Encodable(EncodingOf(e))
    ensures Layout(p, [e]) == EntryBytes(p, e) && LastSize(p, [e]) == EntrySize(p, e)
  {
    assert [e][1..] == [];
    hide EntryBytes, EntrySize;
  }

  /** Entry `i` stands at its offset, and the next one behind it. */
  lemma EntryAt(es: seq<Entry>, i: nat)
    requires Fit(0, es) && i < |es|
    ensures AllEncodable(es[..i]) && Fit(EntrySize(PrevSize(es, i), es[i]), es[i + 1..])
    ensures var p := PrevSize(es, i);
            At(Rep(es), Offset(es, i), Header(Tail(es), |es|) + Layout(0, es[..i]), p, es[i],
              Layout(EntrySize(p, es[i]), es[i + 1..]))
    ensures AllEncodable(es[..i + 1]) && Offset(es, i + 1) == Offset(es, i) + EntrySize(PrevSize(es, i), es[i])
    ensures PrevSize(es, i + 1) == EntrySize(PrevSize(es, i), es[i])
  {
    PartFrom(es, i);
    PartTo(es, i);
    HeaderSize(Tail(es), |es|);
    var p, h := PrevSize(es, i), Header(Tail(es), |es|);
    hide Header, EntryBytes, EntrySize, Layout, Fit, PrevSize;
    Assoc(h, Layout(0, es[..i]), EntryBytes(p, es[i]) + Layout(EntrySize(p, es[i]), es[i + 1..]));
  }

  /** The tail is where the last entry begins, or the end of an empty block. */
  lemma TailAt(es: seq<Entry>)
    requires Fit(0, es)
    ensures Tail(es) <= |Rep(es)| && (Tail(es) == |Rep(es)| <==> es == [])
    ensures es != [] ==> AllEncodable(es[..|es| - 1]) && Tail(es) == Offset(es, |es| - 1)
    ensures Offset(es, |es|) == |Rep(es)| && es[..|es|] == es
  {
    assert es[..|es|] == es;
    HeaderSize(Tail(es), |es|);
    if es != [] {
      LastStartIs(0, es);
      EntryAt(es, |es| - 1);
    }
  }

  /** A place is the end of the block just when no entry is behind it. */
  lemma AtEnd(es: seq<Entry>, i: nat)
    requires Holdable(es) && i <= |es|
    ensures AllEncodable(es[..i]) && (Offset(es, i) == |Rep(es)| <==> i == |es|)
  {
    TailAt(es);
    if i < |es| {
      EntryAt(es, i);
      AtFacts(Rep(es), Offset(es, i), Header(Tail(es), |es|) + Layout(0, es[..i]), PrevSize(es, i), es[i],
        Layout(EntrySize(PrevSize(es, i), es[i]), es[i + 1..]));
    }
  }

  // ---- insertion ----

  function Inserted(es: seq<Entry>, i: nat, e: Entry): seq<Entry>
    requires i <= |es|
  {
    es[..i] + [e] + es[i..]
  }

  /** The case in which an insertion makes the size of an entry fall to one byte, with another entry
      behind it: the inserted one is short, the one in front of it is not, and the one behind it has
      254 to 257 bytes. */
  ghost predicate InsertShrinks(es: seq<Entry>, i: nat, e: Entry)
    requires i <= |es|
  {
    var p := PrevSize(es, i);
    p >= LARGE_LENGTH && EntrySize(p, e) < LARGE_LENGTH && i + 1 < |es| &&
      LARGE_LENGTH <= EntrySize(p, es[i]) < LARGE_LENGTH + 4
  }

  /** A block that has room for an entry at a place. */
  ghost predicate Insertable(es: seq<Entry>, i: nat, e: Entry) {
    && i <= |es| && |es| < MAX_LEN && Holdable(es) && Holdable(Inserted(es, i, e))
    && HEADER_SIZE + |Layout(0, es)| + EntrySize(PrevSize(es, i), e) + 4 < WORD_LIMIT
  }

  /** The entry behind the inserted one, with `g` in front of it. */
  ghost function InsertSpot(es: seq<Entry>, i: nat, e: Entry, g: seq<Byte>): Spot
    requires i < |es| && AllEncodable(es[..i])
  {
    var p := PrevSize(es, i);
    Spot(Layout(0, es[..i]) + g, EntrySize(p, e), es[i], EntrySize(p, es[i]), es[i + 1..])
  }

  lemma InsertedParts(es: seq<Entry>, i: nat, e: Entry)
    requires i <= |es| && Fit(0, Inserted(es, i, e))
    ensures Encodable(EncodingOf(e)) && EntrySize(PrevSize(es, i), e) < LENGTH_LIMIT && PrevSize(es, i) < LENGTH_LIMIT
    ensures Fit(0, es[..i]) && Fit(EntrySize(PrevSize(es, i), e), es[i..])
    ensures Layout(0, Inserted(es, i, e)) == Layout(0, es[..i]) +
            (EntryBytes(PrevSize(es, i), e) + Layout(EntrySize(PrevSize(es, i), e), es[i..]))
    ensures LastStart(0, Inserted(es, i, e)) ==
      |Layout(0, es[..i])| + if i < |es| then EntrySize(PrevSize(es, i), e) +
        LastStart(EntrySize(PrevSize(es, i), e), es[i..]) else 0
  {
    var all, b := Inserted(es, i, e), [e] + es[i..];
    assert all == es[..i] + b;
    FitBoth(0, es[..i], b);
    LayoutOfBoth(0, es[..i], b);
    LastStartOfBoth(0, es[..i], b);
    assert b[1..] == es[i..];
  }

  /** The part behind the inserted entry, laid out behind it. */
  lemma InsertedRest(es: seq<Entry>, i: nat, e: Entry)
    requires i < |es| && Fit(0, es) && Fit(0, Inserted(es, i, e))
    ensures AllEncodable(es[..i]) && Encodable(EncodingOf(e)) && Encodable(EncodingOf(es[i]))
    ensures var p, req, b, more := PrevSize(es, i), EntrySize(PrevSize(es, i), e), es[i], es[i + 1..];
            Fit(EntrySize(req, b), more) && AllEncodable(more) && req < LENGTH_LIMIT && p < LENGTH_LIMIT &&
              |Inserted(es, i, e)| == |es| + 1 &&
            Layout(0, Inserted(es, i, e)) == Layout(0, es[..i]) +
              (EntryBytes(p, e) + (EntryBytes(req, b) + Layout(EntrySize(req, b), more))) &&
            LastStart(0, Inserted(es, i, e)) == |Layout(0, es[..i])| + req + if more == [] then 0
              else EntrySize(req, b) + LastStart(EntrySize(req, b), more)
  {
    InsertedParts(es, i, e);
    assert es[i..][1..] == es[i + 1..] && es[i..][0] == es[i];
    hide EntryBytes, EntrySize, PrevSize, Inserted;
  }

  /** The entry behind an inserted one is such that the sizes can be brought up to date. */
  lemma InsertSpotFits(es: seq<Entry>, i: nat, e: Entry, g: seq<Byte>)
    requires Insertable(es, i, e) && i < |es| && |g| == EntrySize(PrevSize(es, i), e)
    ensures AllEncodable(es[..i]) && InsertSpot(es, i, e, g).Fits()
    ensures InsertSpot(es, i, e, g).Shrinks() <==> InsertShrinks(es, i, e)
  {
    InsertedRest(es, i, e);
    PartFrom(es, i);
    var p, req := PrevSize(es, i), EntrySize(PrevSize(es, i), e);
    EntryBytesSize(req, es[i]);
    EntryBytesSize(p, es[i]);
    EntryBytesSize(p, e);
    hide EntryBytes, FullSize, Layout, Fit, PrevSize, Inserted, EncodingOf;
  }

  lemma SpotNow(es: seq<Entry>, i: nat, e: Entry, g: seq<Byte>)
    requires Insertable(es, i, e) && i < |es| && |g| == EntrySize(PrevSize(es, i), e)
    ensures AllEncodable(es[..i]) && InsertSpot(es, i, e, g).Fits()
    ensures Encodable(EncodingOf(es[i])) && AllEncodable(es[i + 1..])
    ensures InsertSpot(es, i, e, g).Now() ==
      (Layout(0, es[..i]) + g) + (EntryBytes(EntrySize(PrevSize(es, i), e), es[i]) +
        Layout(EntrySize(PrevSize(es, i), es[i]), es[i + 1..]))
  {
    InsertSpotFits(es, i, e, g);
    hide EntryBytes, Layout, Fit;
  }

  /** Where the tail is put before the sizes are brought up to date. */
  lemma InsertTail(es: seq<Entry>, i: nat, e: Entry, g: seq<Byte>)
    requires Insertable(es, i, e) && i < |es| && |g| == EntrySize(PrevSize(es, i), e)
    ensures AllEncodable(es[..i])
    ensures var s, p, req := InsertSpot(es, i, e, g), PrevSize(es, i), EntrySize(PrevSize(es, i), e);
            s.TailNow() == Tail(es) + req + (if Offset(es, i) != Tail(es) then PrevLengthSize(req) - PrevLengthSize(p)
              else 0)
    ensures Tail(es) <= HEADER_SIZE + |Layout(0, es)|
  {
    PartsFit(es, i);
    TailAt(es);
    HeaderSize(Tail(es), |es|);
    var p := PrevSize(es, i);
    assert es[i..][1..] == es[i + 1..] && es[i..][0] == es[i];
    hide FullSize, Header, Layout;
  }

  /** An entry in place of as many bytes, with its size right behind it, makes the new block. */
  lemma InsertGoal(es: seq<Entry>, i: nat, e: Entry)
    requires Insertable(es, i, e) && i < |es|
    ensures Encodable(EncodingOf(e)) && AllEncodable(es[..i])
    ensures var s := InsertSpot(es, i, e, EntryBytes(PrevSize(es, i), e));
            Encodable(EncodingOf(s.e)) && AllEncodable(s.rest) &&
              Rep(Inserted(es, i, e)) == Header(s.TailGoal(), |es| + 1) + s.Goal()
  {
    hide EntryBytes, Header, FullSize, Layout, Fit, PrevSize, EncodingOf, LastStart, EntrySize;
    var p, req := PrevSize(es, i), EntrySize(PrevSize(es, i), e);
    InsertedRest(es, i, e);
    EntryBytesSize(p, e);
    Assoc(Layout(0, es[..i]), EntryBytes(p, e), EntryBytes(req, es[i]) + Layout(EntrySize(req, es[i]), es[i + 1..]));
    hide Inserted;
  }

  lemma InsertAtEnd(es: seq<Entry>, e: Entry)
    requires Insertable(es, |es|, e)
    ensures Encodable(EncodingOf(e)) && AllEncodable(es[..|es|])
    ensures Rep(Inserted(es, |es|, e)) == Header(Offset(es, |es|), |es| + 1) +
            (Layout(0, es) + EntryBytes(PrevSize(es, |es|), e))
    ensures es[..|es|] == es && !InsertShrinks(es, |es|, e)
  {
    hide EntryBytes, Header, FullSize, LastSize, PrevSize, EntrySize, EncodingOf;
    var n, all, a, p := |es|, Inserted(es, |es|, e), es[..|es|], PrevSize(es, |es|);
    assert a == es && es[n..] == [] && |all| == n + 1;
    InsertedParts(es, n, e);
    var y := EntryBytes(p, e);
    assert Layout(0, all) == Layout(0, es) + y by {
      assert Layout(EntrySize(p, e), es[n..]) == [];
      hide Layout;
      assert y + [] == y;
    }
    assert Tail(all) == Offset(es, n);
    hide Inserted, Tail, Offset, Layout;
  }

  /** A block that is left too long is not the new one. */
  lemma InsertFails(es: seq<Entry>, i: nat, e: Entry)
    requires Insertable(es, i, e) && InsertShrinks(es, i, e)
    ensures Encodable(EncodingOf(e)) && AllEncodable(es[..i])
    ensures var s := InsertSpot(es, i, e, EntryBytes(PrevSize(es, i), e));
            s.Fits() && s.Shrinks() && Header(s.TailNow(), |es| + 1) + ForcedNow(s) != Rep(Inserted(es, i, e))
  {
    InsertedParts(es, i, e);
    EntryBytesSize(PrevSize(es, i), e);
    InsertGoal(es, i, e);
    hide EntryBytes, Layout, FullSize, Spot.Goal, ForcedNow;
    var s := InsertSpot(es, i, e, EntryBytes(PrevSize(es, i), e));
    InsertSpotFits(es, i, e, EntryBytes(PrevSize(es, i), e));
    ForcedIsLonger(s);
    HeaderSize(s.TailNow(), |es| + 1);
    HeaderSize(s.TailGoal(), |es| + 1);
  }

  // ---- the bytes ----

  /** Zeros in front of a field of size `|f|`, and another size written so that it ends where the
      field ended. */
  lemma FieldMoved(h: seq<Byte>, z: seq<Byte>, f: seq<Byte>, c: seq<Byte>, req: nat, y: seq<Byte>)
    requires |z| + |f| == req + |y|
    ensures |h + (z + (f + c))| >= |h| + req + |y|
    ensures Overwritten(h + (z + (f + c)), |h| + req, y) == h + ((z + f)[..req] + (y + c))
  {
    var w := z + f;
    assert w == w[..req] + w[req..];
    assert h + (z + (f + c)) == (h + w[..req]) + w[req..] + c;
    OverwriteMiddle(h + w[..req], w[req..], c, y);
    assert (h + w[..req]) + y + c == h + (w[..req] + (y + c));
  }

  lemma RoomBytes(h: seq<Byte>, a: seq<Byte>, f: seq<Byte>, c: seq<Byte>, d: seq<Byte>)
    ensures h + (a + ((f + c) + d)) == (h + a) + (f + (c + d))
  {
    assert (f + c) + d == f + (c + d);
    Assoc(h, a, f + (c + d));
  }

  lemma RoomMade(h: seq<Byte>, a: seq<Byte>, room: nat, f: seq<Byte>, c: seq<Byte>, d: seq<Byte>, req: nat,
                 y: seq<Byte>)
    requires room + |f| == req + |y|
    ensures |Zeros(room)| == room
    ensures var x := (h + a) + (Zeros(room) + (f + (c + d)));
            |x| >= |h| + |a| + req + |y| &&
            Overwritten(x, |h| + |a| + req, y) == h + ((a + (Zeros(room) + f)[..req]) + ((y + c) + d))
  {
    FieldMoved(h + a, Zeros(room), f, c + d, req, y);
    hide Overwritten, Zeros;
    var g := (Zeros(room) + f)[..req];
    RoomBytes(h, a + g, y, c, d);
    Assoc(h, a, g);
    Assoc(h + a, g, y + (c + d));
  }

  /** The sizes that the tail takes while an entry is inserted can be written. */
  lemma TailsFit(es: seq<Entry>, i: nat, e: Entry)
    requires Insertable(es, i, e)
    ensures AllEncodable(es) && Tail(es) + EntrySize(PrevSize(es, i), e) < WORD_LIMIT && |es| <= MAX_LEN
  {
    TailAt(es);
    HeaderSize(Tail(es), |es|);
  }

  lemma OffsetIs(es: seq<Entry>, i: nat)
    requires i <= |es| && AllEncodable(es) && AllEncodable(es[..i])
    ensures Offset(es, i) == |Header(Tail(es), |es|)| + |Layout(0, es[..i])|
  {
    HeaderSize(Tail(es), |es|);
  }

  // ---- the block while an entry is inserted ----

  /** What stands behind the place of an inserted entry in the end. */
  ghost function Behind(es: seq<Entry>, i: nat, e: Entry): seq<Byte>
    requires Insertable(es, i, e)
  {
    InsertedEncodable(es, i, e);
    var p := PrevSize(es, i);
    var req := EntrySize(p, e);
    if i == |es| then
      []
    else if !InsertShrinks(es, i, e) then
      EntryBytes(req, es[i]) + Layout(EntrySize(req, es[i]), es[i + 1..])
    else
      EntryBytes(req, es[i]) + (Forced(EntrySize(p, es[i]), EntrySize(req, es[i])) +
        (HeadBytes(EncodingOf(es[i + 1])) + Content(es[i + 1]))
        + Layout(EntrySize(EntrySize(p, es[i]), es[i + 1]), es[i + 2..]))
  }

  lemma InsertedEncodable(es: seq<Entry>, i: nat, e: Entry)
    requires Insertable(es, i, e)
    ensures Encodable(EncodingOf(e)) && AllEncodable(es) && AllEncodable(es[..i])
    ensures i < |es| ==> EntrySize(PrevSize(es, i), es[i]) < LENGTH_LIMIT
  {
    InsertedParts(es, i, e);
    if i < |es| {
      EntryAt(es, i);
    }
  }

  /** Where the tail is in the end. */
  ghost function TailBehind(es: seq<Entry>, i: nat, e: Entry): nat
    requires Insertable(es, i, e)
  {
    InsertedEncodable(es, i, e);
    if i == |es| then Offset(es, i) else
    var s := InsertSpot(es, i, e, EntryBytes(PrevSize(es, i), e));
    if InsertShrinks(es, i, e) then s.TailNow() else s.TailGoal()
  }

  /** The block with `g` in place of an inserted entry. */
  ghost function WithFiller(es: seq<Entry>, i: nat, e: Entry, g: seq<Byte>, len: nat): seq<Byte>
    requires Insertable(es, i, e)
  {
    InsertedEncodable(es, i, e);
    Header(TailBehind(es, i, e), len) + ((Layout(0, es[..i]) + g) + Behind(es, i, e))
  }

  /** The block that an insertion leaves. */
  ghost function InsertResult(es: seq<Entry>, i: nat, e: Entry): seq<Byte>
    requires Insertable(es, i, e)
  {
    InsertedEncodable(es, i, e);
    WithFiller(es, i, e, EntryBytes(PrevSize(es, i), e), |es| + 1)
  }

  /** The result is the block of the new entries, in all cases but one. */
  lemma InsertIsRight(es: seq<Entry>, i: nat, e: Entry)
    requires Insertable(es, i, e)
    ensures InsertResult(es, i, e) == Rep(Inserted(es, i, e)) <==> !InsertShrinks(es, i, e)
  {
    hide EntryBytes, Header, Layout, Forced, HeadBytes, Content, Fit, PrevSize, EntrySize, EncodingOf;
    if i == |es| {
      InsertAtEnd(es, e);
      assert forall b: seq<Byte> :: b + [] == b;
    } else {
      InsertGoal(es, i, e);
      if InsertShrinks(es, i, e) {
        InsertFails(es, i, e);
      }
    }
  }

  /** When the sizes are up to date, only the filler is left to be replaced. */
  lemma FillerIsLeft(es: seq<Entry>, i: nat, e: Entry, g: seq<Byte>)
    requires Insertable(es, i, e) && i < |es| && |g| == EntrySize(PrevSize(es, i), e)
    ensures AllEncodable(es[..i]) && InsertSpot(es, i, e, g).Fits()
    ensures var s := InsertSpot(es, i, e, g);
            WithFiller(es, i, e, g, |es|) == if s.Shrinks() then Header(s.TailNow(), |es|) + ForcedNow(s)
              else Header(s.TailGoal(), |es|) + s.Goal()
    ensures InsertSpot(es, i, e, g).Shrinks() <==> InsertShrinks(es, i, e)
  {
    hide EntryBytes, Header, Layout, Forced, HeadBytes, Content, Fit, PrevSize, EntrySize, EncodingOf, LastStart;
    InsertSpotFits(es, i, e, g);
    InsertedEncodable(es, i, e);
    InsertedParts(es, i, e);
    EntryBytesSize(PrevSize(es, i), e);
    assert InsertShrinks(es, i, e) ==> es[i + 1..][1..] == es[i + 2..] && es[i + 1..][0] == es[i + 1];
  }

  /** A field of the same width leaves nothing stale. */
  lemma SpotIsRight(es: seq<Entry>, i: nat, e: Entry, g: seq<Byte>)
    requires Insertable(es, i, e) && i < |es| && |g| == EntrySize(PrevSize(es, i), e)
    requires PrevLengthSize(EntrySize(PrevSize(es, i), e)) == PrevLengthSize(PrevSize(es, i))
    ensures AllEncodable(es[..i]) && InsertSpot(es, i, e, g).Fits() && !InsertSpot(es, i, e, g).Shrinks()
    ensures var s := InsertSpot(es, i, e, g); s.Now() == s.Goal() && s.TailNow() == s.TailGoal()
  {
    InsertSpotFits(es, i, e, g);
    SameSizeIsRight(InsertSpot(es, i, e, g));
    hide EntryBytes, Layout, Fit, PrevSize, FullSize, LastStart;
  }

  lemma TailBehindFits(es: seq<Entry>, i: nat, e: Entry)
    requires Insertable(es, i, e)
    ensures TailBehind(es, i, e) < WORD_LIMIT
  {
    InsertedParts(es, i, e);
    TailAt(Inserted(es, i, e));
    HeaderSize(Tail(Inserted(es, i, e)), |es| + 1);
    if i < |es| {
      var g := EntryBytes(PrevSize(es, i), e);
      EntryBytesSize(PrevSize(es, i), e);
      InsertSpotFits(es, i, e, g);
      TailWithin(InsertSpot(es, i, e, g));
      GoalTailWithin(InsertSpot(es, i, e, g));
    }
  }

  lemma GoalTailWithin(s: Spot)
    requires s.Fits()
    ensures s.TailGoal() <= HEADER_SIZE + |s.Goal()|
  {
    LastStartWithin(s.Raw(), s.rest);
    EntryBytesSize(s.p, s.e);
  }

  lemma Regroup(h: seq<Byte>, a: seq<Byte>, g: seq<Byte>, d: seq<Byte>)
    ensures h + ((a + g) + d) == (h + a) + (g + d)
  {
    assert (a + g) + d == a + (g + d);
    Assoc(h, a, g + d);
  }

  lemma EntryWritten(h: seq<Byte>, f: seq<Byte>, b: seq<Byte>, d: seq<Byte>, p: seq<Byte>, c: seq<Byte>)
    requires |p| == |f| && |c| == |b|
    ensures var x := h + ((f + b) + d);
            |x| >= |h| + |p| + |c| &&
            var y := Overwritten(x, |h|, p);
            |y| >= |h| + |p| + |c| && Overwritten(y, |h| + |p|, c) == h + ((p + c) + d)
  {
    var x := h + ((f + b) + d);
    assert x == h + f + (b + d);
    OverwriteMiddle(h, f, b + d, p);
    assert h + p + (b + d) == (h + p) + b + d;
    OverwriteMiddle(h + p, b, d, c);
    assert (h + p) + c + d == h + ((p + c) + d);
  }
}
