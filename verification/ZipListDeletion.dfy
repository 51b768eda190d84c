/** What a deletion makes of the block of a packed list (src/svalue/zip_list.rs). */
module ZipListDeletion {
  import opened Bytes
  import opened ZipListCodec
  import opened ZipListLayout
  import opened ZipListBlock
  import opened ZipListSpots
  import opened ZipListEdits

  function Deleted(es: seq<Entry>, i: nat, k: nat): seq<Entry>
    requires i + k <= |es|
  {
    es[..i] + es[i + k..]
  }

  /** A block from which `k` entries can be taken out: the size of the first one left behind them
      can still be recorded. */
  ghost predicate Deletable(es: seq<Entry>, i: nat, k: nat) {
    0 < k && i + k <= |es| < MAX_LEN && Holdable(es) && Holdable(Deleted(es, i, k)) &&
      HEADER_SIZE + |Layout(0, es)| + 4 < WORD_LIMIT
  }

  /** The change in width of the field in front of the first entry that is left. */
  ghost function WidthChange(es: seq<Entry>, i: nat, k: nat): int
    requires i + k <= |es|
  {
    if i + k == |es| then 0 else PrevLengthSize(PrevSize(es, i)) - PrevLengthSize(PrevSize(es, i + k))
  }

  /** The cases in which a deletion is wrong.  The width changes, and the first entry left is the
      last one; or the width falls, another entry is behind it, and its size falls to one byte. */
  ghost predicate DeleteFails(es: seq<Entry>, i: nat, k: nat)
    requires i + k <= |es|
  {
    WidthChange(es, i, k) != 0 &&
    (i + k + 1 == |es| || (WidthChange(es, i, k) < 0 && LARGE_LENGTH <= EntrySize(PrevSize(es, i + k),
      es[i + k]) < LARGE_LENGTH + 4))
  }

  /** The first entry that is left, behind those in front of it. */
  ghost function DeleteSpot(es: seq<Entry>, i: nat, k: nat): Spot
    requires i + k < |es| && AllEncodable(es[..i])
  {
    Spot(Layout(0, es[..i]), PrevSize(es, i), es[i + k], EntrySize(PrevSize(es, i + k), es[i + k]), es[i + k + 1..])
  }

  lemma DeletedParts(es: seq<Entry>, i: nat, k: nat)
    requires i + k < |es| && Fit(0, es) && Fit(0, Deleted(es, i, k))
    ensures AllEncodable(es[..i]) && Encodable(EncodingOf(es[i + k])) && AllEncodable(es[i + k + 1..]) &&
            PrevSize(es, i) < LENGTH_LIMIT
    ensures var p, b, more := PrevSize(es, i), es[i + k], es[i + k + 1..];
            Fit(EntrySize(p, b), more) && |Deleted(es, i, k)| == |es| - k &&
            Layout(0, Deleted(es, i, k)) == Layout(0, es[..i]) + (EntryBytes(p, b) + Layout(EntrySize(p, b), more)) &&
            LastStart(0, Deleted(es, i, k)) == |Layout(0, es[..i])| + if more == [] then 0
              else EntrySize(p, b) + LastStart(EntrySize(p, b), more)
  {
    var all := Deleted(es, i, k);
    assert all[..i] == es[..i] && all[i..] == es[i + k..] && all[i] == es[i + k] && all[i + 1..] == es[i + k + 1..];
    PartFrom(all, i);
    PartsFit(all, i);
    assert all[i..][1..] == es[i + k + 1..];
    hide EntryBytes, EntrySize, PrevSize, Layout, Deleted;
  }

  /** The deleted bytes, and those around them. */
  lemma DeletedBytes(es: seq<Entry>, i: nat, k: nat)
    requires i + k <= |es| && Fit(0, es)
    ensures AllEncodable(es[..i]) && AllEncodable(es[i..i + k]) && AllEncodable(es[..i + k])
    ensures Layout(0, es[..i + k]) == Layout(0, es[..i]) + Layout(PrevSize(es, i), es[i..i + k])
    ensures k > 0 ==> |Layout(PrevSize(es, i), es[i..i + k])| > PrevLengthSize(PrevSize(es, i))
  {
    hide EntryBytes, Layout, Fit, PrevSize, LastSize, EncodingOf, Encodable, LastStart;
    var a, d := es[..i], es[i..i + k];
    assert es[..i + k] == a + d;
    PartsFit(es, i + k);
    assert AllEncodable(a + d) by { FitIsEncodable(0, a + d); }
    LayoutOfBoth(0, a, d);
    FitBoth(0, a, d);
    PrevSizeIs(es, i);
    if k > 0 {
      LayoutHasField(PrevSize(es, i), d);
    }
  }

  lemma FitIsEncodable(p: nat, es: seq<Entry>)
    requires Fit(p, es)
    ensures AllEncodable(es)
  {
  }

  lemma PrevSizeIs(es: seq<Entry>, i: nat)
    requires i <= |es|
    ensures PrevSize(es, i) == LastSize(0, es[..i])
  {
  }

  lemma LayoutHasField(p: nat, es: seq<Entry>)
    requires Fit(p, es) && es != []
    ensures |Layout(p, es)| > PrevLengthSize(p)
  {
    EntryBytesSize(p, es[0]);
    SomeHead(es[0]);
    hide EntryBytes;
  }

  lemma SomeHead(e: Entry)
    ensures FullSize(EncodingOf(e)) > 0
  {
  }

  lemma DeleteSpotFits(es: seq<Entry>, i: nat, k: nat)
    requires Deletable(es, i, k) && i + k < |es|
    ensures AllEncodable(es[..i]) && DeleteSpot(es, i, k).Fits()
    ensures DeleteFails(es, i, k) <==>
            WidthChange(es, i, k) != 0 && (i + k + 1 == |es| || DeleteSpot(es, i, k).Shrinks())
  {
    hide EntryBytes, FullSize, Layout, Fit, PrevSize, Deleted, EncodingOf, Encodable, AllEncodable;
    DeleteSpotRests(es, i, k);
    DeletedBytes(es, i, k);
    EntryBytesSize(PrevSize(es, i), es[i + k]);
    EntryBytesSize(PrevSize(es, i + k), es[i + k]);
  }

  /** The spot of a deletion, in parts. */
  lemma DeleteSpotRests(es: seq<Entry>, i: nat, k: nat)
    requires Deletable(es, i, k) && i + k < |es|
    ensures AllEncodable(es[..i]) && AllEncodable(es[..i + k]) && AllEncodable(es[i + k + 1..]) &&
            Encodable(EncodingOf(es[i + k])) && PrevSize(es, i) < LENGTH_LIMIT && PrevSize(es, i + k) < LENGTH_LIMIT
    ensures var p, q, b, more := PrevSize(es, i), PrevSize(es, i + k), es[i + k], es[i + k + 1..];
            Fit(EntrySize(p, b), more) && Fit(EntrySize(q, b), more) &&
            HEADER_SIZE + |Layout(0, es[..i])| + |EntryBytes(p, b)| + |Layout(EntrySize(p, b), more)| < WORD_LIMIT &&
            HEADER_SIZE + |Layout(0, es[..i + k])| + |EntryBytes(q, b)| + |Layout(EntrySize(q, b), more)| < WORD_LIMIT
  {
    hide EntryBytes, EntrySize, Layout, Fit, PrevSize, Deleted, EncodingOf, Encodable, AllEncodable, LastStart;
    DeletedParts(es, i, k);
    PartFrom(es, i + k);
  }

  /** Where the tail is put: right, or wrong by the change in width when it is the first entry left. */
  lemma DeleteTail(es: seq<Entry>, i: nat, k: nat)
    requires Deletable(es, i, k) && i + k < |es|
    ensures AllEncodable(es) && AllEncodable(es[..i]) && AllEncodable(es[i + k + 1..])
    ensures Tail(es) - (Offset(es, i + k) - WidthChange(es, i, k) - Offset(es, i)) ==
      DeleteSpot(es, i, k).TailNow() + if i + k + 1 == |es| then WidthChange(es, i, k) else 0
    ensures Tail(es) < WORD_LIMIT && DeleteSpot(es, i, k).TailNow() + WidthChange(es, i, k) >= 0
  {
    hide FullSize, Header, Layout, Fit, PrevSize, LastStart, EncodingOf, Encodable, Deleted, Rep;
    TailOfPart(es, i + k);
    DeletedBytes(es, i, k);
  }

  /** Where the tail of a block is, from an entry on. */
  lemma TailOfPart(es: seq<Entry>, j: nat)
    requires j < |es| && Holdable(es)
    ensures AllEncodable(es) && AllEncodable(es[..j]) && AllEncodable(es[j + 1..]) && Tail(es) < WORD_LIMIT
    ensures var size, more := EntrySize(PrevSize(es, j), es[j]), es[j + 1..];
            Tail(es) == HEADER_SIZE + |Layout(0, es[..j])| + if more == [] then 0 else size + LastStart(size, more)
  {
    PartFrom(es, j);
    PartsFit(es, j);
    TailAt(es);
    HeaderSize(Tail(es), |es|);
    assert es[j..][1..] == es[j + 1..] && es[j..][0] == es[j];
    hide FullSize, Header, Layout, Fit, PrevSize;
  }

  lemma DeleteGoal(es: seq<Entry>, i: nat, k: nat)
    requires Deletable(es, i, k) && i + k < |es|
    ensures AllEncodable(es[..i]) && AllEncodable(Deleted(es, i, k))
    ensures var s := DeleteSpot(es, i, k);
            Encodable(EncodingOf(s.e)) && AllEncodable(s.rest) &&
              Rep(Deleted(es, i, k)) == Header(s.TailGoal(), |es| - k) + s.Goal()
  {
    hide EntryBytes, Header, FullSize, Layout, Fit, PrevSize, EncodingOf, LastStart, EntrySize, Deleted, Encodable;
    FitIsEncodable(0, Deleted(es, i, k));
    DeletedParts(es, i, k);
  }

  /** The block that a deletion leaves. */
  ghost function DeleteResult(es: seq<Entry>, i: nat, k: nat): seq<Byte>
    requires Deletable(es, i, k)
  {
    if i + k == |es| then Rep(Deleted(es, i, k)) else
    DeleteSpotFits(es, i, k);
    DeleteTail(es, i, k);
    var s, diff := DeleteSpot(es, i, k), WidthChange(es, i, k);
    if diff != 0 && i + k + 1 == |es| then Header(s.TailNow() + diff, |es| - k) + s.Now()
    else if DeleteFails(es, i, k) then Header(s.TailNow(), |es| - k) + ForcedNow(s)
    else Header(s.TailGoal(), |es| - k) + s.Goal()
  }

  lemma HeaderTells(t: nat, t': nat, len: nat, x: seq<Byte>, y: seq<Byte>)
    requires t < WORD_LIMIT && t' < WORD_LIMIT && len <= MAX_LEN && Header(t, len) + x == Header(t', len) + y
    ensures t == t'
  {
    HeaderNumbers(t, len, x);
    HeaderNumbers(t', len, y);
  }

  /** The result is the block of the entries that are left, in all cases but those. */
  lemma DeleteIsRight(es: seq<Entry>, i: nat, k: nat)
    requires Deletable(es, i, k)
    ensures DeleteResult(es, i, k) == Rep(Deleted(es, i, k)) <==> !DeleteFails(es, i, k)
  {
    if i + k < |es| {
      var s, diff, len := DeleteSpot(es, i, k), WidthChange(es, i, k), |es| - k;
      hide EntryBytes, Header, FullSize, Layout, Fit, PrevSize, EncodingOf, LastStart, EntrySize, ForcedNow, Deleted,
        Rep;
      DeleteGoal(es, i, k);
      DeleteSpotFits(es, i, k);
      DeleteTail(es, i, k);
      if DeleteFails(es, i, k) {
        if i + k + 1 == |es| {
          LastIsWrong(es, i, k);
        } else {
          ForcedIsLonger(s);
          HeaderSize(s.TailNow(), len);
          HeaderSize(s.TailGoal(), len);
        }
      }
    }
  }

  lemma LastIsWrong(es: seq<Entry>, i: nat, k: nat)
    requires Deletable(es, i, k) && i + k + 1 == |es| && WidthChange(es, i, k) != 0
    ensures DeleteResult(es, i, k) != Rep(Deleted(es, i, k))
  {
    hide EntryBytes, Header, FullSize, Layout, Fit, PrevSize, EncodingOf, LastStart, EntrySize, ForcedNow, Deleted, Rep,
      Spot.Now, Spot.Goal, Tail;
    DeleteGoal(es, i, k);
    DeleteSpotFits(es, i, k);
    DeleteTail(es, i, k);
    TailIsSmall(es, i, k);
    var s, diff, len := DeleteSpot(es, i, k), WidthChange(es, i, k), |es| - k;
    hide WidthChange, Spot.TailNow, Spot.TailGoal, Deletable;
    if DeleteResult(es, i, k) == Rep(Deleted(es, i, k)) {
      HeaderTells(s.TailNow() + diff, s.TailGoal(), len, s.Now(), s.Goal());
    }
  }

  lemma TailIsSmall(es: seq<Entry>, i: nat, k: nat)
    requires Deletable(es, i, k) && i + k + 1 == |es|
    ensures AllEncodable(es[..i]) && |es| - k <= MAX_LEN
    ensures var s := DeleteSpot(es, i, k);
            AllEncodable(s.rest) && s.TailNow() == s.TailGoal() && s.TailNow() + 4 < WORD_LIMIT &&
              WidthChange(es, i, k) <= 4
  {
    hide EntryBytes, Layout, Fit, EntrySize, PrevSize, EncodingOf, LastStart;
    DeletedBytes(es, i, k);
    PartFrom(es, i + k);
    assert es[i + k + 1..] == [];
  }

  // ---- the bytes ----

  /** Writing a length so that it ends where the field `f` ended, and taking out all in front of it. */
  lemma FieldKept(h: seq<Byte>, a: seq<Byte>, z: seq<Byte>, f: seq<Byte>, c: seq<Byte>, d: seq<Byte>, m: nat,
                  y: seq<Byte>)
    requires |z| + |f| == m + |y|
    ensures var x := h + (a + (z + ((f + c) + d)));
            |x| >= |h| + |a| + m + |y| &&
            Overwritten(x, |h| + |a| + m, y) == h + ((a + (z + f)[..m]) + ((y + c) + d))
  {
    var g := (z + f)[..m];
    assert (f + c) + d == f + (c + d);
    Assoc(h, a, z + (f + (c + d)));
    FieldMoved(h + a, z, f, c + d, m, y);
    hide Overwritten;
    RoomBytes(h, a + g, y, c, d);
    Assoc(h, a, g);
    Assoc(h + a, g, y + (c + d));
  }

  lemma TakenOut(h: seq<Byte>, a: seq<Byte>, g: seq<Byte>, r: seq<Byte>)
    ensures var x, off := h + ((a + g) + r), |h| + |a|;
            |x| >= off + |g| && x[..off] + x[off + |g|..] == h + (a + r)
  {
    var x, off := h + ((a + g) + r), |h| + |a|;
    assert x == (h + a) + (g + r);
    assert x[..off] == h + a && x[off + |g|..] == r;
    Assoc(h, a, r);
  }

  /** Without what is behind a place, the entry in front of it is the last one. */
  lemma CutAt(es: seq<Entry>, i: nat)
    requires Fit(0, es) && i <= |es|
    ensures Fit(0, es[..i]) && Tail(es[..i]) == Offset(es, i) - PrevSize(es, i) &&
            Offset(es, i) == HEADER_SIZE + |Layout(0, es[..i])|
    ensures |es[..i]| == i
  {
    PartsFit(es, i);
    TailAt(es[..i]);
    if i > 0 {
      PartTo(es, i - 1);
      assert es[..i][..i - 1] == es[..i - 1];
      hide EntryBytes, EntrySize, Layout, Fit, PrevSize;
    } else {
      assert es[..0] == [];
    }
  }

  /** What is left behind the deleted entries, if its first field records `p`. */
  ghost function Kept(es: seq<Entry>, i: nat, k: nat, p: nat): seq<Byte>
    requires Deletable(es, i, k) && i + k < |es|
  {
    KeptEncodable(es, i, k);
    var b := es[i + k];
    (PrevLengthBytes(p) + (HeadBytes(EncodingOf(b)) + Content(b))) +
      Layout(EntrySize(PrevSize(es, i + k), b), es[i + k + 1..])
  }

  lemma KeptEncodable(es: seq<Entry>, i: nat, k: nat)
    requires Deletable(es, i, k) && i + k < |es|
    ensures AllEncodable(es) && AllEncodable(es[..i]) && AllEncodable(es[..i + k]) && AllEncodable(es[i..i + k])
    ensures AllEncodable(es[i + k + 1..]) && Encodable(EncodingOf(es[i + k]))
  {
    forall e | e in es[..i] || e in es[..i + k] || e in es[i..i + k] || e in es[i + k + 1..]
      ensures e in es
    {
    }
    hide Encodable, EncodingOf;
  }

  /** The block, taken apart at the first entry that is left. */
  lemma BlockAt(es: seq<Entry>, i: nat, k: nat)
    requires Deletable(es, i, k) && i + k < |es|
    ensures AllEncodable(es[..i]) && AllEncodable(es[i..i + k]) && AllEncodable(es[..i + k]) && AllEncodable(es)
    ensures PrevSize(es, i) < LENGTH_LIMIT && PrevSize(es, i + k) < LENGTH_LIMIT
    ensures var q, z := PrevSize(es, i + k), Layout(PrevSize(es, i), es[i..i + k]);
            Rep(es) == Header(Tail(es), |es|) + (Layout(0, es[..i]) + (z + Kept(es, i, k, q))) &&
            Offset(es, i + k) == Offset(es, i) + |z| && |z| > PrevLengthSize(PrevSize(es, i))
  {
    hide Header, Layout, Fit, PrevSize, Tail, Deleted, EntryBytes, EntrySize, Kept, EncodingOf;
    KeptEncodable(es, i, k);
    PartFrom(es, i + k);
    PartFrom(es, i);
    DeletedBytes(es, i, k);
    KeptIs(es, i, k);
    Assoc(Layout(0, es[..i]), Layout(PrevSize(es, i), es[i..i + k]), Kept(es, i, k, PrevSize(es, i + k)));
  }

  lemma KeptIs(es: seq<Entry>, i: nat, k: nat)
    requires Deletable(es, i, k) && i + k < |es|
    ensures AllEncodable(es[i + k + 1..]) && Encodable(EncodingOf(es[i + k]))
    ensures var q, b := PrevSize(es, i + k), es[i + k];
            Kept(es, i, k, q) == EntryBytes(q, b) + Layout(EntrySize(q, b), es[i + k + 1..])
  {
    KeptEncodable(es, i, k);
    hide HeadBytes, PrevLengthBytes, Content, EntrySize, Layout, Fit, PrevSize, Deletable, EncodingOf;
  }

  lemma DeletableParts(es: seq<Entry>, i: nat, k: nat)
    requires Deletable(es, i, k)
    ensures Fit(0, es) && AllEncodable(es) && AllEncodable(es[..i]) && |es| < MAX_LEN && Tail(es) < WORD_LIMIT
    ensures At(Rep(es), Offset(es, i), Header(Tail(es), |es|) + Layout(0, es[..i]), PrevSize(es, i), es[i],
            Layout(EntrySize(PrevSize(es, i), es[i]), es[i + 1..]))
  {
    EntryAt(es, i);
    TailAt(es);
    HeaderSize(Tail(es), |es|);
  }

  lemma RestIsGone(es: seq<Entry>, i: nat, k: nat)
    requires Deletable(es, i, k) && i + k == |es|
    ensures AllEncodable(es[..i]) && Offset(es, i) >= PrevSize(es, i)
    ensures DeleteResult(es, i, k) == Header(Offset(es, i) - PrevSize(es, i), i) + (Layout(0, es[..i]) + [])
  {
    CutAt(es, i);
    hide Layout, Header, Fit, PrevSize, Tail;
    assert Deleted(es, i, k) == es[..i];
    assert Layout(0, es[..i]) + [] == Layout(0, es[..i]);
  }

  /** What is left when the first entry left has its new length, and before the sizes behind it are
      brought up to date. */
  lemma KeptSpot(es: seq<Entry>, i: nat, k: nat)
    requires Deletable(es, i, k) && i + k < |es|
    ensures AllEncodable(es[..i]) && DeleteSpot(es, i, k).Fits()
    ensures var s, p := DeleteSpot(es, i, k), PrevSize(es, i);
            s.Now() == Layout(0, es[..i]) + Kept(es, i, k, p)
    ensures AllEncodable(es) && AllEncodable(es[..i + k]) && Tail(es) < WORD_LIMIT
    ensures var m := Offset(es, i + k) - WidthChange(es, i, k) - Offset(es, i);
            0 < m <= Tail(es) && Tail(es) - m == DeleteSpot(es, i, k).TailNow() +
              (if i + k + 1 == |es| then WidthChange(es, i, k) else 0)
  {
    DeleteSpotFits(es, i, k);
    DeleteTail(es, i, k);
    BlockAt(es, i, k);
    DeletedBytes(es, i, k);
    hide Layout, Fit, PrevSize, PrevLengthBytes, HeadBytes, Content, LastStart, Deleted, EntrySize, Header;
  }

  lemma DeleteSame(es: seq<Entry>, i: nat, k: nat)
    requires Deletable(es, i, k) && i + k < |es| && WidthChange(es, i, k) == 0
    ensures AllEncodable(es[..i]) && DeleteSpot(es, i, k).Fits()
    ensures var s := DeleteSpot(es, i, k); DeleteResult(es, i, k) == Header(s.TailNow(), |es| - k) + s.Now()
  {
    DeleteSpotFits(es, i, k);
    SameSizeIsRight(DeleteSpot(es, i, k));
    hide Layout, Header, Fit, PrevSize, LastStart, Deleted, EntryBytes;
  }

  /** Some entries take some bytes. */
  lemma Advanced(es: seq<Entry>, i: nat, k: nat)
    requires Holdable(es) && i + k <= |es|
    ensures AllEncodable(es[..i]) && AllEncodable(es[..i + k]) && (Offset(es, i + k) > Offset(es, i) <==> k > 0)
  {
    DeletedBytes(es, i, k);
    if k == 0 {
      assert es[..i + k] == es[..i];
    }
    hide Layout, PrevSize;
  }
}
