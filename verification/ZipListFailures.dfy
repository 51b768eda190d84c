/** Lists on which an insertion or a deletion goes wrong (src/svalue/zip_list.rs). */
module ZipListFailures {
  import opened Bytes
  import opened ZipListCodec
  import opened ZipListLayout
  import opened ZipListBlock
  import opened ZipListEdits
  import opened ZipListDeletion

  /** A list on which an insertion goes wrong: two long strings, an entry of 254 bytes, and one more;
      a short one is inserted in front of the one of 254 bytes. */
  function Unlucky(): seq<Entry> {
    var long := seq(300, i => 0);
    var almost := seq(247, i => 0);
    [Text(long), Text(almost), Number(1)]
  }

  /** An insertion that leaves a wrong block. */
  lemma InsertionCanFail()
    ensures Insertable(Unlucky(), 1, Number(5)) && InsertResult(Unlucky(), 1,
            Number(5)) != Rep(Inserted(Unlucky(), 1, Number(5)))
  {
    var es, e := Unlucky(), Number(5);
    UnluckySizes();
    var all := Inserted(es, 1, e);
    assert all == [es[0], e, es[1], es[2]];
    SmallIsHoldable(es);
    SmallIsHoldable(all);
    LastOfOne(es[0]);
    assert es[..1] == [es[0]];
    hide Layout, Fit;
    InsertIsRight(es, 1, e);
  }

  /** A deletion that leaves a wrong block: a long string, taken out in front of the last entry. */
  lemma DeletionCanFail()
    ensures var es := [Unlucky()[0], Number(1)]; Deletable(es, 0, 1) && DeleteResult(es, 0, 1) != Rep(Deleted(es, 0, 1))
  {
    var es := [Unlucky()[0], Number(1)];
    UnluckySizes();
    assert Deleted(es, 0, 1) == [es[1]] && es[..1] == [es[0]] && es[..0] == [];
    SmallIsHoldable(es);
    SmallIsHoldable([es[1]]);
    LastOfOne(es[0]);
    hide Layout, Fit;
    DeleteIsRight(es, 0, 1);
  }

  lemma LastOfOne(e: Entry)
    ensures LastSize(0, [e]) == EntrySize(0, e)
  {
    assert [e][1..] == [];
  }

  lemma UnluckySizes()
    ensures var es := Unlucky();
            |es| == 3 && EntrySize(0, es[0]) == 303 && EntrySize(303, es[1]) == 254 && es[2] == Number(1)
  {
  }

  /** Some entries of at most 400 bytes make a layout that is not long. */
  lemma {:induction false} SmallLayout(p: nat, es: seq<Entry>)
    requires p < 500 && forall e <- es :: Encodable(EncodingOf(e)) && FullSize(EncodingOf(e)) <= 400
    ensures Fit(p, es) && |Layout(p, es)| <= 500 * |es|
    decreases |es|
  {
    if es != [] {
      EntryBytesSize(p, es[0]);
      hide FullSize, EncodingOf, Encodable, EntryBytes;
      SmallLayout(EntrySize(p, es[0]), es[1..]);
    }
  }

  lemma SmallIsHoldable(es: seq<Entry>)
    requires |es| <= 10 && forall e <- es :: Encodable(EncodingOf(e)) && FullSize(EncodingOf(e)) <= 400
    ensures Holdable(es) && |Layout(0, es)| <= 5000
  {
    SmallLayout(0, es);
    hide FullSize, EncodingOf, Encodable, Layout, Fit;
  }
}
