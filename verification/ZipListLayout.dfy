/** How the packed list lays out its entries in one block of bytes (src/svalue/zip_list.rs). */
module ZipListLayout {
  import opened Bytes
  import opened Options
  import opened ZipListCodec

  /** An entry: a string, or a number that was written as one. */
  datatype Entry = Text(content: seq<Byte>) | Number(n: int)

  function EncodingOf(e: Entry): Encoding {
    if e.Text? then Str(|e.content|) else Int(e.n)
  }

  function Content(e: Entry): seq<Byte> {
    if e.Text? then e.content else []
  }

  /** The size of an entry behind one of `prev` bytes. */
  function EntrySize(prev: nat, e: Entry): nat {
    PrevLengthSize(prev) + FullSize(EncodingOf(e))
  }

  function EntryBytes(prev: nat, e: Entry): seq<Byte>
    requires Encodable(EncodingOf(e))
  {
    PrevLengthBytes(prev) + (HeadBytes(EncodingOf(e)) + Content(e))
  }

  predicate AllEncodable(es: seq<Entry>) {
    forall e <- es :: Encodable(EncodingOf(e))
  }

  /** The bytes of some entries behind one of `prev` bytes. */
  ghost function Layout(prev: nat, es: seq<Entry>): seq<Byte>
    requires AllEncodable(es)
    decreases |es|
  {
    if es == [] then [] else EntryBytes(prev, es[0]) + Layout(EntrySize(prev, es[0]), es[1..])
  }

  /** The size of the last of some entries, or `prev` if there is none. */
  ghost function LastSize(prev: nat, es: seq<Entry>): nat
    decreases |es|
  {
    if es == [] then prev else LastSize(EntrySize(prev, es[0]), es[1..])
  }

  /** Every entry is below the limit that its follower can record. */
  ghost predicate Fit(prev: nat, es: seq<Entry>)
    decreases |es|
  {
    prev < LENGTH_LIMIT && AllEncodable(es) && (es != [] ==> Fit(EntrySize(prev, es[0]), es[1..]))
  }

  /** Where the last of some entries begins. */
  ghost function LastStart(prev: nat, es: seq<Entry>): nat
    requires AllEncodable(es)
    decreases |es|
  {
    if |es| <= 1 then 0 else EntrySize(prev, es[0]) + LastStart(EntrySize(prev, es[0]), es[1..])
  }

  // ---- entries ----

  lemma EntryBytesSize(prev: nat, e: Entry)
    requires prev < LENGTH_LIMIT && Encodable(EncodingOf(e))
    ensures |EntryBytes(prev, e)| == EntrySize(prev, e)
  {
    PrevLengthRoundTrip(prev, []);
  }

  lemma Cut(a: seq<Byte>, b: seq<Byte>)
    ensures (a + b)[..|a|] == a && (a + b)[|a|..] == b
  {
  }

  lemma Assoc(a: seq<Byte>, b: seq<Byte>, c: seq<Byte>)
    ensures a + (b + c) == a + b + c
  {
  }

  /** What stands at the front of an entry is read back, whatever follows the entry. */
  lemma EntryRoundTrip(prev: nat, e: Entry, rest: seq<Byte>)
    requires prev < LENGTH_LIMIT && Encodable(EncodingOf(e))
    ensures var x, n, enc := EntryBytes(prev, e) + rest, PrevLengthSize(prev), EncodingOf(e);
            |x| >= EntrySize(prev, e) && (x[0] == LARGE ==> |x| >= 5) && PrevLengthOf(x) == prev &&
              Parse(x[n..]) == Some(enc) &&
            x[n + HeadSize(enc)..EntrySize(prev, e)] == Content(e)
    ensures (EntryBytes(prev, e) + rest)[EntrySize(prev, e)..] == rest
  {
    var p, h, c := PrevLengthBytes(prev), HeadBytes(EncodingOf(e)), Content(e);
    hide PrevLengthBytes, HeadBytes, Parse, PrevLengthOf, Content, FullSize;
    var x := EntryBytes(prev, e) + rest;
    assert x == p + (h + (c + rest));
    PrevLengthRoundTrip(prev, h + (c + rest));
    ParseRoundTrip(EncodingOf(e), c + rest);
    EntryBytesSize(prev, e);
    assert x[|p|..] == h + (c + rest);
    assert x[|p| + |h|..|p| + |h| + |c|] == c;
    ContentSize(e);
  }

  lemma ContentSize(e: Entry)
    ensures FullSize(EncodingOf(e)) == HeadSize(EncodingOf(e)) + |Content(e)|
  {
  }

  // ---- layouts ----

  lemma {:induction false} LayoutOfBoth(prev: nat, a: seq<Entry>, b: seq<Entry>)
    requires AllEncodable(a + b)
    ensures AllEncodable(a) && AllEncodable(b)
    ensures Layout(prev, a + b) == Layout(prev, a) + Layout(LastSize(prev, a), b)
    ensures LastSize(prev, a + b) == LastSize(LastSize(prev, a), b)
    decreases |a|
  {
    assert forall e <- a :: e in a + b;
    assert forall e <- b :: e in a + b;
    if a == [] {
      assert a + b == b;
    } else {
      assert (a + b)[1..] == a[1..] + b;
      LayoutOfBoth(EntrySize(prev, a[0]), a[1..], b);
      Assoc(EntryBytes(prev, a[0]), Layout(EntrySize(prev, a[0]), a[1..]), Layout(LastSize(prev, a), b));
    }
  }

  lemma {:induction false} FitBoth(prev: nat, a: seq<Entry>, b: seq<Entry>)
    ensures Fit(prev, a + b) <==> Fit(prev, a) && Fit(LastSize(prev, a), b)
    decreases |a|
  {
    if a == [] {
      assert a + b == b;
    } else {
      assert (a + b)[1..] == a[1..] + b;
      FitBoth(EntrySize(prev, a[0]), a[1..], b);
      assert forall e :: e in a + b <==> e in a || e in b;
      assert forall e :: e in a <==> e == a[0] || e in a[1..];
    }
  }

  /** The last entry begins behind all before it. */
  lemma {:induction false} LastStartIs(prev: nat, es: seq<Entry>)
    requires Fit(prev, es) && |es| > 0
    ensures AllEncodable(es[..|es| - 1]) && LastStart(prev, es) == |Layout(prev, es[..|es| - 1])|
    decreases |es|
  {
    var n := |es| - 1;
    assert forall e <- es[..n] :: e in es;
    if n > 0 {
      assert es[1..][..n - 1] == es[..n][1..];
      LastStartIs(EntrySize(prev, es[0]), es[1..]);
      EntryBytesSize(prev, es[0]);
    }
  }

  /** A wider first length makes a layout that is no shorter. */
  lemma {:induction false} LayoutGrows(p: nat, q: nat, es: seq<Entry>)
    requires Fit(p, es) && Fit(q, es) && PrevLengthSize(p) <= PrevLengthSize(q)
    ensures |Layout(p, es)| <= |Layout(q, es)|
    decreases |es|
  {
    if es != [] {
      EntryBytesSize(p, es[0]);
      EntryBytesSize(q, es[0]);
      LayoutGrows(EntrySize(p, es[0]), EntrySize(q, es[0]), es[1..]);
    }
  }

  /** A first length of the same width shifts nothing. */
  lemma LayoutOfSameWidth(p: nat, q: nat, es: seq<Entry>)
    requires es != [] && AllEncodable(es) && PrevLengthSize(p) == PrevLengthSize(q)
    ensures EntrySize(p, es[0]) == EntrySize(q, es[0]) && LastStart(p, es) == LastStart(q, es)
  {
  }
}
