/** The block of bytes of a packed list: its header, its entries, and what a change of one entry
    leaves stale behind it (src/svalue/zip_list.rs). */
module ZipListBlock {
  import opened Bytes
  import opened Options
  import opened ZipListCodec
  import opened ZipListLayout

  const TAIL_SIZE := 8
  const LEN_SIZE := 2
  const HEADER_SIZE := 10
  const WORD_LIMIT := 0x1_0000_0000_0000_0000
  const MAX_LEN := 0xFFFF

  function Header(tail: nat, len: nat): seq<Byte> {
    BytesOf(tail, TAIL_SIZE) + BytesOf(len, LEN_SIZE)
  }

  /** Where the last entry begins, or would. */
  ghost function Tail(es: seq<Entry>): nat
    requires AllEncodable(es)
  {
    HEADER_SIZE + LastStart(0, es)
  }

  /** The block that holds these entries. */
  ghost function Rep(es: seq<Entry>): seq<Byte>
    requires AllEncodable(es)
  {
    Header(Tail(es), |es|) + Layout(0, es)
  }

  /** Entries that a block can hold. */
  ghost predicate Holdable(es: seq<Entry>) {
    Fit(0, es) && |es| <= MAX_LEN && HEADER_SIZE + |Layout(0, es)| < WORD_LIMIT
  }

  /** Where entry `i` begins. */
  ghost function Offset(es: seq<Entry>, i: nat): nat
    requires AllEncodable(es) && i <= |es|
  {
    HEADER_SIZE + |Layout(0, es[..i])|
  }

  // ---- bytes ----

  function Overwritten(x: seq<Byte>, off: nat, y: seq<Byte>): seq<Byte>
    requires off + |y| <= |x|
  {
    x[..off] + y + x[off + |y|..]
  }

  lemma OverwriteMiddle(a: seq<Byte>, b: seq<Byte>, c: seq<Byte>, y: seq<Byte>)
    requires |y| == |b|
    ensures Overwritten(a + b + c, |a|, y) == a + y + c
  {
  }

  lemma HeaderNumbers(tail: nat, len: nat, body: seq<Byte>)
    requires tail < WORD_LIMIT && len <= MAX_LEN
    ensures var x := Header(tail, len) + body;
            |Header(tail, len)| == HEADER_SIZE && Natural(x[0..TAIL_SIZE]) == tail &&
              Natural(x[TAIL_SIZE..TAIL_SIZE + LEN_SIZE]) == len
  {
    Powers();
    SmallNumber(tail, TAIL_SIZE);
    SmallNumber(len, LEN_SIZE);
    var x := Header(tail, len) + body;
    assert x[0..TAIL_SIZE] == BytesOf(tail, TAIL_SIZE);
    assert x[TAIL_SIZE..TAIL_SIZE + LEN_SIZE] == BytesOf(len, LEN_SIZE);
  }

  lemma WrittenOver(h: seq<Byte>, a: seq<Byte>, q: Byte, y: seq<Byte>, body: seq<Byte>, more: seq<Byte>)
    requires |y| == 5
    ensures |h + (a + (Zeros(4) + (([q] + body) + more)))| >= |h| + |a| + 5
    ensures Overwritten(h + (a + (Zeros(4) + (([q] + body) + more))), |h| + |a|, y) == h + (a + ((y + body) + more))
  {
    assert h + (a + (Zeros(4) + (([q] + body) + more))) == (h + a) + (Zeros(4) + [q]) + (body + more);
    OverwriteMiddle(h + a, Zeros(4) + [q], body + more, y);
    assert (h + a) + y + (body + more) == h + (a + ((y + body) + more));
  }

  function Zeros(n: nat): seq<Byte> {
    seq(n, i => 0)
  }

  lemma HeaderSize(tail: nat, len: nat)
    ensures |Header(tail, len)| == HEADER_SIZE
  {
  }

  /** The entry `e`, behind one of `p` bytes, stands at `off`, between `a` and `rest`. */
  ghost predicate At(x: seq<Byte>, off: nat, a: seq<Byte>, p: nat, e: Entry, rest: seq<Byte>) {
    p < LENGTH_LIMIT && Encodable(EncodingOf(e)) && |a| == off && x == a + (EntryBytes(p, e) + rest)
  }

  lemma AtFacts(x: seq<Byte>, off: nat, a: seq<Byte>, p: nat, e: Entry, rest: seq<Byte>)
    requires At(x, off, a, p, e, rest)
    ensures off < |x|
    ensures var y, n, enc := x[off..], PrevLengthSize(p), EncodingOf(e);
            |y| >= EntrySize(p, e) && (y[0] == LARGE ==> |y| >= 5) && PrevLengthOf(y) == p &&
              Parse(y[n..]) == Some(enc) &&
            y[n + HeadSize(enc)..EntrySize(p, e)] == Content(e) && HeadSize(enc) > 0
  {
    hide PrevLengthBytes, HeadBytes, Parse, PrevLengthOf, FullSize, EntryBytes;
    EntryRoundTrip(p, e, rest);
    assert x[off..] == EntryBytes(p, e) + rest;
  }
}
