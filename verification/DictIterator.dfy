/** Walking through a dictionary, whether its entries are being moved or not (src/svalue/dict.rs). */
module DictIterators {
  import opened DictTables
  import opened Dicts
  import opened Options

  /** The buckets of one of the tables. */
  function Buckets(d: Dict, table: nat): seq<seq<Entry>>
    reads d
  {
    if table == 0 then d.ht0.buckets else if table == 1 then d.ht1.buckets else []
  }

  /** The entries from bucket `index` of a table on. */
  ghost function From(d: Dict, table: nat, index: nat): seq<Entry>
    reads d
  {
    (if index <= |Buckets(d, table)| then Flat(Buckets(d, table)[index..]) else []) +
    if table == 0 && d.IsRehashing() then Flat(Buckets(d, 1)) else []
  }

  lemma FromIs(d: Dict, table: nat, index: nat)
    ensures index < |Buckets(d, table)| ==>
            From(d, table, index) == Buckets(d, table)[index] + From(d, table, index + 1)
    ensures index >= |Buckets(d, table)| && table == 0 && d.IsRehashing() ==> From(d, table, index) == From(d, 1, 0)
    ensures index >= |Buckets(d, table)| && !(table == 0 && d.IsRehashing()) ==> From(d, table, index) == []
  {
    var b := Buckets(d, table);
    if index < |b| {
      assert b[index..][1..] == b[index + 1..];
    }
    assert Buckets(d, 1)[0..] == Buckets(d, 1);
  }

  class Iter {
    const d: Dict
    var table: nat
    var index: nat
    /** The chain from the entry that comes next on. */
    var entry: seq<Entry>

    /** The entries still to come. */
    ghost function Remaining(): seq<Entry>
      reads this, d
    {
      if entry == [] then [] else entry + From(d, table, index + 1)
    }

    constructor (d: Dict)
      requires d.Valid()
      ensures this.d == d && Remaining() == All(d.ht0, d.ht1, d.IsRehashing())
    {
      this.d := d;
      table, index, entry := 0, 0, [];
      new;
      AllIsFrom(d);
      hide Flat, Dict.Valid;
      Seek();
    }

    /** Goes to the first bucket with entries, from the place it is at, in this table or the next. */
    method Seek()
      modifies this
      ensures Remaining() == From(d, old(table), old(index))
    {
      hide Flat, From, Dict.IsRehashing;
      entry := [];
      ghost var rest := From(d, table, index);
      while table < 2
        invariant entry == [] && From(d, table, index) == rest
        decreases 2 - table
      {
        SkipEmpty();
        FromIs(d, table, index);
        if index < |Buckets(d, table)| {
          entry := Buckets(d, table)[index];
          return;
        }
        if !d.IsRehashing() {
          return;
        }
        table, index := table + 1, 0;
        FromIs(d, table, index);
      }
      FromIs(d, table, index);
    }

    /** Passes over empty buckets. */
    method SkipEmpty()
      modifies `index
      ensures From(d, table, index) == From(d, table, old(index))
      ensures index < |Buckets(d, table)| ==> Buckets(d, table)[index] != []
    {
      hide Flat, From;
      ghost var rest := From(d, table, index);
      while index < |Buckets(d, table)| && Buckets(d, table)[index] == []
        invariant From(d, table, index) == rest
        decreases |Buckets(d, table)| - index
      {
        FromIs(d, table, index);
        index := index + 1;
      }
    }

    method Next() returns (r: Option<Entry>)
      modifies this
      ensures if old(Remaining()) == [] then r == None && Remaining() == []
              else r == Some(old(Remaining())[0]) && Remaining() == old(Remaining())[1..]
    {
      hide Flat, From;
      if entry == [] {
        return None;
      }
      r := Some(entry[0]);
      entry := entry[1..];
      if entry != [] {
        return;
      }
      index := index + 1;
      Seek();
    }
  }

  lemma AllIsFrom(d: Dict)
    ensures From(d, 0, 0) == All(d.ht0, d.ht1, d.IsRehashing())
  {
    assert Buckets(d, 0)[0..] == d.ht0.buckets;
  }
}
