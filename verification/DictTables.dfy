/** The tables of a dictionary (src/svalue/dict.rs).

    A chain of entries is a sequence, its head first.  The hash function, with its seed, is a
    parameter. */
module DictTables {
  import opened Bits
  import opened Values

  type Key(==, !new)

  datatype Entry = Entry(key: Key, value: Value)

  /** A table: its buckets, and how many entries it counts.  Its size is the number of buckets. */
  datatype Table = Table(buckets: seq<seq<Entry>>, used: nat)

  /** The bucket of a hash in a table of `size` buckets: `hash & size_mask`. */
  function Index(hash: nat, size: nat): (i: nat)
    requires size > 0
    ensures i < size
  {
    AndBelow(hash, size - 1);
    And(hash, size - 1)
  }

  lemma {:induction false} AndBelow(a: nat, b: nat)
    ensures And(a, b) <= b
    decreases b
  {
    if a != 0 && b != 0 {
      AndBelow(a / 2, b / 2);
    }
  }

  // ---- chains ----

  /** The values that a chain holds for a key, in order. */
  ghost function Pick(c: seq<Entry>, key: Key): seq<Value> {
    if c == [] then [] else (if c[0].key == key then [c[0].value] else []) + Pick(c[1..], key)
  }

  lemma {:induction false} PickOfBoth(a: seq<Entry>, b: seq<Entry>, key: Key)
    ensures Pick(a + b, key) == Pick(a, key) + Pick(b, key)
  {
    if a == [] {
      assert a + b == b;
    } else {
      PickOfBoth(a[1..], b, key);
      assert (a + b)[1..] == a[1..] + b && (a + b)[0] == a[0];
      var p := if a[0].key == key then [a[0].value] else [];
      assert p + (Pick(a[1..], key) + Pick(b, key)) == (p + Pick(a[1..], key)) + Pick(b, key);
    }
  }

  lemma {:induction false} PickHas(c: seq<Entry>, i: nat)
    requires i < |c|
    ensures c[i].value in Pick(c, c[i].key)
  {
    if i > 0 {
      PickHas(c[1..], i - 1);
    }
  }

  lemma {:induction false} PickNone(c: seq<Entry>, key: Key)
    requires forall e <- c :: e.key != key
    ensures Pick(c, key) == []
  {
    if c != [] {
      PickNone(c[1..], key);
    }
  }

  /** A chain in three, at one of its entries. */
  lemma PickAt(c: seq<Entry>, i: nat, key: Key)
    requires i < |c|
    ensures Pick(c, key) == Pick(c[..i], key) + ((if c[i].key == key then [c[i].value] else []) + Pick(c[i + 1..], key))
  {
    hide Pick;
    var a, e, b := c[..i], c[i], c[i + 1..];
    InThree(c, i);
    PickOfOne(e, key);
    PickOfBoth(a, [e] + b, key);
    PickOfBoth([e], b, key);
  }

  lemma InThree(c: seq<Entry>, i: nat)
    requires i < |c|
    ensures c == c[..i] + ([c[i]] + c[i + 1..])
  {
  }

  lemma PickOfOne(e: Entry, key: Key)
    ensures Pick([e], key) == if e.key == key then [e.value] else []
  {
    assert [e][1..] == [];
  }

  // ---- tables ----

  ghost function Total(s: seq<seq<Entry>>): nat {
    if s == [] then 0 else |s[0]| + Total(s[1..])
  }

  lemma {:induction false} TotalAfter(s: seq<seq<Entry>>, i: nat, c: seq<Entry>)
    requires i < |s|
    ensures Total(s[i := c]) == Total(s) - |s[i]| + |c|
  {
    if i > 0 {
      assert s[i := c][1..] == s[1..][i - 1 := c];
      TotalAfter(s[1..], i - 1, c);
    } else {
      assert s[i := c][1..] == s[1..];
    }
  }

  lemma {:induction false} TotalIsZero(s: seq<seq<Entry>>)
    ensures Total(s) == 0 <==> forall i | 0 <= i < |s| :: s[i] == []
  {
    if s != [] {
      TotalIsZero(s[1..]);
      assert forall i | 1 <= i < |s| :: s[i] == s[1..][i - 1];
    }
  }

  /** Every entry is in the bucket of its key, and all are counted. */
  ghost predicate TableOk(t: Table, hash: Key -> nat) {
    t.used == Total(t.buckets) &&
    forall i, e | 0 <= i < |t.buckets| && e in t.buckets[i] :: Index(hash(e.key), |t.buckets|) == i
  }

  /** The bucket where a key belongs; none in a table without buckets. */
  ghost function Bucket(t: Table, hash: Key -> nat, key: Key): seq<Entry> {
    if t.buckets == [] then [] else t.buckets[Index(hash(key), |t.buckets|)]
  }

  /** A table with another chain in one bucket. */
  function WithBucket(t: Table, i: nat, c: seq<Entry>, used: nat): Table
    requires i < |t.buckets|
  {
    Table(t.buckets[i := c], used)
  }

  lemma WithBucketOk(t: Table, hash: Key -> nat, i: nat, c: seq<Entry>, used: nat)
    requires TableOk(t, hash) && i < |t.buckets| && used == t.used - |t.buckets[i]| + |c|
    requires forall e <- c :: Index(hash(e.key), |t.buckets|) == i
    ensures TableOk(WithBucket(t, i, c, used), hash)
    ensures forall key ::
      Bucket(WithBucket(t, i, c, used), hash, key) == if Index(hash(key), |t.buckets|) == i then c
        else Bucket(t, hash, key)
  {
    TotalAfter(t.buckets, i, c);
    hide Index;
  }

  function EmptyTable(size: nat): Table {
    Table(seq(size, i => []), 0)
  }

  lemma EmptyTableOk(size: nat, hash: Key -> nat)
    ensures TableOk(EmptyTable(size), hash) && forall key :: Bucket(EmptyTable(size), hash, key) == []
  {
    TotalIsZero(EmptyTable(size).buckets);
  }

  // ---- two tables ----

  /** The values that both tables hold for a key; the second one only while entries move to it. */
  ghost function Picked(t0: Table, t1: Table, rehashing: bool, hash: Key -> nat, key: Key): seq<Value> {
    Pick(Bucket(t0, hash, key), key) + if rehashing then Pick(Bucket(t1, hash, key), key) else []
  }

  function Stored(view: map<Key, Value>, key: Key): seq<Value> {
    if key in view then [view[key]] else []
  }

  /** Each key of the map is in one table, once, and no other key is in any. */
  ghost predicate Represents(t0: Table, t1: Table, rehashing: bool, hash: Key -> nat, view: map<Key, Value>) {
    forall key :: Picked(t0, t1, rehashing, hash, key) == Stored(view, key)
  }

  // ---- what the operations do to the tables ----

  /** The first table after the head of a bucket has been taken, and the second one with that head. */
  function Taken(t0: Table, idx: nat): Table
    requires idx < |t0.buckets| && t0.buckets[idx] != [] && t0.used > 0
  {
    WithBucket(t0, idx, t0.buckets[idx][1..], t0.used - 1)
  }

  function Given(t1: Table, hash: Key -> nat, e: Entry): Table
    requires t1.buckets != []
  {
    var h := Index(hash(e.key), |t1.buckets|);
    WithBucket(t1, h, [e] + t1.buckets[h], t1.used + 1)
  }

  lemma GivenOk(t: Table, hash: Key -> nat, e: Entry)
    requires TableOk(t, hash) && t.buckets != []
    ensures TableOk(Given(t, hash, e), hash)
    ensures forall key ::
      Pick(Bucket(Given(t, hash, e), hash, key), key) == (if e.key == key then [e.value] else []) +
        Pick(Bucket(t, hash, key), key)
  {
    var h := Index(hash(e.key), |t.buckets|);
    WithBucketOk(t, hash, h, [e] + t.buckets[h], t.used + 1);
    forall key
      ensures Pick([e] + t.buckets[h], key) == (if e.key == key then [e.value] else []) + Pick(t.buckets[h], key)
    {
      PickOfBoth([e], t.buckets[h], key);
      PickOfOne(e, key);
    }
    hide Index, Pick, TableOk;
  }

  lemma TakenOk(t: Table, hash: Key -> nat, idx: nat)
    requires TableOk(t, hash) && idx < |t.buckets| && t.buckets[idx] != []
    ensures t.used > 0 && TableOk(Taken(t, idx), hash)
    ensures var e := t.buckets[idx][0];
            forall key ::
              Pick(Bucket(t, hash, key), key) == (if e.key == key then [e.value] else []) +
              Pick(Bucket(Taken(t, idx), hash, key), key)
  {
    var e, c := t.buckets[idx][0], t.buckets[idx];
    TotalAfter(t.buckets, idx, c[1..]);
    WithBucketOk(t, hash, idx, c[1..], t.used - 1);
    assert e in c && c == [e] + c[1..];
    forall key
      ensures Pick(c, key) == (if e.key == key then [e.value] else []) + Pick(c[1..], key)
    {
      PickOfBoth([e], c[1..], key);
      PickOfOne(e, key);
    }
    hide Index, Pick, TableOk;
  }

  /** Moving an entry from the first table to the second leaves the map. */
  lemma MoveKeeps(t0: Table, t1: Table, hash: Key -> nat, view: map<Key, Value>, idx: nat)
    requires TableOk(t0, hash) && TableOk(t1, hash) && Represents(t0, t1, true, hash, view)
    requires idx < |t0.buckets| && t0.buckets[idx] != [] && t1.buckets != []
    ensures t0.used > 0 && TableOk(Taken(t0, idx), hash) && TableOk(Given(t1, hash, t0.buckets[idx][0]), hash)
    ensures Represents(Taken(t0, idx), Given(t1, hash, t0.buckets[idx][0]), true, hash, view)
  {
    var e := t0.buckets[idx][0];
    TakenOk(t0, hash, idx);
    GivenOk(t1, hash, e);
    var t0', t1' := Taken(t0, idx), Given(t1, hash, e);
    hide TableOk, Taken, Given, Bucket, Pick;
    forall key
      ensures Picked(t0', t1', true, hash, key) == Stored(view, key)
    {
      var p, q := Pick(Bucket(t0', hash, key), key), Pick(Bucket(t1, hash, key), key);
      assert Picked(t0, t1, true, hash, key) == Stored(view, key);
      if e.key == key {
        assert |[e.value] + p + q| <= 1;
        assert p == [] && q == [];
      }
    }
  }

  /** A new key, put in one of the tables. */
  lemma GiveFirst(t0: Table, t1: Table, hash: Key -> nat, view: map<Key, Value>, e: Entry)
    requires TableOk(t0, hash) && t0.buckets != [] && Represents(t0, t1, false, hash, view) && e.key !in view
    ensures Represents(Given(t0, hash, e), t1, false, hash, view[e.key := e.value])
  {
    hide TableOk, Given, Bucket, Pick;
    GivenOk(t0, hash, e);
    var t := Given(t0, hash, e);
    forall key
      ensures Picked(t, t1, false, hash, key) == Stored(view[e.key := e.value], key)
    {
      assert Picked(t0, t1, false, hash, key) == Stored(view, key);
    }
  }

  lemma GiveSecond(t0: Table, t1: Table, hash: Key -> nat, view: map<Key, Value>, e: Entry)
    requires TableOk(t1, hash) && t1.buckets != [] && Represents(t0, t1, true, hash, view) && e.key !in view
    ensures Represents(t0, Given(t1, hash, e), true, hash, view[e.key := e.value])
  {
    hide TableOk, Given, Bucket, Pick;
    GivenOk(t1, hash, e);
    var t := Given(t1, hash, e);
    forall key
      ensures Picked(t0, t, true, hash, key) == Stored(view[e.key := e.value], key)
    {
      assert Picked(t0, t1, true, hash, key) == Stored(view, key);
    }
  }

  // ---- one entry of a chain ----

  function Changed(t: Table, idx: nat, i: nat, value: Value): Table
    requires idx < |t.buckets| && i < |t.buckets[idx]|
  {
    var c := t.buckets[idx];
    WithBucket(t, idx, c[i := Entry(c[i].key, value)], t.used)
  }

  function CutOut(t: Table, idx: nat, i: nat): Table
    requires idx < |t.buckets| && i < |t.buckets[idx]| && t.used > 0
  {
    var c := t.buckets[idx];
    WithBucket(t, idx, c[..i] + c[i + 1..], t.used - 1)
  }

  /** Around one entry of a chain with its key, the chain has others of that key or none. */
  ghost function Rest(c: seq<Entry>, i: nat, key: Key): (seq<Value>, seq<Value>)
    requires i < |c|
  {
    (Pick(c[..i], key), Pick(c[i + 1..], key))
  }

  lemma SetValue(t: Table, hash: Key -> nat, idx: nat, i: nat, value: Value)
    requires TableOk(t, hash) && idx < |t.buckets| && i < |t.buckets[idx]|
    ensures TableOk(Changed(t, idx, i, value), hash)
    ensures var c, t' := t.buckets[idx], Changed(t, idx, i, value);
            forall key ::
              if key == c[i].key then
                Pick(Bucket(t, hash, key), key) == Rest(c, i, key).0 + ([c[i].value] + Rest(c, i, key).1) &&
                Pick(Bucket(t', hash, key), key) == Rest(c, i, key).0 + ([value] + Rest(c, i, key).1)
              else Pick(Bucket(t', hash, key), key) == Pick(Bucket(t, hash, key), key)
  {
    var c := t.buckets[idx];
    var c' := c[i := Entry(c[i].key, value)];
    assert c[i] in c;
    WithBucketOk(t, hash, idx, c', t.used);
    forall key
      ensures Pick(c, key) == Rest(c, i, key).0 + ((if key == c[i].key then [c[i].value] else []) + Rest(c, i, key).1)
      ensures Pick(c', key) == Rest(c, i, key).0 + ((if key == c[i].key then [value] else []) + Rest(c, i, key).1)
    {
      PickAt(c, i, key);
      PickAt(c', i, key);
      assert c'[..i] == c[..i] && c'[i + 1..] == c[i + 1..];
    }
    hide Index, Pick, TableOk;
  }

  lemma CutOk(t: Table, hash: Key -> nat, idx: nat, i: nat)
    requires TableOk(t, hash) && idx < |t.buckets| && i < |t.buckets[idx]|
    ensures t.used > 0 && TableOk(CutOut(t, idx, i), hash)
    ensures var c, t' := t.buckets[idx], CutOut(t, idx, i);
            forall key ::
              if key == c[i].key then
                Pick(Bucket(t, hash, key), key) == Rest(c, i, key).0 + ([c[i].value] + Rest(c, i, key).1) &&
                Pick(Bucket(t', hash, key), key) == Rest(c, i, key).0 + Rest(c, i, key).1
              else Pick(Bucket(t', hash, key), key) == Pick(Bucket(t, hash, key), key)
  {
    hide Index, Pick, TableOk, Rest, Total;
    var c := t.buckets[idx];
    var c' := c[..i] + c[i + 1..];
    CutTotal(t, hash, idx, i);
    WithBucketOk(t, hash, idx, c', t.used - 1);
    forall key
      ensures Pick(c, key) == Rest(c, i, key).0 + ((if key == c[i].key then [c[i].value] else []) + Rest(c, i, key).1)
      ensures Pick(c', key) == Rest(c, i, key).0 + Rest(c, i, key).1
    {
      PickCut(c, i, key);
    }
  }

  lemma CutTotal(t: Table, hash: Key -> nat, idx: nat, i: nat)
    requires TableOk(t, hash) && idx < |t.buckets| && i < |t.buckets[idx]|
    ensures t.used > 0 && Index(hash(t.buckets[idx][i].key), |t.buckets|) == idx
    ensures var c := t.buckets[idx];
            forall e <- c[..i] + c[i + 1..] :: Index(hash(e.key), |t.buckets|) == idx
  {
    var c := t.buckets[idx];
    assert c[i] in c;
    TotalAfter(t.buckets, idx, []);
    hide Index;
  }

  lemma PickCut(c: seq<Entry>, i: nat, key: Key)
    requires i < |c|
    ensures Pick(c, key) == Rest(c, i, key).0 + ((if key == c[i].key then [c[i].value] else []) + Rest(c, i, key).1)
    ensures Pick(c[..i] + c[i + 1..], key) == Rest(c, i, key).0 + Rest(c, i, key).1
  {
    PickAt(c, i, key);
    PickOfBoth(c[..i], c[i + 1..], key);
    hide Pick;
  }

  lemma MapAt(view: map<Key, Value>, key: Key, value: Value, other: Key)
    ensures Stored(view[key := value], other) == if other == key then [value] else Stored(view, other)
    ensures Stored(view - {key}, other) == if other == key then [] else Stored(view, other)
  {
  }

  lemma OneValue(a: seq<Value>, v: Value, b: seq<Value>, c: seq<Value>, front: seq<Value>, s: seq<Value>)
    ensures |s| <= 1 && s == front + ((a + ([v] + b)) + c) ==> s == [v] && a == [] && b == [] && c == [] && front == []
  {
  }

  lemma ChangedFirst(t0: Table, t1: Table, rehashing: bool, hash: Key -> nat, view: map<Key, Value>, idx: nat, i: nat,
                     value: Value)
    requires TableOk(t0, hash) && Represents(t0, t1, rehashing, hash, view) && idx < |t0.buckets| &&
             i < |t0.buckets[idx]|
    ensures var key := t0.buckets[idx][i].key;
            key in view && Represents(Changed(t0, idx, i, value), t1, rehashing, hash, view[key := value])
  {
    var c, t := t0.buckets[idx], Changed(t0, idx, i, value);
    SetValue(t0, hash, idx, i, value);
    hide TableOk, Changed, Bucket, Pick, Rest;
    assert Picked(t0, t1, rehashing, hash, c[i].key) == Stored(view, c[i].key);
    forall key
      ensures Picked(t, t1, rehashing, hash, key) == Stored(view[c[i].key := value], key)
    {
      MapAt(view, c[i].key, value, key);
      assert Picked(t0, t1, rehashing, hash, key) == Stored(view, key);
    }
  }

  lemma ChangedSecond(t0: Table, t1: Table, hash: Key -> nat, view: map<Key, Value>, idx: nat, i: nat, value: Value)
    requires TableOk(t1, hash) && Represents(t0, t1, true, hash, view) && idx < |t1.buckets| && i < |t1.buckets[idx]|
    ensures var key := t1.buckets[idx][i].key;
            key in view && Represents(t0, Changed(t1, idx, i, value), true, hash, view[key := value])
  {
    var c, t := t1.buckets[idx], Changed(t1, idx, i, value);
    SetValue(t1, hash, idx, i, value);
    hide TableOk, Changed, Bucket, Pick, Rest;
    assert Picked(t0, t1, true, hash, c[i].key) == Stored(view, c[i].key);
    forall key
      ensures Picked(t0, t, true, hash, key) == Stored(view[c[i].key := value], key)
    {
      MapAt(view, c[i].key, value, key);
      assert Picked(t0, t1, true, hash, key) == Stored(view, key);
    }
  }

  lemma CutFirst(t0: Table, t1: Table, rehashing: bool, hash: Key -> nat, view: map<Key, Value>, idx: nat, i: nat)
    requires TableOk(t0, hash) && Represents(t0, t1, rehashing, hash, view) && idx < |t0.buckets| &&
             i < |t0.buckets[idx]|
    ensures var e := t0.buckets[idx][i];
            e.key in view && e.value == view[e.key] && t0.used > 0 &&
              Represents(CutOut(t0, idx, i), t1, rehashing, hash, view - {e.key})
  {
    CutOk(t0, hash, idx, i);
    var c, t := t0.buckets[idx], CutOut(t0, idx, i);
    OneValue(Rest(c, i, c[i].key).0, c[i].value, Rest(c, i, c[i].key).1,
      if rehashing then Pick(Bucket(t1, hash, c[i].key), c[i].key) else [],
      [], Stored(view, c[i].key));
    hide TableOk, CutOut, Bucket, Pick, Rest;
    assert Picked(t0, t1, rehashing, hash, c[i].key) == Stored(view, c[i].key);
    forall key
      ensures Picked(t, t1, rehashing, hash, key) == Stored(view - {c[i].key}, key)
    {
      MapAt(view, c[i].key, c[i].value, key);
      assert Picked(t0, t1, rehashing, hash, key) == Stored(view, key);
    }
  }

  lemma CutSecond(t0: Table, t1: Table, hash: Key -> nat, view: map<Key, Value>, idx: nat, i: nat)
    requires TableOk(t1, hash) && Represents(t0, t1, true, hash, view) && idx < |t1.buckets| && i < |t1.buckets[idx]|
    ensures var e := t1.buckets[idx][i];
            e.key in view && e.value == view[e.key] && t1.used > 0 &&
              Represents(t0, CutOut(t1, idx, i), true, hash, view - {e.key})
  {
    CutOk(t1, hash, idx, i);
    var c, t := t1.buckets[idx], CutOut(t1, idx, i);
    OneValue(Rest(c, i, c[i].key).0, c[i].value, Rest(c, i, c[i].key).1, [], Pick(Bucket(t0, hash, c[i].key), c[i].key),
      Stored(view, c[i].key));
    hide TableOk, CutOut, Bucket, Pick, Rest;
    assert Picked(t0, t1, true, hash, c[i].key) == Stored(view, c[i].key);
    forall key
      ensures Picked(t0, t, true, hash, key) == Stored(view - {c[i].key}, key)
    {
      MapAt(view, c[i].key, c[i].value, key);
      assert Picked(t0, t1, true, hash, key) == Stored(view, key);
    }
  }

  /** All buckets in front of `idx` are empty. */
  ghost predicate MovingFrom(t: Table, idx: int) {
    0 <= idx && t.buckets != [] && forall i | 0 <= i < |t.buckets| && i < idx :: t.buckets[i] == []
  }

  lemma ChangedOk(t: Table, hash: Key -> nat, idx: nat, i: nat, value: Value)
    requires TableOk(t, hash) && idx < |t.buckets| && i < |t.buckets[idx]|
    ensures TableOk(Changed(t, idx, i, value), hash) && Changed(t, idx, i, value).used == t.used
  {
    hide TableOk;
    SetValue(t, hash, idx, i, value);
  }

  lemma MovingChanged(t: Table, idx: nat, i: nat, value: Value, from: int)
    requires idx < |t.buckets| && i < |t.buckets[idx]|
    ensures MovingFrom(t, from) ==> MovingFrom(Changed(t, idx, i, value), from)
  {
  }

  lemma MovingCut(t: Table, idx: nat, i: nat, from: int)
    requires idx < |t.buckets| && i < |t.buckets[idx]| && t.used > 0
    ensures MovingFrom(t, from) ==> MovingFrom(CutOut(t, idx, i), from)
  {
  }

  // ---- all entries ----

  /** The entries of some buckets, one bucket after the other. */
  ghost function Flat(s: seq<seq<Entry>>): seq<Entry> {
    if s == [] then [] else s[0] + Flat(s[1..])
  }

  ghost function All(t0: Table, t1: Table, rehashing: bool): seq<Entry> {
    Flat(t0.buckets) + if rehashing then Flat(t1.buckets) else []
  }

  lemma {:induction false} FlatNone(s: seq<seq<Entry>>)
    requires forall i | 0 <= i < |s| :: s[i] == []
    ensures Flat(s) == []
  {
    if s != [] {
      FlatNone(s[1..]);
    }
  }

  /** All the entries of a key are in one bucket. */
  lemma {:induction false} FlatPick(s: seq<seq<Entry>>, from: nat, size: nat, hash: Key -> nat, key: Key)
    requires size == from + |s| > 0 && forall i, e | 0 <= i < |s| && e in s[i] :: Index(hash(e.key), size) == from + i
    ensures Pick(Flat(s), key) == if Index(hash(key), size) < from then []
            else Pick(s[Index(hash(key), size) - from], key)
    decreases |s|
  {
    hide Index, Pick;
    PickNothing(key);
    if s != [] {
      PickOfBoth(s[0], Flat(s[1..]), key);
      if |s| > 1 {
        FlatPick(s[1..], from + 1, size, hash, key);
      } else {
        assert s[1..] == [];
      }
      if Index(hash(key), size) != from {
        PickNone(s[0], key);
      }
    }
  }

  lemma PickNothing(key: Key)
    ensures Pick([], key) == []
  {
  }

  /** All entries, in the order of the buckets, hold each key of the map once, and no other. */
  lemma AllAreStored(t0: Table, t1: Table, rehashing: bool, hash: Key -> nat, view: map<Key, Value>, key: Key)
    requires TableOk(t0, hash) && TableOk(t1, hash) && Represents(t0, t1, rehashing, hash, view)
    ensures Pick(All(t0, t1, rehashing), key) == Stored(view, key)
  {
    assert Picked(t0, t1, rehashing, hash, key) == Stored(view, key);
    FlatBucket(t0, hash, key);
    FlatBucket(t1, hash, key);
    PickNothing(key);
    PickOfBoth(Flat(t0.buckets), if rehashing then Flat(t1.buckets) else [], key);
    hide Flat, Pick, Bucket;
  }

  lemma FlatBucket(t: Table, hash: Key -> nat, key: Key)
    requires TableOk(t, hash)
    ensures Pick(Flat(t.buckets), key) == Pick(Bucket(t, hash, key), key)
  {
    if t.buckets != [] {
      FlatPick(t.buckets, 0, |t.buckets|, hash, key);
    }
  }
}
