/** The dictionary, which moves its entries from one table to a larger one a bucket at a time
    (src/svalue/dict.rs). */
module Dicts {
  import opened Bits
  import opened DictTables
  import opened Options
  import opened Values

  const INITIAL_SIZE := 4

  /** The least power of two times four that is no less than a size. */
  method NextPower(size: nat) returns (i: nat)
    ensures i >= size && i >= INITIAL_SIZE && (exists k: nat :: i == Pow2(k)) && (i > INITIAL_SIZE ==> i < 2 * size)
  {
    i := INITIAL_SIZE;
    ghost var k: nat := 2;
    assert Pow2(2) == 4;
    while i < size
      invariant i == Pow2(k) && i >= INITIAL_SIZE && (i > INITIAL_SIZE ==> i < 2 * size)
      decreases size - i
    {
      i, k := i * 2, k + 1;
    }
  }

  class Dict {
    const hash: Key -> nat
    var ht0: Table
    var ht1: Table
    var rehashIdx: int
    var canResize: bool
    ghost var view: map<Key, Value>
    /** How many times all entries have been moved, and the second table has become the first one. */
    ghost var ended: nat

    predicate IsRehashing()
      reads this
    {
      rehashIdx != -1
    }

    ghost predicate Valid()
      reads this
    {
      && TableOk(ht0, hash) && TableOk(ht1, hash) && Represents(ht0, ht1, IsRehashing(), hash, view)
      && ht0.used + ht1.used == |view|
      && (IsRehashing() ==> MovingFrom(ht0, rehashIdx) && ht1.buckets != [])
      && (!IsRehashing() ==> ht1.used == 0 && (ht1.buckets == [] <==> ended == 0))
    }

    /** The buckets where a key may be. */
    function BucketsInUse(): nat
      reads this
    {
      |ht0.buckets| + if IsRehashing() then |ht1.buckets| else 0
    }

    constructor (hash: Key -> nat)
      ensures Valid() && view == map[] && this.hash == hash && ended == 0 && canResize && !IsRehashing()
    {
      this.hash := hash;
      ended := 0;
      ht0, ht1, rehashIdx, canResize, view := Table([], 0), Table([], 0), -1, true, map[];
    }

    method Len() returns (n: nat)
      requires Valid()
      ensures n == |view|
    {
      n := ht0.used + ht1.used;
    }

    /** The sizes of both tables: too many once the entries have been moved and the old table is left as
        the second one, until they are being moved again. */
    method Slot() returns (n: nat)
      requires Valid()
      ensures n == |ht0.buckets| + |ht1.buckets|
      ensures n == BucketsInUse() <==> IsRehashing() || ended == 0
    {
      n := |ht0.buckets| + |ht1.buckets|;
    }

    // ---- moving entries ----

    /** Moves all entries of a bucket to the second table, the head first. */
    method MoveBucket(idx: nat)
      requires Valid() && IsRehashing() && idx < |ht0.buckets| && MovingFrom(ht0, idx)
      modifies `ht0, `ht1
      ensures TableOk(ht0, hash) && TableOk(ht1, hash) && Represents(ht0, ht1, true, hash, view) &&
              ht0.used + ht1.used == |view|
      ensures MovingFrom(ht0, idx) && ht1.buckets != [] && ht0.used == old(ht0.used) - |old(ht0.buckets)[idx]|
    {
      hide TableOk, Represents;
      ghost var n := |ht0.buckets[idx]|;
      while ht0.buckets[idx] != []
        invariant idx < |ht0.buckets| && MovingFrom(ht0, idx) && ht1.buckets != []
        invariant TableOk(ht0, hash) && TableOk(ht1, hash) && Represents(ht0, ht1, true, hash, view)
        invariant ht0.used + ht1.used == |view| && ht0.used == old(ht0.used) - n + |ht0.buckets[idx]|
        decreases |ht0.buckets[idx]|
      {
        var e := ht0.buckets[idx][0];
        MoveKeeps(ht0, ht1, hash, view, idx);
        ghost var t0, t1 := Taken(ht0, idx), Given(ht1, hash, e);
        ht0 := ht0.(buckets := ht0.buckets[idx := ht0.buckets[idx][1..]]);
        var h := Index(hash(e.key), |ht1.buckets|);
        ht1 := ht1.(buckets := ht1.buckets[h := [e] + ht1.buckets[h]]);
        ht0 := ht0.(used := ht0.used - 1);
        ht1 := ht1.(used := ht1.used + 1);
        assert ht0 == t0 && ht1 == t1;
      }
    }

    /** Moves up to `n` buckets that have entries; says whether there may be more. */
    method Rehash(n: nat) returns (more: bool)
      requires Valid()
      modifies `ht0, `ht1, `rehashIdx, `ended
      ensures Valid() && (more ==> IsRehashing())
      ensures ended == old(ended) + if old(IsRehashing()) && !IsRehashing() then 1 else 0
      ensures !old(IsRehashing()) ==> ht0 == old(ht0) && ht1 == old(ht1) && !IsRehashing()
      ensures old(IsRehashing()) && n > 0 ==> !IsRehashing() || ht0.used < old(ht0.used)
      ensures |ht0.buckets| > 0 || |old(ht0.buckets)| == 0
    {
      hide TableOk, Represents, MovingFrom;
      if !IsRehashing() {
        return false;
      }
      FirstTableIsThere();
      for i := 0 to n
        invariant Valid() && IsRehashing() && ended == old(ended) && ht0.buckets != [] &&
                  ht0.used <= old(ht0.used) - if i > 0 then 1 else 0
      {
        if ht0.used == 0 {
          SwapKeeps(ht0, ht1, hash, view);
          ht0, ht1 := ht1, ht0;
          rehashIdx, ended := -1, ended + 1;
          return false;
        }
        SomeBucketIsFull(ht0, hash, rehashIdx);
        ghost var t0, t1 := ht0, ht1;
        while ht0.buckets[rehashIdx] == []
          invariant ht0 == t0 && ht1 == t1 && ended == old(ended) && MovingFrom(ht0, rehashIdx) && rehashIdx >= 0
          invariant exists j :: rehashIdx <= j < |ht0.buckets| && ht0.buckets[j] != []
          decreases |ht0.buckets| - rehashIdx
        {
          OneFurther(ht0, rehashIdx);
          rehashIdx := rehashIdx + 1;
        }
        MovingIs(ht0, rehashIdx);
        MoveBucket(rehashIdx);
        FirstTableStays(ht0, rehashIdx);
      }
      return true;
    }

    lemma FirstTableIsThere()
      requires Valid()
      ensures IsRehashing() ==> ht0.buckets != []
    {
      hide TableOk, Represents;
    }

    method RehashStepIfNeeded()
      requires Valid()
      modifies `ht0, `ht1, `rehashIdx, `ended
      ensures Valid() && (old(ht0.buckets) != [] ==> ht0.buckets != [])
      ensures old(IsRehashing()) ==> !IsRehashing() || ht0.used < old(ht0.used)
      ensures !old(IsRehashing()) ==> !IsRehashing() && ht0 == old(ht0) && ht1 == old(ht1)
      ensures ended == old(ended) + if old(IsRehashing()) && !IsRehashing() then 1 else 0
    {
      if IsRehashing() {
        var more := Rehash(1);
      }
    }

    // ---- growing ----

    /** Makes a table of at least `size` buckets: the first one, or one to move to. */
    method Expand(size: nat) returns (ok: bool)
      requires Valid() && size > 0
      modifies `ht0, `ht1, `rehashIdx
      ensures Valid() && (ok <==> !old(IsRehashing()) && |old(ht0.buckets)| < size)
      ensures if ok then ht0.buckets != [] && (IsRehashing() <==> old(ht0.buckets) != [])
              else ht0 == old(ht0) && ht1 == old(ht1) && rehashIdx == old(rehashIdx)
      ensures ok ==> ht0.used == old(ht0.used) && |if IsRehashing() then ht1.buckets else ht0.buckets| >= size
    {
      hide TableOk, Represents;
      var realSize := NextPower(size);
      if IsRehashing() || |ht0.buckets| >= size {
        return false;
      }
      var new' := EmptyTable(realSize);
      EmptyTableOk(realSize, hash);
      if |ht0.buckets| == 0 {
        NewFirst(ht0, ht1, new', hash, view);
        ht0 := new';
      } else {
        NewSecond(ht0, ht1, new', hash, view);
        ht1 := new';
        rehashIdx := 0;
      }
      return true;
    }

    /** A table that is as full as it has buckets is to be replaced by one of twice the entries. */
    method ExpandIfNeeded() returns (ok: bool)
      requires Valid()
      modifies `ht0, `ht1, `rehashIdx
      ensures Valid() && ok && ht0.buckets != []
      ensures old(IsRehashing()) ==> IsRehashing() && ht0 == old(ht0) && ht1 == old(ht1)
      ensures !IsRehashing() && old(ht0.buckets) != [] ==> ht0 == old(ht0) && (canResize ==> ht0.used < |ht0.buckets|)
    {
      hide TableOk, Represents;
      if IsRehashing() {
        return true;
      }
      if |ht0.buckets| == 0 {
        ok := Expand(INITIAL_SIZE);
        return;
      }
      if ht0.used >= |ht0.buckets| && canResize {
        ok := Expand(ht0.used * 2);
        return;
      }
      return true;
    }

    // ---- looking up ----

    method Find(key: Key) returns (r: Option<Value>)
      requires Valid()
      ensures r == if key in view then Some(view[key]) else None
    {
      hide TableOk;
      PickedHere(key);
      if |ht0.buckets| == 0 {
        return None;
      }
      ghost var picked := Picked(ht0, ht1, IsRehashing(), hash, key);
      r := FindInChain(ht0.buckets[Index(hash(key), |ht0.buckets|)], key);
      assert r.Some? ==> picked[0] == r.value;
      if r.Some? || !IsRehashing() {
        return;
      }
      r := FindInChain(ht1.buckets[Index(hash(key), |ht1.buckets|)], key);
      assert r.Some? ==> picked[0] == r.value;
    }

    lemma PickedHere(key: Key)
      requires Valid()
      ensures Picked(ht0, ht1, IsRehashing(), hash, key) == Stored(view, key)
    {
    }

    /** Looks up a key, and moves a bucket on the way. */
    method FindByMut(key: Key) returns (r: Option<Value>)
      requires Valid()
      modifies `ht0, `ht1, `rehashIdx, `ended
      ensures Valid() && r == if key in view then Some(view[key]) else None
      ensures ended == old(ended) + if old(IsRehashing()) && !IsRehashing() then 1 else 0
      ensures old(IsRehashing()) ==> ended > old(ended) || ht0.used < old(ht0.used)
    {
      hide TableOk, Represents;
      if |ht0.buckets| == 0 {
        r := Find(key);
        return;
      }
      RehashStepIfNeeded();
      r := Find(key);
    }

    // ---- changing ----

    /** Adds a key; fails just when it is there. */
    method Add(key: Key, value: Value) returns (ok: bool)
      requires Valid()
      modifies this
      ensures Valid() && (ok <==> key !in old(view)) && view == if ok then old(view)[key := value] else old(view)
      ensures ended >= old(ended) && (old(IsRehashing()) ==> ended > old(ended) || ht0.used < old(ht0.used))
      ensures ht0.buckets != [] && canResize == old(canResize)
      ensures !old(IsRehashing()) && !IsRehashing() && old(ht0.buckets) != [] ==>
                |ht0.buckets| == |old(ht0.buckets)| && (canResize ==> |old(view)| < |ht0.buckets|)
    {
      hide TableOk, Represents, MovingFrom;
      RehashStepIfNeeded();
      var expanded := ExpandIfNeeded();
      var found := Find(key);
      if found.Some? {
        return false;
      }
      InsertHead(key, value);
      return true;
    }

    /** Puts a new entry in front of the chain of its key, in the table that is being filled. */
    method InsertHead(key: Key, value: Value)
      requires Valid() && key !in view && ht0.buckets != []
      modifies `ht0, `ht1, `view
      ensures Valid() && view == old(view)[key := value]
      ensures |ht0.buckets| == |old(ht0.buckets)| && (IsRehashing() ==> ht0 == old(ht0))
    {
      hide TableOk, Represents, MovingFrom;
      var e := Entry(key, value);
      SizeGrows(view, key, value);
      if IsRehashing() {
        GivenOk(ht1, hash, e);
        GiveSecond(ht0, ht1, hash, view, e);
        var h := Index(hash(key), |ht1.buckets|);
        ghost var t := Given(ht1, hash, e);
        ht1 := ht1.(buckets := ht1.buckets[h := [e] + ht1.buckets[h]], used := ht1.used + 1);
        assert ht1 == t;
      } else {
        GivenOk(ht0, hash, e);
        GiveFirst(ht0, ht1, hash, view, e);
        var h := Index(hash(key), |ht0.buckets|);
        ghost var t := Given(ht0, hash, e);
        ht0 := ht0.(buckets := ht0.buckets[h := [e] + ht0.buckets[h]], used := ht0.used + 1);
        assert ht0 == t;
      }
      view := view[key := value];
    }

    /** Gives a key a value; says whether the key is new. */
    method Replace(key: Key, value: Value) returns (added: bool)
      requires Valid()
      modifies this
      ensures Valid() && (added <==> key !in old(view)) && view == old(view)[key := value]
      ensures ended >= old(ended) && (old(IsRehashing()) ==> ended > old(ended) || ht0.used < old(ht0.used))
    {
      hide TableOk, Represents, MovingFrom;
      RehashStepIfNeeded();
      var expanded := ExpandIfNeeded();
      var updated := TryUpdate(key, value);
      if updated {
        return false;
      }
      RehashStepIfNeeded();
      InsertHead(key, value);
      return true;
    }

    /** Changes the value of a key that is there. */
    method TryUpdate(key: Key, value: Value) returns (updated: bool)
      requires Valid() && ht0.buckets != []
      modifies `ht0, `ht1, `view
      ensures Valid() && (updated <==> key in old(view)) &&
              view == (if updated then old(view)[key := value] else old(view)) && ht0.buckets != []
      ensures ht0.used == old(ht0.used)
    {
      hide TableOk, Represents, MovingFrom, Pick;
      PickedHere(key);
      var idx := Index(hash(key), |ht0.buckets|);
      var i := IndexInChain(ht0.buckets[idx], key);
      if i < |ht0.buckets[idx]| {
        ChangedOk(ht0, hash, idx, i, value);
        ChangedFirst(ht0, ht1, IsRehashing(), hash, view, idx, i, value);
        ghost var t := Changed(ht0, idx, i, value);
        MovingChanged(ht0, idx, i, value, rehashIdx);
        ht0 := ht0.(buckets := ht0.buckets[idx := ht0.buckets[idx][i := Entry(key, value)]]);
        assert ht0 == t;
        view := view[key := value];
        return true;
      }
      if !IsRehashing() {
        return false;
      }
      idx := Index(hash(key), |ht1.buckets|);
      i := IndexInChain(ht1.buckets[idx], key);
      if i < |ht1.buckets[idx]| {
        ChangedOk(ht1, hash, idx, i, value);
        ChangedSecond(ht0, ht1, hash, view, idx, i, value);
        ghost var t := Changed(ht1, idx, i, value);
        ht1 := ht1.(buckets := ht1.buckets[idx := ht1.buckets[idx][i := Entry(key, value)]]);
        assert ht1 == t;
        view := view[key := value];
        return true;
      }
      return false;
    }

    /** Takes a key out, and gives its value. */
    method Delete(key: Key) returns (r: Option<Value>)
      requires Valid()
      modifies this
      ensures Valid() && r == (if key in old(view) then Some(old(view)[key]) else None) && view == old(view) - {key}
      ensures ended >= old(ended) && (old(IsRehashing()) ==> ended > old(ended) || ht0.used < old(ht0.used))
    {
      hide TableOk, Represents, MovingFrom, Pick;
      PickedHere(key);
      FirstTableIsThere();
      if |ht0.buckets| == 0 {
        NothingThere(ht0, ht1, hash, view, key, IsRehashing(), rehashIdx);
        return None;
      }
      RehashStepIfNeeded();
      PickedHere(key);
      SizeShrinks(view, key);
      var idx := Index(hash(key), |ht0.buckets|);
      var i := IndexInChain(ht0.buckets[idx], key);
      if i < |ht0.buckets[idx]| {
        var e := ht0.buckets[idx][i];
        CutOk(ht0, hash, idx, i);
        CutFirst(ht0, ht1, IsRehashing(), hash, view, idx, i);
        MovingCut(ht0, idx, i, rehashIdx);
        ghost var t := CutOut(ht0, idx, i);
        ht0 := ht0.(buckets := ht0.buckets[idx := ht0.buckets[idx][..i] + ht0.buckets[idx][i + 1..]],
          used := ht0.used - 1);
        assert ht0 == t;
        view := view - {key};
        return Some(e.value);
      }
      if IsRehashing() {
        r := DeleteSecond(key);
        return;
      }
      return None;
    }

    /** Takes a key out of the second table. */
    method DeleteSecond(key: Key) returns (r: Option<Value>)
      requires Valid() && IsRehashing() && ht0.buckets != [] && Pick(Bucket(ht0, hash, key), key) == []
      modifies `ht1, `view
      ensures Valid() && r == (if key in old(view) then Some(old(view)[key]) else None) && view == old(view) - {key}
    {
      hide TableOk, Represents, MovingFrom, Pick;
      PickedHere(key);
      SizeShrinks(view, key);
      var idx := Index(hash(key), |ht1.buckets|);
      var i := IndexInChain(ht1.buckets[idx], key);
      if i == |ht1.buckets[idx]| {
        return None;
      }
      var e := ht1.buckets[idx][i];
      CutOk(ht1, hash, idx, i);
      CutSecond(ht0, ht1, hash, view, idx, i);
      ghost var t := CutOut(ht1, idx, i);
      ht1 := ht1.(buckets := ht1.buckets[idx := ht1.buckets[idx][..i] + ht1.buckets[idx][i + 1..]],
        used := ht1.used - 1);
      assert ht1 == t;
      view := view - {key};
      return Some(e.value);
    }
  }

  // ---- a dictionary whose size is counted wrong ----

  /** Adding different keys until a table is full, and looking one up until its entries have been moved,
      leaves a dictionary with more slots counted than there are buckets in use. */
  method OutgrowFirstTable(hash: Key -> nat, keyOf: nat -> Key, value: Value) returns (d: Dict)
    requires forall i: nat, j: nat | i != j :: keyOf(i) != keyOf(j)
    ensures fresh(d) && d.Valid() && !d.IsRehashing() && d.ended > 0
  {
    hide TableOk, Represents, MovingFrom;
    d := new Dict(hash);
    var ok := d.Add(keyOf(0), value);
    var i: nat := 1;
    while !d.IsRehashing()
      invariant fresh(d) && d.Valid() && d.canResize && d.ht0.buckets != [] && |d.view| == i
      invariant !d.IsRehashing() ==> i <= |d.ht0.buckets|
      invariant forall j: nat | j >= i :: keyOf(j) !in d.view
      decreases if d.IsRehashing() then 0 else |d.ht0.buckets| + 1 - i
    {
      SizeGrows(d.view, keyOf(i), value);
      ok := d.Add(keyOf(i), value);
      i := i + 1;
    }
    while d.IsRehashing()
      invariant fresh(d) && d.Valid() && (d.IsRehashing() || d.ended > 0)
      decreases d.IsRehashing(), d.ht0.used
    {
      var found := d.FindByMut(keyOf(0));
    }
  }

  method SlotGoesWrong(hash: Key -> nat, keyOf: nat -> Key, value: Value) returns (d: Dict, n: nat)
    requires forall i: nat, j: nat | i != j :: keyOf(i) != keyOf(j)
    ensures d.Valid() && n == |d.ht0.buckets| + |d.ht1.buckets| > d.BucketsInUse()
  {
    d := OutgrowFirstTable(hash, keyOf, value);
    n := d.Slot();
  }

  lemma MovingIs(t: Table, idx: int)
    requires MovingFrom(t, idx)
    ensures idx >= 0 && t.buckets != []
  {
  }

  lemma OneFurther(t: Table, idx: int)
    requires MovingFrom(t, idx) && idx < |t.buckets| && t.buckets[idx] == []
    ensures MovingFrom(t, idx + 1)
  {
  }

  lemma FirstTableStays(t: Table, idx: int)
    requires MovingFrom(t, idx)
    ensures t.buckets != []
  {
  }

  /** A table that counts an entry has one, and not in the buckets that have been moved. */
  lemma SomeBucketIsFull(t: Table, hash: Key -> nat, idx: int)
    requires TableOk(t, hash) && MovingFrom(t, idx) && t.used > 0
    ensures 0 <= idx < |t.buckets| && exists j :: idx <= j < |t.buckets| && t.buckets[j] != []
  {
    TotalIsZero(t.buckets);
  }

  lemma EmptyPicks(t: Table, hash: Key -> nat, key: Key)
    requires TableOk(t, hash) && t.used == 0
    ensures Bucket(t, hash, key) == [] && Pick(Bucket(t, hash, key), key) == []
  {
    TotalIsZero(t.buckets);
  }

  /** When the first table is empty the second one takes its place. */
  lemma SwapKeeps(t0: Table, t1: Table, hash: Key -> nat, view: map<Key, Value>)
    requires TableOk(t0, hash) && t0.used == 0 && Represents(t0, t1, true, hash, view)
    ensures Represents(t1, t0, false, hash, view)
  {
    forall key
      ensures Picked(t1, t0, false, hash, key) == Stored(view, key)
    {
      EmptyPicks(t0, hash, key);
      assert Picked(t0, t1, true, hash, key) == Stored(view, key);
    }
    hide TableOk, Bucket;
  }

  lemma NewFirst(t0: Table, t1: Table, n: Table, hash: Key -> nat, view: map<Key, Value>)
    requires t0.buckets == [] && Represents(t0, t1, false, hash, view) && TableOk(t0, hash)
    requires n.used == 0 && forall key :: Bucket(n, hash, key) == []
    ensures Represents(n, t1, false, hash, view) && t0.used == 0
  {
    forall key
      ensures Picked(n, t1, false, hash, key) == Stored(view, key)
    {
      assert Picked(t0, t1, false, hash, key) == Stored(view, key);
    }
  }

  lemma NewSecond(t0: Table, t1: Table, n: Table, hash: Key -> nat, view: map<Key, Value>)
    requires Represents(t0, t1, false, hash, view) && forall key :: Bucket(n, hash, key) == []
    ensures Represents(t0, n, true, hash, view)
  {
    forall key
      ensures Picked(t0, n, true, hash, key) == Stored(view, key)
    {
      assert Picked(t0, t1, false, hash, key) == Stored(view, key);
    }
  }

  /** The first entry of a chain with a key. */
  method FindInChain(c: seq<Entry>, key: Key) returns (r: Option<Value>)
    ensures if r.Some? then Pick(c, key) != [] && Pick(c, key)[0] == r.value else Pick(c, key) == []
  {
    var rest := c;
    while rest != []
      invariant Pick(rest, key) == Pick(c, key)
      decreases |rest|
    {
      if rest[0].key == key {
        return Some(rest[0].value);
      }
      rest := rest[1..];
    }
    return None;
  }

  /** Where in a chain a key is first; its end if it is not there. */
  method IndexInChain(c: seq<Entry>, key: Key) returns (i: nat)
    ensures i <= |c| && (i < |c| ==> c[i].key == key) && (i == |c| <==> Pick(c, key) == [])
  {
    i := 0;
    while i < |c| && c[i].key != key
      invariant i <= |c| && forall j | 0 <= j < i :: c[j].key != key
    {
      i := i + 1;
    }
    if i == |c| {
      PickNone(c, key);
    } else {
      PickHas(c, i);
    }
  }

  lemma SizeGrows(view: map<Key, Value>, key: Key, value: Value)
    requires key !in view
    ensures |view[key := value]| == |view| + 1
  {
    assert view[key := value].Keys == view.Keys + {key};
  }

  lemma SizeShrinks(view: map<Key, Value>, key: Key)
    ensures |view - {key}| == |view| - if key in view then 1 else 0
    ensures key !in view ==> view - {key} == view
  {
    assert (view - {key}).Keys == view.Keys - {key};
  }

  lemma NothingThere(t0: Table, t1: Table, hash: Key -> nat, view: map<Key, Value>, key: Key, rehashing: bool, idx: int)
    requires t0.buckets == [] && Represents(t0, t1, rehashing, hash, view) && (rehashing ==> MovingFrom(t0, idx))
    ensures key !in view && view - {key} == view
  {
    assert Picked(t0, t1, rehashing, hash, key) == Stored(view, key);
  }
}
