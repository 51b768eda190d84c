/** The entries of a bin, of list or tree nodes, as the map that the concurrent hash map holds there
    (src/chashmap/map.rs, src/chashmap/node.rs). */
module BinMaps {
  import opened Bits
  import opened BinSplit
  import opened Options
  import opened ResizeModel
  import opened TreeBins
  import opened TreeNodes
  import opened TreeRemoval
  import opened TreeSearch
  import opened TreeSplit
  import opened Values

  function KeyOf(e: BinSplit.Entry): ResizeModel.Key {
    ResizeModel.Key(e.hash, e.key)
  }

  /** The entries are those of the map. */
  ghost predicate AreMap(es: seq<BinSplit.Entry>, m: map<ResizeModel.Key, Value>) {
    (forall e <- es :: KeyOf(e) in m && m[KeyOf(e)] == e.value) &&
    forall key <- m :: exists i: nat :: i < |es| && KeyOf(es[i]) == key
  }

  // ---- splitting ----

  lemma GoesTo(e: BinSplit.Entry, k: nat, i: nat)
    requires BinIndex(e.hash, k) == i
    ensures BinIndex(e.hash, k + 1) == i <==> And(e.hash, Pow2(k)) == 0
    ensures BinIndex(e.hash, k + 1) == i + Pow2(k) <==> And(e.hash, Pow2(k)) != 0
  {
    SplitIndex(e.hash, k);
  }

  /** However a bin is split, list or tree, its two new bins hold the two parts that the resize stores. */
  lemma SplitIsParts(es: seq<BinSplit.Entry>, low: seq<BinSplit.Entry>, high: seq<BinSplit.Entry>, k: nat, i: nat,
                     m: map<ResizeModel.Key, Value>)
    requires AreMap(es, m) && AllIn(es, k, i) && IsSplit(es, low, high, k, i)
    ensures AreMap(low, Part(m, k, false)) && AreMap(high, Part(m, k, true))
  {
    hide And, BinIndex;
    forall e | e in low || e in high
      ensures e in es
    {
      assert e in multiset(low) || e in multiset(high);
      assert e in multiset(es);
    }
    forall e <- es
      ensures e in low || e in high
    {
      assert e in multiset(es);
    }
    forall e <- es
      ensures BinIndex(e.hash, k + 1) == i <==> And(e.hash, Pow2(k)) == 0
      ensures BinIndex(e.hash, k + 1) == i + Pow2(k) <==> And(e.hash, Pow2(k)) != 0
    {
      GoesTo(e, k, i);
    }
    PartIsMap(es, low, m, k, false);
    PartIsMap(es, high, m, k, true);
  }

  lemma PartIsMap(es: seq<BinSplit.Entry>, part: seq<BinSplit.Entry>, m: map<ResizeModel.Key, Value>, k: nat, up: bool)
    requires AreMap(es, m)
    requires forall e <- part :: e in es && (And(e.hash, Pow2(k)) != 0) == up
    requires forall e <- es :: (And(e.hash, Pow2(k)) != 0) == up ==> e in part
    ensures AreMap(part, Part(m, k, up))
  {
    hide And;
    var p := Part(m, k, up);
    forall key <- p
      ensures exists j: nat :: j < |part| && KeyOf(part[j]) == key
    {
      var j: nat :| j < |es| && KeyOf(es[j]) == key;
      assert es[j] in part;
      var q: nat :| q < |part| && part[q] == es[j];
    }
  }

  // ---- what is done to a tree bin ----

  /** What a tree bin gives for a key is what its map has. */
  lemma FindIsAt(bin: TreeBin, hash: nat, key: int, r: TreeNode?, m: map<ResizeModel.Key, Value>)
    requires AreMap(EntriesIn(bin.list), m)
    requires r != null ==> r in Elements(bin.list) && Matches(r, hash, key)
    requires r == null ==> forall n <- Elements(bin.list) :: !Matches(n, hash, key)
    ensures ResizeModel.At(m, ResizeModel.Key(hash, key)) == if r == null then None else Some(r.value)
  {
    var es := EntriesIn(bin.list);
    forall i: nat | i < |bin.list|
      ensures es[i] == EntryIn(bin.list[i]) && bin.list[i] in Elements(bin.list)
    {
    }
    hide EntriesIn;
    if r != null {
      var i: nat :| i < |bin.list| && bin.list[i] == r;
      assert es[i] in es;
    }
    forall i: nat | i < |es| && r == null
      ensures KeyOf(es[i]) != ResizeModel.Key(hash, key)
    {
      assert !Matches(bin.list[i], hash, key);
    }
  }

  /** A new entry in front, with a key that is not there, is what a put makes. */
  lemma FrontIsPut(e: BinSplit.Entry, es: seq<BinSplit.Entry>, keep: bool, m: map<ResizeModel.Key, Value>)
    requires AreMap(es, m) && KeyOf(e) !in m
    ensures AreMap([e] + es, Effect(Put(KeyOf(e), e.value, keep), m))
  {
    var es', m' := [e] + es, m[KeyOf(e) := e.value];
    forall key <- m'
      ensures exists i: nat :: i < |es'| && KeyOf(es'[i]) == key
    {
      if key == KeyOf(e) {
        assert KeyOf(es'[0]) == key;
      } else {
        var i: nat :| i < |es| && KeyOf(es[i]) == key;
        assert es'[i + 1] == es[i];
      }
    }
  }

  /** A list without one of its nodes is what a removal makes. */
  lemma WithoutIsRemoval(s: seq<TreeNode>, p: TreeNode, m: map<ResizeModel.Key, Value>)
    requires AreMap(EntriesIn(s), m) && DistinctKeys(s) && p in s
    ensures AreMap(EntriesIn(Without(s, p)), Effect(Replace(ResizeModel.Key(p.hash, p.key), None, None), m))
  {
    hide EntriesIn, Without, DistinctKeys;
    var es, es', gone := EntriesIn(s), EntriesIn(Without(s, p)), ResizeModel.Key(p.hash, p.key);
    EntriesLeft(s, p);
    var i: nat :| i < |s| && s[i] == p;
    assert es[i] in es && KeyOf(es[i]) == gone;
    forall key <- m - {gone}
      ensures exists j: nat :: j < |es'| && KeyOf(es'[j]) == key
    {
      var j: nat :| j < |es| && KeyOf(es[j]) == key;
      EntryStays(s, p, j);
    }
  }

  /** What is left are other entries of the list. */
  lemma EntriesLeft(s: seq<TreeNode>, p: TreeNode)
    requires DistinctKeys(s) && p in s
    ensures forall e <- EntriesIn(Without(s, p)) :: e in EntriesIn(s) && KeyOf(e) != ResizeModel.Key(p.hash, p.key)
  {
    hide EntriesIn, Without, DistinctKeys;
    var r, es' := Without(s, p), EntriesIn(Without(s, p));
    forall e <- es'
      ensures e in EntriesIn(s) && KeyOf(e) != ResizeModel.Key(p.hash, p.key)
    {
      var j: nat :| j < |r| && es'[j] == e;
      NodeLeft(s, p, r[j]);
    }
  }

  lemma NodeLeft(s: seq<TreeNode>, p: TreeNode, n: TreeNode)
    requires DistinctKeys(s) && p in s && n in Without(s, p)
    ensures EntryIn(n) in EntriesIn(s) && !(n.hash == p.hash && n.key == p.key)
  {
    WithoutKeeps(s, p, n);
    hide Without, EntriesIn;
    var i: nat :| i < |s| && s[i] == n;
    var j: nat :| j < |s| && s[j] == p;
    assert EntriesIn(s)[i] == EntryIn(n);
    assert i < j ==> !Matches(s[i], s[j].hash, s[j].key);
    assert j < i ==> !Matches(s[j], s[i].hash, s[i].key);
  }

  lemma EntryStays(s: seq<TreeNode>, p: TreeNode, j: nat)
    requires j < |s| && s[j] != p
    ensures exists q: nat :: q < |Without(s, p)| && KeyOf(EntriesIn(Without(s, p))[q]) == KeyOf(EntriesIn(s)[j])
  {
    WithoutKeeps(s, p, s[j]);
    hide Without, EntriesIn;
    var r := Without(s, p);
    var q: nat :| q < |r| && r[q] == s[j];
    assert EntriesIn(r)[q] == EntryIn(r[q]);
  }
}
