/**
 Python's `dict` with string keys, as the sequence of its items in insertion
 order. Assigning to a present key replaces its value in place; assigning to a
 new key appends it; `update` assigns the other dict's items in their order.
 */
module OrderedDict {
  import opened Wrappers
  import opened StringOrder

  type Dict<V> = seq<(string, V)>

  function KeySet<V>(d: Dict<V>): set<string> {
    if |d| == 0 then {} else {d[0].0} + KeySet(d[1..])
  }

  /** The key at any position is a key of the dict. */
  lemma {:induction false} KeyAt<V>(d: Dict<V>, i: nat)
    requires i < |d|
    ensures d[i].0 in KeySet(d)
    ensures Lookup(d, d[i].0).Some?
  {
    if i > 0 {
      KeyAt(d[1..], i - 1);
    }
  }

  /** Every key of the dict sits at some position. */
  lemma {:induction false} KeyPosition<V>(d: Dict<V>, k: string) returns (i: nat)
    requires k in KeySet(d)
    ensures i < |d| && d[i].0 == k
  {
    if d[0].0 == k {
      i := 0;
    } else {
      var j := KeyPosition(d[1..], k);
      i := j + 1;
    }
  }

  /** In a dict without repeated keys the first key does not reappear. */
  lemma FirstKeyUnique<V>(d: Dict<V>)
    requires DistinctKeys(d) && |d| > 0
    ensures d[0].0 !in KeySet(d[1..])
  {
    if d[0].0 in KeySet(d[1..]) {
      var j := KeyPosition(d[1..], d[0].0);
      assert false;
    }
  }

  /** The invariant every Python dict keeps: no key appears twice. */
  predicate DistinctKeys<V>(d: Dict<V>) {
    forall i, j :: 0 <= i < j < |d| ==> d[i].0 != d[j].0
  }

  /** `d.get(k)`: the value stored under `k`, if any. */
  function Lookup<V>(d: Dict<V>, k: string): (r: Option<V>)
    ensures r.Some? <==> k in KeySet(d)
    ensures DistinctKeys(d) ==> forall i :: 0 <= i < |d| && d[i].0 == k ==> r == Some(d[i].1)
  {
    if |d| == 0 then None
    else if d[0].0 == k then Some(d[0].1)
    else Lookup(d[1..], k)
  }

  /** The value under `k` is the one at the first position holding `k`. */
  lemma {:induction false} LookupFirst<V>(d: Dict<V>, i: nat, k: string)
    requires i < |d| && d[i].0 == k
    requires forall j :: 0 <= j < i ==> d[j].0 != k
    ensures Lookup(d, k) == Some(d[i].1)
  {
    if i > 0 {
      LookupFirst(d[1..], i - 1, k);
    }
  }

  /** `d[k] = v`. */
  function Put<V>(d: Dict<V>, k: string, v: V): (r: Dict<V>)
    ensures Lookup(r, k) == Some(v)
    ensures forall x :: x != k ==> Lookup(r, x) == Lookup(d, x)
    ensures KeySet(r) == KeySet(d) + {k}
    ensures |r| >= |d| && forall i :: 0 <= i < |d| ==> r[i].0 == d[i].0
    ensures k !in KeySet(d) ==> r == d + [(k, v)]
    ensures DistinctKeys(d) ==> DistinctKeys(r)
  {
    if |d| == 0 then [(k, v)]
    else if d[0].0 == k then
      var r := [(k, v)] + d[1..];
      assert r[1..] == d[1..];
      r
    else
      var t := Put(d[1..], k, v);
      var r := [d[0]] + t;
      assert r[1..] == t;
      if DistinctKeys(d) then
        FirstKeyUnique(d);
        FreshKeyDistinct(d[0], t);
        r
      else r
  }

  /** Putting an item whose key the rest lacks in front keeps keys distinct. */
  lemma FreshKeyDistinct<V>(e: (string, V), d: Dict<V>)
    requires DistinctKeys(d) && e.0 !in KeySet(d)
    ensures DistinctKeys([e] + d)
  {
    var r := [e] + d;
    forall i, j | 0 <= i < j < |r| ensures r[i].0 != r[j].0 {
      if i == 0 {
        KeyAt(d, j - 1);
      }
    }
  }

  /** `d.update(e)`, for a dict `e`: every key of `e` takes `e`'s value, every
      other key keeps `d`'s, and `d`'s keys keep their positions. */
  function Update<V>(d: Dict<V>, e: Dict<V>): (r: Dict<V>)
    requires DistinctKeys(e)
    ensures forall x :: Lookup(r, x) == if x in KeySet(e) then Lookup(e, x) else Lookup(d, x)
    ensures KeySet(r) == KeySet(d) + KeySet(e)
    ensures |r| >= |d| && forall i :: 0 <= i < |d| ==> r[i].0 == d[i].0
    ensures DistinctKeys(d) ==> DistinctKeys(r)
    decreases |e|
  {
    if |e| == 0 then d
    else
      FirstKeyUnique(e);
      Update(Put(d, e[0].0, e[0].1), e[1..])
  }

  /** A dict with the same keys, in the same order, each value passed through `f`. */
  function MapValues<V, W>(d: Dict<V>, f: V -> W): (r: Dict<W>)
    ensures |r| == |d|
    ensures forall i :: 0 <= i < |d| ==> r[i].0 == d[i].0 && r[i].1 == f(d[i].1)
  {
    if |d| == 0 then [] else [(d[0].0, f(d[0].1))] + MapValues(d[1..], f)
  }

  /** Mapping the values keeps the keys and maps what each key finds. */
  lemma {:induction false} MapValuesLookup<V, W>(d: Dict<V>, f: V -> W, k: string)
    ensures KeySet(MapValues(d, f)) == KeySet(d)
    ensures Lookup(MapValues(d, f), k) == if k in KeySet(d) then Some(f(Lookup(d, k).value)) else None
    decreases |d|
  {
    if |d| > 0 {
      var r := MapValues(d, f);
      assert r[1..] == MapValues(d[1..], f);
      MapValuesLookup(d[1..], f, k);
    }
  }

  /** Keys strictly ascending in Python's string order. */
  predicate SortedByKey<V>(d: Dict<V>) {
    forall i, j :: 0 <= i < j < |d| ==> Less(d[i].0, d[j].0)
  }

  /** Every key of `d` lies above `x`. */
  predicate Above<V>(x: string, d: Dict<V>) {
    forall j :: 0 <= j < |d| ==> Less(x, d[j].0)
  }

  /** Insertion of an item with a new key into a key-sorted dict. */
  function InsertByKey<V>(e: (string, V), d: Dict<V>): (r: Dict<V>)
    requires SortedByKey(d) && e.0 !in KeySet(d)
    ensures SortedByKey(r)
    ensures |r| == |d| + 1
    ensures KeySet(r) == KeySet(d) + {e.0}
    ensures forall x :: Lookup(r, x) == if x == e.0 then Some(e.1) else Lookup(d, x)
    ensures forall x :: Above(x, d) && Less(x, e.0) ==> Above(x, r)
  {
    if |d| == 0 then [e]
    else if Less(e.0, d[0].0) then
      var r := [e] + d;
      assert r[1..] == d;
      assert SortedByKey(r) by {
        forall j | 0 < j < |d| ensures Less(e.0, d[j].0) {
          LessTransitive(e.0, d[0].0, d[j].0);
        }
      }
      r
    else
      LessTotal(e.0, d[0].0);
      var t := InsertByKey(e, d[1..]);
      var r := [d[0]] + t;
      assert Above(d[0].0, d[1..]);
      assert r[1..] == t;
      r
  }

  /** `sorted(d.items(), key=lambda x: x[0])` as a dict: the same items, keys ascending. */
  function SortByKey<V>(d: Dict<V>): (r: Dict<V>)
    requires DistinctKeys(d)
    ensures SortedByKey(r)
    ensures |r| == |d|
    ensures KeySet(r) == KeySet(d)
    ensures forall x :: Lookup(r, x) == Lookup(d, x)
  {
    if |d| == 0 then []
    else
      FirstKeyUnique(d);
      InsertByKey(d[0], SortByKey(d[1..]))
  }

  /** Two key-sorted dicts holding the same entries are the same sequence: the
      sorted order of a dict's items is determined by its contents alone. */
  lemma {:induction false} SortedUnique<V>(p: Dict<V>, q: Dict<V>)
    requires SortedByKey(p) && SortedByKey(q)
    requires forall x :: Lookup(p, x) == Lookup(q, x)
    ensures p == q
    decreases |p|
  {
    SortedDistinct(p);
    SortedDistinct(q);
    if |p| == 0 {
      if |q| > 0 {
        KeyAt(q, 0);
        assert false;
      }
    } else {
      KeyAt(p, 0);
      assert Lookup(q, p[0].0).Some?;
      var j := KeyPosition(q, p[0].0);
      KeyAt(q, 0);
      assert Lookup(p, q[0].0).Some?;
      var i := KeyPosition(p, q[0].0);
      if j > 0 {
        if i > 0 {
          LessAsymmetric(p[0].0, p[i].0);
        }
        assert false;
      }
      assert p[0] == q[0];
      assert q != [] && |q| >= 1;
      assert forall x :: Lookup(p[1..], x) == Lookup(q[1..], x) by {
        forall x ensures Lookup(p[1..], x) == Lookup(q[1..], x) {
          if x == p[0].0 {
            NotAfterFirst(p, x);
            NotAfterFirst(q, x);
          } else {
            assert Lookup(p, x) == Lookup(p[1..], x);
            assert Lookup(q, x) == Lookup(q[1..], x);
          }
        }
      }
      SortedUnique(p[1..], q[1..]);
      assert p == [p[0]] + p[1..] && q == [q[0]] + q[1..];
    }
  }

  /** Two dicts without repeated keys that hold the same entries: every item of
      one is an item of the other. */
  lemma {:induction false} SameEntries<V>(p: Dict<V>, q: Dict<V>, i: nat) returns (j: nat)
    requires DistinctKeys(p) && DistinctKeys(q) && i < |q|
    requires forall x :: Lookup(p, x) == Lookup(q, x)
    ensures j < |p| && p[j] == q[i]
  {
    KeyAt(q, i);
    j := KeyPosition(p, q[i].0);
  }

  /** Keys in strictly ascending order are distinct. */
  lemma SortedDistinct<V>(d: Dict<V>)
    requires SortedByKey(d)
    ensures DistinctKeys(d)
  {
    forall i, j | 0 <= i < j < |d| ensures d[i].0 != d[j].0 {
      if d[i].0 == d[j].0 {
        LessIrreflexive(d[i].0);
      }
    }
  }

  /** In a key-sorted dict the first key does not reappear. */
  lemma NotAfterFirst<V>(d: Dict<V>, x: string)
    requires SortedByKey(d) && |d| > 0 && x == d[0].0
    ensures Lookup(d[1..], x) == None
  {
    if x in KeySet(d[1..]) {
      var j := KeyPosition(d[1..], x);
      assert Less(d[0].0, d[j + 1].0);
      LessIrreflexive(x);
      assert false;
    }
  }
}
