/**
  Grouping with a sum, as a database does for `values(key).annotate(Sum(w))`:
  a fold over a sequence of (key, weight) entries that keeps one bucket per
  distinct key, in order of first appearance, holding the sum of that key's
  weights. The reference definition it is proved against is the plain sum of
  the weights of one key.
 */
module Grouping {

  datatype Bucket<K> = Bucket(key: K, total: int)

  /** The sum of the weights of the entries whose key is `k`. */
  function SumFor<K(==)>(entries: seq<(K, int)>, k: K): int {
    if entries == [] then 0
    else
      var last := entries[|entries| - 1];
      SumFor(entries[..|entries| - 1], k) + (if last.0 == k then last.1 else 0)
  }

  /** The sum of all weights. */
  function SumAll<K>(entries: seq<(K, int)>): int {
    if entries == [] then 0
    else SumAll(entries[..|entries| - 1]) + entries[|entries| - 1].1
  }

  function KeysOf<K>(entries: seq<(K, int)>): set<K> {
    set i | 0 <= i < |entries| :: entries[i].0
  }

  /** The total of the first bucket for `k`, or 0 when there is none. */
  function Lookup<K(==)>(bs: seq<Bucket<K>>, k: K): int {
    if bs == [] then 0
    else if bs[0].key == k then bs[0].total
    else Lookup(bs[1..], k)
  }

  function BucketKeys<K>(bs: seq<Bucket<K>>): set<K> {
    set i | 0 <= i < |bs| :: bs[i].key
  }

  ghost predicate DistinctKeys<K>(bs: seq<Bucket<K>>) {
    forall i, j :: 0 <= i < j < |bs| ==> bs[i].key != bs[j].key
  }

  lemma BucketKeysCons<K>(b: Bucket<K>, bs: seq<Bucket<K>>)
    ensures BucketKeys([b] + bs) == {b.key} + BucketKeys(bs)
  {
    var c := [b] + bs;
    forall x | x in BucketKeys(c) ensures x in {b.key} + BucketKeys(bs) {
      var i :| 0 <= i < |c| && c[i].key == x;
      if i > 0 { assert bs[i - 1].key == x; }
    }
    forall x | x in BucketKeys(bs) ensures x in BucketKeys(c) {
      var i :| 0 <= i < |bs| && bs[i].key == x;
      assert c[i + 1].key == x;
    }
    assert c[0].key == b.key;
  }

  lemma DistinctKeysCons<K>(b: Bucket<K>, bs: seq<Bucket<K>>)
    ensures DistinctKeys([b] + bs) <==> b.key !in BucketKeys(bs) && DistinctKeys(bs)
  {
    var c := [b] + bs;
    if DistinctKeys(c) {
      forall i, j | 0 <= i < j < |bs| ensures bs[i].key != bs[j].key {
        assert c[i + 1] == bs[i] && c[j + 1] == bs[j];
      }
      forall i | 0 <= i < |bs| ensures bs[i].key != b.key {
        assert c[i + 1] == bs[i] && c[0] == b;
        assert 0 < i + 1 < |c|;
      }
    }
    if b.key !in BucketKeys(bs) && DistinctKeys(bs) {
      forall i, j | 0 <= i < j < |c| ensures c[i].key != c[j].key {
        assert c[j] == bs[j - 1];
        if i > 0 { assert c[i] == bs[i - 1]; } else { assert bs[j - 1].key in BucketKeys(bs); }
      }
    }
  }

  function Totals<K>(bs: seq<Bucket<K>>): int {
    if bs == [] then 0 else bs[0].total + Totals(bs[1..])
  }

  /** With distinct keys, the lookup of a bucket's key finds that bucket. */
  lemma {:induction false} LookupAt<K>(bs: seq<Bucket<K>>, i: nat)
    requires DistinctKeys(bs) && i < |bs|
    ensures Lookup(bs, bs[i].key) == bs[i].total
  {
    if i > 0 {
      DistinctKeysCons(bs[0], bs[1..]);
      assert [bs[0]] + bs[1..] == bs;
      assert bs[1..][i - 1] == bs[i];
      LookupAt(bs[1..], i - 1);
    }
  }

  /** Adds weight `w` to the bucket of `k`, opening one at the end when `k`
      has none yet. */
  function Add<K(==,!new)>(bs: seq<Bucket<K>>, k: K, w: int): (r: seq<Bucket<K>>)
    ensures BucketKeys(r) == BucketKeys(bs) + {k}
    ensures DistinctKeys(bs) ==> DistinctKeys(r)
    ensures forall j :: Lookup(r, j) == Lookup(bs, j) + (if j == k then w else 0)
    ensures Totals(r) == Totals(bs) + w
  {
    if bs == [] then
      assert BucketKeys([Bucket(k, w)]) == {k} by { assert [Bucket(k, w)][0].key == k; }
      [Bucket(k, w)]
    else if bs[0].key == k then
      BucketKeysCons(bs[0], bs[1..]);
      BucketKeysCons(Bucket(k, bs[0].total + w), bs[1..]);
      DistinctKeysCons(bs[0], bs[1..]);
      DistinctKeysCons(Bucket(k, bs[0].total + w), bs[1..]);
      assert [bs[0]] + bs[1..] == bs;
      [Bucket(k, bs[0].total + w)] + bs[1..]
    else
      var rest := Add(bs[1..], k, w);
      BucketKeysCons(bs[0], bs[1..]);
      BucketKeysCons(bs[0], rest);
      DistinctKeysCons(bs[0], bs[1..]);
      DistinctKeysCons(bs[0], rest);
      assert [bs[0]] + bs[1..] == bs;
      [bs[0]] + rest
  }

  /** Folds the entries, in order, into their buckets. */
  function Group<K(==,!new)>(entries: seq<(K, int)>): (r: seq<Bucket<K>>)
    ensures DistinctKeys(r)
    ensures BucketKeys(r) == KeysOf(entries)
    ensures forall k :: Lookup(r, k) == SumFor(entries, k)
    ensures Totals(r) == SumAll(entries)
  {
    if entries == [] then []
    else
      var last := entries[|entries| - 1];
      Add(Group(entries[..|entries| - 1]), last.0, last.1)
  }
}
