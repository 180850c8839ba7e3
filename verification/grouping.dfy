/** The "count per key" aggregation the console draws as pie and bar charts:
    a list of `{ name, value }` buckets, one per distinct key, in order of
    first appearance (Reports.tsx builds it with `reduce` and `find`;
    db.ts with an object used as a dictionary). */
module Grouping {
  import opened Seqs

  datatype Bucket = Bucket(name: string, value: nat)

  function Names(bs: seq<Bucket>): (r: seq<string>)
    ensures |r| == |bs|
    ensures forall i :: 0 <= i < |bs| ==> r[i] == bs[i].name
    decreases |bs|
  {
    if |bs| == 0 then [] else [bs[0].name] + Names(bs[1..])
  }

  /** The value of the first bucket called `k`, or 0 when there is none. */
  function ValueOf(bs: seq<Bucket>, k: string): nat
    decreases |bs|
  {
    if |bs| == 0 then 0
    else if bs[0].name == k then bs[0].value
    else ValueOf(bs[1..], k)
  }

  /** The sum of all bucket values. */
  function Total(bs: seq<Bucket>): nat
    decreases |bs|
  {
    if |bs| == 0 then 0 else bs[0].value + Total(bs[1..])
  }

  /** One step of the fold: bump the bucket called `key`, or append a new
      bucket with value 1 when there is none yet. */
  function Tally(bs: seq<Bucket>, key: string): (r: seq<Bucket>)
    ensures forall k :: ValueOf(r, k) == ValueOf(bs, k) + (if k == key then 1 else 0)
    ensures Total(r) == Total(bs) + 1
    ensures key in Names(bs) ==> Names(r) == Names(bs)
    ensures key !in Names(bs) ==> Names(r) == Names(bs) + [key]
    decreases |bs|
  {
    if |bs| == 0 then [Bucket(key, 1)]
    else if bs[0].name == key then
      var r := [bs[0].(value := bs[0].value + 1)] + bs[1..];
      assert r[1..] == bs[1..];
      r
    else
      var rest := Tally(bs[1..], key);
      var r := [bs[0]] + rest;
      assert r[1..] == rest;
      assert Names(bs) == [bs[0].name] + Names(bs[1..]);
      r
  }

  /** Counts the occurrences of every key: one bucket per distinct key, in
      order of first appearance, whose value is the key's multiplicity. */
  function GroupCount(keys: seq<string>): (r: seq<Bucket>)
    ensures Distinct(Names(r))
    ensures forall k :: k in Names(r) ==> k in keys
    ensures forall k :: k in keys ==> k in Names(r)
    ensures forall k :: ValueOf(r, k) == multiset(keys)[k]
    ensures Total(r) == |keys|
    ensures forall i, j :: 0 <= i < j < |r| ==> FirstIndex(keys, r[i].name) < FirstIndex(keys, r[j].name)
    decreases |keys|
  {
    if |keys| == 0 then []
    else
      var pre := keys[..|keys| - 1];
      var last := keys[|keys| - 1];
      assert keys == pre + [last];
      var acc := GroupCount(pre);
      var r := Tally(acc, last);
      TallyKeepsDistinct(acc, last);
      TallyKeys(acc, pre, last);
      TallyCounts(acc, pre, last);
      TallyOrder(acc, pre, last);
      r
  }

  lemma TallyKeepsDistinct(acc: seq<Bucket>, last: string)
    requires Distinct(Names(acc))
    ensures Distinct(Names(Tally(acc, last)))
  {
    var n := Names(acc);
    if last !in n {
      var m := n + [last];
      forall i, j | 0 <= i < j < |m| ensures m[i] != m[j] {
        if j == |n| {
          assert m[i] == n[i];
        } else {
          assert m[i] == n[i] && m[j] == n[j];
        }
      }
    }
  }

  lemma TallyKeys(acc: seq<Bucket>, pre: seq<string>, last: string)
    requires forall k :: k in Names(acc) ==> k in pre
    requires forall k :: k in pre ==> k in Names(acc)
    ensures forall k :: k in Names(Tally(acc, last)) ==> k in pre + [last]
    ensures forall k :: k in pre + [last] ==> k in Names(Tally(acc, last))
  {
  }

  lemma TallyCounts(acc: seq<Bucket>, pre: seq<string>, last: string)
    requires forall k :: ValueOf(acc, k) == multiset(pre)[k]
    requires Total(acc) == |pre|
    ensures forall k :: ValueOf(Tally(acc, last), k) == multiset(pre + [last])[k]
    ensures Total(Tally(acc, last)) == |pre + [last]|
  {
    assert multiset(pre + [last]) == multiset(pre) + multiset{last};
  }

  lemma TallyOrder(acc: seq<Bucket>, pre: seq<string>, last: string)
    requires forall k :: k in Names(acc) ==> k in pre
    requires forall k :: k in pre ==> k in Names(acc)
    requires forall i, j :: 0 <= i < j < |acc| ==> FirstIndex(pre, acc[i].name) < FirstIndex(pre, acc[j].name)
    ensures forall k :: k in Names(Tally(acc, last)) ==> k in pre + [last]
    ensures var r := Tally(acc, last);
      forall i, j :: 0 <= i < j < |r| ==> FirstIndex(pre + [last], r[i].name) < FirstIndex(pre + [last], r[j].name)
  {
    TallyKeys(acc, pre, last);
    var r := Tally(acc, last);
    var keys := pre + [last];
    FirstIndexExtend(pre, last);
    forall i, j | 0 <= i < j < |r|
      ensures FirstIndex(keys, r[i].name) < FirstIndex(keys, r[j].name)
    {
      assert r[i].name == Names(r)[i] && r[j].name == Names(r)[j];
      assert Names(r)[i] == Names(acc)[i];
      if j < |acc| {
        assert Names(r)[j] == Names(acc)[j];
        assert acc[i].name in pre && acc[j].name in pre;
      } else {
        assert acc[i].name in pre;
        assert FirstIndex(pre, acc[i].name) < |pre|;
      }
    }
  }

  /** Appending an element does not move the first occurrence of anything already present. */
  lemma FirstIndexExtend<T>(s: seq<T>, y: T)
    ensures forall x :: x in s ==> FirstIndex(s + [y], x) == FirstIndex(s, x)
    ensures y !in s ==> FirstIndex(s + [y], y) == |s|
  {
    forall x | x in s
      ensures FirstIndex(s + [y], x) == FirstIndex(s, x)
    {
      var b := FirstIndex(s, x);
      assert (s + [y])[b] == x;
    }
    if y !in s {
      assert (s + [y])[|s|] == y;
    }
  }
}
