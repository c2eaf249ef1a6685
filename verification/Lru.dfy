/** internal/bundle/bundle.go: the bundles kept in memory, the least recently used at the front. */
module Lru {
  import opened Sequences

  const SIZE := 256

  datatype Cache<V> = Cache(entries: map<string, V>, order: seq<string>)

  function Without(order: seq<string>, k: string): seq<string> {
    if order == [] then []
    else if order[0] == k then order[1..]
    else [order[0]] + Without(order[1..], k)
  }

  /** k moved, or put, at the back. */
  function Used(order: seq<string>, k: string): seq<string> {
    Without(order, k) + [k]
  }

  function Evict<V>(c: Cache<V>): Cache<V>
    decreases |c.order|
  {
    if |c.order| <= SIZE then c else Evict(Cache(c.entries - {c.order[0]}, c.order[1..]))
  }

  function Touch<V>(c: Cache<V>, k: string): Cache<V> {
    c.(order := Used(c.order, k))
  }

  function Put<V>(c: Cache<V>, k: string, v: V): Cache<V> {
    if k in c.entries then Cache(c.entries[k := v], Used(c.order, k))
    else Evict(Cache(c.entries[k := v], c.order + [k]))
  }

  ghost predicate Valid<V>(c: Cache<V>) {
    && Distinct(c.order)
    && (forall k :: k in c.order <==> k in c.entries)
    && |c.order| <= SIZE
  }

  /** When k was last used: 0 for never. */
  function Last(uses: seq<string>, k: string): (r: nat)
    ensures r <= |uses|
  {
    if uses == [] then 0
    else if uses[|uses| - 1] == k then |uses|
    else Last(uses[..|uses| - 1], k)
  }

  ghost predicate ByUse(order: seq<string>, uses: seq<string>) {
    && (forall i :: 0 <= i < |order| ==> Last(uses, order[i]) > 0)
    && (forall i, j :: 0 <= i < j < |order| ==> Last(uses, order[i]) < Last(uses, order[j]))
  }

  /** The order is that of last use, and what was evicted was used before all that was kept, and only
      once the cache was full. */
  ghost predicate Recent(order: seq<string>, uses: seq<string>) {
    && ByUse(order, uses)
    && (forall k :: Last(uses, k) > 0 && k !in order ==> |order| == SIZE && Last(uses, k) < Last(uses, order[0]))
  }

  lemma LastSnoc(uses: seq<string>, k: string, x: string)
    ensures Last(uses + [k], x) == if x == k then |uses| + 1 else Last(uses, x)
  {
    assert (uses + [k])[..|uses|] == uses;
  }

  lemma {:induction false} WithoutKeeps(order: seq<string>, k: string)
    requires Distinct(order)
    ensures Distinct(Without(order, k))
    ensures forall x :: x in Without(order, k) <==> x in order && x != k
    ensures |Without(order, k)| == if k in order then |order| - 1 else |order|
  {
    if order != [] {
      var first, rest := order[0], order[1..];
      assert order == [first] + rest && first !in rest;
      WithoutKeeps(rest, k);
    }
  }

  lemma {:induction false} WithoutAt(order: seq<string>, i: nat)
    requires i < |order| && forall k :: 0 <= k < i ==> order[k] != order[i]
    ensures Without(order, order[i]) == order[..i] + order[i + 1..]
    decreases i
  {
    if i > 0 {
      WithoutAt(order[1..], i - 1);
      assert order[..i] == [order[0]] + order[1..][..i - 1];
      assert order[1..][i..] == order[i + 1..];
    }
  }

  /** What is left keeps its order. */
  lemma {:induction false} WithoutRecent(order: seq<string>, k: string, uses: seq<string>)
    requires forall i, j :: 0 <= i < j < |order| ==> Last(uses, order[i]) < Last(uses, order[j])
    ensures var w := Without(order, k); forall i, j :: 0 <= i < j < |w| ==> Last(uses, w[i]) < Last(uses, w[j])
    ensures var w := Without(order, k); w != [] ==> order != [] && Last(uses, order[0]) <= Last(uses, w[0])
    ensures var w := Without(order, k); forall i :: 0 <= i < |w| ==> w[i] in order
  {
    hide Last;
    if order != [] && order[0] != k {
      var rest := order[1..];
      WithoutRecent(rest, k, uses);
      var w := Without(rest, k);
      forall i | 0 <= i < |w| ensures Last(uses, order[0]) < Last(uses, w[i]) {
        assert w[i] in rest;
      }
    }
  }

  /** Using a key that is in the cache. */
  lemma UsedRecent(order: seq<string>, k: string, uses: seq<string>)
    requires Distinct(order) && Recent(order, uses) && k in order
    ensures Recent(Used(order, k), uses + [k]) && Distinct(Used(order, k)) && |Used(order, k)| == |order|
    ensures forall x :: x in Used(order, k) <==> x in order
  {
    hide Last, Without;
    WithoutKeeps(order, k);
    WithoutRecent(order, k, uses);
    var w := Without(order, k);
    forall x ensures Last(uses + [k], x) == if x == k then |uses| + 1 else Last(uses, x) {
      LastSnoc(uses, k, x);
    }
    assert forall i :: 0 <= i < |w| ==> w[i] in w;
  }

  /** A key used for the first time goes to the back. */
  lemma AppendedByUse(order: seq<string>, k: string, uses: seq<string>)
    requires Distinct(order) && ByUse(order, uses) && k !in order
    ensures ByUse(order + [k], uses + [k]) && Distinct(order + [k])
  {
    hide Last;
    LastAfter(order, k, uses);
  }

  lemma AppendedRecent(order: seq<string>, k: string, uses: seq<string>)
    requires Distinct(order) && Recent(order, uses) && k !in order && |order| < SIZE
    ensures Recent(order + [k], uses + [k]) && Distinct(order + [k])
  {
    AppendedByUse(order, k, uses);
    hide Last, ByUse, Distinct;
    forall x ensures Last(uses + [k], x) > 0 ==> x in order + [k] {
      LastSnoc(uses, k, x);
      assert (order + [k])[|order|] == k;
    }
  }

  /** Dropping the front of a full order. */
  lemma EvictedRecent(order: seq<string>, k: string, uses: seq<string>)
    requires Distinct(order) && Recent(order, uses) && k !in order && |order| == SIZE
    ensures Recent(order[1..] + [k], uses + [k]) && Distinct(order[1..] + [k])
  {
    hide Last;
    var next, now := order[1..] + [k], uses + [k];
    TailByUse(order, uses);
    AppendedByUse(order[1..], k, uses);
    forall x | Last(now, x) > 0 && x !in next ensures Last(now, x) < Last(now, next[0]) {
      OlderThanKept(order, k, uses, x);
    }
    hide Distinct, ByUse;
  }

  lemma TailByUse(order: seq<string>, uses: seq<string>)
    requires order != [] && Distinct(order) && ByUse(order, uses)
    ensures Distinct(order[1..]) && ByUse(order[1..], uses)
  {
    hide Last;
    var kept := order[1..];
    assert forall i :: 0 <= i < |kept| ==> kept[i] == order[i + 1];
  }

  /** What an eviction leaves out was used before all it keeps. */
  lemma OlderThanKept(order: seq<string>, k: string, uses: seq<string>, x: string)
    requires Recent(order, uses) && k !in order && |order| == SIZE
    requires Last(uses + [k], x) > 0 && x !in order[1..] + [k]
    ensures Last(uses + [k], x) < Last(uses + [k], order[1])
  {
    hide Last;
    var next := order[1..] + [k];
    LastSnoc(uses, k, x);
    LastSnoc(uses, k, order[1]);
    assert next[|next| - 1] == k && next[0] == order[1];
    assert order == [order[0]] + order[1..];
  }

  lemma LastAfter(order: seq<string>, k: string, uses: seq<string>)
    requires k !in order
    ensures forall i :: 0 <= i < |order| ==> Last(uses + [k], order[i]) == Last(uses, order[i])
    ensures Last(uses + [k], k) == |uses| + 1
  {
    hide Last;
    LastSnoc(uses, k, k);
    forall i | 0 <= i < |order| ensures Last(uses + [k], order[i]) == Last(uses, order[i]) {
      LastSnoc(uses, k, order[i]);
    }
  }

  /** touch keeps the cache in order. */
  lemma TouchKeeps<V>(c: Cache<V>, k: string, uses: seq<string>)
    requires Valid(c) && Recent(c.order, uses) && k in c.entries
    ensures Valid(Touch(c, k)) && Recent(Touch(c, k).order, uses + [k])
  {
    hide Recent, Used;
    UsedRecent(c.order, k, uses);
  }

  /** lruPut stores the bundle, and costs at most the entry used longest ago. */
  lemma PutKeeps<V>(c: Cache<V>, k: string, v: V, uses: seq<string>)
    requires Valid(c) && Recent(c.order, uses)
    ensures Valid(Put(c, k, v)) && Recent(Put(c, k, v).order, uses + [k])
    ensures k in Put(c, k, v).entries && Put(c, k, v).entries[k] == v
    ensures forall x :: x in Put(c, k, v).entries && x != k ==> x in c.entries && Put(c, k, v).entries[x] == c.entries[x]
    ensures forall x :: x in c.entries && x !in Put(c, k, v).entries ==> |c.order| == SIZE && k !in c.entries && x == c.order[0]
  {
    hide Recent, Used;
    if k in c.entries {
      UsedRecent(c.order, k, uses);
    } else if |c.order| < SIZE {
      AppendedRecent(c.order, k, uses);
    } else {
      EvictedRecent(c.order, k, uses);
      assert c.order[0] in c.order;
      OldestGone(c, k, v);
    }
  }

  lemma OldestGone<V>(c: Cache<V>, k: string, v: V)
    requires Valid(c) && k !in c.entries && |c.order| == SIZE
    ensures Put(c, k, v) == Cache(c.entries[k := v] - {c.order[0]}, c.order[1..] + [k])
    ensures forall x :: x in c.order[1..] + [k] <==> x in c.entries[k := v] - {c.order[0]}
  {
    var full := c.order + [k];
    assert full[1..] == c.order[1..] + [k] && full[0] == c.order[0];
    assert c.order == [c.order[0]] + c.order[1..];
    assert k !in c.order;
    var left := Cache(c.entries[k := v] - {full[0]}, full[1..]);
    assert Evict(left) == left;
    assert Evict(Cache(c.entries[k := v], full)) == Evict(left);
  }
}
