/** internal/search/vector.go: the k best rows by a bounded heap. */
module TopK {
  import opened Sequences
  import opened Strings

  datatype VecHit = VecHit(id: string, score: real)

  /** minHeap.Less: a ranks below b.  Equal scores rank the larger id lower. */
  predicate Worse(a: VecHit, b: VecHit) {
    a.score < b.score || (a.score == b.score && Less(b.id, a.id))
  }

  lemma WorseTransitive(a: VecHit, b: VecHit, c: VecHit)
    requires Worse(a, b) && Worse(b, c)
    ensures Worse(a, c)
  {
    hide Less;
    if a.score == b.score == c.score {
      LessTransitive(c.id, b.id, a.id);
    }
  }

  lemma WorseTotal(a: VecHit, b: VecHit)
    ensures Worse(a, b) || a == b || Worse(b, a)
    ensures Worse(a, b) ==> !Worse(b, a) && a != b
  {
    hide Less;
    LessTotal(a.id, b.id);
    LessIrreflexive(a.id);
    if Less(a.id, b.id) {
      LessAsymmetric(a.id, b.id);
    }
    if Less(b.id, a.id) {
      LessAsymmetric(b.id, a.id);
    }
  }

  /** b is no worse than a, through c. */
  lemma NotWorseTransitive(a: VecHit, b: VecHit, c: VecHit)
    requires !Worse(b, a) && !Worse(c, b)
    ensures !Worse(c, a)
  {
    hide Worse;
    WorseTotal(a, b);
    WorseTotal(b, c);
    WorseTotal(c, a);
    if Worse(a, b) && Worse(b, c) {
      WorseTransitive(a, b, c);
    }
  }

  // ----- the heap -----

  function Parent(i: nat): nat
    requires i > 0
  {
    (i - 1) / 2
  }

  /** Among the first n, no child ranks below its parent. */
  ghost predicate IsHeap(h: seq<VecHit>, n: nat)
    requires n <= |h|
  {
    forall i :: 0 < i < n ==> !Worse(h[i], h[Parent(i)])
  }

  /** A heap but for k against its parent. */
  ghost predicate HeapUpTo(h: seq<VecHit>, k: nat) {
    && (forall i :: 0 < i < |h| && i != k ==> !Worse(h[i], h[Parent(i)]))
    && forall i :: 0 < i < |h| && Parent(i) == k && k > 0 ==> !Worse(h[i], h[Parent(k)])
  }

  /** Among the first n a heap but for k against its children. */
  ghost predicate HeapBelow(h: seq<VecHit>, n: nat, k: nat)
    requires n <= |h|
  {
    && (forall i :: 0 < i < n && Parent(i) != k ==> !Worse(h[i], h[Parent(i)]))
    && forall i :: 0 < i < n && Parent(i) == k && k > 0 ==> !Worse(h[i], h[Parent(k)])
  }

  lemma {:induction false} RootIsWorst(h: seq<VecHit>, n: nat, i: nat)
    requires i < n <= |h| && IsHeap(h, n)
    ensures !Worse(h[i], h[0])
    decreases i
  {
    hide Worse;
    if i > 0 {
      RootIsWorst(h, n, Parent(i));
      NotWorseTransitive(h[0], h[Parent(i)], h[i]);
    } else {
      WorseTotal(h[0], h[0]);
    }
  }

  function Swapped(h: seq<VecHit>, i: nat, j: nat): seq<VecHit>
    requires i < |h| && j < |h|
  {
    h[i := h[j]][j := h[i]]
  }

  lemma SwapKeeps(h: seq<VecHit>, i: nat, j: nat)
    requires i < |h| && j < |h|
    ensures multiset(Swapped(h, i, j)) == multiset(h)
  {}

  lemma SwapUp(h: seq<VecHit>, j: nat)
    requires 0 < j < |h| && HeapUpTo(h, j) && Worse(h[j], h[Parent(j)])
    ensures HeapUpTo(Swapped(h, Parent(j), j), Parent(j))
  {
    hide Worse;
    var p := Parent(j);
    var s := Swapped(h, p, j);
    WorseTotal(h[j], h[p]);
    forall i | 0 < i < |s| && i != p ensures !Worse(s[i], s[Parent(i)]) {
      if i != j && Parent(i) == p {
        NotWorseTransitive(h[j], h[p], h[i]);
      }
    }
    forall i | 0 < i < |s| && Parent(i) == p && p > 0 ensures !Worse(s[i], s[Parent(p)]) {
      if i != j {
        NotWorseTransitive(h[Parent(p)], h[p], h[i]);
      }
    }
  }

  lemma SwapDown(h: seq<VecHit>, n: nat, i: nat, j: nat)
    requires n <= |h| && 0 < j < n && Parent(j) == i && HeapBelow(h, n, i) && Worse(h[j], h[i])
    requires forall c :: 0 < c < n && Parent(c) == i ==> !Worse(h[c], h[j])
    ensures HeapBelow(Swapped(h, i, j), n, j)
  {
    hide Worse;
    var s := Swapped(h, i, j);
    WorseTotal(h[j], h[i]);
    forall c | 0 < c < n && Parent(c) != j ensures !Worse(s[c], s[Parent(c)]) {
    }
    forall c | 0 < c < n && Parent(c) == j ensures !Worse(s[c], s[Parent(j)]) {
      assert !Worse(h[c], h[j]);
    }
  }

  class MinHeap {
    var h: seq<VecHit>

    constructor ()
      ensures h == []
    {
      h := [];
    }

    /** heap.up. */
    method Up(start: nat)
      requires start < |h| && HeapUpTo(h, start)
      modifies this
      ensures IsHeap(h, |h|) && multiset(h) == old(multiset(h))
    {
      hide Worse;
      var j: nat := start;
      while j > 0
        invariant j < |h| && HeapUpTo(h, j)
        invariant multiset(h) == old(multiset(h))
      {
        var i := Parent(j);
        var less := Worse(h[j], h[i]);
        if !less {
          break;
        }
        SwapUp(h, j);
        SwapKeeps(h, i, j);
        h := Swapped(h, i, j);
        j := i;
      }
    }

    /** heap.down over the first n. */
    method Down(start: nat, n: nat)
      requires n <= |h| && HeapBelow(h, n, start)
      modifies this
      ensures |h| == old(|h|) && h[n..] == old(h[n..])
      ensures IsHeap(h, n) && multiset(h) == old(multiset(h))
    {
      hide Worse, HeapBelow, IsHeap;
      var i := start;
      while 2 * i + 1 < n
        invariant n <= |h| == old(|h|) && HeapBelow(h, n, i)
        invariant multiset(h) == old(multiset(h)) && h[n..] == old(h[n..])
        decreases n - i
      {
        var j := 2 * i + 1;
        if j + 1 < n && Worse(h[j + 1], h[j]) {
          j := j + 1;
        }
        SmallerChild(h, n, i, j);
        if !Worse(h[j], h[i]) {
          ChildrenAbove(h, n, i, j);
          return;
        }
        SwapDown(h, n, i, j);
        SwapKeeps(h, i, j);
        assert Swapped(h, i, j)[n..] == h[n..];
        h := Swapped(h, i, j);
        i := j;
      }
      Childless(h, n, i);
    }

    /** heap.Push. */
    method Push(x: VecHit)
      requires IsHeap(h, |h|)
      modifies this
      ensures IsHeap(h, |h|) && multiset(h) == old(multiset(h)) + multiset{x}
    {
      hide Worse;
      h := h + [x];
      Up(|h| - 1);
    }

    /** Overwrite the root and heap.Fix(h, 0). */
    method ReplaceRoot(x: VecHit)
      requires IsHeap(h, |h|) && h != []
      modifies this
      ensures IsHeap(h, |h|) && multiset(h) == old(multiset(h)) - multiset{old(h[0])} + multiset{x}
    {
      hide Worse;
      assert h == [h[0]] + h[1..];
      h := h[0 := x];
      assert h == [x] + old(h)[1..];
      Down(0, |h|);
    }

    /** One row of the scan: grow to k, then replace the root by anything that scores higher. */
    method Offer(x: VecHit, k: nat, ghost hits: seq<VecHit>)
      requires k > 0 && IsHeap(h, |h|) && multiset(h) == multiset(Scan(hits, k))
      modifies this
      ensures IsHeap(h, |h|) && multiset(h) == multiset(Scan(hits + [x], k))
    {
      hide Worse, Scan, IsHeap;
      HeapStep(h, hits, x, k);
      if |h| < k {
        Push(x);
      } else if x.score > h[0].score {
        ReplaceRoot(x);
      }
    }

    /** heap.Pop. */
    method Pop() returns (x: VecHit)
      requires IsHeap(h, |h|) && h != []
      modifies this
      ensures IsHeap(h, |h|) && x == old(h[0]) && multiset(h) == old(multiset(h)) - multiset{x}
      ensures |h| == old(|h|) - 1
    {
      hide Worse;
      var n := |h| - 1;
      SwapKeeps(h, 0, n);
      h := Swapped(h, 0, n);
      Down(0, n);
      assert h[n..] == [h[n]];
      x := h[n];
      assert h == h[..n] + [h[n]];
      h := h[..n];
    }
  }

  lemma Childless(h: seq<VecHit>, n: nat, i: nat)
    requires n <= |h| && HeapBelow(h, n, i) && 2 * i + 1 >= n
    ensures IsHeap(h, n)
  {}

  lemma SmallerChild(h: seq<VecHit>, n: nat, i: nat, j: nat)
    requires n <= |h| && 2 * i + 1 < n
    requires j == if 2 * i + 2 < n && Worse(h[2 * i + 2], h[2 * i + 1]) then 2 * i + 2 else 2 * i + 1
    ensures 0 < j < n && Parent(j) == i
    ensures forall c :: 0 < c < n && Parent(c) == i ==> !Worse(h[c], h[j])
  {
    hide Worse;
    WorseTotal(h[j], h[j]);
    if 2 * i + 2 < n {
      WorseTotal(h[2 * i + 2], h[2 * i + 1]);
    }
  }

  lemma ChildrenAbove(h: seq<VecHit>, n: nat, i: nat, j: nat)
    requires n <= |h| && i < n && j < n && HeapBelow(h, n, i) && !Worse(h[j], h[i])
    requires forall c :: 0 < c < n && Parent(c) == i ==> !Worse(h[c], h[j])
    ensures IsHeap(h, n)
  {
    hide Worse;
    forall c | 0 < c < n ensures !Worse(h[c], h[Parent(c)]) {
      if Parent(c) == i {
        NotWorseTransitive(h[i], h[j], h[c]);
      }
    }
  }

  // ----- the same selection on a sorted list -----

  /** Best first. */
  ghost predicate Sorted(l: seq<VecHit>) {
    forall i, j :: 0 <= i < j < |l| ==> !Worse(l[i], l[j])
  }

  /** Scores fall, and of equal ones the smaller id is first. */
  lemma SortedMeans(l: seq<VecHit>)
    requires Sorted(l)
    ensures forall i, j :: 0 <= i < j < |l| ==>
      l[i].score >= l[j].score && (l[i].score == l[j].score ==> !Less(l[j].id, l[i].id))
  {
    hide Less;
    forall i, j | 0 <= i < j < |l|
      ensures l[i].score >= l[j].score && (l[i].score == l[j].score ==> !Less(l[j].id, l[i].id))
    {
      assert !Worse(l[i], l[j]);
    }
  }

  /** Number of leading hits that x ranks below. */
  function Position(l: seq<VecHit>, x: VecHit): (p: nat)
    ensures p <= |l|
    ensures forall i :: 0 <= i < p ==> !Worse(l[i], x)
    ensures p < |l| ==> Worse(l[p], x)
  {
    if l == [] || Worse(l[0], x) then 0 else 1 + Position(l[1..], x)
  }

  function Insert(l: seq<VecHit>, x: VecHit): seq<VecHit> {
    l[..Position(l, x)] + [x] + l[Position(l, x)..]
  }

  /** The full sort. */
  function Sort(hits: seq<VecHit>): seq<VecHit> {
    if hits == [] then [] else Insert(Sort(hits[..|hits| - 1]), hits[|hits| - 1])
  }

  /** The k kept so far, best first, when the scan meets x. */
  function Keep(l: seq<VecHit>, x: VecHit, k: nat): seq<VecHit>
    requires k > 0
  {
    if |l| < k then Insert(l, x)
    else if x.score > l[|l| - 1].score then Insert(l[..|l| - 1], x)
    else l
  }

  function Scan(hits: seq<VecHit>, k: nat): seq<VecHit>
    requires k > 0
  {
    if hits == [] then [] else Keep(Scan(hits[..|hits| - 1], k), hits[|hits| - 1], k)
  }

  lemma InsertSorted(l: seq<VecHit>, x: VecHit)
    requires Sorted(l)
    ensures Sorted(Insert(l, x)) && multiset(Insert(l, x)) == multiset(l) + multiset{x} && |Insert(l, x)| == |l| + 1
  {
    hide Worse;
    var p := Position(l, x);
    var r := Insert(l, x);
    assert l == l[..p] + l[p..];
    forall i, j | 0 <= i < j < |r| ensures !Worse(r[i], r[j]) {
      if j == p {
        assert r[i] == l[i] && r[j] == x;
      } else if i == p {
        WorseTotal(l[p], x);
        if j - 1 > p {
          NotWorseTransitive(l[j - 1], l[p], x);
        }
      }
    }
  }

  /** What the scan let go. */
  function Dropped(hits: seq<VecHit>, k: nat): seq<VecHit>
    requires k > 0
  {
    if hits == [] then []
    else
      var kept, x := Scan(hits[..|hits| - 1], k), hits[|hits| - 1];
      Dropped(hits[..|hits| - 1], k) +
      if |kept| < k then [] else if x.score > kept[|kept| - 1].score then [kept[|kept| - 1]] else [x]
  }

  /** min(k, all) hits are kept, best first, and whatever is not kept scores no higher than anything kept. */
  lemma {:induction false} ScanKeepsBest(hits: seq<VecHit>, k: nat)
    requires k > 0
    ensures Sorted(Scan(hits, k))
    ensures |Scan(hits, k)| == (if |hits| < k then |hits| else k) && (|hits| <= k ==> Dropped(hits, k) == [])
    ensures multiset(hits) == multiset(Scan(hits, k)) + multiset(Dropped(hits, k))
    ensures Below(Dropped(hits, k), Scan(hits, k))
  {
    hide Sorted, Below, Keep;
    if hits == [] {
      NothingSorted();
    } else {
      var l := |hits| - 1;
      ScanKeepsBest(hits[..l], k);
      ScanUnfolds(hits, k);
      hide Scan, Dropped;
      KeepStep(Scan(hits[..l], k), Dropped(hits[..l], k), hits[l], k);
      FrontOf(hits);
    }
  }

  lemma ScanUnfolds(hits: seq<VecHit>, k: nat)
    requires hits != [] && k > 0
    ensures var l := |hits| - 1;
            var kept, gone, x := Scan(hits[..l], k), Dropped(hits[..l], k), hits[l];
            && Scan(hits, k) == Keep(kept, x, k)
            && (|kept| < k ==> Dropped(hits, k) == gone)
            && Dropped(hits, k) == gone + if |kept| < k then [] else if x.score > kept[|kept| - 1].score then [kept[|kept| - 1]] else [x]
  {
    hide Keep;
  }

  lemma FrontOf(l: seq<VecHit>)
    requires l != []
    ensures multiset(l) == multiset(l[..|l| - 1]) + multiset{l[|l| - 1]}
    ensures multiset(l[..|l| - 1]) == multiset(l) - multiset{l[|l| - 1]}
  {
    assert l == l[..|l| - 1] + [l[|l| - 1]];
  }

  lemma NothingSorted()
    ensures Sorted([]) && Below([], [])
  {}

  /** Nothing in gone scores above anything in kept. */
  ghost predicate Below(gone: seq<VecHit>, kept: seq<VecHit>) {
    forall i, j :: 0 <= i < |gone| && 0 <= j < |kept| ==> gone[i].score <= kept[j].score
  }

  lemma LastIsLowest(kept: seq<VecHit>)
    requires kept != [] && Sorted(kept)
    ensures Below([kept[|kept| - 1]], kept)
  {
    hide Less;
    var last := kept[|kept| - 1];
    forall j | 0 <= j < |kept| ensures last.score <= kept[j].score {
      assert j < |kept| - 1 ==> !Worse(kept[j], last);
    }
  }

  lemma Evict(kept: seq<VecHit>, gone: seq<VecHit>, x: VecHit)
    requires kept != [] && Sorted(kept) && Below(gone, kept) && x.score > kept[|kept| - 1].score
    ensures var front, last := kept[..|kept| - 1], kept[|kept| - 1];
            && Sorted(Insert(front, x)) && |Insert(front, x)| == |kept|
            && multiset(Insert(front, x)) + multiset(gone + [last]) == multiset(kept) + multiset(gone) + multiset{x}
            && Below(gone + [last], Insert(front, x))
  {
    hide Insert, Worse;
    var front, last := kept[..|kept| - 1], kept[|kept| - 1];
    assert kept == front + [last];
    assert Sorted(front);
    InsertSorted(front, x);
    LastIsLowest(kept);
    var kept' := Insert(front, x);
    forall i, j | 0 <= i < |gone + [last]| && 0 <= j < |kept'| ensures (gone + [last])[i].score <= kept'[j].score {
      var g := (gone + [last])[i];
      assert g == last || g == gone[i];
      assert g.score <= last.score by { assert i < |gone| ==> gone[i].score <= kept[|kept| - 1].score; }
      assert kept'[j] in multiset(kept');
      if kept'[j] != x {
        assert kept'[j] in multiset(front);
        var m :| 0 <= m < |front| && front[m] == kept'[j];
        assert last.score <= kept[m].score by { assert [last][0].score <= kept[m].score; }
      }
    }
  }

  lemma KeepStep(kept: seq<VecHit>, gone: seq<VecHit>, x: VecHit, k: nat)
    requires k > 0 && |kept| <= k && Sorted(kept)
    requires |kept| < k ==> gone == []
    requires Below(gone, kept)
    ensures var kept' := Keep(kept, x, k);
            var gone' := gone + if |kept| < k then [] else if x.score > kept[|kept| - 1].score then [kept[|kept| - 1]] else [x];
            && Sorted(kept') && |kept'| == (if |kept| < k then |kept| + 1 else k)
            && multiset(kept') + multiset(gone') == multiset(kept) + multiset(gone) + multiset{x}
            && Below(gone', kept')
  {
    hide Insert, Worse, Sorted;
    if |kept| < k {
      InsertSorted(kept, x);
    } else if x.score > kept[|kept| - 1].score {
      Evict(kept, gone, x);
    } else {
      LastIsLowest(kept);
      forall j | 0 <= j < |kept| ensures x.score <= kept[j].score {
        assert [kept[|kept| - 1]][0].score <= kept[j].score;
      }
    }
  }

  ghost predicate IdsAscend(hits: seq<VecHit>) {
    forall i, j :: 0 <= i < j < |hits| ==> Less(hits[i].id, hits[j].id)
  }

  lemma FrontAscends(hits: seq<VecHit>)
    requires IdsAscend(hits) && hits != []
    ensures IdsAscend(hits[..|hits| - 1])
  {
    hide Less;
  }

  lemma AllLess(sorted: seq<VecHit>, hits: seq<VecHit>)
    requires hits != [] && multiset(sorted) == multiset(hits[..|hits| - 1])
    requires IdsAscend(hits)
    ensures forall y :: y in sorted ==> Less(y.id, hits[|hits| - 1].id)
  {
    hide Less;
    var l := |hits| - 1;
    forall y | y in sorted ensures Less(y.id, hits[l].id) {
      assert y in multiset(sorted);
      assert y in hits[..l];
    }
  }

  /** Scanned in ascending order of id, the result is exactly the first k of the full sort. */
  lemma {:induction false} AscendingScanIsExact(hits: seq<VecHit>, k: nat)
    requires k > 0
    requires IdsAscend(hits)
    ensures Sorted(Sort(hits)) && multiset(Sort(hits)) == multiset(hits) && |Sort(hits)| == |hits|
    ensures Scan(hits, k) == Sort(hits)[..if |hits| < k then |hits| else k]
  {
    hide Insert, Less, Worse, Sorted;
    if hits == [] {
      NothingSorted();
    } else {
      var l := |hits| - 1;
      FrontAscends(hits);
      hide IdsAscend;
      AscendingScanIsExact(hits[..l], k);
      FrontOf(hits);
      ScanUnfolds(hits, k);
      assert Sort(hits) == Insert(Sort(hits[..l]), hits[l]);
      hide Sort, Scan, Keep;
      var sorted := Sort(hits[..l]);
      InsertSorted(sorted, hits[l]);
      AllLess(sorted, hits);
      KeepIsFront(sorted, hits[l], k);
    }
  }

  /** Keeping x among the first k is inserting it and taking the first k. */
  lemma KeepIsFront(sorted: seq<VecHit>, x: VecHit, k: nat)
    requires k > 0 && Sorted(sorted) && forall y :: y in sorted ==> Less(y.id, x.id)
    ensures var n := |sorted|;
      |Insert(sorted, x)| == n + 1 &&
      Keep(sorted[..if n < k then n else k], x, k) == Insert(sorted, x)[..if n + 1 < k then n + 1 else k]
  {
    hide Insert, Less, Worse, Sorted;
    InsertSorted(sorted, x);
    if |sorted| < k {
      assert sorted[..|sorted|] == sorted && Insert(sorted, x)[..|sorted| + 1] == Insert(sorted, x);
    } else {
      InsertBeyond(sorted, x, k);
    }
  }

  lemma InsertBeyond(sorted: seq<VecHit>, x: VecHit, k: nat)
    requires 0 < k <= |sorted| && Sorted(sorted)
    requires forall y :: y in sorted ==> Less(y.id, x.id)
    ensures Insert(sorted, x)[..k] == Keep(sorted[..k], x, k)
  {
    hide Less, Sorted, Worse, Insert;
    if x.score > sorted[k - 1].score {
      assert Worse(sorted[k - 1], x) by { HigherIsBetter(sorted[k - 1], x); }
      PlacedWithin(sorted, x, k);
    } else {
      PlacedBeyond(sorted, x, k);
    }
  }

  lemma HigherIsBetter(a: VecHit, b: VecHit)
    requires a.score < b.score
    ensures Worse(a, b)
  {}

  lemma PlacedWithin(sorted: seq<VecHit>, x: VecHit, k: nat)
    requires 0 < k <= |sorted| && Worse(sorted[k - 1], x)
    ensures Insert(sorted, x)[..k] == Insert(sorted[..k][..k - 1], x)
  {
    hide Worse;
    var p := Position(sorted, x);
    assert p <= k - 1;
    PlacePrefix(sorted, x, k - 1);
    assert sorted[..k][..k - 1] == sorted[..k - 1];
    assert sorted[..k - 1][p..] == sorted[p..k - 1] && sorted[..k - 1][..p] == sorted[..p];
    assert Insert(sorted, x)[..k] == sorted[..p] + [x] + sorted[p..k - 1];
  }

  lemma PlacedBeyond(sorted: seq<VecHit>, x: VecHit, k: nat)
    requires 0 < k <= |sorted| && Sorted(sorted) && x.score <= sorted[k - 1].score
    requires forall y :: y in sorted ==> Less(y.id, x.id)
    ensures Insert(sorted, x)[..k] == sorted[..k]
  {
    hide Less, Position;
    var p := Position(sorted, x);
    forall i | 0 <= i < k ensures !Worse(sorted[i], x) {
      assert sorted[i] in sorted;
      LessAsymmetric(sorted[i].id, x.id);
      assert i < k - 1 ==> !Worse(sorted[i], sorted[k - 1]);
    }
    assert p >= k;
  }

  lemma {:induction false} PlacePrefix(l: seq<VecHit>, x: VecHit, m: nat)
    requires m <= |l|
    ensures Position(l[..m], x) == if Position(l, x) < m then Position(l, x) else m
  {
    hide Worse;
    if m > 0 {
      assert l[..m][1..] == l[1..][..m - 1];
      PlacePrefix(l[1..], x, m - 1);
    }
  }

  // ----- exactly when ties are safe -----

  function Scored(ids: seq<string>, scores: seq<real>): (hits: seq<VecHit>)
    requires |scores| == |ids|
    ensures |hits| == |ids| && forall i :: 0 <= i < |ids| ==> hits[i] == VecHit(ids[i], scores[i])
  {
    seq(|ids|, i requires 0 <= i < |ids| => VecHit(ids[i], scores[i]))
  }

  ghost predicate AlwaysExact(ids: seq<string>) {
    forall scores: seq<real>, k: nat :: |scores| == |ids| && k > 0 ==>
      Scan(Scored(ids, scores), k) <= Sort(Scored(ids, scores))
  }

  /** The search returns the head of the full sort for all scores and all k exactly when the rows
      are stored in ascending order of id. */
  lemma ExactIffAscending(ids: seq<string>)
    requires Distinct(ids)
    ensures AlwaysExact(ids) <==> Ascending(ids)
  {
    hide Scan, Sort, Less;
    if Ascending(ids) {
      forall scores: seq<real>, k: nat | |scores| == |ids| && k > 0
        ensures Scan(Scored(ids, scores), k) <= Sort(Scored(ids, scores))
      {
        AscendingScanIsExact(Scored(ids, scores), k);
      }
    } else {
      var i, j :| 0 <= i < j < |ids| && !Less(ids[i], ids[j]);
      LessTotal(ids[i], ids[j]);
      TieGoesWrong(ids, i, j);
    }
  }

  lemma TieGoesWrong(ids: seq<string>, i: nat, j: nat)
    requires i < j < |ids| && Less(ids[j], ids[i])
    ensures !AlwaysExact(ids)
  {
    hide Less, Scan, Sort;
    var scores := seq(|ids|, m requires 0 <= m < |ids| => if m == i || m == j then 1.0 else 0.0);
    var hits := Scored(ids, scores);
    OneKept(hits, i, |hits|);
    assert hits[..|hits|] == hits;
    SortKeeps(hits);
    var sorted := Sort(hits);
    assert hits[j] in multiset(sorted);
    assert hits[j] in sorted;
    assert Worse(hits[i], hits[j]);
    var m :| 0 <= m < |sorted| && sorted[m] == hits[j];
    WorseTotal(hits[i], hits[i]);
    assert sorted[0] != hits[i];
    assert !(Scan(hits, 1) <= sorted);
  }

  lemma {:induction false} OneKept(hits: seq<VecHit>, i: nat, n: nat)
    requires i < n <= |hits| && hits[i].score == 1.0
    requires forall m :: 0 <= m < i ==> hits[m].score == 0.0
    requires forall m :: 0 <= m < |hits| ==> hits[m].score <= 1.0
    ensures Scan(hits[..n], 1) == [hits[i]]
    decreases n
  {
    hide Insert, Scan;
    ScanStep(hits, n - 1, 1);
    if n > i + 1 {
      OneKept(hits, i, n - 1);
    } else {
      if i > 0 {
        LowKept(hits, i);
      } else {
        assert hits[..0] == [];
        ScanNothing(1);
      }
      assert Scan(hits[..i], 1)[..0] == [] || i == 0;
      InsertFirst(hits[i]);
    }
  }

  lemma ScanStep(hits: seq<VecHit>, n: nat, k: nat)
    requires n < |hits| && k > 0
    ensures Scan(hits[..n + 1], k) == Keep(Scan(hits[..n], k), hits[n], k)
  {
    hide Keep;
    assert hits[..n + 1][..n] == hits[..n];
  }

  lemma ScanNothing(k: nat)
    requires k > 0
    ensures Scan([], k) == []
  {}

  lemma InsertFirst(x: VecHit)
    ensures Insert([], x) == [x]
  {}

  /** As long as every score is zero, so is the one kept. */
  lemma {:induction false} LowKept(hits: seq<VecHit>, i: nat)
    requires 0 < i <= |hits| && forall m :: 0 <= m < i ==> hits[m].score == 0.0
    ensures |Scan(hits[..i], 1)| == 1 && Scan(hits[..i], 1)[0].score == 0.0
  {
    hide Insert, Scan;
    ScanStep(hits, i - 1, 1);
    if i > 1 {
      LowKept(hits, i - 1);
    } else {
      assert hits[..0] == [];
      ScanNothing(1);
      InsertFirst(hits[0]);
    }
  }

  lemma {:induction false} SortKeeps(hits: seq<VecHit>)
    ensures Sorted(Sort(hits)) && multiset(Sort(hits)) == multiset(hits)
  {
    hide Insert, Sorted;
    if hits == [] {
      NothingSorted();
    } else {
      var l := |hits| - 1;
      SortKeeps(hits[..l]);
      InsertSorted(Sort(hits[..l]), hits[l]);
      assert hits == hits[..l] + [hits[l]];
    }
  }

  lemma LastIsWorst(l: seq<VecHit>, y: VecHit)
    requires l != [] && Sorted(l) && y in l
    ensures !Worse(y, l[|l| - 1])
  {
    hide Worse;
    var m :| 0 <= m < |l| && l[m] == y;
    WorseTotal(y, y);
  }

  /** Best-first order of the same hits is unique. */
  lemma {:induction false} SortedUnique(a: seq<VecHit>, b: seq<VecHit>)
    requires Sorted(a) && Sorted(b) && multiset(a) == multiset(b)
    ensures a == b
  {
    hide Worse, Sorted;
    assert |a| == |multiset(a)| == |multiset(b)| == |b|;
    if a != [] {
      var l := |a| - 1;
      SameLast(a, b);
      FrontOf(a);
      FrontOf(b);
      FrontSorted(a);
      FrontSorted(b);
      SortedUnique(a[..l], b[..l]);
      assert a == a[..l] + [a[l]] && b == b[..l] + [b[l]];
    }
  }

  lemma SameLast(a: seq<VecHit>, b: seq<VecHit>)
    requires a != [] && b != [] && Sorted(a) && Sorted(b) && multiset(a) == multiset(b)
    ensures a[|a| - 1] == b[|b| - 1]
  {
    hide Worse, Sorted;
    var x, y := a[|a| - 1], b[|b| - 1];
    assert x in multiset(b) && y in multiset(a);
    LastIsWorst(a, y);
    LastIsWorst(b, x);
    WorseTotal(x, y);
  }

  lemma FrontSorted(l: seq<VecHit>)
    requires l != [] && Sorted(l)
    ensures Sorted(l[..|l| - 1])
  {
    hide Worse;
  }

  // ----- the index -----

  datatype StoredVector = StoredVector(id: string, scope: string, embedding: seq<real>)

  function Dot(a: seq<real>, b: seq<real>): real
    requires |a| <= |b|
  {
    if a == [] then 0.0 else Dot(a[..|a| - 1], b) + a[|a| - 1] * b[|a| - 1]
  }

  /** The vectors of dimension dim. */
  function OfDim(rows: seq<StoredVector>, dim: nat): seq<StoredVector> {
    if rows == [] then []
    else
      var l := |rows| - 1;
      OfDim(rows[..l], dim) + if |rows[l].embedding| == dim then [rows[l]] else []
  }

  /** Dot products of the rows in scope, in row order. */
  function HitsOf(rows: seq<StoredVector>, query: seq<real>, scopes: set<string>): seq<VecHit>
    requires forall i :: 0 <= i < |rows| ==> |rows[i].embedding| == |query|
  {
    if rows == [] then []
    else
      var r := rows[|rows| - 1];
      HitsOf(rows[..|rows| - 1], query, scopes) + if r.scope in scopes then [VecHit(r.id, Dot(query, r.embedding))] else []
  }

  ghost predicate AreProducts(a: seq<real>, b: seq<real>, products: seq<real>)
    requires |a| <= |b|
  {
    |products| == |a| && forall i :: 0 <= i < |a| ==> products[i] == a[i] * b[i]
  }

  lemma FrontProducts(a: seq<real>, b: seq<real>, products: seq<real>)
    requires 0 < |a| <= |b| && AreProducts(a, b, products)
    ensures |products| == |a| && AreProducts(a[..|a| - 1], b, products[..|a| - 1])
    ensures products[|a| - 1] == a[|a| - 1] * b[|a| - 1]
  {}

  /** The sum of the products, from the first to the last. */
  lemma {:induction false} DotIs(a: seq<real>, b: seq<real>, products: seq<real>) returns (sums: seq<real>)
    requires |a| <= |b| && AreProducts(a, b, products)
    ensures |products| == |a| && |sums| == |a| + 1 && sums[0] == 0.0 && sums[|a|] == Dot(a, b)
    ensures forall i :: 0 <= i < |a| ==> sums[i + 1] == sums[i] + products[i]
  {
    if a == [] {
      sums := [0.0];
    } else {
      hide AreProducts, Dot;
      FrontProducts(a, b, products);
      var before := DotIs(a[..|a| - 1], b, products[..|a| - 1]);
      DotLast(a, b);
      sums := Appended(before, products, Dot(a, b));
    }
  }

  lemma DotLast(a: seq<real>, b: seq<real>)
    requires 0 < |a| <= |b|
    ensures Dot(a, b) == Dot(a[..|a| - 1], b) + a[|a| - 1] * b[|a| - 1]
  {}

  lemma Appended(before: seq<real>, products: seq<real>, sum: real) returns (sums: seq<real>)
    requires |before| == |products| != 0 && sum == before[|before| - 1] + products[|products| - 1]
    requires forall i :: 0 <= i < |products| - 1 ==> before[i + 1] == before[i] + products[..|products| - 1][i]
    ensures |sums| == |products| + 1 && sums[0] == before[0] && sums[|products|] == sum
    ensures forall i :: 0 <= i < |products| ==> sums[i + 1] == sums[i] + products[i]
  {
    sums := before + [sum];
    forall i | 0 <= i < |products| ensures sums[i + 1] == sums[i] + products[i] {
      if i < |products| - 1 {
        assert products[..|products| - 1][i] == products[i];
      }
    }
  }

  /** Every row in scope is scored against the query, and no other. */
  lemma {:induction false} HitsAre(rows: seq<StoredVector>, query: seq<real>, scopes: set<string>) returns (places: seq<nat>)
    requires forall i :: 0 <= i < |rows| ==> |rows[i].embedding| == |query|
    ensures Rising(places, |rows|) && |HitsOf(rows, query, scopes)| == |places|
    ensures forall k :: 0 <= k < |rows| ==> (k in places <==> rows[k].scope in scopes)
    ensures forall i :: 0 <= i < |places| ==>
      HitsOf(rows, query, scopes)[i] == VecHit(rows[places[i]].id, Dot(query, rows[places[i]].embedding))
  {
    hide Dot, HitsOf;
    places := [];
    if rows == [] {
      NoHitsOf(query, scopes);
    } else {
      var l := |rows| - 1;
      places := HitsAre(rows[..l], query, scopes);
      assert forall k :: 0 <= k < l ==> rows[..l][k] == rows[k];
      assert rows[..l + 1] == rows;
      HitsOfSnoc(rows, l, query, scopes);
      RisingSnoc(places, l);
      if rows[l].scope in scopes {
        places := places + [l];
      }
    }
  }

  lemma NoHitsOf(query: seq<real>, scopes: set<string>)
    ensures HitsOf([], query, scopes) == []
  {}

  lemma {:induction false} OfDimIs(rows: seq<StoredVector>, dim: nat) returns (places: seq<nat>)
    ensures Rising(places, |rows|) && |OfDim(rows, dim)| == |places|
    ensures forall k :: 0 <= k < |rows| ==> (k in places <==> |rows[k].embedding| == dim)
    ensures forall i :: 0 <= i < |places| ==> OfDim(rows, dim)[i] == rows[places[i]]
  {
    places := [];
    if rows != [] {
      var l := |rows| - 1;
      places := OfDimIs(rows[..l], dim);
      assert forall k :: 0 <= k < l ==> rows[..l][k] == rows[k];
      RisingSnoc(places, l);
      if |rows[l].embedding| == dim {
        places := places + [l];
      }
    }
  }

  lemma HitsOfSnoc(rows: seq<StoredVector>, i: nat, query: seq<real>, scopes: set<string>)
    requires i < |rows| && forall j :: 0 <= j < |rows| ==> |rows[j].embedding| == |query|
    ensures HitsOf(rows[..i + 1], query, scopes) ==
      HitsOf(rows[..i], query, scopes) + if rows[i].scope in scopes then [VecHit(rows[i].id, Dot(query, rows[i].embedding))] else []
  {
    hide Dot;
    assert rows[..i + 1][..i] == rows[..i];
  }

  lemma RowBounds(i: nat, n: nat, dim: nat)
    requires i < n
    ensures 0 <= i * dim <= (i + 1) * dim <= n * dim && (i + 1) * dim == i * dim + dim
  {
    assert n * dim == (i + 1) * dim + (n - i - 1) * dim;
  }

  lemma SliceKept(a: seq<real>, b: seq<real>, lo: nat, hi: nat)
    requires lo <= hi <= |a|
    ensures (a + b)[lo..hi] == a[lo..hi]
  {
  }

  // ----- what a reload keeps -----

  /** The dimension of the first row that has one. */
  function DimOf(rows: seq<StoredVector>): nat {
    if rows == [] then 0
    else
      var d := DimOf(rows[..|rows| - 1]);
      if d == 0 then |rows[|rows| - 1].embedding| else d
  }

  function KeptRows(rows: seq<StoredVector>): seq<StoredVector> {
    if rows == [] then []
    else
      var last := rows[|rows| - 1];
      KeptRows(rows[..|rows| - 1]) + if |last.embedding| == DimOf(rows) then [last] else []
  }

  function RowIds(rows: seq<StoredVector>): (ids: seq<string>)
    ensures |ids| == |rows| && forall i :: 0 <= i < |rows| ==> ids[i] == rows[i].id
  {
    seq(|rows|, i requires 0 <= i < |rows| => rows[i].id)
  }

  function RowScopes(rows: seq<StoredVector>): (scopes: seq<string>)
    ensures |scopes| == |rows| && forall i :: 0 <= i < |rows| ==> scopes[i] == rows[i].scope
  {
    seq(|rows|, i requires 0 <= i < |rows| => rows[i].scope)
  }

  function Flat(rows: seq<StoredVector>): seq<real> {
    if rows == [] then [] else Flat(rows[..|rows| - 1]) + rows[|rows| - 1].embedding
  }

  /** The first row has no dimension, a later one has. */
  predicate LostRows(rows: seq<StoredVector>) {
    rows != [] && rows[0].embedding == [] && DimOf(rows) > 0
  }

  lemma KeptSnoc(rows: seq<StoredVector>, k: nat)
    requires k < |rows|
    ensures DimOf(rows[..k + 1]) == if DimOf(rows[..k]) == 0 then |rows[k].embedding| else DimOf(rows[..k])
    ensures KeptRows(rows[..k + 1]) ==
      if |rows[k].embedding| == DimOf(rows[..k + 1]) then KeptRows(rows[..k]) + [rows[k]] else KeptRows(rows[..k])
  {
    assert rows[..k + 1][..k] == rows[..k];
  }

  lemma FlatSnoc(rows: seq<StoredVector>, r: StoredVector)
    ensures Flat(rows + [r]) == Flat(rows) + r.embedding
    ensures RowIds(rows + [r]) == RowIds(rows) + [r.id] && RowScopes(rows + [r]) == RowScopes(rows) + [r.scope]
  {
    assert (rows + [r])[..|rows|] == rows;
  }

  /** Without that, the rows of one dimension are kept and nothing else. */
  lemma {:induction false} KeptAre(rows: seq<StoredVector>)
    requires !LostRows(rows)
    ensures KeptRows(rows) == OfDim(rows, DimOf(rows))
    ensures forall i :: 0 <= i < |KeptRows(rows)| ==> |KeptRows(rows)[i].embedding| == DimOf(rows)
  {
    if rows != [] {
      var front := rows[..|rows| - 1];
      KeptAre(front);
      if front == [] {
        assert KeptRows(front) == [] && OfDim(front, DimOf(rows)) == [];
      } else {
        assert front[0] == rows[0];
        assert DimOf(front) == DimOf(rows) by { if rows[0].embedding != [] { FirstDim(front); } }
      }
    }
  }

  lemma {:induction false} FirstDim(rows: seq<StoredVector>)
    requires rows != [] && rows[0].embedding != []
    ensures DimOf(rows) == |rows[0].embedding|
  {
    if |rows| > 1 {
      FirstDim(rows[..|rows| - 1]);
    }
  }

  lemma {:induction false} KeptBounded(rows: seq<StoredVector>)
    ensures forall i :: 0 <= i < |KeptRows(rows)| ==> |KeptRows(rows)[i].embedding| <= DimOf(rows)
    ensures rows != [] && rows[0].embedding == [] ==> KeptRows(rows) != [] && KeptRows(rows)[0] == rows[0]
  {
    if rows != [] {
      var front := rows[..|rows| - 1];
      KeptBounded(front);
      assert front != [] ==> front[0] == rows[0];
    }
  }

  lemma {:induction false} FlatShort(rows: seq<StoredVector>, d: nat)
    requires forall i :: 0 <= i < |rows| ==> |rows[i].embedding| <= d
    ensures |Flat(rows)| <= |rows| * d
    ensures rows != [] && rows[0].embedding == [] ==> |Flat(rows)| <= (|rows| - 1) * d
  {
    if rows != [] {
      var front := rows[..|rows| - 1];
      FlatShort(front, d);
      assert |rows| * d == |front| * d + d;
      assert front != [] ==> front[0] == rows[0] && (|front| - 1) * d + d == |front| * d;
    }
  }

  lemma {:induction false} FlatLength(rows: seq<StoredVector>, d: nat)
    requires forall i :: 0 <= i < |rows| ==> |rows[i].embedding| == d
    ensures |Flat(rows)| == |rows| * d
  {
    if rows != [] {
      FlatLength(rows[..|rows| - 1], d);
      assert |rows| * d == (|rows| - 1) * d + d;
    }
  }

  lemma {:induction false} FlatSlice(rows: seq<StoredVector>, d: nat, i: nat)
    requires i < |rows| && forall k :: 0 <= k < |rows| ==> |rows[k].embedding| == d
    ensures 0 <= i * d <= (i + 1) * d <= |Flat(rows)| && Flat(rows)[i * d..(i + 1) * d] == rows[i].embedding
  {
    var front := rows[..|rows| - 1];
    FlatLength(rows, d);
    FlatLength(front, d);
    RowBounds(i, |rows|, d);
    if i < |front| {
      FlatSlice(front, d, i);
      SliceKept(Flat(front), rows[|rows| - 1].embedding, i * d, (i + 1) * d);
    } else {
      assert Flat(rows)[|Flat(front)|..] == rows[i].embedding;
    }
  }

  function Zeros(n: nat): (z: seq<real>)
    ensures |z| == n && forall i :: 0 <= i < n ==> z[i] == 0.0
  {
    seq(n, _ => 0.0)
  }

  /** The rows search sees after a reload: the ids that were kept, in order, next to the vectors that
      were kept, in order; ids left over stand next to the zeros behind the data. */
  function Shown(rows: seq<StoredVector>): (shown: seq<StoredVector>)
    ensures |shown| == |KeptRows(rows)|
  {
    var kept, d := KeptRows(rows), DimOf(rows);
    var full := OfDim(rows, d);
    seq(|kept|, i requires 0 <= i < |kept| =>
      StoredVector(kept[i].id, kept[i].scope, if i < |full| then full[i].embedding else Zeros(d)))
  }

  lemma {:induction false} NoDims(rows: seq<StoredVector>, d: nat)
    requires DimOf(rows) == 0 && d > 0
    ensures Flat(KeptRows(rows)) == [] && OfDim(rows, d) == []
  {
    if rows != [] {
      NoDims(rows[..|rows| - 1], d);
      if |rows[|rows| - 1].embedding| == 0 {
        FlatSnoc(KeptRows(rows[..|rows| - 1]), rows[|rows| - 1]);
      }
    }
  }

  lemma {:induction false} OfDimUniform(rows: seq<StoredVector>, d: nat)
    ensures forall i :: 0 <= i < |OfDim(rows, d)| ==> |OfDim(rows, d)[i].embedding| == d
  {
    if rows != [] {
      OfDimUniform(rows[..|rows| - 1], d);
    }
  }

  /** The data kept is that of the rows of the dimension, of which no more are kept than ids. */
  lemma {:induction false} FlatKept(rows: seq<StoredVector>)
    ensures Flat(KeptRows(rows)) == Flat(OfDim(rows, DimOf(rows))) && |OfDim(rows, DimOf(rows))| <= |KeptRows(rows)| <= |rows|
  {
    if rows != [] {
      var front, last, d := rows[..|rows| - 1], rows[|rows| - 1], DimOf(rows);
      FlatKept(front);
      if DimOf(front) == 0 && d > 0 {
        NoDims(front, d);
      }
      if |last.embedding| == d {
        FlatSnoc(KeptRows(front), last);
        FlatSnoc(OfDim(front, d), last);
      } else {
        assert KeptRows(rows) == KeptRows(front) && OfDim(rows, d) == OfDim(front, d);
      }
    }
  }

  /** Each id stands next to its own vector exactly unless a row without dimensions comes first and a
      later one has some. */
  lemma AlignedIff(rows: seq<StoredVector>)
    ensures Shown(rows) == KeptRows(rows) <==> !LostRows(rows)
  {
    var kept, d := KeptRows(rows), DimOf(rows);
    OfDimUniform(rows, d);
    if LostRows(rows) {
      KeptBounded(rows);
      assert |Shown(rows)[0].embedding| == d;
    } else {
      KeptAre(rows);
    }
  }

  /** The dimension is that of the first row that has one. */
  lemma {:induction false} DimIs(rows: seq<StoredVector>)
    ensures DimOf(rows) == 0 <==> forall i :: 0 <= i < |rows| ==> rows[i].embedding == []
    ensures forall j :: 0 <= j < |rows| && FirstWithDim(rows, j) ==> DimOf(rows) == |rows[j].embedding|
  {
    if rows != [] {
      var l := |rows| - 1;
      var front := rows[..l];
      DimIs(front);
      assert forall i :: 0 <= i < l ==> front[i] == rows[i];
      forall j | 0 <= j < |rows| && FirstWithDim(rows, j) ensures DimOf(rows) == |rows[j].embedding| {
        if j < l {
          assert FirstWithDim(front, j);
        }
      }
    }
  }

  ghost predicate FirstWithDim(rows: seq<StoredVector>, j: int) {
    0 <= j < |rows| && rows[j].embedding != [] && forall i :: 0 <= i < j ==> rows[i].embedding == []
  }

  /** A row is kept unless an earlier one settled on another dimension. */
  ghost predicate KeptAt(rows: seq<StoredVector>, k: int)
    requires 0 <= k < |rows|
  {
    forall j :: 0 <= j < k && FirstWithDim(rows, j) ==> |rows[k].embedding| == |rows[j].embedding|
  }

  lemma {:induction false} KeptPlaces(rows: seq<StoredVector>) returns (places: seq<nat>)
    ensures Rising(places, |rows|) && |KeptRows(rows)| == |places|
    ensures forall k :: 0 <= k < |rows| ==> (k in places <==> KeptAt(rows, k))
    ensures forall i :: 0 <= i < |places| ==> KeptRows(rows)[i] == rows[places[i]]
  {
    hide KeptAt, DimOf;
    places := [];
    if rows != [] {
      var l := |rows| - 1;
      var front := rows[..l];
      places := KeptPlaces(front);
      assert forall k :: 0 <= k < l ==> front[k] == rows[k];
      forall k | 0 <= k < l ensures KeptAt(rows, k) <==> KeptAt(front, k) {
        KeptAtSame(rows, k);
      }
      LastKept(rows);
      RisingSnoc(places, l);
      if |rows[l].embedding| == DimOf(rows) {
        places := places + [l];
      }
    }
  }

  lemma KeptAtSame(rows: seq<StoredVector>, k: nat)
    requires k < |rows| - 1
    ensures KeptAt(rows, k) <==> KeptAt(rows[..|rows| - 1], k)
  {
    var front := rows[..|rows| - 1];
    forall j | 0 <= j < k ensures FirstWithDim(rows, j) <==> FirstWithDim(front, j) {
      assert forall i :: 0 <= i <= j ==> front[i] == rows[i];
    }
  }

  lemma LastKept(rows: seq<StoredVector>)
    requires rows != []
    ensures |rows[|rows| - 1].embedding| == DimOf(rows) <==> KeptAt(rows, |rows| - 1)
  {
    var l := |rows| - 1;
    var front := rows[..l];
    DimIs(front);
    assert forall i :: 0 <= i < l ==> front[i] == rows[i];
    forall j | 0 <= j < l ensures FirstWithDim(rows, j) <==> FirstWithDim(front, j) {
    }
    if DimOf(front) != 0 {
      SomeFirst(front);
    }
  }

  lemma {:induction false} SomeFirst(rows: seq<StoredVector>)
    requires exists i :: 0 <= i < |rows| && rows[i].embedding != []
    ensures exists j :: FirstWithDim(rows, j)
  {
    var l := |rows| - 1;
    if exists i :: 0 <= i < l && rows[..l][i].embedding != [] {
      SomeFirst(rows[..l]);
      var j :| FirstWithDim(rows[..l], j);
      assert forall i :: 0 <= i < l ==> rows[..l][i] == rows[i];
      assert FirstWithDim(rows, j);
    } else {
      assert forall i :: 0 <= i < l ==> rows[i] == rows[..l][i];
      assert FirstWithDim(rows, l);
    }
  }

  /** What search sees after a reload: the kept ids in order; next to them, in order, the vectors of
      the dimension, and behind these zeros. */
  lemma ReloadShows(rows: seq<StoredVector>) returns (kept: seq<nat>, full: seq<nat>)
    ensures Rising(kept, |rows|) && forall k :: 0 <= k < |rows| ==> (k in kept <==> KeptAt(rows, k))
    ensures Rising(full, |rows|) && forall k :: 0 <= k < |rows| ==> (k in full <==> |rows[k].embedding| == DimOf(rows))
    ensures |Shown(rows)| == |kept|
    ensures forall i :: 0 <= i < |kept| ==>
      && Shown(rows)[i].id == rows[kept[i]].id && Shown(rows)[i].scope == rows[kept[i]].scope
      && Shown(rows)[i].embedding == if i < |full| then rows[full[i]].embedding else seq(DimOf(rows), _ => 0.0)
  {
    hide KeptAt, KeptRows, DimOf, OfDim;
    kept := KeptPlaces(rows);
    full := OfDimIs(rows, DimOf(rows));
  }

  /** What an index of this length and capacity holds for row i. */
  function Cells(data: seq<real>, room: nat, lo: nat, hi: nat): (cells: seq<real>)
    requires lo <= hi <= room && |data| <= room
    ensures |cells| == hi - lo && forall i :: 0 <= i < hi - lo ==> cells[i] == if lo + i < |data| then data[lo + i] else 0.0
  {
    seq(hi - lo, i requires 0 <= i < hi - lo => if lo + i < |data| then data[lo + i] else 0.0)
  }

  lemma CellsShown(rows: seq<StoredVector>, room: nat, i: nat)
    requires i < |KeptRows(rows)| && |Flat(KeptRows(rows))| <= room && 0 <= i * DimOf(rows) <= (i + 1) * DimOf(rows) <= room
    ensures Cells(Flat(KeptRows(rows)), room, i * DimOf(rows), (i + 1) * DimOf(rows)) == Shown(rows)[i].embedding
  {
    var d, full := DimOf(rows), OfDim(rows, DimOf(rows));
    FlatKept(rows);
    OfDimUniform(rows, d);
    FlatLength(full, d);
    RowBounds(i, i + 1, d);
    if i < |full| {
      FlatSlice(full, d, i);
    } else {
      assert |full| * d <= i * d by { MoreRows(|full|, i, d); }
    }
  }

  lemma MoreRows(m: nat, n: nat, d: nat)
    requires m <= n
    ensures m * d <= n * d
  {
    assert n * d == m * d + (n - m) * d;
  }

  lemma RoomEnough(rows: seq<StoredVector>)
    ensures |Flat(KeptRows(rows))| <= |rows| * DimOf(rows) && |KeptRows(rows)| * DimOf(rows) <= |rows| * DimOf(rows)
  {
    FlatKept(rows);
    KeptBounded(rows);
    FlatShort(KeptRows(rows), DimOf(rows));
    MoreRows(|KeptRows(rows)|, |rows|, DimOf(rows));
  }

  class VectorIndex {
    var dim: nat
    var ids: seq<string>
    var scopes: seq<string>
    var data: seq<real>  // row-major
    var room: nat        // capacity of data; zeros behind its end

    ghost predicate Valid()
      reads this
    {
      |scopes| == |ids| && |data| <= room && |ids| * dim <= room
    }

    /** The rows the flat buffer stands for. */
    ghost function Rows(): (rows: seq<StoredVector>)
      requires Valid()
      reads this
      ensures |rows| == |ids|
      ensures forall i :: 0 <= i < |rows| ==> |rows[i].embedding| == dim
    {
      seq(|ids|, i requires 0 <= i < |ids| reads this requires Valid() => RowAt(i))
    }

    ghost function RowAt(i: nat): (r: StoredVector)
      requires Valid() && i < |ids|
      reads this
      ensures |r.embedding| == dim
    {
      RowBounds(i, |ids|, dim);
      StoredVector(ids[i], scopes[i], Cells(data, room, i * dim, (i + 1) * dim))
    }

    constructor ()
      ensures Valid() && Rows() == []
    {
      dim, ids, scopes, data, room := 0, [], [], [], 0;
    }

    /** Replaces the contents.  Rows of another dimension than the first row with one are skipped; rows
        without any before it are not, and leave more ids than rows of data. */
    method Reload(rows: seq<StoredVector>)
      modifies this
      ensures Valid() && dim == DimOf(rows) && Rows() == Shown(rows)
    {
      ids, scopes, data, dim, room := [], [], [], 0, 0;
      for k := 0 to |rows|
        invariant dim == DimOf(rows[..k]) && data == Flat(KeptRows(rows[..k])) && room == |rows| * dim
        invariant ids == RowIds(KeptRows(rows[..k])) && scopes == RowScopes(KeptRows(rows[..k]))
      {
        var r := rows[k];
        KeptSnoc(rows, k);
        if dim == 0 {
          dim := |r.embedding|;
          room := |rows| * dim;
        }
        if |r.embedding| != dim {
          continue;
        }
        FlatSnoc(KeptRows(rows[..k]), r);
        ids := ids + [r.id];
        scopes := scopes + [r.scope];
        data := data + r.embedding;
      }
      assert rows[..|rows|] == rows;
      RoomEnough(rows);
      forall i | 0 <= i < |ids| ensures Rows()[i] == Shown(rows)[i] {
        RowBounds(i, |ids|, dim);
        CellsShown(rows, room, i);
      }
    }

    method DotProduct(query: seq<real>, row: seq<real>) returns (dot: real)
      requires |query| == |row|
      ensures dot == Dot(query, row)
    {
      dot := 0.0;
      for j := 0 to |query|
        invariant dot == Dot(query[..j], row)
      {
        assert query[..j + 1][..j] == query[..j];
        dot := dot + query[j] * row[j];
      }
      assert query[..|query|] == query;
    }

    /** The k most similar rows within scopes. */
    method Search(query: seq<real>, allowed: set<string>, k: int) returns (out: seq<VecHit>)
      requires Valid()
      ensures out ==
        if k <= 0 || dim == 0 || |query| != dim then [] else Scan(HitsOf(Rows(), query, allowed), k)
    {
      if k <= 0 || dim == 0 || |query| != dim {
        return [];
      }
      EmptyHeap(k);
      ghost var rows := Rows();
      ghost var hits: seq<VecHit> := [];
      var heap := new MinHeap();
      assert HitsOf(rows[..0], query, allowed) == [];
      hide IsHeap, Scan, Dot, HitsOf;
      for i := 0 to |ids|
        invariant IsHeap(heap.h, |heap.h|)
        invariant hits == HitsOf(rows[..i], query, allowed)
        invariant multiset(heap.h) == multiset(Scan(hits, k))
      {
        HitsOfSnoc(rows, i, query, allowed);
        assert rows[i] == RowAt(i);
        if scopes[i] !in allowed {
          continue;
        }
        RowBounds(i, |ids|, dim);
        var row := Cells(data, room, i * dim, (i + 1) * dim);
        var dot := DotProduct(query, row);
        heap.Offer(VecHit(ids[i], dot), k, hits);
        hits := hits + [VecHit(ids[i], dot)];
      }
      assert rows[..|ids|] == rows;
      out := Drain(heap, hits, k);
    }

    /** Pop everything, worst first, from the back. */
    method Drain(heap: MinHeap, ghost hits: seq<VecHit>, k: nat) returns (out: seq<VecHit>)
      requires k > 0 && IsHeap(heap.h, |heap.h|) && multiset(heap.h) == multiset(Scan(hits, k))
      modifies heap
      ensures out == Scan(hits, k)
    {
      ghost var all := Scan(hits, k);
      out := [];
      ScanKeepsBest(hits, k);
      NothingSorted();
      hide Worse, Scan, IsHeap, Sorted, Below;
      while |heap.h| > 0
        invariant IsHeap(heap.h, |heap.h|)
        invariant multiset(heap.h) + multiset(out) == multiset(all)
        invariant Sorted(out)
        invariant forall i, j :: 0 <= i < |heap.h| && 0 <= j < |out| ==> !Worse(heap.h[i], out[j])
        decreases |heap.h|
      {
        ghost var before := heap.h;
        var x := heap.Pop();
        PoppedIsWorst(before, heap.h, x, out);
        MovedOver(before, heap.h, x, out, all);
        out := [x] + out;
      }
      SortedUnique(out, all);
    }
  }

  /** Popping takes one hit from the heap to the result and loses none. */
  lemma MovedOver(before: seq<VecHit>, after: seq<VecHit>, x: VecHit, out: seq<VecHit>, all: seq<VecHit>)
    requires x in before && multiset(after) == multiset(before) - multiset{x}
    requires multiset(before) + multiset(out) == multiset(all)
    ensures multiset(after) + multiset([x] + out) == multiset(all)
  {
    assert multiset([x] + out) == multiset{x} + multiset(out);
    assert multiset(before) == multiset(after) + multiset{x};
  }

  /** What is left in the heap is no worse than what was popped. */
  lemma PoppedIsWorst(before: seq<VecHit>, after: seq<VecHit>, x: VecHit, out: seq<VecHit>)
    requires IsHeap(before, |before|) && before != [] && x == before[0]
    requires multiset(after) == multiset(before) - multiset{x}
    requires Sorted(out) && forall i, j :: 0 <= i < |before| && 0 <= j < |out| ==> !Worse(before[i], out[j])
    ensures Sorted([x] + out)
    ensures forall i, j :: 0 <= i < |after| && 0 <= j < |[x] + out| ==> !Worse(after[i], ([x] + out)[j])
  {
    hide Worse;
    var o := [x] + out;
    forall i, j | 0 <= i < |after| && 0 <= j < |o| ensures !Worse(after[i], o[j]) {
      assert after[i] in multiset(after);
      assert after[i] in multiset(before);
      var m :| 0 <= m < |before| && before[m] == after[i];
      RootIsWorst(before, |before|, m);
    }
  }

  lemma EmptyHeap(k: nat)
    requires k > 0
    ensures IsHeap([], 0) && multiset(Scan([], k)) == multiset([])
  {}

  lemma RootIsLast(h: seq<VecHit>, kept: seq<VecHit>)
    requires IsHeap(h, |h|) && Sorted(kept) && multiset(h) == multiset(kept)
    ensures |h| == |kept| && (h != [] ==> h[0] == kept[|h| - 1])
  {
    hide Worse, IsHeap, Sorted;
    assert |h| == |multiset(h)| == |multiset(kept)| == |kept|;
    if h != [] {
      assert h[0] in multiset(kept) && kept[|h| - 1] in multiset(h);
      LastIsWorst(kept, h[0]);
      var m :| 0 <= m < |h| && h[m] == kept[|h| - 1];
      RootIsWorst(h, |h|, m);
      WorseTotal(h[0], kept[|h| - 1]);
    }
  }

  lemma KeepMultiset(kept: seq<VecHit>, x: VecHit, k: nat)
    requires k > 0 && Sorted(kept) && |kept| <= k
    ensures multiset(Keep(kept, x, k)) ==
            if |kept| < k then multiset(kept) + multiset{x}
            else if x.score > kept[|kept| - 1].score then multiset(kept) - multiset{kept[|kept| - 1]} + multiset{x}
            else multiset(kept)
  {
    hide Insert, Worse;
    if |kept| < k {
      InsertSorted(kept, x);
    } else {
      FrontOf(kept);
      assert Sorted(kept[..|kept| - 1]);
      InsertSorted(kept[..|kept| - 1], x);
    }
  }

  /** The heap's root is the last of the sorted selection, so both treat the next row alike. */
  lemma HeapStep(h: seq<VecHit>, hits: seq<VecHit>, x: VecHit, k: nat)
    requires k > 0 && IsHeap(h, |h|) && multiset(h) == multiset(Scan(hits, k))
    ensures |h| <= k
    ensures multiset(Scan(hits + [x], k)) ==
            if |h| < k then multiset(h) + multiset{x}
            else if x.score > h[0].score then multiset(h) - multiset{h[0]} + multiset{x}
            else multiset(h)
  {
    hide *;
    var kept := Scan(hits, k);
    ScanIsSorted(hits, k);
    RootIsLast(h, kept);
    ScanAppend(hits, x, k);
    KeepMultiset(kept, x, k);
  }

  lemma ScanIsSorted(hits: seq<VecHit>, k: nat)
    requires k > 0
    ensures Sorted(Scan(hits, k)) && |Scan(hits, k)| <= k
  {
    hide *;
    ScanKeepsBest(hits, k);
  }

  lemma ScanAppend(hits: seq<VecHit>, x: VecHit, k: nat)
    requires k > 0
    ensures Scan(hits + [x], k) == Keep(Scan(hits, k), x, k)
  {
    hide Keep;
    assert (hits + [x])[..|hits|] == hits;
  }
}
