/** internal/search: reciprocal rank fusion, and the orders it guarantees for hybrid retrieval and
    for sections that govern the code being edited.  Scores are reals. */
module Fusion {
  import opened Sequences
  import opened Strings
  import TopK

  /** An id with its fused score; ordered like search hits, ties by id. */
  type Fused = TopK.VecHit

  datatype RankedList = RankedList(ids: seq<string>, weight: real, offset: nat)

  const RRFK := 60

  // ----- scores -----

  /** weight over k plus the 1-based rank. */
  function Share(weight: real, k: nat, rank: nat): real
    requires k + rank > 0
  {
    weight / (k + rank) as real
  }

  /** Contribution of one list to an id, position by position. */
  function ListScore(l: RankedList, k: nat, n: nat, id: string): real
    requires n <= |l.ids|
  {
    if n == 0 then 0.0
    else ListScore(l, k, n - 1, id) + if l.ids[n - 1] == id then Share(l.weight, k, l.offset + n) else 0.0
  }

  /** The fused score over the first m lists. */
  function Score(lists: seq<RankedList>, k: nat, m: nat, id: string): real
    requires m <= |lists|
  {
    if m == 0 then 0.0 else Score(lists, k, m - 1, id) + ListScore(lists[m - 1], k, |lists[m - 1].ids|, id)
  }

  ghost predicate Listed(lists: seq<RankedList>, id: string) {
    exists m :: 0 <= m < |lists| && id in lists[m].ids
  }

  /** out holds every listed id once, with its score, best first. */
  ghost predicate IsFusion(lists: seq<RankedList>, k: nat, out: seq<Fused>) {
    && TopK.Sorted(out)
    && (forall i :: 0 <= i < |out| ==> Listed(lists, out[i].id) && out[i].score == Score(lists, k, |lists|, out[i].id))
    && (forall id :: Listed(lists, id) ==> exists i :: 0 <= i < |out| && out[i].id == id)
    && forall i, j :: 0 <= i < j < |out| ==> out[i].id != out[j].id
  }

  method RRFWeighted(k: nat, lists: seq<RankedList>) returns (out: seq<Fused>)
    ensures IsFusion(lists, k, out)
  {
    hide ListScore, Share;
    var scores: map<string, real> := map[];
    for m := 0 to |lists|
      invariant forall id :: id in scores <==> exists p :: 0 <= p < m && id in lists[p].ids
      invariant forall id :: id in scores ==> scores[id] == Score(lists, k, m, id)
      invariant forall id :: id !in scores ==> Score(lists, k, m, id) == 0.0
    {
      var before := scores;
      scores := AddList(k, lists[m], before);
      forall id ensures Score(lists, k, m + 1, id) == (if id in before then before[id] else 0.0) + ListScore(lists[m], k, |lists[m].ids|, id) {
      }
    }
    var collected := Collect(scores);
    TopK.SortKeeps(collected);
    out := TopK.Sort(collected);
    SortedIsFusion(lists, k, scores, collected, out);
  }

  lemma ListScoreStarts(l: RankedList, k: nat)
    ensures forall id :: ListScore(l, k, 0, id) == 0.0
  {
  }

  lemma ListScoreStep(l: RankedList, k: nat, n: nat)
    requires n < |l.ids|
    ensures forall id :: ListScore(l, k, n + 1, id) == ListScore(l, k, n, id) + (if l.ids[n] == id then Share(l.weight, k, l.offset + n + 1) else 0.0)
  {
    hide Share;
  }

  /** One list's contribution, added to the scores so far. */
  method AddList(k: nat, l: RankedList, before: map<string, real>) returns (scores: map<string, real>)
    ensures forall id :: id in scores <==> id in before || id in l.ids
    ensures forall id :: id in scores ==> scores[id] == (if id in before then before[id] else 0.0) + ListScore(l, k, |l.ids|, id)
    ensures forall id :: id !in scores ==> ListScore(l, k, |l.ids|, id) == 0.0
  {
    hide Share, ListScore;
    scores := before;
    ListScoreStarts(l, k);
    for rank := 0 to |l.ids|
      invariant forall id :: id in scores <==> id in before || id in l.ids[..rank]
      invariant forall id :: id in scores ==> scores[id] == (if id in before then before[id] else 0.0) + ListScore(l, k, rank, id)
      invariant forall id :: id !in scores ==> ListScore(l, k, rank, id) == 0.0
    {
      assert l.ids[..rank + 1] == l.ids[..rank] + [l.ids[rank]];
      var id := l.ids[rank];
      var was := if id in scores then scores[id] else 0.0;
      ListScoreStep(l, k, rank);
      scores := scores[id := was + Share(l.weight, k, l.offset + rank + 1)];
    }
    assert l.ids[..|l.ids|] == l.ids;
  }

  /** The entries of the map, in some order. */
  method Collect(scores: map<string, real>) returns (out: seq<Fused>)
    ensures forall i :: 0 <= i < |out| ==> out[i].id in scores && out[i].score == scores[out[i].id]
    ensures forall id :: id in scores ==> exists i :: 0 <= i < |out| && out[i].id == id
    ensures forall i, j :: 0 <= i < j < |out| ==> out[i].id != out[j].id
  {
    out := [];
    var left := scores.Keys;
    while left != {}
      invariant left <= scores.Keys
      invariant forall i :: 0 <= i < |out| ==> out[i].id in scores && out[i].id !in left && out[i].score == scores[out[i].id]
      invariant forall id :: id in scores && id !in left ==> exists i :: 0 <= i < |out| && out[i].id == id
      invariant forall i, j :: 0 <= i < j < |out| ==> out[i].id != out[j].id
      decreases left
    {
      var id :| id in left;
      left := left - {id};
      ghost var before := out;
      out := out + [TopK.VecHit(id, scores[id])];
      assert out[|before|].id == id;
      assert forall i :: 0 <= i < |before| ==> out[i] == before[i];
    }
  }

  lemma SortedIsFusion(lists: seq<RankedList>, k: nat, scores: map<string, real>, collected: seq<Fused>, out: seq<Fused>)
    requires TopK.Sorted(out) && multiset(out) == multiset(collected)
    requires forall id :: id in scores <==> Listed(lists, id)
    requires forall id :: id in scores ==> scores[id] == Score(lists, k, |lists|, id)
    requires forall i :: 0 <= i < |collected| ==> collected[i].id in scores && collected[i].score == scores[collected[i].id]
    requires forall id :: id in scores ==> exists i :: 0 <= i < |collected| && collected[i].id == id
    requires forall i, j :: 0 <= i < j < |collected| ==> collected[i].id != collected[j].id
    ensures IsFusion(lists, k, out)
  {
    hide Listed, Score, TopK.Sorted;
    forall i | 0 <= i < |out| ensures Listed(lists, out[i].id) && out[i].score == Score(lists, k, |lists|, out[i].id) {
      assert out[i] in multiset(collected);
      assert out[i] in collected;
    }
    forall id | Listed(lists, id) ensures exists i :: 0 <= i < |out| && out[i].id == id {
      var c :| 0 <= c < |collected| && collected[c].id == id;
      assert collected[c] in multiset(out);
      assert collected[c] in out;
    }
    SortedDistinct(collected, out);
  }

  lemma SortedDistinct(a: seq<Fused>, b: seq<Fused>)
    requires multiset(a) == multiset(b) && forall i, j :: 0 <= i < j < |a| ==> a[i].id != a[j].id
    ensures forall i, j :: 0 <= i < j < |b| ==> b[i].id != b[j].id
  {
    DistinctByCount(a, b);
    forall i, j | 0 <= i < j < |b| ensures b[i].id != b[j].id {
      assert b[i] in multiset(a) && b[j] in multiset(a);
    }
  }

  // ----- scores of duplicate-free lists -----

  lemma {:induction false} ScoreAbsent(l: RankedList, k: nat, n: nat, id: string)
    requires n <= |l.ids| && forall i :: 0 <= i < n ==> l.ids[i] != id
    ensures ListScore(l, k, n, id) == 0.0
  {
    hide Share;
    if n > 0 {
      ScoreAbsent(l, k, n - 1, id);
    }
  }

  lemma {:induction false} ScorePresent(l: RankedList, k: nat, n: nat, i: nat)
    requires Distinct(l.ids) && i < n <= |l.ids|
    ensures ListScore(l, k, n, l.ids[i]) == Share(l.weight, k, l.offset + i + 1)
    decreases n
  {
    hide Share;
    if n == i + 1 {
      ScoreAbsent(l, k, i, l.ids[i]);
    } else {
      ScorePresent(l, k, n - 1, i);
    }
  }

  lemma ShareFalls(weight: real, k: nat, a: nat, b: nat)
    requires weight > 0.0 && k + a > 0 && a < b
    ensures Share(weight, k, a) > Share(weight, k, b) > 0.0
  {
    var x, y := (k + a) as real, (k + b) as real;
    assert weight / x - weight / y == weight * (y - x) / (x * y);
  }

  lemma ShareAtMost(weight: real, k: nat, a: nat, b: nat)
    requires weight > 0.0 && k + a > 0 && a <= b
    ensures Share(weight, k, a) >= Share(weight, k, b) > 0.0
  {
    if a < b {
      ShareFalls(weight, k, a, b);
    }
  }

  /** A higher score comes first. */
  lemma HigherFirst(lists: seq<RankedList>, k: nat, out: seq<Fused>, i: nat, j: nat)
    requires IsFusion(lists, k, out) && i < |out| && j < |out|
    requires Score(lists, k, |lists|, out[i].id) > Score(lists, k, |lists|, out[j].id)
    ensures i < j
  {
    hide Score;
    ScoresFall(out);
  }

  lemma ScoresFall(out: seq<Fused>)
    requires TopK.Sorted(out)
    ensures forall i, j :: 0 <= i < j < |out| ==> out[i].score >= out[j].score
  {
    hide Less;
    forall i, j | 0 <= i < j < |out| ensures out[i].score >= out[j].score {
      assert !TopK.Worse(out[i], out[j]);
    }
  }

  // ----- hybrid retrieval -----

  const FUSION_DEPTH := 50

  /** bm25Split: the all-term hits, then any-term hits not among them, up to limit.  all and any are
      what the full-text search returns for the two queries, each without duplicates. */
  method Bm25Split(all: seq<string>, any: seq<string>, sameQuery: bool, limit: nat) returns (hits: seq<string>, allTerms: nat)
    requires Distinct(all) && Distinct(any) && |all| <= limit && |any| <= limit
    ensures allTerms == |all| <= |hits| <= limit
    ensures hits[..allTerms] == all && Distinct(hits)
    ensures forall i :: allTerms <= i < |hits| ==> hits[i] in any
    ensures !sameQuery && |hits| < limit ==> forall id :: id in any ==> id in hits
  {
    hits, allTerms := all, |all|;
    if |hits| >= limit || sameQuery {
      return;
    }
    var seen := set id | id in hits;
    for i := 0 to |any|
      invariant |all| <= |hits| <= limit && Distinct(hits)
      invariant forall p :: 0 <= p < |all| ==> hits[p] == all[p]
      invariant forall p :: |all| <= p < |hits| ==> hits[p] in any[..i]
      invariant forall p :: 0 <= p < i ==> any[p] in hits || |hits| == limit
    {
      assert any[..i + 1] == any[..i] + [any[i]];
      if |hits| >= limit {
        break;
      }
      if any[i] !in seen {
        assert any[i] !in any[..i] && any[i] !in all;
        assert any[i] !in hits;
        ghost var before := hits;
        hits := hits + [any[i]];
        assert forall p :: 0 <= p < |before| ==> hits[p] == before[p];
      } else {
        var p :| 0 <= p < |all| && all[p] == any[i];
        assert hits[p] == any[i];
      }
    }
  }

  /** The three lists hybrid fuses. */
  function HybridLists(bm: seq<string>, allTerms: nat, vec: seq<string>): seq<RankedList>
    requires allTerms <= |bm|
  {
    [RankedList(bm[..allTerms], 1.0, 0), RankedList(bm[allTerms..], 0.25, allTerms), RankedList(vec, 1.0, 0)]
  }

  lemma HybridScore(bm: seq<string>, allTerms: nat, vec: seq<string>, k: nat, id: string)
    requires allTerms <= |bm|
    ensures var l := HybridLists(bm, allTerms, vec);
            Score(l, k, 3, id) == ListScore(l[0], k, allTerms, id) + ListScore(l[1], k, |bm| - allTerms, id) + ListScore(l[2], k, |vec|, id)
  {
    hide ListScore;
    var l := HybridLists(bm, allTerms, vec);
    assert Score(l, k, 1, id) == ListScore(l[0], k, allTerms, id);
    assert Score(l, k, 2, id) == Score(l, k, 1, id) + ListScore(l[1], k, |bm| - allTerms, id);
  }

  /** What a list without duplicates gives an id: weight over 60 plus its place counted from one. */
  ghost predicate Gives(l: seq<string>, id: string, weight: int -> real, share: real) {
    if id in l then exists p :: 0 <= p < |l| && l[p] == id && share == weight(p) / (61 + p) as real
    else share == 0.0
  }

  /** The full-text list counts a quarter from where only some of the terms match, at the places it
      has in the whole list. */
  lemma HybridScoreIs(bm: seq<string>, allTerms: nat, vec: seq<string>, id: string) returns (text: real, vector: real)
    requires Distinct(bm) && Distinct(vec) && allTerms <= |bm|
    ensures Gives(bm, id, p => if p < allTerms then 1.0 else 0.25, text)
    ensures Gives(vec, id, p => 1.0, vector)
    ensures Score(HybridLists(bm, allTerms, vec), 60, 3, id) == text + vector
  {
    hide ListScore, Score;
    HybridScore(bm, allTerms, vec, 60, id);
    PartsDistinct(bm, allTerms);
    var l := HybridLists(bm, allTerms, vec);
    text := ListScore(l[0], 60, allTerms, id) + ListScore(l[1], 60, |bm| - allTerms, id);
    vector := ListScore(l[2], 60, |vec|, id);
    TextShare(bm, allTerms, id);
    if id in vec {
      var q :| 0 <= q < |vec| && vec[q] == id;
      ScorePresent(l[2], 60, |vec|, q);
    } else {
      ScoreAbsent(l[2], 60, |vec|, id);
    }
  }

  lemma TextShare(bm: seq<string>, allTerms: nat, id: string)
    requires Distinct(bm) && allTerms <= |bm| && Distinct(bm[..allTerms]) && Distinct(bm[allTerms..])
    ensures Gives(bm, id, p => if p < allTerms then 1.0 else 0.25,
                  ListScore(RankedList(bm[..allTerms], 1.0, 0), 60, allTerms, id)
                  + ListScore(RankedList(bm[allTerms..], 0.25, allTerms), 60, |bm| - allTerms, id))
  {
    hide ListScore;
    var a, b := RankedList(bm[..allTerms], 1.0, 0), RankedList(bm[allTerms..], 0.25, allTerms);
    if id in bm {
      var p :| 0 <= p < |bm| && bm[p] == id;
      if p < allTerms {
        assert a.ids[p] == id;
        ScorePresent(a, 60, allTerms, p);
        forall i | 0 <= i < |b.ids| ensures b.ids[i] != id {
          assert b.ids[i] == bm[allTerms + i];
        }
        ScoreAbsent(b, 60, |bm| - allTerms, id);
      } else {
        assert b.ids[p - allTerms] == id;
        ScorePresent(b, 60, |bm| - allTerms, p - allTerms);
        forall i | 0 <= i < |a.ids| ensures a.ids[i] != id {
          assert a.ids[i] == bm[i];
        }
        ScoreAbsent(a, 60, allTerms, id);
      }
    } else {
      ScoreAbsent(a, 60, allTerms, id);
      ScoreAbsent(b, 60, |bm| - allTerms, id);
    }
  }

  /** In the all-term list and in the vector list. */
  ghost predicate Agreed(bm: seq<string>, allTerms: nat, vec: seq<string>, id: string)
    requires allTerms <= |bm|
  {
    id in bm[..allTerms] && id in vec
  }

  /** In exactly one of the three lists. */
  ghost predicate OnlyOnce(bm: seq<string>, vec: seq<string>, id: string) {
    (id in bm) != (id in vec)
  }

  lemma TwoSharesBeatOne(a: nat, b: nat)
    requires 1 <= a <= FUSION_DEPTH && 1 <= b <= FUSION_DEPTH
    ensures Share(1.0, RRFK, a) + Share(1.0, RRFK, b) > Share(1.0, RRFK, 1)
  {
    ShareAtMost(1.0, RRFK, a, FUSION_DEPTH);
    ShareAtMost(1.0, RRFK, b, FUSION_DEPTH);
    assert Share(1.0, RRFK, FUSION_DEPTH) == 1.0 / 110.0 && Share(1.0, RRFK, 1) == 1.0 / 61.0;
  }

  lemma WeightOrder(a: real, b: real, x: real)
    requires a <= b && x > 0.0
    ensures a / x <= b / x
  {
    assert b / x - a / x == (b - a) / x;
  }

  lemma {:induction false} ListScoreBounded(l: RankedList, k: nat, id: string)
    requires Distinct(l.ids) && 0.0 < l.weight <= 1.0 && k > 0
    ensures 0.0 <= ListScore(l, k, |l.ids|, id) <= Share(1.0, k, 1)
    ensures id !in l.ids ==> ListScore(l, k, |l.ids|, id) == 0.0
  {
    if id in l.ids {
      var i :| 0 <= i < |l.ids| && l.ids[i] == id;
      ScorePresent(l, k, |l.ids|, i);
      ShareAtMost(l.weight, k, 1, l.offset + i + 1);
      WeightOrder(l.weight, 1.0, (k + 1) as real);
    } else {
      ScoreAbsent(l, k, |l.ids|, id);
    }
  }

  lemma PartsDistinct(bm: seq<string>, n: nat)
    requires Distinct(bm) && n <= |bm|
    ensures Distinct(bm[..n]) && Distinct(bm[n..])
    ensures forall id :: id in bm <==> id in bm[..n] || id in bm[n..]
    ensures forall id :: id in bm[..n] ==> id !in bm[n..]
  {
    assert bm == bm[..n] + bm[n..];
    var a, b := bm[..n], bm[n..];
    forall i, j | 0 <= i < |a| && 0 <= j < |b| ensures a[i] != b[j] {
      assert a[i] == bm[i] && b[j] == bm[n + j];
    }
  }

  /** What both retrievers find, with every term, outranks whatever only one of them finds. */
  lemma AgreementOutranks(bm: seq<string>, allTerms: nat, vec: seq<string>, out: seq<Fused>, i: nat, j: nat)
    requires Distinct(bm) && Distinct(vec) && allTerms <= |bm| <= FUSION_DEPTH && |vec| <= FUSION_DEPTH
    requires IsFusion(HybridLists(bm, allTerms, vec), RRFK, out) && i < |out| && j < |out|
    requires Agreed(bm, allTerms, vec, out[i].id) && OnlyOnce(bm, vec, out[j].id)
    ensures i < j
  {
    hide Score, ListScore, Share, IsFusion;
    var a, b := out[i].id, out[j].id;
    var l := HybridLists(bm, allTerms, vec);
    PartsDistinct(bm, allTerms);
    HybridScore(bm, allTerms, vec, RRFK, a);
    HybridScore(bm, allTerms, vec, RRFK, b);
    var p :| 0 <= p < allTerms && l[0].ids[p] == a;
    var q :| 0 <= q < |vec| && l[2].ids[q] == a;
    ScorePresent(l[0], RRFK, allTerms, p);
    ScorePresent(l[2], RRFK, |vec|, q);
    ListScoreBounded(l[1], RRFK, a);
    TwoSharesBeatOne(p + 1, q + 1);
    ListScoreBounded(l[0], RRFK, b);
    ListScoreBounded(l[1], RRFK, b);
    ListScoreBounded(l[2], RRFK, b);
    HigherFirst(l, RRFK, out, i, j);
  }

  /** The margin is not accidental: agreement wins at every pair of ranks exactly down to depth 61. */
  lemma AgreementDepthIff(depth: nat)
    ensures (forall a: nat, b: nat :: 1 <= a <= depth && 1 <= b <= depth ==>
               Share(1.0, RRFK, a) + Share(1.0, RRFK, b) > Share(1.0, RRFK, 1)) <==> depth <= 61
  {
    hide Share;
    assert Share(1.0, RRFK, 61) == 1.0 / 121.0 && Share(1.0, RRFK, 1) == 1.0 / 61.0 && Share(1.0, RRFK, 62) == 1.0 / 122.0 by { SharesAt(); }
    if depth <= 61 {
      forall a: nat, b: nat | 1 <= a <= depth && 1 <= b <= depth
        ensures Share(1.0, RRFK, a) + Share(1.0, RRFK, b) > Share(1.0, RRFK, 1)
      {
        ShareAtMost(1.0, RRFK, a, 61);
        ShareAtMost(1.0, RRFK, b, 61);
      }
    } else {
      assert !(Share(1.0, RRFK, 62) + Share(1.0, RRFK, 62) > Share(1.0, RRFK, 1));
    }
  }

  lemma SharesAt()
    ensures Share(1.0, RRFK, 61) == 1.0 / 121.0 && Share(1.0, RRFK, 1) == 1.0 / 61.0 && Share(1.0, RRFK, 62) == 1.0 / 122.0
  {}

  // ----- sections that govern the code being edited -----

  const GOVERNED_PER_DOC := 3
  const GOVERNED_TOTAL := 6
  const GOVERNED_WEIGHT := 1.5

  /** A search hit: its id, its document, and the rest of it. */
  datatype Section = Section(id: string, docPath: string, payload: string, score: real)

  function Ids(hits: seq<Section>): (ids: seq<string>)
    ensures |ids| == |hits| && forall i :: 0 <= i < |hits| ==> ids[i] == hits[i].id
  {
    seq(|hits|, i requires 0 <= i < |hits| => hits[i].id)
  }

  /** The sections of one document, in the order given. */
  function OfDoc(chunks: seq<Section>, path: string): seq<Section> {
    if chunks == [] then []
    else
      var l := |chunks| - 1;
      OfDoc(chunks[..l], path) + if chunks[l].docPath == path then [chunks[l]] else []
  }

  /** a goes before b: retrieval ranked it and not b, or ranked it higher. */
  predicate Preferred(a: Section, b: Section, rank: map<string, nat>) {
    a.id in rank && (b.id !in rank || rank[a.id] < rank[b.id])
  }

  /** Stable insertion, from the right. */
  function PlaceSection(l: seq<Section>, x: Section, rank: map<string, nat>): seq<Section> {
    if l == [] || !Preferred(x, l[|l| - 1], rank) then l + [x]
    else PlaceSection(l[..|l| - 1], x, rank) + [l[|l| - 1]]
  }

  /** Ranked sections by rank, then the unranked ones as they stood. */
  function ByPreference(l: seq<Section>, rank: map<string, nat>): seq<Section> {
    if l == [] then [] else PlaceSection(ByPreference(l[..|l| - 1], rank), l[|l| - 1], rank)
  }

  /** The first sections of each governing document. */
  function GoverningSections(docPaths: seq<string>, chunks: seq<Section>, rank: map<string, nat>): seq<Section> {
    if docPaths == [] then []
    else
      var l := |docPaths| - 1;
      var before := GoverningSections(docPaths[..l], chunks, rank);
      before + Head(ByPreference(OfDoc(chunks, docPaths[l]), rank), GOVERNED_TOTAL - |before|)
  }

  /** At most GOVERNED_PER_DOC of them, and no more than there is room for. */
  function Head(cs: seq<Section>, room: int): (h: seq<Section>)
    ensures h <= cs && |h| <= GOVERNED_PER_DOC && (room >= 0 ==> |h| <= room)
    ensures room >= 0 && |h| < GOVERNED_PER_DOC && |h| < room ==> h == cs
  {
    var n := if room < 0 then 0 else if room < GOVERNED_PER_DOC then room else GOVERNED_PER_DOC;
    if |cs| <= n then cs else cs[..n]
  }

  function Ranks(hits: seq<Section>, n: nat): (rank: map<string, nat>)
    requires n <= |hits|
    ensures forall id :: id in rank <==> exists i :: 0 <= i < n && hits[i].id == id
    ensures forall id :: id in rank ==> rank[id] < n && hits[rank[id]].id == id
  {
    if n == 0 then map[] else Ranks(hits, n - 1)[hits[n - 1].id := n - 1]
  }

  function GovernedLists(hits: seq<Section>, governing: seq<Section>): seq<RankedList> {
    [RankedList(Ids(hits), 1.0, 0), RankedList(Ids(governing), GOVERNED_WEIGHT, 0)]
  }

  /** Every id of these lists has its section on file. */
  ghost predicate OnFile(byID: map<string, Section>, hits: seq<Section>, governing: seq<Section>, chunks: seq<Section>) {
    && (forall id :: Has(hits, id) || Has(governing, id) ==> id in byID)
    && forall id :: id in byID ==> byID[id].id == id && (byID[id] in hits || byID[id] in chunks)
  }

  ghost predicate Has(l: seq<Section>, id: string) {
    exists i :: 0 <= i < |l| && l[i].id == id
  }

  /** out is the fusion, each entry the section of that id with the fused score. */
  ghost predicate Rescored(out: seq<Section>, fused: seq<Fused>, hits: seq<Section>, chunks: seq<Section>) {
    |out| == |fused| && forall i :: 0 <= i < |out| ==> RescoredAt(out[i], fused[i], hits, chunks)
  }

  ghost predicate RescoredAt(s: Section, f: Fused, hits: seq<Section>, chunks: seq<Section>) {
    s.id == f.id && s.score == f.score && exists h :: (h in hits || h in chunks) && s == h.(score := f.score)
  }

  /** governed, given the governing documents' paths and their sections. */
  method Governed(hits: seq<Section>, docPaths: seq<string>, chunks: seq<Section>)
    returns (out: seq<Section>, ghost fused: seq<Fused>, ghost groups: seq<seq<Section>>)
    ensures docPaths == [] ==> out == hits
    ensures docPaths != [] ==> Rescored(out, fused, hits, chunks)
    ensures docPaths != [] && DistinctSections(hits) && DistinctSections(chunks) && Distinct(docPaths) ==>
      && TakenInTurn(hits, chunks, docPaths, groups)
      && IsFusion([RankedList(Ids(hits), 1.0, 0), RankedList(Ids(Flatten(groups)), 1.5, 0)], 60, fused)
      && GovernedOrder(hits, Flatten(groups), out)
    ensures docPaths != [] && DistinctSections(hits) && DistinctSections(chunks) && Distinct(docPaths) ==>
      forall d :: 0 <= d < |docPaths| && IsFirstWithSection(chunks, docPaths, d) ==>
        exists i, c :: 0 <= i < |out| && c in chunks && c.docPath == docPaths[d] && out[i].id == c.id
  {
    hide IsFusion, ByPreference, Has, OnFile, Rescored, GovernedOrder, DistinctSections, Distinct, TakenInTurn, IsFirstWithSection;
    groups := [];
    if |docPaths| == 0 {
      return hits, [], groups;
    }
    var byID, rank := FileHits(hits, chunks);
    var governing: seq<Section> := [];
    for d := 0 to |docPaths|
      invariant governing == GoverningSections(docPaths[..d], chunks, rank)
      invariant |governing| <= GOVERNED_TOTAL && OnFile(byID, hits, governing, chunks)
    {
      assert docPaths[..d + 1][..d] == docPaths[..d];
      var cs := ByPreference(OfDoc(chunks, docPaths[d]), rank);
      PreferenceKeeps(chunks, docPaths[d], rank);
      governing, byID := TakeFirst(cs, governing, byID, hits, chunks);
    }
    assert docPaths[..|docPaths|] == docPaths;
    var order := RRFWeighted(RRFK, GovernedLists(hits, governing));
    fused := order;
    out := Rescore(order, byID, hits, governing, chunks);
    if DistinctSections(hits) && DistinctSections(chunks) && Distinct(docPaths) {
      GovernedOrders(hits, docPaths, chunks, out, fused);
      groups := SelectionTakes(hits, chunks, docPaths);
      forall d | 0 <= d < |docPaths| && IsFirstWithSection(chunks, docPaths, d)
        ensures exists i, c :: 0 <= i < |out| && c in chunks && c.docPath == docPaths[d] && out[i].id == c.id
      {
        var c := FirstHasOne(hits, chunks, docPaths, groups, d);
        SameIds(out, fused, hits, chunks);
        var i := ComesOut(hits, Flatten(groups), fused, c);
      }
    }
  }

  method FileHits(hits: seq<Section>, ghost chunks: seq<Section>) returns (byID: map<string, Section>, rank: map<string, nat>)
    ensures rank == Ranks(hits, |hits|)
    ensures OnFile(byID, hits, [], chunks)
  {
    byID, rank := map[], map[];
    for i := 0 to |hits|
      invariant rank == Ranks(hits, i)
      invariant forall k :: 0 <= k < i ==> hits[k].id in byID
      invariant forall id :: id in byID ==> byID[id].id == id && byID[id] in hits
    {
      byID := byID[hits[i].id := hits[i]];
      rank := rank[hits[i].id := i];
    }
  }

  /** The innermost loop: the first few sections of one document. */
  method TakeFirst(cs: seq<Section>, before: seq<Section>, filed: map<string, Section>, ghost hits: seq<Section>, ghost chunks: seq<Section>)
    returns (governing: seq<Section>, byID: map<string, Section>)
    requires |before| <= GOVERNED_TOTAL && OnFile(filed, hits, before, chunks)
    requires forall c :: c in cs ==> c in chunks
    ensures governing == before + Head(cs, GOVERNED_TOTAL - |before|)
    ensures |governing| <= GOVERNED_TOTAL && OnFile(byID, hits, governing, chunks)
  {
    hide OnFile, Has;
    governing, byID := before, filed;
    var i := 0;
    while i < |cs|
      invariant 0 <= i <= |cs| && i <= GOVERNED_PER_DOC
      invariant governing == before + cs[..i] && |governing| <= GOVERNED_TOTAL
      invariant OnFile(byID, hits, governing, chunks)
    {
      if i == GOVERNED_PER_DOC || |governing| == GOVERNED_TOTAL {
        break;
      }
      FileOne(byID, hits, governing, chunks, cs[i]);
      if cs[i].id !in byID {
        byID := byID[cs[i].id := cs[i]];
      }
      assert cs[..i + 1] == cs[..i] + [cs[i]];
      governing := governing + [cs[i]];
      i := i + 1;
    }
    assert cs[..i] == Head(cs, GOVERNED_TOTAL - |before|);
  }

  lemma FileOne(byID: map<string, Section>, hits: seq<Section>, governing: seq<Section>, chunks: seq<Section>, c: Section)
    requires OnFile(byID, hits, governing, chunks) && c in chunks
    ensures OnFile(if c.id in byID then byID else byID[c.id := c], hits, governing + [c], chunks)
  {
    var all := governing + [c];
    forall id | Has(all, id) ensures Has(governing, id) || id == c.id {
      var i :| 0 <= i < |all| && all[i].id == id;
      assert i < |governing| ==> governing[i].id == id;
    }
  }

  method Rescore(order: seq<Fused>, byID: map<string, Section>, ghost hits: seq<Section>, ghost governing: seq<Section>, ghost chunks: seq<Section>)
    returns (out: seq<Section>)
    requires OnFile(byID, hits, governing, chunks) && IsFusion(GovernedLists(hits, governing), RRFK, order)
    ensures Rescored(out, order, hits, chunks)
  {
    hide IsFusion;
    out := [];
    FusedIsListed(hits, governing, order);
    for i := 0 to |order|
      invariant |out| == i
      invariant forall k :: 0 <= k < i ==> RescoredAt(out[k], order[k], hits, chunks)
    {
      var h := byID[order[i].id];
      out := out + [h.(score := order[i].score)];
    }
  }

  lemma ListedIff(hits: seq<Section>, g: seq<Section>, id: string)
    ensures Listed(GovernedLists(hits, g), id) <==> Has(hits, id) || Has(g, id)
  {
    var l := GovernedLists(hits, g);
    assert id in l[0].ids <==> Has(hits, id) by { IdsHave(hits, id); }
    assert id in l[1].ids <==> Has(g, id) by { IdsHave(g, id); }
  }

  lemma IdsHave(l: seq<Section>, id: string)
    ensures id in Ids(l) <==> Has(l, id)
  {
    if id in Ids(l) {
      var i :| 0 <= i < |Ids(l)| && Ids(l)[i] == id;
      assert l[i].id == id;
    }
    if Has(l, id) {
      var i :| 0 <= i < |l| && l[i].id == id;
      assert Ids(l)[i] == id;
    }
  }

  lemma FusedIsListed(hits: seq<Section>, g: seq<Section>, out: seq<Fused>)
    requires IsFusion(GovernedLists(hits, g), RRFK, out)
    ensures forall i :: 0 <= i < |out| ==> Has(hits, out[i].id) || Has(g, out[i].id)
  {
    hide Score, TopK.Sorted, Listed, Has;
    forall i | 0 <= i < |out| ensures Has(hits, out[i].id) || Has(g, out[i].id) {
      ListedIff(hits, g, out[i].id);
    }
  }

  // ----- the sort and the selection -----

  lemma {:induction false} PlaceKeeps(l: seq<Section>, x: Section, rank: map<string, nat>)
    ensures multiset(PlaceSection(l, x, rank)) == multiset(l) + multiset{x}
  {
    hide Preferred;
    if l != [] {
      PlaceKeeps(l[..|l| - 1], x, rank);
      assert l == l[..|l| - 1] + [l[|l| - 1]];
    }
  }

  lemma {:induction false} SortKeeps(l: seq<Section>, rank: map<string, nat>)
    ensures multiset(ByPreference(l, rank)) == multiset(l)
  {
    hide PlaceSection;
    if l != [] {
      SortKeeps(l[..|l| - 1], rank);
      PlaceKeeps(ByPreference(l[..|l| - 1], rank), l[|l| - 1], rank);
      assert l == l[..|l| - 1] + [l[|l| - 1]];
    }
  }

  lemma {:induction false} OfDocIn(chunks: seq<Section>, path: string)
    ensures forall c :: c in OfDoc(chunks, path) <==> c in chunks && c.docPath == path
  {
    if chunks != [] {
      OfDocIn(chunks[..|chunks| - 1], path);
      assert chunks == chunks[..|chunks| - 1] + [chunks[|chunks| - 1]];
    }
  }

  lemma PreferenceKeeps(chunks: seq<Section>, path: string, rank: map<string, nat>)
    ensures forall c :: c in ByPreference(OfDoc(chunks, path), rank) <==> c in chunks && c.docPath == path
  {
    hide ByPreference, OfDoc;
    var l := OfDoc(chunks, path);
    SortKeeps(l, rank);
    OfDocIn(chunks, path);
    forall c ensures c in ByPreference(l, rank) <==> c in l {
      assert c in multiset(ByPreference(l, rank)) <==> c in multiset(l);
    }
  }

  ghost predicate DistinctSections(l: seq<Section>) {
    forall i, j :: 0 <= i < j < |l| ==> l[i].id != l[j].id
  }

  lemma SameContentDistinct(a: seq<Section>, b: seq<Section>)
    requires DistinctSections(a) && multiset(a) == multiset(b)
    ensures DistinctSections(b)
  {
    DistinctByCount(a, b);
    forall i, j | 0 <= i < j < |b| ensures b[i].id != b[j].id {
      assert b[i] in multiset(a) && b[j] in multiset(a);
    }
  }

  lemma {:induction false} OfDocDistinct(chunks: seq<Section>, path: string)
    requires DistinctSections(chunks)
    ensures DistinctSections(OfDoc(chunks, path))
  {
    if chunks != [] {
      var l := |chunks| - 1;
      OfDocDistinct(chunks[..l], path);
      OfDocIn(chunks[..l], path);
      var before := OfDoc(chunks[..l], path);
      forall i | 0 <= i < |before| ensures before[i].id != chunks[l].id {
        assert before[i] in chunks[..l];
      }
    }
  }

  /** At most six governing sections, three a document, no id twice, all from governing documents. */
  lemma {:induction false} GoverningIsSmall(docPaths: seq<string>, chunks: seq<Section>, rank: map<string, nat>)
    requires DistinctSections(chunks) && Distinct(docPaths)
    ensures var g := GoverningSections(docPaths, chunks, rank);
            && |g| <= GOVERNED_TOTAL && DistinctSections(g)
            && forall i :: 0 <= i < |g| ==> g[i] in chunks && g[i].docPath in docPaths
  {
    hide ByPreference, OfDoc;
    if docPaths != [] {
      var l := |docPaths| - 1;
      GoverningIsSmall(docPaths[..l], chunks, rank);
      var before := GoverningSections(docPaths[..l], chunks, rank);
      var cs := ByPreference(OfDoc(chunks, docPaths[l]), rank);
      SortKeeps(OfDoc(chunks, docPaths[l]), rank);
      OfDocDistinct(chunks, docPaths[l]);
      SameContentDistinct(OfDoc(chunks, docPaths[l]), cs);
      PreferenceKeeps(chunks, docPaths[l], rank);
      DifferentDocuments(before, Head(cs, GOVERNED_TOTAL - |before|), chunks, docPaths[..l], docPaths[l]);
    }
  }

  lemma DifferentDocuments(a: seq<Section>, b: seq<Section>, chunks: seq<Section>, docs: seq<string>, doc: string)
    requires DistinctSections(a) && DistinctSections(b) && DistinctSections(chunks)
    requires forall i :: 0 <= i < |a| ==> a[i] in chunks && a[i].docPath in docs
    requires forall i :: 0 <= i < |b| ==> b[i] in chunks && b[i].docPath == doc
    requires doc !in docs
    ensures DistinctSections(a + b)
  {
    forall i, j | 0 <= i < |a| && 0 <= j < |b| ensures a[i].id != b[j].id {
      assert a[i].docPath in docs;
      var p :| 0 <= p < |chunks| && chunks[p] == a[i];
      var q :| 0 <= q < |chunks| && chunks[q] == b[j];
    }
  }

  /** Within a document the sections retrieval ranked come first, in its order; the rest keep theirs. */
  ghost predicate InPreference(l: seq<Section>, rank: map<string, nat>) {
    forall i, j :: 0 <= i < j < |l| ==> !Preferred(l[j], l[i], rank)
  }

  lemma {:induction false} PlaceInPreference(l: seq<Section>, x: Section, rank: map<string, nat>)
    requires InPreference(l, rank)
    ensures InPreference(PlaceSection(l, x, rank), rank)
  {
    if l != [] {
      hide Preferred;
      var front, last := l[..|l| - 1], l[|l| - 1];
      NotPreferredTo(l, rank);
      PreferredAsymmetric(x, last, rank);
      if Preferred(x, last, rank) {
        PlaceInPreference(front, x, rank);
        BeforeLast(front, x, last, rank);
        hide PlaceSection;
        InPreferenceSnoc(PlaceSection(front, x, rank), last, rank);
      } else {
        hide PlaceSection;
        forall i | 0 <= i < |l| ensures !Preferred(x, l[i], rank) {
          PreferredThrough(x, last, l[i], rank);
        }
        InPreferenceSnoc(l, x, rank);
      }
    }
  }

  lemma NotPreferredTo(l: seq<Section>, rank: map<string, nat>)
    requires l != [] && InPreference(l, rank)
    ensures InPreference(l[..|l| - 1], rank)
    ensures forall i :: 0 <= i < |l| ==> !Preferred(l[|l| - 1], l[i], rank)
  {
    PreferredAsymmetric(l[|l| - 1], l[|l| - 1], rank);
    hide Preferred;
  }

  lemma PreferredAsymmetric(x: Section, y: Section, rank: map<string, nat>)
    ensures Preferred(x, y, rank) ==> !Preferred(y, x, rank)
  {}

  lemma PreferredThrough(x: Section, y: Section, z: Section, rank: map<string, nat>)
    requires !Preferred(x, y, rank) && !Preferred(y, z, rank)
    ensures !Preferred(x, z, rank)
  {}

  lemma InPreferenceSnoc(l: seq<Section>, x: Section, rank: map<string, nat>)
    requires InPreference(l, rank) && forall i :: 0 <= i < |l| ==> !Preferred(x, l[i], rank)
    ensures InPreference(l + [x], rank)
  {
    hide Preferred;
  }

  /** What is placed before last is not outranked by it. */
  lemma BeforeLast(front: seq<Section>, x: Section, last: Section, rank: map<string, nat>)
    requires !Preferred(last, x, rank) && forall i :: 0 <= i < |front| ==> !Preferred(last, front[i], rank)
    ensures forall i :: 0 <= i < |PlaceSection(front, x, rank)| ==> !Preferred(last, PlaceSection(front, x, rank)[i], rank)
  {
    hide Preferred, PlaceSection;
    PlaceKeeps(front, x, rank);
    var r := PlaceSection(front, x, rank);
    forall i | 0 <= i < |r| ensures !Preferred(last, r[i], rank) {
      assert r[i] in multiset(r);
      assert r[i] == x || r[i] in multiset(front);
    }
  }

  lemma {:induction false} SortPrefers(l: seq<Section>, rank: map<string, nat>)
    ensures InPreference(ByPreference(l, rank), rank)
  {
    hide PlaceSection, Preferred;
    if l != [] {
      SortPrefers(l[..|l| - 1], rank);
      PlaceInPreference(ByPreference(l[..|l| - 1], rank), l[|l| - 1], rank);
    }
  }

  // ----- which sections govern, whoever sorts them -----

  /** a goes before b: retrieval found a, and b later or not at all; or it found neither and a is
      first in the document. */
  ghost predicate GoesFirst(hits: seq<Section>, chunks: seq<Section>, a: Section, b: Section) {
    || (exists p :: 0 <= p < |hits| && hits[p].id == a.id && forall q :: 0 <= q < |hits| && hits[q].id == b.id ==> p < q)
    || (!Has(hits, a.id) && !Has(hits, b.id) && InOrder(chunks, a, b))
  }

  ghost predicate InOrder(l: seq<Section>, a: Section, b: Section) {
    exists i, j :: 0 <= i < j < |l| && l[i] == a && l[j] == b
  }

  ghost function PlacesOf(chunks: seq<Section>, path: string): set<int> {
    set k | 0 <= k < |chunks| && chunks[k].docPath == path
  }

  /** As many sections of the document as it has, three at most and no more than there is room for:
      those that go first, in that order. */
  ghost predicate Takes(hits: seq<Section>, chunks: seq<Section>, path: string, taken: seq<Section>, room: int) {
    && (forall i :: 0 <= i < |taken| ==> taken[i] in chunks && taken[i].docPath == path)
    && |taken| == Least(Least(3, |PlacesOf(chunks, path)|), room)
    && (forall i, j :: 0 <= i < j < |taken| ==> GoesFirst(hits, chunks, taken[i], taken[j]))
    && (forall i, c :: 0 <= i < |taken| && c in chunks && c.docPath == path && c !in taken ==> GoesFirst(hits, chunks, taken[i], c))
  }

  function Least(a: int, b: int): (m: int)
    ensures m <= a && m <= b && (m == a || m == b)
  {
    if a <= b then a else b
  }

  /** Where the insertion puts x: after all it is not preferred to. */
  lemma {:induction false} PlacedAt(l: seq<Section>, x: Section, rank: map<string, nat>) returns (k: nat)
    ensures k <= |l| && PlaceSection(l, x, rank) == l[..k] + [x] + l[k..]
    ensures forall i :: k <= i < |l| ==> Preferred(x, l[i], rank)
  {
    hide Preferred;
    if l == [] || !Preferred(x, l[|l| - 1], rank) {
      k := |l|;
      assert l[..k] + [x] + l[k..] == l + [x];
    } else {
      var front := l[..|l| - 1];
      k := PlacedAt(front, x, rank);
      assert l[..k] == front[..k] && l[k..] == front[k..] + [l[|l| - 1]];
    }
  }

  /** Preferred, or level and first as they stood. */
  ghost predicate SortedPair(l: seq<Section>, rank: map<string, nat>, a: Section, b: Section) {
    !Preferred(b, a, rank) && (Preferred(a, b, rank) || InOrder(l, a, b))
  }

  lemma {:induction false} SortIsStable(l: seq<Section>, rank: map<string, nat>)
    ensures forall i, j :: 0 <= i < j < |ByPreference(l, rank)| ==>
      SortedPair(l, rank, ByPreference(l, rank)[i], ByPreference(l, rank)[j])
  {
    hide Preferred, PlaceSection, InOrder;
    if l != [] {
      var front, x := l[..|l| - 1], l[|l| - 1];
      var s := ByPreference(front, rank);
      SortIsStable(front, rank);
      var k := PlacedAt(s, x, rank);
      SortPrefers(l, rank);
      var r := ByPreference(l, rank);
      assert r == s[..k] + [x] + s[k..];
      SortKeeps(front, rank);
      forall i, j | 0 <= i < j < |r| ensures SortedPair(l, rank, r[i], r[j]) {
        if i == k {
          assert r[j] == s[j - 1];
        } else if j == k {
          assert r[i] == s[i] && s[i] in multiset(s);
          assert s[i] in multiset(front);
          LastInOrder(l, s[i]);
        } else {
          var a, b := if i < k then i else i - 1, if j < k then j else j - 1;
          assert r[i] == s[a] && r[j] == s[b];
          assert SortedPair(front, rank, s[a], s[b]);
          LongerOrder(front, l, s[a], s[b]);
        }
      }
    }
  }

  lemma LastInOrder(l: seq<Section>, a: Section)
    requires l != [] && a in l[..|l| - 1]
    ensures InOrder(l, a, l[|l| - 1])
  {
    var i :| 0 <= i < |l| - 1 && l[..|l| - 1][i] == a;
    assert l[i] == a;
  }

  lemma LongerOrder(front: seq<Section>, l: seq<Section>, a: Section, b: Section)
    requires front <= l
    ensures InOrder(front, a, b) ==> InOrder(l, a, b)
  {
    if InOrder(front, a, b) {
      var i, j :| 0 <= i < j < |front| && front[i] == a && front[j] == b;
      assert l[i] == a && l[j] == b;
    }
  }

  lemma {:induction false} OfDocInOrder(chunks: seq<Section>, path: string, a: Section, b: Section)
    requires InOrder(OfDoc(chunks, path), a, b)
    ensures InOrder(chunks, a, b)
    decreases |chunks|
  {
    var front := chunks[..|chunks| - 1];
    var l, last := OfDoc(front, path), chunks[|chunks| - 1];
    var i, j :| 0 <= i < j < |OfDoc(chunks, path)| && OfDoc(chunks, path)[i] == a && OfDoc(chunks, path)[j] == b;
    if j < |l| {
      assert l[i] == a && l[j] == b;
      OfDocInOrder(front, path, a, b);
      LongerOrder(front, chunks, a, b);
    } else {
      assert b == last && l[i] == a;
      OfDocIn(front, path);
      LastInOrder(chunks, a);
    }
  }

  lemma {:induction false} OfDocCount(chunks: seq<Section>, path: string)
    ensures |OfDoc(chunks, path)| == |PlacesOf(chunks, path)|
  {
    if chunks != [] {
      var front, n := chunks[..|chunks| - 1], |chunks| - 1;
      OfDocCount(front, path);
      if chunks[n].docPath == path {
        assert PlacesOf(chunks, path) == PlacesOf(front, path) + {n};
      } else {
        assert PlacesOf(chunks, path) == PlacesOf(front, path);
      }
    }
  }

  /** Ranks of distinct hits are their places. */
  lemma RankIs(hits: seq<Section>, p: nat)
    requires DistinctSections(hits) && p < |hits|
    ensures hits[p].id in Ranks(hits, |hits|) && Ranks(hits, |hits|)[hits[p].id] == p
  {
    hide Ranks;
  }

  lemma PreferredGoesFirst(hits: seq<Section>, chunks: seq<Section>, a: Section, b: Section)
    requires DistinctSections(hits) && a.id != b.id
    requires SortedPair(chunks, Ranks(hits, |hits|), a, b)
    ensures GoesFirst(hits, chunks, a, b)
  {
    hide InOrder, Ranks;
    var rank := Ranks(hits, |hits|);
    if a.id in rank {
      var p := rank[a.id];
      forall q | 0 <= q < |hits| && hits[q].id == b.id ensures p < q {
        RankIs(hits, q);
        assert hits[p].id != hits[q].id;
      }
    } else {
      assert b.id !in rank;
    }
  }

  lemma HeadTakes(hits: seq<Section>, chunks: seq<Section>, path: string, room: int)
    requires DistinctSections(hits) && DistinctSections(chunks) && room >= 0
    ensures Takes(hits, chunks, path, Head(ByPreference(OfDoc(chunks, path), Ranks(hits, |hits|)), room), room)
  {
    hide ByPreference, OfDoc, Ranks, GoesFirst, Takes, Head, DistinctSections;
    var rank := Ranks(hits, |hits|);
    var l := OfDoc(chunks, path);
    var cs := ByPreference(l, rank);
    OfDocCount(chunks, path);
    SortKeeps(l, rank);
    assert |cs| == |multiset(cs)| == |multiset(l)|;
    PreferenceKeeps(chunks, path, rank);
    InTurn(hits, chunks, path, cs);
    FirstOnes(hits, chunks, path, cs, room);
  }

  lemma InTurn(hits: seq<Section>, chunks: seq<Section>, path: string, cs: seq<Section>)
    requires DistinctSections(hits) && DistinctSections(chunks)
    requires cs == ByPreference(OfDoc(chunks, path), Ranks(hits, |hits|))
    ensures forall i, j :: 0 <= i < j < |cs| ==> GoesFirst(hits, chunks, cs[i], cs[j])
  {
    hide ByPreference, OfDoc, Ranks, GoesFirst, SortedPair;
    var rank := Ranks(hits, |hits|);
    var l := OfDoc(chunks, path);
    SortKeeps(l, rank);
    OfDocDistinct(chunks, path);
    SameContentDistinct(l, cs);
    SortIsStable(l, rank);
    forall i, j | 0 <= i < j < |cs| ensures GoesFirst(hits, chunks, cs[i], cs[j]) {
      assert SortedPair(l, rank, cs[i], cs[j]);
      WiderPair(chunks, path, rank, cs[i], cs[j]);
      PreferredGoesFirst(hits, chunks, cs[i], cs[j]);
    }
  }

  lemma FirstOnes(hits: seq<Section>, chunks: seq<Section>, path: string, cs: seq<Section>, room: int)
    requires room >= 0 && |cs| == |PlacesOf(chunks, path)|
    requires forall c :: c in cs <==> c in chunks && c.docPath == path
    requires forall i, j :: 0 <= i < j < |cs| ==> GoesFirst(hits, chunks, cs[i], cs[j])
    ensures Takes(hits, chunks, path, Head(cs, room), room)
  {
    hide GoesFirst, PlacesOf;
    var h := Head(cs, room);
    forall i | 0 <= i < |h| ensures h[i] == cs[i] && h[i] in cs {
    }
    forall i, c | 0 <= i < |h| && c in chunks && c.docPath == path && c !in h ensures GoesFirst(hits, chunks, h[i], c) {
      var j :| 0 <= j < |cs| && cs[j] == c;
      forall k | 0 <= k < |h| ensures cs[k] != c {
        assert h[k] == cs[k] && h[k] in h;
      }
    }
  }

  lemma WiderPair(chunks: seq<Section>, path: string, rank: map<string, nat>, a: Section, b: Section)
    requires SortedPair(OfDoc(chunks, path), rank, a, b)
    ensures SortedPair(chunks, rank, a, b)
  {
    hide Preferred, OfDoc, InOrder;
    if InOrder(OfDoc(chunks, path), a, b) {
      OfDocInOrder(chunks, path, a, b);
    }
  }

  /** Document by document, in the order given, each takes from what is left of six places. */
  ghost predicate TakenInTurn(hits: seq<Section>, chunks: seq<Section>, docPaths: seq<string>, groups: seq<seq<Section>>) {
    && |groups| == |docPaths|
    && forall d :: 0 <= d < |docPaths| ==> Takes(hits, chunks, docPaths[d], groups[d], 6 - |Flatten(groups[..d])|)
  }

  lemma {:induction false} SelectionTakes(hits: seq<Section>, chunks: seq<Section>, docPaths: seq<string>) returns (groups: seq<seq<Section>>)
    requires DistinctSections(hits) && DistinctSections(chunks)
    ensures Flatten(groups) == GoverningSections(docPaths, chunks, Ranks(hits, |hits|))
    ensures |Flatten(groups)| <= 6 && TakenInTurn(hits, chunks, docPaths, groups)
    decreases |docPaths|
  {
    hide ByPreference, OfDoc, Ranks, Takes, Head, DistinctSections;
    groups := [];
    if docPaths != [] {
      var l := |docPaths| - 1;
      var before := SelectionTakes(hits, chunks, docPaths[..l]);
      var room := GOVERNED_TOTAL - |Flatten(before)|;
      var h := Head(ByPreference(OfDoc(chunks, docPaths[l]), Ranks(hits, |hits|)), room);
      HeadTakes(hits, chunks, docPaths[l], room);
      groups := before + [h];
      FlattenConcat(before, [h]);
      FlattenOne(h);
      forall d | 0 <= d < |docPaths| ensures Takes(hits, chunks, docPaths[d], groups[d], 6 - |Flatten(groups[..d])|) {
        if d < l {
          assert groups[..d] == before[..d] && docPaths[..l][d] == docPaths[d];
        } else {
          assert groups[..d] == before;
        }
      }
    }
  }

  /** Of the governing documents before it, none has a section. */
  ghost predicate IsFirstWithSection(chunks: seq<Section>, docPaths: seq<string>, d: nat) {
    && d < |docPaths|
    && (exists c :: c in chunks && c.docPath == docPaths[d])
    && forall e, c :: 0 <= e < d && c in chunks ==> c.docPath != docPaths[e]
  }

  /** All six places are left for it, so it takes one at least. */
  lemma FirstHasOne(hits: seq<Section>, chunks: seq<Section>, docPaths: seq<string>, groups: seq<seq<Section>>, d: nat) returns (c: Section)
    requires TakenInTurn(hits, chunks, docPaths, groups) && IsFirstWithSection(chunks, docPaths, d)
    ensures c in chunks && c.docPath == docPaths[d] && c in Flatten(groups)
  {
    hide GoesFirst;
    forall e | 0 <= e < d ensures groups[e] == [] {
      assert Takes(hits, chunks, docPaths[e], groups[e], 6 - |Flatten(groups[..e])|);
      assert PlacesOf(chunks, docPaths[e]) == {};
    }
    NothingTaken(groups[..d]);
    var taken := groups[d];
    assert Takes(hits, chunks, docPaths[d], taken, 6 - |Flatten(groups[..d])|);
    var some :| some in chunks && some.docPath == docPaths[d];
    var k :| 0 <= k < |chunks| && chunks[k] == some;
    assert k in PlacesOf(chunks, docPaths[d]);
    c := taken[0];
    assert groups == groups[..d] + [taken] + groups[d + 1..];
    FlattenConcat(groups[..d] + [taken], groups[d + 1..]);
    FlattenConcat(groups[..d], [taken]);
    FlattenOne(taken);
  }

  lemma {:induction false} NothingTaken(groups: seq<seq<Section>>)
    requires forall e :: 0 <= e < |groups| ==> groups[e] == []
    ensures Flatten(groups) == []
  {
    if groups != [] {
      NothingTaken(groups[1..]);
    }
  }

  lemma ComesOut(hits: seq<Section>, g: seq<Section>, fused: seq<Fused>, c: Section) returns (i: nat)
    requires IsFusion(GovernedLists(hits, g), RRFK, fused) && c in g
    ensures i < |fused| && fused[i].id == c.id
  {
    hide IsFusion, GovernedLists;
    var k :| 0 <= k < |g| && g[k] == c;
    assert Has(g, c.id);
    GovernedKeepsAll(hits, g, fused, c.id);
    i :| 0 <= i < |fused| && fused[i].id == c.id;
  }

  // ----- what governed fusion guarantees -----

  lemma GovernedScore(hits: seq<Section>, g: seq<Section>, id: string)
    ensures var l := GovernedLists(hits, g);
            Score(l, RRFK, 2, id) == ListScore(l[0], RRFK, |hits|, id) + ListScore(l[1], RRFK, |g|, id)
  {
    hide ListScore;
    var l := GovernedLists(hits, g);
    assert Score(l, RRFK, 1, id) == ListScore(l[0], RRFK, |hits|, id);
  }

  /** Retrieval's part of the score: its share at the 1-based rank, nothing when not retrieved. */
  lemma MainPart(hits: seq<Section>, g: seq<Section>, i: nat)
    requires DistinctSections(hits) && i < |hits|
    ensures ListScore(GovernedLists(hits, g)[0], RRFK, |hits|, hits[i].id) == Share(1.0, RRFK, i + 1)
  {
    hide Share, ListScore;
    assert Ids(hits)[i] == hits[i].id && Distinct(Ids(hits));
    ScorePresent(GovernedLists(hits, g)[0], RRFK, |hits|, i);
  }

  lemma GovernedPart(hits: seq<Section>, g: seq<Section>, i: nat)
    requires DistinctSections(g) && i < |g|
    ensures ListScore(GovernedLists(hits, g)[1], RRFK, |g|, g[i].id) == Share(GOVERNED_WEIGHT, RRFK, i + 1)
  {
    hide Share, ListScore;
    assert Ids(g)[i] == g[i].id && Distinct(Ids(g));
    ScorePresent(GovernedLists(hits, g)[1], RRFK, |g|, i);
  }

  lemma NoPart(hits: seq<Section>, g: seq<Section>, id: string)
    ensures !Has(hits, id) ==> ListScore(GovernedLists(hits, g)[0], RRFK, |hits|, id) == 0.0
    ensures !Has(g, id) ==> ListScore(GovernedLists(hits, g)[1], RRFK, |g|, id) == 0.0
  {
    hide Share, ListScore;
    if !Has(hits, id) {
      ScoreAbsent(GovernedLists(hits, g)[0], RRFK, |hits|, id);
    }
    if !Has(g, id) {
      ScoreAbsent(GovernedLists(hits, g)[1], RRFK, |g|, id);
    }
  }

  lemma MainNotNegative(hits: seq<Section>, g: seq<Section>, id: string)
    requires DistinctSections(hits)
    ensures ListScore(GovernedLists(hits, g)[0], RRFK, |hits|, id) >= 0.0
  {
    hide Share, ListScore;
    assert Distinct(Ids(hits));
    ListScoreBounded(GovernedLists(hits, g)[0], RRFK, id);
  }

  /** Every section the fusion saw comes out once, and nothing else. */
  lemma GovernedKeepsAll(hits: seq<Section>, g: seq<Section>, out: seq<Fused>, id: string)
    requires IsFusion(GovernedLists(hits, g), RRFK, out)
    ensures (exists i :: 0 <= i < |out| && out[i].id == id) <==> Has(hits, id) || Has(g, id)
    ensures forall i, j :: 0 <= i < j < |out| ==> out[i].id != out[j].id
  {
    hide Score, TopK.Sorted, Listed, Has;
    ListedIff(hits, g, id);
  }

  lemma GovernedShares()
    ensures Share(GOVERNED_WEIGHT, RRFK, 6) == 1.5 / 66.0 && Share(GOVERNED_WEIGHT, RRFK, 1) == 1.5 / 61.0
    ensures Share(1.0, RRFK, 1) == 1.0 / 61.0
  {}

  /** A section of a governing document outranks every hit that no document governs. */
  lemma GoverningOutranks(hits: seq<Section>, g: seq<Section>, out: seq<Fused>, i: nat, j: nat)
    requires DistinctSections(hits) && DistinctSections(g) && |g| <= GOVERNED_TOTAL
    requires IsFusion(GovernedLists(hits, g), RRFK, out) && i < |out| && j < |out|
    requires Has(g, out[i].id) && !Has(g, out[j].id)
    ensures i < j
  {
    hide Score, ListScore, Share, IsFusion;
    var a, b := out[i].id, out[j].id;
    GovernedScore(hits, g, a);
    GovernedScore(hits, g, b);
    var p :| 0 <= p < |g| && g[p].id == a;
    GovernedPart(hits, g, p);
    MainNotNegative(hits, g, a);
    NoPart(hits, g, b);
    GovernedShares();
    ShareAtMost(GOVERNED_WEIGHT, RRFK, p + 1, 6);
    assert Distinct(Ids(hits));
    ListScoreBounded(GovernedLists(hits, g)[0], RRFK, b);
    HigherFirst(GovernedLists(hits, g), RRFK, out, i, j);
  }

  /** Hits no document governs keep retrieval's order. */
  lemma UngovernedKeepOrder(hits: seq<Section>, g: seq<Section>, out: seq<Fused>, p: nat, q: nat, i: nat, j: nat)
    requires DistinctSections(hits) && IsFusion(GovernedLists(hits, g), RRFK, out)
    requires p < q < |hits| && !Has(g, hits[p].id) && !Has(g, hits[q].id)
    requires i < |out| && j < |out| && out[i].id == hits[p].id && out[j].id == hits[q].id
    ensures i < j
  {
    hide Score, ListScore, Share, IsFusion;
    GovernedScore(hits, g, hits[p].id);
    GovernedScore(hits, g, hits[q].id);
    MainPart(hits, g, p);
    MainPart(hits, g, q);
    NoPart(hits, g, hits[p].id);
    NoPart(hits, g, hits[q].id);
    ShareFalls(1.0, RRFK, p + 1, q + 1);
    HigherFirst(GovernedLists(hits, g), RRFK, out, i, j);
  }

  /** At retrieval rank r a section both lists hold beats one only the governing list holds, whatever
      their places in the governing list. */
  ghost predicate BothWinAt(r: nat) {
    forall a: nat, b: nat :: 1 <= a <= GOVERNED_TOTAL && 1 <= b <= GOVERNED_TOTAL ==>
      Share(1.0, RRFK, r) + Share(GOVERNED_WEIGHT, RRFK, a) > Share(GOVERNED_WEIGHT, RRFK, b)
  }

  /** That holds exactly down to rank 476. */
  lemma BothWinIff(r: nat)
    requires r >= 1
    ensures BothWinAt(r) <==> r <= 476
  {
    hide Share;
    GovernedShares();
    EdgeShares();
    if r <= 476 {
      forall a: nat, b: nat | 1 <= a <= GOVERNED_TOTAL && 1 <= b <= GOVERNED_TOTAL
        ensures Share(1.0, RRFK, r) + Share(GOVERNED_WEIGHT, RRFK, a) > Share(GOVERNED_WEIGHT, RRFK, b)
      {
        ShareAtMost(1.0, RRFK, r, 476);
        ShareAtMost(GOVERNED_WEIGHT, RRFK, a, 6);
        ShareAtMost(GOVERNED_WEIGHT, RRFK, 1, b);
      }
    } else {
      ShareAtMost(1.0, RRFK, 477, r);
      assert !(Share(1.0, RRFK, r) + Share(GOVERNED_WEIGHT, RRFK, 6) > Share(GOVERNED_WEIGHT, RRFK, 1));
    }
  }

  lemma EdgeShares()
    ensures Share(1.0, RRFK, 476) == 1.0 / 536.0 && Share(1.0, RRFK, 477) == 1.0 / 537.0
  {}

  /** So a section both lists agree on outranks every governing section retrieval missed, as long as
      retrieval ranked it among its first 476. */
  lemma BothListsOutrank(hits: seq<Section>, g: seq<Section>, out: seq<Fused>, p: nat, i: nat, j: nat)
    requires DistinctSections(hits) && DistinctSections(g) && |g| <= GOVERNED_TOTAL
    requires IsFusion(GovernedLists(hits, g), RRFK, out) && i < |out| && j < |out|
    requires p < |hits| && p < 476 && out[i].id == hits[p].id && Has(g, hits[p].id)
    requires Has(g, out[j].id) && !Has(hits, out[j].id)
    ensures i < j
  {
    hide Score, ListScore, Share, IsFusion;
    var a, b := out[i].id, out[j].id;
    GovernedScore(hits, g, a);
    GovernedScore(hits, g, b);
    var q :| 0 <= q < |g| && g[q].id == a;
    var r :| 0 <= r < |g| && g[r].id == b;
    MainPart(hits, g, p);
    GovernedPart(hits, g, q);
    GovernedPart(hits, g, r);
    NoPart(hits, g, b);
    BothWinIff(p + 1);
    assert Share(1.0, RRFK, p + 1) + Share(GOVERNED_WEIGHT, RRFK, q + 1) > Share(GOVERNED_WEIGHT, RRFK, r + 1);
    HigherFirst(GovernedLists(hits, g), RRFK, out, i, j);
  }

  ghost predicate GoverningFirst(g: seq<Section>, out: seq<Section>) {
    forall i, j :: 0 <= i < |out| && 0 <= j < |out| && Has(g, out[i].id) && !Has(g, out[j].id) ==> i < j
  }

  ghost predicate RestInOrder(hits: seq<Section>, g: seq<Section>, out: seq<Section>) {
    forall p, q, i, j ::
      (0 <= p < q < |hits| && !Has(g, hits[p].id) && !Has(g, hits[q].id) &&
       0 <= i < |out| && 0 <= j < |out| && out[i].id == hits[p].id && out[j].id == hits[q].id) ==> i < j
  }

  ghost predicate BothFirst(hits: seq<Section>, g: seq<Section>, out: seq<Section>) {
    forall p, i, j ::
      (0 <= p < |hits| && p < 476 && Has(g, hits[p].id) && 0 <= i < |out| && out[i].id == hits[p].id &&
       0 <= j < |out| && Has(g, out[j].id) && !Has(hits, out[j].id)) ==> i < j
  }

  ghost predicate EachOnce(hits: seq<Section>, g: seq<Section>, out: seq<Section>) {
    DistinctSections(out) && forall id :: Has(out, id) <==> Has(hits, id) || Has(g, id)
  }

  /** What a caller of governed sees: governing sections first, the other hits after them in
      retrieval's order, sections of both lists ahead of governing ones retrieval missed, and every
      section once. */
  ghost predicate GovernedOrder(hits: seq<Section>, g: seq<Section>, out: seq<Section>) {
    GoverningFirst(g, out) && RestInOrder(hits, g, out) && BothFirst(hits, g, out) && EachOnce(hits, g, out)
  }

  /** The order holds of what Governed returns. */
  lemma GovernedOrders(hits: seq<Section>, docPaths: seq<string>, chunks: seq<Section>, out: seq<Section>, fused: seq<Fused>)
    requires DistinctSections(hits) && DistinctSections(chunks) && Distinct(docPaths)
    requires Rescored(out, fused, hits, chunks)
    requires IsFusion(GovernedLists(hits, GoverningSections(docPaths, chunks, Ranks(hits, |hits|))), RRFK, fused)
    ensures GovernedOrder(hits, GoverningSections(docPaths, chunks, Ranks(hits, |hits|)), out)
  {
    hide IsFusion, GoverningSections, GovernedLists, GoverningFirst, RestInOrder, BothFirst, EachOnce;
    var g := GoverningSections(docPaths, chunks, Ranks(hits, |hits|));
    GoverningIsSmall(docPaths, chunks, Ranks(hits, |hits|));
    SameIds(out, fused, hits, chunks);
    GoverningComesFirst(hits, g, out, fused);
    RestKeepsOrder(hits, g, out, fused);
    BothComeFirst(hits, g, out, fused);
    EachComesOnce(hits, g, out, fused);
  }

  ghost predicate SameOrder(out: seq<Section>, fused: seq<Fused>) {
    |out| == |fused| && forall i :: 0 <= i < |out| ==> out[i].id == fused[i].id
  }

  lemma GoverningComesFirst(hits: seq<Section>, g: seq<Section>, out: seq<Section>, fused: seq<Fused>)
    requires DistinctSections(hits) && DistinctSections(g) && |g| <= GOVERNED_TOTAL
    requires SameOrder(out, fused) && IsFusion(GovernedLists(hits, g), RRFK, fused)
    ensures GoverningFirst(g, out)
  {
    hide IsFusion, Has, GovernedLists, DistinctSections;
    forall i, j | 0 <= i < |out| && 0 <= j < |out| && Has(g, out[i].id) && !Has(g, out[j].id) ensures i < j {
      GoverningOutranks(hits, g, fused, i, j);
    }
  }

  lemma RestKeepsOrder(hits: seq<Section>, g: seq<Section>, out: seq<Section>, fused: seq<Fused>)
    requires DistinctSections(hits) && SameOrder(out, fused) && IsFusion(GovernedLists(hits, g), RRFK, fused)
    ensures RestInOrder(hits, g, out)
  {
    hide IsFusion, Has, GovernedLists, DistinctSections;
    forall p, q, i, j |
      0 <= p < q < |hits| && !Has(g, hits[p].id) && !Has(g, hits[q].id) &&
      0 <= i < |out| && 0 <= j < |out| && out[i].id == hits[p].id && out[j].id == hits[q].id
      ensures i < j
    {
      UngovernedKeepOrder(hits, g, fused, p, q, i, j);
    }
  }

  lemma BothComeFirst(hits: seq<Section>, g: seq<Section>, out: seq<Section>, fused: seq<Fused>)
    requires DistinctSections(hits) && DistinctSections(g) && |g| <= GOVERNED_TOTAL
    requires SameOrder(out, fused) && IsFusion(GovernedLists(hits, g), RRFK, fused)
    ensures BothFirst(hits, g, out)
  {
    hide IsFusion, Has, GovernedLists, DistinctSections;
    forall p, i, j |
      0 <= p < |hits| && p < 476 && Has(g, hits[p].id) && 0 <= i < |out| && out[i].id == hits[p].id &&
      0 <= j < |out| && Has(g, out[j].id) && !Has(hits, out[j].id)
      ensures i < j
    {
      BothListsOutrank(hits, g, fused, p, i, j);
    }
  }

  lemma EachComesOnce(hits: seq<Section>, g: seq<Section>, out: seq<Section>, fused: seq<Fused>)
    requires SameOrder(out, fused) && IsFusion(GovernedLists(hits, g), RRFK, fused)
    ensures EachOnce(hits, g, out)
  {
    hide IsFusion, Has, GovernedLists;
    forall id ensures Has(out, id) <==> Has(hits, id) || Has(g, id) {
      GovernedKeepsAll(hits, g, fused, id);
      HasSame(out, fused, id);
    }
    GovernedKeepsAll(hits, g, fused, "");
  }

  lemma SameIds(out: seq<Section>, fused: seq<Fused>, hits: seq<Section>, chunks: seq<Section>)
    requires Rescored(out, fused, hits, chunks)
    ensures SameOrder(out, fused)
  {
    forall i | 0 <= i < |out| ensures out[i].id == fused[i].id {
      assert RescoredAt(out[i], fused[i], hits, chunks);
    }
  }

  lemma HasSame(out: seq<Section>, fused: seq<Fused>, id: string)
    requires SameOrder(out, fused)
    ensures Has(out, id) <==> exists i :: 0 <= i < |fused| && fused[i].id == id
  {
    if Has(out, id) {
      var i :| 0 <= i < |out| && out[i].id == id;
      assert fused[i].id == id;
    }
    if i :| 0 <= i < |fused| && fused[i].id == id {
      assert out[i].id == id;
    }
  }
}
