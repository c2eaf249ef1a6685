/** internal/embed/minilm/unigram.go: Unigram segmentation by dynamic programming.  Scores are
    reals, minus infinity is None, and text is already normalised. */
module Unigram {
  import opened Sequences

  datatype Score = Unreached | Reached(value: real)

  datatype Token = Token(id: int, unknown: bool)

  /** A loaded vocabulary. */
  datatype Vocab = Vocab(
    scores: map<string, real>, ids: map<string, int>, maxPiece: nat, minScore: real,
    unkId: int, bosId: int, eosId: int, maxSeq: int)
  {
    ghost predicate Valid() {
      && ids.Keys == scores.Keys
      && (forall p :: p in scores ==> |p| <= maxPiece && minScore <= scores[p])
      && minScore <= 0.0
    }

    function UnkScore(): real {
      minScore - 10.0
    }
  }

  /** Among the first n entries the last one for p is number id, with this score. */
  ghost predicate LastEntry(entries: seq<(string, real)>, n: nat, p: string, id: int, score: real)
    requires n <= |entries|
  {
    0 <= id < n && entries[id] == (p, score) && forall k :: id < k < n ==> entries[k].0 != p
  }

  /** The vocabulary loop of loadUnigram; a repeated piece keeps its last entry. */
  method Load(entries: seq<(string, real)>, unkId: int, bosId: int, eosId: int, maxSeq: int) returns (v: Vocab)
    ensures v.Valid()
    ensures forall p :: p in v.scores <==> exists i :: 0 <= i < |entries| && entries[i].0 == p
    ensures forall p :: p in v.ids ==> LastEntry(entries, |entries|, p, v.ids[p], v.scores[p])
    ensures LeastScore(entries, |entries|, v.minScore) && LongestPiece(entries, |entries|, v.maxPiece)
    ensures v.unkId == unkId && v.bosId == bosId && v.eosId == eosId && v.maxSeq == maxSeq
  {
    hide LeastScore, LongestPiece;
    NoEntries(entries);
    v := Vocab(map[], map[], 0, 0.0, unkId, bosId, eosId, maxSeq);
    for i := 0 to |entries|
      invariant v.ids.Keys == v.scores.Keys
      invariant LeastScore(entries, i, v.minScore) && LongestPiece(entries, i, v.maxPiece)
      invariant forall k :: 0 <= k < i ==> entries[k].0 in v.ids
      invariant forall p :: p in v.ids ==> LastEntry(entries, i, p, v.ids[p], v.scores[p])
      invariant v.unkId == unkId && v.bosId == bosId && v.eosId == eosId && v.maxSeq == maxSeq
    {
      var (piece, score) := entries[i];
      OneMoreEntry(entries, i, v.minScore, v.maxPiece);
      v := v.(scores := v.scores[piece := score], ids := v.ids[piece := i]);
      if |piece| > v.maxPiece {
        v := v.(maxPiece := |piece|);
      }
      if score < v.minScore {
        v := v.(minScore := score);
      }
    }
    PiecesBounded(entries, v);
  }

  /** The least of the first n scores, or zero when none is below it. */
  ghost predicate LeastScore(entries: seq<(string, real)>, n: nat, least: real)
    requires n <= |entries|
  {
    && least <= 0.0 && (forall k :: 0 <= k < n ==> least <= entries[k].1)
    && (least < 0.0 ==> exists k :: 0 <= k < n && entries[k].1 == least)
  }

  ghost predicate LongestPiece(entries: seq<(string, real)>, n: nat, longest: nat)
    requires n <= |entries|
  {
    && (forall k :: 0 <= k < n ==> |entries[k].0| <= longest)
    && (longest > 0 ==> exists k :: 0 <= k < n && |entries[k].0| == longest)
  }

  lemma NoEntries(entries: seq<(string, real)>)
    ensures LeastScore(entries, 0, 0.0) && LongestPiece(entries, 0, 0)
  {}

  lemma OneMoreEntry(entries: seq<(string, real)>, i: nat, least: real, longest: nat)
    requires i < |entries| && LeastScore(entries, i, least) && LongestPiece(entries, i, longest)
    ensures LeastScore(entries, i + 1, if entries[i].1 < least then entries[i].1 else least)
    ensures LongestPiece(entries, i + 1, if |entries[i].0| > longest then |entries[i].0| else longest)
  {}

  lemma PiecesBounded(entries: seq<(string, real)>, v: Vocab)
    requires LeastScore(entries, |entries|, v.minScore) && LongestPiece(entries, |entries|, v.maxPiece)
    requires v.ids.Keys == v.scores.Keys
    requires forall p :: p in v.ids ==> LastEntry(entries, |entries|, p, v.ids[p], v.scores[p])
    ensures v.Valid()
  {}

  // ----- the lattice -----

  predicate IsPiece(v: Vocab, s: string, i: nat, j: nat) {
    i < j <= |s| && s[i..j] in v.scores
  }

  predicate PieceStarts(v: Vocab, s: string, i: nat) {
    exists j {:trigger IsPiece(v, s, i, j)} :: i < j <= |s| && IsPiece(v, s, i, j)
  }

  /** Pieces, and a one-rune unknown edge exactly where no piece starts. */
  predicate Edge(v: Vocab, s: string, i: nat, j: nat) {
    IsPiece(v, s, i, j) || (j == i + 1 <= |s| && !PieceStarts(v, s, i))
  }

  function Weight(v: Vocab, s: string, i: nat, j: nat): real {
    if IsPiece(v, s, i, j) then v.scores[s[i..j]] else v.UnkScore()
  }

  /** Positions from `from` along edges. */
  ghost predicate IsPath(v: Vocab, s: string, from: nat, p: seq<nat>) {
    p != [] && p[0] == from && forall k :: 0 < k < |p| ==> Edge(v, s, p[k - 1], p[k])
  }

  function PathScore(v: Vocab, s: string, p: seq<nat>): real {
    if |p| <= 1 then 0.0 else PathScore(v, s, p[..|p| - 1]) + Weight(v, s, p[|p| - 2], p[|p| - 1])
  }

  function Last(p: seq<nat>): nat
    requires p != []
  {
    p[|p| - 1]
  }

  /** A path through the whole text that no other path outscores. */
  ghost predicate IsBest(v: Vocab, s: string, p: seq<nat>) {
    && IsPath(v, s, 0, p) && Last(p) == |s|
    && forall q :: IsPath(v, s, 0, q) && Last(q) == |s| ==> PathScore(v, s, q) <= PathScore(v, s, p)
  }

  /** Ten less than the least score there is. */
  lemma UnknownWeight(v: Vocab, s: string, i: nat, j: nat)
    requires i < j <= |s|
    ensures Weight(v, s, i, j) == if s[i..j] in v.scores then v.scores[s[i..j]] else v.minScore - 10.0
  {}

  /** The score of a path, piece by piece from the front. */
  lemma {:induction false} PathScoreIs(v: Vocab, s: string, p: seq<nat>) returns (sums: seq<real>)
    requires p != [] && Rising(p, |s| + 1)
    ensures |sums| == |p| && sums[0] == 0.0 && sums[|p| - 1] == PathScore(v, s, p)
    ensures forall k :: 0 < k < |p| ==>
      sums[k] == sums[k - 1] + if s[p[k - 1]..p[k]] in v.scores then v.scores[s[p[k - 1]..p[k]]] else v.minScore - 10.0
  {
    hide Weight;
    if |p| == 1 {
      sums := [0.0];
    } else {
      var l := |p| - 1;
      FrontRises(p, |s| + 1);
      var before := PathScoreIs(v, s, p[..l]);
      UnknownWeight(v, s, p[l - 1], p[l]);
      sums := before + [PathScore(v, s, p)];
      forall k | 0 < k < |p|
        ensures sums[k] == sums[k - 1] + if s[p[k - 1]..p[k]] in v.scores then v.scores[s[p[k - 1]..p[k]]] else v.minScore - 10.0
      {
        if k < l {
          assert p[..l][k - 1] == p[k - 1] && p[..l][k] == p[k];
        }
      }
    }
  }

  /** Where an edge leads: along a piece of the vocabulary, or over one rune where none starts. */
  lemma EdgeIs(v: Vocab, s: string, i: nat, j: nat)
    requires i < |s|
    ensures Edge(v, s, i, j) <==>
      i < j <= |s| && (s[i..j] in v.scores || (j == i + 1 && forall k :: i < k <= |s| ==> s[i..k] !in v.scores))
  {
    if !IsPiece(v, s, i, j) && j == i + 1 <= |s| {
      assert forall k :: i < k <= |s| ==> (IsPiece(v, s, i, k) <==> s[i..k] in v.scores);
    }
  }

  // ----- the forward pass -----

  /** The three arrays of the forward pass. */
  datatype Table = Table(best: seq<Score>, prev: seq<nat>, isUnk: seq<bool>) {
    ghost predicate For(s: string) {
      |best| == |prev| == |isUnk| == |s| + 1
    }

    function Improve(j: nat, score: real, i: nat, unknown: bool): Table
      requires j < |best| && j < |prev| && j < |isUnk|
    {
      Table(best[j := Reached(score)], prev[j := i], isUnk[j := unknown])
    }
  }

  /** Entry j is reached from its back-pointer, along an edge, with that edge's weight added. */
  ghost predicate ExplainedAt(v: Vocab, s: string, t: Table, bound: nat, j: nat)
    requires t.For(s) && j <= |s|
  {
    && t.prev[j] < j && t.prev[j] < bound && t.best[t.prev[j]].Reached? && t.best[j].Reached?
    && Edge(v, s, t.prev[j], j)
    && t.isUnk[j] == !IsPiece(v, s, t.prev[j], j)
    && t.best[j].value == t.best[t.prev[j]].value + Weight(v, s, t.prev[j], j)
  }

  ghost predicate Explained(v: Vocab, s: string, t: Table, bound: nat)
    requires t.For(s)
  {
    && t.best[0] == Reached(0.0)
    && forall j :: 0 < j <= |s| && t.best[j].Reached? ==> ExplainedAt(v, s, t, bound, j)
  }

  /** The edge from p to q is accounted for. */
  ghost predicate RelaxedAt(v: Vocab, s: string, best: seq<Score>, p: nat, q: nat)
    requires |best| == |s| + 1 && p <= |s| && q <= |s|
  {
    best[p].Reached? && Edge(v, s, p, q) ==>
      best[q].Reached? && best[q].value >= best[p].value + Weight(v, s, p, q)
  }

  /** So is every edge out of the first i positions. */
  ghost predicate Relaxed(v: Vocab, s: string, best: seq<Score>, i: nat)
    requires |best| == |s| + 1 && i <= |s| + 1
  {
    forall p: nat, q: nat :: p < i && p <= |s| && q <= |s| ==> RelaxedAt(v, s, best, p, q)
  }

  /** Nothing up to i changed, and nothing else got worse. */
  ghost predicate NoWorse(a: seq<Score>, b: seq<Score>, i: nat) {
    && |a| == |b|
    && (forall j :: 0 <= j < |a| && j <= i ==> a[j] == b[j])
    && forall j :: 0 <= j < |a| && a[j].Reached? ==> b[j].Reached? && b[j].value >= a[j].value
  }

  lemma ImproveKeeps(v: Vocab, s: string, t: Table, i: nat, j: nat)
    requires t.For(s) && i < j <= |s| && t.best[i].Reached? && Edge(v, s, i, j)
    requires Explained(v, s, t, i + 1)
    requires t.best[j].Unreached? || t.best[i].value + Weight(v, s, i, j) > t.best[j].value
    ensures var t' := t.Improve(j, t.best[i].value + Weight(v, s, i, j), i, !IsPiece(v, s, i, j));
            t'.For(s) && Explained(v, s, t', i + 1) && NoWorse(t.best, t'.best, i) && RelaxedAt(v, s, t'.best, i, j)
  {
    hide Edge, Weight, IsPiece;
    var t' := t.Improve(j, t.best[i].value + Weight(v, s, i, j), i, !IsPiece(v, s, i, j));
    forall k | 0 < k <= |s| && t'.best[k].Reached? ensures ExplainedAt(v, s, t', i + 1, k) {
      assert k != j ==> ExplainedAt(v, s, t, i + 1, k);
    }
  }

  lemma NoWorseKeepsRelaxed(v: Vocab, s: string, a: seq<Score>, b: seq<Score>, i: nat)
    requires |a| == |s| + 1 && i <= |s| && NoWorse(a, b, i) && Relaxed(v, s, a, i)
    ensures Relaxed(v, s, b, i)
  {
    hide Edge, Weight;
    forall p: nat, q: nat | p < i && p <= |s| && q <= |s| ensures RelaxedAt(v, s, b, p, q) {
      assert RelaxedAt(v, s, a, p, q);
    }
  }

  method Forward(v: Vocab, s: string, best: array<Score>, prev: array<nat>, isUnk: array<bool>)
    requires v.Valid()
    requires best.Length == prev.Length == isUnk.Length == |s| + 1
    requires forall j :: 0 < j <= |s| ==> best[j].Unreached?
    requires best[0] == Reached(0.0)
    modifies best, prev, isUnk
    ensures Explained(v, s, Table(best[..], prev[..], isUnk[..]), |s|)
    ensures Relaxed(v, s, best[..], |s|)
    ensures best[|s|].Reached?
  {
    hide Edge, Weight, IsPiece, Explained, Relaxed, RelaxedAt, NoWorse, PieceStarts, PiecesRelaxed, Alive;
    var n := |s|;
    FreshTable(v, s, Table(best[..], prev[..], isUnk[..]));
    for i := 0 to n
      invariant Explained(v, s, Table(best[..], prev[..], isUnk[..]), i)
      invariant Relaxed(v, s, best[..], i)
      invariant Alive(best[..], i)
    {
      if best[i].Unreached? {
        UnreachedRelaxed(v, s, best[..], i);
        WiderBound(v, s, Table(best[..], prev[..], isUnk[..]), i);
        continue;
      }
      ghost var before := best[..];
      var matched := Relax(v, s, best, prev, isUnk, i);
      SameAt(before, best[..], i);
      NoWorseKeepsRelaxed(v, s, before, best[..], i);
      if !matched {
        RelaxUnknown(v, s, best, prev, isUnk, i);
      }
      OnlyTheseEdges(v, s, best[..], i, matched);
    }
    AliveAtTheEnd(best[..]);
  }

  /** Some position from i on is reached. */
  ghost predicate Alive(best: seq<Score>, i: nat) {
    exists r :: i <= r < |best| && best[r].Reached?
  }

  lemma FreshTable(v: Vocab, s: string, t: Table)
    requires t.For(s) && t.best[0] == Reached(0.0) && forall j :: 0 < j <= |s| ==> t.best[j].Unreached?
    ensures Explained(v, s, t, 0) && Relaxed(v, s, t.best, 0) && Alive(t.best, 0)
  {}

  lemma AliveAtTheEnd(best: seq<Score>)
    requires best != [] && Alive(best, |best| - 1)
    ensures best[|best| - 1].Reached?
  {}

  lemma SameAt(a: seq<Score>, b: seq<Score>, i: nat)
    requires NoWorse(a, b, i) && i < |a|
    ensures |a| == |b| && a[i] == b[i]
  {}

  lemma UnreachedRelaxed(v: Vocab, s: string, best: seq<Score>, i: nat)
    requires |best| == |s| + 1 && i <= |s| && best[i].Unreached? && Relaxed(v, s, best, i) && Alive(best, i)
    ensures Relaxed(v, s, best, i + 1) && Alive(best, i + 1)
  {}

  lemma WiderBound(v: Vocab, s: string, t: Table, i: nat)
    requires t.For(s) && Explained(v, s, t, i)
    ensures Explained(v, s, t, i + 1)
  {
    forall j | 0 < j <= |s| && t.best[j].Reached? ensures ExplainedAt(v, s, t, i + 1, j) {
      assert ExplainedAt(v, s, t, i, j);
    }
  }

  lemma UnknownEdge(v: Vocab, s: string, i: nat)
    requires i < |s| && !PieceStarts(v, s, i)
    ensures Edge(v, s, i, i + 1) && !IsPiece(v, s, i, i + 1) && Weight(v, s, i, i + 1) == v.UnkScore()
  {}

  lemma AlreadyRelaxed(v: Vocab, s: string, best: seq<Score>, i: nat, j: nat)
    requires |best| == |s| + 1 && i <= |s| && j <= |s| && best[i].Reached? && best[j].Reached?
    requires best[i].value + Weight(v, s, i, j) <= best[j].value
    ensures RelaxedAt(v, s, best, i, j)
  {}

  /** The edges out of i are the pieces found there or, when there are none, the unknown edge. */
  lemma OnlyTheseEdges(v: Vocab, s: string, best: seq<Score>, i: nat, matched: bool)
    requires |best| == |s| + 1 && i < |s| && best[i].Reached?
    requires Relaxed(v, s, best, i)
    requires matched <==> PieceStarts(v, s, i)
    requires matched ==> PiecesRelaxed(v, s, best, i, |s| + 1)
    requires !matched ==> RelaxedAt(v, s, best, i, i + 1)
    ensures Relaxed(v, s, best, i + 1)
    ensures Alive(best, i + 1)
  {
    forall p: nat, q: nat | p < i + 1 && p <= |s| && q <= |s| ensures RelaxedAt(v, s, best, p, q) {
      if p == i && Edge(v, s, i, q) {
        assert IsPiece(v, s, i, q) || (q == i + 1 && !matched);
      }
    }
    if matched {
      var j :| i < j <= |s| && IsPiece(v, s, i, j);
      assert RelaxedAt(v, s, best, i, j);
    }
  }

  /** No piece starts at i: the rune there is unknown. */
  method RelaxUnknown(v: Vocab, s: string, best: array<Score>, prev: array<nat>, isUnk: array<bool>, i: nat)
    requires v.Valid() && i < |s| && !PieceStarts(v, s, i)
    requires best.Length == prev.Length == isUnk.Length == |s| + 1
    requires Explained(v, s, Table(best[..], prev[..], isUnk[..]), i + 1) && best[i].Reached?
    requires Relaxed(v, s, best[..], i)
    modifies best, prev, isUnk
    ensures Explained(v, s, Table(best[..], prev[..], isUnk[..]), i + 1) && best[i].Reached?
    ensures Relaxed(v, s, best[..], i) && RelaxedAt(v, s, best[..], i, i + 1)
  {
    hide Edge, Weight, IsPiece, Explained, Relaxed, RelaxedAt, NoWorse, PieceStarts;
    UnknownEdge(v, s, i);
    var c := best[i].value + v.UnkScore();
    ghost var t := Table(best[..], prev[..], isUnk[..]);
    if best[i + 1].Unreached? || c > best[i + 1].value {
      ImproveKeeps(v, s, t, i, i + 1);
      best[i + 1], prev[i + 1], isUnk[i + 1] := Reached(c), i, true;
      assert Table(best[..], prev[..], isUnk[..]) == t.Improve(i + 1, c, i, true);
      SameAt(t.best, best[..], i);
      NoWorseKeepsRelaxed(v, s, t.best, best[..], i);
    } else {
      AlreadyRelaxed(v, s, best[..], i, i + 1);
    }
  }

  /** The inner loop: every piece that starts at i. */
  method Relax(v: Vocab, s: string, best: array<Score>, prev: array<nat>, isUnk: array<bool>, i: nat)
    returns (matched: bool)
    requires v.Valid() && i < |s|
    requires best.Length == prev.Length == isUnk.Length == |s| + 1
    requires Explained(v, s, Table(best[..], prev[..], isUnk[..]), i) && best[i].Reached?
    modifies best, prev, isUnk
    ensures Explained(v, s, Table(best[..], prev[..], isUnk[..]), i + 1)
    ensures NoWorse(old(best[..]), best[..], i)
    ensures matched <==> PieceStarts(v, s, i)
    ensures PiecesRelaxed(v, s, best[..], i, |s| + 1)
  {
    hide Edge, Explained, RelaxedAt, Weight, IsPiece, PieceBefore, PiecesRelaxed, PieceStarts, NoWorse;
    matched := false;
    NoWorseSelf(best[..], i);
    WiderBound(v, s, Table(best[..], prev[..], isUnk[..]), i);
    NoPieceYet(v, s, best[..], i);
    var l := 1;
    while l <= v.maxPiece && i + l <= |s|
      invariant 1 <= l
      invariant Explained(v, s, Table(best[..], prev[..], isUnk[..]), i + 1)
      invariant NoWorse(old(best[..]), best[..], i)
      invariant matched <==> PieceBefore(v, s, i, i + l)
      invariant PiecesRelaxed(v, s, best[..], i, i + l)
      decreases v.maxPiece - l
    {
      var piece := s[i..i + l];
      ghost var before := best[..];
      SameAt(old(best[..]), before, i);
      NoWorseSelf(before, i);
      PieceAt(v, s, i, i + l);
      if piece in v.scores {
        matched := true;
        var c := best[i].value + v.scores[piece];
        ghost var t := Table(best[..], prev[..], isUnk[..]);
        if best[i + l].Unreached? || c > best[i + l].value {
          ImproveKeeps(v, s, t, i, i + l);
          best[i + l], prev[i + l], isUnk[i + l] := Reached(c), i, false;
          assert Table(best[..], prev[..], isUnk[..]) == t.Improve(i + l, c, i, false);
        } else {
          AlreadyRelaxed(v, s, best[..], i, i + l);
        }
      }
      NextPiece(v, s, before, best[..], i, i + l);
      NoWorseThrough(old(best[..]), before, best[..], i);
      l := l + 1;
    }
    PiecesAreShort(v, s, best[..], i, l);
  }

  /** Some piece starts at i and ends before m. */
  predicate PieceBefore(v: Vocab, s: string, i: nat, m: nat) {
    exists j {:trigger IsPiece(v, s, i, j)} :: i < j < m && j <= |s| && IsPiece(v, s, i, j)
  }

  /** All that do are accounted for. */
  ghost predicate PiecesRelaxed(v: Vocab, s: string, best: seq<Score>, i: nat, m: nat)
    requires |best| == |s| + 1 && i <= |s|
  {
    forall j {:trigger IsPiece(v, s, i, j)} :: i < j < m && j <= |s| && IsPiece(v, s, i, j) ==> RelaxedAt(v, s, best, i, j)
  }

  lemma NoPieceYet(v: Vocab, s: string, best: seq<Score>, i: nat)
    requires |best| == |s| + 1 && i <= |s|
    ensures !PieceBefore(v, s, i, i + 1) && PiecesRelaxed(v, s, best, i, i + 1)
  {}

  lemma NoWorseSelf(a: seq<Score>, i: nat)
    ensures NoWorse(a, a, i)
  {}

  lemma NoWorseThrough(a: seq<Score>, b: seq<Score>, c: seq<Score>, i: nat)
    requires NoWorse(a, b, i) && NoWorse(b, c, i)
    ensures NoWorse(a, c, i)
  {}

  lemma NextPiece(v: Vocab, s: string, a: seq<Score>, b: seq<Score>, i: nat, m: nat)
    requires |a| == |s| + 1 && i < m <= |s| && NoWorse(a, b, i) && PiecesRelaxed(v, s, a, i, m)
    requires IsPiece(v, s, i, m) ==> RelaxedAt(v, s, b, i, m)
    ensures PiecesRelaxed(v, s, b, i, m + 1)
    ensures PieceBefore(v, s, i, m + 1) <==> PieceBefore(v, s, i, m) || IsPiece(v, s, i, m)
  {
    hide IsPiece, RelaxedAt;
    forall j | i < j < m && IsPiece(v, s, i, j) ensures RelaxedAt(v, s, b, i, j) {
      StillRelaxed(v, s, a, b, i, j);
    }
  }

  lemma StillRelaxed(v: Vocab, s: string, a: seq<Score>, b: seq<Score>, i: nat, j: nat)
    requires |a| == |s| + 1 && i <= |s| && j <= |s| && NoWorse(a, b, i) && RelaxedAt(v, s, a, i, j)
    ensures RelaxedAt(v, s, b, i, j)
  {}

  lemma PieceAt(v: Vocab, s: string, i: nat, j: nat)
    requires i < j <= |s|
    ensures IsPiece(v, s, i, j) <==> s[i..j] in v.scores
    ensures IsPiece(v, s, i, j) ==> Edge(v, s, i, j) && Weight(v, s, i, j) == v.scores[s[i..j]]
  {}

  lemma PiecesAreShort(v: Vocab, s: string, best: seq<Score>, i: nat, l: nat)
    requires v.Valid() && i < |s| == |best| - 1 && (l > v.maxPiece || i + l > |s|) && PiecesRelaxed(v, s, best, i, i + l)
    ensures PieceStarts(v, s, i) <==> PieceBefore(v, s, i, i + l)
    ensures PiecesRelaxed(v, s, best, i, |s| + 1)
  {
    hide IsPiece;
    forall j | i < j <= |s| && IsPiece(v, s, i, j) ensures j < i + l {
      PieceIsShort(v, s, i, j);
    }
  }

  lemma PieceIsShort(v: Vocab, s: string, i: nat, j: nat)
    requires v.Valid() && i < j <= |s| && IsPiece(v, s, i, j)
    ensures j - i <= v.maxPiece
  {
    assert |s[i..j]| == j - i;
  }

  /** Over the finished table no path to a position outscores its entry. */
  lemma {:induction false} NoPathBeats(v: Vocab, s: string, best: seq<Score>, q: seq<nat>)
    requires |best| == |s| + 1 && best[0] == Reached(0.0)
    requires Relaxed(v, s, best, |s|)
    requires IsPath(v, s, 0, q)
    ensures Last(q) <= |s| && best[Last(q)].Reached? && PathScore(v, s, q) <= best[Last(q)].value
  {
    if |q| > 1 {
      var q' := q[..|q| - 1];
      forall k | 0 < k < |q'| ensures Edge(v, s, q'[k - 1], q'[k]) {
        assert Edge(v, s, q[k - 1], q[k]);
      }
      NoPathBeats(v, s, best, q');
      assert Edge(v, s, q[|q| - 2], q[|q| - 1]);
      assert RelaxedAt(v, s, best, q[|q| - 2], q[|q| - 1]);
    }
  }

  // ----- the walk back -----

  /** The token of the piece between two positions of a path. */
  function TokenAt(v: Vocab, s: string, i: nat, j: nat): Token {
    if IsPiece(v, s, i, j) then Token(if s[i..j] in v.ids then v.ids[s[i..j]] else v.unkId, false)
    else Token(v.unkId, true)
  }

  function TokensOf(v: Vocab, s: string, p: seq<nat>): (t: seq<Token>)
    ensures p != [] ==> |t| == |p| - 1
  {
    if |p| <= 1 then [] else [TokenAt(v, s, p[0], p[1])] + TokensOf(v, s, p[1..])
  }

  /** One id for each maximal run of unknowns, one for every other token. */
  function Collapse(v: Vocab, t: seq<Token>): seq<int> {
    if t == [] then []
    else
      var l := |t| - 1;
      if t[l].unknown && l > 0 && t[l - 1].unknown then Collapse(v, t[..l]) else Collapse(v, t[..l]) + [t[l].id]
  }

  /** An unknown token carries the unknown id. */
  ghost predicate Marked(v: Vocab, t: seq<Token>) {
    forall k :: 0 <= k < |t| && t[k].unknown ==> t[k].id == v.unkId
  }

  lemma {:induction false} UnknownIsLast(v: Vocab, t: seq<Token>)
    requires Marked(v, t) && t != [] && t[|t| - 1].unknown
    ensures Collapse(v, t) != [] && Collapse(v, t)[|Collapse(v, t)| - 1] == v.unkId
  {
    var l := |t| - 1;
    if l > 0 && t[l - 1].unknown {
      UnknownIsLast(v, t[..l]);
    }
  }

  /** A run of unknowns becomes the unknown id, once. */
  lemma {:induction false} CollapseRun(v: Vocab, t: seq<Token>)
    requires Marked(v, t) && t != [] && forall k :: 0 <= k < |t| ==> t[k].unknown
    ensures Collapse(v, t) == [v.unkId]
  {
    if |t| > 1 {
      CollapseRun(v, t[..|t| - 1]);
    } else {
      assert t[..0] == [];
    }
  }

  /** Known tokens keep their ids. */
  lemma {:induction false} CollapseKnown(v: Vocab, t: seq<Token>)
    requires forall k :: 0 <= k < |t| ==> !t[k].unknown
    ensures |Collapse(v, t)| == |t| && forall k :: 0 <= k < |t| ==> Collapse(v, t)[k] == t[k].id
  {
    if t != [] {
      CollapseKnown(v, t[..|t| - 1]);
    }
  }

  /** Runs are collapsed independently: cutting anywhere but inside a run of unknowns changes nothing. */
  lemma {:induction false} CollapseConcat(v: Vocab, t: seq<Token>, u: seq<Token>)
    requires t == [] || u == [] || !t[|t| - 1].unknown || !u[0].unknown
    ensures Collapse(v, t + u) == Collapse(v, t) + Collapse(v, u)
  {
    if u == [] {
      assert t + u == t;
    } else {
      var l := |u| - 1;
      assert (t + u)[..|t| + l] == t + u[..l];
      CollapseConcat(v, t, u[..l]);
    }
  }

  function Reverse<T>(t: seq<T>): (r: seq<T>)
    ensures |r| == |t|
    ensures forall k :: 0 <= k < |t| ==> r[k] == t[|t| - 1 - k]
  {
    seq(|t|, k requires 0 <= k < |t| => t[|t| - 1 - k])
  }

  /** The ids of a path that no other path outscores. */
  ghost predicate Segments(v: Vocab, s: string, ids: seq<int>) {
    exists path :: IsBest(v, s, path) && ids == Collapse(v, TokensOf(v, s, path))
  }

  method Viterbi(v: Vocab, s: string) returns (out: seq<int>)
    requires v.Valid()
    ensures Segments(v, s, out)
  {
    hide Edge, Weight, IsPiece, Relaxed, ExplainedAt, Collapse, TokensOf, PathScore;
    var n := |s|;
    var best := new Score[n + 1];
    var prev := new nat[n + 1];
    var isUnk := new bool[n + 1];
    best[0] := Reached(0.0);
    for i := 1 to n + 1
      invariant best[0] == Reached(0.0)
      invariant forall j :: 0 < j < i ==> best[j].Unreached?
    {
      best[i] := Unreached;
    }
    Forward(v, s, best, prev, isUnk);
    var rev;
    ghost var path;
    rev, path := WalkBack(v, s, best, prev, isUnk);
    BestPath(v, s, Table(best[..], prev[..], isUnk[..]), path);
    out := MergeUnknown(v, rev);
  }

  /** From the end, along the back-pointers. */
  method WalkBack(v: Vocab, s: string, best: array<Score>, prev: array<nat>, isUnk: array<bool>)
    returns (rev: seq<Token>, ghost path: seq<nat>)
    requires v.Valid()
    requires best.Length == prev.Length == isUnk.Length == |s| + 1
    requires Explained(v, s, Table(best[..], prev[..], isUnk[..]), |s|) && best[|s|].Reached?
    ensures IsPath(v, s, 0, path) && Last(path) == |s|
    ensures best[|s|].value == PathScore(v, s, path)
    ensures Reverse(rev) == TokensOf(v, s, path) && Marked(v, rev)
  {
    hide Edge, Weight, IsPiece, Explained, IsPath;
    ghost var t := Table(best[..], prev[..], isUnk[..]);
    var n := |s|;
    rev := [];
    path := [n];
    SinglePath(v, s, n);
    var i := n;
    while i > 0
      invariant 0 <= i <= n && path != [] && path[0] == i && Last(path) == n
      invariant IsPath(v, s, i, path)
      invariant best[i].Reached? && best[n].value == best[i].value + PathScore(v, s, path)
      invariant Reverse(rev) == TokensOf(v, s, path) && Marked(v, rev)
      decreases i
    {
      EntryExplained(v, s, t, |s|, i);
      StepBack(v, s, t, i, path);
      path := [prev[i]] + path;
      var token := Token(v.unkId, true);
      if !isUnk[i] {
        token := Token(v.ids[s[prev[i]..i]], false);
      }
      ReverseSnoc(rev, token);
      rev := rev + [token];
      i := prev[i];
    }
    assert best[0] == Reached(0.0) by { FirstEntry(v, s, t, |s|); }
  }

  lemma SinglePath(v: Vocab, s: string, n: nat)
    ensures IsPath(v, s, n, [n]) && PathScore(v, s, [n]) == 0.0 && TokensOf(v, s, [n]) == []
  {}

  lemma FirstEntry(v: Vocab, s: string, t: Table, bound: nat)
    requires t.For(s) && Explained(v, s, t, bound)
    ensures t.best[0] == Reached(0.0)
  {}

  lemma ReverseSnoc<T>(t: seq<T>, x: T)
    ensures Reverse(t + [x]) == [x] + Reverse(t)
  {}

  lemma EntryExplained(v: Vocab, s: string, t: Table, bound: nat, i: nat)
    requires t.For(s) && Explained(v, s, t, bound) && 0 < i <= |s| && t.best[i].Reached?
    ensures ExplainedAt(v, s, t, bound, i)
  {}

  /** Following one back-pointer extends the path in front, and accounts for its score. */
  lemma StepBack(v: Vocab, s: string, t: Table, i: nat, path: seq<nat>)
    requires v.Valid() && t.For(s) && 0 < i <= |s| && ExplainedAt(v, s, t, |s|, i)
    requires IsPath(v, s, i, path)
    ensures var h := t.prev[i];
            && h < i && t.best[h].Reached?
            && IsPath(v, s, h, [h] + path)
            && t.best[i].value + PathScore(v, s, path) == t.best[h].value + PathScore(v, s, [h] + path)
            && TokensOf(v, s, [h] + path) ==
                 [if t.isUnk[i] then Token(v.unkId, true) else Token(v.ids[s[h..i]], false)] + TokensOf(v, s, path)
            && (!t.isUnk[i] ==> s[h..i] in v.ids)
  {
    var h := t.prev[i];
    PathScoreCons(v, s, h, path);
    assert ([h] + path)[1..] == path;
    forall k | 0 < k < |[h] + path| ensures Edge(v, s, ([h] + path)[k - 1], ([h] + path)[k]) {
      if k > 1 {
        assert Edge(v, s, path[k - 2], path[k - 1]);
      }
    }
  }

  lemma {:induction false} PathScoreCons(v: Vocab, s: string, h: nat, path: seq<nat>)
    requires path != []
    ensures PathScore(v, s, [h] + path) == Weight(v, s, h, path[0]) + PathScore(v, s, path)
  {
    hide Weight;
    var p := [h] + path;
    if |path| == 1 {
      assert p[..1] == [h];
    } else {
      PathScoreCons(v, s, h, path[..|path| - 1]);
      assert p[..|p| - 1] == [h] + path[..|path| - 1];
    }
  }

  lemma BestPath(v: Vocab, s: string, t: Table, path: seq<nat>)
    requires t.For(s) && t.best[0] == Reached(0.0) && Relaxed(v, s, t.best, |s|)
    requires IsPath(v, s, 0, path) && Last(path) == |s|
    requires t.best[|s|].Reached? && t.best[|s|].value == PathScore(v, s, path)
    ensures IsBest(v, s, path)
  {
    hide Edge, PathScore, Relaxed;
    forall q | IsPath(v, s, 0, q) && Last(q) == |s| ensures PathScore(v, s, q) <= PathScore(v, s, path) {
      NoPathBeats(v, s, t.best, q);
    }
  }

  /** The last loop: rev holds the tokens back to front. */
  method MergeUnknown(v: Vocab, rev: seq<Token>) returns (out: seq<int>)
    requires Marked(v, rev)
    ensures out == Collapse(v, Reverse(rev))
  {
    ghost var t := Reverse(rev);
    out := [];
    var i := |rev|;
    while i > 0
      invariant 0 <= i <= |rev|
      invariant out == Collapse(v, t[..|rev| - i])
    {
      i := i - 1;
      ghost var k := |rev| - 1 - i;
      assert t[..k + 1][..k] == t[..k];
      assert t[k] == rev[i] && (k > 0 ==> t[k - 1] == rev[i + 1]);
      if rev[i].unknown && i + 1 < |rev| && rev[i + 1].unknown {
        UnknownIsLast(v, t[..k]);
      }
      if rev[i].unknown && |out| > 0 && out[|out| - 1] == v.unkId && i + 1 < |rev| && rev[i + 1].unknown {
        continue;
      }
      out := out + [rev[i].id];
    }
    assert t[..|rev|] == t;
  }

  // ----- what a segmentation is -----

  function Spell(s: string, p: seq<nat>): string {
    if |p| <= 1 then ""
    else (if p[0] <= p[1] <= |s| then s[p[0]..p[1]] else "") + Spell(s, p[1..])
  }

  /** The pieces of a path spell the text. */
  lemma {:induction false} PathSpells(v: Vocab, s: string, from: nat, p: seq<nat>)
    requires from <= |s| && IsPath(v, s, from, p) && Last(p) == |s|
    ensures Spell(s, p) == s[from..]
    decreases |p|
  {
    if |p| > 1 {
      assert Edge(v, s, p[0], p[1]);
      forall k | 0 < k < |p[1..]| ensures Edge(v, s, p[1..][k - 1], p[1..][k]) {
        assert Edge(v, s, p[k], p[k + 1]);
      }
      PathSpells(v, s, p[1], p[1..]);
    }
  }

  /** Each token of a path stands for a vocabulary piece, or for one rune where no piece starts. */
  lemma {:induction false} PathTokens(v: Vocab, s: string, from: nat, p: seq<nat>)
    requires v.Valid() && IsPath(v, s, from, p)
    ensures |TokensOf(v, s, p)| == |p| - 1 && Marked(v, TokensOf(v, s, p))
    ensures forall k :: 0 <= k < |p| - 1 ==>
              var t := TokensOf(v, s, p)[k];
              if t.unknown then p[k + 1] == p[k] + 1 && !PieceStarts(v, s, p[k])
              else IsPiece(v, s, p[k], p[k + 1]) && t.id == v.ids[s[p[k]..p[k + 1]]]
    decreases |p|
  {
    if |p| > 1 {
      assert Edge(v, s, p[0], p[1]);
      forall k | 0 < k < |p[1..]| ensures Edge(v, s, p[1..][k - 1], p[1..][k]) {
        assert Edge(v, s, p[k], p[k + 1]);
      }
      PathTokens(v, s, p[1], p[1..]);
    }
  }

  // ----- encode -----

  method Encode(v: Vocab, normalized: string) returns (out: seq<int>)
    requires v.Valid() && v.maxSeq >= 1
    ensures exists pieces :: Segments(v, normalized, pieces) && out == EncodingOf(v, pieces)
  {
    hide Segments;
    var ids := [v.bosId];
    ghost var segments: seq<int> := [];
    if normalized != "" {
      var pieces := Viterbi(v, normalized);
      ids := ids + pieces;
      segments := pieces;
    } else {
      EmptyPath(v);
    }
    assert ids == [v.bosId] + segments && Segments(v, normalized, segments);
    if |ids| > v.maxSeq - 1 {
      ids := ids[..v.maxSeq - 1];
    }
    out := ids + [v.eosId];
  }

  lemma EmptyPath(v: Vocab)
    ensures Segments(v, "", [])
  {
    BestOfNothing(v);
    assert Collapse(v, TokensOf(v, "", [0])) == [];
  }

  lemma BestOfNothing(v: Vocab)
    ensures IsBest(v, "", [0])
  {
    forall q | IsPath(v, "", 0, q) && Last(q) == 0 ensures PathScore(v, "", q) <= 0.0 {
      assert |q| > 1 ==> Edge(v, "", q[0], q[1]);
    }
  }

  function EncodingOf(v: Vocab, ids: seq<int>): seq<int>
    requires v.maxSeq >= 1
  {
    var all := [v.bosId] + ids;
    (if |all| > v.maxSeq - 1 then all[..v.maxSeq - 1] else all) + [v.eosId]
  }

  /** The encoding closes with the end marker and never exceeds maxSeq; it opens with the start
      marker, and holds the ids that fit in between, exactly when maxSeq leaves room for both. */
  lemma EncodingShape(v: Vocab, ids: seq<int>)
    requires v.maxSeq >= 1
    ensures var e := EncodingOf(v, ids);
            && 1 <= |e| <= v.maxSeq && e[|e| - 1] == v.eosId
            && ((|e| >= 2 && e[0] == v.bosId && e[1..|e| - 1] <= ids) <==> v.maxSeq >= 2)
            && (|ids| + 2 <= v.maxSeq ==> e == [v.bosId] + ids + [v.eosId])
            && (|ids| + 2 > v.maxSeq ==> |e| == v.maxSeq)
  {}
}
