/** internal/bundle: near-duplicate detection, greedy packing and section order. */
module Packing {
  import opened Runes
  import opened Sequences
  import opened Tokenizer
  import opened Strings
  import opened Rendering
  import opened Truncation

  // ----- similarity of term sets -----

  function Terms(a: seq<string>): set<string> {
    set x | x in a
  }

  /** Shared terms over all terms. */
  function Similarity(a: seq<string>, b: seq<string>): real {
    if a == [] && b == [] then 1.0
    else
      var union := |Terms(a) + Terms(b)|;
      assert union > 0 by {
        assert a != [] ==> a[0] in Terms(a) + Terms(b);
        assert b != [] ==> b[0] in Terms(a) + Terms(b);
      }
      |Terms(a) * Terms(b)| as real / union as real
  }

  lemma {:induction false} AscendingCount(a: seq<string>)
    requires Ascending(a)
    ensures |Terms(a)| == |a|
  {
    if a != [] {
      var l := |a| - 1;
      AscendingCount(a[..l]);
      assert Terms(a) == Terms(a[..l]) + {a[l]};
      if a[l] in a[..l] {
        LessIrreflexive(a[l]);
      }
    }
  }

  /** The two-pointer walk over two sorted term lists. */
  method Jaccard(a: seq<string>, b: seq<string>) returns (r: real)
    requires Ascending(a) && Ascending(b)
    ensures r == Similarity(a, b)
    ensures if a == [] && b == [] then r == 1.0
            else var all := |(set x | x in a) + (set x | x in b)|; all > 0 && r == |(set x | x in a) * (set x | x in b)| as real / all as real
  {
    hide Less, Terms, Similarity;
    SimilarityIs(a, b);
    if |a| == 0 && |b| == 0 {
      NoTerms();
      return 1.0;
    }
    var i, j, inter := 0, 0, 0;
    WalkStarts(a, b);
    while i < |a| && j < |b|
      invariant i <= |a| && j <= |b|
      invariant inter == |Terms(a[..i]) * Terms(b[..j])|
      invariant Apart(a, b, i, j)
      decreases |a| - i + |b| - j
    {
      if a[i] == b[j] {
        SharedTerm(a, b, i, j);
        inter := inter + 1;
        i := i + 1;
        j := j + 1;
      } else if Less(a[i], b[j]) {
        SkipTerm(a, b, i, j);
        i := i + 1;
      } else {
        LessTotal(a[i], b[j]);
        SkipTerm(b, a, j, i);
        j := j + 1;
      }
    }
    WalkDone(a, b, i, j);
    r := inter as real / (|a| + |b| - inter) as real;
  }

  /** What one list has behind the pointers never equals what the other has ahead of them. */
  ghost predicate Apart(a: seq<string>, b: seq<string>, i: nat, j: nat)
    requires i <= |a| && j <= |b|
  {
    forall p, q :: 0 <= p < |a| && 0 <= q < |b| && (p < i <==> q >= j) ==> a[p] != b[q]
  }

  lemma SimilarityIs(a: seq<string>, b: seq<string>)
    ensures if a == [] && b == [] then Similarity(a, b) == 1.0
            else var all := |(set x | x in a) + (set x | x in b)|; all > 0 && Similarity(a, b) == |(set x | x in a) * (set x | x in b)| as real / all as real
  {
    var all := (set x | x in a) + (set x | x in b);
    assert Terms(a) == set x | x in a;
    assert Terms(b) == set x | x in b;
    assert a != [] ==> a[0] in all;
    assert b != [] ==> b[0] in all;
  }

  lemma NoTerms()
    ensures Similarity([], []) == 1.0
  {}

  lemma WalkStarts(a: seq<string>, b: seq<string>)
    ensures |Terms(a[..0]) * Terms(b[..0])| == 0
  {
    assert Terms(a[..0]) == {};
  }

  lemma TermsSnoc(a: seq<string>, i: nat)
    requires Ascending(a) && i < |a|
    ensures Terms(a[..i + 1]) == Terms(a[..i]) + {a[i]} && a[i] !in Terms(a[..i])
    ensures forall k :: 0 <= k < |a| && k != i ==> a[k] != a[i]
    ensures forall k :: i < k < |a| ==> Less(a[i], a[k])
  {
    assert a[..i + 1] == a[..i] + [a[i]];
    LessIrreflexive(a[i]);
  }

  lemma SharedTerm(a: seq<string>, b: seq<string>, i: nat, j: nat)
    requires Ascending(a) && Ascending(b) && i < |a| && j < |b| && a[i] == b[j]
    requires Apart(a, b, i, j)
    ensures |Terms(a[..i + 1]) * Terms(b[..j + 1])| == |Terms(a[..i]) * Terms(b[..j])| + 1
    ensures Apart(a, b, i + 1, j + 1)
  {
    TermsSnoc(a, i);
    TermsSnoc(b, j);
    assert Terms(a[..i + 1]) * Terms(b[..j + 1]) == Terms(a[..i]) * Terms(b[..j]) + {a[i]};
  }

  lemma SkipTerm(a: seq<string>, b: seq<string>, i: nat, j: nat)
    requires Ascending(a) && Ascending(b) && i < |a| && j < |b| && Less(a[i], b[j])
    requires Apart(a, b, i, j) || Apart(b, a, j, i)
    ensures |Terms(a[..i + 1]) * Terms(b[..j])| == |Terms(a[..i]) * Terms(b[..j])|
    ensures |Terms(b[..j]) * Terms(a[..i + 1])| == |Terms(b[..j]) * Terms(a[..i])|
    ensures Apart(a, b, i + 1, j) && Apart(b, a, j, i + 1)
  {
    TermsSnoc(a, i);
    TermsSnoc(b, j);
    assert Terms(a[..i + 1]) * Terms(b[..j]) == Terms(a[..i]) * Terms(b[..j]);
    assert Terms(b[..j]) * Terms(a[..i + 1]) == Terms(b[..j]) * Terms(a[..i]);
    LessIrreflexive(a[i]);
    forall q | j <= q < |b| ensures a[i] != b[q] {
      if q > j {
        LessTransitive(a[i], b[j], b[q]);
      }
    }
  }

  lemma SharedSeen(a: seq<string>, b: seq<string>, i: nat, j: nat)
    requires i <= |a| && j <= |b| && (i == |a| || j == |b|) && Apart(a, b, i, j)
    ensures Terms(a[..i]) * Terms(b[..j]) == Terms(a) * Terms(b)
  {
    hide Less;
    forall x | x in Terms(a) * Terms(b) ensures x in Terms(a[..i]) * Terms(b[..j]) {
      var p :| 0 <= p < |a| && a[p] == x;
      var q :| 0 <= q < |b| && b[q] == x;
      assert p < i && q < j;
      assert a[..i][p] == x && b[..j][q] == x;
    }
  }

  lemma SubsetCount<T>(a: set<T>, b: set<T>)
    requires a <= b
    ensures |a| <= |b|
  {
    assert b == a + (b - a);
  }

  lemma WalkDone(a: seq<string>, b: seq<string>, i: nat, j: nat)
    requires Ascending(a) && Ascending(b) && i <= |a| && j <= |b| && (i == |a| || j == |b|)
    requires Apart(a, b, i, j)
    requires a != [] || b != []
    ensures var inter := |Terms(a[..i]) * Terms(b[..j])|;
            |a| + |b| > inter && Similarity(a, b) == inter as real / (|a| + |b| - inter) as real
  {
    hide Less, Terms, Ascending, Apart;
    AscendingCount(a);
    AscendingCount(b);
    SharedSeen(a, b, i, j);
    var both := Terms(a) + Terms(b);
    assert |both| == |a| + |b| - |Terms(a) * Terms(b)|;
    assert Terms(a) <= both && Terms(b) <= both;
    SubsetCount(Terms(a), both);
    SubsetCount(Terms(b), both);
  }

  // ----- near-duplicates -----

  /** The sorted search terms of a text. */
  type Extractor = Text -> seq<string>

  ghost predicate SortsTerms(terms: Extractor) {
    forall t :: Ascending(terms(t))
  }

  predicate Near(a: Hit, b: Hit, terms: Extractor) {
    || a.id == b.id
    || Trim(a.content) == Trim(b.content)
    || Similarity(terms(a.content), terms(b.content)) >= 0.85
  }

  method IsDuplicate(ch: Hit, t: seq<string>, selected: seq<Hit>, selectedTerms: seq<seq<string>>, terms: Extractor)
    returns (dup: bool)
    requires SortsTerms(terms) && t == terms(ch.content)
    requires |selectedTerms| == |selected|
    requires forall i :: 0 <= i < |selected| ==> selectedTerms[i] == terms(selected[i].content)
    ensures dup <==> Duplicates(ch, selected, terms)
  {
    hide Similarity, Ascending, Trim;
    for i := 0 to |selected|
      invariant forall j :: 0 <= j < i ==> !Near(ch, selected[j], terms)
    {
      if selected[i].id == ch.id || Trim(selected[i].content) == Trim(ch.content) {
        return true;
      }
      var jaccard := Jaccard(t, selectedTerms[i]);
      if jaccard >= 0.85 {
        return true;
      }
    }
    return false;
  }

  // ----- greedy packing -----

  function Cost(ch: Hit): nat {
    ch.tokens + SectionOverhead(ch)
  }

  /** The hits at the given ranks. */
  function Chosen(ranked: seq<Hit>, picks: seq<nat>): (hits: seq<Hit>)
    requires forall i :: 0 <= i < |picks| ==> picks[i] < |ranked|
    ensures |hits| == |picks|
    ensures forall i :: 0 <= i < |picks| ==> hits[i] == ranked[picks[i]]
  {
    seq(|picks|, i requires 0 <= i < |picks| => ranked[picks[i]])
  }

  predicate Duplicates(ch: Hit, selected: seq<Hit>, terms: Extractor) {
    exists i :: 0 <= i < |selected| && Near(ch, selected[i], terms)
  }

  /** Ranks below k, in order. */
  ghost predicate Ranks(picks: seq<nat>, k: nat) {
    && (forall i :: 0 <= i < |picks| ==> picks[i] < k)
    && (forall i, j :: 0 <= i < j < |picks| ==> picks[i] < picks[j])
  }

  lemma RanksSnoc(picks: seq<nat>, k: nat)
    requires Ranks(picks, k)
    ensures Ranks(picks, k + 1) && Ranks(picks + [k], k + 1)
  {
  }

  /** Ranks taken among the first k: in rank order, whatever is no duplicate of an earlier pick and
      still fits. */
  function Picks(ranked: seq<Hit>, k: nat, budget: int, headerCost: nat, terms: Extractor): (picks: seq<nat>)
    requires k <= |ranked|
    ensures Ranks(picks, k)
  {
    if k == 0 then []
    else
      var rank: nat := k - 1;
      var before := Picks(ranked, rank, budget, headerCost, terms);
      RanksSnoc(before, rank);
      if Takes(ranked, before, rank, budget, headerCost, terms) then before + [rank] else before
  }

  predicate Takes(ranked: seq<Hit>, picks: seq<nat>, k: nat, budget: int, headerCost: nat, terms: Extractor)
    requires k < |ranked| && forall i :: 0 <= i < |picks| ==> picks[i] < |ranked|
  {
    Taken(ranked[k], Chosen(ranked, picks), budget, headerCost, terms)
  }

  predicate Taken(ch: Hit, selected: seq<Hit>, budget: int, headerCost: nat, terms: Extractor) {
    !Duplicates(ch, selected, terms) && headerCost + SumCost(selected) + Cost(ch) <= budget
  }

  const MIN_TRUNCATED_TOKENS := 40

  const MARKER := "\n[… truncated to fit the token budget]"

  function Marker(): Text {
    Lit(MARKER)
  }

  /** Tokens left for the content of a truncated chunk. */
  function Room(head: Hit, budget: int, headerCost: nat): int {
    budget - headerCost - SectionOverhead(head) - Tokens(Marker())
  }

  /** h is head with its content cut to the room there is, closed by the marker. */
  ghost predicate IsTruncated(h: Hit, head: Hit, budget: int, headerCost: nat) {
    exists cut :: IsCut(head.content, Room(head, budget, headerCost), cut)
      && h == head.(content := cut + Marker(), tokens := Tokens(cut + Marker()))
  }

  ghost predicate IsPack(ranked: seq<Hit>, budget: int, headerCost: nat, terms: Extractor, selected: seq<Hit>, truncated: bool) {
    var picks := Picks(ranked, |ranked|, budget, headerCost, terms);
    if picks != [] || ranked == [] || Room(ranked[0], budget, headerCost) < MIN_TRUNCATED_TOKENS then
      selected == Chosen(ranked, picks) && !truncated
    else
      |selected| == 1 && IsTruncated(selected[0], ranked[0], budget, headerCost) && truncated
  }

  /** Every text of a hit is within the estimator's reach. */
  ghost predicate CountableHit(ch: Hit) {
    Countable(ch.content) && Countable(ch.docPath) && Countable(ch.heading)
  }

  lemma BothCountable(a: Text, b: Text)
    requires Countable(a) && Countable(b)
    ensures Countable(a + b)
  {
  }

  lemma ChosenSnoc(ranked: seq<Hit>, picks: seq<nat>, k: nat)
    requires k < |ranked| && forall i :: 0 <= i < |picks| ==> picks[i] < |ranked|
    ensures Chosen(ranked, picks + [k]) == Chosen(ranked, picks) + [ranked[k]]
  {
  }

  lemma PicksNone(ranked: seq<Hit>, budget: int, headerCost: nat, terms: Extractor)
    ensures Picks(ranked, 0, budget, headerCost, terms) == [] && Chosen(ranked, []) == []
  {
  }

  lemma PicksNext(ranked: seq<Hit>, k: nat, budget: int, headerCost: nat, terms: Extractor)
    requires k < |ranked|
    ensures var before := Picks(ranked, k, budget, headerCost, terms);
      Picks(ranked, k + 1, budget, headerCost, terms) ==
        if Taken(ranked[k], Chosen(ranked, before), budget, headerCost, terms) then before + [k] else before
  {
    hide Taken;
  }

  method Pack(ranked: seq<Hit>, budget: int, headerCost: nat, terms: Extractor)
    returns (selected: seq<Hit>, truncated: bool)
    requires SortsTerms(terms)
    requires forall i :: 0 <= i < |ranked| ==> CountableHit(ranked[i])
    ensures IsPack(ranked, budget, headerCost, terms, selected, truncated)
  {
    hide SectionOverhead, SectionHeader, Duplicates, IsCut, Marker, Tokens, SumCost, Picks, Chosen, Countable;
    PicksNone(ranked, budget, headerCost, terms);
    selected, truncated := [], false;
    var selectedTerms: seq<seq<string>> := [];
    var used := headerCost;
    ghost var picks: seq<nat> := [];
    NoCost();
    for k := 0 to |ranked|
      invariant picks == Picks(ranked, k, budget, headerCost, terms)
      invariant selected == Chosen(ranked, picks)
      invariant |selectedTerms| == |selected|
      invariant forall i :: 0 <= i < |selected| ==> selectedTerms[i] == terms(selected[i].content)
      invariant used == headerCost + SumCost(selected)
    {
      var ch := ranked[k];
      PicksNext(ranked, k, budget, headerCost, terms);
      var t := terms(ch.content);
      var dup := IsDuplicate(ch, t, selected, selectedTerms, terms);
      if dup {
        continue;
      }
      var overhead := OverheadOf(ch);
      var cost := ch.tokens + overhead;
      if used + cost > budget {
        continue;
      }
      SumCostSnoc(selected, ch);
      ChosenSnoc(ranked, picks, k);
      selected := selected + [ch];
      selectedTerms := selectedTerms + [t];
      used := used + cost;
      picks := picks + [k];
    }
    if |selected| == 0 && |ranked| > 0 {
      var head := ranked[0];
      var overhead := OverheadOf(head);
      MarkerCountable();
      var m := Count(Marker());
      var room := budget - headerCost - overhead - m;
      if room >= MIN_TRUNCATED_TOKENS {
        var cut := Truncate(head.content, room);
        CutCountable(head.content, room, cut);
        BothCountable(cut, Marker());
        var tokens := Count(cut + Marker());
        selected := [head.(content := cut + Marker(), tokens := tokens)];
        truncated := true;
        assert IsTruncated(selected[0], head, budget, headerCost);
      }
    }
  }

  method OverheadOf(ch: Hit) returns (n: nat)
    requires CountableHit(ch)
    ensures n == SectionOverhead(ch)
  {
    HeaderCountable(ch);
    n := Count(SectionHeader(ch));
    n := n + 2;
  }

  lemma DigitsCountable(d: Text)
    requires forall r :: r in d ==> r.Digit?
    ensures Countable(d)
  {
    forall i | 0 <= i < |d| ensures !d[i].ForeignDigit? {
      assert d[i] in d;
    }
  }

  lemma LitCountable(s: string)
    ensures Countable(Lit(s))
  {}

  lemma DateCountable(d: Date)
    ensures Countable(FormatDate(d))
  {
    DigitsCountable(Decimal(d.year));
    DigitsCountable(Decimal(d.month));
    DigitsCountable(Decimal(d.day));
    LitCountable("-");
  }

  lemma HeaderCountable(ch: Hit)
    requires CountableHit(ch)
    ensures Countable(SectionHeader(ch))
  {
    hide FormatDate, Decimal;
    LitCountable("## ");
    LitCountable(" — ");
    if ch.updated.Some? {
      DateCountable(ch.updated.value);
      DateCountable(ch.codeChanged);
      DigitsCountable(Decimal(ch.codeChanges));
      LitCountable(" (updated ");
      LitCountable("; code changed since: ");
      LitCountable(" commit");
      LitCountable("s");
      LitCountable(", last ");
      LitCountable(")");
    }
  }

  lemma MarkerCountable()
    ensures Countable(Marker())
  {
    LitCountable(MARKER);
  }

  lemma TrimKeepsCountable(s: Text)
    requires Countable(s)
    ensures Countable(Trim(s)) && Countable(TrimNewlines(s))
  {}

  lemma CutCountable(s: Text, limit: int, t: Text)
    requires Countable(s) && IsCut(s, limit, t)
    ensures Countable(t)
  {
    hide Tokens, Trim, TrimNewlines;
    var lines := Split(s, NL);
    if Tokens(s) > limit {
      if Tokens(lines[0]) <= limit {
        var k :| 0 < k < |lines| && LinesEndAt(lines, limit, k) && t == TrimNewlines(Head(lines, k));
        LinesCountable(s);
        HeadCountable(lines, k);
        TrimKeepsCountable(Head(lines, k));
      } else {
        var k :| 0 <= k <= |s| && RunesEndAt(s, limit, k) && t == Trim(s[..k]);
        TrimKeepsCountable(s[..k]);
      }
    }
  }

  lemma NoCost()
    ensures SumCost([]) == 0
  {}

  lemma {:induction false} SumCostConcat(a: seq<Hit>, b: seq<Hit>)
    ensures SumCost(a + b) == SumCost(a) + SumCost(b)
    ensures TotalTokens(a + b) == TotalTokens(a) + TotalTokens(b)
  {
    hide SectionOverhead;
    if a == [] {
      assert a + b == b;
    } else {
      assert (a + b)[1..] == a[1..] + b;
      SumCostConcat(a[1..], b);
    }
  }

  lemma SumCostSnoc(a: seq<Hit>, ch: Hit)
    ensures SumCost(a + [ch]) == SumCost(a) + Cost(ch)
  {
    hide SectionOverhead;
    SumCostConcat(a, [ch]);
    assert SumCost([ch]) == Cost(ch) + SumCost([]);
  }

  lemma {:induction false} SumCostPrefix(a: seq<Hit>, b: seq<Hit>)
    requires a <= b
    ensures SumCost(a) <= SumCost(b)
  {
    SumCostConcat(a, b[|a|..]);
    assert a + b[|a|..] == b;
  }

  // ----- what packing does, hit by hit -----

  /** The first n hits, one by one.  A hit is taken when what was spent so far leaves room for its
      content and its title, and no hit taken before has its id, its text or nearly all its terms. */
  ghost predicate Walked(ranked: seq<Hit>, n: nat, titles: seq<Text>, places: seq<nat>, spent: seq<int>, budget: int, headerCost: nat, terms: Extractor)
    requires n <= |ranked|
  {
    && |titles| == n && |spent| == n + 1 && spent[0] == headerCost && Rising(places, n)
    && forall k: nat :: k < n ==>
         && Attributes(titles[k], ranked[k])
         && (k in places <==> spent[k] + ranked[k].tokens + Tokens(titles[k]) + 2 <= budget && Fresh(ranked, places, k, terms))
         && spent[k + 1] == spent[k] + if k in places then ranked[k].tokens + Tokens(titles[k]) + 2 else 0
  }

  ghost predicate Fresh(ranked: seq<Hit>, places: seq<nat>, k: nat, terms: Extractor)
    requires k < |ranked|
  {
    forall i :: i in places && i < k ==>
      && ranked[i].id != ranked[k].id
      && Trim(ranked[i].content) != Trim(ranked[k].content)
      && Similarity(terms(ranked[k].content), terms(ranked[i].content)) < 0.85
  }

  lemma {:induction false} PicksWalk(ranked: seq<Hit>, n: nat, budget: int, headerCost: nat, terms: Extractor)
    returns (titles: seq<Text>, spent: seq<int>)
    requires n <= |ranked|
    ensures var picks := Picks(ranked, n, budget, headerCost, terms);
      && Walked(ranked, n, titles, picks, spent, budget, headerCost, terms)
      && spent[n] == headerCost + SumCost(Chosen(ranked, picks))
    decreases n
  {
    hide Picks, Attributes, SectionHeader, Similarity, Trim, Tokens, Taken, SumCost, Fresh, Walked;
    if n == 0 {
      titles, spent := [], [headerCost];
      PicksNone(ranked, budget, headerCost, terms);
      NoCost();
      NotWalked(ranked, spent, budget, headerCost, terms);
    } else {
      var k: nat := n - 1;
      var before := Picks(ranked, k, budget, headerCost, terms);
      titles, spent := PicksWalk(ranked, k, budget, headerCost, terms);
      PicksNext(ranked, k, budget, headerCost, terms);
      var title := SectionHeader(ranked[k]);
      HeaderAttributes(ranked[k]);
      TakenIff(ranked, before, k, budget, headerCost, terms);
      ChosenSnoc(ranked, before, k);
      SumCostSnoc(Chosen(ranked, before), ranked[k]);
      var cost := ranked[k].tokens + Tokens(title) + 2;
      var taken := Taken(ranked[k], Chosen(ranked, before), budget, headerCost, terms);
      OneStepWalked(ranked, k, titles, before, spent, budget, headerCost, terms, title, taken);
      SpentEnds(ranked, k, titles, before, spent, budget, headerCost, terms);
      titles := titles + [title];
      spent := spent + [spent[k] + if taken then cost else 0];
    }
  }

  lemma NotWalked(ranked: seq<Hit>, spent: seq<int>, budget: int, headerCost: nat, terms: Extractor)
    requires spent == [headerCost]
    ensures Walked(ranked, 0, [], [], spent, budget, headerCost, terms)
  {}

  lemma SpentEnds(ranked: seq<Hit>, n: nat, titles: seq<Text>, places: seq<nat>, spent: seq<int>, budget: int, headerCost: nat, terms: Extractor)
    requires n <= |ranked| && Walked(ranked, n, titles, places, spent, budget, headerCost, terms)
    ensures |spent| == n + 1
  {}

  /** With the picks before k chosen, what taking k depends on. */
  lemma TakenIff(ranked: seq<Hit>, before: seq<nat>, k: nat, budget: int, headerCost: nat, terms: Extractor)
    requires k < |ranked| && Rising(before, k)
    ensures Taken(ranked[k], Chosen(ranked, before), budget, headerCost, terms) <==>
      && headerCost + SumCost(Chosen(ranked, before)) + ranked[k].tokens + Tokens(SectionHeader(ranked[k])) + 2 <= budget
      && Fresh(ranked, before, k, terms)
  {
    hide SectionHeader, Similarity, Trim, Tokens, SumCost;
    var hits := Chosen(ranked, before);
    if Duplicates(ranked[k], hits, terms) {
      var i :| 0 <= i < |hits| && Near(ranked[k], hits[i], terms);
      assert before[i] in before && hits[i] == ranked[before[i]];
    } else {
      forall i | i in before && i < k
        ensures ranked[i].id != ranked[k].id && Trim(ranked[i].content) != Trim(ranked[k].content)
                && Similarity(terms(ranked[k].content), terms(ranked[i].content)) < 0.85
      {
        var p :| 0 <= p < |before| && before[p] == i;
        assert !Near(ranked[k], hits[p], terms);
      }
    }
  }

  lemma OneStepWalked(ranked: seq<Hit>, k: nat, titles: seq<Text>, places: seq<nat>, spent: seq<int>, budget: int, headerCost: nat, terms: Extractor, title: Text, taken: bool)
    requires k < |ranked| && Walked(ranked, k, titles, places, spent, budget, headerCost, terms)
    requires Attributes(title, ranked[k])
    requires taken <==> spent[k] + ranked[k].tokens + Tokens(title) + 2 <= budget && Fresh(ranked, places, k, terms)
    ensures Walked(ranked, k + 1, titles + [title], if taken then places + [k] else places,
                   spent + [spent[k] + if taken then ranked[k].tokens + Tokens(title) + 2 else 0], budget, headerCost, terms)
  {
    hide Attributes, Tokens, Fresh;
    var ts, ps := titles + [title], if taken then places + [k] else places;
    var sp := spent + [spent[k] + if taken then ranked[k].tokens + Tokens(title) + 2 else 0];
    RisingSnoc(places, k);
    forall j: nat | j < k + 1
      ensures Attributes(ts[j], ranked[j])
      ensures j in ps <==> sp[j] + ranked[j].tokens + Tokens(ts[j]) + 2 <= budget && Fresh(ranked, ps, j, terms)
      ensures sp[j + 1] == sp[j] + if j in ps then ranked[j].tokens + Tokens(ts[j]) + 2 else 0
    {
      FreshStays(ranked, places, k, j, terms);
      if j < k {
        assert ts[j] == titles[j] && sp[j] == spent[j] && sp[j + 1] == spent[j + 1];
        assert j in ps <==> j in places;
      }
    }
  }

  lemma FreshStays(ranked: seq<Hit>, places: seq<nat>, k: nat, j: nat, terms: Extractor)
    requires j <= k < |ranked|
    ensures Fresh(ranked, places + [k], j, terms) <==> Fresh(ranked, places, j, terms)
  {
    hide Similarity, Trim;
    assert forall i :: i in places + [k] <==> i in places || i == k;
  }

  /** What is selected: the hits taken on the walk; when none is, the head of the first one, cut to
      the tokens that are left for it and closed by a note, if at least 40 are; else nothing. */
  lemma PackIs(ranked: seq<Hit>, budget: int, headerCost: nat, terms: Extractor, selected: seq<Hit>, truncated: bool)
    returns (titles: seq<Text>, places: seq<nat>, spent: seq<int>, cut: Text)
    requires IsPack(ranked, budget, headerCost, terms, selected, truncated)
    ensures Walked(ranked, |ranked|, titles, places, spent, budget, headerCost, terms)
    ensures places != [] ==>
      !truncated && |selected| == |places| && forall i :: 0 <= i < |places| ==> selected[i] == ranked[places[i]]
    ensures places == [] ==>
      (truncated <==> ranked != [] && LeftFor(titles[0], budget, headerCost) >= 40)
      && (!truncated ==> selected == [])
      && (truncated ==>
            && IsCut(ranked[0].content, LeftFor(titles[0], budget, headerCost), cut)
            && selected == [ranked[0].(content := cut + Lit("\n[… truncated to fit the token budget]"),
                                       tokens := Tokens(cut + Lit("\n[… truncated to fit the token budget]")))])
  {
    hide Picks, Similarity, Trim, Tokens, IsCut, SumCost, Attributes, SectionHeader;
    titles, spent := PicksWalk(ranked, |ranked|, budget, headerCost, terms);
    places := Picks(ranked, |ranked|, budget, headerCost, terms);
    if ranked != [] {
      assert Attributes(titles[0], ranked[0]);
      OneTitle(titles[0], ranked[0]);
    }
    cut := [];
    if truncated {
      assert selected == [selected[0]];
      cut :| IsCut(ranked[0].content, Room(ranked[0], budget, headerCost), cut)
        && selected[0] == ranked[0].(content := cut + Marker(), tokens := Tokens(cut + Marker()));
    }
  }

  /** What the budget leaves for a text under this title, with the note that it was cut. */
  ghost function LeftFor(title: Text, budget: int, headerCost: nat): int {
    budget - headerCost - (Tokens(title) + 2) - Tokens(Lit("\n[… truncated to fit the token budget]"))
  }

  lemma OneTitle(title: Text, ch: Hit)
    requires Attributes(title, ch)
    ensures title == SectionHeader(ch)
  {
    hide SectionHeader, FormatDate, Decimal, Lit;
    HeaderAttributes(ch);
  }

  // ----- what packing guarantees -----

  /** Earlier picks stay picked, in front. */
  lemma {:induction false} PicksGrow(ranked: seq<Hit>, k: nat, m: nat, budget: int, headerCost: nat, terms: Extractor)
    requires k <= m <= |ranked|
    ensures Picks(ranked, k, budget, headerCost, terms) <= Picks(ranked, m, budget, headerCost, terms)
  {
    hide Duplicates, SumCost, Cost;
    if k < m {
      PicksGrow(ranked, k, m - 1, budget, headerCost, terms);
    }
  }

  lemma {:induction false} PicksFit(ranked: seq<Hit>, k: nat, budget: int, headerCost: nat, terms: Extractor)
    requires k <= |ranked|
    ensures var picks := Picks(ranked, k, budget, headerCost, terms);
            picks != [] ==> headerCost + SumCost(Chosen(ranked, picks)) <= budget
  {
    hide Duplicates, SumCost, Cost;
    if k > 0 {
      PicksFit(ranked, k - 1, budget, headerCost, terms);
      var before := Picks(ranked, k - 1, budget, headerCost, terms);
      SumCostSnoc(Chosen(ranked, before), ranked[k - 1]);
      assert Chosen(ranked, before + [k - 1]) == Chosen(ranked, before) + [ranked[k - 1]];
    }
  }

  /** No hit nearly duplicates an earlier one. */
  ghost predicate NoDuplicates(hits: seq<Hit>, terms: Extractor) {
    forall i, j :: 0 <= i < j < |hits| ==> !Near(hits[j], hits[i], terms)
  }

  lemma {:induction false} PicksDiffer(ranked: seq<Hit>, k: nat, budget: int, headerCost: nat, terms: Extractor)
    requires k <= |ranked|
    ensures NoDuplicates(Chosen(ranked, Picks(ranked, k, budget, headerCost, terms)), terms)
  {
    hide SumCost, Cost, Picks, Chosen, Near;
    if k == 0 {
      NoneDuplicate(terms);
      PicksNone(ranked, budget, headerCost, terms);
    } else {
      var rank: nat := k - 1;
      PicksDiffer(ranked, rank, budget, headerCost, terms);
      PicksNext(ranked, rank, budget, headerCost, terms);
      var before := Picks(ranked, rank, budget, headerCost, terms);
      if Taken(ranked[rank], Chosen(ranked, before), budget, headerCost, terms) {
        ChosenSnoc(ranked, before, rank);
        assert NoDuplicates(Chosen(ranked, before) + [ranked[rank]], terms) by {
          hide Near;
          var more := Chosen(ranked, before) + [ranked[rank]];
          forall i, j | 0 <= i < j < |more| ensures !Near(more[j], more[i], terms) {
            if j == |more| - 1 {
              assert more[i] == Chosen(ranked, before)[i];
            }
          }
        }
      }
    }
  }

  lemma NoneDuplicate(terms: Extractor)
    ensures NoDuplicates([], terms)
  {}

  /** A chunk left out duplicates one taken before it, or does not fit what remains at the end. */
  lemma LeftOutForAReason(ranked: seq<Hit>, k: nat, budget: int, headerCost: nat, terms: Extractor)
    requires k < |ranked|
    requires k !in Picks(ranked, |ranked|, budget, headerCost, terms)
    ensures var picks := Picks(ranked, |ranked|, budget, headerCost, terms);
            || (exists i :: 0 <= i < |picks| && picks[i] < k && Near(ranked[k], ranked[picks[i]], terms))
            || headerCost + SumCost(Chosen(ranked, picks)) + Cost(ranked[k]) > budget
  {
    hide Near, SumCost, Cost, Picks;
    var before := Picks(ranked, k, budget, headerCost, terms);
    var after := Picks(ranked, k + 1, budget, headerCost, terms);
    var picks := Picks(ranked, |ranked|, budget, headerCost, terms);
    PicksNext(ranked, k, budget, headerCost, terms);
    PicksGrow(ranked, k, |ranked|, budget, headerCost, terms);
    PicksGrow(ranked, k + 1, |ranked|, budget, headerCost, terms);
    assert (before + [k])[|before|] == k;
    assert forall i :: 0 <= i < |after| ==> picks[i] == after[i];
    if Duplicates(ranked[k], Chosen(ranked, before), terms) {
      var i :| 0 <= i < |before| && Near(ranked[k], Chosen(ranked, before)[i], terms);
      assert picks[i] == before[i] && picks[i] < k;
    } else {
      SumCostPrefix(Chosen(ranked, before), Chosen(ranked, picks));
    }
  }

  lemma MarkerCost(cut: Text)
    ensures Tokens(cut + Marker()) <= Tokens(cut) + Tokens(Marker())
  {
    var m := Marker();
    var rest := m[1..];
    MarkerStarts();
    RunOne(START, Newline);
    hide Tokens, Marker, Run;
    assert cut + m == cut + NL + rest;
    NewlineSubadditive(cut, rest);
    CutBefore(NL, rest);
    assert Tokens(NL) == 1 by { NewlineCost(); }
  }

  lemma MarkerStarts()
    ensures var m := Marker(); |m| > 1 && m == NL + m[1..] && m[1] == Symbol('[' as nat)
  {
    assert MARKER[0] == '\n' && MARKER[1] == '[';
    var m := Marker();
    assert m[0] == Newline;
  }

  lemma NewlineCost()
    ensures Tokens(NL) == 1
  {
    RunOne(START, Newline);
  }

  /** The truncated head, marker included, fits the budget that its untruncated form missed. */
  lemma TruncatedFits(h: Hit, head: Hit, budget: int, headerCost: nat)
    requires IsTruncated(h, head, budget, headerCost)
    requires Room(head, budget, headerCost) >= MIN_TRUNCATED_TOKENS
    ensures headerCost + Cost(h) <= budget
    ensures h.tokens == Tokens(h.content)
  {
    hide Tokens, IsCut, Marker;
    var room := Room(head, budget, headerCost);
    var cut :| IsCut(head.content, room, cut) && h == head.(content := cut + Marker(), tokens := Tokens(cut + Marker()));
    CutFits(head.content, room, cut);
    MarkerCost(cut);
    assert SectionHeader(h) == SectionHeader(head);
  }

  /** Whatever Pack selects is priced correctly and, if anything is selected, fits with the header. */
  lemma PackFits(ranked: seq<Hit>, budget: int, headerCost: nat, terms: Extractor, selected: seq<Hit>, truncated: bool)
    requires IsPack(ranked, budget, headerCost, terms, selected, truncated)
    requires Priced(ranked)
    ensures Priced(selected) && |selected| <= |ranked|
    ensures selected != [] ==> headerCost + SumCost(selected) <= budget
  {
    hide Tokens, Room, IsTruncated, Cost, Picks, Duplicates, SumCost, Near;
    var picks := Picks(ranked, |ranked|, budget, headerCost, terms);
    PicksFit(ranked, |ranked|, budget, headerCost, terms);
    PicksAreFewer(picks, |ranked|);
    if truncated {
      TruncatedFits(selected[0], ranked[0], budget, headerCost);
      assert selected == [] + [selected[0]];
      SumCostSnoc([], selected[0]);
      NoCost();
    }
  }

  lemma {:induction false} PicksAreFewer(picks: seq<nat>, k: nat)
    requires forall i :: 0 <= i < |picks| ==> picks[i] < k
    requires forall i, j :: 0 <= i < j < |picks| ==> picks[i] < picks[j]
    ensures |picks| <= k
  {
    if picks != [] {
      PicksAreFewer(picks[..|picks| - 1], picks[|picks| - 1]);
    }
  }

  // ----- section order -----

  function ScopeRank(scope: string): nat {
    if scope == "domain" then 0 else if scope == "conventions" then 1 else 2
  }

  /** The chunks of one scope rank, in rank order. */
  function OfRank(chunks: seq<Hit>, rank: nat): seq<Hit> {
    if chunks == [] then []
    else (if ScopeRank(chunks[0].scope) == rank then [chunks[0]] else []) + OfRank(chunks[1..], rank)
  }

  /** The stable sort by scope rank. */
  function Order(chunks: seq<Hit>): seq<Hit> {
    OfRank(chunks, 0) + OfRank(chunks, 1) + OfRank(chunks, 2)
  }

  /** Domain sections first, then those of the conventions, then all others, whatever they are. */
  lemma OrderedByScope(chunks: seq<Hit>)
    ensures forall i, j :: 0 <= i < j < |Order(chunks)| ==>
      var a, b := Order(chunks)[i].scope, Order(chunks)[j].scope;
      (b == "domain" ==> a == "domain") && (b == "conventions" ==> a == "domain" || a == "conventions")
  {
    hide Order;
    OrderIsStable(chunks);
    forall i, j | 0 <= i < j < |Order(chunks)|
      ensures var a, b := Order(chunks)[i].scope, Order(chunks)[j].scope;
        (b == "domain" ==> a == "domain") && (b == "conventions" ==> a == "domain" || a == "conventions")
    {
      assert ScopeRank(Order(chunks)[i].scope) <= ScopeRank(Order(chunks)[j].scope);
    }
  }

  /** Sections of one kind of scope keep the order they came in. */
  lemma {:induction false} OfRankIs(chunks: seq<Hit>, rank: nat) returns (places: seq<nat>)
    requires rank <= 2
    ensures Rising(places, |chunks|) && |OfRank(chunks, rank)| == |places|
    ensures forall i :: 0 <= i < |places| ==> OfRank(chunks, rank)[i] == chunks[places[i]]
    ensures forall k :: 0 <= k < |chunks| ==>
      (k in places <==> if rank == 0 then chunks[k].scope == "domain"
                        else if rank == 1 then chunks[k].scope == "conventions"
                        else chunks[k].scope != "domain" && chunks[k].scope != "conventions")
  {
    places := [];
    if chunks != [] {
      var l := |chunks| - 1;
      places := OfRankIs(chunks[..l], rank);
      assert forall k :: 0 <= k < l ==> chunks[..l][k] == chunks[k];
      RisingSnoc(places, l);
      assert chunks == chunks[..l] + [chunks[l]];
      OfRankConcat(chunks[..l], [chunks[l]], rank);
      OneOfRank(chunks[l], rank);
      if ScopeRank(chunks[l].scope) == rank {
        places := places + [l];
      }
    }
  }

  lemma OneOfRank(ch: Hit, rank: nat)
    ensures OfRank([ch], rank) == if ScopeRank(ch.scope) == rank then [ch] else []
  {
    assert [ch][1..] == [];
  }

  lemma {:induction false} OfRankConcat(a: seq<Hit>, b: seq<Hit>, rank: nat)
    ensures OfRank(a + b, rank) == OfRank(a, rank) + OfRank(b, rank)
  {
    if a == [] {
      assert a + b == b;
    } else {
      hide OfRank, ScopeRank;
      var s, p, q := a + b, OfRank(a[1..], rank), OfRank(b, rank);
      OfRankConcat(a[1..], b, rank);
      TailOfConcat(a, b);
      OfRankFirst(a, rank);
      OfRankFirst(s, rank);
      InFront(a[0], p, q);
    }
  }

  lemma TailOfConcat<T>(a: seq<T>, b: seq<T>)
    requires a != []
    ensures (a + b)[1..] == a[1..] + b && (a + b)[0] == a[0]
  {
  }

  lemma InFront<T>(x: T, p: seq<T>, q: seq<T>)
    ensures [x] + (p + q) == [x] + p + q
  {
  }

  lemma OfRankFirst(s: seq<Hit>, rank: nat)
    requires s != []
    ensures OfRank(s, rank) == if ScopeRank(s[0].scope) == rank then [s[0]] + OfRank(s[1..], rank) else OfRank(s[1..], rank)
  {
    hide ScopeRank;
    assert [] + OfRank(s[1..], rank) == OfRank(s[1..], rank);
  }

  lemma {:induction false} OfRankTwice(chunks: seq<Hit>, rank: nat, other: nat)
    ensures OfRank(OfRank(chunks, rank), other) == if rank == other then OfRank(chunks, rank) else []
    ensures forall i :: 0 <= i < |OfRank(chunks, rank)| ==> ScopeRank(OfRank(chunks, rank)[i].scope) == rank
  {
    if chunks != [] {
      OfRankTwice(chunks[1..], rank, other);
      var first := if ScopeRank(chunks[0].scope) == rank then [chunks[0]] else [];
      OfRankConcat(first, OfRank(chunks[1..], rank), other);
      if first != [] {
        assert first[1..] == [];
      }
    }
  }

  lemma OrderCount(chunks: seq<Hit>)
    ensures multiset(Order(chunks)) ==
      multiset(OfRank(chunks, 0)) + multiset(OfRank(chunks, 1)) + multiset(OfRank(chunks, 2))
  {
    hide OfRank;
  }

  /** What a chunk adds to the chunks of a rank. */
  function One(x: Hit, rank: nat): multiset<Hit> {
    if ScopeRank(x.scope) == rank then multiset{x} else multiset{}
  }

  lemma RankCount(x: Hit, rest: seq<Hit>, rank: nat)
    ensures multiset(OfRank([x] + rest, rank)) == One(x, rank) + multiset(OfRank(rest, rank))
  {
    hide OfRank, ScopeRank;
    OfRankFirst([x] + rest, rank);
    assert ([x] + rest)[1..] == rest;
  }

  lemma OnesAdd(x: Hit)
    ensures One(x, 0) + One(x, 1) + One(x, 2) == multiset{x}
  {}

  lemma Regroup<T>(a: multiset<T>, b: multiset<T>, c: multiset<T>, k: multiset<T>, l: multiset<T>, m: multiset<T>)
    ensures (a + k) + (b + l) + (c + m) == (a + b + c) + (k + l + m)
  {}

  lemma ConsCount<T>(x: T, rest: seq<T>)
    ensures multiset([x] + rest) == multiset{x} + multiset(rest)
  {}

  lemma {:induction false} OfRankKeeps(chunks: seq<Hit>)
    ensures multiset(Order(chunks)) == multiset(chunks)
  {
    if chunks != [] {
      hide Order, OfRank, One;
      var x, rest := chunks[0], chunks[1..];
      OfRankKeeps(rest);
      OrderCount([x] + rest);
      OrderCount(rest);
      RankCount(x, rest, 0);
      RankCount(x, rest, 1);
      RankCount(x, rest, 2);
      Regroup(One(x, 0), One(x, 1), One(x, 2),
              multiset(OfRank(rest, 0)), multiset(OfRank(rest, 1)), multiset(OfRank(rest, 2)));
      OnesAdd(x);
      ConsCount(x, rest);
      assert chunks == [x] + rest;
    }
  }

  lemma {:induction false} OrderKeepsSums(chunks: seq<Hit>)
    ensures SumCost(Order(chunks)) == SumCost(chunks)
    ensures TotalTokens(Order(chunks)) == TotalTokens(chunks)
  {
    hide SectionOverhead, ScopeRank;
    Sums3(OfRank(chunks, 0), OfRank(chunks, 1), OfRank(chunks, 2));
    RankSums(chunks);
  }

  lemma {:induction false} RankSums(chunks: seq<Hit>)
    ensures SumCost(OfRank(chunks, 0)) + SumCost(OfRank(chunks, 1)) + SumCost(OfRank(chunks, 2)) == SumCost(chunks)
    ensures TotalTokens(OfRank(chunks, 0)) + TotalTokens(OfRank(chunks, 1)) + TotalTokens(OfRank(chunks, 2)) == TotalTokens(chunks)
  {
    hide SectionOverhead, SumCost, TotalTokens;
    NoCost();
    NoTotal();
    if chunks != [] {
      var x := [chunks[0]];
      RankSums(chunks[1..]);
      SumCostConcat(x, chunks[1..]);
      assert chunks == x + chunks[1..];
      SumCostConcat(x, OfRank(chunks[1..], ScopeRank(chunks[0].scope)));
      assert forall s: seq<Hit> :: [] + s == s;
    }
  }

  lemma Sums3(a: seq<Hit>, b: seq<Hit>, c: seq<Hit>)
    ensures SumCost(a + b + c) == SumCost(a) + SumCost(b) + SumCost(c)
    ensures TotalTokens(a + b + c) == TotalTokens(a) + TotalTokens(b) + TotalTokens(c)
  {
    hide SumCost, TotalTokens;
    SumCostConcat(a, b);
    SumCostConcat(a + b, c);
  }

  lemma RankOfOrder(chunks: seq<Hit>, rank: nat)
    requires rank <= 2
    ensures OfRank(Order(chunks), rank) == OfRank(chunks, rank)
  {
    hide OfRank;
    var a, b, c := OfRank(chunks, 0), OfRank(chunks, 1), OfRank(chunks, 2);
    OfRankConcat(a + b, c, rank);
    OfRankConcat(a, b, rank);
    OfRankTwice(chunks, 0, rank);
    OfRankTwice(chunks, 1, rank);
    OfRankTwice(chunks, 2, rank);
  }

  /** Sections come out domain first, then conventions, then projects; nothing is lost or repeated,
      and within a rank the order is unchanged. */
  lemma OrderIsStable(chunks: seq<Hit>)
    ensures multiset(Order(chunks)) == multiset(chunks)
    ensures forall i, j :: 0 <= i < j < |Order(chunks)| ==>
              ScopeRank(Order(chunks)[i].scope) <= ScopeRank(Order(chunks)[j].scope)
    ensures forall rank | 0 <= rank <= 2 :: OfRank(Order(chunks), rank) == OfRank(chunks, rank)
  {
    hide OfRank;
    OfRankKeeps(chunks);
    forall rank | 0 <= rank <= 2 ensures OfRank(Order(chunks), rank) == OfRank(chunks, rank) {
      RankOfOrder(chunks, rank);
    }
    OfRankTwice(chunks, 0, 0);
    OfRankTwice(chunks, 1, 1);
    OfRankTwice(chunks, 2, 2);
  }
}
