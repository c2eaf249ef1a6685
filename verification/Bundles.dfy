/** internal/bundle: compiling one bundle, and the budget it keeps. */
module Bundles {
  import opened Runes
  import opened Sequences
  import opened Tokenizer
  import opened Rendering
  import opened Truncation
  import opened Packing

  /** search.Budget: five percent of headroom, at least one token. */
  function Budget(maxTokens: int): (b: int)
    ensures maxTokens >= 1 ==> 1 <= b <= maxTokens
  {
    var share := maxTokens as real * 0.95;
    var b := if share >= 0.0 then share.Floor else -(-share).Floor;
    if b < 1 && maxTokens > 0 then 1 else b
  }

  /** 95 hundredths, cut toward zero; of a single token all of it. */
  lemma BudgetIs(maxTokens: int)
    ensures maxTokens == 1 ==> Budget(maxTokens) == 1
    ensures maxTokens == 0 || maxTokens >= 2 ==> 100 * Budget(maxTokens) <= 95 * maxTokens < 100 * (Budget(maxTokens) + 1)
    ensures maxTokens < 0 ==> 100 * (Budget(maxTokens) - 1) < 95 * maxTokens <= 100 * Budget(maxTokens)
  {}

  /** What the attribution and rendering of a bundle depend on besides its chunks. */
  datatype Frame = Frame(id: Text, task: Text, scopes: seq<Text>, fingerprint: Text) {
    function Show(chunks: seq<Hit>): Text {
      Bundle(id, task, scopes, fingerprint, Order(chunks))
    }

    function Reserve(): nat {
      HeaderCost(id, task, scopes, fingerprint)
    }

    ghost predicate IsCountable() {
      Countable(id) && Countable(task) && Countable(fingerprint)
      && forall i :: 0 <= i < |scopes| ==> Countable(scopes[i])
    }
  }

  datatype Compiled = Compiled(content: Text, tokens: nat, sections: seq<Hit>, truncated: bool)

  /** n is the longest prefix of the selection whose rendering fits, or nothing. */
  ghost predicate KeepsLongest(f: Frame, selected: seq<Hit>, budget: int, n: nat)
    requires n <= |selected|
  {
    (n > 0 ==> Tokens(f.Show(selected[..n])) <= budget)
    && forall m :: n < m <= |selected| ==> Tokens(f.Show(selected[..m])) > budget
  }

  ghost predicate IsCompiled(f: Frame, ranked: seq<Hit>, maxTokens: int, terms: Extractor, out: Compiled) {
    exists selected: seq<Hit>, n: nat :: CompiledFrom(f, ranked, maxTokens, terms, out, selected, n)
  }

  ghost predicate CompiledFrom(f: Frame, ranked: seq<Hit>, maxTokens: int, terms: Extractor, out: Compiled, selected: seq<Hit>, n: nat) {
    && IsPack(ranked, Budget(maxTokens), f.Reserve(), terms, selected, out.truncated)
    && n <= |selected|
    && KeepsLongest(f, selected, Budget(maxTokens), n)
    && out.sections == Order(selected[..n])
    && out.content == f.Show(selected[..n])
    && out.tokens == Tokens(out.content)
  }

  method Compile(f: Frame, ranked: seq<Hit>, maxTokens: int, terms: Extractor) returns (out: Compiled)
    requires SortsTerms(terms)
    requires f.IsCountable() && forall i :: 0 <= i < |ranked| ==> CountableHit(ranked[i])
    ensures IsCompiled(f, ranked, maxTokens, terms, out)
  {
    hide Bundle, Order, IsPack, Tokens, HeaderCost, CountableHit, Lays, Lit, Budget, TotalTokens, Decimal, OneLine, Join;
    var budget := Budget(maxTokens);
    var empty := Render(f.id, f.task, f.scopes, f.fingerprint, []);
    BundleCountable(f, []);
    var headerCost := Count(empty);
    headerCost := headerCost + 4;
    ReserveIs(f);
    var packed, truncated := Pack(ranked, budget, headerCost, terms);
    PackCountable(ranked, budget, headerCost, terms, packed, truncated);
    var n := |packed|;
    var content := RenderOrdered(f, packed);
    assert packed[..n] == packed;
    var tokens := CountShown(f, packed, content);
    while tokens > budget && n > 0
      invariant n <= |packed|
      invariant content == f.Show(packed[..n]) && tokens == Tokens(content)
      invariant forall m :: n < m <= |packed| ==> Tokens(f.Show(packed[..m])) > budget
      decreases n
    {
      n := n - 1;
      content := RenderOrdered(f, packed[..n]);
      tokens := CountShown(f, packed[..n], content);
    }
    out := Compiled(content, tokens, Order(packed[..n]), truncated);
    assert CompiledFrom(f, ranked, maxTokens, terms, out, packed, n);
  }

  /** The text of a bundle shows its sections, each in full but for its heading line, in their order. */
  lemma CompiledLays(f: Frame, ranked: seq<Hit>, maxTokens: int, terms: Extractor, out: Compiled)
    requires IsCompiled(f, ranked, maxTokens, terms, out)
    ensures Lays(out.content,
                 Lit("<!-- briefd bundle ") + f.id + Lit(" · ") + Decimal(|out.sections|) + Lit(" section(s), ~")
                 + Decimal(TotalTokens(out.sections)) + Lit(" tokens · scopes: ") + Join(f.scopes, Lit(", "))
                 + Lit(" · index ") + f.fingerprint + Lit(" · task: ") + OneLine(f.task) + Lit(" -->\n"), out.sections)
  {
    hide Lays, Bundle, IsPack, Tokens, Lit, Order, KeepsLongest, TotalTokens, Decimal, OneLine, Join;
    BundleLays(f.id, f.task, f.scopes, f.fingerprint, out.sections);
  }

  method RenderOrdered(f: Frame, chunks: seq<Hit>) returns (content: Text)
    ensures content == f.Show(chunks)
  {
    content := Render(f.id, f.task, f.scopes, f.fingerprint, Order(chunks));
  }

  method CountShown(f: Frame, chunks: seq<Hit>, content: Text) returns (tokens: nat)
    requires f.IsCountable() && content == f.Show(chunks)
    requires forall i :: 0 <= i < |chunks| ==> CountableHit(chunks[i])
    ensures tokens == Tokens(content)
  {
    OrderCountable(chunks);
    BundleCountable(f, Order(chunks));
    tokens := Count(content);
  }

  // ----- what the budget guarantees -----

  lemma ReserveIs(f: Frame)
    ensures f.Reserve() == Tokens(Bundle(f.id, f.task, f.scopes, f.fingerprint, [])) + 4
  {}

  lemma {:induction false} TotalBelowCost(chunks: seq<Hit>)
    ensures TotalTokens(chunks) <= SumCost(chunks)
  {
    if chunks != [] {
      TotalBelowCost(chunks[1..]);
    }
  }

  /** Everything Pack selected fits once rendered, so the drop loop of Compile drops nothing. */
  lemma SelectionFits(f: Frame, ranked: seq<Hit>, maxTokens: int, terms: Extractor, selected: seq<Hit>, truncated: bool)
    requires IsPack(ranked, Budget(maxTokens), f.Reserve(), terms, selected, truncated)
    requires Priced(ranked) && |ranked| <= CANDIDATES && 1 <= maxTokens <= MAX_INT
    requires selected != []
    ensures Tokens(f.Show(selected)) <= Budget(maxTokens)
  {
    hide Bundle, IsPack, Tokens, HeaderCost, SumCost, TotalTokens, Priced, Order;
    PackFits(ranked, Budget(maxTokens), f.Reserve(), terms, selected, truncated);
    var sections := Order(selected);
    TotalBelowCost(selected);
    OrderKeepsSums(selected);
    OrderKeepsPriced(selected);
    BundleCost(f.id, f.task, f.scopes, f.fingerprint, sections);
  }

  lemma OrderKeepsPriced(chunks: seq<Hit>)
    requires Priced(chunks)
    ensures Priced(Order(chunks)) && |Order(chunks)| == |chunks|
  {
    hide Order, Tokens;
    OrderIsStable(chunks);
    var o := Order(chunks);
    assert |o| == |multiset(o)| == |multiset(chunks)| == |chunks|;
    forall i | 0 <= i < |o| ensures o[i].tokens == Tokens(o[i].content) {
      assert o[i] in multiset(o);
      assert o[i] in multiset(chunks);
    }
  }

  /** Every section Pack selected is in the bundle, and a bundle with a section keeps the budget,
      hence the max_tokens the caller asked for. */
  lemma CompiledFits(f: Frame, ranked: seq<Hit>, maxTokens: int, terms: Extractor, out: Compiled)
    requires IsCompiled(f, ranked, maxTokens, terms, out)
    requires Priced(ranked) && |ranked| <= CANDIDATES && 1 <= maxTokens <= MAX_INT
    ensures exists selected :: IsPack(ranked, Budget(maxTokens), f.Reserve(), terms, selected, out.truncated)
              && out.sections == Order(selected)
    ensures out.sections != [] ==> out.tokens <= Budget(maxTokens) <= maxTokens
  {
    hide IsPack, Tokens, Priced, Order;
    var selected: seq<Hit>, n: nat :| CompiledFrom(f, ranked, maxTokens, terms, out, selected, n);
    if selected != [] {
      SelectionFits(f, ranked, maxTokens, terms, selected, out.truncated);
      assert selected[..|selected|] == selected;
    }
    assert n == |selected| && selected[..n] == selected;
    assert selected == [] ==> Order(selected) == [] by { OrderOfNothing(); }
  }

  lemma OrderOfNothing()
    ensures Order([]) == []
  {}

  lemma OrderLength(chunks: seq<Hit>)
    ensures |Order(chunks)| == |chunks|
  {
    OrderIsStable(chunks);
    assert |Order(chunks)| == |multiset(Order(chunks))| == |multiset(chunks)|;
  }

  /** The budget is kept exactly when the bundle without a section, header and notice, keeps it; when
      that does not, nothing is selected. */
  lemma WithinBudgetIff(f: Frame, ranked: seq<Hit>, maxTokens: int, terms: Extractor, out: Compiled)
    requires IsCompiled(f, ranked, maxTokens, terms, out)
    requires Priced(ranked) && |ranked| <= CANDIDATES && 1 <= maxTokens <= MAX_INT
    ensures out.tokens <= Budget(maxTokens) <==> Tokens(f.Show([])) <= Budget(maxTokens)
    ensures Tokens(f.Show([])) > Budget(maxTokens) ==> out.sections == []
  {
    hide IsPack, Tokens, Priced, Order, Bundle;
    CompiledFits(f, ranked, maxTokens, terms, out);
    var selected: seq<Hit>, n: nat :| CompiledFrom(f, ranked, maxTokens, terms, out, selected, n);
    PackFits(ranked, Budget(maxTokens), f.Reserve(), terms, selected, out.truncated);
    OrderOfNothing();
    OrderLength(selected[..n]);
    EmptyCostsReserve(f);
    if out.sections == [] {
      assert selected[..n] == [];
    }
  }

  /** What Pack sets aside covers the bundle without a section. */
  lemma EmptyCostsReserve(f: Frame)
    ensures Tokens(f.Show([])) < f.Reserve()
  {
    hide Tokens, Bundle;
    ReserveIs(f);
    OrderOfNothing();
  }

  /** A request for one token always gets more. */
  lemma OneTokenIsExceeded(f: Frame, ranked: seq<Hit>, terms: Extractor, out: Compiled)
    requires IsCompiled(f, ranked, 1, terms, out)
    requires Priced(ranked) && |ranked| <= CANDIDATES
    ensures out.sections == [] && out.tokens > 1
  {
    hide IsPack, Tokens, Priced, Order, Bundle;
    var selected: seq<Hit>, n: nat :| CompiledFrom(f, ranked, 1, terms, out, selected, n);
    PackFits(ranked, Budget(1), f.Reserve(), terms, selected, out.truncated);
    assert selected == [];
    OrderOfNothing();
    EmptyCostsTwo(f);
  }

  lemma EmptyCostsTwo(f: Frame)
    ensures Tokens(f.Show([])) >= 2
  {
    hide HeaderLine, NothingFound;
    var h := HeaderLine(f.id, f.task, f.scopes, f.fingerprint, 0, 0);
    HeaderLineCost(f.id, f.task, f.scopes, f.fingerprint, 0, 0);
    NothingFoundCost(Run(START, h));
    RunConcat(START, h, NothingFound());
  }

  /** IsCompiled says all there is to say about a bundle: it leaves Compile one result. */
  lemma CompileIsDeterministic(f: Frame, ranked: seq<Hit>, maxTokens: int, terms: Extractor, a: Compiled, b: Compiled)
    requires IsCompiled(f, ranked, maxTokens, terms, a) && IsCompiled(f, ranked, maxTokens, terms, b)
    ensures a == b
  {
    hide Tokens, Order, Bundle;
    var s: seq<Hit>, n: nat :| CompiledFrom(f, ranked, maxTokens, terms, a, s, n);
    var t: seq<Hit>, m: nat :| CompiledFrom(f, ranked, maxTokens, terms, b, t, m);
    PackIsUnique(ranked, Budget(maxTokens), f.Reserve(), terms, s, a.truncated, t, b.truncated);
    assert n == m;
  }

  lemma PackIsUnique(ranked: seq<Hit>, budget: int, headerCost: nat, terms: Extractor, s: seq<Hit>, st: bool, t: seq<Hit>, tt: bool)
    requires IsPack(ranked, budget, headerCost, terms, s, st) && IsPack(ranked, budget, headerCost, terms, t, tt)
    ensures s == t && st == tt
  {
    hide IsCut, Tokens, Marker, Room, Picks;
    if st {
      var head := ranked[0];
      var room := Room(head, budget, headerCost);
      var c :| IsCut(head.content, room, c) && s[0] == head.(content := c + Marker(), tokens := Tokens(c + Marker()));
      var d :| IsCut(head.content, room, d) && t[0] == head.(content := d + Marker(), tokens := Tokens(d + Marker()));
      CutIsUnique(head.content, room, c, d);
    }
  }

  // ----- everything counted is within the estimator's reach -----

  lemma {:induction false} JoinCountable(parts: seq<Text>, sep: Text)
    requires Countable(sep) && forall i :: 0 <= i < |parts| ==> Countable(parts[i])
    ensures Countable(Join(parts, sep))
  {
    if |parts| > 1 {
      JoinCountable(parts[1..], sep);
    }
  }

  lemma {:induction false} FieldsCountable(s: Text)
    requires Countable(s)
    ensures forall i :: 0 <= i < |Fields(s)| ==> Countable(Fields(s)[i])
    decreases |s|
  {
    hide FieldLength, Countable;
    var t := TrimLeft(s);
    if t != [] {
      var n := FieldLength(t);
      TrimLeftCountable(s);
      SlicesCountable(t, n);
      FieldsCountable(t[n..]);
      FieldsFirst(s);
      hide Fields, TrimLeft;
      forall i | 0 <= i < |Fields(s)| ensures Countable(Fields(s)[i]) {
        if i > 0 {
          assert Fields(s)[i] == Fields(t[n..])[i - 1];
        }
      }
    }
  }

  lemma {:induction false} TrimLeftCountable(s: Text)
    requires Countable(s)
    ensures Countable(TrimLeft(s))
  {
    if s != [] && s[0].IsSpace() {
      TrimLeftCountable(s[1..]);
    }
  }

  lemma SlicesCountable(s: Text, n: nat)
    requires Countable(s) && n <= |s|
    ensures Countable(s[..n]) && Countable(s[n..])
  {
  }

  lemma {:induction false} DashesCountable(s: Text)
    requires Countable(s)
    ensures Countable(ReplaceDashes(s))
    decreases |s|
  {
    if |s| >= 2 && s[0] == DASH && s[1] == DASH {
      DashesCountable(s[2..]);
    } else if s != [] {
      DashesCountable(s[1..]);
    }
  }

  lemma OneLineCountable(task: Text)
    requires Countable(task)
    ensures Countable(OneLine(task))
  {
    hide Fields, Join, ReplaceDashes;
    FieldsCountable(task);
    JoinCountable(Fields(task), SPACE);
    DashesCountable(Join(Fields(task), SPACE));
    LitCountable("…");
    var t := ReplaceDashes(Join(Fields(task), SPACE));
    assert |t| > 120 ==> Countable(t[..119]);
    assert |t| > 120 ==> OneLine(task) == t[..119] + Lit("…");
  }

  lemma HeaderLineCountable(f: Frame, n: nat, total: nat)
    requires f.IsCountable()
    ensures Countable(HeaderLine(f.id, f.task, f.scopes, f.fingerprint, n, total))
  {
    hide HeadOf, TailOf, Decimal;
    HeadCountable(f.id);
    TailCountable(f);
    DigitsCountable(Decimal(n));
    DigitsCountable(Decimal(total));
  }

  lemma HeadCountable(id: Text)
    requires Countable(id)
    ensures Countable(HeadOf(id))
  {
  }

  lemma TailCountable(f: Frame)
    requires f.IsCountable()
    ensures Countable(TailOf(f.task, f.scopes, f.fingerprint))
  {
    hide OneLine, Join;
    OneLineCountable(f.task);
    LitCountable(", ");
    JoinCountable(f.scopes, Lit(", "));
  }

  lemma BodyCountable(content: Text)
    requires Countable(content)
    ensures Countable(Body(content))
  {
    hide Trim;
    TrimKeepsCountable(content);
    var t := Trim(content);
    if t != [] && t[0] == Symbol('#' as nat) {
      var i := Find(t, NL);
      if i < |t| {
        TrimKeepsCountable(t[i + 1..]);
      }
    }
  }

  lemma SectionCountable(ch: Hit)
    requires CountableHit(ch)
    ensures Countable(Section(ch))
  {
    hide SectionHeader, Body;
    HeaderCountable(ch);
    BodyCountable(ch.content);
  }

  lemma {:induction false} SectionsCountable(chunks: seq<Hit>)
    requires forall i :: 0 <= i < |chunks| ==> CountableHit(chunks[i])
    ensures Countable(Sections(chunks))
  {
    hide Section, CountableHit;
    if chunks != [] {
      SectionCountable(chunks[0]);
      SectionsCountable(chunks[1..]);
    }
  }

  lemma BundleCountable(f: Frame, chunks: seq<Hit>)
    requires f.IsCountable()
    requires forall i :: 0 <= i < |chunks| ==> CountableHit(chunks[i])
    ensures Countable(Bundle(f.id, f.task, f.scopes, f.fingerprint, chunks))
  {
    hide HeaderLine, Sections, CountableHit;
    HeaderLineCountable(f, |chunks|, TotalTokens(chunks));
    SectionsCountable(chunks);
  }

  lemma OrderCountable(chunks: seq<Hit>)
    requires forall i :: 0 <= i < |chunks| ==> CountableHit(chunks[i])
    ensures forall i :: 0 <= i < |Order(chunks)| ==> CountableHit(Order(chunks)[i])
  {
    hide CountableHit, Order;
    OrderIsStable(chunks);
    var o := Order(chunks);
    forall i | 0 <= i < |o| ensures CountableHit(o[i]) {
      assert o[i] in multiset(o);
      assert o[i] in multiset(chunks);
    }
  }

  lemma PackCountable(ranked: seq<Hit>, budget: int, headerCost: nat, terms: Extractor, selected: seq<Hit>, truncated: bool)
    requires IsPack(ranked, budget, headerCost, terms, selected, truncated)
    requires forall i :: 0 <= i < |ranked| ==> CountableHit(ranked[i])
    ensures forall i :: 0 <= i < |selected| ==> CountableHit(selected[i])
  {
    hide IsCut, Tokens, Marker, Room, Picks;
    if truncated {
      var head := ranked[0];
      var room := Room(head, budget, headerCost);
      var cut :| IsCut(head.content, room, cut) && selected[0] == head.(content := cut + Marker(), tokens := Tokens(cut + Marker()));
      CutCountable(head.content, room, cut);
      MarkerCountable();
    }
  }
}
