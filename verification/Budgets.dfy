/** The caches and the budget together: whatever was asked, cached, missed or failed before, a bundle
    that comes back with a section keeps the budget of the request it answers. */
module Budgets {
  import opened Runes
  import opened Tokenizer
  import opened Keys
  import opened Serving
  import opened Tables
  import opened Failures
  import B = BundleCache
  import R = Rendering
  import Bundles
  import Packing

  /** The same text, section and bundle id as the packing and rendering see them. */
  datatype Reading = Reading(text: string -> Text, hit: B.Hit -> R.Hit, id: string -> Text)

  function FrameOf(rd: Reading, key: string, n: Normal, fingerprint: string): Bundles.Frame {
    Bundles.Frame(rd.id(key), rd.text(n.task), seq(|n.scopes|, i requires 0 <= i < |n.scopes| => rd.text(n.scopes[i])), rd.text(fingerprint))
  }

  function Ranked(rd: Reading, hits: seq<B.Hit>): (ranked: seq<R.Hit>)
    ensures |ranked| == |hits| && forall i :: 0 <= i < |hits| ==> ranked[i] == rd.hit(hits[i])
  {
    seq(|hits|, i requires 0 <= i < |hits| => rd.hit(hits[i]))
  }

  /** Rendering is the compilation of Bundles. */
  ghost predicate Renders(rd: Reading, terms: Packing.Extractor, key: string, n: Normal, fingerprint: string, hits: seq<B.Hit>, out: B.Output) {
    exists c :: Bundles.IsCompiled(FrameOf(rd, key, n, fingerprint), Ranked(rd, hits), n.maxTokens, terms, c)
      && rd.text(out.content) == c.content && |out.sections| == |c.sections| && out.truncated == c.truncated
  }

  /** Search returns candidates whose stored price is their estimate, and rendering compiles them. */
  ghost predicate Compiles(p: Program, rd: Reading, terms: Packing.Extractor) {
    && (forall v, n :: |p.find(v, n)| <= R.CANDIDATES)
    && (forall h :: rd.hit(h).tokens == Tokens(rd.hit(h).content))
    && (forall key, n, fingerprint, hits :: Renders(rd, terms, key, n, fingerprint, hits, p.build(key, n, fingerprint, hits)))
  }

  lemma BuildFits(p: Program, rd: Reading, terms: Packing.Extractor, key: string, n: Normal, fingerprint: string, hits: seq<B.Hit>)
    requires Compiles(p, rd, terms) && |hits| <= R.CANDIDATES && 1 <= n.maxTokens <= R.MAX_INT
    ensures var out := p.build(key, n, fingerprint, hits);
      out.sections != [] ==> Tokens(rd.text(out.content)) <= Bundles.Budget(n.maxTokens) <= n.maxTokens
  {
    hide Bundles.IsCompiled, Bundles.Budget, Tokens;
    var out, f, ranked := p.build(key, n, fingerprint, hits), FrameOf(rd, key, n, fingerprint), Ranked(rd, hits);
    assert Renders(rd, terms, key, n, fingerprint, hits, out);
    var c :| Bundles.IsCompiled(f, ranked, n.maxTokens, terms, c)
      && rd.text(out.content) == c.content && |out.sections| == |c.sections| && out.truncated == c.truncated;
    Bundles.CompiledFits(f, ranked, n.maxTokens, terms, c);
    CompiledCounts(f, ranked, n.maxTokens, terms, c);
  }

  lemma CompiledCounts(f: Bundles.Frame, ranked: seq<R.Hit>, maxTokens: int, terms: Packing.Extractor, c: Bundles.Compiled)
    requires Bundles.IsCompiled(f, ranked, maxTokens, terms, c)
    ensures c.tokens == Tokens(c.content)
  {
    hide Tokens, Packing.IsPack, Bundles.KeepsLongest;
  }

  /** Equal keys ask for equal budgets, however commas split their scopes. */
  lemma SameBudget(n: Normal, f: string, m: Normal, g: string)
    requires Tame(n) && Tame(m) && NUL !in f && NUL !in g && B.KeyOf(n, f) == B.KeyOf(m, g)
    ensures n.maxTokens == m.maxTokens
  {
    hide KeyText, Tame;
    TameNoNuls(n, f);
    TameNoNuls(m, g);
    KeysAgreeIff(n, f, B.NO_MODEL, m, g, B.NO_MODEL);
  }

  lemma TameNoNuls(n: Normal, f: string)
    requires Tame(n) && NUL !in f
    ensures NoNuls(n, f, B.NO_MODEL)
  {
    JoinHolds(n.scopes, COMMA, NUL);
    JoinHolds(n.paths, SOH, NUL);
  }

  lemma FewFound(p: Program, rd: Reading, terms: Packing.Extractor, v: View, n: Normal)
    requires Compiles(p, rd, terms)
    ensures |p.find(v, n)| <= R.CANDIDATES
  {
    hide Renders, Tokens;
  }

  /** In every course, failed runs and clashing requests included. */
  lemma AnswersKeepTheBudget(env: Env, p: Program, rd: Reading, terms: Packing.Extractor, actions: seq<Action>, n: Normal)
    requires Doable(env, actions) && Compiles(p, rd, terms) && forall k :: NUL !in p.fingerprint(k)
    requires Tame(n) && forall j :: 0 <= j < |actions| && actions[j].Ask? ==> Tame(actions[j].request)
    requires 1 <= n.maxTokens <= R.MAX_INT
    ensures var b := Answer(p, SiteAfter(env, p, actions), n);
      b.output.sections != [] ==> Tokens(rd.text(b.output.content)) <= Bundles.Budget(n.maxTokens) <= n.maxTokens
  {
    hide Compiles, Tame, Tokens, Bundles.Budget, TablesAfter, NoteAfter, SiteAfter, Answer, Kept, B.KeyOf, Doable;
    CachesSourced(env, p, actions);
    AnswerSourced(env, p, actions, n);
    CacheIs(env, p, actions);
    var s, all := SiteAfter(env, p, actions), actions + [Ask(n)];
    var key, b := B.KeyOf(n, s.cache.fingerprint), Answer(p, s, n);
    var j: nat :| FromAsk(env, p, all, j, key, b);
    var m, mark := all[j].request, Printed(p.fingerprint, NoteAfter(env, all[..j]));
    SameBudget(n, s.cache.fingerprint, m, mark);
    var hits := B.Attached(p.find(ViewOf(TablesAfter(env, all[..j])), m), DriftAfter(all));
    FewFound(p, rd, terms, ViewOf(TablesAfter(env, all[..j])), m);
    BuildFits(p, rd, terms, key, m, mark, hits);
  }
}
