/** The index and the bundle caches together: index runs that may fail, drift checks and requests in
    any order, over one set of tables. */
module Serving {
  import opened Sequences
  import opened Keys
  import opened Tables
  import opened BundleCache
  import Index
  import Lru

  /** What a search without vectors reads. */
  datatype View = View(documents: map<string, (Meta, string)>, chunks: map<ChunkId, ChunkRow>)

  function ViewOf(t: Tables): View {
    View(map p | p in t.documents :: (t.documents[p].meta, t.documents[p].hash), t.chunks)
  }

  datatype Program = Program(
    find: (View, Normal) -> seq<Hit>,
    build: (string, Normal, string, seq<Hit>) -> Output,
    fingerprint: Knowledge -> string)

  /** The program over the tables of now. */
  function EngineOn(p: Program, t: Tables): Engine {
    Engine((_, n) => p.find(ViewOf(t), n), p.build, p.fingerprint)
  }

  datatype Site = Site(tables: Tables, cache: State)

  const START := Site(EMPTY, INITIAL)

  /** A run whose statements all went through can still fail later, before its fingerprint is recorded. */
  datatype Action = Run(run: Index.Run, recorded: bool) | Check(rows: seq<Drift>) | Ask(request: Normal)

  /** A run records the fingerprint and prunes bundles only when it succeeds. */
  ghost function Step(env: Env, p: Program, s: Site, a: Action): Site {
    match a
    case Run(r, recorded) =>
      var t := Index.After(env, s.tables, r);
      Site(t, if Index.Succeeds(env, s.tables, r) && recorded then
          Indexed(EngineOn(p, t), s.cache, Index.Knowledge(t), Index.Statements(env, s.tables, r) != [])
        else s.cache)
    case Check(rows) => s.(cache := DriftChecked(s.cache, rows))
    case Ask(n) => s.(cache := Compiled(EngineOn(p, s.tables), s.cache, n).after)
  }

  function Answer(p: Program, s: Site, n: Normal): Bundle {
    Compiled(EngineOn(p, s.tables), s.cache, n).bundle
  }

  /** What compiling the request from the tables and the drift of now comes to. */
  function Wanted(p: Program, s: Site, n: Normal): Bundle {
    MadeNow(EngineOn(p, s.tables), s.cache, n)
  }

  ghost predicate SucceedsAt(env: Env, t: Tables, a: Action) {
    a.Run? ==> Index.Succeeds(env, t, a.run) && a.recorded
  }

  // ----- courses -----

  /** The tables after these actions; requests and drift checks leave them alone. */
  ghost function TablesAfter(env: Env, actions: seq<Action>): Tables {
    if actions == [] then EMPTY
    else
      var t, a := TablesAfter(env, actions[..|actions| - 1]), actions[|actions| - 1];
      if a.Run? then Index.After(env, t, a.run) else t
  }

  ghost predicate Allowed(t: Tables, a: Action) {
    match a
    case Run(r, _) => Index.Possible(t, r)
    case Check(rows) => OnePerDocument(rows)
    case Ask(_) => true
  }

  ghost predicate Doable(env: Env, actions: seq<Action>) {
    actions != [] ==>
      && Doable(env, actions[..|actions| - 1])
      && Allowed(TablesAfter(env, actions[..|actions| - 1]), actions[|actions| - 1])
  }

  ghost function SiteAfter(env: Env, p: Program, actions: seq<Action>): Site {
    if actions == [] then START
    else Step(env, p, SiteAfter(env, p, actions[..|actions| - 1]), actions[|actions| - 1])
  }

  lemma {:induction false} TablesOf(env: Env, p: Program, actions: seq<Action>)
    ensures SiteAfter(env, p, actions).tables == TablesAfter(env, actions)
  {
    hide Compiled, DriftChecked, Indexed, Index.After, Index.Succeeds, Index.Statements, Index.Knowledge;
    if actions != [] {
      TablesOf(env, p, actions[..|actions| - 1]);
    }
  }

  lemma DoableFront(env: Env, actions: seq<Action>, n: nat)
    requires Doable(env, actions) && n <= |actions|
    ensures Doable(env, actions[..n])
    decreases |actions|
  {
    hide Allowed, TablesAfter;
    if n < |actions| {
      assert actions[..|actions| - 1][..n] == actions[..n];
      DoableFront(env, actions[..|actions| - 1], n);
    } else {
      assert actions[..n] == actions;
    }
  }

  /** All runs succeed. */
  ghost predicate RunsSucceed(env: Env, actions: seq<Action>) {
    forall j :: 0 <= j < |actions| ==> SucceedsAt(env, TablesAfter(env, actions[..j]), actions[j])
  }

  // ----- the cache sees the tables through what they know -----

  ghost predicate Fresh(env: Env, s: Site) {
    Index.Inv(env, s.tables) && Index.Scanned(s.tables) && s.cache.knowledge == Index.Knowledge(s.tables)
  }

  ghost predicate Holds(env: Env, k: Knowledge, t: Tables) {
    Index.Inv(env, t) && Index.Scanned(t) && Index.Knowledge(t) == k
  }

  ghost function ViewFor(env: Env, k: Knowledge): View {
    if exists t :: Holds(env, k, t) then var t :| Holds(env, k, t); ViewOf(t) else ViewOf(EMPTY)
  }

  /** The program as a function of knowledge instead of tables. */
  ghost function Tied(env: Env, p: Program): Engine {
    Engine((k, n) => p.find(ViewFor(env, k), n), p.build, p.fingerprint)
  }

  lemma FreshView(env: Env, s: Site)
    requires Fresh(env, s)
    ensures ViewFor(env, s.cache.knowledge) == ViewOf(s.tables)
  {
    hide ViewOf;
    var k := s.cache.knowledge;
    assert Holds(env, k, s.tables);
    var t :| Holds(env, k, t) && ViewFor(env, k) == ViewOf(t);
    SameView(env, k, t, s.tables);
  }

  lemma SameView(env: Env, k: Knowledge, t: Tables, u: Tables)
    requires Holds(env, k, t) && Holds(env, k, u)
    ensures ViewOf(t) == ViewOf(u)
  {
    Index.KnowledgeDetermines(env, t, u);
    hide Index.Inv, Index.Scanned;
  }

  /** Compile depends on the engine only through what it makes now. */
  lemma SameCompiled(e: Engine, f: Engine, s: State, n: Normal)
    requires e.search(s.knowledge, n) == f.search(s.knowledge, n) && e.build == f.build
    ensures Compiled(e, s, n) == Compiled(f, s, n) && MadeNow(e, s, n) == MadeNow(f, s, n)
  {
    hide KeyOf, Attached;
  }

  lemma TiedCompiled(env: Env, p: Program, s: Site, n: Normal)
    requires Fresh(env, s)
    ensures Compiled(EngineOn(p, s.tables), s.cache, n) == Compiled(Tied(env, p), s.cache, n)
    ensures MadeNow(EngineOn(p, s.tables), s.cache, n) == MadeNow(Tied(env, p), s.cache, n)
  {
    hide Fresh, Compiled, MadeNow, ViewOf, ViewFor;
    FreshView(env, s);
    SameCompiled(EngineOn(p, s.tables), Tied(env, p), s.cache, n);
  }

  /** An index run that succeeds is an event of the caches: where it stored and deleted nothing, the
      knowledge is the one it found. */
  lemma RunIsEnabled(env: Env, s: Site, r: Index.Run)
    requires Fresh(env, s) && Index.Possible(s.tables, r) && Index.Succeeds(env, s.tables, r)
    ensures var t := Index.After(env, s.tables, r);
      Enabled(s.cache, Index(Index.Knowledge(t), Index.Statements(env, s.tables, r) != []))
  {
    hide Index.Inv, Index.Scanned, Index.Possible, Index.Succeeds, Index.Statements, Index.After, Index.Knowledge;
    Index.RunKnowledge(env, s.tables, r);
  }

  ghost function EventOf(env: Env, s: Site, a: Action): Event {
    match a
    case Run(r, _) => Index(Index.Knowledge(Index.After(env, s.tables, r)), Index.Statements(env, s.tables, r) != [])
    case Check(rows) => CheckDrift(rows)
    case Ask(n) => Compile(n)
  }

  lemma StepIsNext(env: Env, p: Program, s: Site, a: Action)
    requires Fresh(env, s) && Allowed(s.tables, a) && SucceedsAt(env, s.tables, a)
    ensures Enabled(s.cache, EventOf(env, s, a)) && Step(env, p, s, a).cache == Next(Tied(env, p), s.cache, EventOf(env, s, a))
    ensures Fresh(env, Step(env, p, s, a))
  {
    hide Index.Inv, Index.Scanned, Index.Possible, Index.Succeeds, Index.Statements, Index.After, Index.Knowledge, Lru.Put, Lru.Touch, ViewOf, ViewFor, KeyOf;
    match a
    case Run(r, _) => {
      RunIsEnabled(env, s, r);
      Index.RunKnowledge(env, s.tables, r);
      Index.RunKeepsInv(env, s.tables, r);
    }
    case Check(rows) => {}
    case Ask(n) => {
      TiedCompiled(env, p, s, n);
    }
  }

  lemma StartFresh(env: Env)
    ensures Fresh(env, START)
  {
    Index.EmptyInv(env);
  }

  /** At step i of a course whose runs succeed. */
  lemma StepAt(env: Env, p: Program, actions: seq<Action>, i: nat)
    requires Doable(env, actions) && RunsSucceed(env, actions) && i < |actions|
    ensures var s := SiteAfter(env, p, actions[..i]);
      && Allowed(s.tables, actions[i]) && SucceedsAt(env, s.tables, actions[i])
      && SiteAfter(env, p, actions[..i + 1]) == Step(env, p, s, actions[i])
  {
    hide Allowed, SucceedsAt, Step, TablesAfter;
    DoableFront(env, actions, i + 1);
    TablesOf(env, p, actions[..i]);
    assert actions[..i + 1][..i] == actions[..i];
  }

  lemma {:induction false} CourseFresh(env: Env, p: Program, actions: seq<Action>, i: nat)
    requires Doable(env, actions) && RunsSucceed(env, actions) && i <= |actions|
    ensures Fresh(env, SiteAfter(env, p, actions[..i]))
  {
    hide Fresh, Step, Allowed, SucceedsAt, Doable, RunsSucceed;
    if i == 0 {
      StartFresh(env);
    } else {
      CourseFresh(env, p, actions, i - 1);
      StepAt(env, p, actions, i - 1);
      StepIsNext(env, p, SiteAfter(env, p, actions[..i - 1]), actions[i - 1]);
    }
  }

  ghost function Events(env: Env, p: Program, actions: seq<Action>): (events: seq<Event>)
    ensures |events| == |actions|
    ensures forall i :: 0 <= i < |actions| ==> events[i] == EventOf(env, SiteAfter(env, p, actions[..i]), actions[i])
  {
    seq(|actions|, i requires 0 <= i < |actions| => EventOf(env, SiteAfter(env, p, actions[..i]), actions[i]))
  }

  ghost function Caches(env: Env, p: Program, actions: seq<Action>): (states: seq<State>)
    ensures |states| == |actions| + 1
    ensures forall i :: 0 <= i <= |actions| ==> states[i] == SiteAfter(env, p, actions[..i]).cache
  {
    seq(|actions| + 1, i requires 0 <= i <= |actions| => SiteAfter(env, p, actions[..i]).cache)
  }

  /** Seen from the caches, a course of successful runs is a trace of theirs. */
  lemma CourseIsTrace(env: Env, p: Program, actions: seq<Action>)
    requires Doable(env, actions) && RunsSucceed(env, actions)
    ensures Trace(Tied(env, p), Events(env, p, actions), Caches(env, p, actions))
  {
    hide Fresh, Step, Allowed, SucceedsAt, Enabled, Next, EventOf, Doable, RunsSucceed;
    var events, states := Events(env, p, actions), Caches(env, p, actions);
    assert states[0] == INITIAL;
    forall i | 0 <= i < |actions|
      ensures Enabled(states[i], events[i]) && states[i + 1] == Next(Tied(env, p), states[i], events[i])
    {
      CourseFresh(env, p, actions, i);
      StepAt(env, p, actions, i);
      StepIsNext(env, p, SiteAfter(env, p, actions[..i]), actions[i]);
    }
  }

  ghost predicate AnswersRight(env: Env, p: Program, actions: seq<Action>, i: nat)
    requires i < |actions| && actions[i].Ask?
  {
    var s, n := SiteAfter(env, p, actions[..i]), actions[i].request;
    Answer(p, s, n) == Wanted(p, s, n)
  }

  lemma AskSucceeds(env: Env, actions: seq<Action>)
    requires actions != [] && actions[|actions| - 1].Ask? && RunsSucceed(env, actions[..|actions| - 1])
    ensures RunsSucceed(env, actions)
  {
    hide TablesAfter;
    var front := actions[..|actions| - 1];
    forall j | 0 <= j < |front| ensures SucceedsAt(env, TablesAfter(env, actions[..j]), actions[j]) {
      assert front[..j] == actions[..j];
    }
  }

  /** Whatever came before, as long as the runs succeeded: a request that clashes with no earlier one
      is answered with the bundle made from the tables and the drift of now. */
  lemma AnswersComeFromTheTables(env: Env, p: Program, actions: seq<Action>, i: nat)
    requires Doable(env, actions) && i < |actions| && actions[i].Ask?
    requires RunsSucceed(env, actions[..i]) && Telling(p.fingerprint)
    requires forall j :: 0 <= j <= i && actions[j].Ask? ==> Tame(actions[j].request)
    requires forall j :: 0 <= j < i && actions[j].Ask? ==> !Clash(actions[i].request, actions[j].request)
    ensures AnswersRight(env, p, actions, i)
  {
    hide Doable, RunsSucceed, Fresh, SiteAfter, Compiled, MadeNow, Telling, Tame, Clash, Trace, Lru.Valid, Lru.Recent;
    var course := actions[..i + 1];
    assert course[..i] == actions[..i];
    DoableFront(env, actions, i + 1);
    AskSucceeds(env, course);
    var events, states := Events(env, p, course), Caches(env, p, course);
    CourseIsTrace(env, p, course);
    CourseFresh(env, p, course, i);
    TiedCompiled(env, p, SiteAfter(env, p, actions[..i]), actions[i].request);
    HistoryIsTransparent(Tied(env, p), events, states, i);
  }
}
