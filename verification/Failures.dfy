/** Index runs that fail: which of them leave every answer right.  A run that fails has changed the
    tables but not the fingerprint the caches go by. */
module Failures {
  import opened Sequences
  import opened Keys
  import opened Tables
  import opened BundleCache
  import opened Serving
  import Index
  import Lru

  // ----- what the caches go by -----

  /** What the recorded fingerprint was taken of. */
  datatype Note = Never | Of(knowledge: Knowledge)

  ghost function NoteAfter(env: Env, actions: seq<Action>): Note {
    if actions == [] then Never
    else
      var front, a := actions[..|actions| - 1], actions[|actions| - 1];
      if a.Run? && SucceedsAt(env, TablesAfter(env, front), a) then Of(Index.Knowledge(TablesAfter(env, actions)))
      else NoteAfter(env, front)
  }

  function Printed(fingerprint: Knowledge -> string, note: Note): string {
    match note case Never => "" case Of(k) => fingerprint(k)
  }

  function DriftAfter(actions: seq<Action>): map<string, Drift> {
    if actions == [] then map[]
    else if actions[|actions| - 1].Check? then TableOf(actions[|actions| - 1].rows)
    else DriftAfter(actions[..|actions| - 1])
  }

  /** A drift check that drops the caches. */
  predicate Drops(actions: seq<Action>, m: nat)
    requires m < |actions|
  {
    actions[m].Check? && Changed(DriftAfter(actions[..m]), actions[m].rows)
  }

  /** None from j on. */
  ghost predicate Kept(actions: seq<Action>, j: nat) {
    forall m :: j <= m < |actions| ==> !Drops(actions, m)
  }

  lemma {:induction false} CacheIs(env: Env, p: Program, actions: seq<Action>)
    ensures var s := SiteAfter(env, p, actions);
      && s.tables == TablesAfter(env, actions)
      && s.cache.fingerprint == Printed(p.fingerprint, NoteAfter(env, actions))
      && s.cache.drift == DriftAfter(actions)
  {
    hide TableOf, Changed, Made, KeyOf, Index.After, Index.Succeeds, Index.Statements, Index.Knowledge, Lru.Put, Lru.Touch, PrunedRows;
    TablesOf(env, p, actions);
    if actions != [] {
      CacheIs(env, p, actions[..|actions| - 1]);
    }
  }

  // ----- where a cached bundle comes from -----

  /** The bundle the tables of then make under the drift of now. */
  ghost predicate FromAsk(env: Env, p: Program, actions: seq<Action>, j: nat, key: string, b: Bundle) {
    && j < |actions| && actions[j].Ask? && Kept(actions, j)
    && var mark := Printed(p.fingerprint, NoteAfter(env, actions[..j]));
      && key == KeyOf(actions[j].request, mark)
      && b == Made(EngineOn(p, TablesAfter(env, actions[..j])), map[], DriftAfter(actions), actions[j].request, mark)
  }

  ghost predicate Sourced(env: Env, p: Program, actions: seq<Action>, key: string, b: Bundle) {
    exists j: nat :: FromAsk(env, p, actions, j, key, b)
  }

  ghost predicate AllSourced(env: Env, p: Program, actions: seq<Action>) {
    var cache := SiteAfter(env, p, actions).cache;
    && (forall key :: key in cache.lru.entries ==> Sourced(env, p, actions, key, cache.lru.entries[key]))
    && (forall key :: key in cache.rows ==> Sourced(env, p, actions, key, cache.rows[key].bundle))
  }

  lemma SourcedOn(env: Env, p: Program, actions: seq<Action>, a: Action, key: string, b: Bundle)
    requires Sourced(env, p, actions, key, b) && !Drops(actions + [a], |actions|) && Allowed(TablesAfter(env, actions), a)
    ensures Sourced(env, p, actions + [a], key, b)
  {
    hide Drops, Printed, TablesAfter, NoteAfter, Made, KeyOf;
    var j: nat :| FromAsk(env, p, actions, j, key, b);
    var all := actions + [a];
    assert all[..j] == actions[..j];
    KeptOn(actions, a, j);
    SameDrift(p, actions, a, TablesAfter(env, actions[..j]), actions[j].request, Printed(p.fingerprint, NoteAfter(env, actions[..j])));
    assert FromAsk(env, p, all, j, key, b);
  }

  lemma KeptOn(actions: seq<Action>, a: Action, j: nat)
    requires j <= |actions|
    ensures Kept(actions + [a], j) <==> Kept(actions, j) && !Drops(actions + [a], |actions|)
  {
    hide DriftAfter, Changed;
    var all := actions + [a];
    forall m | j <= m < |actions| ensures Drops(all, m) <==> Drops(actions, m) {
      assert all[..m] == actions[..m];
    }
  }

  /** Without a drop bundles show what they showed. */
  lemma SameDrift(p: Program, actions: seq<Action>, a: Action, t: Tables, n: Normal, mark: string)
    requires !Drops(actions + [a], |actions|) && (a.Check? ==> OnePerDocument(a.rows))
    ensures Made(EngineOn(p, t), map[], DriftAfter(actions + [a]), n, mark) == Made(EngineOn(p, t), map[], DriftAfter(actions), n, mark)
  {
    hide Attached, Visible, KeyOf, TableOf, Changed, OnePerDocument;
    assert (actions + [a])[..|actions|] == actions;
    if a.Check? {
      ChangedIffVisible(DriftAfter(actions), a.rows);
      AttachedShowsVisible(EngineOn(p, t).search(map[], n), DriftAfter(actions), TableOf(a.rows));
    }
  }

  /** Where the answer to a request comes from: an equal key asked for since the last drop, or now. */
  lemma AnswerSourced(env: Env, p: Program, actions: seq<Action>, n: Normal)
    requires AllSourced(env, p, actions)
    ensures var s := SiteAfter(env, p, actions);
      Sourced(env, p, actions + [Ask(n)], KeyOf(n, s.cache.fingerprint), Answer(p, s, n))
  {
    hide AllSourced, Sourced, Made, KeyOf, TablesAfter, NoteAfter;
    CacheIs(env, p, actions);
    var s := SiteAfter(env, p, actions);
    var key := KeyOf(n, s.cache.fingerprint);
    NowSourced(env, p, actions, n);
    CachedSourced(env, p, actions);
    hide SiteAfter;
    forall b | Sourced(env, p, actions, key, b) ensures Sourced(env, p, actions + [Ask(n)], key, b) {
      SourcedOn(env, p, actions, Ask(n), key, b);
    }
  }

  lemma CachedSourced(env: Env, p: Program, actions: seq<Action>)
    requires AllSourced(env, p, actions)
    ensures var cache := SiteAfter(env, p, actions).cache;
      && (forall key :: key in cache.lru.entries ==> Sourced(env, p, actions, key, cache.lru.entries[key]))
      && (forall key :: key in cache.rows ==> Sourced(env, p, actions, key, cache.rows[key].bundle))
  {
    hide Sourced, SiteAfter;
  }

  lemma NowSourced(env: Env, p: Program, actions: seq<Action>, n: Normal)
    ensures var s := SiteAfter(env, p, actions);
      Sourced(env, p, actions + [Ask(n)], KeyOf(n, s.cache.fingerprint), Wanted(p, s, n))
  {
    hide KeyOf, TablesAfter, NoteAfter, Attached, SiteAfter;
    CacheIs(env, p, actions);
    var s, all := SiteAfter(env, p, actions), actions + [Ask(n)];
    assert all[..|actions|] == actions;
    assert Wanted(p, s, n) == Made(EngineOn(p, s.tables), map[], s.cache.drift, n, s.cache.fingerprint);
    assert FromAsk(env, p, all, |actions|, KeyOf(n, s.cache.fingerprint), Wanted(p, s, n));
  }

  lemma {:induction false} CachesSourced(env: Env, p: Program, actions: seq<Action>)
    requires Doable(env, actions)
    ensures AllSourced(env, p, actions)
  {
    hide Sourced, Made, KeyOf, TablesAfter, NoteAfter, Allowed, AllSourced;
    if actions == [] {
      NothingCached(env, p);
    } else {
      var front, a := actions[..|actions| - 1], actions[|actions| - 1];
      assert actions == front + [a];
      CachesSourced(env, p, front);
      StepSourced(env, p, front, a);
    }
  }

  lemma NothingCached(env: Env, p: Program)
    ensures AllSourced(env, p, [])
  {
    hide Sourced;
  }

  lemma StepSourced(env: Env, p: Program, front: seq<Action>, a: Action)
    requires AllSourced(env, p, front) && Allowed(TablesAfter(env, front), a)
    ensures AllSourced(env, p, front + [a])
  {
    hide Sourced, Made, KeyOf, TablesAfter, NoteAfter, Allowed, SiteAfter, Step, Drops;
    var s, all := SiteAfter(env, p, front), front + [a];
    SiteSnoc(env, p, front, a);
    var cache := SiteAfter(env, p, all).cache;
    if Drops(all, |front|) {
      CacheIs(env, p, front);
      DropEmpties(env, p, front, a);
    } else {
      forall key, b | Sourced(env, p, front, key, b) ensures Sourced(env, p, all, key, b) {
        SourcedOn(env, p, front, a, key, b);
      }
      if a.Ask? {
        AnswerSourced(env, p, front, a.request);
      }
      CacheIs(env, p, front);
      CachedBefore(env, p, front, a);
    }
  }

  lemma SiteSnoc(env: Env, p: Program, front: seq<Action>, a: Action)
    ensures SiteAfter(env, p, front + [a]) == Step(env, p, SiteAfter(env, p, front), a)
  {
    hide Step;
    assert (front + [a])[..|front|] == front;
  }

  lemma DropEmpties(env: Env, p: Program, front: seq<Action>, a: Action)
    requires Drops(front + [a], |front|) && SiteAfter(env, p, front).cache.drift == DriftAfter(front)
    ensures var cache := Step(env, p, SiteAfter(env, p, front), a).cache; cache.lru.entries == map[] && cache.rows == map[]
  {
    hide SiteAfter, Changed, TableOf, DriftAfter;
    assert (front + [a])[..|front|] == front;
  }

  /** What is cached after a step was cached before, or is the answer just given. */
  lemma CachedBefore(env: Env, p: Program, front: seq<Action>, a: Action)
    requires !Drops(front + [a], |front|) && SiteAfter(env, p, front).cache.drift == DriftAfter(front)
    ensures var s := SiteAfter(env, p, front);
      var now := Step(env, p, s, a).cache;
      && (forall key :: key in now.lru.entries ==>
            || (key in s.cache.lru.entries && now.lru.entries[key] == s.cache.lru.entries[key])
            || (a.Ask? && key == KeyOf(a.request, s.cache.fingerprint) && now.lru.entries[key] == Answer(p, s, a.request)))
      && (forall key :: key in now.rows ==>
            || (key in s.cache.rows && now.rows[key].bundle == s.cache.rows[key].bundle)
            || (a.Ask? && key == KeyOf(a.request, s.cache.fingerprint) && now.rows[key].bundle == Answer(p, s, a.request)))
  {
    hide SiteAfter, Changed, TableOf, DriftAfter, KeyOf, Index.After, Index.Succeeds, Index.Statements, Index.Knowledge;
    assert (front + [a])[..|front|] == front;
    var s := SiteAfter(env, p, front);
    if a.Ask? {
      AskCaches(EngineOn(p, s.tables), s.cache, a.request);
    }
  }

  lemma AskCaches(e: Engine, s: State, n: Normal)
    ensures var r, key := Compiled(e, s, n), KeyOf(n, s.fingerprint);
      && (forall k :: k in r.after.lru.entries ==>
            (k in s.lru.entries && r.after.lru.entries[k] == s.lru.entries[k]) || (k == key && r.after.lru.entries[k] == r.bundle))
      && (forall k :: k in r.after.rows ==>
            (k in s.rows && r.after.rows[k].bundle == s.rows[k].bundle) || (k == key && r.after.rows[k].bundle == r.bundle))
  {
    hide KeyOf, Attached, Lru.Put, Lru.Touch;
    var key := KeyOf(n, s.fingerprint);
    TouchKeepsEntries(s.lru, key);
    PutEntries(s.lru, key, Compiled(e, s, n).bundle);
  }

  lemma PutEntries(c: Lru.Cache<Bundle>, key: string, b: Bundle)
    ensures var now := Lru.Put(c, key, b).entries;
      forall k :: k in now ==> (k == key && now[k] == b) || (k in c.entries && now[k] == c.entries[k])
  {
    EvictEntries(Lru.Cache(c.entries[key := b], c.order + [key]));
    hide Lru.Evict;
  }

  lemma {:induction false} EvictEntries(c: Lru.Cache<Bundle>)
    ensures forall k :: k in Lru.Evict(c).entries ==> k in c.entries && Lru.Evict(c).entries[k] == c.entries[k]
    decreases |c.order|
  {
    if |c.order| > Lru.SIZE {
      EvictEntries(Lru.Cache(c.entries - {c.order[0]}, c.order[1..]));
    }
  }

  // ----- when an answer is right -----

  /** Requests among which none clashes with another. */
  ghost predicate Civil(actions: seq<Action>) {
    forall i :: 0 <= i < |actions| && actions[i].Ask? ==>
      Tame(actions[i].request) && forall j :: 0 <= j < |actions| && actions[j].Ask? ==> !Clash(actions[i].request, actions[j].request)
  }

  /** Earlier asked for, under the same fingerprint and without a drop since. */
  ghost predicate AskedBefore(env: Env, actions: seq<Action>, j: nat, i: nat)
    requires i < |actions|
  {
    && j < i && actions[j].Ask? && actions[j] == actions[i] && Kept(actions[..i], j)
    && NoteAfter(env, actions[..j]) == NoteAfter(env, actions[..i])
  }

  /** In any course, whatever failed: an answer is right if what search reads is what it read each time
      the request was asked under this fingerprint. */
  lemma RightWhenViewsAgree(env: Env, p: Program, actions: seq<Action>, i: nat)
    requires Doable(env, actions) && Telling(p.fingerprint) && Civil(actions) && i < |actions| && actions[i].Ask?
    requires forall j: nat :: AskedBefore(env, actions, j, i) ==>
      ViewOf(TablesAfter(env, actions[..j])) == ViewOf(TablesAfter(env, actions[..i]))
    ensures AnswersRight(env, p, actions, i)
  {
    hide Doable, TablesAfter, NoteAfter, SiteAfter, Made, KeyOf, Tame, Clash, Telling, ViewOf, Compiled, Kept;
    var front, n := actions[..i], actions[i].request;
    DoableFront(env, actions, i);
    CachesSourced(env, p, front);
    AnswerSourced(env, p, front, n);
    CacheIs(env, p, front);
    var s, all := SiteAfter(env, p, front), front + [Ask(n)];
    assert all[..i] == front && DriftAfter(all) == DriftAfter(front);
    var key := KeyOf(n, s.cache.fingerprint);
    var j: nat :| FromAsk(env, p, all, j, key, Answer(p, s, n));
    if j < i {
      SourceIsAskedBefore(env, p, actions, i, j, key, Answer(p, s, n));
      SameViewMakes(p, TablesAfter(env, all[..j]), s, all, n);
    } else {
      assert j == i;
      SameViewMakes(p, TablesAfter(env, all[..j]), s, all, n);
    }
  }

  lemma SourceIsAskedBefore(env: Env, p: Program, actions: seq<Action>, i: nat, j: nat, key: string, b: Bundle)
    requires Telling(p.fingerprint) && Civil(actions) && i < |actions| && actions[i].Ask? && j < i
    requires FromAsk(env, p, actions[..i] + [actions[i]], j, key, b)
    requires key == KeyOf(actions[i].request, Printed(p.fingerprint, NoteAfter(env, actions[..i])))
    ensures AskedBefore(env, actions, j, i)
    ensures var all := actions[..i] + [actions[i]];
      all[..j] == actions[..j] && NoteAfter(env, all[..j]) == NoteAfter(env, actions[..i])
    ensures b == Made(EngineOn(p, TablesAfter(env, actions[..j])), map[], DriftAfter(actions[..i] + [actions[i]]), actions[i].request,
                      Printed(p.fingerprint, NoteAfter(env, actions[..i])))
  {
    hide Made, NoteAfter, TablesAfter, DriftAfter, Tame, Clash, Drops, KeyText;
    var all, m, n := actions[..i] + [actions[i]], actions[j].request, actions[i].request;
    assert all[..j] == actions[..j] && all[j] == actions[j];
    var a, c := NoteAfter(env, actions[..j]), NoteAfter(env, actions[..i]);
    NotesTold(p.fingerprint, a, c);
    TameKeysAgreeIff(m, Printed(p.fingerprint, a), n, Printed(p.fingerprint, c), NO_MODEL);
    KeptOn(actions[..i], actions[i], j);
  }

  lemma NotesTold(fingerprint: Knowledge -> string, a: Note, c: Note)
    requires Telling(fingerprint)
    ensures Printed(fingerprint, a) == Printed(fingerprint, c) <==> a == c
    ensures NUL !in Printed(fingerprint, a) && NUL !in Printed(fingerprint, c)
  {}

  lemma SameViewMakes(p: Program, t: Tables, s: Site, all: seq<Action>, n: Normal)
    requires ViewOf(t) == ViewOf(s.tables) && s.cache.drift == DriftAfter(all)
    ensures Made(EngineOn(p, t), map[], DriftAfter(all), n, s.cache.fingerprint) == Wanted(p, s, n)
  {
    hide ViewOf, Attached, KeyOf;
  }

  // ----- plans: runs and checks, with gaps to ask in -----

  function Moves(actions: seq<Action>): (moves: seq<Action>)
    ensures forall a :: a in moves ==> !a.Ask?
  {
    if actions == [] then []
    else
      var front, a := Moves(actions[..|actions| - 1]), actions[|actions| - 1];
      if a.Ask? then front else front + [a]
  }

  predicate IsPlan(plan: seq<Action>) {
    forall a :: a in plan ==> !a.Ask?
  }

  lemma {:induction false} MovesOfPlan(plan: seq<Action>)
    requires IsPlan(plan)
    ensures Moves(plan) == plan
  {
    if plan != [] {
      var front := plan[..|plan| - 1];
      MovesOfPlan(front);
      assert plan == front + [plan[|plan| - 1]];
    }
  }

  lemma {:induction false} MovesConcat(a: seq<Action>, b: seq<Action>)
    ensures Moves(a + b) == Moves(a) + Moves(b)
  {
    if b == [] {
      assert a + b == a;
    } else {
      var front := b[..|b| - 1];
      MovesConcat(a, front);
      assert (a + b)[..|a + b| - 1] == a + front;
    }
  }

  /** The moves before the i-th action are the first of all moves. */
  lemma MovesFront(actions: seq<Action>, i: nat)
    requires i <= |actions|
    ensures |Moves(actions[..i])| <= |Moves(actions)| && Moves(actions[..i]) == Moves(actions)[..|Moves(actions[..i])|]
  {
    MovesConcat(actions[..i], actions[i..]);
    assert actions == actions[..i] + actions[i..];
  }

  /** Requests change neither tables nor notes nor drift. */
  lemma {:induction false} MovesDecide(env: Env, actions: seq<Action>)
    ensures TablesAfter(env, actions) == TablesAfter(env, Moves(actions))
    ensures NoteAfter(env, actions) == NoteAfter(env, Moves(actions))
    ensures DriftAfter(actions) == DriftAfter(Moves(actions))
    ensures Doable(env, actions) <==> Doable(env, Moves(actions))
  {
    hide Index.After, Index.Succeeds, Index.Knowledge, Index.Possible, TableOf, OnePerDocument;
    if actions != [] {
      var front, a := actions[..|actions| - 1], actions[|actions| - 1];
      MovesDecide(env, front);
      if !a.Ask? {
        assert (Moves(front) + [a])[..|Moves(front)|] == Moves(front);
      }
    }
  }

  lemma {:induction false} KeptByMoves(env: Env, actions: seq<Action>, j: nat)
    requires j <= |actions|
    ensures Kept(actions, j) <==> Kept(Moves(actions), |Moves(actions[..j])|)
    decreases |actions|
  {
    hide Kept, Drops;
    if j == |actions| {
      assert actions[..j] == actions;
      NothingSince(actions);
      NothingSince(Moves(actions));
    } else {
      var front, a := actions[..|actions| - 1], actions[|actions| - 1];
      assert front[..j] == actions[..j] && actions == front + [a];
      KeptByMoves(env, front, j);
      KeptOn(front, a, j);
      MovesFront(front, j);
      if a.Ask? {
        AskDropsNothing(front, a);
      } else {
        KeptOn(Moves(front), a, |Moves(actions[..j])|);
        SameDrop(env, front, a);
      }
    }
  }

  lemma NothingSince(actions: seq<Action>)
    ensures Kept(actions, |actions|)
  {}

  lemma AskDropsNothing(front: seq<Action>, a: Action)
    requires a.Ask?
    ensures !Drops(front + [a], |front|)
  {}

  lemma SameDrop(env: Env, front: seq<Action>, a: Action)
    ensures Drops(front + [a], |front|) <==> Drops(Moves(front) + [a], |Moves(front)|)
  {
    hide Changed, DriftAfter;
    MovesDecide(env, front);
    assert (front + [a])[..|front|] == front && (Moves(front) + [a])[..|Moves(front)|] == Moves(front);
  }

  /** These moves, with requests in these gaps: gap g is before move g. */
  ghost predicate Follows(actions: seq<Action>, plan: seq<Action>, gaps: set<nat>) {
    Moves(actions) == plan && forall i :: 0 <= i < |actions| && actions[i].Ask? ==> |Moves(actions[..i])| in gaps
  }

  /** Every answer is right, whatever is asked in the gaps and whatever search and rendering make of it. */
  ghost predicate AllRight(env: Env, fingerprint: Knowledge -> string, plan: seq<Action>, gaps: set<nat>) {
    forall p: Program, actions: seq<Action>, i: nat ::
      p.fingerprint == fingerprint && Follows(actions, plan, gaps) && Civil(actions) && i < |actions| && actions[i].Ask? ==>
        AnswersRight(env, p, actions, i)
  }

  /** Two gaps with one fingerprint and no drop between them. */
  ghost predicate Shared(env: Env, plan: seq<Action>, g: nat, h: nat) {
    g < h <= |plan| && NoteAfter(env, plan[..g]) == NoteAfter(env, plan[..h]) && Kept(plan[..h], g)
  }

  ghost function ViewAt(env: Env, plan: seq<Action>, g: nat): View
    requires g <= |plan|
  {
    ViewOf(TablesAfter(env, plan[..g]))
  }

  /** What search reads is the same in any two of the gaps that share cached bundles. */
  ghost predicate InStep(env: Env, plan: seq<Action>, gaps: set<nat>) {
    forall g, h :: g in gaps && h in gaps && Shared(env, plan, g, h) ==> ViewAt(env, plan, g) == ViewAt(env, plan, h)
  }

  lemma InStepIsRight(env: Env, p: Program, plan: seq<Action>, gaps: set<nat>, actions: seq<Action>, i: nat)
    requires Telling(p.fingerprint) && Doable(env, plan) && InStep(env, plan, gaps)
    requires Follows(actions, plan, gaps) && Civil(actions) && i < |actions| && actions[i].Ask?
    ensures AnswersRight(env, p, actions, i)
  {
    hide Doable, TablesAfter, NoteAfter, Telling, Civil, Kept, ViewOf, AnswersRight;
    MovesDecide(env, actions);
    MovesFront(actions, i);
    MovesDecide(env, actions[..i]);
    forall j: nat | AskedBefore(env, actions, j, i)
      ensures ViewOf(TablesAfter(env, actions[..j])) == ViewOf(TablesAfter(env, actions[..i]))
    {
      var front := actions[..i];
      assert front[..j] == actions[..j];
      MovesFront(actions, j);
      MovesFront(front, j);
      MovesDecide(env, actions[..j]);
      KeptByMoves(env, front, j);
      var g, h := |Moves(actions[..j])|, |Moves(front)|;
      if g < h {
        assert Shared(env, plan, g, h);
        assert ViewAt(env, plan, g) == ViewAt(env, plan, h);
      } else {
        assert Moves(actions[..j]) == Moves(front);
      }
    }
    RightWhenViewsAgree(env, p, actions, i);
  }

  // ----- and wrong otherwise -----

  function Recognizer(v: View): (View, Normal) -> seq<Hit> {
    (w, n) => if w == v then [Hit("a", "", 0, 0)] else []
  }

  function BuildHits(key: string, n: Normal, fingerprint: string, hits: seq<Hit>): Output {
    Output("", hits, false)
  }

  /** A request in each of two gaps. */
  function Twice(plan: seq<Action>, g: nat, h: nat, n: Normal): seq<Action>
    requires g <= h <= |plan|
  {
    plan[..g] + [Ask(n)] + plan[g..h] + [Ask(n)] + plan[h..]
  }

  lemma TwiceAsks(plan: seq<Action>, g: nat, h: nat, n: Normal)
    requires IsPlan(plan) && g < h <= |plan|
    ensures var actions := Twice(plan, g, h, n);
      && |actions| == |plan| + 2 && actions[g] == Ask(n) && actions[h + 1] == Ask(n)
      && actions[..g] == plan[..g] && actions[..h + 1] == plan[..g] + [Ask(n)] + plan[g..h]
      && forall i :: 0 <= i < |actions| && actions[i].Ask? ==> i == g || i == h + 1
  {
    var actions := Twice(plan, g, h, n);
    forall i | 0 <= i < |actions| && i != g && i != h + 1 ensures !actions[i].Ask? {
      var m := if i < g then i else if i < h + 1 then i - 1 else i - 2;
      assert actions[i] == plan[m] && plan[m] in plan;
    }
  }

  lemma OnceMoves(plan: seq<Action>, g: nat, h: nat, n: Normal)
    requires IsPlan(plan) && g <= h <= |plan|
    ensures Moves(plan[..g]) == plan[..g] && Moves(plan[..g] + [Ask(n)]) == plan[..g]
    ensures Moves(plan[..g] + [Ask(n)] + plan[g..h]) == plan[..h]
  {
    var a, b := plan[..g], plan[g..h];
    MovesOfPlan(a);
    MovesOfPlan(b);
    assert Moves([Ask(n)]) == [];
    MovesConcat(a, [Ask(n)]);
    MovesConcat(a + [Ask(n)], b);
    assert a + b == plan[..h];
  }

  lemma TwiceFollows(plan: seq<Action>, g: nat, h: nat, n: Normal)
    requires IsPlan(plan) && g < h <= |plan|
    ensures Follows(Twice(plan, g, h, n), plan, {g, h})
  {
    hide Moves;
    var actions, before := Twice(plan, g, h, n), plan[..g] + [Ask(n)] + plan[g..h];
    TwiceAsks(plan, g, h, n);
    OnceMoves(plan, g, h, n);
    OnceMoves(plan, h, h, n);
    MovesOfPlan(plan[h..]);
    assert Moves([Ask(n)]) == [] by { OnceMoves([], 0, 0, n); assert [][..0] + [Ask(n)] == [Ask(n)]; }
    MovesConcat(before, [Ask(n)]);
    MovesConcat(before + [Ask(n)], plan[h..]);
    assert plan[..h] + plan[h..] == plan;
    assert actions == before + [Ask(n)] + plan[h..];
  }

  lemma {:induction false} NothingAsked(env: Env, p: Program, plan: seq<Action>)
    requires IsPlan(plan)
    ensures var cache := SiteAfter(env, p, plan).cache; cache.lru == Lru.Cache(map[], []) && cache.rows == map[]
  {
    hide TableOf, Changed, Index.After, Index.Succeeds, Index.Statements, Index.Knowledge;
    if plan != [] {
      assert plan[|plan| - 1] in plan;
      NothingAsked(env, p, plan[..|plan| - 1]);
    }
  }

  /** Runs and checks that drop nothing leave the memory cache alone. */
  lemma {:induction false} MemoryStays(env: Env, p: Program, actions: seq<Action>, moves: seq<Action>)
    requires IsPlan(moves) && Kept(actions + moves, |actions|)
    ensures SiteAfter(env, p, actions + moves).cache.lru == SiteAfter(env, p, actions).cache.lru
  {
    hide TableOf, Changed, Index.After, Index.Succeeds, Index.Statements, Index.Knowledge, DriftAfter;
    if moves == [] {
      assert actions + moves == actions;
    } else {
      var front, a := moves[..|moves| - 1], moves[|moves| - 1];
      assert a in moves && actions + moves == (actions + front) + [a];
      KeptOn(actions + front, a, |actions|);
      MemoryStays(env, p, actions, front);
      CacheIs(env, p, actions + front);
      SiteSnoc(env, p, actions + front, a);
      assert ((actions + front) + [a])[..|actions + front|] == actions + front;
    }
  }

  /** The bundle of the first gap answers in the second. */
  lemma OldViewAnswers(env: Env, p: Program, plan: seq<Action>, g: nat, h: nat, n: Normal)
    requires IsPlan(plan) && Shared(env, plan, g, h)
    ensures var s := SiteAfter(env, p, plan[..g] + [Ask(n)] + plan[g..h]);
      Answer(p, s, n) == Wanted(p, SiteAfter(env, p, plan[..g]), n)
  {
    hide TablesAfter, NoteAfter, Made, KeyOf, Lru.Put, Lru.Touch, Step, SiteAfter, Kept, DriftAfter;
    var a, b := plan[..g], plan[g..h];
    var asked, before := a + [Ask(n)], a + [Ask(n)] + b;
    var s := SiteAfter(env, p, a);
    NothingAsked(env, p, a);
    SiteSnoc(env, p, a, Ask(n));
    FirstAnswer(EngineOn(p, s.tables), s.cache, n);
    OnceMoves(plan, g, h, n);
    KeptByMoves(env, before, |asked|);
    assert before[..|asked|] == asked;
    MemoryStays(env, p, asked, b);
    CacheIs(env, p, a);
    CacheIs(env, p, before);
    MovesDecide(env, before);
    hide Compiled;
    StepAsks(env, p, s, n);
    Remembered(p, SiteAfter(env, p, before), n, Wanted(p, s, n));
  }

  lemma StepAsks(env: Env, p: Program, s: Site, n: Normal)
    ensures Step(env, p, s, Ask(n)).cache == Compiled(EngineOn(p, s.tables), s.cache, n).after
  {
    hide Compiled;
  }

  lemma Remembered(p: Program, s: Site, n: Normal, b: Bundle)
    requires KeyOf(n, s.cache.fingerprint) in s.cache.lru.entries && s.cache.lru.entries[KeyOf(n, s.cache.fingerprint)] == b
    ensures Answer(p, s, n) == b
  {
    hide KeyOf, Lru.Touch;
  }

  lemma SectionsFound(p: Program, v: View, s: Site, n: Normal)
    requires p.find == Recognizer(v) && p.build == BuildHits
    ensures |Wanted(p, s, n).output.sections| == if ViewOf(s.tables) == v then 1 else 0
  {
    hide KeyOf, ViewOf;
    var e := EngineOn(p, s.tables);
    var hits := e.search(s.cache.knowledge, n);
    assert hits == Recognizer(v)(ViewOf(s.tables), n);
    var key := KeyOf(n, s.cache.fingerprint);
    assert Wanted(p, s, n).output == BuildHits(key, n, s.cache.fingerprint, Attached(hits, s.cache.drift));
  }

  /** A program that tells the two views apart gives the wrong answer in the second gap. */
  lemma OldViewIsWrong(env: Env, fingerprint: Knowledge -> string, plan: seq<Action>, g: nat, h: nat, n: Normal) returns (p: Program)
    requires IsPlan(plan) && Shared(env, plan, g, h) && ViewAt(env, plan, g) != ViewAt(env, plan, h)
    ensures p.fingerprint == fingerprint && Twice(plan, g, h, n)[h + 1] == Ask(n)
    ensures !AnswersRight(env, p, Twice(plan, g, h, n), h + 1)
  {
    hide Answer, Wanted, ViewOf, TablesAfter, NoteAfter, Kept, Moves, SiteAfter;
    p := Program(Recognizer(ViewAt(env, plan, g)), BuildHits, fingerprint);
    var before := plan[..g] + [Ask(n)] + plan[g..h];
    TwiceAsks(plan, g, h, n);
    OnceMoves(plan, g, h, n);
    OldViewAnswers(env, p, plan, g, h, n);
    CacheIs(env, p, plan[..g]);
    CacheIs(env, p, before);
    MovesDecide(env, before);
    SectionsFound(p, ViewAt(env, plan, g), SiteAfter(env, p, plan[..g]), n);
    SectionsFound(p, ViewAt(env, plan, g), SiteAfter(env, p, before), n);
  }

  /** A request that clashes with none. */
  const PLAIN := Normal("", [], 1, [])

  lemma PlainIsCivil(plan: seq<Action>, g: nat, h: nat)
    requires IsPlan(plan) && g < h <= |plan|
    ensures Civil(Twice(plan, g, h, PLAIN))
  {
    TwiceAsks(plan, g, h, PLAIN);
  }

  /** Whatever fails: every answer given in the gaps is right, for every search and rendering, exactly
      when search reads the same in any two gaps that share a fingerprint, with no drop between. */
  lemma AllRightIff(env: Env, fingerprint: Knowledge -> string, plan: seq<Action>, gaps: set<nat>)
    requires Telling(fingerprint) && IsPlan(plan) && Doable(env, plan)
    ensures AllRight(env, fingerprint, plan, gaps) <==> InStep(env, plan, gaps)
  {
    hide Telling, Doable, Follows, Civil, AnswersRight, ViewAt, Twice, Kept, NoteAfter;
    if InStep(env, plan, gaps) {
      forall p: Program, actions: seq<Action>, i: nat |
        p.fingerprint == fingerprint && Follows(actions, plan, gaps) && Civil(actions) && i < |actions| && actions[i].Ask?
        ensures AnswersRight(env, p, actions, i)
      {
        InStepIsRight(env, p, plan, gaps, actions, i);
      }
    } else {
      var g, h :| g in gaps && h in gaps && Shared(env, plan, g, h) && ViewAt(env, plan, g) != ViewAt(env, plan, h);
      OutOfStepIsWrong(env, fingerprint, plan, gaps, g, h);
    }
  }

  lemma OutOfStepIsWrong(env: Env, fingerprint: Knowledge -> string, plan: seq<Action>, gaps: set<nat>, g: nat, h: nat)
    requires IsPlan(plan) && g in gaps && h in gaps
    requires Shared(env, plan, g, h) && ViewAt(env, plan, g) != ViewAt(env, plan, h)
    ensures !AllRight(env, fingerprint, plan, gaps)
  {
    hide NoteAfter, TablesAfter, Kept, ViewAt, AnswersRight, Civil, Moves;
    var actions := Twice(plan, g, h, PLAIN);
    TwiceFollows(plan, g, h, PLAIN);
    PlainIsCivil(plan, g, h);
    TwiceAsks(plan, g, h, PLAIN);
    var p := OldViewIsWrong(env, fingerprint, plan, g, h, PLAIN);
    assert Follows(actions, plan, gaps);
  }
}
