/** Which failed index runs do no harm, by the statements they applied. */
module Harmless {
  import opened Sequences
  import opened Keys
  import opened Tables
  import opened BundleCache
  import opened Serving
  import opened Failures
  import opened Fingerprints
  import Index
  import Links

  // ----- statements and knowledge -----

  function Known(k: Knowledge, op: Op): Knowledge {
    match op
    case Upsert(p, content, _, _) => k[p := content]
    case DeleteDocument(p) => k - {p}
    case _ => k
  }

  function KnownAll(k: Knowledge, ops: seq<Op>): Knowledge {
    if ops == [] then k else Known(KnownAll(k, ops[..|ops| - 1]), ops[|ops| - 1])
  }

  lemma ApplyKnown(lib: Links.PathLib, t: Tables, op: Op)
    ensures Index.Knowledge(Apply(lib, t, op)) == Known(Index.Knowledge(t), op)
    ensures Index.Scanned(t) ==> Index.Scanned(Apply(lib, t, op))
  {
    hide Target, ChunkRows, LinkKeys, ReplaceChunks, ReplaceLinks;
  }

  lemma {:induction false} ApplyAllKnown(lib: Links.PathLib, t: Tables, ops: seq<Op>)
    ensures Index.Knowledge(ApplyAll(lib, t, ops)) == KnownAll(Index.Knowledge(t), ops)
    ensures Index.Scanned(t) ==> Index.Scanned(ApplyAll(lib, t, ops))
  {
    hide Apply, Index.Knowledge, Index.Scanned, Known;
    if ops != [] {
      ApplyAllKnown(lib, t, ops[..|ops| - 1]);
      ApplyKnown(lib, ApplyAll(lib, t, ops[..|ops| - 1]), ops[|ops| - 1]);
    }
  }

  predicate Moving(op: Op) {
    op.Upsert? || op.DeleteDocument?
  }

  /** No path is stored or deleted twice. */
  ghost predicate Once(ops: seq<Op>) {
    forall i, j :: 0 <= i < j < |ops| && Moving(ops[i]) && Moving(ops[j]) ==> ops[i].path != ops[j].path
  }

  lemma {:induction false} KnownElsewhere(k: Knowledge, ops: seq<Op>, q: string)
    requires forall i :: 0 <= i < |ops| && Moving(ops[i]) ==> ops[i].path != q
    ensures q in KnownAll(k, ops) <==> q in k
    ensures q in k ==> KnownAll(k, ops)[q] == k[q]
  {
    if ops != [] {
      KnownElsewhere(k, ops[..|ops| - 1], q);
    }
  }

  /** Then nothing is undone: together they change something unless each alone changes nothing. */
  lemma {:induction false} OnceUndoesNothing(k: Knowledge, ops: seq<Op>)
    requires Once(ops)
    ensures KnownAll(k, ops) == k <==> forall i :: 0 <= i < |ops| ==> Known(k, ops[i]) == k
  {
    if ops != [] {
      var front, last := ops[..|ops| - 1], ops[|ops| - 1];
      OnceUndoesNothing(k, front);
      assert forall i :: 0 <= i < |front| ==> front[i] == ops[i];
      if KnownAll(k, ops) == k {
        LastUndoesNothing(k, front, last);
      }
    }
  }

  lemma LastUndoesNothing(k: Knowledge, front: seq<Op>, last: Op)
    requires Once(front + [last]) && Known(KnownAll(k, front), last) == k
    ensures KnownAll(k, front) == k
  {
    hide KnownAll;
    var m, ops := KnownAll(k, front), front + [last];
    if Moving(last) {
      forall i | 0 <= i < |front| && Moving(front[i]) ensures front[i].path != last.path {
        assert ops[i] == front[i] && ops[|front|] == last;
      }
      KnownElsewhere(k, front, last.path);
      forall q ensures (q in m <==> q in k) && (q in k ==> m[q] == k[q]) {
        assert q != last.path ==> (q in m <==> q in Known(m, last)) && (q in m ==> m[q] == Known(m, last)[q]);
      }
      assert m == k;
    }
  }

  // ----- the statements of a run -----

  lemma {:induction false} UpsertsOnce(env: Env, t: Tables, files: seq<File>, n: nat, force: bool, commit: string)
    requires Walk(files) && n <= |files|
    ensures var ops := Upserts(env, t, files, n, force, commit);
      Once(ops) && forall i :: 0 <= i < |ops| ==> ops[i].Upsert? && Index.Among(files, n, ops[i].path)
    ensures !force ==> forall op :: op in Upserts(env, t, files, n, force, commit) ==> !UpToDate(t, File(op.path, op.content))
  {
    if n > 0 {
      UpsertsOnce(env, t, files, n - 1, force, commit);
      Index.NotAgain(files, n);
      hide UpToDate, Index.Among, Walk;
    }
  }

  lemma {:induction false} DeletesOnce(stale: seq<string>)
    requires Distinct(stale)
    ensures Once(Deletes(stale)) && forall op :: op in Deletes(stale) ==> (op.DeleteDocument? || op.DeleteLinks?) && op.path in stale
    ensures stale != [] ==> Deletes(stale)[0].DeleteDocument?
  {
    if stale != [] {
      var front := stale[..|stale| - 1];
      DeletesOnce(front);
      assert Deletes([]) == [];
    }
  }

  lemma OnceConcat(a: seq<Op>, b: seq<Op>)
    requires Once(a) && Once(b) && forall x, y :: x in a && y in b && Moving(x) && Moving(y) ==> x.path != y.path
    ensures Once(a + b)
  {
    var c := a + b;
    forall i, j | 0 <= i < j < |c| && Moving(c[i]) && Moving(c[j]) ensures c[i].path != c[j].path {
      if i < |a| <= j {
        assert c[i] in a && c[j] in b;
      }
    }
  }

  /** Every statement of a run stores one of its files or drops a stale document, each once. */
  lemma StatementsOnce(env: Env, t: Tables, r: Index.Run)
    requires Index.Possible(t, r)
    ensures Once(Index.Statements(env, t, r))
    ensures forall op :: op in Index.Statements(env, t, r) && op.DeleteDocument? ==> op.path in t.documents
    ensures var ops := Index.Statements(env, t, r); !r.force && ops != [] ==>
      ops[0].DeleteDocument? || (ops[0].Upsert? && !UpToDate(t, File(ops[0].path, ops[0].content)))
  {
    hide UpToDate, Upserts, Deletes, Once, Index.Among, Stops;
    var stop := Index.FirstStop(env, t, r.files, |r.files|, r.force);
    var a, b := Upserts(env, t, r.files, stop, r.force, r.commit), Deletes(r.stale);
    UpsertsOnce(env, t, r.files, stop, r.force, r.commit);
    if stop == |r.files| {
      DeletesOnce(r.stale);
      forall x, y | x in a && y in b && Moving(x) && Moving(y) ensures x.path != y.path {
        NotStale(t, r, x.path);
      }
      OnceConcat(a, b);
      NothingAfter(a + b);
    }
  }

  lemma NotStale(t: Tables, r: Index.Run, p: string)
    requires Index.Possible(t, r) && Index.Among(r.files, |r.files|, p)
    ensures p !in r.stale
  {}

  lemma NothingAfter(ops: seq<Op>)
    requires Once(ops)
    ensures Once(ops + [ResolveLinks])
  {
    var all := ops + [ResolveLinks];
    assert forall i :: 0 <= i < |ops| ==> all[i] == ops[i];
  }

  // ----- harmless runs -----

  /** Search sees nothing of this statement: it stores a file that is stored as it is, or is about links. */
  predicate Unseen(t: Tables, op: Op) {
    match op
    case Upsert(p, content, _, _) => UpToDate(t, File(p, content))
    case DeleteDocument(_) => false
    case _ => true
  }

  lemma UnseenIsKnown(t: Tables, op: Op)
    requires Index.Scanned(t) && (op.DeleteDocument? ==> op.path in t.documents)
    ensures Known(Index.Knowledge(t), op) == Index.Knowledge(t) <==> Unseen(t, op)
  {
    var k := Index.Knowledge(t);
    if op.Upsert? {
      assert op.path in Known(k, op) && Known(k, op)[op.path] == op.content;
    }
    if op.DeleteDocument? {
      assert op.path in k && op.path !in Known(k, op);
    }
  }

  /** In tables as runs leave them, search reads the same exactly when paths and contents are the same. */
  lemma ViewsKnown(env: Env, t: Tables, u: Tables)
    requires Index.Inv(env, t) && Index.Scanned(t) && Index.Inv(env, u) && Index.Scanned(u)
    ensures ViewOf(t) == ViewOf(u) <==> Index.Knowledge(t) == Index.Knowledge(u)
  {
    hide Index.Inv, Index.Scanned, ViewOf, Index.Knowledge;
    if Index.Knowledge(t) == Index.Knowledge(u) {
      SameView(env, Index.Knowledge(t), t, u);
    }
    KnownFromView(t);
    KnownFromView(u);
  }

  lemma KnownFromView(t: Tables)
    ensures Index.Knowledge(t) == map p | p in ViewOf(t).documents :: ViewOf(t).documents[p].1
  {}

  /** A run, however it ends, leaves what search reads as it was exactly when none of the statements it
      applied is seen. */
  lemma ViewStaysIff(env: Env, t: Tables, r: Index.Run)
    requires Index.Inv(env, t) && Index.Scanned(t) && Index.Possible(t, r)
    ensures Index.Inv(env, Index.After(env, t, r)) && Index.Scanned(Index.After(env, t, r))
    ensures ViewOf(Index.After(env, t, r)) == ViewOf(t) <==> Index.Knowledge(Index.After(env, t, r)) == Index.Knowledge(t)
    ensures ViewOf(Index.After(env, t, r)) == ViewOf(t) <==> forall op :: op in Index.Applied(env, t, r) ==> Unseen(t, op)
  {
    hide Index.Inv, Index.Scanned, Index.Possible, Index.Statements, Index.Knowledge, ViewOf, Unseen, Known, Once;
    var ops, u := Index.Applied(env, t, r), Index.After(env, t, r);
    Index.RunKeepsInv(env, t, r);
    ApplyAllKnown(env.lib, t, ops);
    ViewsKnown(env, t, u);
    StatementsOnce(env, t, r);
    OnceFront(Index.Statements(env, t, r), |ops|);
    OnceUndoesNothing(Index.Knowledge(t), ops);
    forall i | 0 <= i < |ops| ensures Known(Index.Knowledge(t), ops[i]) == Index.Knowledge(t) <==> Unseen(t, ops[i]) {
      assert ops[i] in Index.Statements(env, t, r);
      UnseenIsKnown(t, ops[i]);
    }
  }

  lemma OnceFront(ops: seq<Op>, n: nat)
    requires Once(ops) && n <= |ops|
    ensures Once(ops[..n]) && ops[..|ops|] == ops
  {}

  /** One that is not forced must have applied none at all. */
  lemma UnforcedStaysIff(env: Env, t: Tables, r: Index.Run)
    requires Index.Inv(env, t) && Index.Scanned(t) && Index.Possible(t, r) && !r.force
    ensures ViewOf(Index.After(env, t, r)) == ViewOf(t) <==> Index.Applied(env, t, r) == []
  {
    hide Index.Inv, Index.Scanned, Index.Possible, Index.Statements, Index.After, ViewOf, UpToDate, Once;
    ViewStaysIff(env, t, r);
    StatementsOnce(env, t, r);
    var ops := Index.Applied(env, t, r);
    if ops != [] {
      assert ops[0] == Index.Statements(env, t, r)[0] && ops[0] in ops;
    }
  }

  /** A run that recorded no fingerprint did nothing that search sees. */
  ghost predicate DoesNoHarm(env: Env, t: Tables, a: Action) {
    a.Run? && !SucceedsAt(env, t, a) ==> forall op :: op in Index.Applied(env, t, a.run) ==> Unseen(t, op)
  }

  ghost predicate NoHarm(env: Env, plan: seq<Action>) {
    forall i :: 0 <= i < |plan| ==> DoesNoHarm(env, TablesAfter(env, plan[..i]), plan[i])
  }

  lemma {:induction false} TablesScanned(env: Env, plan: seq<Action>)
    requires Doable(env, plan)
    ensures Index.Inv(env, TablesAfter(env, plan)) && Index.Scanned(TablesAfter(env, plan))
  {
    hide Index.Inv, Index.Scanned, Index.After, Index.Possible;
    if plan == [] {
      Index.EmptyInv(env);
      NothingScanned();
    } else {
      TablesScanned(env, plan[..|plan| - 1]);
      var a := plan[|plan| - 1];
      if a.Run? {
        ViewStaysIff(env, TablesAfter(env, plan[..|plan| - 1]), a.run);
      }
    }
  }

  lemma NothingScanned()
    ensures Index.Scanned(EMPTY) && Index.Knowledge(EMPTY) == map[]
  {}

  function Noted(note: Note): Knowledge {
    match note case Never => map[] case Of(k) => k
  }

  /** Where no run did harm, the tables hold what the fingerprint was taken of. */
  lemma {:induction false} NoteHolds(env: Env, plan: seq<Action>)
    requires Doable(env, plan) && NoHarm(env, plan)
    ensures Index.Knowledge(TablesAfter(env, plan)) == Noted(NoteAfter(env, plan))
  {
    hide Index.Inv, Index.Scanned, Index.After, Index.Possible, Index.Knowledge, Index.Applied, Unseen, ViewOf, SucceedsAt;
    if plan == [] {
      NothingScanned();
    } else {
      var front, a := plan[..|plan| - 1], plan[|plan| - 1];
      assert forall i :: 0 <= i < |front| ==> front[i] == plan[i] && front[..i] == plan[..i];
      NoteHolds(env, front);
      TablesScanned(env, front);
      assert DoesNoHarm(env, TablesAfter(env, front), a);
      if a.Run? {
        ViewStaysIff(env, TablesAfter(env, front), a.run);
      }
    }
  }

  function GapsUpTo(n: nat): (gaps: set<nat>)
    ensures forall g: nat :: g in gaps <==> g <= n
  {
    if n == 0 then {0} else GapsUpTo(n - 1) + {n}
  }

  function AllGaps(plan: seq<Action>): set<nat> {
    GapsUpTo(|plan|)
  }

  /** Whatever is asked and whenever, every answer is right exactly when no run that recorded no
      fingerprint did anything that search sees. */
  lemma AlwaysRightIff(env: Env, fingerprint: Knowledge -> string, plan: seq<Action>)
    requires Telling(fingerprint) && IsPlan(plan) && Doable(env, plan)
    ensures AllRight(env, fingerprint, plan, AllGaps(plan)) <==> NoHarm(env, plan)
  {
    hide Telling, Doable, AllRight, DoesNoHarm, IsPlan, ViewAt, Shared;
    AllRightIff(env, fingerprint, plan, AllGaps(plan));
    if NoHarm(env, plan) {
      forall g, h | g in AllGaps(plan) && h in AllGaps(plan) && Shared(env, plan, g, h)
        ensures ViewAt(env, plan, g) == ViewAt(env, plan, h)
      {
        SharedViewsAgree(env, plan, g, h);
      }
    } else {
      var i :| 0 <= i < |plan| && !DoesNoHarm(env, TablesAfter(env, plan[..i]), plan[i]);
      HarmShows(env, plan, i);
      assert i in AllGaps(plan) && i + 1 in AllGaps(plan);
    }
  }

  lemma SharedViewsAgree(env: Env, plan: seq<Action>, g: nat, h: nat)
    requires Doable(env, plan) && NoHarm(env, plan) && Shared(env, plan, g, h)
    ensures ViewAt(env, plan, g) == ViewAt(env, plan, h)
  {
    hide Doable, NoHarm, Kept, TablesAfter, NoteAfter, ViewOf, Index.Knowledge, Index.Inv, Index.Scanned;
    HarmlessFront(env, plan, g);
    HarmlessFront(env, plan, h);
    NoteHolds(env, plan[..g]);
    NoteHolds(env, plan[..h]);
    TablesScanned(env, plan[..g]);
    TablesScanned(env, plan[..h]);
    ViewsKnown(env, TablesAfter(env, plan[..g]), TablesAfter(env, plan[..h]));
  }

  lemma HarmlessFront(env: Env, plan: seq<Action>, n: nat)
    requires Doable(env, plan) && NoHarm(env, plan) && n <= |plan|
    ensures Doable(env, plan[..n]) && NoHarm(env, plan[..n])
  {
    hide Doable, DoesNoHarm, TablesAfter;
    DoableFront(env, plan, n);
    var front := plan[..n];
    assert forall i :: 0 <= i < n ==> front[i] == plan[i] && front[..i] == plan[..i];
  }

  /** Asking before and after a harmful run shows it. */
  lemma HarmShows(env: Env, plan: seq<Action>, i: nat)
    requires Doable(env, plan) && i < |plan| && !DoesNoHarm(env, TablesAfter(env, plan[..i]), plan[i])
    ensures Shared(env, plan, i, i + 1) && ViewAt(env, plan, i) != ViewAt(env, plan, i + 1)
  {
    hide Index.Inv, Index.Scanned, Index.After, Index.Possible, Index.Applied, Unseen, ViewOf, SucceedsAt, Changed, DriftAfter;
    DoableFront(env, plan, i);
    DoableFront(env, plan, i + 1);
    TablesScanned(env, plan[..i]);
    var next := plan[..i + 1];
    assert next[..i] == plan[..i] && next[i] == plan[i];
    ViewStaysIff(env, TablesAfter(env, plan[..i]), plan[i].run);
  }

  // ----- witnesses -----

  const NOTE := Parsed(Meta("", "", [], [], ""), [], [])

  const STORE := Index.Run([File("a.md", "")], false, "", [], 1)
  const NOTHING := Index.Run([], false, "", [], 0)
  const CLEAR := Index.Run([], false, "", ["a.md"], 3)

  /** Every file parses to a document without sections. */
  ghost function Plainly(): Env {
    Env((_, _) => Parses(NOTE), Links.PathLib((_, target) => target, p => p))
  }

  /** Cut after its first statement, the run has stored the document and resolved nothing. */
  lemma StoreIsCut()
    ensures Doable(Plainly(), [Run(STORE, true)]) && !SucceedsAt(Plainly(), EMPTY, Run(STORE, true))
    ensures "a.md" in Index.After(Plainly(), EMPTY, STORE).documents
  {
    hide Index.Possible, Index.Succeeds, Index.After;
    StoreRuns();
    OneMove(Plainly(), Run(STORE, true));
  }

  lemma OneMove(env: Env, a: Action)
    requires Allowed(EMPTY, a)
    ensures Doable(env, [a]) && TablesAfter(env, [a]) == if a.Run? then Index.After(env, EMPTY, a.run) else EMPTY
  {
    hide Index.After, Allowed;
    assert [a][..0] == [] && TablesAfter(env, []) == EMPTY;
  }

  lemma Stored()
    ensures Apply(Plainly().lib, EMPTY, Upsert("a.md", "", NOTE, "")).documents.Keys == {"a.md"}
  {}

  /** Asked before and after a run that fails once it has stored a document: the second answer is not
      made from the tables any more. */
  lemma FailedRunLeavesOldAnswer(n: Normal) returns (env: Env, p: Program, actions: seq<Action>)
    ensures Telling(p.fingerprint) && Doable(env, actions) && actions == [Ask(n), Run(STORE, true), Ask(n)]
    ensures !SucceedsAt(env, TablesAfter(env, actions[..1]), actions[1])
    ensures !AnswersRight(env, p, actions, 2)
  {
    hide Telling, Index.After, Index.Succeeds, AnswersRight, Doable, Kept, NoteAfter;
    env := Plainly();
    var fingerprint := TellingExists();
    var plan := [Run(STORE, true)];
    StoreIsCut();
    FailureShares(env, [], STORE);
    OneMove(env, Run(STORE, true));
    assert plan[..0] == [] && plan[..1] == plan;
    OneSees(TablesAfter(env, plan), TablesAfter(env, []));
    p := OldViewIsWrong(env, fingerprint, plan, 0, 1, n);
    actions := Twice(plan, 0, 1, n);
    TwiceFollows(plan, 0, 1, n);
    MovesDecide(env, actions);
    MovesDecide(env, actions[..1]);
    assert actions == [Ask(n), Run(STORE, true), Ask(n)];
  }

  lemma OneSees(t: Tables, u: Tables)
    requires "a.md" in t.documents && "a.md" !in u.documents
    ensures ViewOf(t) != ViewOf(u)
  {
    assert "a.md" in ViewOf(t).documents && "a.md" !in ViewOf(u).documents;
  }

  lemma FailureShares(env: Env, front: seq<Action>, r: Index.Run)
    requires !SucceedsAt(env, TablesAfter(env, front), Run(r, true))
    ensures Shared(env, front + [Run(r, true)], |front|, |front| + 1)
  {
    hide TablesAfter, SucceedsAt, DriftAfter, Changed;
    var plan := front + [Run(r, true)];
    assert plan[..|front|] == front && plan[..|front| + 1] == plan;
  }

  /** A run that succeeds, one that fails once it has stored a document, a request, and a run that
      succeeds and drops the document again: tables and fingerprint are those of the start, and the
      bundle made half way answers. */
  lemma OldAnswerComesBack(n: Normal) returns (env: Env, p: Program, actions: seq<Action>)
    ensures Telling(p.fingerprint) && Doable(env, actions)
    ensures actions == [Run(NOTHING, true), Run(STORE, true), Ask(n), Run(CLEAR, true), Ask(n)]
    ensures SucceedsAt(env, TablesAfter(env, actions[..3]), actions[3])
    ensures !AnswersRight(env, p, actions, 4)
  {
    hide Telling, Index.After, Index.Succeeds, AnswersRight, Doable, Kept, NoteAfter, TablesAfter, ViewOf;
    env := Plainly();
    var fingerprint := TellingExists();
    var plan := [Run(NOTHING, true), Run(STORE, true), Run(CLEAR, true)];
    ThreeRuns();
    p := OldViewIsWrong(env, fingerprint, plan, 2, 3, n);
    actions := Twice(plan, 2, 3, n);
    TwiceFollows(plan, 2, 3, n);
    MovesDecide(env, actions);
    assert actions == [Run(NOTHING, true), Run(STORE, true), Ask(n), Run(CLEAR, true), Ask(n)];
    OnceMoves(plan, 2, 2, n);
    assert actions[..3] == plan[..2] + [Ask(n)] + plan[2..2];
    MovesDecide(env, actions[..3]);
  }

  lemma ThreeRuns()
    ensures var env, plan := Plainly(), [Run(NOTHING, true), Run(STORE, true), Run(CLEAR, true)];
      && Doable(env, plan) && Shared(env, plan, 2, 3) && ViewAt(env, plan, 2) != ViewAt(env, plan, 3)
      && SucceedsAt(env, TablesAfter(env, plan[..2]), plan[2])
  {
    hide TablesAfter, NoteAfter, Doable, Index.After, Index.Possible, Index.Succeeds, ViewOf, Index.Knowledge, Drops;
    var env, plan := Plainly(), [Run(NOTHING, true), Run(STORE, true), Run(CLEAR, true)];
    var t := Index.After(env, EMPTY, STORE);
    NothingRuns();
    StoreRuns();
    ClearRuns();
    NothingScanned();
    assert plan[..1] == [] + [plan[0]] && plan[..2] == plan[..1] + [plan[1]] && plan == plan[..2] + [plan[2]] && plan[..3] == plan;
    BeforeAll(env);
    AfterMove(env, [], plan[0]);
    AfterMove(env, plan[..1], plan[1]);
    AfterMove(env, plan[..2], plan[2]);
    OneSees(t, Index.After(env, t, CLEAR));
    RunsDropNothing(plan);
  }

  lemma BeforeAll(env: Env)
    ensures TablesAfter(env, []) == EMPTY && Doable(env, [])
  {}

  lemma AfterMove(env: Env, front: seq<Action>, a: Action)
    ensures var plan := front + [a];
      && TablesAfter(env, plan) == (if a.Run? then Index.After(env, TablesAfter(env, front), a.run) else TablesAfter(env, front))
      && NoteAfter(env, plan) == (if a.Run? && SucceedsAt(env, TablesAfter(env, front), a) then Of(Index.Knowledge(TablesAfter(env, plan)))
                                  else NoteAfter(env, front))
      && (Doable(env, plan) <==> Doable(env, front) && Allowed(TablesAfter(env, front), a))
  {
    hide Index.After, Allowed, SucceedsAt, Index.Knowledge;
    assert (front + [a])[..|front|] == front;
  }

  lemma RunsDropNothing(plan: seq<Action>)
    requires |plan| == 3 && plan[2].Run?
    ensures Kept(plan[..3], 2)
  {}

  lemma NothingRuns()
    ensures Index.Possible(EMPTY, NOTHING) && Index.Succeeds(Plainly(), EMPTY, NOTHING) && Index.After(Plainly(), EMPTY, NOTHING) == EMPTY
  {
    assert Deletes([]) == [];
    assert Index.Statements(Plainly(), EMPTY, NOTHING) == [];
  }

  lemma StoreRuns()
    ensures Index.Possible(EMPTY, STORE) && !Index.Succeeds(Plainly(), EMPTY, STORE)
    ensures Index.After(Plainly(), EMPTY, STORE).documents.Keys == {"a.md"}
  {
    hide Index.Possible, Index.Statements, Index.After, Apply;
    Index.StoredOnly(Plainly(), NOTE, STORE);
    Stored();
  }

  lemma ClearRuns()
    ensures var t := Index.After(Plainly(), EMPTY, STORE);
      && Index.Possible(t, CLEAR) && Index.Succeeds(Plainly(), t, CLEAR)
      && "a.md" !in Index.After(Plainly(), t, CLEAR).documents && Index.Knowledge(Index.After(Plainly(), t, CLEAR)) == map[]
  {
    hide Index.After, Apply, Known;
    StoreRuns();
    var t := Index.After(Plainly(), EMPTY, STORE);
    Dropping(t);
  }

  lemma Dropping(t: Tables)
    requires t.documents.Keys == {"a.md"}
    ensures Index.Possible(t, CLEAR) && Index.Succeeds(Plainly(), t, CLEAR)
    ensures "a.md" !in Index.After(Plainly(), t, CLEAR).documents && Index.Knowledge(Index.After(Plainly(), t, CLEAR)) == map[]
  {
    hide Apply, Index.Statements, ApplyAll, KnownAll;
    var env, ops := Plainly(), [DeleteDocument("a.md"), DeleteLinks("a.md"), ResolveLinks];
    assert "a.md" in t.documents.Keys;
    DropStatements(t);
    ApplyAllKnown(env.lib, t, ops);
    KnownDropped(Index.Knowledge(t));
    var u := Index.After(env, t, CLEAR);
    assert "a.md" in u.documents ==> "a.md" in Index.Knowledge(u);
  }

  lemma DropStatements(t: Tables)
    ensures Index.Statements(Plainly(), t, CLEAR) == [DeleteDocument("a.md"), DeleteLinks("a.md"), ResolveLinks]
  {
    assert ["a.md"][..0] == [] && Deletes([]) == [];
    assert Deletes(["a.md"]) == [DeleteDocument("a.md"), DeleteLinks("a.md")];
  }

  lemma KnownDropped(k: Knowledge)
    requires k.Keys == {"a.md"}
    ensures KnownAll(k, [DeleteDocument("a.md"), DeleteLinks("a.md"), ResolveLinks]) == map[]
  {
    var a, b := [DeleteDocument("a.md")], [DeleteDocument("a.md"), DeleteLinks("a.md")];
    var c := [DeleteDocument("a.md"), DeleteLinks("a.md"), ResolveLinks];
    assert a[..0] == [] && b[..1] == a && c[..2] == b;
    assert KnownAll(k, a) == k - {"a.md"} == map[];
    assert KnownAll(k, b) == KnownAll(k, a) && KnownAll(k, c) == KnownAll(k, b);
  }
}
