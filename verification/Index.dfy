/** internal/indexer: what an index run leaves in the tables, compared with building them from
    nothing. */
module Index {
  import opened Sequences
  import opened Strings
  import opened Links
  import opened Tables

  // ----- the invariant of the tables -----

  /** What is stored for a document whose links were scanned by the current rules is what parsing its
      content gives. */
  ghost predicate RowFits(env: Env, t: Tables, p: string)
    requires p in t.documents
  {
    t.documents[p].linksScanned >= LINKS_VERSION ==> Fits(env, t, p, t.documents[p].hash)
  }

  ghost predicate Fits(env: Env, t: Tables, p: string, content: string)
    requires p in t.documents
  {
    var parse := env.parse(p, content);
    && parse.Parses?
    && t.documents[p].meta == parse.doc.meta
    && DistinctIds(parse.doc.chunks)
    && ChunksOf(t, p) == ChunkRows(p, parse.doc.meta.title, parse.doc.chunks)
    && LinksOf(t, p).Keys == LinkKeys(p, parse.doc.links)
  }

  /** Chunks belong to documents.  Link rows need not: a document and its links are deleted by two
      statements, and a run can end between them. */
  ghost predicate Inv(env: Env, t: Tables) {
    && (forall p :: p in t.documents ==> RowFits(env, t, p))
    && (forall id :: id in t.chunks ==> id.path in t.documents)
  }

  // ----- one statement -----

  predicate Touches(op: Op, p: string) {
    !op.ResolveLinks? && op.path == p
  }

  ghost predicate SameFor(t: Tables, u: Tables, p: string) {
    && (p in t.documents <==> p in u.documents)
    && (p in t.documents ==> t.documents[p] == u.documents[p])
    && ChunksOf(t, p) == ChunksOf(u, p)
    && LinksOf(t, p).Keys == LinksOf(u, p).Keys
  }

  lemma OthersKept(lib: PathLib, t: Tables, op: Op, p: string)
    requires !Touches(op, p)
    ensures SameFor(t, Apply(lib, t, op), p)
  {
    OtherChunksKept(lib, t, op, p);
    OtherLinksKept(lib, t, op, p);
    hide Target, ChunkRows, LinkKeys, ChunksOf, LinksOf, ReplaceChunks, ReplaceLinks;
  }

  lemma OtherChunksKept(lib: PathLib, t: Tables, op: Op, p: string)
    requires !Touches(op, p)
    ensures ChunksOf(t, p) == ChunksOf(Apply(lib, t, op), p)
  {
    hide Target, ChunkRows, LinkKeys, ReplaceLinks;
  }

  lemma OtherLinksKept(lib: PathLib, t: Tables, op: Op, p: string)
    requires !Touches(op, p)
    ensures LinksOf(t, p).Keys == LinksOf(Apply(lib, t, op), p).Keys
  {
    hide Target, ChunkRows, LinkKeys, ReplaceChunks;
  }

  lemma UpsertFits(env: Env, t: Tables, p: string, content: string, doc: Parsed, commit: string)
    requires env.parse(p, content) == Parses(doc) && DistinctIds(doc.chunks)
    ensures Fits(env, Apply(env.lib, t, Upsert(p, content, doc, commit)), p, content)
  {
    hide Target, DistinctIds;
    var rows, keys := ChunkRows(p, doc.meta.title, doc.chunks), LinkKeys(p, doc.links);
    hide ChunkRows, LinkKeys;
    var u := Apply(env.lib, t, Upsert(p, content, doc, commit));
    assert ChunksOf(u, p) == rows;
    assert LinksOf(u, p).Keys == keys;
  }

  /** What keeps the invariant: a document is stored as it parses, and links are dropped only once
      their document is gone. */
  ghost predicate Sound(env: Env, t: Tables, op: Op) {
    match op
    case Upsert(p, content, doc, _) => env.parse(p, content) == Parses(doc) && DistinctIds(doc.chunks)
    case DeleteLinks(p) => p !in t.documents
    case _ => true
  }

  lemma StatementKeepsInv(env: Env, t: Tables, op: Op)
    requires Inv(env, t) && Sound(env, t, op)
    ensures Inv(env, Apply(env.lib, t, op))
  {
    var u := Apply(env.lib, t, op);
    forall p | p in u.documents ensures RowFits(env, u, p) {
      if Touches(op, p) {
        assert op.Upsert?;
        UpsertFits(env, t, p, op.content, op.doc, op.commit);
        assert u.documents[p].hash == op.content;
      } else {
        OthersKept(env.lib, t, op, p);
        assert RowFits(env, t, p);
      }
    }
    ChunksOwned(env, t, op);
  }

  lemma ChunksOwned(env: Env, t: Tables, op: Op)
    requires Inv(env, t)
    ensures var u := Apply(env.lib, t, op); forall id :: id in u.chunks ==> id.path in u.documents
  {
    hide RowFits, Target;
  }

  // ----- the first loop: files that changed -----

  /** One of the first n files has this path. */
  ghost predicate Among(files: seq<File>, n: nat, p: string) {
    exists i :: 0 <= i < n && i < |files| && files[i].path == p
  }

  /** Link rows whose document is not stored. */
  ghost function Orphans(t: Tables): set<LinkKey> {
    set k | k in t.links && k.from !in t.documents
  }

  ghost predicate Upserted(env: Env, t: Tables, files: seq<File>, n: nat, u: Tables) {
    && Inv(env, u)
    && (forall i :: 0 <= i < n && i < |files| ==> UpToDate(u, files[i]))
    && (forall p :: p in u.documents <==> p in t.documents || Among(files, n, p))
    && (forall p :: p in t.documents && !Among(files, n, p) ==> u.documents[p] == t.documents[p])
    && (forall k :: k in Orphans(u) <==> k in Orphans(t) && !Among(files, n, k.from))
  }

  lemma {:induction false} AfterUpserts(env: Env, t: Tables, files: seq<File>, n: nat, force: bool, commit: string)
    requires Walk(files) && Inv(env, t) && n <= |files|
    requires forall i :: 0 <= i < n ==> !Stops(env, t, files[i], force)
    ensures Upserted(env, t, files, n, ApplyAll(env.lib, t, Upserts(env, t, files, n, force, commit)))
  {
    hide Inv, Stops, Apply, UpToDate, Walk;
    if n > 0 {
      AfterUpserts(env, t, files, n - 1, force, commit);
      var before := Upserts(env, t, files, n - 1, force, commit);
      var u := ApplyAll(env.lib, t, before);
      var f := files[n - 1];
      NotAgain(files, n);
      assert !Stops(env, t, f, force);
      if Skips(t, f, force) {
        assert before == Upserts(env, t, files, n, force, commit) by {
          assert before + [] == before;
        }
        SkipStep(env, t, files, n, u);
      } else {
        NotStopped(env, t, f, force);
        var op := Upsert(f.path, f.content, env.parse(f.path, f.content).doc, commit);
        ApplySnoc(env.lib, t, before, op);
        UpsertStep(env, t, files, n, u, commit);
      }
    }
  }

  lemma NotStopped(env: Env, t: Tables, f: File, force: bool)
    requires !Stops(env, t, f, force) && !Skips(t, f, force)
    ensures env.parse(f.path, f.content).Parses? && DistinctIds(env.parse(f.path, f.content).doc.chunks)
  {
  }

  lemma NotAgain(files: seq<File>, n: nat)
    requires Walk(files) && 0 < n <= |files|
    ensures !Among(files, n - 1, files[n - 1].path)
    ensures forall p :: Among(files, n, p) <==> Among(files, n - 1, p) || p == files[n - 1].path
  {
    forall p | Among(files, n - 1, p) ensures Among(files, n, p) {
      var i :| 0 <= i < n - 1 && files[i].path == p;
    }
    assert files[n - 1].path == files[n - 1].path && Among(files, n, files[n - 1].path);
  }

  /** An unchanged file is passed over: its row is the one an upsert would write. */
  lemma SkipStep(env: Env, t: Tables, files: seq<File>, n: nat, u: Tables)
    requires Walk(files) && 0 < n <= |files| && Upserted(env, t, files, n - 1, u) && UpToDate(t, files[n - 1])
    ensures Upserted(env, t, files, n, u)
  {
    hide Inv, Walk;
    NotAgain(files, n);
    hide Among;
    assert UpToDate(u, files[n - 1]);
  }

  lemma UpsertStep(env: Env, t: Tables, files: seq<File>, n: nat, u: Tables, commit: string)
    requires Walk(files) && 0 < n <= |files| && Upserted(env, t, files, n - 1, u)
    requires var f := files[n - 1]; env.parse(f.path, f.content).Parses? && DistinctIds(env.parse(f.path, f.content).doc.chunks)
    ensures var f := files[n - 1];
      Upserted(env, t, files, n, Apply(env.lib, u, Upsert(f.path, f.content, env.parse(f.path, f.content).doc, commit)))
  {
    hide Inv, Walk, DistinctIds, Apply, Orphans, Among;
    var f := files[n - 1];
    var op := Upsert(f.path, f.content, env.parse(f.path, f.content).doc, commit);
    var v := Apply(env.lib, u, op);
    StatementKeepsInv(env, u, op);
    NotAgain(files, n);
    UpsertRows(env.lib, u, op);
    UpsertOrphans(env.lib, u, op);
    forall i | 0 <= i < n ensures UpToDate(v, files[i]) {
      if i < n - 1 {
        IsAmong(files, n - 1, i);
        assert UpToDate(u, files[i]);
      }
    }
    hide UpToDate;
  }

  lemma IsAmong(files: seq<File>, n: nat, i: nat)
    requires i < n <= |files|
    ensures Among(files, n, files[i].path)
  {}

  lemma UpsertRows(lib: PathLib, u: Tables, op: Op)
    requires op.Upsert?
    ensures Apply(lib, u, op).documents == u.documents[op.path := DocRow(op.doc.meta, op.content, op.commit, LINKS_VERSION)]
  {
    hide Target, ChunkRows, LinkKeys, ReplaceChunks, ReplaceLinks;
  }

  lemma UpsertOrphans(lib: PathLib, u: Tables, op: Op)
    requires op.Upsert?
    ensures forall k :: k in Orphans(Apply(lib, u, op)) <==> k in Orphans(u) && k.from != op.path
  {
    hide Target, ChunkRows, LinkKeys, ReplaceChunks;
  }

  // ----- the second loop: documents that disappeared -----

  ghost predicate Deleted(env: Env, t: Tables, stale: seq<string>, u: Tables) {
    && Inv(env, u)
    && (forall p :: p in u.documents <==> p in t.documents && p !in stale)
    && (forall p :: p in u.documents ==> u.documents[p] == t.documents[p])
    && Orphans(u) == Orphans(t)
  }

  lemma {:induction false} AfterDeletes(env: Env, t: Tables, stale: seq<string>)
    requires Inv(env, t) && Distinct(stale) && forall p :: p in stale ==> p in t.documents
    ensures Deleted(env, t, stale, ApplyAll(env.lib, t, Deletes(stale)))
  {
    hide Inv, Apply;
    if stale != [] {
      var p, rest := stale[|stale| - 1], stale[..|stale| - 1];
      assert stale == rest + [p] && p !in rest;
      AfterDeletes(env, t, rest);
      var u := ApplyAll(env.lib, t, Deletes(rest));
      DeleteStep(env, t, rest, u, p);
      ApplySnoc(env.lib, t, Deletes(rest), DeleteDocument(p));
      ApplySnoc(env.lib, t, Deletes(rest) + [DeleteDocument(p)], DeleteLinks(p));
      assert Deletes(rest) + [DeleteDocument(p)] + [DeleteLinks(p)] == Deletes(stale);
    }
  }

  lemma DeleteStep(env: Env, t: Tables, rest: seq<string>, u: Tables, p: string)
    requires Deleted(env, t, rest, u) && p in t.documents && p !in rest
    ensures Inv(env, Apply(env.lib, u, DeleteDocument(p)))
    ensures Deleted(env, t, rest + [p], Apply(env.lib, Apply(env.lib, u, DeleteDocument(p)), DeleteLinks(p)))
  {
    hide Inv, Target, ReplaceChunks;
    var v := Apply(env.lib, u, DeleteDocument(p));
    StatementKeepsInv(env, u, DeleteDocument(p));
    StatementKeepsInv(env, v, DeleteLinks(p));
    var w := Apply(env.lib, v, DeleteLinks(p));
    assert Orphans(w) == Orphans(u);
  }

  // ----- a run -----

  /** One run over the files on disk: it ends early after cut statements, or at a file that stops it.
      The stale documents may come in any order. */
  datatype Run = Run(files: seq<File>, force: bool, commit: string, stale: seq<string>, cut: nat)

  ghost predicate Possible(t: Tables, r: Run) {
    Walk(r.files) && IsStale(t, r.files, r.stale)
  }

  /** The first of the first n files that stops the run, or n. */
  function FirstStop(env: Env, t: Tables, files: seq<File>, n: nat, force: bool): (r: nat)
    requires n <= |files|
    ensures r <= n && forall i :: 0 <= i < r ==> !Stops(env, t, files[i], force)
    ensures r < n ==> Stops(env, t, files[r], force)
  {
    if n == 0 then 0
    else
      var r := FirstStop(env, t, files, n - 1, force);
      if r == n - 1 && !Stops(env, t, files[n - 1], force) then n else r
  }

  /** The statements a run applies if it is not cut. */
  function Statements(env: Env, t: Tables, r: Run): seq<Op> {
    var stop := FirstStop(env, t, r.files, |r.files|, r.force);
    if stop < |r.files| then Upserts(env, t, r.files, stop, r.force, r.commit)
    else Plan(env, t, r.files, r.force, r.commit, r.stale)
  }

  predicate Succeeds(env: Env, t: Tables, r: Run) {
    FirstStop(env, t, r.files, |r.files|, r.force) == |r.files| && |Statements(env, t, r)| <= r.cut
  }

  /** Those it does apply. */
  function Applied(env: Env, t: Tables, r: Run): seq<Op> {
    var ops := Statements(env, t, r);
    if |ops| <= r.cut then ops else ops[..r.cut]
  }

  ghost function After(env: Env, t: Tables, r: Run): Tables {
    ApplyAll(env.lib, t, Applied(env, t, r))
  }

  // ----- every run, complete or not, keeps the invariant -----

  ghost predicate SoundAll(env: Env, t: Tables, ops: seq<Op>) {
    ops == [] || (SoundAll(env, t, ops[..|ops| - 1]) && Sound(env, ApplyAll(env.lib, t, ops[..|ops| - 1]), ops[|ops| - 1]))
  }

  lemma {:induction false} SoundKeepsInv(env: Env, t: Tables, ops: seq<Op>, k: nat)
    requires Inv(env, t) && SoundAll(env, t, ops) && k <= |ops|
    ensures Inv(env, ApplyAll(env.lib, t, ops[..k]))
    decreases |ops|
  {
    hide Inv, Apply, Sound;
    if k < |ops| {
      var rest := ops[..|ops| - 1];
      SoundKeepsInv(env, t, rest, k);
      assert rest[..k] == ops[..k];
    } else if k > 0 {
      var rest := ops[..k - 1];
      SoundKeepsInv(env, t, rest, k - 1);
      assert rest[..k - 1] == rest && ops[..k] == ops;
      StatementKeepsInv(env, ApplyAll(env.lib, t, rest), ops[k - 1]);
    }
  }

  lemma {:induction false} SoundConcat(env: Env, t: Tables, a: seq<Op>, b: seq<Op>)
    requires SoundAll(env, t, a) && SoundAll(env, ApplyAll(env.lib, t, a), b)
    ensures SoundAll(env, t, a + b)
    decreases |b|
  {
    hide *;
    if b == [] {
      assert a + b == a;
    } else {
      var l := |b| - 1;
      SoundLast(env, ApplyAll(env.lib, t, a), b);
      SoundConcat(env, t, a, b[..l]);
      ApplyConcat(env.lib, t, a, b[..l]);
      SoundSnoc(env, t, a + b[..l], b[l]);
      assert a + b == a + b[..l] + [b[l]];
    }
  }

  lemma SoundLast(env: Env, t: Tables, ops: seq<Op>)
    requires SoundAll(env, t, ops) && ops != []
    ensures SoundAll(env, t, ops[..|ops| - 1]) && Sound(env, ApplyAll(env.lib, t, ops[..|ops| - 1]), ops[|ops| - 1])
  {
    hide Sound, ApplyAll;
  }

  lemma SoundSnoc(env: Env, t: Tables, ops: seq<Op>, op: Op)
    requires SoundAll(env, t, ops) && Sound(env, ApplyAll(env.lib, t, ops), op)
    ensures SoundAll(env, t, ops + [op])
  {
    hide Sound, ApplyAll;
    assert (ops + [op])[..|ops|] == ops;
  }

  lemma {:induction false} UpsertsSound(env: Env, t: Tables, files: seq<File>, n: nat, force: bool, commit: string)
    requires n <= |files| && forall i :: 0 <= i < n ==> !Stops(env, t, files[i], force)
    ensures SoundAll(env, t, Upserts(env, t, files, n, force, commit))
  {
    hide Apply, ApplyAll, DistinctIds;
    if n > 0 {
      UpsertsSound(env, t, files, n - 1, force, commit);
      var before := Upserts(env, t, files, n - 1, force, commit);
      var all := Upserts(env, t, files, n, force, commit);
      assert before + [] == before;
      if all != before {
        assert all[..|all| - 1] == before;
      }
    }
  }

  lemma {:induction false} DeletesSound(env: Env, t: Tables, stale: seq<string>)
    ensures SoundAll(env, t, Deletes(stale))
  {
    if stale != [] {
      var p, rest := stale[|stale| - 1], stale[..|stale| - 1];
      DeletesSound(env, t, rest);
      var one := Deletes(rest) + [DeleteDocument(p)];
      assert one[..|one| - 1] == Deletes(rest);
      ApplySnoc(env.lib, t, Deletes(rest), DeleteDocument(p));
      assert SoundAll(env, t, one);
      var two := one + [DeleteLinks(p)];
      assert two[..|two| - 1] == one;
      assert two == Deletes(stale);
    }
  }

  lemma StatementsSound(env: Env, t: Tables, r: Run)
    ensures SoundAll(env, t, Statements(env, t, r))
  {
    hide Apply, ApplyAll, Stops, Upserts, Deletes, Inv;
    var stop := FirstStop(env, t, r.files, |r.files|, r.force);
    var a := Upserts(env, t, r.files, stop, r.force, r.commit);
    UpsertsSound(env, t, r.files, stop, r.force, r.commit);
    var b := Deletes(r.stale);
    DeletesSound(env, ApplyAll(env.lib, t, a), r.stale);
    SoundConcat(env, t, a, b);
    assert (a + b + [ResolveLinks])[..|a + b|] == a + b;
  }

  /** Whatever stops a run, and wherever it is cut, it leaves the invariant standing. */
  lemma RunKeepsInv(env: Env, t: Tables, r: Run)
    requires Inv(env, t)
    ensures Inv(env, After(env, t, r))
  {
    hide Inv, Statements, ApplyAll;
    var ops := Statements(env, t, r);
    StatementsSound(env, t, r);
    var k := if |ops| <= r.cut then |ops| else r.cut;
    SoundKeepsInv(env, t, ops, k);
    assert ops[..|ops|] == ops;
  }

  // ----- what a run that succeeds leaves -----

  /** The tables hold exactly these files. */
  ghost predicate Synced(env: Env, t: Tables, files: seq<File>) {
    && Inv(env, t)
    && (forall p :: p in t.documents <==> Among(files, |files|, p))
    && (forall i :: 0 <= i < |files| ==> UpToDate(t, files[i]))
  }

  ghost predicate Resolved(lib: PathLib, t: Tables) {
    forall k :: k in t.links ==> t.links[k] == Target(lib, t.documents.Keys, k)
  }

  lemma SuccessSyncs(env: Env, t: Tables, r: Run)
    requires Inv(env, t) && Possible(t, r) && Succeeds(env, t, r)
    ensures Synced(env, After(env, t, r), r.files)
    ensures forall k :: k in Orphans(After(env, t, r)) <==> k in Orphans(t) && !Among(r.files, |r.files|, k.from)
    ensures Statements(env, t, r) != [] ==> Resolved(env.lib, After(env, t, r))
    ensures Statements(env, t, r) == [] ==> After(env, t, r) == t
  {
    hide Apply, ApplyAll, Stops, Upserts, Deletes, Inv, IsStale, UpToDate, Among, Orphans, Walk, Resolved;
    var n := |r.files|;
    var a, b := Upserts(env, t, r.files, n, r.force, r.commit), Deletes(r.stale);
    AfterUpserts(env, t, r.files, n, r.force, r.commit);
    var u := ApplyAll(env.lib, t, a);
    StaleInDocuments(env, t, r, u);
    AfterDeletes(env, u, r.stale);
    var v := ApplyAll(env.lib, u, b);
    ApplyConcat(env.lib, t, a, b);
    BothLoops(env, t, r, u, v);
    if a + b != [] {
      ApplySnoc(env.lib, t, a + b, ResolveLinks);
      LastStep(env, v, r.files);
    } else {
      Nothing(env.lib, t);
    }
  }

  /** The tables hold these files and nothing else: a document row for each with its content and what
      it parses to, its chunks and links row by row, and no row of any other document among the chunks. */
  ghost predicate Holds(env: Env, t: Tables, files: seq<File>) {
    && (forall p :: p in t.documents ==> exists i :: 0 <= i < |files| && files[i].path == p)
    && (forall id :: id in t.chunks ==> exists i :: 0 <= i < |files| && files[i].path == id.path)
    && (forall i :: 0 <= i < |files| ==> HoldsFile(env, t, files[i]))
  }

  ghost predicate HoldsFile(env: Env, t: Tables, f: File) {
    var parse := env.parse(f.path, f.content);
    && parse.Parses?
    && f.path in t.documents && t.documents[f.path].hash == f.content && t.documents[f.path].meta == parse.doc.meta
    && HoldsRows(t, f.path, parse.doc)
  }

  lemma SyncedHolds(env: Env, t: Tables, files: seq<File>)
    requires Synced(env, t, files)
    ensures Holds(env, t, files)
  {
    hide HoldsRows, ChunkRows, LinkKeys, ChunksOf, LinksOf, DistinctIds;
    forall i | 0 <= i < |files| ensures HoldsFile(env, t, files[i]) {
      var f := files[i];
      assert Among(files, |files|, f.path) && UpToDate(t, f);
      assert RowFits(env, t, f.path);
      RowsHeld(t, f.path, env.parse(f.path, f.content).doc);
    }
  }

  /** Whatever was stored before, a run that succeeds leaves exactly its files, row by row. */
  lemma SuccessHolds(env: Env, t: Tables, r: Run)
    requires Inv(env, t) && Possible(t, r) && Succeeds(env, t, r)
    ensures Holds(env, After(env, t, r), r.files)
  {
    hide Inv, Possible, Succeeds, After, Synced, Holds, Orphans, Among, Statements, Resolved;
    SuccessSyncs(env, t, r);
    SyncedHolds(env, After(env, t, r), r.files);
  }

  lemma Nothing(lib: PathLib, t: Tables)
    ensures ApplyAll(lib, t, []) == t
  {
  }

  lemma StaleInDocuments(env: Env, t: Tables, r: Run, u: Tables)
    requires Possible(t, r) && Upserted(env, t, r.files, |r.files|, u)
    ensures Distinct(r.stale) && forall p :: p in r.stale ==> p in u.documents
  {
    hide Inv, UpToDate, Walk, Orphans;
  }

  lemma BothLoops(env: Env, t: Tables, r: Run, u: Tables, v: Tables)
    requires Possible(t, r) && Upserted(env, t, r.files, |r.files|, u) && Deleted(env, u, r.stale, v)
    ensures Synced(env, v, r.files)
    ensures forall k :: k in Orphans(v) <==> k in Orphans(t) && !Among(r.files, |r.files|, k.from)
  {
    hide Inv, Walk, Orphans;
    forall p ensures p in v.documents <==> Among(r.files, |r.files|, p) {
    }
    forall i | 0 <= i < |r.files| ensures UpToDate(v, r.files[i]) {
      assert UpToDate(u, r.files[i]) && Among(r.files, |r.files|, r.files[i].path);
    }
  }

  lemma LastStep(env: Env, v: Tables, files: seq<File>)
    requires Synced(env, v, files)
    ensures var w := Apply(env.lib, v, ResolveLinks); Synced(env, w, files) && Resolved(env.lib, w) && Orphans(w) == Orphans(v)
  {
    hide Inv, Among, Target;
    StatementKeepsInv(env, v, ResolveLinks);
  }

  // ----- an incremental run against building from nothing -----

  /** Equal documents and chunks.  The commit column is left out: it says which run wrote the row. */
  ghost predicate SameDocuments(t: Tables, u: Tables) {
    && t.documents.Keys == u.documents.Keys
    && (forall p :: p in t.documents ==> t.documents[p].meta == u.documents[p].meta && t.documents[p].hash == u.documents[p].hash)
    && t.chunks == u.chunks
  }

  lemma SyncedAgree(env: Env, t: Tables, u: Tables, files: seq<File>)
    requires Synced(env, t, files) && Synced(env, u, files)
    ensures SameDocuments(t, u)
    ensures forall p :: p in t.documents ==> LinksOf(t, p).Keys == LinksOf(u, p).Keys
  {
    hide Inv, UpToDate, Fits;
    forall p | p in t.documents
      ensures p in u.documents && t.documents[p].meta == u.documents[p].meta && t.documents[p].hash == u.documents[p].hash
      ensures ChunksOf(t, p) == ChunksOf(u, p) && LinksOf(t, p).Keys == LinksOf(u, p).Keys
    {
      var i :| 0 <= i < |files| && files[i].path == p;
      assert Among(files, |files|, p);
      StoredFits(env, t, files[i]);
      StoredFits(env, u, files[i]);
      FitsAgree(env, t, u, p, files[i].content);
    }
    hide Among;
    ChunksAgree(env, t, u);
  }

  lemma StoredFits(env: Env, t: Tables, f: File)
    requires Inv(env, t) && UpToDate(t, f)
    ensures Fits(env, t, f.path, f.content) && t.documents[f.path].hash == f.content
  {
    assert RowFits(env, t, f.path);
  }

  lemma FitsAgree(env: Env, t: Tables, u: Tables, p: string, content: string)
    requires p in t.documents && p in u.documents && Fits(env, t, p, content) && Fits(env, u, p, content)
    ensures t.documents[p].meta == u.documents[p].meta
    ensures ChunksOf(t, p) == ChunksOf(u, p) && LinksOf(t, p).Keys == LinksOf(u, p).Keys
  {
    hide ChunkRows, LinkKeys, ChunksOf, LinksOf, DistinctIds;
  }

  lemma ChunksAgree(env: Env, t: Tables, u: Tables)
    requires Inv(env, t) && Inv(env, u) && t.documents.Keys == u.documents.Keys
    requires forall p :: p in t.documents ==> ChunksOf(t, p) == ChunksOf(u, p)
    ensures t.chunks == u.chunks
  {
    hide RowFits;
    forall id ensures (id in t.chunks <==> id in u.chunks) && (id in t.chunks ==> t.chunks[id] == u.chunks[id]) {
      if id in t.chunks || id in u.chunks {
        assert id.path in t.documents;
        assert id in t.chunks <==> id in ChunksOf(t, id.path);
        assert id in u.chunks <==> id in ChunksOf(u, id.path);
      }
    }
  }

  /** A file is stored again with the same outcome whatever is in the tables. */
  predicate Loads(env: Env, f: File) {
    var p := env.parse(f.path, f.content);
    p.Parses? && DistinctIds(p.doc.chunks)
  }

  lemma StopsIff(env: Env, t: Tables, f: File, force: bool)
    requires Inv(env, t)
    ensures Stops(env, t, f, force) <==> !Loads(env, f)
  {
    hide Inv, DistinctIds;
    if UpToDate(t, f) {
      StoredFits(env, t, f);
    }
  }

  /** Whether a run gets through depends on the files alone. */
  lemma SucceedsIff(env: Env, t: Tables, r: Run)
    requires Inv(env, t)
    ensures Succeeds(env, t, r) <==>
      (forall i :: 0 <= i < |r.files| ==> Loads(env, r.files[i])) && |Statements(env, t, r)| <= r.cut
  {
    hide Inv, Statements, Loads, Stops;
    var stop := FirstStop(env, t, r.files, |r.files|, r.force);
    forall i | 0 <= i < |r.files| ensures Stops(env, t, r.files[i], r.force) <==> !Loads(env, r.files[i]) {
      StopsIff(env, t, r.files[i], r.force);
    }
  }

  lemma EmptyInv(env: Env)
    ensures Inv(env, EMPTY) && Orphans(EMPTY) == {} && Resolved(env.lib, EMPTY)
  {
  }

  /** anew is an uncut run on an empty store over the files of r. */
  ghost predicate Rebuild(env: Env, r: Run, anew: Run) {
    Possible(EMPTY, anew) && anew.files == r.files && |Statements(env, EMPTY, anew)| <= anew.cut
  }

  /** After a run that succeeds, on tables that any earlier runs may have left, documents and chunks
      are those of a run on an empty store, which succeeds as well. */
  lemma RunAgrees(env: Env, t: Tables, r: Run, anew: Run)
    requires Inv(env, t) && Possible(t, r) && Succeeds(env, t, r) && Rebuild(env, r, anew)
    ensures Succeeds(env, EMPTY, anew)
    ensures SameDocuments(After(env, t, r), After(env, EMPTY, anew))
    ensures var a, b := After(env, t, r), After(env, EMPTY, anew);
      forall p :: p in a.documents ==> LinksOf(a, p).Keys == LinksOf(b, p).Keys
  {
    hide Inv, Statements, Succeeds, After, Loads, SameDocuments, Synced, LinksOf;
    EmptyInv(env);
    SucceedsIff(env, t, r);
    SucceedsIff(env, EMPTY, anew);
    SuccessSyncs(env, t, r);
    SuccessSyncs(env, EMPTY, anew);
    SyncedAgree(env, After(env, t, r), After(env, EMPTY, anew), r.files);
  }

  lemma FreshLinks(env: Env, anew: Run)
    requires Possible(EMPTY, anew) && Succeeds(env, EMPTY, anew)
    ensures Resolved(env.lib, After(env, EMPTY, anew)) && Orphans(After(env, EMPTY, anew)) == {}
  {
    hide Statements, Succeeds, After, Possible, Target;
    EmptyInv(env);
    SuccessSyncs(env, EMPTY, anew);
  }

  /** Links agree as well exactly when no row outlived its document and every row is resolved. */
  lemma LinksAgreeIff(lib: PathLib, t: Tables, u: Tables)
    requires t.documents.Keys == u.documents.Keys
    requires forall p :: p in t.documents ==> LinksOf(t, p).Keys == LinksOf(u, p).Keys
    requires Resolved(lib, u) && Orphans(u) == {}
    ensures t.links == u.links <==> Orphans(t) == {} && Resolved(lib, t)
  {
    hide Target;
    forall k: LinkKey ensures k.from in t.documents ==> (k in t.links <==> k in u.links) {
      if k.from in t.documents {
        assert k in t.links <==> k in LinksOf(t, k.from).Keys;
        assert k in u.links <==> k in LinksOf(u, k.from).Keys;
      }
    }
    assert t.links == u.links ==> Orphans(t) == Orphans(u);
    if Orphans(t) == {} && Resolved(lib, t) {
      forall k: LinkKey ensures k in t.links <==> k in u.links {
        assert k !in Orphans(t) && k !in Orphans(u);
      }
    }
  }

  /** The links of a run that succeeds are those of a rebuild exactly when every link row it found
      belonged to a stored document or to a file, and it changed something or found them resolved.
      ResolveLinks is not called by a run that changed nothing. */
  lemma LinksAgreeAfterRunIff(env: Env, t: Tables, r: Run, anew: Run)
    requires Inv(env, t) && Possible(t, r) && Succeeds(env, t, r) && Rebuild(env, r, anew)
    ensures After(env, t, r).links == After(env, EMPTY, anew).links <==>
      && (forall k :: k in t.links ==> k.from in t.documents || Among(r.files, |r.files|, k.from))
      && (Statements(env, t, r) != [] || Resolved(env.lib, t))
  {
    hide Inv, Statements, Succeeds, After, Possible, LinksOf, Among, Rebuild, Synced, Resolved;
    var a, b := After(env, t, r), After(env, EMPTY, anew);
    RunAgrees(env, t, r, anew);
    RebuildPossible(env, r, anew);
    FreshLinks(env, anew);
    LinksAgreeIff(env.lib, a, b);
    SuccessSyncs(env, t, r);
    assert Orphans(a) == {} <==> forall k :: k in Orphans(t) ==> Among(r.files, |r.files|, k.from);
  }

  lemma RebuildPossible(env: Env, r: Run, anew: Run)
    requires Rebuild(env, r, anew)
    ensures Possible(EMPTY, anew)
  {
  }

  // ----- knowledge -----

  /** What the index fingerprint hashes. */
  function Knowledge(t: Tables): map<string, string> {
    map p | p in t.documents :: t.documents[p].hash
  }

  ghost predicate Scanned(t: Tables) {
    forall p :: p in t.documents ==> t.documents[p].linksScanned >= LINKS_VERSION
  }

  /** Documents and chunks, all that a search without vectors reads, are told by paths and contents. */
  lemma KnowledgeDetermines(env: Env, t: Tables, u: Tables)
    requires Inv(env, t) && Inv(env, u) && Scanned(t) && Scanned(u) && Knowledge(t) == Knowledge(u)
    ensures SameDocuments(t, u)
  {
    hide Fits, ChunksOf, LinksOf;
    assert t.documents.Keys == Knowledge(t).Keys == Knowledge(u).Keys == u.documents.Keys;
    forall p | p in t.documents
      ensures t.documents[p].meta == u.documents[p].meta && t.documents[p].hash == u.documents[p].hash
      ensures ChunksOf(t, p) == ChunksOf(u, p)
    {
      assert t.documents[p].hash == Knowledge(t)[p] == Knowledge(u)[p] == u.documents[p].hash;
      assert RowFits(env, t, p) && RowFits(env, u, p);
      FitsAgree(env, t, u, p, t.documents[p].hash);
    }
    ChunksAgree(env, t, u);
  }

  /** A run that succeeds leaves the knowledge that is on disk; one that had nothing to do leaves the
      knowledge it found. */
  lemma RunKnowledge(env: Env, t: Tables, r: Run)
    requires Inv(env, t) && Possible(t, r) && Succeeds(env, t, r)
    ensures Scanned(After(env, t, r))
    ensures forall i :: 0 <= i < |r.files| ==>
      r.files[i].path in Knowledge(After(env, t, r)) && Knowledge(After(env, t, r))[r.files[i].path] == r.files[i].content
    ensures forall p :: p in Knowledge(After(env, t, r)) ==> Among(r.files, |r.files|, p)
    ensures Statements(env, t, r) == [] ==> Knowledge(After(env, t, r)) == Knowledge(t)
  {
    hide Inv, Statements, Succeeds, After, Possible, Orphans, Resolved;
    SuccessSyncs(env, t, r);
    var u := After(env, t, r);
    forall p | p in u.documents ensures u.documents[p].linksScanned >= LINKS_VERSION {
      var i :| 0 <= i < |r.files| && r.files[i].path == p;
      assert UpToDate(u, r.files[i]);
    }
    forall i | 0 <= i < |r.files| ensures r.files[i].path in Knowledge(u) && Knowledge(u)[r.files[i].path] == r.files[i].content {
      assert UpToDate(u, r.files[i]);
    }
  }

  // ----- histories -----

  ghost function AfterAll(env: Env, t: Tables, runs: seq<Run>): Tables {
    if runs == [] then t else After(env, AfterAll(env, t, runs[..|runs| - 1]), runs[|runs| - 1])
  }

  /** Each run of the history is a run on the tables the earlier ones left. */
  ghost predicate History(env: Env, t: Tables, runs: seq<Run>) {
    runs != [] ==>
      var rest := runs[..|runs| - 1];
      History(env, t, rest) && Possible(AfterAll(env, t, rest), runs[|runs| - 1])
  }

  ghost predicate AllSucceed(env: Env, t: Tables, runs: seq<Run>) {
    runs != [] ==>
      var rest := runs[..|runs| - 1];
      AllSucceed(env, t, rest) && Succeeds(env, AfterAll(env, t, rest), runs[|runs| - 1])
  }

  lemma {:induction false} HistoryKeepsInv(env: Env, t: Tables, runs: seq<Run>)
    requires Inv(env, t)
    ensures Inv(env, AfterAll(env, t, runs))
    decreases |runs|
  {
    hide Inv, After;
    if runs != [] {
      HistoryKeepsInv(env, t, runs[..|runs| - 1]);
      RunKeepsInv(env, AfterAll(env, t, runs[..|runs| - 1]), runs[|runs| - 1]);
    }
  }

  /** Over any disk snapshots, forced runs or not, cut runs or not: if the last run succeeds, documents
      and chunks are those of a rebuild over the last snapshot. */
  lemma HistoryAgrees(env: Env, runs: seq<Run>, anew: Run)
    requires runs != [] && History(env, EMPTY, runs)
    requires Succeeds(env, AfterAll(env, EMPTY, runs[..|runs| - 1]), runs[|runs| - 1])
    requires Rebuild(env, runs[|runs| - 1], anew)
    ensures Succeeds(env, EMPTY, anew) && SameDocuments(AfterAll(env, EMPTY, runs), After(env, EMPTY, anew))
  {
    hide Inv, After, Succeeds, Rebuild, SameDocuments, Possible;
    EmptyInv(env);
    var rest := runs[..|runs| - 1];
    HistoryKeepsInv(env, EMPTY, rest);
    RunAgrees(env, AfterAll(env, EMPTY, rest), runs[|runs| - 1], anew);
  }

  lemma {:induction false} SuccessesResolve(env: Env, runs: seq<Run>)
    requires History(env, EMPTY, runs) && AllSucceed(env, EMPTY, runs)
    ensures Orphans(AfterAll(env, EMPTY, runs)) == {} && Resolved(env.lib, AfterAll(env, EMPTY, runs))
    decreases |runs|
  {
    hide Inv, After, Succeeds, Possible, Statements, Synced, Resolved;
    EmptyInv(env);
    if runs != [] {
      var rest := runs[..|runs| - 1];
      SuccessesResolve(env, rest);
      HistoryKeepsInv(env, EMPTY, rest);
      SuccessSyncs(env, AfterAll(env, EMPTY, rest), runs[|runs| - 1]);
    }
  }

  /** When every run succeeds, resolved links agree with a rebuild too. */
  lemma SuccessfulHistoryAgrees(env: Env, runs: seq<Run>, anew: Run)
    requires runs != [] && History(env, EMPTY, runs) && AllSucceed(env, EMPTY, runs)
    requires Rebuild(env, runs[|runs| - 1], anew)
    ensures SameDocuments(AfterAll(env, EMPTY, runs), After(env, EMPTY, anew))
    ensures AfterAll(env, EMPTY, runs).links == After(env, EMPTY, anew).links
  {
    hide Inv, After, Succeeds, Rebuild, Possible, Resolved, LinksOf;
    EmptyInv(env);
    var rest := runs[..|runs| - 1];
    var last := runs[|runs| - 1];
    HistoryKeepsInv(env, EMPTY, rest);
    RunAgrees(env, AfterAll(env, EMPTY, rest), last, anew);
    SuccessesResolve(env, runs);
    RebuildPossible(env, last, anew);
    FreshLinks(env, anew);
    LinksAgreeIff(env.lib, AfterAll(env, EMPTY, runs), After(env, EMPTY, anew));
  }

  /** A run that ended before ResolveLinks, then one that finds nothing to do: the link of a document
      to itself stays broken, where a rebuild resolves it. */
  lemma CutRunCanLeaveLinksBroken() returns (env: Env, runs: seq<Run>, anew: Run)
    ensures |runs| == 2 && History(env, EMPTY, runs) && Rebuild(env, runs[1], anew)
    ensures Succeeds(env, AfterAll(env, EMPTY, runs[..1]), runs[1])
    ensures AfterAll(env, EMPTY, runs).links != After(env, EMPTY, anew).links
  {
    hide Inv, Statements, After, Apply, Possible, Succeeds, Resolved, AfterAll, History;
    var doc := Parsed(Meta("", "", [], [], ""), [], [Link("a.md", Markdown)]);
    env := Env((_, _) => Parses(doc), PathLib((_, target) => target, p => p));
    var files := [File("a.md", "")];
    var cut, again := Run(files, false, "", [], 1), Run(files, false, "", [], 0);
    runs, anew := [cut, again], Run(files, false, "", [], 2);
    var t := Apply(env.lib, EMPTY, Upsert("a.md", "", doc, ""));
    StoredOnly(env, doc, cut);
    StoredOnly(env, doc, anew);
    FoundStored(env, doc, again);
    TwoRuns(env, cut, again);
    EmptyInv(env);
    StatementKeepsInv(env, EMPTY, Upsert("a.md", "", doc, ""));
    Unresolved(env, doc);
    LinksAgreeAfterRunIff(env, t, again, anew);
  }

  lemma TwoRuns(env: Env, a: Run, b: Run)
    requires Possible(EMPTY, a) && Possible(After(env, EMPTY, a), b)
    ensures History(env, EMPTY, [a, b])
    ensures AfterAll(env, EMPTY, [a, b][..1]) == After(env, EMPTY, a)
    ensures AfterAll(env, EMPTY, [a, b]) == After(env, After(env, EMPTY, a), b)
  {
    hide Possible, After;
    assert [a, b][..1] == [a] && [a][..0] == [];
    assert History(env, EMPTY, [a]);
  }

  lemma StoredOnly(env: Env, doc: Parsed, r: Run)
    requires env.parse("a.md", "") == Parses(doc) && doc.chunks == []
    requires r.files == [File("a.md", "")] && !r.force && r.commit == "" && r.stale == []
    ensures Possible(EMPTY, r) && |Statements(env, EMPTY, r)| == 2
    ensures r.cut == 1 ==> After(env, EMPTY, r) == Apply(env.lib, EMPTY, Upsert("a.md", "", doc, ""))
  {
    hide Apply;
    var op := Upsert("a.md", "", doc, "");
    assert Upserts(env, EMPTY, r.files, 1, false, "") == [op];
    assert Deletes([]) == [];
    assert Statements(env, EMPTY, r) == [op, ResolveLinks];
    assert [op, ResolveLinks][..1] == [] + [op];
    ApplySnoc(env.lib, EMPTY, [], op);
  }

  lemma FoundStored(env: Env, doc: Parsed, r: Run)
    requires env.parse("a.md", "") == Parses(doc) && doc.chunks == []
    requires r.files == [File("a.md", "")] && !r.force && r.stale == []
    ensures var t := Apply(env.lib, EMPTY, Upsert("a.md", "", doc, ""));
      Possible(t, r) && Succeeds(env, t, r) && Statements(env, t, r) == []
  {
    hide Target, ChunkRows, LinkKeys, ReplaceChunks, ReplaceLinks;
    var t := Apply(env.lib, EMPTY, Upsert("a.md", "", doc, ""));
    assert UpToDate(t, r.files[0]);
    assert Upserts(env, t, r.files, 1, false, r.commit) == [];
    assert Deletes([]) == [];
  }

  lemma NothingTrimmed()
    ensures TrimSpace("a.md") == "a.md"
  {}

  lemma Unresolved(env: Env, doc: Parsed)
    requires doc.links == [Link("a.md", Markdown)] && forall from, target :: env.lib.join(from, target) == target
    ensures !Resolved(env.lib, Apply(env.lib, EMPTY, Upsert("a.md", "", doc, "")))
  {
    hide Target, ChunkRows, ReplaceChunks, TrimSpace;
    var t := Apply(env.lib, EMPTY, Upsert("a.md", "", doc, ""));
    var k := LinkKey("a.md", Markdown, "a.md");
    assert doc.links[..0] == [];
    assert LinkKeys("a.md", doc.links) == {k};
    NothingTrimmed();
    TargetIs(env.lib, t.documents.Keys, k, "a.md");
    assert k in t.links && t.links[k] == "";
  }
}
