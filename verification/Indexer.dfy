/** internal/indexer/indexer.go: one index run and the embedding of what it left out of date. */
module Indexer {
  import opened Sequences
  import opened Links
  import opened Tables
  import opened Index
  import opened Vectors
  import opened Storage

  const DEFAULT_BATCH := 16

  datatype Stats = Stats(scanned: nat, indexed: nat, skipped: nat, deleted: nat, chunks: nat)

  // ----- the statements so far are the start of the run's statements -----

  predicate Starts(ops: seq<Op>, all: seq<Op>) {
    |ops| <= |all| && ops == all[..|ops|]
  }

  lemma {:induction false} UpsertsStart(env: Env, t: Tables, files: seq<File>, i: nat, n: nat, force: bool, commit: string)
    requires i <= n <= |files|
    ensures Starts(Upserts(env, t, files, i, force, commit), Upserts(env, t, files, n, force, commit))
    decreases n
  {
    if i < n {
      UpsertsStart(env, t, files, i, n - 1, force, commit);
    }
  }

  lemma {:induction false} DeletesStart(stale: seq<string>, i: nat)
    requires i <= |stale|
    ensures Starts(Deletes(stale[..i]), Deletes(stale))
    decreases |stale|
  {
    if i < |stale| {
      var rest := stale[..|stale| - 1];
      DeletesStart(rest, i);
      assert rest[..i] == stale[..i];
    } else {
      assert stale[..i] == stale;
    }
  }

  /** A run that stops at file i, or is cut there, has stored the files before it and nothing else. */
  lemma StoppedAt(env: Env, t: Tables, r: Index.Run, i: nat)
    requires i <= |r.files| && forall k :: 0 <= k < i ==> !Stops(env, t, r.files[k], r.force)
    requires var ops := Upserts(env, t, r.files, i, r.force, r.commit);
      |ops| == r.cut || (|ops| <= r.cut && i < |r.files| && Stops(env, t, r.files[i], r.force))
    ensures After(env, t, r) == ApplyAll(env.lib, t, Upserts(env, t, r.files, i, r.force, r.commit))
    ensures i < |r.files| && Stops(env, t, r.files[i], r.force) ==> !Succeeds(env, t, r)
  {
    hide ApplyAll, Stops, Deletes, Upserts;
    var stop := FirstStop(env, t, r.files, |r.files|, r.force);
    UpsertsStart(env, t, r.files, i, stop, r.force, r.commit);
    var ops, all := Upserts(env, t, r.files, i, r.force, r.commit), Statements(env, t, r);
    assert Starts(ops, all);
    hide Statements;
    assert all[..|all|] == all;
  }

  lemma CutInDeletes(env: Env, t: Tables, r: Index.Run, ops: seq<Op>)
    requires forall k :: 0 <= k < |r.files| ==> !Stops(env, t, r.files[k], r.force)
    requires Starts(ops, Deletes(r.stale))
    requires |Upserts(env, t, r.files, |r.files|, r.force, r.commit)| + |ops| == r.cut
    ensures After(env, t, r) == ApplyAll(env.lib, t, Upserts(env, t, r.files, |r.files|, r.force, r.commit) + ops)
  {
    hide ApplyAll, Stops, Upserts, Deletes;
    var a, b := Upserts(env, t, r.files, |r.files|, r.force, r.commit), Deletes(r.stale);
    assert Starts(a + ops, a + b);
    assert Starts(a + ops, Statements(env, t, r));
    assert Statements(env, t, r)[..|Statements(env, t, r)|] == Statements(env, t, r);
  }

  lemma StaleExists(t: Tables, files: seq<File>) returns (stale: seq<string>)
    ensures IsStale(t, files, stale)
  {
    var gone := set p | p in t.documents && forall i :: 0 <= i < |files| ==> files[i].path != p;
    stale := SomeOrder(gone);
  }

  lemma {:induction false} SomeOrder(s: set<string>) returns (l: seq<string>)
    ensures Lists(l, s)
    decreases |s|
  {
    if s == {} {
      l := [];
    } else {
      var p :| p in s;
      l := SomeOrder(s - {p});
      l := l + [p];
    }
  }

  lemma StaleNow(t: Tables, files: seq<File>, present: set<string>, stale: seq<string>)
    requires present == PathsOf(files)
    requires Lists(stale, t.documents.Keys - present)
    ensures IsStale(t, files, stale)
  {
    forall p ensures p in present <==> exists i :: 0 <= i < |files| && files[i].path == p {
      if i :| 0 <= i < |files| && files[i].path == p {
        assert files[i] in files;
      }
    }
  }

  lemma IsPossible(t: Tables, r: Index.Run)
    requires Walk(r.files) && IsStale(t, r.files, r.stale)
    ensures Possible(t, r)
  {
  }

  lemma Current(t: Tables, f: File, force: bool)
    ensures Skips(t, f, force) <==>
      !force && f.path in t.documents && t.documents[f.path].hash == f.content && t.documents[f.path].linksScanned >= LINKS_VERSION
  {
  }

  lemma NothingYet(env: Env, t: Tables, files: seq<File>, force: bool, commit: string)
    ensures Upserts(env, t, files, 0, force, commit) == [] && ApplyAll(env.lib, t, []) == t
    ensures PathsOf(files[..0]) == {}
  {
  }

  lemma NoDeletes()
    ensures Deletes([]) == []
  {
  }

  /** What becomes of the next file: it stops the run, is passed over, or is stored. */
  lemma OneMoreFile(env: Env, t: Tables, files: seq<File>, i: nat, force: bool, commit: string)
    requires i < |files|
    ensures var f, parse := files[i], env.parse(files[i].path, files[i].content);
      var ops, more := Upserts(env, t, files, i, force, commit), Upserts(env, t, files, i + 1, force, commit);
      && (parse.ParseError? ==> Stops(env, t, f, force))
      && (parse.Parses? && Skips(t, f, force) ==> !Stops(env, t, f, force) && more == ops)
      && (parse.Parses? && !Skips(t, f, force) ==>
            && (Stops(env, t, f, force) <==> !DistinctIds(parse.doc.chunks))
            && more == ops + [Upsert(f.path, f.content, parse.doc, commit)]
            && ApplyAll(env.lib, t, more) == Apply(env.lib, ApplyAll(env.lib, t, ops), Upsert(f.path, f.content, parse.doc, commit)))
  {
    hide Apply, DistinctIds, ApplyAll;
    var f, parse := files[i], env.parse(files[i].path, files[i].content);
    var ops := Upserts(env, t, files, i, force, commit);
    assert ops + [] == ops;
    if parse.Parses? {
      ApplySnoc(env.lib, t, ops, Upsert(f.path, f.content, parse.doc, commit));
    }
  }

  lemma OneMoreDelete(env: Env, t: Tables, ops: seq<Op>, stale: seq<string>, j: nat)
    requires j < |stale|
    ensures var p, done := stale[j], Deletes(stale[..j]);
      && Deletes(stale[..j + 1]) == done + [DeleteDocument(p), DeleteLinks(p)]
      && Starts(done + [DeleteDocument(p)], Deletes(stale[..j + 1]))
      && ApplyAll(env.lib, t, ops + (done + [DeleteDocument(p)])) == ApplyAll(env.lib, ApplyAll(env.lib, t, ops + done), [DeleteDocument(p)])
      && ApplyAll(env.lib, t, ops + (done + [DeleteDocument(p), DeleteLinks(p)]))
           == ApplyAll(env.lib, ApplyAll(env.lib, t, ops + done), [DeleteDocument(p), DeleteLinks(p)])
  {
    hide ApplyAll;
    var p, done := stale[j], Deletes(stale[..j]);
    assert stale[..j + 1][..j] == stale[..j];
    assert ops + (done + [DeleteDocument(p)]) == ops + done + [DeleteDocument(p)];
    assert ops + (done + [DeleteDocument(p), DeleteLinks(p)]) == ops + done + [DeleteDocument(p), DeleteLinks(p)];
    ApplyConcat(env.lib, t, ops + done, [DeleteDocument(p)]);
    ApplyConcat(env.lib, t, ops + done, [DeleteDocument(p), DeleteLinks(p)]);
  }

  lemma FirstStopIsEnd(env: Env, t: Tables, r: Index.Run)
    requires forall k :: 0 <= k < |r.files| ==> !Stops(env, t, r.files[k], r.force)
    ensures FirstStop(env, t, r.files, |r.files|, r.force) == |r.files|
  {
    hide Stops;
  }

  lemma {:induction false} HowMany(stale: seq<string>)
    ensures |Deletes(stale)| == 2 * |stale|
  {
    if stale != [] {
      HowMany(stale[..|stale| - 1]);
    }
  }

  lemma NotEnough(env: Env, t: Tables, r: Index.Run, j: nat)
    requires FirstStop(env, t, r.files, |r.files|, r.force) == |r.files| && j < |r.stale|
    ensures r.cut < |Upserts(env, t, r.files, |r.files|, r.force, r.commit)| + |Deletes(r.stale[..j + 1])| ==> !Succeeds(env, t, r)
  {
    hide Upserts;
    DeletesStart(r.stale, j + 1);
  }

  /** What is left when both loops are done. */
  lemma LastStatement(env: Env, t: Tables, r: Index.Run)
    requires FirstStop(env, t, r.files, |r.files|, r.force) == |r.files|
    ensures var loops, all := Upserts(env, t, r.files, |r.files|, r.force, r.commit) + Deletes(r.stale), Statements(env, t, r);
      && (loops == [] <==> all == [])
      && (loops != [] ==> |all| == |loops| + 1)
      && (Succeeds(env, t, r) <==> |all| <= r.cut)
      && (Succeeds(env, t, r) && loops == [] ==> After(env, t, r) == ApplyAll(env.lib, t, loops))
      && (Succeeds(env, t, r) && loops != [] ==> After(env, t, r) == Apply(env.lib, ApplyAll(env.lib, t, loops), Op.ResolveLinks))
  {
    hide Upserts, Deletes, Apply, ApplyAll;
    var loops := Upserts(env, t, r.files, |r.files|, r.force, r.commit) + Deletes(r.stale);
    if loops != [] {
      ApplySnoc(env.lib, t, loops, Op.ResolveLinks);
    }
  }

  lemma CutShort(env: Env, t: Tables, r: Index.Run, i: nat)
    requires i < |r.files| && r.cut < |Upserts(env, t, r.files, i + 1, r.force, r.commit)|
    ensures !Succeeds(env, t, r)
  {
    hide Stops, Deletes;
    UpsertsStart(env, t, r.files, i + 1, |r.files|, r.force, r.commit);
    hide Upserts;
  }

  /** The files that are stored with this content already, under the current rules for links. */
  ghost function CurrentFiles(t: Tables, files: seq<File>, force: bool, n: nat): set<nat>
    requires n <= |files|
  {
    set i: nat | i < n && !force && files[i].path in t.documents && t.documents[files[i].path].hash == files[i].content
                 && t.documents[files[i].path].linksScanned >= LINKS_VERSION
  }

  lemma NoneCurrent(t: Tables, files: seq<File>, force: bool)
    ensures CurrentFiles(t, files, force, 0) == {}
  {}

  lemma OneMoreCurrent(t: Tables, files: seq<File>, force: bool, n: nat)
    requires n < |files|
    ensures var f := files[n];
      |CurrentFiles(t, files, force, n + 1)| == |CurrentFiles(t, files, force, n)|
        + if !force && f.path in t.documents && t.documents[f.path].hash == f.content && t.documents[f.path].linksScanned >= LINKS_VERSION
          then 1 else 0
  {
    var f, now := files[n], CurrentFiles(t, files, force, n);
    if !force && f.path in t.documents && t.documents[f.path].hash == f.content && t.documents[f.path].linksScanned >= LINKS_VERSION {
      assert CurrentFiles(t, files, force, n + 1) == now + {n};
    } else {
      assert CurrentFiles(t, files, force, n + 1) == now;
    }
  }

  lemma NoStatements(env: Env, t: Tables, r: Index.Run)
    ensures Upserts(env, t, r.files, |r.files|, r.force, r.commit) + Deletes(r.stale) == [] ==>
      ApplyAll(env.lib, t, Upserts(env, t, r.files, |r.files|, r.force, r.commit) + Deletes(r.stale)) == t
  {
    hide Upserts, Deletes;
  }

  /** The first loop.  left statements may still succeed. */
  method StoreChanged(st: Store, env: Env, files: seq<File>, force: bool, commit: string, cut: nat, ghost r: Index.Run)
    returns (ok: bool, stats: Stats, present: set<string>, left: nat)
    requires env.lib == st.lib && r.files == files && r.force == force && r.commit == commit && r.cut == cut
    modifies st`tables
    ensures !ok ==> !Succeeds(env, old(st.tables), r) && st.tables == After(env, old(st.tables), r)
    ensures ok ==>
      && present == PathsOf(files)
      && (forall k :: 0 <= k < |files| ==> !Stops(env, old(st.tables), files[k], force))
      && st.tables == ApplyAll(env.lib, old(st.tables), Upserts(env, old(st.tables), files, |files|, force, commit))
      && |Upserts(env, old(st.tables), files, |files|, force, commit)| == stats.indexed == cut - left
      && stats.scanned == stats.indexed + stats.skipped == |files| && stats.deleted == 0
      && stats.skipped == |CurrentFiles(old(st.tables), files, force, |files|)|
  {
    hide *;
    ghost var t := st.tables;
    var known := st.tables;
    stats, left, present := Stats(0, 0, 0, 0, 0), cut, {};
    var i := 0;
    NothingYet(env, t, files, force, commit);
    NoneCurrent(t, files, force);
    while i < |files|
      invariant 0 <= i <= |files| && present == PathsOf(files[..i])
      invariant forall k :: 0 <= k < i ==> !Stops(env, t, files[k], force)
      invariant st.tables == ApplyAll(env.lib, t, Upserts(env, t, files, i, force, commit))
      invariant |Upserts(env, t, files, i, force, commit)| == stats.indexed == cut - left
      invariant stats.scanned == i && stats.indexed + stats.skipped == i && stats.deleted == 0
      invariant stats.skipped == |CurrentFiles(t, files, force, i)|
    {
      OneMoreCurrent(t, files, force, i);
      var f := files[i];
      stats := stats.(scanned := i + 1);
      present := present + {f.path};
      OneMorePath(files, i);
      var parse := env.parse(f.path, f.content);
      OneMoreFile(env, t, files, i, force, commit);
      if parse.ParseError? {
        StoppedAt(env, t, r, i);
        return false, stats, present, left;
      }
      Current(t, f, force);
      if !force && f.path in known.documents && known.documents[f.path].hash == f.content
         && known.documents[f.path].linksScanned >= LINKS_VERSION {
        stats := stats.(skipped := stats.skipped + 1);
        i := i + 1;
        continue;
      }
      if left == 0 {
        StoppedAt(env, t, r, i);
        CutShort(env, t, r, i);
        return false, stats, present, left;
      }
      var stored := st.UpsertDocument(f.path, f.content, parse.doc, commit);
      if !stored {
        StoppedAt(env, t, r, i);
        return false, stats, present, left;
      }
      left := left - 1;
      stats := stats.(indexed := stats.indexed + 1, chunks := stats.chunks + |parse.doc.chunks|);
      i := i + 1;
    }
    assert files[..i] == files;
    ok := true;
  }

  function PathsOf(files: seq<File>): set<string> {
    set f | f in files :: f.path
  }

  lemma OneMorePath(files: seq<File>, i: nat)
    requires i < |files|
    ensures PathsOf(files[..i + 1]) == PathsOf(files[..i]) + {files[i].path}
  {
    assert files[..i + 1] == files[..i] + [files[i]];
  }

  /** The second loop. */
  method DeleteStale(st: Store, ghost env: Env, stale: seq<string>, budget: nat, ghost t: Tables, ghost r: Index.Run)
    returns (ok: bool, deleted: nat, left: nat)
    requires env.lib == st.lib && r.stale == stale
    requires forall k :: 0 <= k < |r.files| ==> !Stops(env, t, r.files[k], r.force)
    requires st.tables == ApplyAll(env.lib, t, Upserts(env, t, r.files, |r.files|, r.force, r.commit))
    requires |Upserts(env, t, r.files, |r.files|, r.force, r.commit)| == r.cut - budget
    modifies st`tables
    ensures !ok ==> !Succeeds(env, t, r) && st.tables == After(env, t, r)
    ensures ok ==>
      && deleted == |stale|
      && st.tables == ApplyAll(env.lib, t, Upserts(env, t, r.files, |r.files|, r.force, r.commit) + Deletes(stale))
      && |Deletes(stale)| == budget - left
  {
    hide *;
    ghost var upserts := Upserts(env, t, r.files, |r.files|, r.force, r.commit);
    deleted, left := 0, budget;
    assert stale[..0] == [] && upserts + [] == upserts;
    NoDeletes();
    FirstStopIsEnd(env, t, r);
    while deleted < |stale|
      invariant 0 <= deleted <= |stale|
      invariant st.tables == ApplyAll(env.lib, t, upserts + Deletes(stale[..deleted]))
      invariant |Deletes(stale[..deleted])| == budget - left
    {
      OneMoreDelete(env, t, upserts, stale, deleted);
      DeletesStart(stale, deleted);
      OneDeleteStarts(stale, deleted);
      NotEnough(env, t, r, deleted);
      if left == 0 {
        CutInDeletes(env, t, r, Deletes(stale[..deleted]));
        return false, deleted, left;
      }
      var gone := st.DeleteDocument(stale[deleted], left == 1);
      if !gone {
        CutInDeletes(env, t, r, Deletes(stale[..deleted]) + [DeleteDocument(stale[deleted])]);
        return false, deleted, left;
      }
      left := left - 2;
      deleted := deleted + 1;
    }
    assert stale[..deleted] == stale;
    ok := true;
  }

  lemma OneDeleteStarts(stale: seq<string>, j: nat)
    requires j < |stale|
    ensures Starts(Deletes(stale[..j]) + [DeleteDocument(stale[j])], Deletes(stale))
    ensures |Deletes(stale[..j + 1])| == |Deletes(stale[..j])| + 2
  {
    DeletesStart(stale, j + 1);
    var done := Deletes(stale[..j]);
    assert stale[..j + 1][..j] == stale[..j];
    assert Deletes(stale[..j + 1]) == done + [DeleteDocument(stale[j]), DeleteLinks(stale[j])];
    hide Deletes;
    var one := done + [DeleteDocument(stale[j])];
    assert one == Deletes(stale[..j + 1])[..|one|];
  }

  /** Indexes the files into the store.  Statements after the first cut fail, which ends the run; the
      store is then left as it is. */
  method Run(st: Store, env: Env, files: seq<File>, force: bool, commit: string, cut: nat)
    returns (ok: bool, stats: Stats, ghost r: Index.Run)
    requires env.lib == st.lib && Walk(files)
    modifies st`tables
    ensures r.files == files && r.force == force && r.commit == commit && r.cut == cut && Possible(old(st.tables), r)
    ensures ok <==> Succeeds(env, old(st.tables), r)
    ensures st.tables == After(env, old(st.tables), r)
    ensures ok ==> stats.scanned == stats.indexed + stats.skipped == |files| && stats.deleted == |r.stale|
    ensures ok ==> (stats.indexed > 0 || stats.deleted > 0 <==> Statements(env, old(st.tables), r) != [])
    ensures ok ==> stats.skipped == |CurrentFiles(old(st.tables), files, force, |files|)|
    ensures ok && Inv(env, old(st.tables)) ==> Holds(env, st.tables, files)
    ensures ok && (stats.indexed > 0 || stats.deleted > 0) ==>
      forall k :: k in st.tables.links ==> st.tables.links[k] == Target(env.lib, st.tables.documents.Keys, k)
    ensures ok && stats.indexed == 0 && stats.deleted == 0 ==> st.tables == old(st.tables)
  {
    hide *;
    ghost var t := st.tables;
    var known := st.tables.documents.Keys;
    ghost var someStale := StaleExists(t, files);
    r := Index.Run(files, force, commit, someStale, cut);
    IsPossible(t, r);
    var present, left;
    ok, stats, present, left := StoreChanged(st, env, files, force, commit, cut, r);
    if !ok {
      return;
    }
    var stale := InSomeOrder(known - present);
    r := r.(stale := stale);
    StaleNow(t, files, present, stale);
    IsPossible(t, r);
    var deleted;
    ok, deleted, left := DeleteStale(st, env, stale, left, t, r);
    stats := stats.(deleted := deleted);
    if !ok {
      return;
    }
    FirstStopIsEnd(env, t, r);
    HowMany(stale);
    LastStatement(env, t, r);
    if Succeeds(env, t, r) && Inv(env, t) {
      SuccessHolds(env, t, r);
    }
    NoStatements(env, t, r);
    if stats.indexed > 0 || stats.deleted > 0 {
      if left == 0 {
        DeletesStart(stale, |stale|);
        assert stale[..|stale|] == stale;
        CutInDeletes(env, t, r, Deletes(stale));
        ok := false;
        return;
      }
      st.ResolveLinks();
    }
  }

  // ----- embedding what is pending -----

  function BatchSize(n: int): (r: nat)
    ensures r > 0
  {
    if n <= 0 then DEFAULT_BATCH else n
  }

  lemma BatchSizeIs(n: int)
    ensures BatchSize(n) == if n <= 0 then 16 else n
  {}

  lemma PutNothing(embed: Embed, t: Tables, vectors: map<ChunkId, VectorRow>, model: string)
    ensures Put(embed, t, vectors, model, {}) == vectors
  {
    hide NewRow;
  }

  lemma PutTwice(embed: Embed, t: Tables, vectors: map<ChunkId, VectorRow>, model: string, a: set<ChunkId>, b: set<ChunkId>)
    requires a <= t.chunks.Keys && b <= t.chunks.Keys
    ensures Put(embed, t, Put(embed, t, vectors, model, a), model, b) == Put(embed, t, vectors, model, a + b)
  {
    hide NewRow;
  }

  lemma Batch(left: set<ChunkId>, ids: seq<ChunkId>)
    requires Distinct(ids)
    requires SetOf(ids) <= left
    ensures |SetOf(ids)| == |ids| && |left - SetOf(ids)| == |left| - |ids|
  {
    CountOf(ids);
  }

  lemma {:induction false} CountOf(ids: seq<ChunkId>)
    requires Distinct(ids)
    ensures |SetOf(ids)| == |ids|
    decreases |ids|
  {
    if ids != [] {
      var last, rest := ids[|ids| - 1], ids[..|ids| - 1];
      assert ids == rest + [last] && last !in rest;
      CountOf(rest);
      assert SetOf(ids) == SetOf(rest) + {last};
    }
  }

  lemma CaughtUp(embed: Embed, t: Tables, vectors: map<ChunkId, VectorRow>, model: string, ids: set<ChunkId>)
    requires ids == Pending(t, vectors, model) && ids <= t.chunks.Keys && Honest(embed, vectors) && Owned(t)
    ensures var now := Put(embed, t, Pruned(t, vectors), model, ids);
      AllLoaded(embed, t, LoadVectors(t, now, model), model)
  {
    hide Put, Pruned, Pending, Honest, Owned, LoadVectors, AllLoaded;
    PrunedPending(t, vectors, model);
    PutStaysHonest(embed, t, vectors, model, ids);
    PutStaysHonest(embed, t, Pruned(t, vectors), model, ids);
    PutShrinks(embed, t, Pruned(t, vectors), model, ids);
    LoadedIffNothingPending(embed, t, Put(embed, t, Pruned(t, vectors), model, ids), model);
  }

  /** done chunks of total in rounds batches. */
  ghost predicate InRounds(rounds: nat, batch: nat, done: nat, total: nat) {
    done <= total && done <= rounds * batch && (done == rounds * batch || done == total)
  }

  lemma NoRounds(batch: nat, total: nat)
    ensures InRounds(0, batch, 0, total)
  {
  }

  lemma OneMoreRound(rounds: nat, batch: nat, done: nat, total: nat, n: nat)
    requires InRounds(rounds, batch, done, total) && done < total
    requires n == if total - done < batch then total - done else batch
    ensures InRounds(rounds + 1, batch, done + n, total)
  {
    assert (rounds + 1) * batch == rounds * batch + batch;
  }

  lemma EnoughIff(rounds: nat, fuel: nat, batch: nat, done: nat, total: nat)
    requires InRounds(rounds, batch, done, total) && rounds <= fuel
    requires done == total || rounds == fuel
    ensures done == total <==> total <= fuel * batch
  {
    assert fuel * batch == rounds * batch + (fuel - rounds) * batch;
  }

  ghost predicate Embedding(embed: Embed, t: Tables, pruned: map<ChunkId, VectorRow>, now: map<ChunkId, VectorRow>, model: string, ids: set<ChunkId>) {
    && ids <= Pending(t, pruned, model) <= t.chunks.Keys
    && now == Put(embed, t, pruned, model, ids)
    && Pending(t, now, model) == Pending(t, pruned, model) - ids
    && |Pending(t, now, model)| == |Pending(t, pruned, model)| - |ids|
  }

  lemma NoneEmbedded(embed: Embed, t: Tables, pruned: map<ChunkId, VectorRow>, model: string)
    ensures Embedding(embed, t, pruned, pruned, model, {})
  {
    hide Put, Stale;
    PutNothing(embed, t, pruned, model);
    assert Pending(t, pruned, model) - {} == Pending(t, pruned, model);
  }

  lemma BatchEmbedded(embed: Embed, t: Tables, pruned: map<ChunkId, VectorRow>, now: map<ChunkId, VectorRow>, model: string, ids: set<ChunkId>, chunks: seq<ChunkId>)
    requires Embedding(embed, t, pruned, now, model, ids)
    requires SetOf(chunks) <= Pending(t, now, model) && Distinct(chunks)
    ensures SetOf(chunks) <= t.chunks.Keys && |ids + SetOf(chunks)| == |ids| + |chunks|
    ensures Embedding(embed, t, pruned, Put(embed, t, now, model, SetOf(chunks)), model, ids + SetOf(chunks))
  {
    hide Put, SetOf, Pending;
    Batch(Pending(t, now, model), chunks);
    PutTwice(embed, t, pruned, model, ids, SetOf(chunks));
    PutShrinks(embed, t, now, model, SetOf(chunks));
    MinusTwice(Pending(t, pruned, model), ids, SetOf(chunks));
  }

  lemma MinusTwice(s: set<ChunkId>, a: set<ChunkId>, b: set<ChunkId>)
    requires a <= s && b <= s - a
    ensures s - a - b == s - (a + b) && |a + b| == |a| + |b|
  {
    assert a !! b;
  }

  lemma PendingLeft(embed: Embed, t: Tables, pruned: map<ChunkId, VectorRow>, now: map<ChunkId, VectorRow>, model: string, ids: set<ChunkId>)
    requires Embedding(embed, t, pruned, now, model, ids)
    ensures |Pending(t, now, model)| == |Pending(t, pruned, model)| - |ids|
  {
  }

  lemma Embedded(embed: Embed, t: Tables, first: map<ChunkId, VectorRow>, now: map<ChunkId, VectorRow>, model: string, ids: set<ChunkId>)
    requires Embedding(embed, t, Pruned(t, first), now, model, ids)
    ensures ids <= Pending(t, first, model) && ids <= t.chunks.Keys && now == Put(embed, t, Pruned(t, first), model, ids)
    ensures |Pending(t, Pruned(t, first), model)| == |Pending(t, first, model)|
    ensures |ids| == |Pending(t, first, model)| ==> Pending(t, now, model) == {}
    ensures |ids| == |Pending(t, first, model)| && Honest(embed, first) && Owned(t) ==>
      AllLoaded(embed, t, LoadVectors(t, now, model), model)
  {
    hide Put, Pruned, Pending, Honest, Owned, LoadVectors, AllLoaded;
    PrunedPending(t, first, model);
    if |ids| == |Pending(t, first, model)| && Honest(embed, first) && Owned(t) {
      assert Pending(t, first, model) == ids + (Pending(t, first, model) - ids);
      CaughtUp(embed, t, first, model, ids);
    }
  }

  /** Embeds pending chunks in batches until none is left, or until the embedder fails after fuel
      batches; what was embedded until then stays. */
  method EmbedPending(st: Store, docId: string -> nat, embed: Embed, model: string, batchSize: int, fuel: nat)
    returns (ok: bool, done: nat, ghost ids: set<ChunkId>)
    modifies st`vectors
    ensures var pending := Pending(st.tables, old(st.vectors), model);
      && ids <= pending && ids <= st.tables.chunks.Keys && |ids| == done
      && st.vectors == Put(embed, st.tables, Pruned(st.tables, old(st.vectors)), model, ids)
      && (ok <==> done == |pending|)
      && (ok <==> |pending| <= fuel * if batchSize <= 0 then 16 else batchSize)
    ensures ok ==> Pending(st.tables, st.vectors, model) == {}
    ensures forall id :: id in st.vectors <==> id in ids || (id in old(st.vectors) && id in st.tables.chunks)
    ensures forall id :: id in ids ==>
      st.vectors[id] == VectorRow(model, st.tables.chunks[id].content, embed(model, id.heading + "\n" + st.tables.chunks[id].content))
    ensures forall id :: id in st.vectors && id !in ids ==> st.vectors[id] == old(st.vectors)[id]
    ensures ok && Honest(embed, old(st.vectors)) && Owned(st.tables) ==>
      var loaded := LoadVectors(st.tables, st.vectors, model);
      && loaded.Keys == st.tables.chunks.Keys
      && forall id :: id in st.tables.chunks ==>
           && id.path in st.tables.documents
           && loaded[id] == Loaded(st.tables.documents[id.path].meta.scope, embed(model, id.heading + "\n" + st.tables.chunks[id].content))
  {
    hide *;
    var batch := BatchSize(batchSize);
    BatchSizeIs(batchSize);
    ghost var first, t := st.vectors, st.tables;
    st.PruneVectors();
    ok, done, ids := EmbedBatches(st, docId, embed, model, batch, fuel);
    Embedded(embed, t, first, st.vectors, model, ids);
    RowsNow(embed, t, first, model, ids);
    LoadedNow(embed, t, LoadVectors(t, st.vectors, model), model);
  }

  method EmbedBatches(st: Store, docId: string -> nat, embed: Embed, model: string, batch: nat, fuel: nat)
    returns (ok: bool, done: nat, ghost ids: set<ChunkId>)
    requires batch > 0
    modifies st`vectors
    ensures Embedding(embed, st.tables, old(st.vectors), st.vectors, model, ids) && |ids| == done
    ensures ok <==> done == |Pending(st.tables, old(st.vectors), model)|
    ensures ok <==> |Pending(st.tables, old(st.vectors), model)| <= fuel * batch
  {
    hide *;
    ghost var first, t := st.vectors, st.tables;
    ghost var total := |Pending(t, first, model)|;
    ids, done := {}, 0;
    var rounds := 0;
    NoneEmbedded(embed, t, first, model);
    NoRounds(batch, total);
    while true
      invariant Embedding(embed, t, first, st.vectors, model, ids)
      invariant |ids| == done && |Pending(t, st.vectors, model)| == total - done
      invariant rounds <= fuel && InRounds(rounds, batch, done, total)
      decreases total - done
    {
      var chunks := st.PendingVectors(docId, model, batch);
      ok := chunks == [];
      if ok || rounds == fuel {
        break;
      }
      ReadPending(t, st.vectors, model, chunks);
      BatchEmbedded(embed, t, first, st.vectors, model, ids, IdsOf(chunks));
      OneMoreRound(rounds, batch, done, total, |chunks|);
      ReadWritten(embed, t, st.vectors, model, chunks);
      var stored := st.PutVectors(model, chunks, Embeddings(embed, model, chunks));
      ids := ids + SetOf(IdsOf(chunks));
      done := done + |chunks|;
      PendingLeft(embed, t, first, st.vectors, model, ids);
      rounds := rounds + 1;
    }
    EnoughIff(rounds, fuel, batch, done, total);
  }

  lemma RowsNow(embed: Embed, t: Tables, first: map<ChunkId, VectorRow>, model: string, ids: set<ChunkId>)
    requires ids <= t.chunks.Keys
    ensures var now := Put(embed, t, Pruned(t, first), model, ids);
      && (forall id :: id in now <==> id in ids || (id in first && id in t.chunks))
      && (forall id :: id in ids ==>
            now[id] == VectorRow(model, t.chunks[id].content, embed(model, id.heading + "\n" + t.chunks[id].content)))
      && forall id :: id in now && id !in ids ==> now[id] == first[id]
  {
    hide Put;
    PutIs(embed, t, Pruned(t, first), model, ids);
  }

  lemma LoadedNow(embed: Embed, t: Tables, loaded: map<ChunkId, Loaded>, model: string)
    ensures AllLoaded(embed, t, loaded, model) ==>
      && loaded.Keys == t.chunks.Keys
      && forall id :: id in t.chunks ==>
           && id.path in t.documents
           && loaded[id] == Loaded(t.documents[id.path].meta.scope, embed(model, id.heading + "\n" + t.chunks[id].content))
  {}
}
