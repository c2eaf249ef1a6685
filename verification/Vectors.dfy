/** internal/store/vectors.go and the embedding half of internal/indexer: vectors kept beside the
    chunks, and which of them are out of date. */
module Vectors {
  import opened Links
  import opened Tables
  import opened Index

  type Vector = seq<real>

  /** One row of chunk_vectors.  hash is that of the chunk's content when it was embedded; the heading
      is part of the chunk id. */
  datatype VectorRow = VectorRow(model: string, hash: string, embedding: Vector)

  datatype Loaded = Loaded(scope: string, embedding: Vector)

  /** embed(model, text) is what the embedder called model makes of a text. */
  type Embed = (string, string) -> Vector

  function EmbeddingText(heading: string, content: string): string {
    heading + "\n" + content
  }

  predicate Stale(t: Tables, vectors: map<ChunkId, VectorRow>, model: string, id: ChunkId)
    requires id in t.chunks
  {
    id !in vectors || vectors[id].model != model || vectors[id].hash != t.chunks[id].content
  }

  function Pending(t: Tables, vectors: map<ChunkId, VectorRow>, model: string): set<ChunkId> {
    set id | id in t.chunks && Stale(t, vectors, model, id)
  }

  function Pruned(t: Tables, vectors: map<ChunkId, VectorRow>): map<ChunkId, VectorRow> {
    map id | id in vectors && id in t.chunks :: vectors[id]
  }

  function NewRow(embed: Embed, t: Tables, model: string, id: ChunkId): VectorRow
    requires id in t.chunks
  {
    VectorRow(model, t.chunks[id].content, embed(model, EmbeddingText(id.heading, t.chunks[id].content)))
  }

  /** The rows after the chunks in done were embedded. */
  function Put(embed: Embed, t: Tables, vectors: map<ChunkId, VectorRow>, model: string, done: set<ChunkId>): map<ChunkId, VectorRow>
    requires done <= t.chunks.Keys
  {
    vectors + map id | id in done :: NewRow(embed, t, model, id)
  }

  /** A pending chunk as it was read: the hash of its content then, and the text to embed. */
  datatype PendingChunk = PendingChunk(id: ChunkId, hash: string, text: string)

  function Snapshot(t: Tables, id: ChunkId): PendingChunk
    requires id in t.chunks
  {
    PendingChunk(id, t.chunks[id].content, EmbeddingText(id.heading, t.chunks[id].content))
  }

  /** The rows after these embeddings were stored under what was read. */
  function Written(vectors: map<ChunkId, VectorRow>, model: string, chunks: seq<PendingChunk>, embeddings: seq<Vector>): map<ChunkId, VectorRow>
    requires |chunks| == |embeddings|
  {
    if chunks == [] then vectors
    else
      var l := |chunks| - 1;
      Written(vectors, model, chunks[..l], embeddings[..l])[chunks[l].id := VectorRow(model, chunks[l].hash, embeddings[l])]
  }

  function Embeddings(embed: Embed, model: string, chunks: seq<PendingChunk>): (e: seq<Vector>)
    ensures |e| == |chunks| && forall i :: 0 <= i < |e| ==> e[i] == embed(model, chunks[i].text)
  {
    seq(|chunks|, i requires 0 <= i < |chunks| => embed(model, chunks[i].text))
  }

  /** The vectors a search index is built from. */
  function LoadVectors(t: Tables, vectors: map<ChunkId, VectorRow>, model: string): map<ChunkId, Loaded> {
    map id | id in vectors && id in t.chunks && id.path in t.documents && !Stale(t, vectors, model, id)
      :: Loaded(t.documents[id.path].meta.scope, vectors[id].embedding)
  }

  /** Every chunk embedded now, from its current heading and content. */
  function Recomputed(embed: Embed, t: Tables, model: string): map<ChunkId, Loaded> {
    map id | id in t.chunks && id.path in t.documents
      :: Loaded(t.documents[id.path].meta.scope, embed(model, id.heading + "\n" + t.chunks[id].content))
  }

  /** The text given to the embedder ends in the whole content, so under one heading different
      contents are embedded as different texts. */
  lemma TextTellsContent(heading: string, a: string, b: string)
    ensures EmbeddingText(heading, a) == heading + "\n" + a && EmbeddingText(heading, a)[|heading| + 1..] == a
    ensures a != b ==> EmbeddingText(heading, a) != EmbeddingText(heading, b)
  {
    assert EmbeddingText(heading, b)[|heading| + 1..] == b;
  }

  /** What a batch leaves in the table, row by row. */
  lemma PutIs(embed: Embed, t: Tables, vectors: map<ChunkId, VectorRow>, model: string, done: set<ChunkId>)
    requires done <= t.chunks.Keys
    ensures var now := Put(embed, t, vectors, model, done);
      && (forall id :: id in now <==> id in vectors || id in done)
      && (forall id :: id in done ==>
            now[id] == VectorRow(model, t.chunks[id].content, embed(model, id.heading + "\n" + t.chunks[id].content)))
      && forall id :: id in now && id !in done ==> now[id] == vectors[id]
  {}

  /** Each row holds what its model made of the heading in its chunk id and the content it was made
      for, whatever happened to the chunk since. */
  ghost predicate Honest(embed: Embed, vectors: map<ChunkId, VectorRow>) {
    forall id :: id in vectors ==>
      vectors[id].embedding == embed(vectors[id].model, id.heading + "\n" + vectors[id].hash)
  }

  /** Each stored chunk with the vector of its heading and content and the scope of its document. */
  ghost predicate AllLoaded(embed: Embed, t: Tables, loaded: map<ChunkId, Loaded>, model: string) {
    && loaded.Keys == t.chunks.Keys
    && forall id :: id in t.chunks ==>
         && id.path in t.documents
         && loaded[id] == Loaded(t.documents[id.path].meta.scope, embed(model, id.heading + "\n" + t.chunks[id].content))
  }

  ghost predicate Owned(t: Tables) {
    forall id :: id in t.chunks ==> id.path in t.documents
  }

  // ----- what is loaded -----

  /** Nothing out of date is ever loaded, finished or not. */
  lemma LoadedIsCurrent(embed: Embed, t: Tables, vectors: map<ChunkId, VectorRow>, model: string)
    requires Honest(embed, vectors)
    ensures forall id :: id in LoadVectors(t, vectors, model) ==>
      id in Recomputed(embed, t, model) && LoadVectors(t, vectors, model)[id] == Recomputed(embed, t, model)[id]
  {
    hide EmbeddingText;
    var loaded := LoadVectors(t, vectors, model);
    forall id | id in loaded ensures id in Recomputed(embed, t, model) && loaded[id] == Recomputed(embed, t, model)[id] {
      assert vectors[id].model == model && vectors[id].hash == t.chunks[id].content;
    }
  }

  /** Loaded is exactly what is stored, embedded by this model and not changed since. */
  lemma LoadedExactly(t: Tables, vectors: map<ChunkId, VectorRow>, model: string)
    ensures forall id :: id in LoadVectors(t, vectors, model) <==>
      && id in t.chunks && id.path in t.documents && id in vectors
      && vectors[id].model == model && vectors[id].hash == t.chunks[id].content
    ensures forall id :: id in LoadVectors(t, vectors, model) ==>
      LoadVectors(t, vectors, model)[id] == Loaded(t.documents[id.path].meta.scope, vectors[id].embedding)
  {}

  lemma RecomputedIs(embed: Embed, t: Tables, loaded: map<ChunkId, Loaded>, model: string)
    requires Owned(t)
    ensures loaded == Recomputed(embed, t, model) <==> AllLoaded(embed, t, loaded, model)
  {
    var all := Recomputed(embed, t, model);
    assert all.Keys == t.chunks.Keys;
    if AllLoaded(embed, t, loaded, model) {
      assert forall id :: id in loaded ==> loaded[id] == all[id];
    }
  }

  lemma RecomputedKeys(embed: Embed, t: Tables, model: string)
    ensures forall id :: id in Recomputed(embed, t, model) <==> id in t.chunks && id.path in t.documents
  {}

  /** All chunks are loaded, each with the vector of its current text, exactly when nothing is pending. */
  lemma LoadedIffNothingPending(embed: Embed, t: Tables, vectors: map<ChunkId, VectorRow>, model: string)
    requires Honest(embed, vectors) && Owned(t)
    ensures LoadVectors(t, vectors, model) == Recomputed(embed, t, model) <==> Pending(t, vectors, model) == {}
    ensures Pending(t, vectors, model) == {} <==> AllLoaded(embed, t, LoadVectors(t, vectors, model), model)
  {
    hide AllLoaded;
    var loaded, all := LoadVectors(t, vectors, model), Recomputed(embed, t, model);
    RecomputedIs(embed, t, loaded, model);
    LoadedIsCurrent(embed, t, vectors, model);
    hide Recomputed, Honest;
    RecomputedKeys(embed, t, model);
    forall id: ChunkId ensures id in all && id !in loaded <==> id in Pending(t, vectors, model) {
    }
    if Pending(t, vectors, model) == {} {
      assert forall id: ChunkId :: id in loaded <==> id in all;
    } else {
      var id :| id in Pending(t, vectors, model);
      assert id in all && id !in loaded;
    }
  }

  lemma LateRow(embed: Embed, t: Tables, vectors: map<ChunkId, VectorRow>, model: string, c: PendingChunk)
    requires Honest(embed, vectors) && c.text == c.id.heading + "\n" + c.hash
    ensures var now := vectors[c.id := VectorRow(model, c.hash, embed(model, c.text))];
      && Honest(embed, now)
      && (c.id in t.chunks ==> (c.id in Pending(t, now, model) <==> c.hash != t.chunks[c.id].content))
      && forall id :: id != c.id ==> (id in Pending(t, now, model) <==> id in Pending(t, vectors, model))
  {}

  lemma WrittenSnoc(embed: Embed, vectors: map<ChunkId, VectorRow>, model: string, chunks: seq<PendingChunk>)
    requires chunks != []
    ensures var l := |chunks| - 1;
      Written(vectors, model, chunks, Embeddings(embed, model, chunks))
        == Written(vectors, model, chunks[..l], Embeddings(embed, model, chunks[..l]))
             [chunks[l].id := VectorRow(model, chunks[l].hash, embed(model, chunks[l].text))]
  {
    var l := |chunks| - 1;
    assert Embeddings(embed, model, chunks)[..l] == Embeddings(embed, model, chunks[..l]);
  }

  lemma WrittenNothing(embed: Embed, vectors: map<ChunkId, VectorRow>, model: string)
    ensures Written(vectors, model, [], Embeddings(embed, model, [])) == vectors
  {}

  ghost predicate PendingIfChanged(t: Tables, now: map<ChunkId, VectorRow>, model: string, chunks: seq<PendingChunk>) {
    forall c :: c in chunks && c.id in t.chunks ==> (c.id in Pending(t, now, model) <==> c.hash != t.chunks[c.id].content)
  }

  ghost predicate OnlyThese(t: Tables, before: map<ChunkId, VectorRow>, now: map<ChunkId, VectorRow>, model: string, chunks: seq<PendingChunk>) {
    forall id :: (forall c :: c in chunks ==> c.id != id) ==> (id in Pending(t, now, model) <==> id in Pending(t, before, model))
  }

  /** However the chunks changed between reading them and storing their embeddings, no row claims a
      content it was not made for, a chunk is pending again exactly when its content changed, and no
      other chunk's state changes. */
  lemma {:induction false} LateWrite(embed: Embed, t: Tables, vectors: map<ChunkId, VectorRow>, model: string, chunks: seq<PendingChunk>)
    requires Honest(embed, vectors)
    requires forall c :: c in chunks ==> c.text == c.id.heading + "\n" + c.hash
    requires forall i, j :: 0 <= i < j < |chunks| ==> chunks[i].id != chunks[j].id
    ensures var now := Written(vectors, model, chunks, Embeddings(embed, model, chunks));
      Honest(embed, now) && PendingIfChanged(t, now, model, chunks) && OnlyThese(t, vectors, now, model, chunks)
  {
    hide Embeddings, Pending, Honest, Written;
    if chunks != [] {
      var l := |chunks| - 1;
      var front, last := chunks[..l], chunks[l];
      LateWrite(embed, t, vectors, model, front);
      WrittenSnoc(embed, vectors, model, chunks);
      var mid := Written(vectors, model, front, Embeddings(embed, model, front));
      LateRow(embed, t, mid, model, last);
      assert chunks == front + [last];
    } else {
      assert chunks == [];
      WrittenNothing(embed, vectors, model);
    }
  }

  lemma PutStaysHonest(embed: Embed, t: Tables, vectors: map<ChunkId, VectorRow>, model: string, done: set<ChunkId>)
    requires Honest(embed, vectors) && done <= t.chunks.Keys
    ensures Honest(embed, Pruned(t, vectors)) && Honest(embed, Put(embed, t, vectors, model, done))
  {}

  /** A batch takes exactly its chunks off the pending set, so the batches come to an end. */
  lemma PutShrinks(embed: Embed, t: Tables, vectors: map<ChunkId, VectorRow>, model: string, done: set<ChunkId>)
    requires done <= Pending(t, vectors, model)
    ensures Pending(t, Put(embed, t, vectors, model, done), model) == Pending(t, vectors, model) - done
    ensures |Pending(t, Put(embed, t, vectors, model, done), model)| == |Pending(t, vectors, model)| - |done|
  {
    hide EmbeddingText;
    var after := Put(embed, t, vectors, model, done);
    forall id: ChunkId ensures id in Pending(t, after, model) <==> id in Pending(t, vectors, model) && id !in done {
    }
    assert Pending(t, after, model) == Pending(t, vectors, model) - done;
  }

  lemma PrunedPending(t: Tables, vectors: map<ChunkId, VectorRow>, model: string)
    ensures Pending(t, Pruned(t, vectors), model) == Pending(t, vectors, model)
  {
  }

  // ----- histories of index runs and embedding -----

  datatype Db = Db(tables: Tables, vectors: map<ChunkId, VectorRow>)

  /** A run of the index, complete or not; or the embedding of some of the pending chunks, all of them
      unless the embedder fails, after vectors without a chunk were pruned. */
  datatype Step = Indexed(run: Run) | Embedded(model: string, done: set<ChunkId>)

  ghost predicate Enabled(db: Db, s: Step) {
    match s
    case Indexed(run) => Possible(db.tables, run)
    case Embedded(model, done) => done <= Pending(db.tables, db.vectors, model)
  }

  ghost function Next(env: Env, embed: Embed, db: Db, s: Step): Db
    requires Enabled(db, s)
  {
    match s
    case Indexed(run) => db.(tables := After(env, db.tables, run))
    case Embedded(model, done) => db.(vectors := Put(embed, db.tables, Pruned(db.tables, db.vectors), model, done))
  }

  ghost predicate Trace(env: Env, embed: Embed, steps: seq<Step>, dbs: seq<Db>) {
    && |dbs| == |steps| + 1
    && dbs[0] == Db(EMPTY, map[])
    && forall i :: 0 <= i < |steps| ==> Enabled(dbs[i], steps[i]) && dbs[i + 1] == Next(env, embed, dbs[i], steps[i])
  }

  lemma {:induction false} TraceKeeps(env: Env, embed: Embed, steps: seq<Step>, dbs: seq<Db>, n: nat)
    requires Trace(env, embed, steps, dbs) && n < |dbs|
    ensures Inv(env, dbs[n].tables) && Honest(embed, dbs[n].vectors)
  {
    hide Inv, After, Put, Pruned, Pending, Honest;
    if n == 0 {
      EmptyInv(env);
      assert Honest(embed, map[]) by { NoneHonest(embed); }
    } else {
      TraceKeeps(env, embed, steps, dbs, n - 1);
      var db := dbs[n - 1];
      match steps[n - 1]
      case Indexed(run) => RunKeepsInv(env, db.tables, run);
      case Embedded(model, done) =>
        PutStaysHonest(embed, db.tables, db.vectors, model, {});
        PendingStored(db.tables, db.vectors, model);
        PutStaysHonest(embed, db.tables, Pruned(db.tables, db.vectors), model, done);
    }
  }

  lemma NoneHonest(embed: Embed)
    ensures Honest(embed, map[])
  {
  }

  lemma PendingStored(t: Tables, vectors: map<ChunkId, VectorRow>, model: string)
    ensures Pending(t, vectors, model) <= t.chunks.Keys
  {
  }

  lemma InvOwned(env: Env, t: Tables)
    requires Inv(env, t)
    ensures Owned(t)
  {
    hide RowFits;
  }

  /** Whatever edits, deletions, cut runs, failed batches and changes of model came before: once a model
      has embedded all that was pending, each chunk is loaded with the vector of its current heading
      and content, as if all had been embedded anew. */
  lemma EmbeddingCatchesUp(env: Env, embed: Embed, steps: seq<Step>, dbs: seq<Db>, model: string)
    requires Trace(env, embed, steps, dbs) && steps != []
    requires var before := dbs[|steps| - 1]; steps[|steps| - 1] == Embedded(model, Pending(before.tables, before.vectors, model))
    ensures var db := dbs[|steps|];
      var loaded := LoadVectors(db.tables, db.vectors, model);
      && loaded.Keys == db.tables.chunks.Keys
      && forall id :: id in db.tables.chunks ==>
           && id.path in db.tables.documents
           && loaded[id] == Loaded(db.tables.documents[id.path].meta.scope, embed(model, id.heading + "\n" + db.tables.chunks[id].content))
  {
    hide Inv, After, Put, Pruned, Pending, Honest, LoadVectors, Recomputed, Owned;
    var n := |steps|;
    var before, db := dbs[n - 1], dbs[n];
    TraceKeeps(env, embed, steps, dbs, n);
    InvOwned(env, db.tables);
    var pruned := Pruned(before.tables, before.vectors);
    PrunedPending(before.tables, before.vectors, model);
    PutShrinks(embed, before.tables, pruned, model, Pending(before.tables, before.vectors, model));
    LoadedIffNothingPending(embed, db.tables, db.vectors, model);
  }
}
