/** internal/store: the tables, updated in place. */
module Storage {
  import opened Sequences
  import opened Links
  import T = Tables
  import opened Tables
  import opened Vectors

  class Store {
    const lib: PathLib
    var tables: Tables
    var vectors: map<ChunkId, VectorRow>

    constructor (lib: PathLib)
      ensures this.lib == lib && tables == EMPTY && vectors == map[]
    {
      this.lib := lib;
      tables := EMPTY;
      vectors := map[];
    }

    /** One transaction: on two chunks with one id nothing is changed. */
    method UpsertDocument(path: string, content: string, doc: Parsed, commit: string) returns (ok: bool)
      modifies this`tables
      ensures ok == DistinctIds(doc.chunks)
      ensures tables == if ok then Apply(lib, old(tables), Upsert(path, content, doc, commit)) else old(tables)
      ensures ok <==>
        forall i, j :: 0 <= i < j < |doc.chunks| ==> doc.chunks[i].heading != doc.chunks[j].heading || doc.chunks[i].part != doc.chunks[j].part
      ensures ok ==> HoldsRows(tables, path, doc) && OthersSame(old(tables), tables, path)
      ensures ok ==> tables.documents == old(tables).documents[path := DocRow(doc.meta, content, commit, 2)]
      ensures ok ==> forall k :: k in tables.links && k.from == path ==> tables.links[k] == ""
    {
      UpsertRows(lib, tables, path, content, doc, commit);
      hide HoldsRows, OthersSame;
      hide ChunkRows, LinkKeys, Target, DistinctIds;
      var before := tables;
      var title := doc.meta.title;
      tables := tables.(documents := tables.documents[path := DocRow(doc.meta, content, commit, LINKS_VERSION)]);
      tables := tables.(chunks := map id | id in tables.chunks && id.path != path :: tables.chunks[id]);
      var i := 0;
      NoChunks(path, title, before.chunks);
      assert doc.chunks[..0] == [];
      while i < |doc.chunks|
        invariant 0 <= i <= |doc.chunks| && DistinctIds(doc.chunks[..i])
        invariant tables.documents == before.documents[path := DocRow(doc.meta, content, commit, LINKS_VERSION)]
        invariant tables.links == before.links
        invariant tables.chunks == ReplaceChunks(before.chunks, path, ChunkRows(path, title, doc.chunks[..i]))
      {
        var c := doc.chunks[i];
        IdTaken(path, title, doc.chunks, i, before.chunks);
        if IdOf(path, c) in tables.chunks {
          tables := before;
          return false;
        }
        tables := tables.(chunks := tables.chunks[IdOf(path, c) := ChunkRow(title, c.content, c.tokens, c.position)]);
        i := i + 1;
      }
      assert doc.chunks[..i] == doc.chunks;
      ReplaceLinks(path, doc.links);
      ok := true;
    }

    /** Old links of the document go, new ones come in unresolved, each once. */
    method ReplaceLinks(from: string, links: seq<Link>)
      modifies this`tables
      ensures tables == old(tables).(links := T.ReplaceLinks(old(tables).links, from, LinkKeys(from, links)))
      ensures forall k :: k in tables.links <==>
        if k.from == from then exists i :: 0 <= i < |links| && links[i].kind == k.kind && links[i].target == k.target
        else k in old(tables).links
      ensures forall k :: k in tables.links ==> tables.links[k] == if k.from == from then "" else old(tables).links[k]
    {
      var before := tables;
      assert links[..0] == [] && LinkKeys(from, []) == {};
      hide LinkKeys;
      tables := tables.(links := map k | k in tables.links && k.from != from :: tables.links[k]);
      NoLinks(before.links, from);
      hide T.ReplaceLinks;
      var i := 0;
      while i < |links|
        invariant 0 <= i <= |links|
        invariant tables == before.(links := T.ReplaceLinks(before.links, from, LinkKeys(from, links[..i])))
      {
        var k := LinkKey(from, links[i].kind, links[i].target);
        LinkKeysSnoc(from, links, i);
        OneMoreLink(before.links, from, LinkKeys(from, links[..i]), k);
        if k !in tables.links {
          tables := tables.(links := tables.links[k := ""]);
        }
        i := i + 1;
      }
      assert links[..i] == links;
      LinksNow(before.links, from, links);
    }

    /** Two statements: a failure between them leaves the document's links behind. */
    method DeleteDocument(path: string, fails: bool) returns (ok: bool)
      modifies this`tables
      ensures ok == !fails
      ensures tables == ApplyAll(lib, old(tables), if ok then [Op.DeleteDocument(path), DeleteLinks(path)] else [Op.DeleteDocument(path)])
      ensures tables.documents == old(tables).documents - {path}
      ensures forall id :: id in tables.chunks <==> id in old(tables).chunks && id.path != path
      ensures forall id :: id in tables.chunks ==> tables.chunks[id] == old(tables).chunks[id]
      ensures forall k :: k in tables.links <==> k in old(tables).links && (ok ==> k.from != path)
      ensures forall k :: k in tables.links ==> tables.links[k] == old(tables).links[k]
    {
      hide *;
      ghost var before := tables;
      DeleteStatements(lib, before, path);
      tables := tables.(documents := tables.documents - {path}, chunks := map id | id in tables.chunks && id.path != path :: tables.chunks[id]);
      if fails {
        return false;
      }
      tables := tables.(links := map k | k in tables.links && k.from != path :: tables.links[k]);
      ok := true;
    }

    /** Only rows whose target differs are written; every row ends up resolved against the documents
        stored now. */
    method ResolveLinks()
      modifies this`tables
      ensures tables == Apply(lib, old(tables), Op.ResolveLinks)
      ensures tables.documents == old(tables).documents && tables.chunks == old(tables).chunks
      ensures tables.links.Keys == old(tables).links.Keys
      ensures forall k :: k in tables.links ==> tables.links[k] == Target(lib, tables.documents.Keys, k)
    {
      hide *;
      var before := tables;
      var paths := InSomeOrder(tables.documents.Keys);
      var r := new Resolver(lib, paths);
      assert r.paths == before.documents.Keys;
      var updates: map<LinkKey, string> := map[];
      var left := tables.links.Keys;
      while left != {}
        invariant r.Valid() && r.lib == lib && r.paths == before.documents.Keys && tables == before
        invariant left <= before.links.Keys && updates.Keys <= before.links.Keys - left
        invariant forall k :: k in before.links && k !in left ==>
          Updated(before.links, updates, k) == Target(lib, before.documents.Keys, k)
        decreases |left|
      {
        var k :| k in left;
        left := left - {k};
        var resolved := r.Resolve(k.from, Link(k.target, k.kind));
        TargetIs(lib, before.documents.Keys, k, resolved);
        OneUpdated(before.links, updates, k, resolved);
        if resolved != before.links[k] {
          updates := updates[k := resolved];
        }
      }
      tables := tables.(links := map k | k in tables.links :: Updated(tables.links, updates, k));
      AllUpdated(lib, before, updates);
    }

    /** Vectors whose chunk no longer exists. */
    method PruneVectors()
      modifies this`vectors
      ensures vectors == Pruned(tables, old(vectors))
      ensures forall id :: id in vectors <==> id in old(vectors) && id in tables.chunks
      ensures forall id :: id in vectors ==> vectors[id] == old(vectors)[id]
    {
      vectors := map id | id in vectors && id in tables.chunks :: vectors[id];
    }

    /** Up to limit pending chunks, none twice: those of the oldest documents, from the top. */
    method PendingVectors(docId: string -> nat, model: string, limit: nat) returns (chunks: seq<PendingChunk>)
      ensures Read(tables, vectors, model, chunks)
      ensures |chunks| == if |Pending(tables, vectors, model)| < limit then |Pending(tables, vectors, model)| else limit
      ensures Ordered(docId, tables, IdsOf(chunks))
      ensures forall a, b :: a in IdsOf(chunks) && b in Pending(tables, vectors, model) && b !in IdsOf(chunks) ==>
        !Later(docId, tables, a, b)
      ensures AsStored(tables, vectors, model, chunks) && InReadingOrder(docId, tables, vectors, model, chunks)
    {
      hide Stale, Later, Snapshot, AsStored, InReadingOrder;
      var left := Pending(tables, vectors, model);
      var ids: seq<ChunkId> := [];
      while left != {} && |ids| < limit
        invariant |ids| <= limit && left <= Pending(tables, vectors, model)
        invariant |ids| + |left| == |Pending(tables, vectors, model)|
        invariant forall id :: id in ids ==> id in Pending(tables, vectors, model)
        invariant forall id :: id in Pending(tables, vectors, model) ==> (id in left <==> id !in ids)
        invariant forall a, b :: a in ids && b in left ==> !Later(docId, tables, a, b)
        invariant Distinct(ids) && Ordered(docId, tables, ids)
        decreases |left|
      {
        ghost var first := FirstOf(docId, tables, left);
        var id :| id in left && forall x :: x in left ==> !Later(docId, tables, id, x);
        left := left - {id};
        ids := ids + [id];
      }
      chunks := seq(|ids|, i requires 0 <= i < |ids| reads this requires forall k :: 0 <= k < |ids| ==> ids[k] in tables.chunks => Snapshot(tables, ids[i]));
      SnapshotIds(tables, ids, chunks);
      ReadAsStored(tables, vectors, model, chunks);
      ReadInOrder(docId, tables, vectors, model, chunks);
    }

    /** All in one transaction, or nothing when the counts differ. */
    method PutVectors(model: string, chunks: seq<PendingChunk>, embeddings: seq<Vector>) returns (ok: bool)
      modifies this`vectors
      ensures ok == (|chunks| == |embeddings|)
      ensures vectors == if ok then Written(old(vectors), model, chunks, embeddings) else old(vectors)
    {
      if |chunks| != |embeddings| {
        return false;
      }
      ghost var before := vectors;
      for i := 0 to |chunks|
        invariant vectors == Written(before, model, chunks[..i], embeddings[..i])
      {
        assert chunks[..i + 1][..i] == chunks[..i] && embeddings[..i + 1][..i] == embeddings[..i];
        vectors := vectors[chunks[i].id := VectorRow(model, chunks[i].hash, embeddings[i])];
      }
      assert chunks[..|chunks|] == chunks && embeddings[..|chunks|] == embeddings;
      ok := true;
    }
  }

  // ----- pending chunks -----

  function IdsOf(chunks: seq<PendingChunk>): (ids: seq<ChunkId>)
    ensures |ids| == |chunks| && forall i :: 0 <= i < |ids| ==> ids[i] == chunks[i].id
  {
    seq(|chunks|, i requires 0 <= i < |chunks| => chunks[i].id)
  }

  /** Different pending chunks, as they are now. */
  ghost predicate Read(t: Tables, vectors: map<ChunkId, VectorRow>, model: string, chunks: seq<PendingChunk>) {
    && Distinct(IdsOf(chunks))
    && forall i :: 0 <= i < |chunks| ==> chunks[i].id in Pending(t, vectors, model) && chunks[i] == Snapshot(t, chunks[i].id)
  }

  /** Each chunk out of date, and read with its current content and the text to embed. */
  ghost predicate AsStored(t: Tables, vectors: map<ChunkId, VectorRow>, model: string, chunks: seq<PendingChunk>) {
    forall i :: 0 <= i < |chunks| ==>
      var id := chunks[i].id;
      && id in t.chunks
      && (id in vectors ==> vectors[id].model != model || vectors[id].hash != t.chunks[id].content)
      && chunks[i].hash == t.chunks[id].content && chunks[i].text == id.heading + "\n" + t.chunks[id].content
  }

  lemma ReadAsStored(t: Tables, vectors: map<ChunkId, VectorRow>, model: string, chunks: seq<PendingChunk>)
    requires Read(t, vectors, model, chunks)
    ensures AsStored(t, vectors, model, chunks)
  {
    hide IdsOf;
  }

  /** a's document was stored before that of b, or it is the same one and a stands further up in it,
      or in the same place. */
  ghost predicate NotAfter(docId: string -> nat, t: Tables, a: ChunkId, b: ChunkId) {
    && a in t.chunks && b in t.chunks
    && (docId(a.path) < docId(b.path) || (docId(a.path) == docId(b.path) && t.chunks[a].position <= t.chunks[b].position))
  }

  /** Read from the oldest document on and from its top, so that what is left out comes after. */
  ghost predicate InReadingOrder(docId: string -> nat, t: Tables, vectors: map<ChunkId, VectorRow>, model: string, chunks: seq<PendingChunk>) {
    && (forall i, j :: 0 <= i < j < |chunks| ==> NotAfter(docId, t, chunks[i].id, chunks[j].id))
    && forall i, id :: 0 <= i < |chunks| && LeftOut(t, vectors, model, chunks, id) ==> NotAfter(docId, t, chunks[i].id, id)
  }

  ghost predicate LeftOut(t: Tables, vectors: map<ChunkId, VectorRow>, model: string, chunks: seq<PendingChunk>, id: ChunkId) {
    && id in t.chunks
    && (id in vectors ==> vectors[id].model != model || vectors[id].hash != t.chunks[id].content)
    && forall j :: 0 <= j < |chunks| ==> chunks[j].id != id
  }

  lemma ReadInOrder(docId: string -> nat, t: Tables, vectors: map<ChunkId, VectorRow>, model: string, chunks: seq<PendingChunk>)
    requires Read(t, vectors, model, chunks) && Ordered(docId, t, IdsOf(chunks))
    requires forall a, b :: a in IdsOf(chunks) && b in Pending(t, vectors, model) && b !in IdsOf(chunks) ==> !Later(docId, t, a, b)
    ensures InReadingOrder(docId, t, vectors, model, chunks)
  {
    hide NotAfter, LeftOut, Later, Pending, IdsOf;
    var ids := IdsOf(chunks);
    forall i, j | 0 <= i < j < |chunks| ensures NotAfter(docId, t, chunks[i].id, chunks[j].id) {
      assert ids[i] == chunks[i].id && ids[j] == chunks[j].id;
      NotAfterIff(docId, t, ids[i], ids[j]);
    }
    forall i, id | 0 <= i < |chunks| && LeftOut(t, vectors, model, chunks, id) ensures NotAfter(docId, t, chunks[i].id, id) {
      assert ids[i] == chunks[i].id && ids[i] in ids;
      LeftPending(t, vectors, model, chunks, id);
      NotAfterIff(docId, t, ids[i], id);
    }
  }

  lemma NotAfterIff(docId: string -> nat, t: Tables, a: ChunkId, b: ChunkId)
    requires a in t.chunks && b in t.chunks
    ensures NotAfter(docId, t, a, b) <==> !Later(docId, t, a, b)
  {}

  lemma LeftPending(t: Tables, vectors: map<ChunkId, VectorRow>, model: string, chunks: seq<PendingChunk>, id: ChunkId)
    requires LeftOut(t, vectors, model, chunks, id)
    ensures id in t.chunks && id in Pending(t, vectors, model) && id !in IdsOf(chunks)
  {}

  lemma SnapshotIds(t: Tables, ids: seq<ChunkId>, chunks: seq<PendingChunk>)
    requires |chunks| == |ids| && forall i :: 0 <= i < |ids| ==> ids[i] in t.chunks && chunks[i] == Snapshot(t, ids[i])
    ensures IdsOf(chunks) == ids
  {}

  lemma ReadPending(t: Tables, vectors: map<ChunkId, VectorRow>, model: string, chunks: seq<PendingChunk>)
    requires Read(t, vectors, model, chunks)
    ensures SetOf(IdsOf(chunks)) <= Pending(t, vectors, model) && Distinct(IdsOf(chunks))
  {}

  /** By document, in the order documents were first stored, then by position. */
  predicate Later(docId: string -> nat, t: Tables, a: ChunkId, b: ChunkId)
    requires a in t.chunks && b in t.chunks
  {
    docId(a.path) > docId(b.path) || (docId(a.path) == docId(b.path) && t.chunks[a].position > t.chunks[b].position)
  }

  ghost predicate Ordered(docId: string -> nat, t: Tables, ids: seq<ChunkId>) {
    && (forall i :: 0 <= i < |ids| ==> ids[i] in t.chunks)
    && forall i, j :: 0 <= i < j < |ids| ==> !Later(docId, t, ids[i], ids[j])
  }

  lemma LaterTransitive(docId: string -> nat, t: Tables, a: ChunkId, b: ChunkId, c: ChunkId)
    requires a in t.chunks && b in t.chunks && c in t.chunks && !Later(docId, t, a, b) && !Later(docId, t, b, c)
    ensures !Later(docId, t, a, c)
  {}

  lemma {:induction false} FirstOf(docId: string -> nat, t: Tables, left: set<ChunkId>) returns (id: ChunkId)
    requires left != {} && left <= t.chunks.Keys
    ensures id in left && forall x :: x in left ==> !Later(docId, t, id, x)
    decreases left
  {
    id :| id in left;
    if left != {id} {
      hide Later;
      var rest := left - {id};
      var first := FirstOf(docId, t, rest);
      NotLaterSelf(docId, t, id);
      NotLaterSelf(docId, t, first);
      LaterEither(docId, t, id, first);
      if Later(docId, t, id, first) {
        id := first;
      } else {
        forall x | x in rest ensures !Later(docId, t, id, x) {
          LaterTransitive(docId, t, id, first, x);
        }
      }
    }
  }

  lemma NotLaterSelf(docId: string -> nat, t: Tables, a: ChunkId)
    requires a in t.chunks
    ensures !Later(docId, t, a, a)
  {}

  lemma LaterEither(docId: string -> nat, t: Tables, a: ChunkId, b: ChunkId)
    requires a in t.chunks && b in t.chunks
    ensures !Later(docId, t, a, b) || !Later(docId, t, b, a)
  {}

  function SetOf(ids: seq<ChunkId>): set<ChunkId> {
    set id | id in ids
  }

  function Updated(links: map<LinkKey, string>, updates: map<LinkKey, string>, k: LinkKey): string
    requires k in links
  {
    if k in updates then updates[k] else links[k]
  }

  lemma OneUpdated(links: map<LinkKey, string>, updates: map<LinkKey, string>, k: LinkKey, resolved: string)
    requires k in links && k !in updates && updates.Keys <= links.Keys
    ensures var now := if resolved != links[k] then updates[k := resolved] else updates;
      Updated(links, now, k) == resolved && forall l :: l in links && l != k ==> Updated(links, now, l) == Updated(links, updates, l)
  {
  }

  lemma AllUpdated(lib: PathLib, t: Tables, updates: map<LinkKey, string>)
    requires forall k :: k in t.links ==> Updated(t.links, updates, k) == Target(lib, t.documents.Keys, k)
    ensures t.(links := map k | k in t.links :: Updated(t.links, updates, k)) == Apply(lib, t, Op.ResolveLinks)
  {
    hide Target, Updated;
  }

  method InSomeOrder(s: set<string>) returns (l: seq<string>)
    ensures Lists(l, s)
  {
    l := [];
    var left := s;
    while left != {}
      invariant left <= s
      invariant forall p :: p in l <==> p in s && p !in left
      invariant Distinct(l)
      decreases |left|
    {
      var p :| p in left;
      left := left - {p};
      l := l + [p];
    }
  }

  lemma DeleteStatements(lib: PathLib, t: Tables, path: string)
    ensures var u := t.(documents := t.documents - {path}, chunks := map id | id in t.chunks && id.path != path :: t.chunks[id]);
      && ApplyAll(lib, t, [Op.DeleteDocument(path)]) == u
      && ApplyAll(lib, t, [Op.DeleteDocument(path), DeleteLinks(path)]) == u.(links := map k | k in u.links && k.from != path :: u.links[k])
  {
    var one, two := Op.DeleteDocument(path), DeleteLinks(path);
    assert ApplyAll(lib, t, []) == t;
    hide *;
    ApplySnoc(lib, t, [], one);
    ApplySnoc(lib, t, [one], two);
    assert [] + [one] == [one] && [one] + [two] == [one, two];
    DocumentGone(lib, t, path);
    LinksGone(lib, Apply(lib, t, one), path);
  }

  lemma DocumentGone(lib: PathLib, t: Tables, path: string)
    ensures Apply(lib, t, Op.DeleteDocument(path))
         == t.(documents := t.documents - {path}, chunks := map id | id in t.chunks && id.path != path :: t.chunks[id])
  {
    var others := map id | id in t.chunks && id.path != path :: t.chunks[id];
    assert others + map[] == others;
  }

  lemma LinksGone(lib: PathLib, t: Tables, path: string)
    ensures Apply(lib, t, DeleteLinks(path)) == t.(links := map k | k in t.links && k.from != path :: t.links[k])
  {
    assert T.ReplaceLinks(t.links, path, {}) == map k | k in t.links && k.from != path :: t.links[k];
  }

  lemma NoChunks(path: string, title: string, chunks: map<ChunkId, ChunkRow>)
    ensures (map id | id in chunks && id.path != path :: chunks[id]) == ReplaceChunks(chunks, path, ChunkRows(path, title, []))
    ensures DistinctIds([])
  {
  }

  lemma {:induction false} RowAt(path: string, title: string, chunks: seq<Chunk>, id: ChunkId)
    ensures id in ChunkRows(path, title, chunks) <==> exists j :: 0 <= j < |chunks| && IdOf(path, chunks[j]) == id
  {
    if chunks != [] {
      var rest := chunks[..|chunks| - 1];
      RowAt(path, title, rest, id);
      assert forall j :: 0 <= j < |rest| ==> rest[j] == chunks[j];
      assert id == IdOf(path, chunks[|chunks| - 1]) ==> IdOf(path, chunks[|chunks| - 1]) == id;
    }
  }

  /** The id of the next chunk is taken exactly when the chunks so far and it are not distinct. */
  lemma IdTaken(path: string, title: string, chunks: seq<Chunk>, i: nat, stored: map<ChunkId, ChunkRow>)
    requires i < |chunks| && DistinctIds(chunks[..i])
    ensures var id, rows := IdOf(path, chunks[i]), ReplaceChunks(stored, path, ChunkRows(path, title, chunks[..i]));
      && (id !in rows <==> DistinctIds(chunks[..i + 1]))
      && (id in rows ==> !DistinctIds(chunks))
      && rows[id := ChunkRow(title, chunks[i].content, chunks[i].tokens, chunks[i].position)]
           == ReplaceChunks(stored, path, ChunkRows(path, title, chunks[..i + 1]))
  {
    hide DistinctIds;
    var id := IdOf(path, chunks[i]);
    RowAt(path, title, chunks[..i], id);
    DistinctSnoc(path, chunks, i);
    assert chunks[..i + 1][..i] == chunks[..i];
  }

  lemma DistinctSnoc(path: string, chunks: seq<Chunk>, i: nat)
    requires i < |chunks| && DistinctIds(chunks[..i])
    ensures DistinctIds(chunks[..i + 1]) <==> !exists j :: 0 <= j < i && IdOf(path, chunks[..i][j]) == IdOf(path, chunks[i])
    ensures DistinctIds(chunks) ==> DistinctIds(chunks[..i + 1])
  {
    var a, b := chunks[..i], chunks[..i + 1];
    assert forall j :: 0 <= j < i ==> a[j] == b[j] == chunks[j];
    assert b[i] == chunks[i];
  }

  lemma LinkKeysSnoc(from: string, links: seq<Link>, i: nat)
    requires i < |links|
    ensures LinkKeys(from, links[..i + 1]) == LinkKeys(from, links[..i]) + {LinkKey(from, links[i].kind, links[i].target)}
  {
    assert links[..i + 1][..i] == links[..i];
  }

  /** Rows of other documents stay as they are. */
  ghost predicate OthersSame(t: Tables, u: Tables, path: string) {
    && (forall id :: id in t.chunks && id.path != path ==> id in u.chunks && u.chunks[id] == t.chunks[id])
    && (forall id :: id in u.chunks && id.path != path ==> id in t.chunks)
    && (forall k :: k in t.links && k.from != path ==> k in u.links && u.links[k] == t.links[k])
    && (forall k :: k in u.links && k.from != path ==> k in t.links)
  }

  lemma UpsertRows(lib: PathLib, t: Tables, path: string, content: string, doc: Parsed, commit: string)
    ensures DistinctIds(doc.chunks) <==>
      forall i, j :: 0 <= i < j < |doc.chunks| ==> doc.chunks[i].heading != doc.chunks[j].heading || doc.chunks[i].part != doc.chunks[j].part
    ensures var u := Apply(lib, t, Upsert(path, content, doc, commit));
      && (DistinctIds(doc.chunks) ==> HoldsRows(u, path, doc)) && OthersSame(t, u, path)
      && u.documents == t.documents[path := DocRow(doc.meta, content, commit, 2)]
      && forall k :: k in u.links && k.from == path ==> u.links[k] == ""
  {
    hide DistinctIds, HoldsRows, OthersSame, Apply;
    TwiceTheSameId(doc.chunks);
    UpsertOthers(lib, t, path, content, doc, commit);
    if DistinctIds(doc.chunks) {
      UpsertOwn(lib, t, path, content, doc, commit);
    }
  }

  lemma UpsertOthers(lib: PathLib, t: Tables, path: string, content: string, doc: Parsed, commit: string)
    ensures var u := Apply(lib, t, Upsert(path, content, doc, commit));
      && OthersSame(t, u, path) && u.documents == t.documents[path := DocRow(doc.meta, content, commit, 2)]
      && forall k :: k in u.links && k.from == path ==> u.links[k] == ""
  {
    hide ChunkRows, LinkKeys;
  }

  lemma UpsertOwn(lib: PathLib, t: Tables, path: string, content: string, doc: Parsed, commit: string)
    requires DistinctIds(doc.chunks)
    ensures HoldsRows(Apply(lib, t, Upsert(path, content, doc, commit)), path, doc)
  {
    hide ChunkRows, LinkKeys, DistinctIds, HoldsRows;
    var u := Apply(lib, t, Upsert(path, content, doc, commit));
    assert ChunksOf(u, path) == ChunkRows(path, doc.meta.title, doc.chunks);
    assert LinksOf(u, path).Keys == LinkKeys(path, doc.links);
    hide Apply, ChunksOf, LinksOf;
    RowsHeld(u, path, doc);
  }

  lemma TwiceTheSameId(chunks: seq<Chunk>)
    ensures DistinctIds(chunks) <==>
      forall i, j :: 0 <= i < j < |chunks| ==> chunks[i].heading != chunks[j].heading || chunks[i].part != chunks[j].part
  {}

  lemma LinksNow(rows: map<LinkKey, string>, from: string, links: seq<Link>)
    ensures var now := T.ReplaceLinks(rows, from, LinkKeys(from, links));
      && (forall k :: k in now <==>
            if k.from == from then exists i :: 0 <= i < |links| && links[i].kind == k.kind && links[i].target == k.target
            else k in rows)
      && forall k :: k in now ==> now[k] == if k.from == from then "" else rows[k]
  {
    hide LinkKeys;
    LinkKeysAre(from, links);
  }

  lemma NoLinks(links: map<LinkKey, string>, from: string)
    ensures (map k | k in links && k.from != from :: links[k]) == T.ReplaceLinks(links, from, {})
  {
  }

  lemma OneMoreLink(links: map<LinkKey, string>, from: string, keys: set<LinkKey>, k: LinkKey)
    requires k.from == from && forall l :: l in keys ==> l.from == from
    ensures var rows := T.ReplaceLinks(links, from, keys);
      T.ReplaceLinks(links, from, keys + {k}) == if k in rows then rows else rows[k := ""]
  {
  }

  lemma PutSnoc(embed: Embed, t: Tables, vectors: map<ChunkId, VectorRow>, model: string, ids: seq<ChunkId>, i: nat)
    requires i < |ids| && SetOf(ids) <= t.chunks.Keys
    ensures SetOf(ids[..i + 1]) <= t.chunks.Keys && SetOf(ids[..i]) <= t.chunks.Keys
    ensures Put(embed, t, vectors, model, SetOf(ids[..i + 1]))
         == Put(embed, t, vectors, model, SetOf(ids[..i]))[ids[i] := NewRow(embed, t, model, ids[i])]
  {
    hide NewRow;
    assert ids[..i + 1] == ids[..i] + [ids[i]];
  }

  /** Stored at once, what was read is still what the tables hold. */
  lemma {:induction false} WrittenNow(embed: Embed, t: Tables, vectors: map<ChunkId, VectorRow>, model: string, chunks: seq<PendingChunk>)
    requires forall i :: 0 <= i < |chunks| ==> chunks[i].id in t.chunks && chunks[i] == Snapshot(t, chunks[i].id)
    ensures SetOf(IdsOf(chunks)) <= t.chunks.Keys
    ensures Written(vectors, model, chunks, Embeddings(embed, model, chunks)) == Put(embed, t, vectors, model, SetOf(IdsOf(chunks)))
  {
    hide EmbeddingText;
    if chunks != [] {
      hide Put, Snapshot;
      var l := |chunks| - 1;
      var front, last, ids := chunks[..l], chunks[l], IdsOf(chunks);
      assert SetOf(ids) <= t.chunks.Keys;
      assert ids[..l] == IdsOf(front) && ids[..l + 1] == ids;
      WrittenNow(embed, t, vectors, model, front);
      PutSnoc(embed, t, vectors, model, ids, l);
      assert Embeddings(embed, model, chunks)[..l] == Embeddings(embed, model, front);
      SnapshotRow(embed, t, model, last.id);
    }
  }

  lemma SnapshotRow(embed: Embed, t: Tables, model: string, id: ChunkId)
    requires id in t.chunks
    ensures var c := Snapshot(t, id); NewRow(embed, t, model, id) == VectorRow(model, c.hash, embed(model, c.text))
  {}

  /** A batch stored as it was read: each of its chunks gets a row with what the model makes of its
      heading and its content, and no other row is touched. */
  lemma ReadWritten(embed: Embed, t: Tables, vectors: map<ChunkId, VectorRow>, model: string, chunks: seq<PendingChunk>)
    requires Read(t, vectors, model, chunks)
    ensures SetOf(IdsOf(chunks)) <= t.chunks.Keys
    ensures Written(vectors, model, chunks, Embeddings(embed, model, chunks)) == Put(embed, t, vectors, model, SetOf(IdsOf(chunks)))
    ensures var now := Written(vectors, model, chunks, Embeddings(embed, model, chunks));
      && (forall id :: id in now <==> id in vectors || exists i :: 0 <= i < |chunks| && chunks[i].id == id)
      && (forall i :: 0 <= i < |chunks| ==>
            var id := chunks[i].id;
            && id in t.chunks
            && now[id] == VectorRow(model, t.chunks[id].content, embed(model, id.heading + "\n" + t.chunks[id].content)))
      && forall id :: id in vectors && (forall i :: 0 <= i < |chunks| ==> chunks[i].id != id) ==> now[id] == vectors[id]
  {
    hide Snapshot, Written, Put, Stale;
    WrittenNow(embed, t, vectors, model, chunks);
    var ids := SetOf(IdsOf(chunks));
    PutIs(embed, t, vectors, model, ids);
    forall id ensures id in ids <==> exists i :: 0 <= i < |chunks| && chunks[i].id == id {
      if id in ids {
        var i :| 0 <= i < |IdsOf(chunks)| && IdsOf(chunks)[i] == id;
        assert chunks[i].id == id;
      } else {
        forall i | 0 <= i < |chunks| ensures chunks[i].id != id {
          assert IdsOf(chunks)[i] == chunks[i].id;
        }
      }
    }
  }
}
