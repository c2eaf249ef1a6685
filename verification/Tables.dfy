/** internal/store: the document, chunk and link tables, as values, and the statements an index run
    applies to them.  A content hash stands for the content it is the hash of, and a chunk id for the
    path, heading and part it is the hash of. */
module Tables {
  import opened Sequences
  import opened Strings
  import opened Links

  /** Documents stored with an older version of the link rules are parsed again. */
  const LINKS_VERSION := 2

  datatype Meta = Meta(scope: string, title: string, tags: seq<string>, refs: seq<string>, frontMatter: string)

  datatype Chunk = Chunk(heading: string, part: nat, content: string, tokens: nat, position: nat)

  /** A parsed file. */
  datatype Parsed = Parsed(meta: Meta, chunks: seq<Chunk>, links: seq<Link>)

  datatype Parse = ParseError | Parses(doc: Parsed)

  datatype DocRow = DocRow(meta: Meta, hash: string, commit: string, linksScanned: int)

  datatype ChunkId = ChunkId(path: string, heading: string, part: nat)

  datatype ChunkRow = ChunkRow(title: string, content: string, tokens: nat, position: nat)

  datatype LinkKey = LinkKey(from: string, kind: Kind, target: string)

  datatype Tables = Tables(documents: map<string, DocRow>, chunks: map<ChunkId, ChunkRow>, links: map<LinkKey, string>)

  const EMPTY := Tables(map[], map[], map[])

  // ----- rows of one document -----

  function IdOf(path: string, c: Chunk): ChunkId {
    ChunkId(path, c.heading, c.part)
  }

  predicate DistinctIds(chunks: seq<Chunk>) {
    forall i, j :: 0 <= i < j < |chunks| ==> chunks[i].heading != chunks[j].heading || chunks[i].part != chunks[j].part
  }

  function ChunkRows(path: string, title: string, chunks: seq<Chunk>): (rows: map<ChunkId, ChunkRow>)
    ensures forall id :: id in rows ==> id.path == path
  {
    if chunks == [] then map[]
    else
      var c := chunks[|chunks| - 1];
      ChunkRows(path, title, chunks[..|chunks| - 1])[IdOf(path, c) := ChunkRow(title, c.content, c.tokens, c.position)]
  }

  function LinkKeys(path: string, links: seq<Link>): (keys: set<LinkKey>)
    ensures forall k :: k in keys ==> k.from == path
  {
    if links == [] then {}
    else
      var l := links[|links| - 1];
      LinkKeys(path, links[..|links| - 1]) + {LinkKey(path, l.kind, l.target)}
  }

  /** The stored chunks of a document. */
  function ChunksOf(t: Tables, path: string): map<ChunkId, ChunkRow> {
    map id | id in t.chunks && id.path == path :: t.chunks[id]
  }

  function LinksOf(t: Tables, path: string): map<LinkKey, string> {
    map k | k in t.links && k.from == path :: t.links[k]
  }

  // ----- statements -----

  datatype Op =
    | Upsert(path: string, content: string, doc: Parsed, commit: string)
    | DeleteDocument(path: string)
    | DeleteLinks(path: string)
    | ResolveLinks

  /** What a link row resolves to. */
  ghost function Target(lib: PathLib, paths: set<string>, k: LinkKey): string {
    if exists r :: ResolvesTo(lib, paths, k.from, Link(k.target, k.kind), r) then
      var r :| ResolvesTo(lib, paths, k.from, Link(k.target, k.kind), r); r
    else ""
  }

  lemma TargetIs(lib: PathLib, paths: set<string>, k: LinkKey, r: string)
    requires ResolvesTo(lib, paths, k.from, Link(k.target, k.kind), r)
    ensures Target(lib, paths, k) == r
  {
    hide ResolvesTo;
    ResolvesToOne(lib, paths, k.from, Link(k.target, k.kind), r, Target(lib, paths, k));
  }

  /** What that is. */
  lemma TargetResolves(lib: PathLib, paths: set<string>, k: LinkKey)
    ensures var r, t := Target(lib, paths, k), TrimSpace(k.target); var p := lib.join(k.from, t);
      if k.kind.Markdown? then r == if p in paths then p else ""
      else if '/' in t && t in paths then r == t
      else if '/' in t && t + ".md" in paths then r == t + ".md"
      else if '/' in t && p in paths then r == p
      else if '/' in t && p + ".md" in paths then r == p + ".md"
      else if forall q :: q in paths ==> lib.base(q) != lib.base(t) then r == ""
      else
        && r in paths && lib.base(r) == lib.base(t)
        && forall q :: q in paths && lib.base(q) == lib.base(t) ==>
          |r| <= |q| && (|q| == |r| && q != r ==> exists k :: 0 <= k < |r| && r[..k] == q[..k] && r[k] < q[k])
  {
    hide ResolvesTo, TrimSpace;
    var r := ResolvesToSomething(lib, paths, k.from, Link(k.target, k.kind));
    ResolvesToIs(lib, paths, k.from, Link(k.target, k.kind), Target(lib, paths, k));
  }

  /** Rows for the new links, unresolved, beside the rows of other documents. */
  function ReplaceLinks(links: map<LinkKey, string>, path: string, keys: set<LinkKey>): map<LinkKey, string> {
    var others := map k | k in links && k.from != path :: links[k];
    others + map k | k in keys :: ""
  }

  function ReplaceChunks(chunks: map<ChunkId, ChunkRow>, path: string, rows: map<ChunkId, ChunkRow>): map<ChunkId, ChunkRow> {
    var others := map id | id in chunks && id.path != path :: chunks[id];
    others + rows
  }

  ghost function Apply(lib: PathLib, t: Tables, op: Op): Tables {
    match op
    case Upsert(path, content, doc, commit) =>
      Tables(
        t.documents[path := DocRow(doc.meta, content, commit, LINKS_VERSION)],
        ReplaceChunks(t.chunks, path, ChunkRows(path, doc.meta.title, doc.chunks)),
        ReplaceLinks(t.links, path, LinkKeys(path, doc.links)))
    case DeleteDocument(path) =>
      t.(documents := t.documents - {path}, chunks := ReplaceChunks(t.chunks, path, map[]))
    case DeleteLinks(path) =>
      t.(links := ReplaceLinks(t.links, path, {}))
    case ResolveLinks =>
      t.(links := map k | k in t.links :: Target(lib, t.documents.Keys, k))
  }

  ghost function ApplyAll(lib: PathLib, t: Tables, ops: seq<Op>): Tables {
    if ops == [] then t else Apply(lib, ApplyAll(lib, t, ops[..|ops| - 1]), ops[|ops| - 1])
  }

  lemma {:induction false} ApplyConcat(lib: PathLib, t: Tables, a: seq<Op>, b: seq<Op>)
    ensures ApplyAll(lib, t, a + b) == ApplyAll(lib, ApplyAll(lib, t, a), b)
  {
    hide Apply;
    if b == [] {
      assert a + b == a;
    } else {
      var l := |b| - 1;
      assert (a + b)[..|a| + l] == a + b[..l];
      ApplyConcat(lib, t, a, b[..l]);
    }
  }

  lemma ApplySnoc(lib: PathLib, t: Tables, ops: seq<Op>, op: Op)
    ensures ApplyAll(lib, t, ops + [op]) == Apply(lib, ApplyAll(lib, t, ops), op)
  {
    hide Apply;
    assert (ops + [op])[..|ops|] == ops;
  }

  // ----- what the rows of a document say -----

  /** Each chunk of the document has its row, under its heading and part, and each of its links a
      row, and no other row is the document's. */
  ghost predicate HoldsRows(t: Tables, path: string, doc: Parsed) {
    && (forall i :: 0 <= i < |doc.chunks| ==>
          var c := doc.chunks[i];
          var id := ChunkId(path, c.heading, c.part);
          id in t.chunks && t.chunks[id] == ChunkRow(doc.meta.title, c.content, c.tokens, c.position))
    && (forall id :: id in t.chunks && id.path == path ==>
          exists i :: 0 <= i < |doc.chunks| && doc.chunks[i].heading == id.heading && doc.chunks[i].part == id.part)
    && (forall k :: k in t.links && k.from == path ==>
          exists i :: 0 <= i < |doc.links| && doc.links[i].kind == k.kind && doc.links[i].target == k.target)
    && (forall i :: 0 <= i < |doc.links| ==> LinkKey(path, doc.links[i].kind, doc.links[i].target) in t.links)
  }

  lemma {:induction false} ChunkRowsAre(path: string, title: string, chunks: seq<Chunk>)
    requires DistinctIds(chunks)
    ensures forall id :: id in ChunkRows(path, title, chunks) ==>
      exists i :: 0 <= i < |chunks| && chunks[i].heading == id.heading && chunks[i].part == id.part
    ensures forall i :: 0 <= i < |chunks| ==>
      var c := chunks[i];
      var id := ChunkId(path, c.heading, c.part);
      id in ChunkRows(path, title, chunks) && ChunkRows(path, title, chunks)[id] == ChunkRow(title, c.content, c.tokens, c.position)
  {
    if chunks != [] {
      var front := chunks[..|chunks| - 1];
      assert forall i :: 0 <= i < |front| ==> front[i] == chunks[i];
      ChunkRowsAre(path, title, front);
    }
  }

  lemma {:induction false} LinkKeysAre(path: string, links: seq<Link>)
    ensures forall k :: k in LinkKeys(path, links) ==>
      k.from == path && exists i :: 0 <= i < |links| && links[i].kind == k.kind && links[i].target == k.target
    ensures forall i :: 0 <= i < |links| ==> LinkKey(path, links[i].kind, links[i].target) in LinkKeys(path, links)
  {
    if links != [] {
      var front := links[..|links| - 1];
      assert forall i :: 0 <= i < |front| ==> front[i] == links[i];
      LinkKeysAre(path, front);
    }
  }

  lemma RowsHeld(t: Tables, path: string, doc: Parsed)
    requires DistinctIds(doc.chunks)
    requires ChunksOf(t, path) == ChunkRows(path, doc.meta.title, doc.chunks)
    requires LinksOf(t, path).Keys == LinkKeys(path, doc.links)
    ensures HoldsRows(t, path, doc)
  {
    hide ChunkRows, LinkKeys, DistinctIds;
    ChunkRowsAre(path, doc.meta.title, doc.chunks);
    LinkKeysAre(path, doc.links);
    assert forall id :: id in t.chunks && id.path == path ==> id in ChunksOf(t, path);
    assert forall k :: k in t.links && k.from == path ==> k in LinksOf(t, path).Keys;
  }

  // ----- the plan of one run -----

  datatype File = File(path: string, content: string)

  /** parse is ingest.Load: a function of path and content. */
  datatype Env = Env(parse: (string, string) -> Parse, lib: PathLib)

  /** The document row is current for this content. */
  predicate UpToDate(t: Tables, f: File) {
    f.path in t.documents && t.documents[f.path].hash == f.content && t.documents[f.path].linksScanned >= LINKS_VERSION
  }

  /** A file that stops the run: it does not parse, or its chunk ids collide when it is stored. */
  predicate Stops(env: Env, t: Tables, f: File, force: bool) {
    var p := env.parse(f.path, f.content);
    p.ParseError? || ((force || !UpToDate(t, f)) && !DistinctIds(p.doc.chunks))
  }

  predicate Skips(t: Tables, f: File, force: bool) {
    !force && UpToDate(t, f)
  }

  /** The upserts for the first n files. */
  function Upserts(env: Env, t: Tables, files: seq<File>, n: nat, force: bool, commit: string): seq<Op>
    requires n <= |files|
  {
    if n == 0 then []
    else
      var f := files[n - 1];
      var p := env.parse(f.path, f.content);
      Upserts(env, t, files, n - 1, force, commit) +
      if Skips(t, f, force) || p.ParseError? then [] else [Upsert(f.path, f.content, p.doc, commit)]
  }

  function Deletes(stale: seq<string>): seq<Op> {
    if stale == [] then [] else Deletes(stale[..|stale| - 1]) + [DeleteDocument(stale[|stale| - 1]), DeleteLinks(stale[|stale| - 1])]
  }

  predicate Walk(files: seq<File>) {
    forall i, j :: 0 <= i < j < |files| ==> files[i].path != files[j].path
  }

  /** Stored documents that are not among the files, each once. */
  ghost predicate IsStale(t: Tables, files: seq<File>, stale: seq<string>) {
    && Distinct(stale)
    && forall p :: p in stale <==> p in t.documents && forall i :: 0 <= i < |files| ==> files[i].path != p
  }

  /** Every statement of a run that nothing stops. */
  function Plan(env: Env, t: Tables, files: seq<File>, force: bool, commit: string, stale: seq<string>): seq<Op> {
    var changes := Upserts(env, t, files, |files|, force, commit) + Deletes(stale);
    if changes == [] then [] else changes + [ResolveLinks]
  }
}
