# briefd: a verified model

briefd indexes Markdown knowledge, ranks its sections for a request, and packs the best of them into a
token budget. This project models its hard parts in Dafny and proves what they promise. Where code and
documentation disagree, the model follows the code and a lemma says exactly when the promise holds.

| files | what they model |
|---|---|
| `Tables`, `Index`, `Storage`, `Indexer` | the incremental index as a state machine over disk snapshots: runs that skip, store, delete and re-resolve, and that can end after any statement, against a rebuild from nothing |
| `Vectors` (and `Indexer.EmbedPending`) | incremental embedding, over any history of edits, runs and models |
| `Links` | the link resolver and what it resolves to |
| `Tokenizer`, `Runes` | the token estimator as a scanner and as a one-rune-at-a-time fold |
| `Rendering`, `Truncation`, `Packing`, `Bundles` | the budget chain: rendered text, cutting, greedy packing, compiling |
| `Keys`, `Lru`, `BundleCache` | cache keys, the memory cache, and the coherence of both caches under index runs and drift |
| `Serving`, `Failures`, `Harmless`, `Fingerprints` | the index and the caches as one machine, which failed index runs leave every answer right, and that a fingerprint as they need it exists |
| `Budgets` | the caches and the budget together |
| `Chunker`, `Targets`, `Documents` | splitting oversized sections, when the parts keep the target, numbering repeated breadcrumbs and the chunk ids that come of it |
| `Unigram` | Viterbi segmentation: forward table, walk back, merging of unknowns |
| `Glob`, `Beneath`, `Drift` | globs compiled to regular expressions, what a slash at their end does; drift counts and the history window |
| `TopK`, `Fusion` | the bounded heap of the vector search; rank fusion and its orders |
| `GitTree` | rewriting one file of a commit's tree |
| `Strings`, `Sequences` | string order and trimming; joining, splitting and decimal numbers over any alphabet |

Code that updates state is modelled by classes and loops (`Storage.Store`, `BundleCache.Compiler`,
`TopK.MinHeap`, `GitTree.Repo`, `Unigram.Forward`, ...), each proved equal to a function of its inputs
or its old state; the lemmas are about those functions. What such a function gives is also stated
without it: by the method's own `ensures`, or by a lemma whose result is written out in terms of the
inputs.

Results that differ from what the documentation says:

- `Count` never returns on a text with a non-ASCII digit (`Tokenizer.CountHalts`).
- Parts of a split section can cost one token more than the target, and a single unit up to 800: all
  keep the target exactly when no unit is over it and no buffer is joined with a unit it adds up to the
  target with (`Targets.TargetKeptIff`, `Targets.TargetExceeded`).
- Numbering repeated breadcrumbs does not keep them apart when a section already has the number in its
  name (`Chunker.LabelsDistinctIff`); a changed document ends the index run exactly then
  (`Documents.StopsAtTakenNumber`).
- A bundle exceeds its budget exactly when its header alone does, and then has no section
  (`Bundles.WithinBudgetIff`).
- Globs with a wildcard mean what they say only when they are ASCII (`Glob.WildcardMeansIff`). One that
  ends in a slash matches all that lies beneath the directories it names only where it ends in a double
  star and a slash, and what is before them takes any longer path too: `src/****/` does, `src/*/` and
  `src/**/` do not (`Beneath.BeneathIff`, `Beneath.TrailingSlashWildcard`).
- `ResolveLinks` is skipped by a run that changed nothing, so links can stay broken after a run that was
  cut (`Index.LinksAgreeAfterRunIff`, `Index.CutRunCanLeaveLinksBroken`).
- Scopes are joined by commas in the cache key, so `["a,b"]` and `["a","b"]` get each other's bundle;
  the caches answer a set of requests right exactly when no two of them differ in scopes alone that the
  commas join alike (`BundleCache.AlwaysRightIff`, `BundleCache.CommaScopesGetTheOtherBundle`).
- An index run that fails has changed the tables but not the fingerprint the caches go by. A bundle
  cached before it goes on being the answer (`Harmless.FailedRunLeavesOldAnswer`), and one made half way
  comes back after a later run that succeeds, when that brings back the old fingerprint
  (`Harmless.OldAnswerComesBack`). Every answer is right, whatever is asked and when, exactly when no run
  that recorded no fingerprint applied a statement search sees: none at all when it was not forced, only
  files stored again as they were when it was (`Harmless.AlwaysRightIff`, `Harmless.UnforcedStaysIff`).
  Where requests come in some of the gaps between runs only, exactly when search reads the same in any
  two of those that share a fingerprint (`Failures.AllRightIff`).
- Ties at the cut-off of the vector search follow the scan order (`TopK.ExactIffAscending`).
- A stored vector without dimensions that comes before the first with some is kept as an id without
  data. From then on search scores each id with the vector of a later one and the last ids with zeros;
  ids and vectors are in step exactly otherwise (`TopK.VectorIndex.Reload`, `TopK.AlignedIff`).
- Putting a file over a directory or a submodule keeps that mode and loses the file (`GitTree.GetAfterPutIff`).
- The drift window misses newer commits behind older ones, which skewed clocks allow; for all documents
  it is enough exactly when the newer commits it leaves out touch no path (`Drift.WindowExactIff`).

## Model

| member | source | states |
|---|---|---|
| `Index.StatementKeepsInv` | internal/store/documents.go:37-108 | storing, deleting and resolving keep the tables in step with what their contents parse to, statement by statement |
| `Index.RunKeepsInv` | internal/indexer/indexer.go:58-131 | every run keeps that invariant, whatever stops it and wherever between two statements it is cut |
| `Index.SucceedsIff` | internal/indexer/indexer.go:91-101 | whether a run gets through depends on the files alone, not on what was stored before or on force |
| `Index.SuccessSyncs` | internal/indexer/indexer.go:83-131 | after a run that succeeds the tables hold exactly the files on disk; leftover link rows and resolution are accounted for |
| `Index.SuccessHolds` | internal/indexer/indexer.go:83-131 | whatever was stored before, a run that succeeds leaves of each file its row, a chunk row for each chunk it parses to and a link row for each link, field by field, and no other document or chunk |
| `Index.RunAgrees` | internal/indexer/indexer.go:58-131 | from any tables earlier runs may have left, documents and chunks equal those of a run on an empty store, which succeeds too |
| `Index.HistoryAgrees` | internal/indexer/indexer.go:58-131 | the same over every history of snapshots and runs, forced or not, cut or not, whose last run succeeds |
| `Index.SuccessfulHistoryAgrees` | internal/indexer/indexer.go:58-131 | when every run succeeds, resolved links equal those of a rebuild as well |
| `Index.LinksAgreeAfterRunIff` | internal/indexer/indexer.go:127-131 | after arbitrary earlier runs, links equal a rebuild's exactly when no link row outlived its document and the run changed something or found links resolved |
| `Index.CutRunCanLeaveLinksBroken` | internal/indexer/indexer.go:127-131 | a concrete history in which they do not |
| `Index.KnowledgeDetermines` | internal/store/bundles.go:14-34 | the paths and contents the fingerprint hashes determine documents and chunks |
| `Index.RunKnowledge` | internal/store/bundles.go:14-34 | a run that succeeds leaves the paths and contents on disk; one that had nothing to do changes none |
| `Storage.Store.UpsertDocument` | internal/store/documents.go:37-96 | succeeds exactly when no two chunks share heading and part; then the rows of the document, its chunks and its unresolved links are those given, field by field, and all other rows as before; else nothing changes |
| `Storage.Store.ReplaceLinks` | internal/store/links.go:57-67 | the document's links become the given ones, each once and unresolved; other rows stay |
| `Storage.Store.DeleteDocument` | internal/store/documents.go:100-108 | row and chunks go, then the links, unless the second statement fails; no other row changes |
| `Storage.Store.ResolveLinks` | internal/store/links.go:71-114 | every link row ends up with what it resolves to among the stored documents, though only rows that differ are written |
| `Storage.Store.PendingVectors` | internal/store/vectors.go:20-43 | the given number of chunks out of date for the model, or all if fewer, none twice, each with its content of now and the text to embed: heading, newline, content; oldest documents first, by position, and nothing left out comes before what is returned |
| `Vectors.TextTellsContent` | internal/store/vectors.go:45-49 | the text embedded ends in the whole content, so under one heading different contents are embedded as different texts |
| `Storage.Store.PutVectors` | internal/store/vectors.go:64-90 | refuses differing counts; else writes exactly the rows of these chunks, each with its embedding under the hash it was read with |
| `Storage.ReadWritten` | internal/indexer/indexer.go:195-212 | a batch stored as it was read leaves each of its chunks one row, with its content and the embedding of heading, newline and content, and touches no other |
| `Vectors.LateWrite` | internal/store/vectors.go:64-90 | however chunks changed between read and write, no row claims a content it was not made for, a chunk is pending again exactly when its content changed, and other chunks keep their state |
| `Storage.Store.PruneVectors` | internal/store/vectors.go:93-100 | exactly the rows whose chunk exists stay |
| `Indexer.Run` | internal/indexer/indexer.go:58-131 | the run loop leaves exactly the state of the specified run and succeeds exactly when that does; then the tables hold the files row by row, links are resolved if anything changed, skipped counts the files already current, and nothing counted means nothing changed |
| `Indexer.EmbedPending` | internal/indexer/indexer.go:172-222 | terminates; done exactly when the embedder lasts for enough batches of 16 or the given size, and then every stored chunk is loaded with the embedding of heading, newline and content and the scope of its document; until then exactly the embedded chunks have new rows |
| `Vectors.LoadedIsCurrent` | internal/store/vectors.go:111-138 | nothing out of date is ever loaded, even half way |
| `Vectors.LoadedExactly` | internal/store/vectors.go:111-138 | loaded is exactly what is stored, embedded by this model and unchanged since, with the scope of its document |
| `Vectors.LoadedIffNothingPending` | internal/store/vectors.go:111-138 | nothing is pending exactly when every stored chunk loads with the embedding of its heading, a newline and its content, and the scope of its document |
| `Vectors.PutShrinks` | internal/indexer/indexer.go:191-220 | a batch takes exactly its chunks off the pending set |
| `Vectors.EmbeddingCatchesUp` | internal/indexer/indexer.go:172-222 | over every history of index runs, failed batches and model switches: after a completed embedding every chunk loads with the embedding of its heading, a newline and its content of now |
| `Links.Resolver.constructor` | internal/ingest/links.go:74-90 | the index by base name is complete and each list is led by its shortest path, of several the first in string order |
| `Links.Resolver.Resolve` | internal/ingest/links.go:94-117 | a Markdown link resolves to the joined path if stored; one with a slash to its text, that with ".md", the joined path, or that with ".md", whichever is stored first; any other to a stored path of its base name that none is shorter than, and of those as short the one with the smaller character where they first differ; else to nothing |
| `Links.ResolvesToIs` | internal/ingest/links.go:82-117 | whatever a link resolves to is that, written out candidate by candidate |
| `Tables.TargetResolves` | internal/ingest/links.go:82-117 | so is the target that resolving writes into a link row |
| `Links.ResolvesToOne` | internal/ingest/links.go:64-117 | that is one thing only, whatever order documents came in |
| `BundleCache.Compiler.Compile` | internal/bundle/bundle.go:91-137 | an empty request is refused; otherwise memory, store or compilation answers the normalized request; a bundle made now is built from what search finds with the drift of each section attached, and stored; all caches change as specified |
| `BundleCache.CompiledIs` | internal/bundle/bundle.go:91-137 | which cache answers, with which bundle, and what the store holds afterwards, hit counters included |
| `BundleCache.BuiltFrom` | internal/search/search.go:201-217 | the hits a bundle is built from are those search finds, each with the count and time of its document if it has drifted |
| `BundleCache.CompiledRemembers` | internal/bundle/bundle.go:444-478 | the memory cache then has the answer, used last, and has lost at most the entry used longest ago, when it was full and the key new |
| `BundleCache.Compiler.Invalidate` | internal/bundle/bundle.go:255-261 | both caches are emptied and nothing else changes |
| `BundleCache.Compiler.LruGet` | internal/bundle/bundle.go:444-453 | a hit is moved to the back of the order |
| `BundleCache.Compiler.LruPut` | internal/bundle/bundle.go:455-469 | the bundle is stored at the back; while more than 256 are held the front goes |
| `BundleCache.Compiler.Touch` | internal/bundle/bundle.go:471-478 | the key moves to the back, the rest keeps its order |
| `Lru.TouchKeeps` | internal/bundle/bundle.go:471-478 | the order stays duplicate-free, names exactly what is held, and is the order of last use |
| `Lru.PutKeeps` | internal/bundle/bundle.go:455-469 | likewise, at most 256 long; at most one entry is lost, the one used longest ago, and only when full |
| `BundleCache.EventKeeps` | internal/store/bundles.go:165-172 | index runs, drift checks and compilations keep every cached bundle equal to what its request compiles to under today's drift |
| `BundleCache.CompileIsTransparent` | internal/bundle/bundle.go:91-137 | with coherent caches, a request that clashes with none asked before gets what compiling now would return |
| `BundleCache.HistoryIsTransparent` | cmd/briefd/serve.go:606-630 | the same over every interleaving of index runs, drift checks and requests, with the memory cache in order throughout |
| `BundleCache.AlwaysRightIff` | internal/bundle/bundle.go:91-137 | over all such histories of requests from a set, every answer is right exactly when no two of the set clash |
| `BundleCache.ClashGetsTheOther` | internal/bundle/bundle.go:336-340 | the second of two clashing requests gets the first one's bundle, which is not its own |
| `BundleCache.SecondAnswerIff` | internal/bundle/bundle.go:336-340 | on empty caches a second request is answered right exactly when it does not clash with the first |
| `BundleCache.CommaScopesGetTheOtherBundle` | internal/bundle/bundle.go:336-340 | a request for scopes a and b after one for the scope "a,b" gets the latter's bundle |
| `BundleCache.BundleStore.ReplaceDrift` | internal/store/drift.go:60-92 | the table gets one row for each document, its time cut to seconds, or, on two rows for one document, is untouched; change is reported exactly when documents, a count or a time differ |
| `BundleCache.ChangedIffVisible` | internal/store/drift.go:65-70 | comparing lengths and rows reports a change exactly when visible counts or times differ |
| `BundleCache.BundleStore.AttachDrift` | internal/store/drift.go:131-145 | a section whose document has a row gets its commits and its time and nothing else changes; any other section is returned as it is |
| `BundleCache.AttachedIs` | internal/store/drift.go:131-145 | the same of the hits, document by document |
| `BundleCache.AttachedShowsVisible` | internal/store/drift.go:131-145 | sections depend on the visible part of the table only |
| `BundleCache.BundleStore.GetBundleByKey` | internal/store/bundles.go:89-101 | a found bundle is returned and its hit counter bumped |
| `BundleCache.BundleStore.PutBundle` | internal/store/bundles.go:134-160 | an existing row wins |
| `BundleCache.BundleStore.PruneBundles` | internal/store/bundles.go:165-172 | exactly the rows of this fingerprint stay |
| `BundleCache.BundleStore.FinishRun` | internal/indexer/indexer.go:143-154 | the fingerprint is recorded and older bundles pruned if the run changed something |
| `BundleCache.StoreDrift` | cmd/briefd/serve.go:618-630 | drift is replaced and the caches dropped if that changed what bundles show |
| `Keys.NormalizeList` | internal/bundle/bundle.go:319-334 | trimmed, emptied, deduplicated and sorted, equal to the canonical list |
| `Keys.CanonicalIs` | internal/bundle/bundle.go:319-334 | that list is strictly ascending and holds exactly the cleaned, non-empty entries |
| `Keys.NormalizedRequest` | internal/bundle/bundle.go:92-109 | what a request comes to: trimmed task; trimmed scopes, the default ones when none are given; cleaned paths; the default limit when none is given |
| `Keys.CleanPathIs` | internal/bundle/bundle.go:342-358 | backslashes become slashes, then white space around the path goes, then a leading "./" |
| `Keys.OrderDoesNotMatter` | internal/bundle/bundle.go:342-358 | the same entries in any order, repeated or padded, come to the same list, hence the same key |
| `Keys.KeysAgreeIff` | internal/bundle/bundle.go:336-340 | without control characters, keys agree exactly when requests differ at most in how scopes and paths split into entries |
| `Keys.TameKeysAgreeIff` | internal/bundle/bundle.go:336-340 | requests share a key exactly when they are the same, or differ only in how commas join their scopes, against the same index |
| `Keys.NoCommasNoClash` | internal/bundle/bundle.go:336-340 | where no scope has a comma no two requests clash |
| `Keys.CommaScopesClash` | internal/bundle/bundle.go:336-340 | scopes "a,b" and a, b do |
| `Serving.RunIsEnabled` | internal/indexer/indexer.go:143-154 | an index run that succeeds does to the caches what their machine expects: with nothing stored or deleted, the indexed paths and contents are those it found |
| `Serving.AnswersComeFromTheTables` | internal/bundle/bundle.go:91-137 | while the runs so far succeeded, over every course of runs, drift checks and requests: a request that clashes with no earlier one is answered from the tables and the drift of now |
| `Failures.RightWhenViewsAgree` | internal/bundle/bundle.go:91-137 | in any course, failed runs included, an answer is right if search reads what it read each time the request was asked under this fingerprint, since caches were last dropped |
| `Failures.OldViewAnswers` | internal/bundle/bundle.go:114-125 | the bundle made in one of two gaps that share a fingerprint answers in the other |
| `Failures.AllRightIff` | internal/indexer/indexer.go:88-154 | for any runs, failed or not, drift checks and gaps to ask in: every answer is right, for all searches and renderings, exactly when search reads the same in any two of the gaps that share a fingerprint with no drop between |
| `Harmless.ViewStaysIff` | internal/indexer/indexer.go:88-131 | a run, however it ends, leaves what search reads as it was exactly when it only stored files again that were up to date |
| `Harmless.UnforcedStaysIff` | internal/indexer/indexer.go:96-101 | one that is not forced, exactly when it applied no statement |
| `Harmless.AlwaysRightIff` | internal/indexer/indexer.go:88-154 | asked at any time, every answer is right exactly when no run that recorded no fingerprint did more than that |
| `Harmless.FailedRunLeavesOldAnswer` | internal/indexer/indexer.go:101-154 | ask, a run that fails after storing a document, ask again: the second answer is not made from the tables |
| `Harmless.OldAnswerComesBack` | internal/store/bundles.go:165-172 | a run, one that fails after storing a document, ask, a run that succeeds and drops it, ask again: tables and fingerprint are the first run's, the answer shows the document |
| `Fingerprints.TellingExists` | internal/store/bundles.go:14-34 | there is a fingerprint that tells indexes apart and holds no separator, so these results are about something |
| `Budgets.AnswersKeepTheBudget` | internal/bundle/bundle.go:91-178 | whatever was asked before, cached, clashing or made half way, a bundle returned with a section keeps the budget of the request it answers |
| `Tokenizer.Count` | internal/tokenizer/tokenizer.go:19-75 | the nested scanning loops compute the one-rune fold |
| `Tokenizer.CountHalts` | internal/tokenizer/tokenizer.go:53-59 | Count returns on exactly the texts whose digits are all ASCII |
| `Tokenizer.AppendMonotone` | internal/tokenizer/tokenizer.go:19-75 | appending never lowers the estimate |
| `Tokenizer.NewlineSubadditive` | internal/tokenizer/tokenizer.go:29-36 | Count(x, newline, y) <= Count(x) + 1 + Count(y) for all x, y |
| `Tokenizer.BlankLineSubadditive` | internal/tokenizer/tokenizer.go:29-36 | a blank line costs no more than a newline |
| `Tokenizer.LineSuffixBelow` | internal/tokenizer/tokenizer.go:29-36 | what follows a newline costs no more than the whole |
| `Tokenizer.CutBefore` | internal/tokenizer/tokenizer.go:19-75 | the estimate is exact where the second text does not go on with the run the first ends in |
| `Tokenizer.WordPrice` | internal/tokenizer/tokenizer.go:81-90 | an ASCII word is one token up to eight runes, then one for every seven begun; any other word one for every three begun |
| `Tokenizer.DigitsPrice` | internal/tokenizer/tokenizer.go:53-59 | digits go three to a token |
| `Tokenizer.MarksPrice` | internal/tokenizer/tokenizer.go:60-72 | so do symbols |
| `Tokenizer.BreaksPrice` | internal/tokenizer/tokenizer.go:29-36 | a newline with the breaks behind it is one token |
| `Tokenizer.GapPrice` | internal/tokenizer/tokenizer.go:37-39 | other white space is free |
| `Tokenizer.ConcatCanCostMore` | internal/tokenizer/tokenizer.go:81-90 | without a separator the estimate is not subadditive |
| `Tokenizer.TrimBelow` | internal/tokenizer/tokenizer.go:37-39 | trimming whitespace never costs |
| `Chunker.SplitByRunes` | internal/ingest/chunker.go:215-227 | the shrinking loop computes the rune pieces |
| `Chunker.SplitUnits` | internal/ingest/chunker.go:195-213 | paragraphs, else lines, else rune pieces |
| `Chunker.PieceByPiece` | internal/ingest/chunker.go:195-213 | the units of a text are those of its pieces between blank lines, or between newlines, one after the other |
| `Chunker.ParagraphsStayWhole` | internal/ingest/chunker.go:195-213 | paragraphs that fit are units as they are, trimmed, the blank ones left out |
| `Chunker.LongParagraph` | internal/ingest/chunker.go:205-210 | one that does not fit is cut at its newlines |
| `Chunker.LinesStayWhole` | internal/ingest/chunker.go:195-213 | lines that fit are units, trimmed, the blank ones left out |
| `Chunker.LongLine` | internal/ingest/chunker.go:205-210 | one that does not fit goes rune by rune |
| `Chunker.RunePieceIs` | internal/ingest/chunker.go:215-227 | each piece is as many runes of what is left as cutting their number to three quarters, while they cost too much, leaves |
| `Chunker.SplitOversized` | internal/ingest/chunker.go:168-191 | the buffer loop computes the parts |
| `Chunker.PartsAreGroups` | internal/ingest/chunker.go:168-191 | the parts of an oversized section are its units in groups, joined by blank lines; a group ends where its text and the next unit come to more than 500 tokens, and nowhere else |
| `Chunker.PartsFit` | internal/ingest/chunker.go:163-191 | no part over 800 tokens; every part over 501 is a single unit |
| `Targets.TargetKeptIff` | internal/ingest/chunker.go:163-191 | all parts keep the target of 500 exactly when no unit is over it and no open buffer and unit that add up to it are joined |
| `Targets.TargetExceeded` | internal/ingest/chunker.go:181-187 | three paragraphs, two of which become a part of 501 tokens |
| `Targets.BlankLineCost` | internal/ingest/chunker.go:184-187 | between texts without space at the join a blank line costs exactly one token |
| `Chunker.PartsKeep` | internal/ingest/chunker.go:163-191 | without whitespace, the parts in order spell the content |
| `Chunker.PartsGreedy` | internal/ingest/chunker.go:163-191 | neighbouring parts never add up to less than the target |
| `Documents.ChunkDocument` | internal/ingest/chunker.go:134-160 | one loop skips empty sections, numbers breadcrumbs from their second occurrence on, and emits the parts with their numbers, tokens and positions |
| `Documents.DocumentIs` | internal/ingest/chunker.go:134-160 | the chunks are, section by section in order, blank ones left out, the parts of the trimmed content under its breadcrumb, numbered from the second section of that name on, each with its number, text, tokens and place |
| `Chunker.LabelsDistinctIff` | internal/ingest/chunker.go:142-147 | the labels are distinct exactly when no section is already called what a repeat is renamed to |
| `Chunker.LabelsCanCollide` | internal/ingest/chunker.go:142-147 | S, S, S (2) collide |
| `Documents.StorableIff` | internal/ingest/chunker.go:140-158 | the chunk ids of a document are distinct exactly when no section is already called what a repeat is renamed to |
| `Documents.StopsAtTakenNumber` | internal/indexer/indexer.go:91-101 | so a new, changed or forced document ends the run exactly when one is |
| `Rendering.Render` | internal/bundle/bundle.go:265-284 | the text is the header line with id, numbers, scopes, fingerprint and request, then, section by section in order, a title and a text, or the notice that there is none; each title has path and heading, the date if known, and how often and when last the code changed since; each text is the content without the line that opens it with a "#" |
| `Rendering.LaysKeeps` | internal/bundle/bundle.go:265-284 | white space aside, a text so laid out is its header line followed by titles and contents, nothing lost, added or moved |
| `Rendering.BodyKeeps` | internal/bundle/bundle.go:286-297 | of a content that opens with a heading line everything else is shown, of any other all of it |
| `Rendering.FormatDateIs` | internal/bundle/bundle.go:234-243 | a day is shown as four, two and two digits |
| `Runes.DecimalIs` | internal/bundle/bundle.go:271-272 | a printed number reads back as that number and has no leading zero |
| `Rendering.OneLineIs` | internal/bundle/bundle.go:299-306 | the request is shown by its words with one space between, or the first 119 runes of that and an ellipsis |
| `Rendering.OneLineDashes` | internal/bundle/bundle.go:299-306 | two dashes in it are shown as one long one |
| `Rendering.BundleCost` | internal/bundle/bundle.go:225-297 | the rendered bundle, real numbers included, costs at most header cost plus summed section costs |
| `Rendering.SectionCost` | internal/bundle/bundle.go:225-243 | the price Pack puts on a section covers its rendered text |
| `Rendering.HeaderLineCost` | internal/bundle/bundle.go:271-272 | the numbers of the header line are priced apart from its fixed text |
| `Rendering.BodyBelow` | internal/bundle/bundle.go:286-297 | dropping the heading line never costs |
| `Rendering.OneLineSafe` | internal/bundle/bundle.go:299-306 | at most 120 runes, on one line, with nothing that closes the comment |
| `Truncation.Truncate` | internal/bundle/bundle.go:408-436 | returns the cut text |
| `Truncation.LongestRunes` | internal/bundle/bundle.go:424-435 | the binary search finds the longest fitting rune prefix |
| `Truncation.CutFits` | internal/bundle/bundle.go:408-436 | the cut is within its limit exactly when any text can be |
| `Truncation.CutIsLongest` | internal/bundle/bundle.go:408-436 | no longer run of lines, or of runes when the first line is too big, fits |
| `Truncation.CutIsUnique` | internal/bundle/bundle.go:408-436 | there is one way to cut |
| `Packing.Jaccard` | internal/bundle/bundle.go:386-404 | the two-pointer walk computes intersection size over union size |
| `Packing.IsDuplicate` | internal/bundle/bundle.go:373-383 | same id, same trimmed content or similarity of 0.85 with a selected chunk |
| `Packing.Pack` | internal/bundle/bundle.go:185-212 | the selection is the greedy picks, or the truncated head when nothing fits and there is room |
| `Packing.PackIs` | internal/bundle/bundle.go:185-212 | hit by hit: taken when what was spent so far leaves room for its tokens, its title and two more and no hit taken before has its id, its text or nearly all its terms; when none is, the first hit, cut to what is left and closed by the note, if that is 40 tokens or more; else nothing |
| `Packing.PicksFit` | internal/bundle/bundle.go:185-200 | the picks with the header keep the budget |
| `Packing.PicksDiffer` | internal/bundle/bundle.go:185-200 | no pick is a duplicate of an earlier one |
| `Packing.LeftOutForAReason` | internal/bundle/bundle.go:185-200 | a chunk left out duplicates an earlier pick or does not fit what finally remains |
| `Packing.TruncatedFits` | internal/bundle/bundle.go:201-210 | the truncated head, marker included, keeps the budget |
| `Packing.PackFits` | internal/bundle/bundle.go:185-212 | whatever is selected is priced right and keeps the budget with the header |
| `Packing.OrderIsStable` | internal/bundle/bundle.go:216-223 | domain, conventions, projects; nothing lost, order kept within each |
| `Packing.OrderedByScope` | internal/bundle/bundle.go:216-223 | no section comes before one of the domain that is not of the domain, nor before one of the conventions unless of these or the domain |
| `Packing.OfRankIs` | internal/bundle/bundle.go:308-317 | sections of the domain, of the conventions and of anything else each keep the order they came in |
| `Bundles.Compile` | internal/bundle/bundle.go:139-178 | the drop loop and the rest compute the compiled bundle |
| `Bundles.CompiledLays` | internal/bundle/bundle.go:139-178 | its text shows its sections in their order, each in full but for the heading line |
| `Bundles.BudgetIs` | internal/search/search.go:366-373 | the budget is 95 hundredths of the limit, cut toward zero, and one when the limit is one |
| `Bundles.SelectionFits` | internal/bundle/bundle.go:146-154 | everything Pack selects fits once rendered, so nothing is dropped |
| `Bundles.CompiledFits` | internal/bundle/bundle.go:139-178 | a bundle holds all Pack selected, and with a section keeps the budget |
| `Bundles.WithinBudgetIff` | internal/bundle/bundle.go:146-154 | the budget is exceeded exactly when the header alone is over it, and then no section is in the bundle |
| `Bundles.OneTokenIsExceeded` | internal/bundle/bundle.go:151 | a request for one token always gets more |
| `Bundles.CompileIsDeterministic` | internal/bundle/bundle.go:263-265 | being the compiled bundle, as specified, leaves one result only |
| `Unigram.Load` | internal/embed/minilm/unigram.go:57-76 | a repeated piece keeps its last entry; the longest piece and the least score, or zero, are exact |
| `Unigram.Forward` | internal/embed/minilm/unigram.go:147-168 | every entry is explained by its back-pointer, every edge is relaxed, the end is reached |
| `Unigram.WalkBack` | internal/embed/minilm/unigram.go:170-180 | terminates with a path whose score is the last entry and the path's tokens back to front |
| `Unigram.MergeUnknown` | internal/embed/minilm/unigram.go:182-189 | the ids are the tokens with runs of unknowns collapsed |
| `Unigram.Viterbi` | internal/embed/minilm/unigram.go:132-190 | the output is that of a path no other path outscores |
| `Unigram.PathScoreIs` | internal/embed/minilm/unigram.go:146-168 | the score of a path is the sum of the scores of its pieces, ten less than the least score for a rune that is none |
| `Unigram.EdgeIs` | internal/embed/minilm/unigram.go:147-168 | a path moves along pieces of the vocabulary, and by one rune exactly where none starts |
| `Unigram.NoPathBeats` | internal/embed/minilm/unigram.go:147-168 | over a relaxed table no path to a position outscores its entry |
| `Unigram.PathSpells` | internal/embed/minilm/unigram.go:170-180 | the pieces concatenate to the input |
| `Unigram.PathTokens` | internal/embed/minilm/unigram.go:150-168 | each token is a vocabulary piece, or one rune where no piece starts |
| `Unigram.CollapseRun` | internal/embed/minilm/unigram.go:181-188 | a run of unknowns becomes one id |
| `Unigram.CollapseKnown` | internal/embed/minilm/unigram.go:181-188 | known tokens keep their ids, repeated or not |
| `Unigram.CollapseConcat` | internal/embed/minilm/unigram.go:181-188 | runs are collapsed independently |
| `Unigram.Encode` | internal/embed/minilm/unigram.go:92-102 | the encoding of a best path's ids |
| `Unigram.EncodingShape` | internal/embed/minilm/unigram.go:92-102 | ends in the end marker, at most maxSeq long; opens with the start marker exactly when there is room for both |
| `Glob.GlobToRegexp` | internal/staleness/staleness.go:89-121 | the builder loop prints the glob's items between anchors |
| `Glob.NormalizeIs` | internal/staleness/staleness.go:89-94 | white space around the glob goes, then a leading "./", then a leading slash |
| `Glob.RegexpCompiles` | internal/staleness/staleness.go:70-78 | every regexp it builds parses back to those items |
| `Glob.ItemsMatchIff` | internal/staleness/staleness.go:89-121 | the items match exactly what the direct recursive matcher accepts, on one-line paths |
| `Glob.RegexpMeans` | internal/staleness/staleness.go:80-121 | the regexp accepts a path exactly when the glob's meaning does, prefix branch included |
| `Glob.WildcardMeansIff` | internal/staleness/staleness.go:116 | a wildcard glob is compiled right exactly when it is ASCII |
| `Glob.PathMeansIff` | internal/staleness/staleness.go:107-109 | a path is matched as ASCII globs mean exactly when it has no newline |
| `Glob.AcceptsIff` | internal/staleness/staleness.go:80-121 | the compiled regexp accepts what the items match |
| `Beneath.BeneathIff` | internal/staleness/staleness.go:80-87 | for every one-line glob that ends in a slash and has no wildcard or is ASCII: it matches all that lies beneath each directory the glob without the slash matches exactly when its text has a certain form |
| `Beneath.TrailingSlashWildcard` | internal/staleness/staleness.go:82-83 | src/*/ does not match src/a/x, src/****/ does, and the forms say so |
| `Glob.Match` | internal/staleness/staleness.go:84-87 | accepts what the compiled glob accepts; on one-line paths, for ASCII globs or ones without wildcard, what the glob means |
| `Drift.FirstMatch` | internal/staleness/staleness.go:59-68 | the first path, in order, that any glob covers |
| `Drift.Governing` | internal/staleness/staleness.go:125-134 | the documents whose refs cover one of the paths, in order |
| `Drift.GoverningIs` | internal/staleness/staleness.go:125-134 | exactly those, in order, of which some ref accepts a path, the first accepted one not being empty |
| `Drift.Compute` | internal/staleness/staleness.go:18-45 | one row for each document with a newer covered change: how many, the latest time and its path |
| `Drift.DriftIs` | internal/staleness/staleness.go:18-45 | the row counts the changes that are newer and of whose paths a ref accepts one, and has time and first accepted path of the latest, the first of several |
| `Drift.AllDriftIs` | internal/staleness/staleness.go:18-45 | one row for each document that is behind, in order |
| `Drift.Since` | internal/staleness/staleness.go:49-57 | the age of the oldest dated document with refs, or zero |
| `Drift.ChangesSince` | internal/gitsync/gitsync.go:618-650 | the newest commits up to the first that is not newer, capped; truncated exactly when the cap cuts |
| `Drift.WindowIsEnough` | internal/gitsync/gitsync.go:618-650 | drift over the window is drift over all history |
| `Drift.DescendingIsEnough` | internal/gitsync/gitsync.go:618-650 | history in descending time order satisfies what the window needs |
| `Drift.WindowExactIff` | internal/gitsync/gitsync.go:618-650 | for every set of documents exactly when newer commits behind an older one touch no path |
| `Drift.CapIsLowerBound` | internal/gitsync/gitsync.go:618-650 | under a cap, counts are lower bounds and the last change and path stay exact |
| `Drift.MergeRows` | cmd/briefd/serve.go:606-616 | one row per document, one of those with most commits |
| `Drift.LastModified` | internal/gitsync/gitsync.go:512-555 | each path gets the time of the newest commit that touched it, though the walk may stop early |
| `Drift.ChangedPaths` | internal/gitsync/gitsync.go:557-601 | exactly the wanted paths the commit touched |
| `Drift.AllChangedPaths` | internal/gitsync/gitsync.go:654-705 | exactly the paths the commit touched, sorted; for a root commit all its files in tree order |
| `TopK.MinHeap.Up` | internal/search/vector.go:107-118 | sifting up restores the heap and permutes |
| `TopK.MinHeap.Down` | internal/search/vector.go:107-118 | sifting down restores the heap and permutes |
| `TopK.MinHeap.Offer` | internal/search/vector.go:92-98 | the heap holds exactly what the bounded scan keeps |
| `TopK.MinHeap.Pop` | internal/search/vector.go:100-104 | the worst entry leaves, the rest stays a heap |
| `TopK.VectorIndex.Reload` | internal/search/vector.go:39-64 | of any rows, the index shows the kept ids in order next to the vectors of the first dimension met, in order, then zeros |
| `TopK.ReloadShows` | internal/search/vector.go:39-64 | the same by places: which rows are kept, which vectors have the dimension, and what stands next to what |
| `TopK.AlignedIff` | internal/search/vector.go:49-59 | each id stands next to its own vector exactly unless a row without dimensions comes first and a later one has some |
| `TopK.VectorIndex.Search` | internal/search/vector.go:73-105 | after any reload, returns what the bounded scan keeps of the rows the index shows in scope, best first |
| `TopK.HitsAre` | internal/search/vector.go:84-91 | every row in scope is scored against the query, and no other |
| `TopK.DotIs` | internal/search/vector.go:88-91 | the score is the sum of the products, coordinate by coordinate |
| `TopK.SortedMeans` | internal/search/vector.go:107-112 | best first: scores fall, and of equal ones the smaller id is first |
| `TopK.ScanKeepsBest` | internal/search/vector.go:73-105 | min(k, rows) hits, sorted; nothing left out scores higher than anything kept |
| `TopK.AscendingScanIsExact` | internal/search/vector.go:88-99 | with rows in ascending id order the result is the head of the full sort |
| `TopK.ExactIffAscending` | internal/search/vector.go:95 | for all scores and all k, exactly then |
| `Fusion.RRFWeighted` | internal/search/rrf.go:38-56 | every listed id once with its summed share, best first |
| `Fusion.Bm25Split` | internal/search/search.go:232-262 | all-term hits first, then any-term hits, no duplicates, within the limit, none missed below it |
| `Fusion.AgreementOutranks` | internal/search/search.go:306-352 | a chunk both retrievers find with all terms outranks every chunk only one finds |
| `Fusion.HybridScoreIs` | internal/search/search.go:336-340 | a chunk has one over 60 plus its place from each list that has it, a quarter of that from where the full-text list matches some terms only, at its place in the whole list |
| `Fusion.AgreementDepthIff` | internal/search/search.go:306-352 | two shares beat one at all ranks exactly down to depth 61 |
| `Fusion.Governed` | internal/search/search.go:444-507 | without governing documents the hits come back; else the fusion, 1 to 1.5, of the hits and of what the documents take in turn: each min(3, its sections, what is left of 6) of its sections, in order those retrieval found first, then in document order, and none left out goes before one taken; the first document with a section always has one in the result |
| `Fusion.GoverningIsSmall` | internal/search/search.go:474-498 | at most six sections, distinct, from governing documents |
| `Fusion.SelectionTakes` | internal/search/search.go:474-500 | the selection is what the documents take in turn |
| `Fusion.SortPrefers` | internal/search/search.go:481-488 | within a document what retrieval ranked comes first, in its order |
| `Fusion.SortIsStable` | internal/search/search.go:481-488 | what is level keeps its order |
| `Fusion.GovernedOrders` | internal/search/search.go:428-507 | Governed's own result puts governing sections first, doubly listed ones down to rank 476 ahead of the other governing ones, the other hits in retrieval's order, and every section once |
| `Fusion.GovernedKeepsAll` | internal/search/search.go:474-507 | nothing fused is lost, added or repeated |
| `Fusion.GoverningOutranks` | internal/search/search.go:428-507 | every governing section outranks every ungoverned hit |
| `Fusion.UngovernedKeepOrder` | internal/search/search.go:428-507 | ungoverned hits keep retrieval's order |
| `Fusion.BothWinIff` | internal/search/search.go:428-443 | a section in both lists beats the first governing-only one exactly down to rank 476 |
| `Fusion.BothListsOutrank` | internal/search/search.go:428-507 | such a section outranks every governing-only one |
| `GitTree.SortEntries` | internal/gitsync/gitsync.go:439-451 | the swapping insertion sort computes the sorted entries in place |
| `GitTree.SortOrders` | internal/gitsync/gitsync.go:439-451 | those are ordered, directories as name plus "/", and a permutation |
| `GitTree.SortedByName` | internal/gitsync/gitsync.go:439-451 | written out: no entry is before one whose name, with a slash for a directory, is smaller |
| `GitTree.Repo.StoreTree` | internal/gitsync/gitsync.go:424-437 | the stored tree is sorted |
| `GitTree.Repo.RebuildTree` | internal/gitsync/gitsync.go:378-410 | equals the put, and every object it stores is a sorted tree |
| `GitTree.Repo.NewPathTrees` | internal/gitsync/gitsync.go:412-422 | missing directories are created down to the blob |
| `GitTree.PutSucceedsIff` | internal/gitsync/gitsync.go:378-410 | a put goes through exactly when no file or submodule lies on a proper prefix |
| `GitTree.PutLookup` | internal/gitsync/gitsync.go:378-410 | the path names the new blob, every other path the file it named before |
| `GitTree.GetAfterPutIff` | internal/gitsync/gitsync.go:378-410 | the blob is read back exactly when the path named no directory and no submodule |
| `GitTree.SecondPutWins` | internal/gitsync/gitsync.go:378-410 | the second of two puts leaves the tree it alone would leave |

## Left out

- HTTP, MCP, the command line, the dashboard, configuration, logging, metrics, git transport and remote embedders.
- SQLite, full-text search and BM25 scores: search hits are given lists, tables are maps.
- Markdown and YAML parsing: a parsed document is a given function of path and content, and may fail.
- Hash collisions: a content hash stands for its content, a chunk id for path, heading and part, a cache key for the text hashed, a git object for its own hash. The 16-digit bundle id and fingerprint are prefixes of hashes and are taken as telling too.
- The Unicode tables, invalid UTF-8, NFKC normalisation and case folding: runes carry their class, base names and path cleaning are given functions.
- Floating-point rounding: scores and similarities are reals, and a minus-infinite score is a constructor.
- Document ages (`resolveAges`, `updated_at`), `indexed_at`, `created_at`, and row ids; equality with a rebuild leaves out the commit column, which says which run wrote the row.
- Concurrency: a compilation between the statements of an index run, or between a drift replacement and the invalidation after it. `BundleCache` works on whole events, without vectors, where the fingerprint covers all that search reads.
- Runs that fail in the histories of `BundleCache` alone; `Serving` has them.
- Control characters that the cache key separates its fields with (NUL and SOH) in scopes and paths: the results on keys leave requests with them out.
- The order of deletions in a run: the source sorts the stale paths, the model deletes them in any order.
- Go's sorting functions: modelled by insertion with the same comparison; the in-place sort of `gitsync` is modelled as written.
- The scanning loops of `Count` are separate methods, and one normalization loop stands for scopes and paths.
- Integer overflow: `Rendering.BundleCost` and the lemmas resting on it bound token sums by the largest 64-bit integer.
- The candidate loop of `Search` and its confidence numbers, `Coverage`, link suggestions, WordPiece and evaluation: smaller members of the same kinds.
- Unigram.Encode: takes normalized text, and requires room for the end marker, since the source slices out of range without it.
- Fusion.Bm25Split: takes the two result lists as duplicate-free and within the limit, as the queries behind them are.
