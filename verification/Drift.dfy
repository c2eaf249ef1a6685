/** internal/staleness and the history walks of internal/gitsync: which documents lag the code they
    govern.  Times count from the zero time, which stands for "unknown". */
module Drift {
  import opened Glob
  import opened Sequences
  import opened Strings

  type Time = nat

  datatype DocRefs = DocRefs(path: string, refs: seq<string>, updatedAt: Time)

  datatype Change = Change(hash: string, when: Time, paths: seq<string>)

  datatype Row = Row(docPath: string, repo: string, commits: nat, lastChangeAt: Time, lastPath: string, checkedAt: Time)

  // ----- matching -----

  predicate Covers(refs: seq<string>, path: string) {
    exists i :: 0 <= i < |refs| && Accepts(Regexp(refs[i]), path)
  }

  /** The first path some ref covers, or "". */
  function FirstCovered(refs: seq<string>, paths: seq<string>): string {
    if paths == [] then ""
    else if Covers(refs, paths[0]) then paths[0]
    else FirstCovered(refs, paths[1..])
  }

  /** staleness.compile: globs whose regexp does not compile would be skipped; none is. */
  method CompileGlobs(globs: seq<string>) returns (matchers: seq<string>)
    ensures |matchers| == |globs|
    ensures forall i :: 0 <= i < |globs| ==> matchers[i] == Regexp(globs[i])
  {
    hide Accepts, CompileRe;
    matchers := [];
    for i := 0 to |globs|
      invariant |matchers| == i
      invariant forall k :: 0 <= k < i ==> matchers[k] == Regexp(globs[k])
    {
      var re := GlobToRegexp(globs[i]);
      RegexpCompiles(globs[i]);
      if CompileRe(re).Valid? {
        matchers := matchers + [re];
      }
    }
  }

  method FirstMatch(matchers: seq<string>, paths: seq<string>, ghost refs: seq<string>) returns (p: string)
    requires |matchers| == |refs| && forall i :: 0 <= i < |refs| ==> matchers[i] == Regexp(refs[i])
    ensures p == FirstCovered(refs, paths)
  {
    hide Accepts, Regexp;
    for k := 0 to |paths|
      invariant FirstCovered(refs, paths[k..]) == FirstCovered(refs, paths)
    {
      assert paths[k..][1..] == paths[k + 1..];
      for i := 0 to |matchers|
        invariant forall j :: 0 <= j < i ==> !Accepts(Regexp(refs[j]), paths[k])
      {
        if Accepts(matchers[i], paths[k]) {
          return paths[k];
        }
      }
    }
    return "";
  }

  /** The documents whose refs cover one of the paths, in the order given. */
  function GoverningOf(docs: seq<DocRefs>, paths: seq<string>): seq<DocRefs> {
    if docs == [] then []
    else GoverningOf(docs[..|docs| - 1], paths)
         + if FirstCovered(docs[|docs| - 1].refs, paths) != "" then [docs[|docs| - 1]] else []
  }

  method Governing(docs: seq<DocRefs>, paths: seq<string>) returns (out: seq<DocRefs>)
    ensures out == GoverningOf(docs, paths)
  {
    out := [];
    for i := 0 to |docs|
      invariant out == GoverningOf(docs[..i], paths)
    {
      assert docs[..i + 1][..i] == docs[..i];
      var matchers := CompileGlobs(docs[i].refs);
      var p := FirstMatch(matchers, paths, docs[i].refs);
      if p != "" {
        out := out + [docs[i]];
      }
    }
    assert docs[..|docs|] == docs;
  }

  // ----- drift of one document -----

  /** The change is newer than the document and touches a path it governs. */
  predicate Counts(doc: DocRefs, ch: Change) {
    ch.when > doc.updatedAt && FirstCovered(doc.refs, ch.paths) != ""
  }

  function Counted(doc: DocRefs, changes: seq<Change>): seq<Change> {
    if changes == [] then []
    else
      var l := |changes| - 1;
      Counted(doc, changes[..l]) + if Counts(doc, changes[l]) then [changes[l]] else []
  }

  /** The first of the latest changes. */
  function Latest(changes: seq<Change>): Change
    requires changes != []
  {
    var l := |changes| - 1;
    if l == 0 then changes[0]
    else
      var before := Latest(changes[..l]);
      if changes[l].when > before.when then changes[l] else before
  }

  datatype Drifted = OnTime | Behind(row: Row)

  function DriftOf(doc: DocRefs, repo: string, changes: seq<Change>, now: Time): Drifted {
    var counted := Counted(doc, changes);
    if doc.updatedAt == 0 || doc.refs == [] || counted == [] then OnTime
    else
      var last := Latest(counted);
      Behind(Row(doc.path, repo, |counted|, last.when, FirstCovered(doc.refs, last.paths), now))
  }

  function AllDrift(docs: seq<DocRefs>, repo: string, changes: seq<Change>, now: Time): seq<Row> {
    if docs == [] then []
    else
      var l := |docs| - 1;
      var d := DriftOf(docs[l], repo, changes, now);
      AllDrift(docs[..l], repo, changes, now) + if d.Behind? then [d.row] else []
  }

  method Compute(docs: seq<DocRefs>, repo: string, changes: seq<Change>, now: Time) returns (out: seq<Row>)
    ensures out == AllDrift(docs, repo, changes, now)
  {
    out := [];
    for i := 0 to |docs|
      invariant out == AllDrift(docs[..i], repo, changes, now)
    {
      assert docs[..i + 1][..i] == docs[..i];
      var doc := docs[i];
      if doc.updatedAt == 0 {
        continue;
      }
      var matchers := CompileGlobs(doc.refs);
      if |matchers| == 0 {
        continue;
      }
      var d := Tally(doc, repo, matchers, changes, now);
      if d.commits > 0 {
        out := out + [d];
      }
    }
    assert docs[..|docs|] == docs;
  }

  /** The inner loop of Compute. */
  method Tally(doc: DocRefs, repo: string, matchers: seq<string>, changes: seq<Change>, now: Time) returns (d: Row)
    requires doc.updatedAt > 0 && doc.refs != []
    requires |matchers| == |doc.refs| && forall i :: 0 <= i < |matchers| ==> matchers[i] == Regexp(doc.refs[i])
    ensures d.commits > 0 <==> DriftOf(doc, repo, changes, now).Behind?
    ensures d.commits > 0 ==> DriftOf(doc, repo, changes, now) == Behind(d)
  {
    hide Regexp, FirstCovered, Counted, TallyOf, Latest;
    TallyEnds(doc, repo, changes, now);
    d := Row(doc.path, repo, 0, 0, "", now);
    for k := 0 to |changes|
      invariant d == TallyOf(doc, repo, Counted(doc, changes[..k]), now)
    {
      assert changes[..k + 1] == changes[..k] + [changes[k]];
      var ch := changes[k];
      CountedSnoc(doc, changes[..k], ch);
      if ch.when <= doc.updatedAt {
        continue;
      }
      var p := FirstMatch(matchers, ch.paths, doc.refs);
      if p != "" {
        TallySnoc(doc, repo, Counted(doc, changes[..k]), ch, now);
        d := d.(commits := d.commits + 1);
        if ch.when > d.lastChangeAt {
          d := d.(lastChangeAt := ch.when, lastPath := p);
        }
      }
    }
    assert changes[..|changes|] == changes;
  }

  function TallyOf(doc: DocRefs, repo: string, counted: seq<Change>, now: Time): Row {
    if counted == [] then Row(doc.path, repo, 0, 0, "", now)
    else Row(doc.path, repo, |counted|, Latest(counted).when, FirstCovered(doc.refs, Latest(counted).paths), now)
  }

  lemma TallyEnds(doc: DocRefs, repo: string, changes: seq<Change>, now: Time)
    requires doc.updatedAt > 0 && doc.refs != []
    ensures TallyOf(doc, repo, Counted(doc, changes[..0]), now) == Row(doc.path, repo, 0, 0, "", now)
    ensures var d := TallyOf(doc, repo, Counted(doc, changes), now);
            DriftOf(doc, repo, changes, now) == if d.commits > 0 then Behind(d) else OnTime
  {
    hide FirstCovered;
    assert changes[..0] == [];
  }

  lemma CountedSnoc(doc: DocRefs, changes: seq<Change>, ch: Change)
    ensures Counted(doc, changes + [ch]) == if Counts(doc, ch) then Counted(doc, changes) + [ch] else Counted(doc, changes)
  {
    hide Counts;
    assert (changes + [ch])[..|changes|] == changes;
  }

  lemma TallySnoc(doc: DocRefs, repo: string, c: seq<Change>, ch: Change, now: Time)
    requires ch.when > 0
    ensures var d := TallyOf(doc, repo, c, now);
            TallyOf(doc, repo, c + [ch], now) ==
              if ch.when > d.lastChangeAt then
                d.(commits := d.commits + 1, lastChangeAt := ch.when, lastPath := FirstCovered(doc.refs, ch.paths))
              else d.(commits := d.commits + 1)
  {
    hide FirstCovered;
    assert (c + [ch])[..|c|] == c;
  }

  // ----- what is reported, in terms of the globs -----

  /** Path j is the first that one of the globs accepts. */
  ghost predicate FirstAccepted(refs: seq<string>, paths: seq<string>, j: int) {
    && 0 <= j < |paths|
    && (exists i :: 0 <= i < |refs| && Accepts(Regexp(refs[i]), paths[j]))
    && forall e, i :: 0 <= e < j && 0 <= i < |refs| ==> !Accepts(Regexp(refs[i]), paths[e])
  }

  ghost predicate Claims(refs: seq<string>, paths: seq<string>) {
    exists j :: FirstAccepted(refs, paths, j) && paths[j] != ""
  }

  lemma {:induction false} FirstCoveredIs(refs: seq<string>, paths: seq<string>)
    ensures forall j :: FirstAccepted(refs, paths, j) ==> FirstCovered(refs, paths) == paths[j]
    ensures FirstCovered(refs, paths) != "" ==> exists j :: FirstAccepted(refs, paths, j) && 0 <= j < |paths| && paths[j] == FirstCovered(refs, paths)
    ensures Claims(refs, paths) <==> FirstCovered(refs, paths) != ""
  {
    hide Accepts, Regexp;
    if paths != [] {
      var rest := paths[1..];
      FirstCoveredIs(refs, rest);
      if Covers(refs, paths[0]) {
        HeadAccepted(refs, paths);
      } else {
        hide FirstAccepted;
        forall j | FirstAccepted(refs, paths, j) ensures 0 < j < |paths| && FirstCovered(refs, paths) == paths[j] {
          NotTheHead(refs, paths, j);
          LaterAccepted(refs, paths, j - 1);
        }
        if FirstCovered(refs, paths) != "" {
          var j :| FirstAccepted(refs, rest, j) && 0 <= j < |rest| && rest[j] == FirstCovered(refs, rest);
          LaterAccepted(refs, paths, j);
        }
      }
    }
  }

  lemma HeadAccepted(refs: seq<string>, paths: seq<string>)
    requires paths != [] && Covers(refs, paths[0])
    ensures FirstAccepted(refs, paths, 0) && forall j :: FirstAccepted(refs, paths, j) ==> j == 0
  {
    hide Accepts, Regexp;
  }

  lemma NotTheHead(refs: seq<string>, paths: seq<string>, j: int)
    requires paths != [] && !Covers(refs, paths[0]) && FirstAccepted(refs, paths, j)
    ensures 0 < j < |paths|
  {
    hide Accepts, Regexp;
  }

  lemma LaterAccepted(refs: seq<string>, paths: seq<string>, j: int)
    requires paths != [] && !Covers(refs, paths[0]) && j >= 0
    ensures FirstAccepted(refs, paths, j + 1) <==> FirstAccepted(refs, paths[1..], j)
    ensures FirstAccepted(refs, paths[1..], j) ==> j + 1 < |paths|
  {
    hide Accepts, Regexp;
    var rest := paths[1..];
    assert forall e :: 0 <= e < |rest| ==> rest[e] == paths[e + 1];
    if FirstAccepted(refs, rest, j) {
      forall e, i | 0 <= e < j + 1 && 0 <= i < |refs| ensures !Accepts(Regexp(refs[i]), paths[e]) {
        if e > 0 {
          assert paths[e] == rest[e - 1];
        }
      }
    }
  }

  /** Governing documents are those, in their order, whose globs claim the paths. */
  lemma {:induction false} GoverningIs(docs: seq<DocRefs>, paths: seq<string>) returns (places: seq<nat>)
    ensures Rising(places, |docs|) && |GoverningOf(docs, paths)| == |places|
    ensures forall i :: 0 <= i < |places| ==> GoverningOf(docs, paths)[i] == docs[places[i]]
    ensures forall k :: 0 <= k < |docs| ==> (k in places <==> Claims(docs[k].refs, paths))
  {
    hide FirstCovered, Claims;
    places := [];
    if docs != [] {
      var l := |docs| - 1;
      places := GoverningIs(docs[..l], paths);
      assert forall k :: 0 <= k < l ==> docs[..l][k] == docs[k];
      FirstCoveredIs(docs[l].refs, paths);
      RisingSnoc(places, l);
      if FirstCovered(docs[l].refs, paths) != "" {
        places := places + [l];
      }
    }
  }

  /** The places of the changes that count against a document. */
  ghost predicate Against(doc: DocRefs, changes: seq<Change>, places: seq<nat>) {
    && Rising(places, |changes|)
    && forall k :: 0 <= k < |changes| ==> (k in places <==> changes[k].when > doc.updatedAt && Claims(doc.refs, changes[k].paths))
  }

  lemma {:induction false} CountedIs(doc: DocRefs, changes: seq<Change>) returns (places: seq<nat>)
    ensures Against(doc, changes, places) && |Counted(doc, changes)| == |places|
    ensures forall i :: 0 <= i < |places| ==> Counted(doc, changes)[i] == changes[places[i]]
  {
    hide FirstCovered, Claims;
    places := [];
    if changes != [] {
      var l := |changes| - 1;
      places := CountedIs(doc, changes[..l]);
      assert forall k :: 0 <= k < l ==> changes[..l][k] == changes[k];
      FirstCoveredIs(doc.refs, changes[l].paths);
      RisingSnoc(places, l);
      if Counts(doc, changes[l]) {
        places := places + [l];
      }
    }
  }

  lemma {:induction false} LatestIs(changes: seq<Change>) returns (l: nat)
    requires changes != []
    ensures l < |changes| && Latest(changes) == changes[l]
    ensures forall k :: 0 <= k < |changes| ==> changes[k].when <= changes[l].when
    ensures forall k :: 0 <= k < l ==> changes[k].when < changes[l].when
  {
    l := |changes| - 1;
    if l > 0 {
      var b := LatestIs(changes[..l]);
      if changes[l].when <= changes[b].when {
        l := b;
      } else {
        assert forall k :: 0 <= k < l ==> changes[..l][k] == changes[k];
      }
    }
  }

  /** The row of a document that is behind: as many commits as count against it, and of the latest of
      these, the first one where several are, the time and the first path a glob accepts. */
  lemma DriftIs(doc: DocRefs, repo: string, changes: seq<Change>, now: Time) returns (places: seq<nat>)
    ensures Against(doc, changes, places)
    ensures DriftOf(doc, repo, changes, now).OnTime? <==> doc.updatedAt == 0 || doc.refs == [] || places == []
    ensures DriftOf(doc, repo, changes, now).Behind? ==>
      var row := DriftOf(doc, repo, changes, now).row;
      && row.docPath == doc.path && row.repo == repo && row.checkedAt == now && row.commits == |places|
      && exists l, j :: l in places && l < |changes| && row.lastChangeAt == changes[l].when
           && (forall k :: k in places ==> changes[k].when <= changes[l].when && (k < l ==> changes[k].when < changes[l].when))
           && FirstAccepted(doc.refs, changes[l].paths, j) && row.lastPath == changes[l].paths[j]
  {
    hide FirstCovered, FirstAccepted, Counted, Latest, Claims;
    places := CountedIs(doc, changes);
    var counted := Counted(doc, changes);
    if places != [] {
      var i := LatestIs(counted);
      var l := places[i];
      forall k | k in places ensures changes[k].when <= changes[l].when && (k < l ==> changes[k].when < changes[l].when) {
        var h :| 0 <= h < |places| && places[h] == k;
        assert counted[h] == changes[k];
      }
      FirstCoveredIs(doc.refs, changes[l].paths);
    }
  }

  /** One row for each document that is behind, in the order of the documents. */
  lemma {:induction false} AllDriftIs(docs: seq<DocRefs>, repo: string, changes: seq<Change>, now: Time) returns (places: seq<nat>)
    ensures Rising(places, |docs|) && |AllDrift(docs, repo, changes, now)| == |places|
    ensures forall k :: 0 <= k < |docs| ==> (k in places <==> DriftOf(docs[k], repo, changes, now).Behind?)
    ensures forall i :: 0 <= i < |places| ==>
      Behind(AllDrift(docs, repo, changes, now)[i]) == DriftOf(docs[places[i]], repo, changes, now)
  {
    hide DriftOf;
    places := [];
    if docs != [] {
      var l := |docs| - 1;
      places := AllDriftIs(docs[..l], repo, changes, now);
      assert forall k :: 0 <= k < l ==> docs[..l][k] == docs[k];
      RisingSnoc(places, l);
      if DriftOf(docs[l], repo, changes, now).Behind? {
        places := places + [l];
      }
    }
  }

  // ----- the window of history -----

  /** Earliest known age, 0 when none is known. */
  ghost predicate IsSince(docs: seq<DocRefs>, since: Time) {
    && (forall i :: 0 <= i < |docs| && docs[i].updatedAt > 0 ==> 0 < since <= docs[i].updatedAt)
    && (since > 0 ==> exists i :: 0 <= i < |docs| && docs[i].updatedAt == since)
  }

  method Since(docs: seq<DocRefs>) returns (since: Time)
    ensures IsSince(docs, since)
  {
    since := 0;
    for i := 0 to |docs|
      invariant forall k :: 0 <= k < i && docs[k].updatedAt > 0 ==> 0 < since <= docs[k].updatedAt
      invariant since > 0 ==> exists k :: 0 <= k < i && docs[k].updatedAt == since
    {
      if docs[i].updatedAt > 0 && (since == 0 || docs[i].updatedAt < since) {
        since := docs[i].updatedAt;
      }
    }
  }

  /** How many leading commits are newer than since. */
  function Window(history: seq<Change>, since: Time): (w: nat)
    ensures w <= |history|
    ensures forall i :: 0 <= i < w ==> history[i].when > since
    ensures w < |history| ==> history[w].when <= since
  {
    if history == [] || history[0].when <= since then 0 else 1 + Window(history[1..], since)
  }

  /** The walk over history, newest commit first; maxCommits <= 0 means no cap. */
  method ChangesSince(history: seq<Change>, since: Time, maxCommits: int) returns (changes: seq<Change>, truncated: bool)
    ensures truncated <==> 0 < maxCommits < Window(history, since)
    ensures changes == history[..if truncated then maxCommits else Window(history, since)]
  {
    changes, truncated := [], false;
    for i := 0 to |history|
      invariant changes == history[..i]
      invariant i <= Window(history, since) && (maxCommits > 0 ==> i <= maxCommits)
    {
      if history[i].when <= since {
        return;
      }
      if maxCommits > 0 && |changes| >= maxCommits {
        truncated := true;
        return;
      }
      changes := changes + [history[i]];
    }
  }

  /** Newest first. */
  ghost predicate Descending(history: seq<Change>) {
    forall i, j :: 0 <= i < j < |history| ==> history[i].when >= history[j].when
  }

  /** Beyond the window whatever is newer than since touched nothing, as a clean merge does. */
  ghost predicate NothingTouchedLater(history: seq<Change>, since: Time) {
    forall i :: Window(history, since) <= i < |history| && history[i].when > since ==> NoPaths(history[i])
  }

  ghost predicate NoPaths(ch: Change) {
    forall p :: p in ch.paths ==> p == ""
  }

  lemma {:induction false} CountedConcat(doc: DocRefs, a: seq<Change>, b: seq<Change>)
    ensures Counted(doc, a + b) == Counted(doc, a) + Counted(doc, b)
  {
    hide Counts;
    if b == [] {
      assert a + b == a;
    } else {
      var l := |b| - 1;
      assert (a + b)[..|a| + l] == a + b[..l];
      CountedConcat(doc, a, b[..l]);
    }
  }

  lemma {:induction false} OldChangesDoNotCount(doc: DocRefs, changes: seq<Change>)
    requires forall i :: 0 <= i < |changes| ==> changes[i].when <= doc.updatedAt || NoPaths(changes[i])
    ensures Counted(doc, changes) == []
  {
    hide NoPaths;
    if changes != [] {
      var l := |changes| - 1;
      OldChangesDoNotCount(doc, changes[..l]);
      if NoPaths(changes[l]) {
        NothingCovered(doc.refs, changes[l]);
      }
    }
  }

  lemma NothingCovered(refs: seq<string>, ch: Change)
    requires NoPaths(ch)
    ensures FirstCovered(refs, ch.paths) == ""
  {
    FirstIsListed(refs, ch.paths);
  }

  lemma {:induction false} FirstIsListed(refs: seq<string>, paths: seq<string>)
    ensures FirstCovered(refs, paths) == "" || FirstCovered(refs, paths) in paths
  {
    hide Covers;
    if paths != [] {
      FirstIsListed(refs, paths[1..]);
      assert paths == [paths[0]] + paths[1..];
    }
  }

  lemma {:induction false} SameDrift(docs: seq<DocRefs>, repo: string, a: seq<Change>, b: seq<Change>, now: Time)
    requires forall i :: 0 <= i < |docs| ==> DriftOf(docs[i], repo, a, now) == DriftOf(docs[i], repo, b, now)
    ensures AllDrift(docs, repo, a, now) == AllDrift(docs, repo, b, now)
  {
    hide DriftOf;
    if docs != [] {
      var l := |docs| - 1;
      forall i | 0 <= i < l ensures DriftOf(docs[..l][i], repo, a, now) == DriftOf(docs[..l][i], repo, b, now) {
        assert docs[..l][i] == docs[i];
      }
      SameDrift(docs[..l], repo, a, b, now);
    }
  }

  /** The window loses nothing: drift over the commits newer than the oldest document is drift over
      all of history. */
  lemma WindowIsEnough(docs: seq<DocRefs>, since: Time, repo: string, history: seq<Change>, now: Time)
    requires IsSince(docs, since) && (since == 0 || NothingTouchedLater(history, since))
    ensures AllDrift(docs, repo, history[..Window(history, since)], now) == AllDrift(docs, repo, history, now)
  {
    hide Counted, NoPaths;
    var w := Window(history, since);
    forall i | 0 <= i < |docs|
      ensures DriftOf(docs[i], repo, history[..w], now) == DriftOf(docs[i], repo, history, now)
    {
      if docs[i].updatedAt > 0 {
        assert history == history[..w] + history[w..];
        CountedConcat(docs[i], history[..w], history[w..]);
        OldChangesDoNotCount(docs[i], history[w..]);
        assert Counted(docs[i], history[..w]) + [] == Counted(docs[i], history[..w]);
      }
    }
    SameDrift(docs, repo, history[..w], history, now);
  }

  /** In committer-time order the window stops where it should. */
  lemma DescendingIsEnough(history: seq<Change>, since: Time)
    requires Descending(history)
    ensures NothingTouchedLater(history, since)
  {}

  /** The window is exact for every set of documents of that age exactly when no newer commit that
      touched a path comes after an older one, which skewed committer clocks allow. */
  lemma WindowExactIff(history: seq<Change>, since: Time, repo: string, now: Time)
    ensures (forall docs :: IsSince(docs, since) ==>
               AllDrift(docs, repo, history[..Window(history, since)], now) == AllDrift(docs, repo, history, now))
            <==> since == 0 || NothingTouchedLater(history, since)
  {
    hide AllDrift, IsSince, NothingTouchedLater;
    if since == 0 || NothingTouchedLater(history, since) {
      forall docs | IsSince(docs, since)
        ensures AllDrift(docs, repo, history[..Window(history, since)], now) == AllDrift(docs, repo, history, now)
      {
        WindowIsEnough(docs, since, repo, history, now);
      }
    } else {
      LateCommitIsMissed(history, since, repo, now);
    }
  }

  lemma LateCommitIsMissed(history: seq<Change>, since: Time, repo: string, now: Time)
    requires since > 0 && !NothingTouchedLater(history, since)
    ensures exists docs :: IsSince(docs, since) &&
              AllDrift(docs, repo, history[..Window(history, since)], now) != AllDrift(docs, repo, history, now)
  {
    hide Counts, AllDrift, Counted, IsSince, Mask;
    var w := Window(history, since);
    var i :| w <= i < |history| && history[i].when > since && !NoPaths(history[i]);
    var p :| p in history[i].paths && p != "";
    var doc := DocRefs("doc", ["*" + Mask(p)], since);
    OneDocumentAge(doc);
    MaskCounts(doc, history[i], p);
    LaterCounts(doc, history, w, i);
    OneDocument(doc, repo, history[..w], now);
    OneDocument(doc, repo, history, now);
    assert AllDrift([doc], repo, history[..w], now) != AllDrift([doc], repo, history, now);
  }

  lemma OneDocumentAge(doc: DocRefs)
    requires doc.updatedAt > 0
    ensures IsSince([doc], doc.updatedAt)
  {
    assert [doc][0].updatedAt == doc.updatedAt;
  }

  lemma LaterCounts(doc: DocRefs, history: seq<Change>, w: nat, i: nat)
    requires w <= i < |history| && Counts(doc, history[i])
    ensures |Counted(doc, history[..w])| < |Counted(doc, history)|
  {
    hide Counts, Counted;
    var a, b, c := history[..w], history[w..i], history[i + 1..];
    assert history == (a + b + [history[i]]) + c;
    CountedConcat(doc, a + b + [history[i]], c);
    CountedOne(doc, a + b, history[i]);
    CountedConcat(doc, a, b);
  }

  lemma CountedOne(doc: DocRefs, a: seq<Change>, ch: Change)
    requires Counts(doc, ch)
    ensures |Counted(doc, a + [ch])| == |Counted(doc, a)| + 1
  {
    assert (a + [ch])[..|a|] == a;
  }

  /** A glob for p, with a question mark for each character of a segment. */
  function Mask(p: string): string {
    if p == "" then "" else [if p[0] == '/' then '/' else '?'] + Mask(p[1..])
  }

  lemma {:induction false} MaskMatches(p: string)
    ensures MatchesAll(Items(Mask(p)), p)
    ensures p != "" ==> !MatchesAll(Items(Mask(p)), "")
    ensures IsAscii(Mask(p)) && |Mask(p)| == |p| && forall i :: 0 <= i < |p| ==> Mask(p)[i] == if p[i] == '/' then '/' else '?'
  {
    hide MatchesAll, MatchesOne;
    if p == "" {
      NothingLeft(p);
    } else {
      MaskMatches(p[1..]);
      var r := if p[0] == '/' then Char('/') else NotSlash;
      assert Items(Mask(p)) == [r] + Items(Mask(p[1..]));
      SingleStep(r, Items(Mask(p[1..])), p);
      SingleStep(r, Items(Mask(p[1..])), "");
      OneCharacter(r, p[0]);
    }
  }

  /** The star keeps the mask as it is when the glob is normalized. */
  ghost predicate Masking(m: string) {
    m != "" && forall i :: 0 <= i < |m| ==> m[i] == '/' || m[i] == '?'
  }

  lemma Starred(m: string)
    requires Masking(m)
    ensures var g := "*" + m; Normalize(g) == g && HasWildcard(g) && IsAscii(g)
  {
    hide TrimSpace;
    var g := "*" + m;
    assert g[0] == '*' && g[|g| - 1] == m[|m| - 1] && !IsSpace('*') && !IsSpace('/') && !IsSpace('?');
    NothingToTrim(g);
    assert forall i :: 0 < i < |g| ==> g[i] == m[i - 1];
  }

  lemma NothingToTrim(g: string)
    requires g != "" && !IsSpace(g[0]) && !IsSpace(g[|g| - 1])
    ensures TrimSpace(g) == g
  {
    hide IsSpace;
  }

  lemma StarredItems(m: string)
    requires Masking(m)
    ensures Items("*" + m) == [Star(NotSlash)] + Items(m)
  {
    var g := "*" + m;
    assert g[0] == '*' && g[1] == m[0] && g[1..] == m;
  }

  lemma StarredMask(p: string)
    requires p != ""
    ensures Accepts(Regexp("*" + Mask(p)), p) && !Accepts(Regexp("*" + Mask(p)), "")
  {
    hide MatchesAll, MatchesOne, PrintAll, Accepts, Regexp, Mask, Items, ItemsOf, Normalize, HasWildcard, IsAscii;
    var glob := "*" + Mask(p);
    MaskMatches(p);
    Starred(Mask(p));
    StarredItems(Mask(p));
    AsciiBytes(glob);
    WildcardItems(glob);
    StarStep(NotSlash, Items(Mask(p)), p);
    StarStep(NotSlash, Items(Mask(p)), "");
    AcceptsIff(glob, p);
    AcceptsIff(glob, "");
  }

  lemma MaskCounts(doc: DocRefs, ch: Change, p: string)
    requires p in ch.paths && p != "" && doc.refs == ["*" + Mask(p)] && ch.when > doc.updatedAt
    ensures Counts(doc, ch)
  {
    hide Accepts, Regexp, Mask;
    StarredMask(p);
    assert Accepts(Regexp(doc.refs[0]), p);
    CoveredFound(doc.refs, ch.paths, p);
  }

  lemma {:induction false} CoveredFound(refs: seq<string>, paths: seq<string>, p: string)
    requires p in paths && Covers(refs, p) && !Covers(refs, "")
    ensures FirstCovered(refs, paths) != ""
  {
    hide Covers;
    if !Covers(refs, paths[0]) {
      CoveredFound(refs, paths[1..], p);
    }
  }

  lemma OneDocument(doc: DocRefs, repo: string, changes: seq<Change>, now: Time)
    requires doc.updatedAt > 0 && doc.refs != []
    ensures var rows := AllDrift([doc], repo, changes, now);
            (rows == [] <==> Counted(doc, changes) == []) && (rows != [] ==> rows[0].commits == |Counted(doc, changes)|)
  {
    hide Counted, Latest;
    assert [doc][..0] == [];
  }

  // ----- the commit cap -----

  lemma {:induction false} FirstIsLatest(changes: seq<Change>)
    requires changes != [] && Descending(changes)
    ensures Latest(changes) == changes[0]
  {
    if |changes| > 1 {
      FirstIsLatest(changes[..|changes| - 1]);
    }
  }

  lemma {:induction false} CountedDescends(doc: DocRefs, changes: seq<Change>)
    requires Descending(changes)
    ensures Descending(Counted(doc, changes))
    ensures forall i :: 0 <= i < |Counted(doc, changes)| ==> Counted(doc, changes)[i] in changes
  {
    hide Counts;
    if changes != [] {
      var l := |changes| - 1;
      CountedDescends(doc, changes[..l]);
      var before := Counted(doc, changes[..l]);
      forall i | 0 <= i < |before| ensures before[i].when >= changes[l].when && before[i] in changes {
        assert before[i] in changes[..l];
        var k :| 0 <= k < l && changes[..l][k] == before[i];
        assert changes[k] == before[i];
      }
    }
  }

  /** b reports the same document, last change and path as a, and at least as many commits. */
  predicate AtLeast(b: Drifted, a: Row) {
    b.Behind? && a.commits <= b.row.commits && b.row == a.(commits := b.row.commits)
  }

  /** A capped walk undercounts but never misdates: what it reports is behind, by at least that many
      commits, last changed at that time and path. */
  lemma CapIsLowerBound(doc: DocRefs, repo: string, history: seq<Change>, k: nat, now: Time)
    requires Descending(history) && k <= |history|
    ensures var capped := DriftOf(doc, repo, history[..k], now);
            capped.Behind? ==> AtLeast(DriftOf(doc, repo, history, now), capped.row)
  {
    hide Counts, FirstCovered, Counted, Latest;
    var part, rest := history[..k], history[k..];
    assert history == part + rest;
    CountedConcat(doc, part, rest);
    CountedDescends(doc, history);
    CountedDescends(doc, part);
    if Counted(doc, part) != [] {
      FirstIsLatest(Counted(doc, part));
      FirstIsLatest(Counted(doc, history));
    }
  }

  // ----- several repositories -----

  /** checkDrift keeps one row per document, the one with the most commits. */
  method MergeRows(all: seq<Row>) returns (byDoc: map<string, Row>)
    ensures forall i :: 0 <= i < |all| ==> all[i].docPath in byDoc && all[i].commits <= byDoc[all[i].docPath].commits
    ensures forall p :: p in byDoc ==> KeptFrom(all, |all|, p, byDoc[p])
  {
    byDoc := map[];
    for i := 0 to |all|
      invariant forall k :: 0 <= k < i ==> all[k].docPath in byDoc && all[k].commits <= byDoc[all[k].docPath].commits
      invariant forall p :: p in byDoc ==> KeptFrom(all, i, p, byDoc[p])
    {
      var d := all[i];
      if d.docPath !in byDoc || d.commits > byDoc[d.docPath].commits {
        byDoc := byDoc[d.docPath := d];
      }
    }
  }

  /** The first of the first n rows for p that no earlier one matches in commits. */
  ghost predicate KeptFrom(all: seq<Row>, n: nat, p: string, row: Row)
    requires n <= |all|
  {
    row.docPath == p
    && exists i :: 0 <= i < n && all[i] == row && forall k :: 0 <= k < i && all[k].docPath == p ==> all[k].commits < all[i].commits
  }

  // ----- what a commit changed -----

  /** A commit: its time, its files in tree order, and per parent the paths that differ. */
  datatype Commit = Commit(when: Time, files: seq<string>, diffs: seq<set<string>>)

  /** Paths that differ from every parent; every file for a root commit. */
  ghost predicate Touches(c: Commit, p: string) {
    if c.diffs == [] then p in c.files else forall i :: 0 <= i < |c.diffs| ==> p in c.diffs[i]
  }

  /** allChangedPaths: what a commit touches, sorted unless it is the whole tree of a root commit. */
  method AllChangedPaths(c: Commit) returns (out: seq<string>)
    ensures forall p :: p in out <==> Touches(c, p)
    ensures if c.diffs == [] then out == c.files else Ascending(out)
  {
    if |c.diffs| == 0 {
      return c.files;
    }
    var left := c.diffs[0];
    for i := 1 to |c.diffs|
      invariant forall p :: p in left <==> forall k :: 0 <= k < i ==> p in c.diffs[k]
    {
      left := set p | p in left && p in c.diffs[i];
    }
    out := [];
    ghost var all := left;
    while left != {}
      invariant left <= all && Ascending(out)
      invariant forall p :: p in out <==> p in all && p !in left
      decreases left
    {
      var p :| p in left;
      PlaceKeeps(out, p);
      left, out := left - {p}, Place(out, p);
    }
  }

  /** changedPaths: the same, among wanted paths only. */
  method ChangedPaths(c: Commit, want: set<string>) returns (out: set<string>)
    ensures forall p :: p in out <==> p in want && Touches(c, p)
  {
    if |c.diffs| == 0 {
      return set p | p in want && p in c.files;
    }
    out := set p | p in c.diffs[0] && p in want;
    for i := 1 to |c.diffs|
      invariant forall p :: p in out <==> p in want && forall k :: 0 <= k < i ==> p in c.diffs[k]
    {
      var cur := set p | p in c.diffs[i] && p in want;
      out := set p | p in out && p in cur;
    }
  }

  /** k is the first commit in the walk that touches p. */
  ghost predicate FirstTouch(history: seq<Commit>, p: string, k: nat) {
    k < |history| && Touches(history[k], p) && forall j :: 0 <= j < k ==> !Touches(history[j], p)
  }

  /** LastModified: for each path the time of the first commit, newest first, that touched it;
      the walk may stop early, but never before every path is settled. */
  method LastModified(history: seq<Commit>, paths: set<string>) returns (out: map<string, Time>)
    ensures forall p :: p in out <==> p in paths && exists k: nat :: FirstTouch(history, p, k)
    ensures forall p, k: nat :: p in paths && FirstTouch(history, p, k) ==> p in out && out[p] == history[k].when
  {
    hide Touches;
    var want := paths;
    out := map[];
    if want == {} {
      return;
    }
    for i := 0 to |history|
      invariant want == paths - out.Keys && out.Keys <= paths
      invariant forall p :: p in want ==> forall j :: 0 <= j < i ==> !Touches(history[j], p)
      invariant forall p :: p in out ==> exists k :: 0 <= k < i && FirstTouch(history, p, k) && out[p] == history[k].when
    {
      var changed := ChangedPaths(history[i], want);
      ghost var before := out;
      out := out + map p | p in changed :: history[i].when;
      want := want - changed;
      forall p | p in out ensures exists k :: 0 <= k < i + 1 && FirstTouch(history, p, k) && out[p] == history[k].when {
        if p in changed {
          assert FirstTouch(history, p, i);
        }
      }
      assert want == paths - out.Keys;
      if want == {} {
        Settled(history, paths, out);
        return;
      }
    }
    Settled(history, paths, out);
  }

  lemma Settled(history: seq<Commit>, paths: set<string>, out: map<string, Time>)
    requires out.Keys <= paths
    requires forall p :: p in paths - out.Keys ==> forall j :: 0 <= j < |history| ==> !Touches(history[j], p)
    requires forall p :: p in out ==> exists k :: 0 <= k < |history| && FirstTouch(history, p, k) && out[p] == history[k].when
    ensures forall p :: p in out <==> p in paths && exists k: nat :: FirstTouch(history, p, k)
    ensures forall p, k: nat :: p in paths && FirstTouch(history, p, k) ==> p in out && out[p] == history[k].when
  {
    hide Touches;
    forall p, k: nat | p in paths && FirstTouch(history, p, k) ensures p in out && out[p] == history[k].when {
      assert p in paths - out.Keys || p in out;
      var m :| 0 <= m < |history| && FirstTouch(history, p, m) && out[p] == history[m].when;
      assert m == k;
    }
  }
}
