/** internal/ingest: the chunks of a document, and when their ids are its own.  Where the headings of
    a document are comes from the Markdown parser; here a document is its sections in order. */
module Documents {
  import opened Runes
  import opened Sequences
  import opened Tokenizer
  import opened Chunker
  import opened Tables
  import opened Index

  /** A breadcrumb and what stands under it. */
  datatype Section = Section(path: Text, content: Text)

  /** The sections with anything in them, trimmed. */
  function Kept(sections: seq<Section>): seq<Section> {
    if sections == [] then []
    else
      var last := sections[|sections| - 1];
      Kept(sections[..|sections| - 1]) + if Trim(last.content) == [] then [] else [Section(last.path, Trim(last.content))]
  }

  function Paths(kept: seq<Section>): (paths: seq<Text>)
    ensures |paths| == |kept| && forall i :: 0 <= i < |kept| ==> paths[i] == kept[i].path
  {
    seq(|kept|, i requires 0 <= i < |kept| => kept[i].path)
  }

  /** The parts of one section, numbered from 0, at positions from `from` on. */
  function PartChunks(crumb: Text, parts: seq<Text>, spell: Text -> string, from: nat): (chunks: seq<Chunk>)
    ensures |chunks| == |parts|
    ensures forall p :: 0 <= p < |parts| ==>
      chunks[p] == Chunk(spell(crumb), p, spell(parts[p]), Tokens(parts[p]), from + p)
  {
    seq(|parts|, p requires 0 <= p < |parts| => Chunk(spell(crumb), p, spell(parts[p]), Tokens(parts[p]), from + p))
  }

  /** The chunks of the first n kept sections; spell turns text into stored strings. */
  function Emitted(kept: seq<Section>, n: nat, spell: Text -> string): seq<Chunk>
    requires n <= |kept|
  {
    if n == 0 then []
    else
      var before := Emitted(kept, n - 1, spell);
      before + PartChunks(LabelAt(Paths(kept), n - 1), Parts(kept[n - 1].content), spell, |before|)
  }

  function DocumentChunks(sections: seq<Section>, spell: Text -> string): seq<Chunk> {
    Emitted(Kept(sections), |Kept(sections)|, spell)
  }

  lemma {:induction false} MergeCountable(buf: Text, units: seq<Text>)
    requires Countable(buf) && forall u :: u in units ==> Countable(u)
    ensures forall p :: p in Merge(buf, units) ==> Countable(p)
    decreases |units|
  {
    hide Tokens, Countable, Overflows, Extend;
    TrimTrims(buf);
    if units != [] {
      ExtendCountable(buf, units[0]);
      MergeCountable(units[0], units[1..]);
      MergeCountable(Extend(buf, units[0]), units[1..]);
    }
  }

  lemma ExtendCountable(buf: Text, unit: Text)
    requires Countable(buf) && Countable(unit)
    ensures Countable(Extend(buf, unit))
  {}

  lemma PartsCountable(content: Text)
    requires Countable(content)
    ensures forall p :: p in Parts(content) ==> Countable(p)
  {
    hide Tokens, Countable, Merge, Split, UnitsOf;
    if Tokens(content) > MAX_CHUNK_TOKENS {
      PiecesCountable(content, NLNL);
      UnitsCountable(Split(content, NLNL), false, MAX_CHUNK_TOKENS);
      assert Countable([]) by { CountableNothing(); }
      MergeCountable([], Units(content, false, MAX_CHUNK_TOKENS));
    }
  }

  lemma CountableNothing()
    ensures Countable([])
  {}

  // ----- the emitting loop -----

  /** How often each breadcrumb was met. */
  ghost predicate Counts(seen: map<Text, nat>, paths: seq<Text>) {
    forall p :: Occurrences(paths, p) == if p in seen then seen[p] else 0
  }

  /** Skips empty sections, numbers repeated breadcrumbs and splits what is too long. */
  method ChunkDocument(sections: seq<Section>, spell: Text -> string) returns (chunks: seq<Chunk>)
    requires forall s :: s in sections ==> Countable(s.content)
    ensures chunks == DocumentChunks(sections, spell)
  {
    hide Counts, Parts, Trim, Tokens, Emitted, PartChunks, Kept, Countable, Trimmed, LabelAt, Occurrences;
    NothingYet(spell);
    var seen: map<Text, nat> := map[];
    ghost var kept: seq<Section> := [];
    chunks := [];
    for k := 0 to |sections|
      invariant kept == Kept(sections[..k])
      invariant Counts(seen, Paths(kept))
      invariant chunks == Emitted(kept, |kept|, spell)
    {
      var s := sections[k];
      assert s in sections;
      KeptSnoc(sections, k);
      TrimTrims(s.content);
      var content := Trim(s.content);
      if content == [] {
        continue;
      }
      ghost var before := seen;
      seen := seen[s.path := (if s.path in seen then seen[s.path] else 0) + 1];
      var n := seen[s.path];
      CrumbIs(kept, Section(s.path, content), before, n);
      var crumb := if n > 1 then s.path + Lit(" (") + Decimal(n) + Lit(")") else s.path;
      var parts := SplitOversized(content);
      PartsCountable(content);
      EmittedSnoc(kept, Section(s.path, content), spell);
      chunks := AppendParts(chunks, crumb, parts, spell);
      kept := kept + [Section(s.path, content)];
    }
    assert sections[..|sections|] == sections;
  }

  /** The inner loop, over the parts of a section. */
  method AppendParts(before: seq<Chunk>, crumb: Text, parts: seq<Text>, spell: Text -> string) returns (chunks: seq<Chunk>)
    requires forall p :: p in parts ==> Countable(p)
    ensures chunks == before + PartChunks(crumb, parts, spell, |before|)
  {
    hide Tokens, PartChunks, Countable;
    chunks := before;
    NoParts(crumb, parts, spell, before);
    for p := 0 to |parts|
      invariant chunks == before + PartChunks(crumb, parts[..p], spell, |before|)
    {
      assert parts[p] in parts;
      OneMorePart(crumb, parts, p, spell, before);
      var tokens := Count(parts[p]);
      chunks := chunks + [Chunk(spell(crumb), p, spell(parts[p]), tokens, |chunks|)];
    }
    assert parts[..|parts|] == parts;
  }

  lemma NothingYet(spell: Text -> string)
    ensures Kept([]) == [] && Paths([]) == [] && Counts(map[], []) && Emitted([], 0, spell) == []
  {}

  lemma CrumbIs(kept: seq<Section>, s: Section, before: map<Text, nat>, n: nat)
    requires Counts(before, Paths(kept)) && n == (if s.path in before then before[s.path] else 0) + 1
    ensures Counts(before[s.path := n], Paths(kept + [s])) && LabelAt(Paths(kept + [s]), |kept|) == Label(s.path, n)
  {
    hide LabelAt, Occurrences, Label;
    OneMorePath(kept, s);
  }

  lemma KeptSnoc(sections: seq<Section>, k: nat)
    requires k < |sections|
    ensures var s := sections[k];
      Kept(sections[..k + 1]) == if Trim(s.content) == [] then Kept(sections[..k]) else Kept(sections[..k]) + [Section(s.path, Trim(s.content))]
  {
    hide Trim;
    assert sections[..k + 1][..k] == sections[..k];
  }

  lemma NoParts(crumb: Text, parts: seq<Text>, spell: Text -> string, before: seq<Chunk>)
    ensures before + PartChunks(crumb, parts[..0], spell, |before|) == before
  {}

  lemma OneMorePart(crumb: Text, parts: seq<Text>, p: nat, spell: Text -> string, before: seq<Chunk>)
    requires p < |parts|
    ensures before + PartChunks(crumb, parts[..p + 1], spell, |before|) ==
      before + PartChunks(crumb, parts[..p], spell, |before|) + [Chunk(spell(crumb), p, spell(parts[p]), Tokens(parts[p]), |before| + p)]
  {
    hide Tokens;
    assert parts[..p + 1] == parts[..p] + [parts[p]];
  }

  lemma OneMorePath(kept: seq<Section>, s: Section)
    ensures Paths(kept + [s]) == Paths(kept) + [s.path]
    ensures forall p :: Occurrences(Paths(kept + [s]), p) == Occurrences(Paths(kept), p) + if s.path == p then 1 else 0
    ensures LabelAt(Paths(kept + [s]), |kept|) == Label(s.path, Occurrences(Paths(kept + [s]), s.path))
  {
    var paths := Paths(kept + [s]);
    assert paths == Paths(kept) + [s.path];
    assert paths[..|kept|] == Paths(kept) && paths[..|kept| + 1] == paths;
  }

  /** What was emitted does not depend on what is still to come. */
  lemma {:induction false} EmittedPrefix(kept: seq<Section>, s: Section, n: nat, spell: Text -> string)
    requires n <= |kept|
    ensures Emitted(kept + [s], n, spell) == Emitted(kept, n, spell)
  {
    hide Parts, Occurrences, Label;
    if n > 0 {
      EmittedPrefix(kept, s, n - 1, spell);
      OneMorePath(kept, s);
      assert Paths(kept + [s])[..n] == Paths(kept)[..n];
    }
  }

  lemma EmittedSnoc(kept: seq<Section>, s: Section, spell: Text -> string)
    ensures Emitted(kept + [s], |kept| + 1, spell) ==
      var before := Emitted(kept, |kept|, spell);
      before + PartChunks(LabelAt(Paths(kept + [s]), |kept|), Parts(s.content), spell, |before|)
  {
    hide Parts, LabelAt;
    EmittedPrefix(kept, s, |kept|, spell);
  }

  // ----- what the chunks of a document are -----

  lemma {:induction false} KeptAt(sections: seq<Section>) returns (places: seq<nat>)
    ensures Rising(places, |sections|) && |Kept(sections)| == |places|
    ensures forall k :: 0 <= k < |sections| ==> (k in places <==> Trim(sections[k].content) != [])
    ensures forall i :: 0 <= i < |places| ==>
      Kept(sections)[i] == Section(sections[places[i]].path, Trim(sections[places[i]].content))
  {
    hide Trim, Kept;
    places := [];
    if sections == [] {
      NothingKept();
    } else {
      var l := |sections| - 1;
      places := KeptAt(sections[..l]);
      assert sections[..l + 1] == sections;
      KeptSnoc(sections, l);
      assert forall k :: 0 <= k < l ==> sections[..l][k] == sections[k];
      RisingSnoc(places, l);
      if Trim(sections[l].content) != [] {
        places := places + [l];
      }
    }
  }

  lemma NothingKept()
    ensures Kept([]) == []
  {}

  ghost function Meetings(paths: seq<Text>, n: nat, path: Text): set<int>
    requires n <= |paths|
  {
    set j | 0 <= j < n && paths[j] == path
  }

  lemma {:induction false} OccurrencesAre(paths: seq<Text>, n: nat, path: Text)
    requires n <= |paths|
    ensures Occurrences(paths[..n], path) == |Meetings(paths, n, path)|
  {
    if n > 0 {
      var l := n - 1;
      OccurrencesAre(paths, l, path);
      assert paths[..n][..l] == paths[..l] && paths[..n][l] == paths[l];
      if paths[l] == path {
        assert Meetings(paths, n, path) == Meetings(paths, l, path) + {l};
      } else {
        assert Meetings(paths, n, path) == Meetings(paths, l, path);
      }
    } else {
      assert Meetings(paths, 0, path) == {};
    }
  }

  /** The breadcrumb of place i: its path, with its number behind it from the second time on. */
  ghost predicate IsCrumb(paths: seq<Text>, i: nat, crumb: Text)
    requires i < |paths|
  {
    var n := |Meetings(paths, i + 1, paths[i])|;
    crumb == if n <= 1 then paths[i] else paths[i] + Lit(" (") + Decimal(n) + Lit(")")
  }

  /** One chunk for each part, numbered, priced, and placed behind all chunks before it. */
  ghost predicate IsGroup(group: seq<Chunk>, crumb: Text, content: Text, from: nat, spell: Text -> string) {
    && |group| == |Parts(content)|
    && forall p :: 0 <= p < |group| ==>
         group[p] == Chunk(spell(crumb), p, spell(Parts(content)[p]), Tokens(Parts(content)[p]), from + p)
  }

  ghost predicate AreGroups(groups: seq<seq<Chunk>>, kept: seq<Section>, n: nat, spell: Text -> string)
    requires n <= |kept|
  {
    && |groups| == n
    && forall i: nat :: i < n ==> IsGroupOf(groups[i], kept, i, |Flatten(groups[..i])|, spell)
  }

  ghost predicate IsGroupOf(group: seq<Chunk>, kept: seq<Section>, i: nat, from: nat, spell: Text -> string)
    requires i < |kept|
  {
    exists crumb :: IsCrumb(Paths(kept), i, crumb) && IsGroup(group, crumb, kept[i].content, from, spell)
  }

  lemma {:induction false} EmittedIs(kept: seq<Section>, n: nat, spell: Text -> string) returns (groups: seq<seq<Chunk>>)
    requires n <= |kept|
    ensures AreGroups(groups, kept, n, spell) && Emitted(kept, n, spell) == Flatten(groups)
  {
    hide Parts, Tokens, LabelAt, IsGroupOf, PartChunks;
    groups := [];
    if n > 0 {
      var l: nat := n - 1;
      var before := EmittedIs(kept, l, spell);
      var group := PartChunks(LabelAt(Paths(kept), l), Parts(kept[l].content), spell, |Flatten(before)|);
      NextGroup(kept, l, |Flatten(before)|, spell);
      groups := before + [group];
      FlattenConcat(before, [group]);
      FlattenOne(group);
      forall i: nat | i < n
        ensures IsGroupOf(groups[i], kept, i, |Flatten(groups[..i])|, spell)
      {
        assert groups[..i] == before[..i];
        if i < l {
          assert groups[i] == before[i];
        } else {
          assert before[..i] == before;
        }
      }
    }
  }

  lemma NextGroup(kept: seq<Section>, i: nat, from: nat, spell: Text -> string)
    requires i < |kept|
    ensures IsGroupOf(PartChunks(LabelAt(Paths(kept), i), Parts(kept[i].content), spell, from), kept, i, from, spell)
  {
    hide Parts, LabelAt, IsCrumb, IsGroup, PartChunks;
    LabelIsCrumb(Paths(kept), i);
    PartsAreGroup(LabelAt(Paths(kept), i), kept[i].content, from, spell);
  }

  lemma LabelIsCrumb(paths: seq<Text>, i: nat)
    requires i < |paths|
    ensures IsCrumb(paths, i, LabelAt(paths, i))
  {
    hide Occurrences;
    OccurrencesAre(paths, i + 1, paths[i]);
  }

  lemma PartsAreGroup(crumb: Text, content: Text, from: nat, spell: Text -> string)
    ensures IsGroup(PartChunks(crumb, Parts(content), spell, from), crumb, content, from, spell)
  {
    hide Parts;
  }

  /** The chunks of a document: section by section the parts of those that are not blank. */
  lemma DocumentIs(sections: seq<Section>, spell: Text -> string)
    returns (places: seq<nat>, kept: seq<Section>, groups: seq<seq<Chunk>>)
    ensures Rising(places, |sections|) && |kept| == |places|
    ensures forall k :: 0 <= k < |sections| ==> (k in places <==> Trim(sections[k].content) != [])
    ensures forall i :: 0 <= i < |places| ==> kept[i] == Section(sections[places[i]].path, Trim(sections[places[i]].content))
    ensures AreGroups(groups, kept, |kept|, spell) && DocumentChunks(sections, spell) == Flatten(groups)
  {
    hide Trim, Kept, Emitted, AreGroups;
    kept := Kept(sections);
    places := KeptAt(sections);
    groups := EmittedIs(kept, |kept|, spell);
  }

  // ----- ids -----

  /** Different texts are stored as different strings. */
  ghost predicate Faithful(spell: Text -> string) {
    forall a, b :: spell(a) == spell(b) ==> a == b
  }

  /** Every kept section has a part. */
  lemma SomePart(content: Text)
    requires content != [] && !content[0].IsSpace()
    ensures Parts(content) != []
  {
    hide Parts;
    PartsKeep(content);
    FlattenNil();
    assert Squeeze(content) == [content[0]] + Squeeze(content[1..]);
  }

  function Crumbs(kept: seq<Section>, n: nat): (crumbs: seq<Text>)
    requires n <= |kept|
    ensures |crumbs| == n && forall i :: 0 <= i < n ==> crumbs[i] == LabelAt(Paths(kept), i)
  {
    seq(n, i requires 0 <= i < n => LabelAt(Paths(kept), i))
  }

  ghost predicate Solid(kept: seq<Section>) {
    forall i :: 0 <= i < |kept| ==> kept[i].content != [] && !kept[i].content[0].IsSpace()
  }

  lemma {:induction false} KeptSolid(sections: seq<Section>)
    ensures Solid(Kept(sections))
  {
    hide Trim, Trimmed;
    if sections != [] {
      KeptSolid(sections[..|sections| - 1]);
      TrimTrims(sections[|sections| - 1].content);
      StartsTrimmed(Trim(sections[|sections| - 1].content));
    }
  }

  lemma StartsTrimmed(t: Text)
    requires Trimmed(t)
    ensures t != [] ==> !t[0].IsSpace()
  {}

  ghost predicate HasFirst(chunks: seq<Chunk>, heading: string) {
    exists c :: c in chunks && c.heading == heading && c.part == 0
  }

  ghost predicate Heads(crumbs: seq<Text>, spell: Text -> string, c: Chunk) {
    exists i :: 0 <= i < |crumbs| && c.heading == spell(crumbs[i])
  }

  /** The headings in the chunks are the breadcrumbs, and each breadcrumb heads a first part. */
  ghost predicate Headings(chunks: seq<Chunk>, crumbs: seq<Text>, spell: Text -> string) {
    && (forall c :: c in chunks ==> Heads(crumbs, spell, c))
    && (forall x :: x in crumbs ==> HasFirst(chunks, spell(x)))
  }

  lemma MoreHeadings(before: seq<Chunk>, crumbs: seq<Text>, crumb: Text, parts: seq<Text>, spell: Text -> string)
    requires Headings(before, crumbs, spell) && parts != []
    ensures Headings(before + PartChunks(crumb, parts, spell, |before|), crumbs + [crumb], spell)
  {
    var more, next := PartChunks(crumb, parts, spell, |before|), crumbs + [crumb];
    var all := before + more;
    forall c | c in all ensures Heads(next, spell, c) {
      if c in before {
        var i :| 0 <= i < |crumbs| && c.heading == spell(crumbs[i]);
        assert next[i] == crumbs[i];
      } else {
        assert next[|crumbs|] == crumb;
      }
    }
    assert more[0] in all;
    forall x | x in next ensures HasFirst(all, spell(x)) {
      assert x in crumbs ==> HasFirst(before, spell(x));
    }
  }

  lemma CrumbsSnoc(kept: seq<Section>, n: nat)
    requires 0 < n <= |kept|
    ensures Crumbs(kept, n) == Crumbs(kept, n - 1) + [LabelAt(Paths(kept), n - 1)]
  {
    hide LabelAt;
  }

  lemma {:induction false} HeadingsAre(kept: seq<Section>, n: nat, spell: Text -> string)
    requires n <= |kept| && Solid(kept)
    ensures Headings(Emitted(kept, n, spell), Crumbs(kept, n), spell)
  {
    hide LabelAt, Parts, Crumbs;
    if n == 0 {
      NoHeadings(kept, spell);
    } else {
      hide Headings;
      HeadingsAre(kept, n - 1, spell);
      CrumbsSnoc(kept, n);
      SomePart(kept[n - 1].content);
      MoreHeadings(Emitted(kept, n - 1, spell), Crumbs(kept, n - 1),
                   LabelAt(Paths(kept), n - 1), Parts(kept[n - 1].content), spell);
    }
  }

  lemma NoHeadings(kept: seq<Section>, spell: Text -> string)
    ensures Headings(Emitted(kept, 0, spell), Crumbs(kept, 0), spell)
  {}

  /** Chunks have ids of their own exactly when breadcrumbs do. */
  lemma {:induction false} IdsFollowCrumbs(kept: seq<Section>, n: nat, spell: Text -> string)
    requires n <= |kept| && Solid(kept) && Faithful(spell)
    ensures DistinctIds(Emitted(kept, n, spell)) <==> Distinct(Crumbs(kept, n))
  {
    hide LabelAt, Parts, DistinctIds, Headings, Crumbs, Faithful;
    if n > 0 {
      hide Distinct;
      IdsFollowCrumbs(kept, n - 1, spell);
      HeadingsAre(kept, n - 1, spell);
      CrumbsSnoc(kept, n);
      SomePart(kept[n - 1].content);
      MoreIds(Emitted(kept, n - 1, spell), Crumbs(kept, n - 1),
              LabelAt(Paths(kept), n - 1), Parts(kept[n - 1].content), spell);
    } else {
      NoIds();
    }
  }

  lemma NoIds()
    ensures DistinctIds([])
  {}

  lemma DistinctMore(a: seq<Text>, x: Text)
    ensures Distinct(a + [x]) <==> Distinct(a) && x !in a
  {
    var b := a + [x];
    assert forall i :: 0 <= i < |a| ==> b[i] == a[i];
    assert b[|a|] == x;
  }

  /** One more section keeps ids distinct unless its breadcrumb is there already. */
  lemma MoreIds(before: seq<Chunk>, crumbs: seq<Text>, crumb: Text, parts: seq<Text>, spell: Text -> string)
    requires parts != [] && Headings(before, crumbs, spell) && Faithful(spell)
    requires DistinctIds(before) <==> Distinct(crumbs)
    ensures DistinctIds(before + PartChunks(crumb, parts, spell, |before|)) <==> Distinct(crumbs + [crumb])
  {
    hide DistinctIds, Distinct;
    DistinctMore(crumbs, crumb);
    if crumb in crumbs {
      assert HasFirst(before, spell(crumb));
      SharedId(before, crumb, parts, spell);
    } else {
      forall c | c in before ensures c.heading != spell(crumb) {
        assert Heads(crumbs, spell, c);
      }
      OwnIds(before, crumb, parts, spell);
    }
  }

  lemma SharedId(before: seq<Chunk>, crumb: Text, parts: seq<Text>, spell: Text -> string)
    requires parts != [] && HasFirst(before, spell(crumb))
    ensures !DistinctIds(before + PartChunks(crumb, parts, spell, |before|))
  {
    var all := before + PartChunks(crumb, parts, spell, |before|);
    var c :| c in before && c.heading == spell(crumb) && c.part == 0;
    var i :| 0 <= i < |before| && before[i] == c;
    assert all[i] == c && all[|before|].heading == spell(crumb) && all[|before|].part == 0;
  }

  lemma OwnIds(before: seq<Chunk>, crumb: Text, parts: seq<Text>, spell: Text -> string)
    requires forall c :: c in before ==> c.heading != spell(crumb)
    ensures DistinctIds(before + PartChunks(crumb, parts, spell, |before|)) <==> DistinctIds(before)
  {
    var all := before + PartChunks(crumb, parts, spell, |before|);
    assert forall i :: 0 <= i < |before| ==> all[i] == before[i];
  }

  /** The chunks of a document can be stored exactly when no section is already called what a repeat
      would be renamed to. */
  lemma StorableIff(sections: seq<Section>, spell: Text -> string)
    requires Faithful(spell)
    ensures DistinctIds(DocumentChunks(sections, spell)) <==> !NumberTaken(Paths(Kept(sections)))
  {
    hide DistinctIds, NumberTaken, Emitted, LabelAt, Kept;
    var kept := Kept(sections);
    KeptSolid(sections);
    IdsFollowCrumbs(kept, |kept|, spell);
    LabelsDistinctIff(Paths(kept), Crumbs(kept, |kept|));
  }

  /** What that means for an index run: a changed file with such sections ends it. */
  lemma StopsAtTakenNumber(env: Env, t: Tables, f: File, force: bool, sections: seq<Section>, spell: Text -> string)
    requires Inv(env, t) && Faithful(spell)
    requires env.parse(f.path, f.content).Parses? && env.parse(f.path, f.content).doc.chunks == DocumentChunks(sections, spell)
    ensures Stops(env, t, f, force) <==> NumberTaken(Paths(Kept(sections)))
  {
    hide Inv, Stops, DistinctIds, NumberTaken, DocumentChunks, Kept;
    StopsIff(env, t, f, force);
    StorableIff(sections, spell);
  }
}
