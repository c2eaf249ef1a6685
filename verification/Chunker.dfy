/** internal/ingest/chunker.go: splitting an oversized section into parts, and making repeated
    heading breadcrumbs distinct. */
module Chunker {
  import opened Runes
  import opened Sequences
  import opened Tokenizer

  const TARGET_CHUNK_TOKENS := 500
  const MAX_CHUNK_TOKENS := 800

  /** No whitespace at either end. */
  predicate Trimmed(t: Text) {
    t == [] || (!t[0].IsSpace() && !t[|t| - 1].IsSpace())
  }

  lemma TrimTrims(s: Text)
    ensures Trimmed(Trim(s)) && |Trim(s)| <= |s|
    ensures Countable(s) ==> Countable(Trim(s))
  {
    hide Tokens;
    var l := TrimLeft(s);
    var t := TrimRight(l);
    assert t != [] ==> t[0] == l[0];
  }

  // ----- rune pieces -----

  /** Longest of the lengths n, 3n/4, 9n/16, ... whose prefix fits. */
  function FittingLength(s: Text, n: nat, limit: nat): (k: nat)
    requires 0 < n <= |s|
    ensures 0 < k <= n
    ensures k == 1 || Tokens(s[..k]) <= limit
    decreases n
  {
    if n > 1 && Tokens(s[..n]) > limit then FittingLength(s, n * 3 / 4, limit) else n
  }

  function RunePieces(s: Text, limit: nat): seq<Text>
    decreases |s|
  {
    if s == [] then []
    else
      var n := FittingLength(s, |s|, limit);
      [Trim(s[..n])] + RunePieces(s[n..], limit)
  }

  method SplitByRunes(s: Text, limit: nat) returns (out: seq<Text>)
    requires Countable(s)
    ensures out == RunePieces(s, limit)
  {
    hide Tokens, Trim;
    out := [];
    var runes := s;
    while |runes| > 0
      invariant Countable(runes)
      invariant out + RunePieces(runes, limit) == RunePieces(s, limit)
      decreases |runes|
    {
      var n := |runes|;
      var c := Count(runes[..n]);
      while n > 1 && c > limit
        invariant 0 < n <= |runes|
        invariant c == Tokens(runes[..n])
        invariant FittingLength(runes, n, limit) == FittingLength(runes, |runes|, limit)
        decreases n
      {
        n := n * 3 / 4;
        c := Count(runes[..n]);
      }
      out := out + [Trim(runes[..n])];
      runes := runes[n..];
    }
  }

  lemma RunePieceFits(s: Text, limit: nat)
    requires limit > 0 && s != []
    ensures var u := Trim(s[..FittingLength(s, |s|, limit)]); Tokens(u) <= limit && Trimmed(u)
  {
    hide Trim, Trimmed, Tokens;
    var n := FittingLength(s, |s|, limit);
    TrimBelow(s[..n]);
    TrimTrims(s[..n]);
    FirstRuneCost(s);
  }

  lemma FirstRuneCost(s: Text)
    requires s != []
    ensures Tokens(s[..1]) <= 1
  {
    assert s[..1] == [s[0]];
    RunOne(START, s[0]);
  }

  lemma {:induction false} RunePiecesFit(s: Text, limit: nat)
    ensures limit > 0 ==> forall u :: u in RunePieces(s, limit) ==> Tokens(u) <= limit && Trimmed(u)
    ensures Countable(s) ==> forall u :: u in RunePieces(s, limit) ==> Countable(u)
    decreases |s|
  {
    hide Tokens, Trim, Trimmed, Countable;
    if s != [] {
      var n := FittingLength(s, |s|, limit);
      if limit > 0 {
        RunePieceFits(s, limit);
      }
      RunePieceCountable(s, n);
      RunePiecesFit(s[n..], limit);
    }
  }

  lemma RunePieceCountable(s: Text, n: nat)
    requires n <= |s|
    ensures Countable(s) ==> Countable(Trim(s[..n])) && Countable(s[n..])
  {
    TrimTrims(s[..n]);
  }

  lemma {:induction false} RunePiecesKeep(s: Text, limit: nat)
    ensures Squeeze(Flatten(RunePieces(s, limit))) == Squeeze(s)
    decreases |s|
  {
    hide Trim, Squeeze, Tokens, Flatten, RunePieces;
    if s == [] {
      NoPieces(limit);
    } else {
      var n := FittingLength(s, |s|, limit);
      RunePiecesKeep(s[n..], limit);
      FirstPiece(s, limit);
      SqueezeTrim(s[..n]);
      SqueezeConcat(Trim(s[..n]), Flatten(RunePieces(s[n..], limit)));
      SqueezeConcat(s[..n], s[n..]);
      assert s == s[..n] + s[n..];
    }
  }

  lemma NoPieces(limit: nat)
    ensures RunePieces([], limit) == [] && Flatten<Rune>([]) == []
  {
  }

  lemma FirstPiece(s: Text, limit: nat)
    requires s != []
    ensures var n := FittingLength(s, |s|, limit); Flatten(RunePieces(s, limit)) == Trim(s[..n]) + Flatten(RunePieces(s[n..], limit))
  {
    hide Trim, Tokens, FittingLength;
    var n := FittingLength(s, |s|, limit);
    var first, rest := Trim(s[..n]), RunePieces(s[n..], limit);
    assert RunePieces(s, limit) == [first] + rest;
    assert ([first] + rest)[1..] == rest;
  }

  // ----- units -----

  function Separator(byLine: bool): Text {
    if byLine then NL else NLNL
  }

  /** One piece of a split: dropped when blank, kept when it fits, broken up otherwise. */
  function UnitOf(piece: Text, byLine: bool, limit: nat): seq<Text>
    decreases !byLine, 0
  {
    var unit := Trim(piece);
    if unit == [] then []
    else if Tokens(unit) <= limit then [unit]
    else if !byLine then UnitsOf(Split(unit, NL), true, limit)
    else RunePieces(unit, limit)
  }

  function UnitsOf(pieces: seq<Text>, byLine: bool, limit: nat): seq<Text>
    decreases !byLine, 1, |pieces|
  {
    if pieces == [] then [] else UnitOf(pieces[0], byLine, limit) + UnitsOf(pieces[1..], byLine, limit)
  }

  /** The units of s: paragraphs, then lines of oversized paragraphs, then rune pieces. */
  function Units(s: Text, byLine: bool, limit: nat): seq<Text> {
    UnitsOf(Split(s, Separator(byLine)), byLine, limit)
  }

  lemma {:induction false} UnitsSnoc(pieces: seq<Text>, piece: Text, byLine: bool, limit: nat)
    ensures UnitsOf(pieces + [piece], byLine, limit) == UnitsOf(pieces, byLine, limit) + UnitOf(piece, byLine, limit)
  {
    hide UnitOf;
    if pieces != [] {
      assert (pieces + [piece])[1..] == pieces[1..] + [piece];
      UnitsSnoc(pieces[1..], piece, byLine, limit);
    } else {
      assert UnitsOf([piece][1..], byLine, limit) == [];
    }
  }

  lemma {:induction false} PiecesCountable(s: Text, sep: Text)
    requires sep != [] && Countable(s)
    ensures forall p :: p in Split(s, sep) ==> Countable(p)
    decreases |s|
  {
    hide Find;
    var i := Find(s, sep);
    if i < |s| {
      PiecesCountable(s[i + |sep|..], sep);
    }
  }

  method SplitUnits(s: Text, byLine: bool, limit: nat) returns (out: seq<Text>)
    requires Countable(s)
    ensures out == Units(s, byLine, limit)
    decreases !byLine
  {
    hide Tokens, Trim, Split, RunePieces;
    out := [];
    var pieces := Split(s, Separator(byLine));
    PiecesCountable(s, Separator(byLine));
    for k := 0 to |pieces|
      invariant out == UnitsOf(pieces[..k], byLine, limit)
    {
      assert pieces[..k + 1] == pieces[..k] + [pieces[k]];
      UnitsSnoc(pieces[..k], pieces[k], byLine, limit);
      var unit := Trim(pieces[k]);
      TrimTrims(pieces[k]);
      if unit == [] {
        continue;
      }
      var c := Count(unit);
      if c <= limit {
        out := out + [unit];
        continue;
      }
      var more: seq<Text>;
      if !byLine {
        more := SplitUnits(unit, true, limit);
      } else {
        more := SplitByRunes(unit, limit);
      }
      out := out + more;
    }
    assert pieces[..|pieces|] == pieces;
  }

  lemma {:induction false} UnitsFit(pieces: seq<Text>, byLine: bool, limit: nat)
    requires limit > 0
    ensures forall u :: u in UnitsOf(pieces, byLine, limit) ==> Tokens(u) <= limit && Trimmed(u)
    decreases !byLine, |pieces|
  {
    if pieces != [] {
      UnitsFit(pieces[1..], byLine, limit);
      var unit := Trim(pieces[0]);
      TrimTrims(pieces[0]);
      if !byLine {
        UnitsFit(Split(unit, NL), true, limit);
      } else {
        RunePiecesFit(unit, limit);
      }
    }
  }

  lemma LinesKeep(unit: Text)
    ensures Squeeze(Flatten(Split(unit, NL))) == Squeeze(unit)
  {
    hide Squeeze, Flatten, Split;
    JoinSplit(unit, NL);
    SqueezeJoin(Split(unit, NL), NL);
  }

  lemma {:induction false} UnitKeeps(piece: Text, byLine: bool, limit: nat)
    ensures Squeeze(Flatten(UnitOf(piece, byLine, limit))) == Squeeze(piece)
    decreases !byLine, 0
  {
    hide Tokens, Trim, Split, RunePieces, Squeeze, Join, Flatten;
    var unit := Trim(piece);
    SqueezeTrim(piece);
    assert Flatten<Rune>([]) == [] by { FlattenNil(); }
    assert Squeeze([]) == [] by { SqueezeBlank([]); }
    if unit != [] {
      if Tokens(unit) <= limit {
        FlattenOne(unit);
      } else if !byLine {
        UnitsKeep(Split(unit, NL), true, limit);
        LinesKeep(unit);
      } else {
        RunePiecesKeep(unit, limit);
      }
    }
  }

  lemma {:induction false} UnitsKeep(pieces: seq<Text>, byLine: bool, limit: nat)
    ensures Squeeze(Flatten(UnitsOf(pieces, byLine, limit))) == Squeeze(Flatten(pieces))
    decreases !byLine, 1, |pieces|
  {
    if pieces != [] {
      var first := UnitOf(pieces[0], byLine, limit);
      var rest := UnitsOf(pieces[1..], byLine, limit);
      UnitKeeps(pieces[0], byLine, limit);
      UnitsKeep(pieces[1..], byLine, limit);
      FlattenConcat(first, rest);
      SqueezeConcat(Flatten(first), Flatten(rest));
      SqueezeConcat(pieces[0], Flatten(pieces[1..]));
    }
  }

  // ----- what the units are -----

  /** The length n, cut to three quarters as long as that many runes are too many. */
  ghost predicate ShrunkTo(s: Text, lengths: seq<nat>, limit: nat) {
    && lengths != [] && lengths[0] == |s|
    && (forall i :: 0 <= i < |lengths| ==> lengths[i] <= |s|)
    && (forall i :: 0 <= i < |lengths| - 1 ==>
          lengths[i] > 1 && Tokens(s[..lengths[i]]) > limit && lengths[i + 1] == lengths[i] * 3 / 4)
    && var last := lengths[|lengths| - 1]; last <= 1 || Tokens(s[..last]) <= limit
  }

  lemma {:induction false} FittingLengthShrinks(s: Text, n: nat, limit: nat) returns (lengths: seq<nat>)
    requires 0 < n <= |s|
    ensures lengths != [] && lengths[0] == n && lengths[|lengths| - 1] == FittingLength(s, n, limit)
    ensures forall i :: 0 <= i < |lengths| ==> lengths[i] <= |s|
    ensures forall i :: 0 <= i < |lengths| - 1 ==>
      lengths[i] > 1 && Tokens(s[..lengths[i]]) > limit && lengths[i + 1] == lengths[i] * 3 / 4
    decreases n
  {
    hide Tokens;
    if n > 1 && Tokens(s[..n]) > limit {
      var rest := FittingLengthShrinks(s, n * 3 / 4, limit);
      lengths := [n] + rest;
      assert lengths[|lengths| - 1] == rest[|rest| - 1];
      forall i | 0 <= i < |lengths| - 1
        ensures lengths[i] > 1 && Tokens(s[..lengths[i]]) > limit && lengths[i + 1] == lengths[i] * 3 / 4
      {
        if i > 0 {
          assert lengths[i] == rest[i - 1] && lengths[i + 1] == rest[i];
        }
      }
    } else {
      lengths := [n];
    }
  }

  /** An oversized line goes piece by piece: each as many runes of what is left as the shrinking
      leaves, trimmed. */
  lemma RunePieceIs(s: Text, limit: nat) returns (lengths: seq<nat>)
    requires s != []
    ensures ShrunkTo(s, lengths, limit)
    ensures var n := lengths[|lengths| - 1]; 0 < n && RunePieces(s, limit) == [Trim(s[..n])] + RunePieces(s[n..], limit)
    ensures RunePieces([], limit) == []
  {
    hide Tokens, Trim;
    lengths := FittingLengthShrinks(s, |s|, limit);
  }

  /** The pieces that are not blank and where they stand. */
  ghost predicate Inked(pieces: seq<Text>, places: seq<nat>) {
    && (forall i :: 0 <= i < |places| ==> places[i] < |pieces| && Trim(pieces[places[i]]) != [])
    && (forall i, j :: 0 <= i < j < |places| ==> places[i] < places[j])
    && forall k: nat :: k < |pieces| && Trim(pieces[k]) != [] ==> k in places
  }

  lemma {:induction false} FittingPieces(pieces: seq<Text>, byLine: bool, limit: nat) returns (places: seq<nat>)
    requires forall k :: 0 <= k < |pieces| ==> Tokens(Trim(pieces[k])) <= limit
    ensures Inked(pieces, places) && |UnitsOf(pieces, byLine, limit)| == |places|
    ensures forall i :: 0 <= i < |places| ==> UnitsOf(pieces, byLine, limit)[i] == Trim(pieces[places[i]])
    decreases |pieces|
  {
    hide Tokens, Trim, UnitOf, Inked, UnitsOf;
    places := [];
    if pieces == [] {
      NoInk(byLine, limit);
    } else {
      var l := |pieces| - 1;
      var front, last := pieces[..l], pieces[l];
      places := FittingPieces(front, byLine, limit);
      assert forall k :: 0 <= k < |front| ==> front[k] == pieces[k];
      assert pieces == front + [last];
      UnitsSnoc(front, last, byLine, limit);
      FittingUnit(last, byLine, limit);
      InkedSnoc(front, last, places);
      InkedInRange(front, places);
      if Trim(last) != [] {
        places := places + [l];
      }
    }
  }

  lemma NoInk(byLine: bool, limit: nat)
    ensures Inked([], []) && UnitsOf([], byLine, limit) == []
  {}

  lemma InkedInRange(pieces: seq<Text>, places: seq<nat>)
    requires Inked(pieces, places)
    ensures forall i :: 0 <= i < |places| ==> places[i] < |pieces|
  {}

  lemma FittingUnit(piece: Text, byLine: bool, limit: nat)
    requires Tokens(Trim(piece)) <= limit
    ensures UnitOf(piece, byLine, limit) == if Trim(piece) == [] then [] else [Trim(piece)]
  {}

  lemma InkedSnoc(front: seq<Text>, last: Text, places: seq<nat>)
    requires Inked(front, places)
    ensures Inked(front + [last], if Trim(last) == [] then places else places + [|front|])
  {
    hide Trim;
    var all := front + [last];
    var now := if Trim(last) == [] then places else places + [|front|];
    forall k: nat | k < |all| && Trim(all[k]) != [] ensures k in now {
      if k < |front| {
        assert all[k] == front[k] && k in places;
      } else {
        assert now[|places|] == k;
      }
    }
    forall i | 0 <= i < |now| ensures now[i] < |all| && Trim(all[now[i]]) != [] {
      if i < |places| {
        assert all[places[i]] == front[places[i]];
      }
    }
  }

  /** Each paragraph, or line, is cut up on its own. */
  lemma PieceByPiece(s: Text, byLine: bool, limit: nat)
    ensures var pieces := Split(s, if byLine then [Newline] else [Newline, Newline]);
      Units(s, byLine, limit) == Flatten(seq(|pieces|, k requires 0 <= k < |pieces| => Units(pieces[k], byLine, limit)))
  {
    hide UnitsOf, Split, Units;
    var sep := if byLine then [Newline] else [Newline, Newline];
    var pieces := Split(s, sep);
    SplitEverywhere(s, sep);
    assert Units(s, byLine, limit) == UnitsOf(pieces, byLine, limit) by { UnitsAre(s, byLine, limit); }
    PiecesAlone(pieces, byLine, limit);
  }

  lemma UnitsAre(s: Text, byLine: bool, limit: nat)
    ensures Units(s, byLine, limit) == UnitsOf(Split(s, if byLine then [Newline] else [Newline, Newline]), byLine, limit)
  {
    hide UnitsOf, Split;
  }

  lemma {:induction false} PiecesAlone(pieces: seq<Text>, byLine: bool, limit: nat)
    requires forall p, j :: p in pieces && 0 <= j <= |p| ==> !((if byLine then [Newline] else [Newline, Newline]) <= p[j..])
    ensures UnitsOf(pieces, byLine, limit) ==
            Flatten(seq(|pieces|, k requires 0 <= k < |pieces| => Units(pieces[k], byLine, limit)))
  {
    hide UnitOf, Split, Units;
    var alone := seq(|pieces|, k requires 0 <= k < |pieces| => Units(pieces[k], byLine, limit));
    if pieces != [] {
      var rest := pieces[1..];
      PiecesAlone(rest, byLine, limit);
      assert alone[1..] == seq(|rest|, k requires 0 <= k < |rest| => Units(rest[k], byLine, limit));
      NotCut(pieces[0], if byLine then [Newline] else [Newline, Newline]);
      UnitsAre(pieces[0], byLine, limit);
      OneUnit(pieces[0], byLine, limit);
    }
  }

  /** A section whose paragraphs fit is cut at its blank lines and nowhere else. */
  lemma ParagraphsStayWhole(s: Text, limit: nat) returns (places: seq<nat>)
    requires forall p :: p in Split(s, [Newline, Newline]) ==> Tokens(Trim(p)) <= limit
    ensures var paragraphs := Split(s, [Newline, Newline]);
      && Inked(paragraphs, places) && |Units(s, false, limit)| == |places|
      && forall i :: 0 <= i < |places| ==> Units(s, false, limit)[i] == Trim(paragraphs[places[i]])
  {
    hide Tokens, Trim, Split, UnitsOf;
    places := FittingPieces(Split(s, NLNL), false, limit);
  }

  /** A paragraph that does not fit is cut at its line ends. */
  lemma LongParagraph(paragraph: Text, limit: nat)
    requires forall j :: 0 <= j <= |paragraph| ==> !([Newline, Newline] <= paragraph[j..])
    requires Tokens(Trim(paragraph)) > limit && Trim(paragraph) != []
    ensures Units(paragraph, false, limit) == Units(Trim(paragraph), true, limit)
  {
    hide Tokens, Trim, UnitsOf;
    NotCut(paragraph, NLNL);
    OneUnit(paragraph, false, limit);
  }

  lemma OneUnit(piece: Text, byLine: bool, limit: nat)
    ensures UnitsOf([piece], byLine, limit) == UnitOf(piece, byLine, limit)
  {
    hide UnitOf;
    assert UnitsOf([piece][1..], byLine, limit) == [];
  }

  lemma NotCut(s: Text, sep: Text)
    requires sep != [] && forall j :: 0 <= j <= |s| ==> !(sep <= s[j..])
    ensures Split(s, sep) == [s]
  {
    hide Find;
    assert Find(s, sep) == |s|;
  }

  /** The lines of such a paragraph that fit stay whole, and a longer one goes rune by rune. */
  lemma LinesStayWhole(s: Text, limit: nat) returns (places: seq<nat>)
    requires forall p :: p in Split(s, [Newline]) ==> Tokens(Trim(p)) <= limit
    ensures var lines := Split(s, [Newline]);
      && Inked(lines, places) && |Units(s, true, limit)| == |places|
      && forall i :: 0 <= i < |places| ==> Units(s, true, limit)[i] == Trim(lines[places[i]])
  {
    hide Tokens, Trim, Split, UnitsOf;
    places := FittingPieces(Split(s, NL), true, limit);
  }

  lemma LongLine(line: Text, limit: nat)
    requires Newline !in line && Trim(line) != [] && Tokens(Trim(line)) > limit
    ensures Units(line, true, limit) == RunePieces(Trim(line), limit)
  {
    hide Tokens, Trim, UnitsOf, RunePieces;
    assert forall j :: 0 <= j < |line| ==> line[j..][0] == line[j];
    NotCut(line, NL);
    OneUnit(line, true, limit);
  }

  // ----- greedy merging -----

  function Flush(buf: Text): seq<Text> {
    if Trim(buf) == [] then [] else [Trim(buf)]
  }

  function Extend(buf: Text, unit: Text): Text {
    if buf == [] then unit else buf + NLNL + unit
  }

  predicate Overflows(buf: Text, unit: Text) {
    buf != [] && Tokens(buf) + Tokens(unit) > TARGET_CHUNK_TOKENS
  }

  /** The parts still to come when buf is open and units are left. */
  function Merge(buf: Text, units: seq<Text>): seq<Text>
    decreases |units|
  {
    if units == [] then Flush(buf)
    else if Overflows(buf, units[0]) then Flush(buf) + Merge(units[0], units[1..])
    else Merge(Extend(buf, units[0]), units[1..])
  }

  function Parts(content: Text): seq<Text> {
    if Tokens(content) <= MAX_CHUNK_TOKENS then [content]
    else Merge([], Units(content, false, MAX_CHUNK_TOKENS))
  }

  lemma MergeStep(buf: Text, units: seq<Text>, k: nat)
    requires k < |units|
    ensures Merge(buf, units[k..]) ==
      if Overflows(buf, units[k]) then Flush(buf) + Merge(units[k], units[k + 1..])
      else Merge(Extend(buf, units[k]), units[k + 1..])
  {
    hide Flush, Tokens;
    assert units[k..][1..] == units[k + 1..];
  }

  lemma MergeEnd(buf: Text, units: seq<Text>)
    ensures Merge(buf, units[|units|..]) == Flush(buf) && units[0..] == units
  {}

  method SplitOversized(content: Text) returns (parts: seq<Text>)
    requires Countable(content)
    ensures parts == Parts(content)
  {
    hide Tokens, Split, UnitsOf, Flush, Merge;
    var c := Count(content);
    if c <= MAX_CHUNK_TOKENS {
      return [content];
    }
    parts := [];
    var buf: Text := [];
    var units := SplitUnits(content, false, MAX_CHUNK_TOKENS);
    UnitsCountable(Split(content, NLNL), false, MAX_CHUNK_TOKENS) by { PiecesCountable(content, NLNL); }
    for k := 0 to |units|
      invariant Countable(buf)
      invariant parts + Merge(buf, units[k..]) == Merge([], units)
    {
      var unit := units[k];
      MergeStep(buf, units, k);
      ghost var open := buf;
      var a := Count(buf);
      var b := Count(unit);
      if |buf| > 0 && a + b > TARGET_CHUNK_TOKENS {
        parts := parts + Flush(buf);
        buf := [];
      }
      if |buf| > 0 {
        buf := buf + NLNL;
      }
      buf := buf + unit;
      assert buf == if Overflows(open, unit) then unit else Extend(open, unit);
    }
    MergeEnd(buf, units);
    parts := parts + Flush(buf);
  }

  lemma {:induction false} UnitsCountable(pieces: seq<Text>, byLine: bool, limit: nat)
    requires forall p :: p in pieces ==> Countable(p)
    ensures forall u :: u in UnitsOf(pieces, byLine, limit) ==> Countable(u)
    decreases !byLine, |pieces|
  {
    if pieces != [] {
      UnitsCountable(pieces[1..], byLine, limit);
      var unit := Trim(pieces[0]);
      TrimTrims(pieces[0]);
      assert Countable(unit) by { assert Countable(pieces[0]); }
      if !byLine {
        PiecesCountable(unit, NL);
        UnitsCountable(Split(unit, NL), true, limit);
      } else {
        RunePiecesFit(unit, limit);
      }
    }
  }

  lemma TrimmedIsFixed(t: Text)
    requires Trimmed(t)
    ensures Trim(t) == t
  {}

  /** A part is a single unit, or at most one token over the target. */
  lemma {:induction false} MergeFits(buf: Text, units: seq<Text>, pool: seq<Text>)
    requires forall u :: u in pool ==> Trimmed(u)
    requires forall u :: u in units ==> u in pool
    requires buf in pool || Tokens(buf) <= TARGET_CHUNK_TOKENS + 1
    ensures forall p :: p in Merge(buf, units) ==> p in pool || Tokens(p) <= TARGET_CHUNK_TOKENS + 1
    decreases |units|
  {
    TrimBelow(buf);
    if buf in pool {
      TrimmedIsFixed(buf);
    }
    if units != [] {
      if Overflows(buf, units[0]) {
        MergeFits(units[0], units[1..], pool);
      } else {
        BlankLineSubadditive(buf, units[0]);
        MergeFits(Extend(buf, units[0]), units[1..], pool);
      }
    }
  }

  lemma FlushKeeps(buf: Text, rest: seq<Text>)
    ensures Squeeze(Flatten(Flush(buf) + rest)) == Squeeze(buf) + Squeeze(Flatten(rest))
  {
    hide Trim, Tokens;
    SqueezeTrim(buf);
    if Trim(buf) == [] {
      assert Flush(buf) + rest == rest;
    } else {
      FlattenConcat(Flush(buf), rest);
      FlattenOne(Trim(buf));
      SqueezeConcat(Trim(buf), Flatten(rest));
    }
  }

  lemma ExtendKeeps(buf: Text, unit: Text)
    ensures Squeeze(Extend(buf, unit)) == Squeeze(buf) + Squeeze(unit)
  {
    hide Squeeze;
    SqueezeBlank(NLNL);
    SqueezeBlank([]);
    SqueezeConcat(buf + NLNL, unit);
    SqueezeConcat(buf, NLNL);
  }

  lemma {:induction false} MergeKeeps(buf: Text, units: seq<Text>)
    ensures Squeeze(Flatten(Merge(buf, units))) == Squeeze(buf) + Squeeze(Flatten(units))
    decreases |units|
  {
    hide Squeeze, Overflows, Flush, Extend;
    FlushKeeps(buf, []);
    assert Flush(buf) + [] == Flush(buf);
    SqueezeBlank([]);
    if units != [] {
      SqueezeConcat(units[0], Flatten(units[1..]));
      if Overflows(buf, units[0]) {
        MergeKeeps(units[0], units[1..]);
        FlushKeeps(buf, Merge(units[0], units[1..]));
      } else {
        MergeKeeps(Extend(buf, units[0]), units[1..]);
        ExtendKeeps(buf, units[0]);
      }
    }
  }

  /** No part is over the ceiling; a part over the target by more than the separator is a single unit. */
  lemma PartsFit(content: Text)
    ensures forall p :: p in Parts(content) ==> Tokens(p) <= MAX_CHUNK_TOKENS
    ensures Tokens(content) > MAX_CHUNK_TOKENS ==>
              forall p :: p in Parts(content) ==>
                p in Units(content, false, MAX_CHUNK_TOKENS) || Tokens(p) <= TARGET_CHUNK_TOKENS + 1
  {
    var units := Units(content, false, MAX_CHUNK_TOKENS);
    UnitsFit(Split(content, NLNL), false, MAX_CHUNK_TOKENS);
    MergeFits([], units, units);
  }

  /** Splitting only moves whitespace: the parts in order spell the content. */
  lemma PartsKeep(content: Text)
    ensures Squeeze(Flatten(Parts(content))) == Squeeze(content)
  {
    hide Tokens, Split, UnitsOf, Merge, Squeeze, Flatten;
    if Tokens(content) <= MAX_CHUNK_TOKENS {
      FlattenOne(content);
    } else {
      var pieces := Split(content, NLNL);
      MergeKeeps([], UnitsOf(pieces, false, MAX_CHUNK_TOKENS));
      SqueezeBlank([]);
      UnitsKeep(pieces, false, MAX_CHUNK_TOKENS);
      SqueezeJoin(pieces, NLNL);
      JoinSplit(content, NLNL);
    }
  }

  // ----- the merge is greedy -----

  /** An open buffer: it starts with text, and only newlines may trail. */
  predicate Buffered(buf: Text) {
    buf == [] ||
    (!buf[0].IsSpace() && forall i :: |TrimRight(buf)| <= i < |buf| ==> buf[i].Newline?)
  }

  lemma {:induction false} TrailingNewlines(t: Text, gap: Text)
    requires forall i :: 0 <= i < |gap| ==> gap[i].Newline?
    ensures gap != [] ==> Run(START, t + gap).mode.Break?
    ensures Run(START, t + gap).Total() <= Tokens(t) + 1
  {
    if gap == [] {
      assert t + gap == t;
    } else {
      var g := gap[..|gap| - 1];
      TrailingNewlines(t, g);
      assert t + gap == (t + g) + [Newline];
      RunSnoc(START, t + g, Newline);
      assert g == [] ==> t + g == t;
    }
  }

  lemma BufferCost(buf: Text)
    requires Buffered(buf) && buf != []
    ensures Flush(buf) == [TrimRight(buf)] && TrimRight(buf) != []
    ensures Tokens(buf) <= Tokens(TrimRight(buf)) + 1
  {
    hide Tokens;
    var t := TrimRight(buf);
    assert Trim(buf) == t;
    TrailingNewlines(t, buf[|t|..]);
    assert buf == t + buf[|t|..];
    assert Tokens(buf) == Run(START, buf).Total() by { TokensIsRun(buf); }
  }

  lemma TokensIsRun(s: Text)
    ensures Tokens(s) == Run(START, s).Total()
  {}

  lemma TrimmedIsBuffered(unit: Text)
    requires Trimmed(unit)
    ensures Buffered(unit)
  {}

  lemma NewlineBuffered(buf: Text)
    requires Buffered(buf) && buf != []
    ensures Buffered(buf + NL)
  {
    assert (buf + NL)[..|buf|] == buf;
    assert TrimRight(buf + NL) == TrimRight(buf);
    hide TrimRight;
  }

  lemma TextBuffered(buf: Text)
    requires buf != [] && !buf[0].IsSpace() && !buf[|buf| - 1].IsSpace()
    ensures Buffered(buf)
  {}

  lemma ExtendBuffered(buf: Text, unit: Text)
    requires Buffered(buf) && Trimmed(unit)
    ensures Buffered(Extend(buf, unit))
  {
    if buf == [] {
      TrimmedIsBuffered(unit);
    } else if unit == [] {
      hide Buffered;
      NewlineBuffered(buf);
      NewlineBuffered(buf + NL);
      assert Extend(buf, unit) == (buf + NL) + NL;
    } else {
      hide TrimRight;
      var b := buf + NLNL + unit;
      assert b[0] == buf[0] && b[|b| - 1] == unit[|unit| - 1];
      TextBuffered(b);
    }
  }

  /** The next part begins with the text already buffered. */
  lemma {:induction false} FirstPart(first: Text, buf: Text, units: seq<Text>)
    requires first != [] && Trimmed(first) && first <= buf && Buffered(buf)
    requires forall u :: u in units ==> Trimmed(u)
    ensures Merge(buf, units) != [] && first <= Merge(buf, units)[0]
    decreases |units|
  {
    hide Tokens;
    BufferCost(buf);
    assert buf[|first| - 1] == first[|first| - 1];
    assert first <= TrimRight(buf);
    if units != [] && !Overflows(buf, units[0]) {
      ExtendBuffered(buf, units[0]);
      FirstPart(first, Extend(buf, units[0]), units[1..]);
    }
  }

  /** Neighbouring parts would not have fitted together. */
  ghost predicate Greedy(parts: seq<Text>) {
    forall i {:trigger parts[i]} :: 0 <= i < |parts| - 1 ==> Tokens(parts[i]) + Tokens(parts[i + 1]) >= TARGET_CHUNK_TOKENS
  }

  lemma GreedyCons(part: Text, rest: seq<Text>)
    requires Greedy(rest)
    requires rest != [] ==> Tokens(part) + Tokens(rest[0]) >= TARGET_CHUNK_TOKENS
    ensures Greedy([part] + rest)
  {
    hide Tokens;
    var parts := [part] + rest;
    forall i | 0 <= i < |parts| - 1
      ensures Tokens(parts[i]) + Tokens(parts[i + 1]) >= TARGET_CHUNK_TOKENS
    {
      if i > 0 {
        assert parts[i] == rest[i - 1] && parts[i + 1] == rest[i];
      }
    }
  }

  lemma {:induction false} MergeGreedy(buf: Text, units: seq<Text>)
    requires Buffered(buf)
    requires forall u :: u in units ==> Trimmed(u)
    ensures Greedy(Merge(buf, units))
    decreases |units|
  {
    hide Tokens, Flush;
    if buf != [] {
      BufferCost(buf);
    }
    if units != [] {
      TrimmedIsBuffered(units[0]);
    }
    if units == [] {
      assert buf == [] ==> Flush(buf) == [] by { FlushNothing(); }
    } else if Overflows(buf, units[0]) {
      MergeGreedy(units[0], units[1..]);
      if units[0] != [] {
        FirstPart(units[0], units[0], units[1..]);
        var next := Merge(units[0], units[1..])[0];
        PrefixBelow(next, |units[0]|);
        assert next[..|units[0]|] == units[0];
      } else {
        assert Tokens([]) == 0 by { TokensIsRun([]); }
      }
      GreedyCons(TrimRight(buf), Merge(units[0], units[1..]));
    } else {
      ExtendBuffered(buf, units[0]);
      MergeGreedy(Extend(buf, units[0]), units[1..]);
    }
  }

  lemma FlushNothing()
    ensures Flush([]) == []
  {}

  /** Two neighbouring parts of a split section never add up to less than the target. */
  lemma PartsGreedy(content: Text)
    ensures Greedy(Parts(content))
  {
    UnitsFit(Split(content, NLNL), false, MAX_CHUNK_TOKENS);
    MergeGreedy([], Units(content, false, MAX_CHUNK_TOKENS));
  }

  // ----- which units a part is made of -----

  /** The units from the first that is not empty on: an empty one opens no part. */
  ghost function Opened(group: seq<Text>): (units: seq<Text>)
    ensures units != [] ==> units[0] != []
    ensures units == [] <==> forall k :: 0 <= k < |group| ==> group[k] == []
  {
    if group != [] && group[0] == [] then Opened(group[1..]) else group
  }

  ghost function GroupText(group: seq<Text>): Text {
    Join(Opened(group), [Newline, Newline])
  }

  /** Each further unit still went in: with what was there it came to 500 tokens at most. */
  ghost predicate Filled(units: seq<Text>) {
    forall k :: 0 < k < |units| ==> Tokens(Join(units[..k], [Newline, Newline])) + Tokens(units[k]) <= 500
  }

  /** The units in their order, cut into groups; a group is left when its text and the next unit come
      to more than 500 tokens, and not before.  Only empty units may be left over. */
  ghost predicate Grouped(units: seq<Text>, groups: seq<seq<Text>>, rest: seq<Text>) {
    && units == Flatten(groups) + rest && (forall k :: 0 <= k < |rest| ==> rest[k] == [])
    && (forall i :: 0 <= i < |groups| ==> Opened(groups[i]) != [] && Filled(Opened(groups[i])))
    && (forall i :: 0 <= i < |groups| - 1 ==> Full(groups[i], groups[i + 1]))
    && (groups != [] && rest != [] ==> Full(groups[|groups| - 1], rest))
  }

  ghost predicate Full(group: seq<Text>, next: seq<Text>) {
    next != [] && Tokens(GroupText(group)) + Tokens(next[0]) > 500
  }

  ghost function TextsOf(groups: seq<seq<Text>>): (texts: seq<Text>)
    ensures |texts| == |groups| && forall i :: 0 <= i < |texts| ==> texts[i] == Trim(GroupText(groups[i]))
  {
    seq(|groups|, i requires 0 <= i < |groups| => Trim(GroupText(groups[i])))
  }

  lemma {:induction false} OpenedSnoc(group: seq<Text>, unit: Text)
    ensures Opened(group + [unit]) ==
            if Opened(group) != [] then Opened(group) + [unit] else if unit == [] then [] else [unit]
  {
    if group != [] && group[0] == [] {
      assert (group + [unit])[1..] == group[1..] + [unit];
      OpenedSnoc(group[1..], unit);
    } else if group == [] {
      assert group + [unit] == [unit];
    }
  }

  lemma TextExtends(group: seq<Text>, unit: Text)
    ensures GroupText(group + [unit]) == Extend(GroupText(group), unit)
    ensures GroupText(group) == [] <==> Opened(group) == []
  {
    hide Opened;
    OpenedSnoc(group, unit);
    var units := Opened(group);
    if units != [] {
      JoinSnoc(units, unit, NLNL);
      TextStarts(units);
    }
  }

  lemma TextStarts(units: seq<Text>)
    requires units != [] && units[0] != []
    ensures Join(units, NLNL) != []
  {}

  lemma FilledSnoc(group: seq<Text>, unit: Text)
    requires Filled(Opened(group)) && !Overflows(GroupText(group), unit)
    ensures Filled(Opened(group + [unit]))
  {
    hide Tokens, Opened, Join;
    OpenedSnoc(group, unit);
    TextExtends(group, unit);
    var units, more := Opened(group), Opened(group + [unit]);
    if units != [] {
      forall k | 0 < k < |more| ensures Tokens(Join(more[..k], [Newline, Newline])) + Tokens(more[k]) <= 500 {
        if k < |units| {
          assert more[..k] == units[..k] && more[k] == units[k];
        } else {
          assert more[..k] == units;
        }
      }
    }
  }

  lemma {:induction false} MergeGroups(head: seq<Text>, units: seq<Text>) returns (groups: seq<seq<Text>>, rest: seq<Text>)
    requires Buffered(GroupText(head)) && Filled(Opened(head))
    requires forall u :: u in units ==> Trimmed(u)
    ensures Grouped(head + units, groups, rest) && Merge(GroupText(head), units) == TextsOf(groups)
    ensures if groups == [] then head <= rest else head <= groups[0]
    decreases |units|
  {
    hide Tokens, Opened, Filled, GroupText, Buffered, Flush, Extend, Trim;
    var buf := GroupText(head);
    OpenedSnoc(head, []);
    TextExtends(head, []);
    if units == [] {
      groups, rest := LastGroup(head);
    } else if Overflows(buf, units[0]) {
      var next := [units[0]];
      NewGroup(units[0]);
      groups, rest := MergeGroups(next, units[1..]);
      assert next + units[1..] == units;
      GroupLeft(head, units, groups, rest);
      groups := [head] + groups;
    } else {
      FilledSnoc(head, units[0]);
      TextExtends(head, units[0]);
      ExtendBuffered(buf, units[0]);
      assert head + units == (head + [units[0]]) + units[1..];
      groups, rest := MergeGroups(head + [units[0]], units[1..]);
    }
  }

  lemma LastGroup(head: seq<Text>) returns (groups: seq<seq<Text>>, rest: seq<Text>)
    requires Buffered(GroupText(head)) && Filled(Opened(head))
    ensures Grouped(head + [], groups, rest) && Flush(GroupText(head)) == TextsOf(groups)
    ensures if groups == [] then head <= rest else head <= groups[0]
  {
    hide Tokens, Buffered, Trim, Filled;
    TextExtends(head, []);
    assert head + [] == head;
    if Opened(head) == [] {
      groups, rest := [], head;
      FlushNothing();
      assert Flatten(groups) + rest == head;
    } else {
      groups, rest := [head], [];
      FlattenOne(head);
      FlushesBuffer(GroupText(head));
    }
  }

  lemma FlushesBuffer(buf: Text)
    requires Buffered(buf) && buf != []
    ensures Flush(buf) == [Trim(buf)]
  {
    hide TrimRight;
    BufferCost(buf);
  }

  lemma NewGroup(unit: Text)
    requires Trimmed(unit)
    ensures GroupText([unit]) == unit && Buffered(GroupText([unit])) && Filled(Opened([unit]))
  {
    hide Tokens;
    TrimmedIsBuffered(unit);
    OpenedSnoc([], unit);
    assert [] + [unit] == [unit];
    assert Opened([]) == [];
    hide Opened;
  }

  lemma GroupLeft(head: seq<Text>, units: seq<Text>, groups: seq<seq<Text>>, rest: seq<Text>)
    requires Buffered(GroupText(head)) && Filled(Opened(head)) && units != []
    requires Overflows(GroupText(head), units[0])
    requires Grouped(units, groups, rest) && if groups == [] then [units[0]] <= rest else [units[0]] <= groups[0]
    ensures Grouped(head + units, [head] + groups, rest)
    ensures Flush(GroupText(head)) + TextsOf(groups) == TextsOf([head] + groups)
  {
    hide Tokens, GroupText, Filled, Buffered, Trim, Opened, Flush, Grouped, Full, Overflows;
    LeftIsFull(head, units[0]);
    FlushesBuffer(GroupText(head));
    TextExtends(head, []);
    GroupInFront(head, units, groups, rest);
    assert TextsOf([head] + groups) == [Trim(GroupText(head))] + TextsOf(groups);
  }

  lemma LeftIsFull(head: seq<Text>, unit: Text)
    requires Overflows(GroupText(head), unit)
    ensures GroupText(head) != [] && forall next: seq<Text> :: [unit] <= next ==> Full(head, next)
  {
    hide Tokens, GroupText;
  }

  lemma GroupInFront(head: seq<Text>, units: seq<Text>, groups: seq<seq<Text>>, rest: seq<Text>)
    requires Opened(head) != [] && Filled(Opened(head)) && Grouped(units, groups, rest)
    requires Full(head, if groups == [] then rest else groups[0])
    ensures Grouped(head + units, [head] + groups, rest)
  {
    hide Filled, Opened, Full;
    var all := [head] + groups;
    assert all[1..] == groups;
    assert Flatten(all) == head + Flatten(groups);
    hide Flatten;
    assert head + units == Flatten(all) + rest;
    forall i | 0 <= i < |all| - 1 ensures Full(all[i], all[i + 1]) {
      if i > 0 {
        assert all[i] == groups[i - 1] && all[i + 1] == groups[i];
      }
    }
    assert groups != [] ==> all[|all| - 1] == groups[|groups| - 1];
  }

  /** An oversized section becomes its units in groups, each joined by blank lines. */
  lemma PartsAreGroups(content: Text) returns (groups: seq<seq<Text>>, rest: seq<Text>)
    requires Tokens(content) > 800
    ensures Grouped(Units(content, false, 800), groups, rest)
    ensures Parts(content) == TextsOf(groups)
  {
    hide Tokens, UnitsOf, Split, Merge;
    var units := Units(content, false, 800);
    UnitsFit(Split(content, NLNL), false, 800);
    assert GroupText([]) == [] && Filled(Opened([])) && Buffered([]);
    groups, rest := MergeGroups([], units);
    assert [] + units == units;
  }

  lemma SmallContentStays(content: Text)
    requires Tokens(content) <= 800
    ensures Parts(content) == [content]
  {}

  // ----- repeated breadcrumbs -----

  /** The n-th section with breadcrumb path. */
  function Label(path: Text, n: nat): Text {
    if n <= 1 then path else path + Lit(" (") + Decimal(n) + Lit(")")
  }

  /** How often path occurs. */
  function Occurrences(paths: seq<Text>, path: Text): nat {
    if paths == [] then 0
    else Occurrences(paths[..|paths| - 1], path) + if paths[|paths| - 1] == path then 1 else 0
  }

  /** The breadcrumb a section is stored under. */
  function LabelAt(paths: seq<Text>, i: nat): Text
    requires i < |paths|
  {
    Label(paths[i], Occurrences(paths[..i + 1], paths[i]))
  }

  /** Some breadcrumb spells the number of a later repeat of another one. */
  ghost predicate NumberTaken(paths: seq<Text>) {
    exists q, m: nat :: 2 <= m <= Occurrences(paths, q) && Label(q, m) in paths
  }

  /** Two numbered labels are equal only when path and number are. */
  lemma NumberedLabelsDiffer(p: Text, n: nat, q: Text, m: nat)
    requires n >= 2 && m >= 2 && Label(p, n) == Label(q, m) && |p| <= |q|
    ensures p == q && n == m
  {
    var l, r := Label(p, n), Label(q, m);
    var dn, dm := Decimal(n), Decimal(m);
    assert r[|q| + 1] == Symbol('(' as nat);
    assert forall k :: |p| + 2 <= k < |l| ==> l[k] != Symbol('(' as nat) by {
      forall k | |p| + 2 <= k < |l| ensures l[k] != Symbol('(' as nat) {
        assert l[k] == (dn + Lit(")"))[k - |p| - 2];
        assert k - |p| - 2 < |dn| ==> dn[k - |p| - 2] in dn;
      }
    }
    assert |p| == |q|;
    assert l[..|p|] == p && r[..|q|] == q;
    assert l[|p| + 2..|l| - 1] == dn && r[|q| + 2..|r| - 1] == dm;
    NumeralInjective(n, m, DIGITS);
  }

  lemma {:induction false} OccurrencesGrow(paths: seq<Text>, i: nat, j: nat, p: Text)
    requires i <= j <= |paths|
    ensures Occurrences(paths[..i], p) <= Occurrences(paths[..j], p)
  {
    if i < j {
      assert paths[..j][..j - 1] == paths[..j - 1];
      OccurrencesGrow(paths, i, j - 1, p);
    }
  }

  /** Every occurrence number up to the count is met. */
  lemma {:induction false} OccurrenceAt(paths: seq<Text>, p: Text, m: nat) returns (i: nat)
    requires 1 <= m <= Occurrences(paths, p)
    ensures i < |paths| && paths[i] == p && Occurrences(paths[..i + 1], p) == m
  {
    var last := |paths| - 1;
    if m == Occurrences(paths, p) && paths[last] == p {
      i := last;
      assert paths[..last + 1] == paths;
    } else {
      i := OccurrenceAt(paths[..last], p, m);
      assert paths[..last][..i + 1] == paths[..i + 1];
    }
  }

  lemma OccurrencesAtLeastOne(paths: seq<Text>, i: nat)
    requires i < |paths|
    ensures Occurrences(paths[..i + 1], paths[i]) >= 1
  {
    assert paths[..i + 1][|paths[..i + 1]| - 1] == paths[i];
  }

  /** Numbering repeats does not always keep the breadcrumbs of a document apart: it does exactly
      when no section is already called what a repeat would be renamed to. */
  lemma LabelsDistinctIff(paths: seq<Text>, labels: seq<Text>)
    requires |labels| == |paths|
    requires forall i :: 0 <= i < |paths| ==> labels[i] == LabelAt(paths, i)
    ensures Distinct(labels) <==> !NumberTaken(paths)
  {
    if NumberTaken(paths) {
      var q, m: nat :| 2 <= m <= Occurrences(paths, q) && Label(q, m) in paths;
      TakenCollides(paths, labels, q, m);
    }
    if !Distinct(labels) {
      var i, j :| 0 <= i < j < |labels| && labels[i] == labels[j];
      CollisionTakes(paths, i, j);
    }
  }

  lemma TakenCollides(paths: seq<Text>, labels: seq<Text>, q: Text, m: nat)
    requires |labels| == |paths|
    requires forall i :: 0 <= i < |paths| ==> labels[i] == LabelAt(paths, i)
    requires 2 <= m <= Occurrences(paths, q) && Label(q, m) in paths
    ensures !Distinct(labels)
  {
    var p := Label(q, m);
    var k :| 0 <= k < |paths| && paths[k] == p;
    OccurrencesAtLeastOne(paths, k);
    OccurrencesGrow(paths, k + 1, |paths|, p);
    assert paths[..|paths|] == paths;
    var i := OccurrenceAt(paths, q, m);
    var j := OccurrenceAt(paths, p, 1);
    assert |p| > |q|;
    assert labels[i] == p == labels[j];
    if i < j {
      assert !(labels[i] != labels[j]);
    } else {
      assert !(labels[j] != labels[i]);
    }
  }

  lemma CollisionTakes(paths: seq<Text>, i: nat, j: nat)
    requires i < j < |paths| && LabelAt(paths, i) == LabelAt(paths, j)
    ensures NumberTaken(paths)
  {
    var p, q := paths[i], paths[j];
    var n, m := Occurrences(paths[..i + 1], p), Occurrences(paths[..j + 1], q);
    OccurrencesAtLeastOne(paths, i);
    OccurrencesAtLeastOne(paths, j);
    assert paths[..|paths|] == paths;
    OccurrencesGrow(paths, i + 1, |paths|, p);
    OccurrencesGrow(paths, j + 1, |paths|, q);
    assert p == q ==> n < m by {
      OccurrencesGrow(paths, i + 1, j, q);
      assert paths[..j + 1][..j] == paths[..j];
    }
    if n >= 2 && m >= 2 {
      if |p| <= |q| {
        NumberedLabelsDiffer(p, n, q, m);
      } else {
        NumberedLabelsDiffer(q, m, p, n);
      }
      assert false;
    } else if n >= 2 {
      assert Label(p, n) == q && q in paths;
    } else if m >= 2 {
      assert Label(q, m) == p && p in paths;
    }
  }

  /** Sections S, S, S (2): the second and the third end up under one name. */
  lemma LabelsCanCollide(p: Text)
    ensures !Distinct([LabelAt([p, p, Label(p, 2)], 0), LabelAt([p, p, Label(p, 2)], 1), LabelAt([p, p, Label(p, 2)], 2)])
  {
    var paths := [p, p, Label(p, 2)];
    var labels := [LabelAt(paths, 0), LabelAt(paths, 1), LabelAt(paths, 2)];
    assert paths[..2] == [p, p] && [p, p][..1] == [p] && paths[..|paths| - 1] == [p, p];
    assert Occurrences([p], p) == 1 by { assert [p][..0] == []; }
    assert Occurrences([p, p], p) == 2;
    TakenCollides(paths, labels, p, 2);
  }
}
