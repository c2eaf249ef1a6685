/** internal/ingest/chunker.go: when the parts of an oversized section stay within the target. */
module Targets {
  import opened Runes
  import opened Sequences
  import opened Tokenizer
  import opened Chunker

  // ----- what a blank line between two texts costs -----

  lemma EndOpen(x: Text)
    requires x != [] && !x[|x| - 1].IsSpace()
    ensures !Run(START, x).mode.Break?
  {}

  /** Between two texts without space at the join a blank line costs exactly one token. */
  lemma BlankLineCost(x: Text, y: Text)
    requires x != [] && y != [] && !x[|x| - 1].IsSpace() && !y[0].IsSpace()
    ensures Tokens(x + NLNL + y) == Tokens(x) + 1 + Tokens(y)
  {
    EndOpen(x);
    RunSnoc(START, [], Newline);
    RunSnoc(START, [Newline], Newline);
    assert [] + [Newline] == [Newline] && [Newline] + [Newline] == NLNL;
    assert Run(START, NLNL) == State(1, Break);
    hide Run;
    CutBefore(x, NLNL);
    CutBefore(x + NLNL, y);
  }

  /** After a newline it costs nothing. */
  lemma MoreNewlinesCost(x: Text, y: Text)
    requires x != [] && y != [] && x[|x| - 1] == Newline && !y[0].IsSpace()
    ensures Tokens(x + NLNL + y) == Tokens(x) + Tokens(y)
  {
    EndsBroken(x);
    hide Run;
    CutBefore(x + NLNL, y);
  }

  lemma EndsBroken(x: Text)
    requires x != [] && x[|x| - 1] == Newline
    ensures Run(START, x + NLNL) == Run(START, x) && Run(START, x).mode.Break?
  {
    assert x + NLNL == x + [Newline] + [Newline];
    RunSnoc(START, x, Newline);
    RunSnoc(START, x + [Newline], Newline);
  }

  // ----- the condition -----

  /** A buffer and a unit that add up to the target exactly; joined they cost one token more. */
  predicate AtTarget(buf: Text, unit: Text) {
    buf != [] && unit != [] && !buf[|buf| - 1].IsSpace() && Tokens(buf) + Tokens(unit) == TARGET_CHUNK_TOKENS
  }

  predicate JoinsAtTarget(buf: Text, units: seq<Text>)
    decreases |units|
  {
    units != [] &&
    if Overflows(buf, units[0]) then JoinsAtTarget(units[0], units[1..])
    else AtTarget(buf, units[0]) || JoinsAtTarget(Extend(buf, units[0]), units[1..])
  }

  predicate Small(t: Text) {
    Tokens(t) <= TARGET_CHUNK_TOKENS
  }

  // ----- within the target -----

  lemma ExtendSmall(buf: Text, unit: Text)
    requires Buffered(buf) && Trimmed(unit) && Small(TrimRight(buf)) && Small(unit)
    requires !Overflows(buf, unit) && !AtTarget(buf, unit)
    ensures Small(TrimRight(Extend(buf, unit)))
  {
    hide Tokens;
    var joined := Extend(buf, unit);
    if buf == [] {
      TrimmedKept(unit);
    } else if unit == [] {
      SameTrimmed(buf);
    } else {
      TrimmedKept(joined);
      if buf[|buf| - 1].IsSpace() {
        assert buf[|buf| - 1] == Newline;
        MoreNewlinesCost(buf, unit);
      } else {
        BlankLineCost(buf, unit);
      }
    }
  }

  lemma TrimmedKept(t: Text)
    requires t == [] || !t[|t| - 1].IsSpace()
    ensures TrimRight(t) == t
  {}

  lemma SameTrimmed(buf: Text)
    ensures TrimRight(buf + NLNL + []) == TrimRight(buf)
  {
    var a := buf + NL;
    var b := a + NL;
    assert b[..|b| - 1] == a && a[..|a| - 1] == buf;
    assert TrimRight(b) == TrimRight(a) == TrimRight(buf);
    assert buf + NLNL + [] == b;
  }

  lemma {:induction false} MergeSmall(buf: Text, units: seq<Text>)
    requires Buffered(buf) && Small(TrimRight(buf)) && !JoinsAtTarget(buf, units)
    requires forall u :: u in units ==> Trimmed(u) && Small(u)
    ensures forall p :: p in Merge(buf, units) ==> Small(p)
    decreases |units|
  {
    hide Small, Overflows, AtTarget, Extend;
    FlushSmall(buf);
    if units != [] {
      var u := units[0];
      if Overflows(buf, u) {
        TrimmedIsBuffered(u);
        TrimmedKept(u);
        MergeSmall(u, units[1..]);
      } else {
        ExtendSmall(buf, u);
        ExtendBuffered(buf, u);
        MergeSmall(Extend(buf, u), units[1..]);
      }
    }
  }

  lemma FlushSmall(buf: Text)
    requires Buffered(buf) && Small(TrimRight(buf))
    ensures forall p :: p in Flush(buf) ==> Small(p)
  {
    hide Small;
    if buf == [] {
      FlushNothing();
    } else {
      BufferCost(buf);
    }
  }

  // ----- over the target -----

  /** A buffer over the target becomes a part as it is. */
  lemma BigAlone(buf: Text, units: seq<Text>)
    requires buf != [] && Trimmed(buf) && !Small(buf)
    ensures buf in Merge(buf, units)
  {
    hide Tokens, Merge;
    TrimmedIsFixed(buf);
    BigFlushed(buf, units);
  }

  lemma BigFlushed(buf: Text, units: seq<Text>)
    requires !Small(buf) && Trim(buf) == buf
    ensures buf != [] ==> buf in Merge(buf, units)
  {
    hide Tokens;
  }

  lemma {:induction false} MergeBig(buf: Text, units: seq<Text>) returns (p: Text)
    requires Buffered(buf) && forall u :: u in units ==> Trimmed(u)
    requires JoinsAtTarget(buf, units) || exists i :: 0 <= i < |units| && !Small(units[i])
    ensures p in Merge(buf, units) && !Small(p)
    decreases |units|
  {
    hide Trimmed, Buffered, Extend;
    var u, rest := units[0], units[1..];
    if !Small(u) {
      NotEmpty(u);
      BigAlone(u, rest);
      BigOverflows(buf, u);
      p := u;
    } else {
      assert JoinsAtTarget(buf, units) || exists i :: 0 <= i < |rest| && !Small(rest[i]) by { RestBig(units); }
      if Overflows(buf, u) {
        TrimmedIsBuffered(u);
        p := MergeBig(u, rest);
      } else if AtTarget(buf, u) {
        p := Extend(buf, u);
        JoinedBig(buf, u);
        BigAlone(p, rest);
      } else {
        ExtendBuffered(buf, u);
        p := MergeBig(Extend(buf, u), rest);
      }
    }
  }

  lemma NotEmpty(u: Text)
    requires !Small(u)
    ensures u != []
  {}

  lemma BigOverflows(buf: Text, u: Text)
    requires !Small(u)
    ensures Overflows(buf, u) || (buf == [] && Extend(buf, u) == u)
  {
    hide Tokens;
  }

  lemma RestBig(units: seq<Text>)
    requires units != [] && Small(units[0])
    ensures (exists i :: 0 <= i < |units| && !Small(units[i])) ==> exists i :: 0 <= i < |units[1..]| && !Small(units[1..][i])
  {
    hide Small;
    if i :| 0 <= i < |units| && !Small(units[i]) {
      assert units[1..][i - 1] == units[i];
    }
  }

  lemma JoinedBig(buf: Text, u: Text)
    requires Buffered(buf) && Trimmed(u) && AtTarget(buf, u)
    ensures Extend(buf, u) != [] && Trimmed(Extend(buf, u)) && !Small(Extend(buf, u))
  {
    BlankLineCost(buf, u);
    hide Tokens;
  }

  // ----- the theorem -----

  /** All parts keep the target exactly when, of a section that is split, no unit is over it and no
      buffer and unit that add up to it are joined; of a section kept whole, when it is not over it. */
  lemma TargetKeptIff(content: Text)
    ensures (forall p :: p in Parts(content) ==> Tokens(p) <= TARGET_CHUNK_TOKENS) <==>
      if Tokens(content) <= MAX_CHUNK_TOKENS then Tokens(content) <= TARGET_CHUNK_TOKENS
      else
        var units := Units(content, false, MAX_CHUNK_TOKENS);
        (forall u :: u in units ==> Tokens(u) <= TARGET_CHUNK_TOKENS) && !JoinsAtTarget([], units)
  {
    var units := Units(content, false, MAX_CHUNK_TOKENS);
    UnitsFit(Split(content, NLNL), false, MAX_CHUNK_TOKENS);
    hide Tokens, Merge, JoinsAtTarget, UnitsOf, Split;
    if Tokens(content) > MAX_CHUNK_TOKENS {
      SplitTargetIff(units);
    } else {
      assert content in [content];
    }
  }

  lemma SplitTargetIff(units: seq<Text>)
    requires forall u :: u in units ==> Trimmed(u)
    ensures (forall p :: p in Merge([], units) ==> Tokens(p) <= TARGET_CHUNK_TOKENS) <==>
      (forall u :: u in units ==> Tokens(u) <= TARGET_CHUNK_TOKENS) && !JoinsAtTarget([], units)
  {
    hide Merge, JoinsAtTarget;
    EmptySmall();
    hide Tokens;
    if (forall u :: u in units ==> Small(u)) && !JoinsAtTarget([], units) {
      MergeSmall([], units);
      assert forall p :: p in Merge([], units) ==> Small(p);
    } else {
      var p := MergeBig([], units);
    }
  }

  lemma EmptySmall()
    ensures Buffered([]) && TrimRight([]) == [] && Small([])
  {}

  // ----- a part over the target -----

  function Word(n: nat): Text {
    seq(n, _ => Letter(0x61))
  }

  lemma WordCost(n: nat)
    requires n > 8
    ensures Tokens(Word(n)) == CeilDiv(n, 7)
  {
    LetterRun(n);
  }

  lemma {:induction false} FindAfterWord(w: Text, rest: Text)
    requires Newline !in w
    ensures Find(w + NLNL + rest, NLNL) == |w| && Find(w, NLNL) == |w|
  {
    var s := w + NLNL + rest;
    if w == [] {
      assert NLNL <= s;
    } else {
      assert w == [w[0]] + w[1..];
      assert s[0] != Newline && s[1..] == w[1..] + NLNL + rest;
      assert !(NLNL <= s) && !(NLNL <= w);
      FindAfterWord(w[1..], rest);
    }
  }

  lemma SplitAfterWord(w: Text, rest: Text)
    requires Newline !in w
    ensures Split(w + NLNL + rest, NLNL) == [w] + Split(rest, NLNL) && Split(w, NLNL) == [w]
  {
    hide Find;
    FindAfterWord(w, rest);
    var s := w + NLNL + rest;
    assert s[..|w|] == w && s[|w| + 2..] == rest;
  }

  lemma WordUnit(n: nat)
    requires 8 < n <= 7 * MAX_CHUNK_TOKENS
    ensures UnitOf(Word(n), false, MAX_CHUNK_TOKENS) == [Word(n)] && Trimmed(Word(n))
  {
    var w := Word(n);
    WordCost(n);
    assert Trimmed(w) && w != [];
    hide Word, Tokens, Trim, Trimmed;
    TrimmedIsFixed(w);
    assert Tokens(w) <= MAX_CHUNK_TOKENS;
    FittingUnit(w);
  }

  lemma FittingUnit(w: Text)
    requires Trim(w) == w != [] && Tokens(w) <= MAX_CHUNK_TOKENS
    ensures UnitOf(w, false, MAX_CHUNK_TOKENS) == [w]
  {
    hide Tokens, Trim;
  }

  function ThreeWords(): Text {
    Word(1750) + NLNL + (Word(1750) + NLNL + Word(2100))
  }

  lemma ThreeWordsCost()
    ensures Tokens(ThreeWords()) == 802 && Tokens(Word(1750) + NLNL + Word(1750)) == TARGET_CHUNK_TOKENS + 1
  {
    hide Tokens;
    var a, b := Word(1750), Word(2100);
    WordCost(1750);
    WordCost(2100);
    BlankLineCost(a, a);
    BlankLineCost(a, b);
    var rest := a + NLNL + b;
    assert rest[0] == a[0];
    BlankLineCost(a, rest);
  }

  lemma ThreeWordsUnits()
    ensures Units(ThreeWords(), false, MAX_CHUNK_TOKENS) == [Word(1750), Word(1750), Word(2100)]
  {
    hide Split, UnitOf, Word;
    var a, b := Word(1750), Word(2100);
    NoNewline(1750);
    NoNewline(2100);
    SplitAfterWord(a, a + NLNL + b);
    SplitAfterWord(a, b);
    SplitAfterWord(b, []);
    WordUnit(1750);
    WordUnit(2100);
    assert [a, a, b][1..] == [a, b] && [a, b][1..] == [b] && [b][1..] == [];
    assert [a] + ([a] + [b]) == [a, a, b];
    UnitsOfThree(a, b);
  }

  lemma NoNewline(n: nat)
    ensures Newline !in Word(n)
  {}

  lemma UnitsOfThree(a: Text, b: Text)
    requires UnitOf(a, false, MAX_CHUNK_TOKENS) == [a] && UnitOf(b, false, MAX_CHUNK_TOKENS) == [b]
    ensures UnitsOf([a, a, b], false, MAX_CHUNK_TOKENS) == [a, a, b]
  {
    hide UnitOf;
    assert [a, a, b][1..] == [a, b] && [a, b][1..] == [b] && [b][1..] == [];
    assert UnitsOf([b], false, MAX_CHUNK_TOKENS) == [b];
    assert UnitsOf([a, b], false, MAX_CHUNK_TOKENS) == [a, b];
  }

  /** Three paragraphs of 250, 250 and 300 tokens: the first two make a part of 501. */
  lemma TargetExceeded()
    ensures Tokens(ThreeWords()) > MAX_CHUNK_TOKENS
    ensures exists p :: p in Parts(ThreeWords()) && Tokens(p) == TARGET_CHUNK_TOKENS + 1
  {
    ThreeWordsCost();
    ThreeWordsUnits();
    WordCost(1750);
    WordUnit(1750);
    hide Tokens, Units, Word, ThreeWords, Merge;
    FirstTwoJoined(Word(1750), Word(2100));
  }

  lemma FirstTwoJoined(a: Text, b: Text)
    requires Trimmed(a) && Tokens(a) == 250 && Tokens(a + NLNL + a) == TARGET_CHUNK_TOKENS + 1
    ensures a + NLNL + a in Merge([], [a, a, b])
  {
    EmptySmall();
    hide Tokens;
    var p := a + NLNL + a;
    assert [a, a, b][1..] == [a, b] && [a, b][1..] == [b];
    assert a != [] by { NotNothing(a); }
    BigAlone(p, [b]);
    assert Merge(a, [a, b]) == Merge(p, [b]);
  }

  lemma NotNothing(a: Text)
    requires Tokens(a) > 0
    ensures a != []
  {}
}
