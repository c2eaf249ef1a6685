/** internal/tokenizer: the token estimate every budget rests on.  Count scans runs of runes
    with nested loops; Tokens is the same number as a fold that looks at one rune at a time,
    and the laws packing, truncation and chunking need are proved about the fold. */
module Tokenizer {
  import opened Runes
  import opened Sequences

  function CeilDiv(a: int, b: nat): nat
    requires b > 0
  {
    if a <= 0 then 0 else (a + b - 1) / b
  }

  function WordTokens(n: nat, ascii: bool): nat {
    if ascii then (if n <= 8 then 1 else CeilDiv(n, 7)) else CeilDiv(n, 3)
  }

  // ----- the fold -----

  /** The run the last rune belongs to: none, line breaks, a word, digits, or symbols. */
  datatype Mode =
    | Gap
    | Break
    | Word(n: nat, ascii: bool)
    | Digits(n: nat)
    | Marks(n: nat)
  {
    function Cost(): nat {
      match this
      case Gap => 0
      case Break => 0
      case Word(n, ascii) => WordTokens(n, ascii)
      case Digits(n) => CeilDiv(n, 3)
      case Marks(n) => CeilDiv(n, 3)
    }
  }

  /** Tokens of the runs already closed, and the run still open. */
  datatype State = State(closed: nat, mode: Mode) {
    function Total(): nat {
      closed + mode.Cost()
    }
  }

  const START := State(0, Gap)

  function IsAscii(r: Rune): bool {
    r.Letter? ==> r.code < 0x80
  }

  /** One rune.  A ForeignDigit is given the effect of a gap; Count never gets past one. */
  function Step(st: State, r: Rune): State {
    match r
    case Newline => if st.mode.Break? then st else State(st.Total() + 1, Break)
    case Return => if st.mode.Break? then st else State(st.Total(), Gap)
    case Blank(_) => State(st.Total(), Gap)
    case ForeignDigit(_) => State(st.Total(), Gap)
    case Letter(_) =>
      if st.mode.Word? then State(st.closed, Word(st.mode.n + 1, st.mode.ascii && IsAscii(r)))
      else State(st.Total(), Word(1, IsAscii(r)))
    case Digit(_) =>
      if st.mode.Digits? then State(st.closed, Digits(st.mode.n + 1)) else State(st.Total(), Digits(1))
    case Apostrophe =>
      if st.mode.Word? then State(st.closed, Word(st.mode.n + 1, st.mode.ascii))
      else if st.mode.Marks? then State(st.closed, Marks(st.mode.n + 1))
      else State(st.Total(), Marks(1))
    case Symbol(_) =>
      if st.mode.Marks? then State(st.closed, Marks(st.mode.n + 1)) else State(st.Total(), Marks(1))
  }

  function Run(st: State, s: Text): State {
    if s == [] then st else Step(Run(st, s[..|s| - 1]), s[|s| - 1])
  }

  function Tokens(s: Text): nat {
    Run(START, s).Total()
  }

  lemma RunSnoc(st: State, s: Text, r: Rune)
    ensures Run(st, s + [r]) == Step(Run(st, s), r)
  {
    assert (s + [r])[..|s|] == s;
  }

  lemma {:induction false} RunConcat(st: State, a: Text, b: Text)
    ensures Run(st, a + b) == Run(Run(st, a), b)
  {
    if b == [] {
      assert a + b == a;
    } else {
      var b' := b[..|b| - 1];
      assert b == b' + [b[|b| - 1]];
      assert a + b == (a + b') + [b[|b| - 1]];
      RunSnoc(st, a + b', b[|b| - 1]);
      RunConcat(st, a, b');
    }
  }

  lemma RunOne(st: State, r: Rune)
    ensures Run(st, [r]) == Step(st, r)
  {
    RunSnoc(st, [], r);
  }

  // ----- the scanner -----

  /** Text the scanner gets through. */
  predicate Countable(s: Text) {
    forall i :: 0 <= i < |s| ==> !s[i].ForeignDigit?
  }

  /** The fold over the first i runes. */
  function At(s: Text, i: nat): State
    requires i <= |s|
  {
    if i == 0 then START else Step(At(s, i - 1), s[i - 1])
  }

  lemma {:induction false} AtIsRun(s: Text, i: nat)
    requires i <= |s|
    ensures At(s, i) == Run(START, s[..i])
  {
    if i > 0 {
      AtIsRun(s, i - 1);
      assert s[..i][..i - 1] == s[..i - 1];
    }
  }

  /** r extends the open run instead of closing it. */
  predicate Continues(mode: Mode, r: Rune) {
    match mode
    case Gap => false
    case Break => r.IsBreak()
    case Word(_, _) => r.InWord()
    case Digits(_) => r.Digit?
    case Marks(_) => r.InMarks()
  }

  lemma RunCloses(st: State, r: Rune)
    requires !Continues(st.mode, r)
    ensures Step(st, r) == Step(State(st.Total(), Gap), r)
  {}

  /** No run goes on at i. */
  predicate Closed(s: Text, i: nat)
    requires i <= |s|
  {
    i < |s| ==> !Continues(At(s, i).mode, s[i])
  }

  /** A newline and the breaks after it. */
  method ScanBreaks(s: Text, i: nat) returns (j: nat)
    requires i < |s| && s[i].Newline? && Closed(s, i)
    ensures i < j <= |s| && At(s, j) == State(At(s, i).Total() + 1, Break) && Closed(s, j)
  {
    hide CeilDiv, WordTokens;
    RunCloses(At(s, i), s[i]);
    j := i + 1;
    while j < |s| && s[j].IsBreak()
      invariant i < j <= |s|
      invariant At(s, j) == State(At(s, i).Total() + 1, Break)
    {
      j := j + 1;
    }
  }

  method ScanWord(s: Text, i: nat) returns (j: nat, ascii: bool)
    requires i < |s| && s[i].Letter? && Closed(s, i)
    ensures i < j <= |s| && At(s, j) == State(At(s, i).Total(), Word(j - i, ascii)) && Closed(s, j)
  {
    hide CeilDiv, WordTokens;
    RunCloses(At(s, i), s[i]);
    j, ascii := i, true;
    while j < |s| && s[j].InWord()
      invariant i <= j <= |s|
      invariant j == i ==> ascii
      invariant j > i ==> At(s, j) == State(At(s, i).Total(), Word(j - i, ascii))
    {
      if !IsAscii(s[j]) {
        ascii := false;
      }
      j := j + 1;
    }
  }

  method ScanDigits(s: Text, i: nat) returns (j: nat)
    requires i < |s| && s[i].Digit? && Closed(s, i)
    ensures i < j <= |s| && At(s, j) == State(At(s, i).Total(), Digits(j - i)) && Closed(s, j)
  {
    hide CeilDiv, WordTokens;
    RunCloses(At(s, i), s[i]);
    j := i;
    while j < |s| && s[j].Digit?
      invariant i <= j <= |s|
      invariant j > i ==> At(s, j) == State(At(s, i).Total(), Digits(j - i))
    {
      j := j + 1;
    }
  }

  method ScanMarks(s: Text, i: nat) returns (j: nat)
    requires i < |s| && s[i].InMarks() && Closed(s, i)
    ensures i < j <= |s| && At(s, j) == State(At(s, i).Total(), Marks(j - i)) && Closed(s, j)
  {
    hide CeilDiv, WordTokens;
    RunCloses(At(s, i), s[i]);
    j := i;
    while j < |s| && s[j].InMarks()
      invariant i <= j <= |s|
      invariant j > i ==> At(s, j) == State(At(s, i).Total(), Marks(j - i))
    {
      j := j + 1;
    }
  }

  lemma AtStart(s: Text)
    ensures At(s, 0).Total() == 0 && Closed(s, 0)
  {}

  lemma SpaceCloses(s: Text, i: nat)
    requires i < |s| && s[i].IsSpace() && !s[i].Newline? && Closed(s, i)
    ensures At(s, i + 1) == State(At(s, i).Total(), Gap) && Closed(s, i + 1)
  {
    hide CeilDiv, WordTokens;
    RunCloses(At(s, i), s[i]);
  }

  /** The estimate, as the program computes it. */
  method Count(s: Text) returns (tokens: nat)
    requires Countable(s)
    ensures tokens == Tokens(s)
  {
    hide Run, CeilDiv, WordTokens, Step, At, Closed, Continues;
    AtStart(s);
    tokens := 0;
    var i := 0;
    while i < |s|
      invariant i <= |s|
      invariant tokens == At(s, i).Total()
      invariant Closed(s, i)
    {
      var start := i;
      if s[i].Newline? {
        tokens := tokens + 1;
        i := ScanBreaks(s, i);
      } else if s[i].IsSpace() {
        SpaceCloses(s, i);
        i := i + 1;
      } else if s[i].Letter? {
        var ascii;
        i, ascii := ScanWord(s, i);
        tokens := tokens + WordTokens(i - start, ascii);
      } else if s[i].Digit? {
        i := ScanDigits(s, i);
        tokens := tokens + CeilDiv(i - start, 3);
      } else {
        i := ScanMarks(s, i);
        tokens := tokens + CeilDiv(i - start, 3);
      }
    }
    AtIsRun(s, |s|);
    assert s[..|s|] == s;
  }

  // ----- where the scanner stops -----

  /** End of the longest stretch from i whose runes satisfy p. */
  function Skip(s: Text, i: nat, p: Rune -> bool): (j: nat)
    requires i <= |s|
    ensures i <= j <= |s|
    ensures forall k :: i <= k < j ==> p(s[k])
    ensures j < |s| ==> !p(s[j])
    decreases |s| - i
  {
    if i < |s| && p(s[i]) then Skip(s, i + 1, p) else i
  }

  /** Position after one round of Count's outer loop.  The class test of a ForeignDigit selects
      the digit case, whose byte loop then consumes nothing. */
  function NextPos(s: Text, i: nat): (j: nat)
    requires i < |s|
    ensures i <= j <= |s|
  {
    match s[i]
    case Newline => Skip(s, i + 1, (r: Rune) => r.IsBreak())
    case Return => i + 1
    case Blank(_) => i + 1
    case Letter(_) => Skip(s, i, (r: Rune) => r.InWord())
    case Digit(_) => Skip(s, i, (r: Rune) => r.Digit?)
    case ForeignDigit(_) => Skip(s, i, (r: Rune) => r.Digit?)
    case Apostrophe => Skip(s, i, (r: Rune) => r.InMarks())
    case Symbol(_) => Skip(s, i, (r: Rune) => r.InMarks())
  }

  function PosAfter(s: Text, rounds: nat): (i: nat)
    ensures i <= |s|
  {
    if rounds == 0 then 0
    else
      var i := PosAfter(s, rounds - 1);
      if i < |s| then NextPos(s, i) else i
  }

  ghost predicate Halts(s: Text) {
    exists rounds: nat :: PosAfter(s, rounds) == |s|
  }

  lemma NextStaysBefore(s: Text, i: nat, p: nat)
    requires i <= p < |s| && s[p].ForeignDigit?
    ensures NextPos(s, i) <= p
  {
  }

  lemma NextAdvances(s: Text, i: nat)
    requires Countable(s)
    ensures i < |s| ==> NextPos(s, i) > i
  {
  }

  lemma {:induction false} NeverPastForeignDigit(s: Text, p: nat, rounds: nat)
    requires p < |s| && s[p].ForeignDigit?
    ensures PosAfter(s, rounds) <= p
  {
    if rounds > 0 {
      NeverPastForeignDigit(s, p, rounds - 1);
      NextStaysBefore(s, PosAfter(s, rounds - 1), p);
      hide NextPos;
    }
  }

  lemma {:induction false} ProgressEachRound(s: Text, rounds: nat)
    requires Countable(s)
    ensures PosAfter(s, rounds) >= rounds || PosAfter(s, rounds) == |s|
  {
    if rounds > 0 {
      ProgressEachRound(s, rounds - 1);
      NextAdvances(s, PosAfter(s, rounds - 1));
      hide NextPos;
    }
  }

  /** Count returns on exactly the texts whose digits are all ASCII. */
  lemma CountHalts(s: Text)
    ensures Halts(s) <==> Countable(s)
  {
    if Countable(s) {
      ProgressEachRound(s, |s|);
    } else {
      var p :| 0 <= p < |s| && s[p].ForeignDigit?;
      forall rounds: nat ensures PosAfter(s, rounds) != |s| {
        NeverPastForeignDigit(s, p, rounds);
      }
    }
  }

  // ----- monotonicity -----

  lemma CostGrows(st: State, r: Rune)
    ensures Step(st, r).Total() >= st.Total()
  {}

  lemma {:induction false} TotalGrows(st: State, s: Text)
    ensures Run(st, s).Total() >= st.Total()
  {
    if s != [] {
      TotalGrows(st, s[..|s| - 1]);
      CostGrows(Run(st, s[..|s| - 1]), s[|s| - 1]);
    }
  }

  /** Appending text never lowers the estimate. */
  lemma AppendMonotone(s: Text, t: Text)
    ensures Tokens(s) <= Tokens(s + t)
  {
    RunConcat(START, s, t);
    TotalGrows(Run(START, s), t);
  }

  // ----- across a newline -----

  /** a is at most b, and continues at most as expensively. */
  predicate Below(a: State, b: State) {
    a.closed <= b.closed && (a.mode == b.mode || (a.mode.Break? && b.mode.Gap?))
  }

  lemma {:induction false} BelowRun(a: State, b: State, s: Text)
    requires Below(a, b)
    ensures Below(Run(a, s), Run(b, s))
    ensures Run(a, s).Total() <= Run(b, s).Total()
  {
    if s != [] {
      BelowRun(a, b, s[..|s| - 1]);
      BelowStep(Run(a, s[..|s| - 1]), Run(b, s[..|s| - 1]), s[|s| - 1]);
      hide Below, Step;
    } else {
      BelowTotal(a, b);
    }
  }

  lemma BelowTotal(a: State, b: State)
    requires Below(a, b)
    ensures a.Total() <= b.Total()
  {
    hide WordTokens, CeilDiv;
  }

  lemma BelowStep(a: State, b: State, r: Rune)
    requires Below(a, b)
    ensures Below(Step(a, r), Step(b, r)) && Step(a, r).Total() <= Step(b, r).Total()
  {
    hide WordTokens, CeilDiv;
  }

  /** Adding base tokens up front adds them to the total. */
  lemma {:induction false} Shift(st: State, base: nat, s: Text)
    ensures Run(State(st.closed + base, st.mode), s) ==
            State(Run(st, s).closed + base, Run(st, s).mode)
  {
    if s != [] {
      Shift(st, base, s[..|s| - 1]);
      ShiftStep(Run(st, s[..|s| - 1]), base, s[|s| - 1]);
      hide Step;
    }
  }

  lemma ShiftStep(st: State, base: nat, r: Rune)
    ensures Step(State(st.closed + base, st.mode), r) == State(Step(st, r).closed + base, Step(st, r).mode)
  {
    hide WordTokens, CeilDiv;
  }

  /** A rune that does not extend the open run is priced as if the text were cut before it. */
  lemma CutBefore(x: Text, y: Text)
    requires y != [] && !Continues(Run(START, x).mode, y[0])
    ensures Tokens(x + y) == Tokens(x) + Tokens(y)
    ensures Run(START, x + y).mode == Run(START, y).mode
  {
    hide Run;
    var st := Run(START, x);
    RunConcat(START, x, y);
    RunClosesAll(st, y);
    Shift(START, st.Total(), y);
  }

  lemma RunClosesAll(st: State, y: Text)
    requires y != [] && !Continues(st.mode, y[0])
    ensures Run(st, y) == Run(State(st.Total(), Gap), y)
  {
    assert y == [y[0]] + y[1..];
    RunConcat(st, [y[0]], y[1..]);
    RunConcat(State(st.Total(), Gap), [y[0]], y[1..]);
    RunOne(st, y[0]);
    RunOne(State(st.Total(), Gap), y[0]);
    RunCloses(st, y[0]);
  }

  lemma {:induction false} DigitRun(d: Text)
    requires d != [] && forall i :: 0 <= i < |d| ==> d[i].Digit?
    ensures Run(START, d) == State(0, Digits(|d|))
  {
    if |d| > 1 {
      DigitRun(d[..|d| - 1]);
    } else {
      assert d == [d[0]];
      RunOne(START, d[0]);
    }
  }

  /** What follows a break or a gap costs no more than it does on its own. */
  lemma ResumeBelow(st: State, s: Text)
    requires st.mode.Gap? || st.mode.Break?
    ensures Run(st, s).Total() <= st.closed + Tokens(s)
  {
    hide Run;
    BelowRun(st, State(st.closed, Gap), s);
    Shift(START, st.closed, s);
  }

  /** Two texts on separate lines cost at most one token more than apart. */
  lemma NewlineSubadditive(x: Text, y: Text)
    ensures Tokens(x + NL + y) <= Tokens(x) + 1 + Tokens(y)
  {
    RunConcat(START, x + NL, y);
    RunSnoc(START, x, Newline);
    ResumeBelow(Run(START, x + NL), y);
  }

  /** A blank line between two texts costs no more than a newline. */
  lemma BlankLineSubadditive(x: Text, y: Text)
    ensures Tokens(x + NLNL + y) <= Tokens(x) + 1 + Tokens(y)
  {
    assert x + NLNL + y == (x + NL) + NL + y;
    RunConcat(START, x + NL + NL, y);
    RunSnoc(START, x, Newline);
    RunSnoc(START, x + NL, Newline);
    ResumeBelow(Run(START, x + NL + NL), y);
  }

  /** b is at most a, where a may still swallow a leading newline that b pays for. */
  predicate Above(a: State, b: State) {
    (a.mode == b.mode && b.closed <= a.closed + 1)
    || (a.mode.Break? && b.mode.Gap? && b.closed <= a.closed)
  }

  lemma {:induction false} AboveRun(a: State, b: State, s: Text)
    requires Above(a, b)
    ensures Above(Run(a, s), Run(b, s))
  {
    if s != [] {
      AboveRun(a, b, s[..|s| - 1]);
      AboveStep(Run(a, s[..|s| - 1]), Run(b, s[..|s| - 1]), s[|s| - 1]);
      hide Above, Step;
    }
  }

  lemma AboveStep(a: State, b: State, r: Rune)
    requires Above(a, b)
    ensures Above(Step(a, r), Step(b, r))
  {
    hide WordTokens, CeilDiv;
  }

  lemma AfterNewline(x: Text)
    ensures Run(START, x + NL).mode == Break && Run(START, x + NL).closed >= 1
  {
    hide Run, CeilDiv, WordTokens;
    RunSnoc(START, x, Newline);
    BreakIsPaid(x);
  }

  /** The text after a newline costs no more on its own than the whole does. */
  lemma LineSuffixBelow(x: Text, y: Text)
    ensures Tokens(y) <= Tokens(x + NL + y)
  {
    hide Run, Step;
    RunConcat(START, x + NL, y);
    AfterNewline(x);
    var st := Run(START, x + NL);
    AboveRun(State(st.closed - 1, Break), START, y);
    Shift(State(st.closed - 1, Break), 1, y);
  }

  lemma {:induction false} BreakIsPaid(s: Text)
    ensures Run(START, s).mode.Break? ==> Run(START, s).closed >= 1
  {
    if s != [] {
      BreakIsPaid(s[..|s| - 1]);
    }
  }

  /** Joined without a separator the estimate is not subadditive: two words of eight letters
      cost one token each, the word of sixteen costs three. */
  lemma ConcatCanCostMore()
    ensures var w := seq(8, _ => Letter(0x61)); Tokens(w + w) > Tokens(w) + Tokens(w)
  {
    LetterRun(8);
    LetterRun(16);
    var w := seq(8, _ => Letter(0x61));
    assert w + w == seq(16, _ => Letter(0x61));
  }

  lemma {:induction false} LetterRun(n: nat)
    requires n > 0
    ensures Run(START, seq(n, _ => Letter(0x61))) == State(0, Word(n, true))
  {
    var w := seq(n, _ => Letter(0x61));
    var w' := seq(n - 1, _ => Letter(0x61));
    assert w == w' + [Letter(0x61)];
    RunSnoc(START, w', Letter(0x61));
    if n > 1 {
      LetterRun(n - 1);
    }
  }

  // ----- trimming and cutting -----

  lemma {:induction false} TrimLeftBelow(s: Text)
    ensures Tokens(TrimLeft(s)) <= Tokens(s)
  {
    if s != [] && s[0].IsSpace() {
      TrimLeftBelow(s[1..]);
      SpaceBelow(s);
    }
  }

  /** Dropping a leading space never costs. */
  lemma SpaceBelow(s: Text)
    requires s != [] && s[0].IsSpace()
    ensures Tokens(s[1..]) <= Tokens(s)
  {
    assert s == [s[0]] + s[1..];
    if s[0].Newline? {
      LineSuffixBelow([], s[1..]);
      assert [] + NL + s[1..] == s;
    } else {
      RunConcat(START, [s[0]], s[1..]);
      RunOne(START, s[0]);
      assert Run(START, [s[0]]) == START;
    }
  }

  lemma PrefixBelow(s: Text, k: nat)
    requires k <= |s|
    ensures Tokens(s[..k]) <= Tokens(s)
  {
    AppendMonotone(s[..k], s[k..]);
    assert s[..k] + s[k..] == s;
  }

  lemma TrimBelow(s: Text)
    ensures Tokens(Trim(s)) <= Tokens(s)
  {
    TrimLeftBelow(s);
    var l := TrimLeft(s);
    PrefixBelow(l, |TrimRight(l)|);
  }

  // ----- what each run costs -----

  /** Line breaks that follow one another are one token. */
  lemma {:induction false} BreaksPrice(s: Text)
    requires s != [] && s[0] == Newline && forall i :: 0 <= i < |s| ==> s[i].IsBreak()
    ensures Tokens(s) == 1 && Run(START, s) == State(1, Break)
  {
    var l := |s| - 1;
    if l > 0 {
      BreaksPrice(s[..l]);
    } else {
      assert s == [Newline];
      RunOne(START, Newline);
    }
  }

  /** Other white space is free. */
  lemma {:induction false} GapPrice(s: Text)
    requires forall i :: 0 <= i < |s| ==> s[i].Blank? || s[i].Return?
    ensures Tokens(s) == 0 && Run(START, s) == START
  {
    if s != [] {
      GapPrice(s[..|s| - 1]);
    }
  }

  lemma {:induction false} WordRun(s: Text)
    requires s != [] && s[0].Letter? && forall i :: 0 <= i < |s| ==> s[i].InWord()
    ensures Run(START, s) == State(0, Word(|s|, forall i :: 0 <= i < |s| && s[i].Letter? ==> s[i].code < 0x80))
  {
    var l := |s| - 1;
    if l > 0 {
      WordRun(s[..l]);
      assert forall i :: 0 <= i < l ==> s[..l][i] == s[i];
    } else {
      assert s == [s[0]];
      RunOne(START, s[0]);
    }
  }

  /** A word of ASCII letters is one token up to eight runes, and from there on one for every seven
      begun; any other word is one for every three begun. */
  lemma WordPrice(s: Text)
    requires s != [] && s[0].Letter? && forall i :: 0 <= i < |s| ==> s[i].InWord()
    ensures var ascii := forall i :: 0 <= i < |s| && s[i].Letter? ==> s[i].code < 0x80;
      && (ascii && |s| <= 8 ==> Tokens(s) == 1)
      && (ascii && |s| > 8 ==> 7 * (Tokens(s) - 1) < |s| <= 7 * Tokens(s))
      && (!ascii ==> 3 * (Tokens(s) - 1) < |s| <= 3 * Tokens(s))
  {
    hide Run;
    WordRun(s);
  }

  /** Digits go three to a token. */
  lemma DigitsPrice(s: Text)
    requires s != [] && forall i :: 0 <= i < |s| ==> s[i].Digit?
    ensures 3 * (Tokens(s) - 1) < |s| <= 3 * Tokens(s)
  {
    hide Run;
    DigitRun(s);
  }

  lemma {:induction false} MarksRun(s: Text)
    requires s != [] && forall i :: 0 <= i < |s| ==> s[i].InMarks()
    ensures Run(START, s) == State(0, Marks(|s|))
  {
    var l := |s| - 1;
    if l > 0 {
      MarksRun(s[..l]);
    } else {
      assert s == [s[0]];
      RunOne(START, s[0]);
    }
  }

  /** So do symbols. */
  lemma MarksPrice(s: Text)
    requires s != [] && forall i :: 0 <= i < |s| ==> s[i].InMarks()
    ensures 3 * (Tokens(s) - 1) < |s| <= 3 * Tokens(s)
  {
    hide Run;
    MarksRun(s);
  }
}
