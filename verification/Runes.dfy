/** Text as the program sees it after UTF-8 decoding: a sequence of runes, each carrying
    the Unicode class the estimator branches on.  Unicode's tables are not modelled; a rune
    comes with its class, and a letter is ASCII when its code is below 0x80. */
module Runes {
  import opened Sequences

  datatype Rune =
    | Newline               // '\n'
    | Return                // '\r', a space that a run of newlines swallows
    | Blank(code: nat)      // every other rune with unicode.IsSpace
    | Letter(code: nat)
    | Digit(value: nat)     // '0'..'9'
    | ForeignDigit(code: nat) // unicode.IsDigit outside '0'..'9'
    | Apostrophe
    | Symbol(code: nat)     // everything else
  {
    predicate IsSpace() {
      Newline? || Return? || Blank?
    }

    predicate IsBreak() {
      Newline? || Return?
    }

    predicate InWord() {
      Letter? || Apostrophe?
    }

    predicate InMarks() {
      Apostrophe? || Symbol?
    }
  }

  type Text = seq<Rune>

  const NL: Text := [Newline]
  const NLNL: Text := [Newline, Newline]

  /** The rune of a character of a literal in the program.  Its literals are ASCII apart from
      a few punctuation marks, so no non-ASCII letter has to be classified here. */
  function RuneOf(c: char): Rune {
    if c == '\n' then Newline
    else if c == '\r' then Return
    else if c == ' ' || c == '\t' then Blank(c as nat)
    else if 'a' <= c <= 'z' || 'A' <= c <= 'Z' then Letter(c as nat)
    else if '0' <= c <= '9' then Digit(c as nat - '0' as nat)
    else if c == '\'' then Apostrophe
    else Symbol(c as nat)
  }

  function Lit(s: string): (t: Text)
    ensures |t| == |s|
    ensures forall i :: 0 <= i < |s| ==> t[i] == RuneOf(s[i])
  {
    seq(|s|, i requires 0 <= i < |s| => RuneOf(s[i]))
  }

  // ----- trimming -----

  /** strings.TrimLeftFunc(s, unicode.IsSpace). */
  function TrimLeft(s: Text): (t: Text)
    ensures t == [] || !t[0].IsSpace()
    ensures |t| <= |s| && t == s[|s| - |t|..]
    ensures forall i :: 0 <= i < |s| - |t| ==> s[i].IsSpace()
  {
    if s == [] || !s[0].IsSpace() then s else TrimLeft(s[1..])
  }

  /** strings.TrimRightFunc(s, unicode.IsSpace). */
  function TrimRight(s: Text): (t: Text)
    ensures t == [] || !t[|t| - 1].IsSpace()
    ensures |t| <= |s| && t == s[..|t|]
    ensures forall i :: |t| <= i < |s| ==> s[i].IsSpace()
  {
    if s == [] || !s[|s| - 1].IsSpace() then s else TrimRight(s[..|s| - 1])
  }

  /** strings.TrimSpace. */
  function Trim(s: Text): Text {
    TrimRight(TrimLeft(s))
  }

  /** strings.TrimRight(s, "\n"). */
  function TrimNewlines(s: Text): (t: Text)
    ensures t == [] || t[|t| - 1] != Newline
    ensures |t| <= |s| && t == s[..|t|]
    ensures forall i :: |t| <= i < |s| ==> s[i] == Newline
  {
    if s == [] || s[|s| - 1] != Newline then s else TrimNewlines(s[..|s| - 1])
  }

  // ----- what is left when every space is deleted -----

  function Squeeze(s: Text): Text {
    if s == [] then [] else (if s[0].IsSpace() then [] else [s[0]]) + Squeeze(s[1..])
  }

  lemma {:induction false} SqueezeConcat(a: Text, b: Text)
    ensures Squeeze(a + b) == Squeeze(a) + Squeeze(b)
  {
    if a == [] {
      assert a + b == b;
    } else {
      assert (a + b)[1..] == a[1..] + b;
      SqueezeConcat(a[1..], b);
    }
  }

  lemma {:induction false} SqueezeBlank(s: Text)
    requires forall r :: r in s ==> r.IsSpace()
    ensures Squeeze(s) == []
  {
    if s != [] {
      SqueezeBlank(s[1..]);
    }
  }

  /** Together with the two laws above this says what squeezing is. */
  lemma {:induction false} SqueezeInk(s: Text)
    requires forall r :: r in s ==> !r.IsSpace()
    ensures Squeeze(s) == s
  {
    if s != [] {
      SqueezeInk(s[1..]);
      assert s == [s[0]] + s[1..];
    }
  }

  /** Trimming cuts exactly the white space at both ends. */
  lemma TrimIs(s: Text, i: nat, j: nat)
    requires i <= j <= |s|
    requires forall k :: 0 <= k < i || j <= k < |s| ==> s[k].IsSpace()
    requires i < j ==> !s[i].IsSpace() && !s[j - 1].IsSpace()
    ensures Trim(s) == s[i..j]
  {
    hide TrimLeft, TrimRight;
    var l := TrimLeft(s);
    if i < j {
      assert |s| - |l| == i;
      assert forall k :: 0 <= k < |l| ==> l[k] == s[i + k];
      assert |TrimRight(l)| == j - i;
    }
  }

  lemma InkEnds(s: Text) returns (i: nat, j: nat)
    ensures i <= j <= |s|
    ensures forall k :: 0 <= k < i || j <= k < |s| ==> s[k].IsSpace()
    ensures i < j ==> !s[i].IsSpace() && !s[j - 1].IsSpace()
  {
    hide TrimLeft, TrimRight;
    var l, r := TrimLeft(s), TrimRight(s);
    i, j := 0, |r|;
    if r != [] {
      assert r[|r| - 1] == s[j - 1];
      i := |s| - |l|;
      assert s[i] == l[0];
    }
  }

  lemma SqueezeTrimLeft(s: Text)
    ensures Squeeze(TrimLeft(s)) == Squeeze(s)
  {
    var l := TrimLeft(s);
    var gap := s[..|s| - |l|];
    assert s == gap + l;
    SqueezeBlank(gap);
    SqueezeConcat(gap, l);
  }

  lemma SqueezeTrimRight(s: Text)
    ensures Squeeze(TrimRight(s)) == Squeeze(s)
  {
    var t := TrimRight(s);
    var gap := s[|t|..];
    assert s == t + gap;
    SqueezeBlank(gap);
    SqueezeConcat(t, gap);
  }

  lemma SqueezeTrim(s: Text)
    ensures Squeeze(Trim(s)) == Squeeze(s)
  {
    SqueezeTrimLeft(s);
    SqueezeTrimRight(TrimLeft(s));
  }

  // ----- joining and splitting -----

  lemma FlattenNil()
    ensures Flatten<Rune>([]) == []
  {}

  lemma {:induction false} SqueezeJoin(parts: seq<Text>, sep: Text)
    requires forall r :: r in sep ==> r.IsSpace()
    ensures Squeeze(Join(parts, sep)) == Squeeze(Flatten(parts))
  {
    if |parts| == 1 {
      assert Flatten(parts[1..]) == [];
      assert Flatten(parts) == parts[0];
    } else if |parts| > 1 {
      SqueezeJoin(parts[1..], sep);
      SqueezeBlank(sep);
      SqueezeConcat(parts[0] + sep, Join(parts[1..], sep));
      SqueezeConcat(parts[0], sep);
      SqueezeConcat(parts[0], Flatten(parts[1..]));
    }
  }

  // ----- decimal numbers, as fmt prints them -----

  const DIGITS: Text := [Digit(0), Digit(1), Digit(2), Digit(3), Digit(4), Digit(5), Digit(6), Digit(7), Digit(8), Digit(9)]

  function Decimal(n: nat): (t: Text)
    ensures t != []
    ensures forall r :: r in t ==> r.Digit?
  {
    Numeral(n, DIGITS)
  }

  /** A printed number reads back, and has no leading zero. */
  lemma DecimalIs(n: nat)
    ensures ReadOff(Decimal(n), (r: Rune) => if r.Digit? then r.value else 0) == n
    ensures n > 0 ==> Decimal(n)[0] != Digit(0)
    ensures forall r :: r in Decimal(n) ==> r.value < 10
  {
    hide Numeral;
    NumeralReads(n, DIGITS, (r: Rune) => if r.Digit? then r.value else 0);
  }
}
