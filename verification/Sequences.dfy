/** Sequences of anything: strings and texts are both joined, split and printed from here. */
module Sequences {
  ghost predicate Distinct<T>(s: seq<T>) {
    forall i, j :: 0 <= i < j < |s| ==> s[i] != s[j]
  }

  /** l holds the elements of s, each once, in some order. */
  ghost predicate Lists<T(!new)>(l: seq<T>, s: set<T>) {
    Distinct(l) && forall x :: x in l <==> x in s
  }

  /** Places in a sequence of n elements, from the left to the right. */
  ghost predicate Rising(places: seq<nat>, n: nat) {
    && (forall i :: 0 <= i < |places| ==> places[i] < n)
    && forall i, j :: 0 <= i < j < |places| ==> places[i] < places[j]
  }

  lemma RisingSnoc(places: seq<nat>, n: nat)
    requires Rising(places, n)
    ensures Rising(places, n + 1) && Rising(places + [n], n + 1)
    ensures forall k :: k in places + [n] <==> k in places || k == n
    ensures n !in places
  {}

  lemma FrontRises(places: seq<nat>, n: nat)
    requires |places| > 1 && Rising(places, n)
    ensures Rising(places[..|places| - 1], n) && places[|places| - 2] < places[|places| - 1]
  {}

  // ----- how often an element occurs -----

  lemma CountedTwice<T>(s: seq<T>, i: nat, j: nat)
    requires i < j < |s| && s[i] == s[j]
    ensures multiset(s)[s[i]] >= 2
  {
    assert s == s[..j] + [s[j]] + s[j + 1..];
    assert s[..j][i] == s[i];
    assert s[i] in multiset(s[..j]);
  }

  lemma CountedOnce<T>(s: seq<T>, p: nat)
    requires p < |s| && Distinct(s)
    ensures multiset(s)[s[p]] == 1
  {
    var l, r := s[..p], s[p + 1..];
    assert s == l + [s[p]] + r;
    assert forall i :: 0 <= i < |l| ==> l[i] == s[i];
    assert forall i :: 0 <= i < |r| ==> r[i] == s[p + 1 + i];
    assert s[p] !in l && s[p] !in r;
    assert multiset(l)[s[p]] == 0 && multiset(r)[s[p]] == 0;
  }

  /** A reordering keeps two different places different. */
  lemma DistinctByCount<T>(a: seq<T>, b: seq<T>)
    requires Distinct(a) && multiset(a) == multiset(b)
    ensures Distinct(b)
  {
    forall i, j | 0 <= i < j < |b| ensures b[i] != b[j] {
      if b[i] == b[j] {
        CountedTwice(b, i, j);
        assert b[i] in multiset(a);
        var p :| 0 <= p < |a| && a[p] == b[i];
        CountedOnce(a, p);
      }
    }
  }

  // ----- joining and splitting -----

  /** strings.Join. */
  function Join<T>(parts: seq<seq<T>>, sep: seq<T>): seq<T> {
    if parts == [] then []
    else if |parts| == 1 then parts[0]
    else parts[0] + sep + Join(parts[1..], sep)
  }

  lemma {:induction false} JoinSnoc<T>(parts: seq<seq<T>>, last: seq<T>, sep: seq<T>)
    requires parts != []
    ensures Join(parts + [last], sep) == Join(parts, sep) + sep + last
  {
    if |parts| > 1 {
      assert (parts + [last])[1..] == parts[1..] + [last];
      JoinSnoc(parts[1..], last, sep);
    } else {
      assert (parts + [last])[1..] == [last];
    }
  }

  lemma JoinCons<T>(first: seq<T>, rest: seq<seq<T>>, sep: seq<T>)
    requires rest != []
    ensures Join([first] + rest, sep) == first + sep + Join(rest, sep)
  {
    assert ([first] + rest)[1..] == rest;
  }

  lemma JoinOne<T>(s: seq<T>, sep: seq<T>)
    ensures Join([s], sep) == s
  {}

  function Flatten<T>(parts: seq<seq<T>>): seq<T> {
    if parts == [] then [] else parts[0] + Flatten(parts[1..])
  }

  lemma FlattenOne<T>(s: seq<T>)
    ensures Flatten([s]) == s
  {
    assert Flatten([s]) == s + Flatten([]);
  }

  lemma {:induction false} FlattenConcat<T>(a: seq<seq<T>>, b: seq<seq<T>>)
    ensures Flatten(a + b) == Flatten(a) + Flatten(b)
  {
    if a == [] {
      assert a + b == b;
    } else {
      assert (a + b)[1..] == a[1..] + b;
      FlattenConcat(a[1..], b);
    }
  }

  /** Number of elements before the first occurrence of sep in s, or |s| when there is none. */
  function Find<T(==)>(s: seq<T>, sep: seq<T>): (i: nat)
    requires sep != []
    ensures i <= |s|
    ensures i < |s| ==> sep <= s[i..]
    ensures forall j :: 0 <= j < i ==> !(sep <= s[j..])
  {
    if s == [] || sep <= s then 0
    else
      var i := Find(s[1..], sep);
      assert forall j :: 0 < j <= |s| ==> s[1..][j - 1..] == s[j..];
      assert i < |s| - 1 ==> s[1..][i..] == s[1 + i..];
      1 + i
  }

  /** strings.Split for a non-empty separator. */
  function Split<T(==)>(s: seq<T>, sep: seq<T>): (parts: seq<seq<T>>)
    requires sep != []
    ensures parts != []
    decreases |s|
  {
    var i := Find(s, sep);
    if i == |s| then [s] else [s[..i]] + Split(s[i + |sep|..], sep)
  }

  lemma {:induction false} JoinSplit<T>(s: seq<T>, sep: seq<T>)
    requires sep != []
    ensures Join(Split(s, sep), sep) == s
    decreases |s|
  {
    hide Find, Join;
    var i := Find(s, sep);
    if i < |s| {
      var rest := Split(s[i + |sep|..], sep);
      JoinSplit(s[i + |sep|..], sep);
      JoinCons(s[..i], rest, sep);
      CutAtSeparator(s, sep, i);
    } else {
      JoinOne(s, sep);
    }
  }

  ghost predicate Without<T>(s: seq<T>, sep: seq<T>) {
    forall j :: 0 <= j <= |s| ==> !(sep <= s[j..])
  }

  /** No piece has the separator in it. */
  lemma {:induction false} SplitEverywhere<T>(s: seq<T>, sep: seq<T>)
    requires sep != []
    ensures forall p :: p in Split(s, sep) ==> Without(p, sep)
    decreases |s|
  {
    hide Find, Without;
    var i := Find(s, sep);
    FirstPieceUncut(s, sep);
    if i < |s| {
      var rest := Split(s[i + |sep|..], sep);
      SplitEverywhere(s[i + |sep|..], sep);
      assert Split(s, sep) == [s[..i]] + rest;
    } else {
      assert s[..i] == s && Split(s, sep) == [s];
    }
  }

  lemma FirstPieceUncut<T>(s: seq<T>, sep: seq<T>)
    requires sep != []
    ensures Without(s[..Find(s, sep)], sep)
  {
    hide Find;
    var i := Find(s, sep);
    var first := s[..i];
    forall j | 0 <= j <= |first| ensures !(sep <= first[j..]) {
      if j == |first| {
        assert first[j..] == [];
      } else {
        assert s[j..] == first[j..] + s[i..];
        PrefixGrows(sep, first[j..], s[i..]);
      }
    }
  }

  lemma PrefixGrows<T>(sep: seq<T>, a: seq<T>, b: seq<T>)
    ensures sep <= a ==> sep <= a + b
  {}

  lemma CutAtSeparator<T>(s: seq<T>, sep: seq<T>, i: nat)
    requires i <= |s| && sep <= s[i..]
    ensures s == s[..i] + sep + s[i + |sep|..]
  {
    assert s[i..] == sep + s[i..][|sep|..];
  }

  // ----- decimal numbers, as fmt prints them -----

  /** n in base ten, each digit by its name. */
  function Numeral<T>(n: nat, digits: seq<T>): (t: seq<T>)
    requires |digits| == 10
    ensures t != []
    ensures forall d :: d in t ==> d in digits
  {
    if n < 10 then [digits[n]] else Numeral(n / 10, digits) + [digits[n % 10]]
  }

  lemma {:induction false} NumeralInjective<T>(a: nat, b: nat, digits: seq<T>)
    requires |digits| == 10 && Distinct(digits) && Numeral(a, digits) == Numeral(b, digits)
    ensures a == b
    decreases a + b
  {
    if a >= 10 && b >= 10 {
      var da, db := Numeral(a / 10, digits), Numeral(b / 10, digits);
      LastDigit(da, digits[a % 10], db, digits[b % 10]);
      NumeralInjective(a / 10, b / 10, digits);
    }
  }

  lemma LastDigit<T>(a: seq<T>, x: T, b: seq<T>, y: T)
    requires a + [x] == b + [y]
    ensures a == b && x == y
  {
    var s := a + [x];
    assert |s| == |a| + 1 == |b| + 1;
    assert a == s[..|a|] && b == s[..|b|] && x == s[|a|] && y == s[|b|];
  }

  /** The number that a row of digits stands for, each digit as `read` takes it. */
  ghost function ReadOff<T>(t: seq<T>, read: T -> nat): nat {
    if t == [] then 0 else 10 * ReadOff(t[..|t| - 1], read) + read(t[|t| - 1])
  }

  /** Printed numbers read back, and only zero starts with a zero. */
  lemma {:induction false} NumeralReads<T>(n: nat, digits: seq<T>, read: T -> nat)
    requires |digits| == 10 && Distinct(digits) && forall i :: 0 <= i < 10 ==> read(digits[i]) == i
    ensures ReadOff(Numeral(n, digits), read) == n
    ensures n > 0 ==> Numeral(n, digits)[0] != digits[0]
  {
    var t := Numeral(n, digits);
    if n < 10 {
      assert t[..0] == [] && ReadOff(t[..0], read) == 0;
    } else {
      NumeralReads(n / 10, digits, read);
      assert t[..|t| - 1] == Numeral(n / 10, digits);
    }
  }

  function Pow10(k: nat): (p: nat)
    ensures p > 0
  {
    if k == 0 then 1 else 10 * Pow10(k - 1)
  }

  lemma {:induction false} NumeralLength<T>(n: nat, digits: seq<T>, k: nat)
    requires |digits| == 10 && k > 0 && n < Pow10(k)
    ensures |Numeral(n, digits)| <= k
  {
    if n >= 10 {
      assert k > 1;
      NumeralLength(n / 10, digits, k - 1);
    }
  }
}
