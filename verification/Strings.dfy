/** Strings as Go's standard library sorts and trims them. */
module Strings {
  // ----- trimming -----

  /** unicode.IsSpace. */
  predicate IsSpace(c: char) {
    || '\t' <= c <= '\r' || c == ' ' || c == '\U{85}' || c == '\U{A0}' || c == '\U{1680}'
    || '\U{2000}' <= c <= '\U{200A}' || c == '\U{2028}' || c == '\U{2029}' || c == '\U{202F}'
    || c == '\U{205F}' || c == '\U{3000}'
  }

  function TrimSpace(s: string): string {
    if s != "" && IsSpace(s[0]) then TrimSpace(s[1..])
    else if s != "" && IsSpace(s[|s| - 1]) then TrimSpace(s[..|s| - 1])
    else s
  }

  /** What is left when the spaces at both ends are gone. */
  lemma {:induction false} TrimSpaceIs(s: string) returns (a: string, b: string)
    ensures s == a + TrimSpace(s) + b && (forall c :: c in a || c in b ==> IsSpace(c))
    ensures var t := TrimSpace(s); t != "" ==> !IsSpace(t[0]) && !IsSpace(t[|t| - 1])
  {
    hide IsSpace;
    if s != "" && IsSpace(s[0]) {
      a, b := TrimSpaceIs(s[1..]);
      assert TrimSpace(s) == TrimSpace(s[1..]);
      hide TrimSpace;
      a := [s[0]] + a;
    } else if s != "" && IsSpace(s[|s| - 1]) {
      a, b := TrimSpaceIs(s[..|s| - 1]);
      assert TrimSpace(s) == TrimSpace(s[..|s| - 1]);
      hide TrimSpace;
      b := b + [s[|s| - 1]];
    } else {
      a, b := "", "";
      assert TrimSpace(s) == s;
    }
  }

  function TrimPrefix(s: string, prefix: string): string {
    if prefix <= s then s[|prefix|..] else s
  }

  // ----- order -----

  /** Go's `<`, byte by byte, which on valid UTF-8 is code point by code point. */
  predicate Less(a: string, b: string) {
    b != "" && (a == "" || a[0] < b[0] || (a[0] == b[0] && Less(a[1..], b[1..])))
  }

  /** Of two texts of one length the lesser has the smaller character where they first differ. */
  lemma {:induction false} LessAtFirstDifference(a: string, b: string) returns (k: nat)
    requires |a| == |b| && Less(a, b)
    ensures k < |a| && a[..k] == b[..k] && a[k] < b[k]
  {
    if a[0] < b[0] {
      k := 0;
    } else {
      k := LessAtFirstDifference(a[1..], b[1..]);
      k := k + 1;
      assert a[..k] == [a[0]] + a[1..][..k - 1] && b[..k] == [b[0]] + b[1..][..k - 1];
    }
  }

  lemma {:induction false} LessIrreflexive(a: string)
    ensures !Less(a, a)
  {
    if a != "" {
      LessIrreflexive(a[1..]);
    }
  }

  lemma {:induction false} LessTransitive(a: string, b: string, c: string)
    requires Less(a, b) && Less(b, c)
    ensures Less(a, c)
  {
    if a != "" && a[0] == b[0] == c[0] {
      LessTransitive(a[1..], b[1..], c[1..]);
    }
  }

  lemma LessAsymmetric(a: string, b: string)
    requires Less(a, b)
    ensures !Less(b, a) && a != b
  {
    LessIrreflexive(a);
    if Less(b, a) {
      LessTransitive(a, b, a);
    }
  }

  lemma {:induction false} LessTotal(a: string, b: string)
    ensures Less(a, b) || a == b || Less(b, a)
  {
    if a != "" && b != "" && a[0] == b[0] {
      LessTotal(a[1..], b[1..]);
      if a[1..] == b[1..] {
        assert a == [a[0]] + a[1..] && b == [b[0]] + b[1..];
      }
    }
  }

  /** Strictly ascending, hence without duplicates. */
  ghost predicate Ascending(s: seq<string>) {
    forall i, j :: 0 <= i < j < |s| ==> Less(s[i], s[j])
  }

  /** x put in its place in an ascending list that may hold it already. */
  function Place(s: seq<string>, x: string): seq<string> {
    if s == [] then [x]
    else if x == s[0] then s
    else if Less(x, s[0]) then [x] + s
    else [s[0]] + Place(s[1..], x)
  }

  lemma {:induction false} PlaceKeeps(s: seq<string>, x: string)
    requires Ascending(s)
    ensures Ascending(Place(s, x))
    ensures forall y :: y in Place(s, x) <==> y in s || y == x
  {
    hide Less;
    if s != [] && x != s[0] {
      LessTotal(x, s[0]);
      if Less(x, s[0]) {
        forall i | 0 <= i < |s| ensures Less(x, s[i]) {
          if i > 0 {
            LessTransitive(x, s[0], s[i]);
          }
        }
      } else {
        assert Ascending(s[1..]);
        PlaceKeeps(s[1..], x);
        var t := Place(s[1..], x);
        assert forall y :: y in s <==> y == s[0] || y in s[1..];
        forall i | 0 <= i < |t| ensures Less(s[0], t[i]) {
          assert t[i] in t;
        }
      }
    }
  }

  /** An ascending list is told by its elements. */
  lemma {:induction false} AscendingUnique(a: seq<string>, b: seq<string>)
    requires Ascending(a) && Ascending(b) && forall y :: y in a <==> y in b
    ensures a == b
  {
    hide Less;
    if a != [] || b != [] {
      var c := if a != [] then a else b;
      assert c[0] in c && c[0] in a && c[0] in b;
      assert a[0] in a && b[0] in b;
      FirstIsLeast(a, b[0]);
      FirstIsLeast(b, a[0]);
      if a[0] != b[0] {
        LessAsymmetric(a[0], b[0]);
      }
      TailsSame(a, b);
      AscendingUnique(a[1..], b[1..]);
    }
  }

  lemma FirstIsLeast(a: seq<string>, x: string)
    requires Ascending(a) && x in a
    ensures a[0] == x || Less(a[0], x)
  {
    hide Less;
  }

  lemma TailsSame(a: seq<string>, b: seq<string>)
    requires Ascending(a) && Ascending(b) && a != [] && b != [] && a[0] == b[0] && forall y :: y in a <==> y in b
    ensures Ascending(a[1..]) && Ascending(b[1..]) && forall y :: y in a[1..] <==> y in b[1..]
  {
    hide Less;
    LessIrreflexive(a[0]);
    assert a == [a[0]] + a[1..] && b == [b[0]] + b[1..];
    forall y ensures y in a[1..] <==> y in a && y != a[0] {
    }
    forall y ensures y in b[1..] <==> y in b && y != b[0] {
    }
  }
}
