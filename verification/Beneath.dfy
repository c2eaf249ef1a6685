/** internal/staleness: patterns that end in a slash, and whether they match everything beneath the
    directories they name. */
module Beneath {
  import opened Glob
  import opened Strings

  // ----- reading a regexp from its end -----

  lemma MatchesConcat(a: seq<Re>, b: seq<Re>, p: string)
    ensures MatchesAll(a + b, p) <==> exists k :: 0 <= k <= |p| && MatchesAll(a, p[..k]) && MatchesAll(b, p[k..])
  {
    hide MatchesAll;
    if MatchesAll(a + b, p) {
      var k := MatchesSplit(a, b, p);
    }
    if k :| 0 <= k <= |p| && MatchesAll(a, p[..k]) && MatchesAll(b, p[k..]) {
      MatchesJoin(a, b, p, k);
    }
  }

  lemma {:induction false} MatchesSplit(a: seq<Re>, b: seq<Re>, p: string) returns (n: nat)
    requires MatchesAll(a + b, p)
    ensures n <= |p| && MatchesAll(a, p[..n]) && MatchesAll(b, p[n..])
  {
    hide MatchesOne;
    if a == [] {
      assert a + b == b && p[0..] == p;
      n := 0;
    } else {
      var r, rest := a[0], a[1..];
      assert a + b == [r] + (rest + b) && a == [r] + rest;
      MatchesCons(r, rest + b, p);
      hide MatchesAll;
      var k :| 0 <= k <= |p| && MatchesOne(r, p[..k]) && MatchesAll(rest + b, p[k..]);
      var m := MatchesSplit(rest, b, p[k..]);
      n := k + m;
      MatchesCons(r, rest, p[..n]);
      assert p[..n][..k] == p[..k] && p[..n][k..] == p[k..][..m] && p[k..][m..] == p[n..];
    }
  }

  lemma {:induction false} MatchesJoin(a: seq<Re>, b: seq<Re>, p: string, n: nat)
    requires n <= |p| && MatchesAll(a, p[..n]) && MatchesAll(b, p[n..])
    ensures MatchesAll(a + b, p)
  {
    hide MatchesOne;
    if a == [] {
      assert a + b == b && p[n..] == p;
    } else {
      var r, rest := a[0], a[1..];
      assert a + b == [r] + (rest + b) && a == [r] + rest;
      MatchesCons(r, rest, p[..n]);
      MatchesCons(r, rest + b, p);
      hide MatchesAll;
      var k :| 0 <= k <= n && MatchesOne(r, p[..n][..k]) && MatchesAll(rest, p[..n][k..]);
      assert p[..n][..k] == p[..k] && p[..n][k..] == p[k..][..n - k] && p[n..] == p[k..][n - k..];
      MatchesJoin(rest, b, p[k..], n - k);
    }
  }

  lemma MatchesSnoc(rs: seq<Re>, r: Re, p: string)
    ensures MatchesAll(rs + [r], p) <==> exists k :: 0 <= k <= |p| && MatchesAll(rs, p[..k]) && MatchesOne(r, p[k..])
  {
    hide MatchesAll, MatchesOne;
    MatchesConcat(rs, [r], p);
    forall k | 0 <= k <= |p| ensures MatchesAll([r], p[k..]) <==> MatchesOne(r, p[k..]) {
      OneMatches(r, p[k..]);
    }
  }

  ghost predicate HasPrefix(rs: seq<Re>, p: string) {
    exists k :: 0 <= k <= |p| && MatchesAll(rs, p[..k])
  }

  predicate EndsIn(p: string, c: char) {
    p != "" && p[|p| - 1] == c
  }

  lemma SnocAny(rs: seq<Re>, p: string)
    requires OneLine(p)
    ensures MatchesAll(rs + [Star(Any)], p) <==> HasPrefix(rs, p)
  {
    hide MatchesAll, MatchesOne;
    MatchesSnoc(rs, Star(Any), p);
    forall k | 0 <= k <= |p| ensures MatchesOne(Star(Any), p[k..]) {
      StarIsAll(Any, p[k..]);
    }
  }

  lemma SnocUp(rs: seq<Re>, p: string)
    requires OneLine(p)
    ensures MatchesAll(rs + [UP_TO_SLASH], p) <==> MatchesAll(rs, p) || (EndsIn(p, '/') && HasPrefix(rs, p))
  {
    hide MatchesAll;
    MatchesSnoc(rs, UP_TO_SLASH, p);
    hide MatchesOne;
    forall k | 0 <= k <= |p| ensures MatchesOne(UP_TO_SLASH, p[k..]) <==> k == |p| || EndsIn(p, '/') {
      GroupOne(p[k..]);
    }
    assert p[..|p|] == p;
  }

  lemma GroupOne(q: string)
    requires OneLine(q)
    ensures MatchesOne(UP_TO_SLASH, q) <==> q == "" || EndsIn(q, '/')
  {
    GroupMatches(q);
    hide MatchesAll;
  }

  lemma SnocOne(rs: seq<Re>, r: Re, p: string)
    requires r.Char? || r.NotSlash?
    ensures MatchesAll(rs + [r], p) <==>
      p != "" && MatchesAll(rs, p[..|p| - 1]) && (if r.Char? then p[|p| - 1] == r.c else p[|p| - 1] != '/')
  {
    hide MatchesAll;
    MatchesSnoc(rs, r, p);
    if p != "" {
      assert p[|p| - 1..] == [p[|p| - 1]];
    }
  }

  lemma SnocSegment(rs: seq<Re>, p: string)
    ensures MatchesAll(rs + [Star(NotSlash)], p) <==>
      exists k :: 0 <= k <= |p| && MatchesAll(rs, p[..k]) && '/' !in p[k..]
  {
    hide MatchesAll, MatchesOne;
    MatchesSnoc(rs, Star(NotSlash), p);
    forall k | 0 <= k <= |p| ensures MatchesOne(Star(NotSlash), p[k..]) <==> '/' !in p[k..] {
      StarIsAll(NotSlash, p[k..]);
    }
  }

  // ----- closed under what lies beneath -----

  /** The items compiled from a glob; a single star is never followed by another. */
  ghost predicate Parsed(rs: seq<Re>) {
    && (forall i :: 0 <= i < |rs| ==> rs[i] == Star(Any) || rs[i] == UP_TO_SLASH || rs[i] == Star(NotSlash) || rs[i].NotSlash? || rs[i].Char?)
    && (forall i :: 0 <= i < |rs| - 1 && rs[i] == Star(NotSlash) ==> rs[i + 1].NotSlash? || rs[i + 1].Char?)
  }

  /** Whatever a match is followed by, if there is a slash in it and none at its end, is a match. */
  predicate InsideClosed(rs: seq<Re>)
    decreases |rs|, 0
  {
    rs != [] &&
    var last, front := rs[|rs| - 1], rs[..|rs| - 1];
    || last == Star(Any)
    || (last == UP_TO_SLASH && InsideClosed(front))
    || (last.NotSlash? && Closed(front))
  }

  /** The same with a slash at the end. */
  predicate SlashClosed(rs: seq<Re>)
    decreases |rs|, 0
  {
    rs != [] &&
    var last, front := rs[|rs| - 1], rs[..|rs| - 1];
    || last == Star(Any)
    || last == UP_TO_SLASH
    || (last == Char('/') && Closed(front))
    || (last == Star(NotSlash) && SlashClosed(front))
  }

  /** The same wherever the slash is. */
  predicate Closed(rs: seq<Re>)
    decreases |rs|, 1
  {
    rs != [] &&
    if rs[|rs| - 1] == Star(NotSlash) then SlashClosed(rs[..|rs| - 1]) else InsideClosed(rs) && SlashClosed(rs)
  }

  datatype Tail = Inside | Slash | Either

  /** w is such a tail. */
  predicate IsTail(t: Tail, w: string) {
    '/' in w && match t case Inside => !EndsIn(w, '/') case Slash => EndsIn(w, '/') case Either => true
  }

  predicate ClosedFor(t: Tail, rs: seq<Re>) {
    match t case Inside => InsideClosed(rs) case Slash => SlashClosed(rs) case Either => Closed(rs)
  }

  lemma FrontParsed(rs: seq<Re>)
    requires Parsed(rs) && rs != []
    ensures Parsed(rs[..|rs| - 1]) && rs == rs[..|rs| - 1] + [rs[|rs| - 1]]
    ensures var last := rs[|rs| - 1]; last == Star(Any) || last == UP_TO_SLASH || last == Star(NotSlash) || last.NotSlash? || last.Char?
  {}

  lemma TailGrows(t: Tail, v: string, w: string)
    requires IsTail(t, w)
    ensures IsTail(t, v + w)
  {
    assert EndsIn(v + w, '/') <==> EndsIn(w, '/');
  }

  lemma PrefixGrows(rs: seq<Re>, l: string, w: string)
    requires HasPrefix(rs, l)
    ensures HasPrefix(rs, l + w)
  {
    hide MatchesAll;
    var k :| 0 <= k <= |l| && MatchesAll(rs, l[..k]);
    assert (l + w)[..k] == l[..k];
  }

  lemma LastSlash(w: string) returns (j: nat)
    requires '/' in w
    ensures 0 < j <= |w| && EndsIn(w[..j], '/') && '/' !in w[j..]
  {
    j := |w|;
    while w[j - 1] != '/'
      invariant 0 <= j <= |w| && '/' !in w[j..] && '/' in w[..j]
      decreases j
    {
      assert w[j - 1..] == [w[j - 1]] + w[j..] && w[..j] == w[..j - 1] + [w[j - 1]];
      j := j - 1;
    }
  }

  lemma {:induction false} InsideGrows(front: seq<Re>, d: string, w: string)
    requires Parsed(front) && InsideClosed(front) && HasPrefix(front, d) && IsTail(Inside, w) && OneLine(d + w)
    ensures MatchesAll(front, d + w)
    decreases |front|, 1
  {
    hide MatchesAll, Parsed, InsideClosed;
    var k :| 0 <= k <= |d| && MatchesAll(front, d[..k]);
    TailGrows(Inside, d[k..], w);
    assert d + w == d[..k] + (d[k..] + w);
    ClosedHolds(Inside, front, d[..k], d[k..] + w);
  }

  /** What the three predicates say holds. */
  lemma {:induction false} ClosedHolds(t: Tail, rs: seq<Re>, l: string, w: string)
    requires Parsed(rs) && ClosedFor(t, rs) && MatchesAll(rs, l) && OneLine(l + w) && IsTail(t, w)
    ensures MatchesAll(rs, l + w)
    decreases |rs|, if t.Either? then 1 else 0
  {
    hide MatchesAll, Parsed;
    FrontParsed(rs);
    var last, front := rs[|rs| - 1], rs[..|rs| - 1];
    PartsOneLine(l, w);
    if last == Star(Any) {
      SnocAny(front, l);
      PrefixGrows(front, l, w);
      SnocAny(front, l + w);
    } else if last == Star(NotSlash) {
      SnocSegment(front, l);
      var k :| 0 <= k <= |l| && MatchesAll(front, l[..k]) && '/' !in l[k..];
      var j := LastSlash(w);
      TailGrows(Slash, l[k..], w[..j]);
      assert l + w[..j] == l[..k] + (l[k..] + w[..j]) && l + w[..j] == (l + w)[..|l| + j];
      ClosedHolds(Slash, front, l[..k], l[k..] + w[..j]);
      SnocSegment(front, l + w);
      assert (l + w)[|l| + j..] == w[j..];
    } else if t.Either? {
      ClosedHolds(if EndsIn(w, '/') then Slash else Inside, rs, l, w);
    } else if last == UP_TO_SLASH {
      GroupPrefix(front, l);
      SnocUp(front, l + w);
      if EndsIn(w, '/') {
        PrefixGrows(front, l, w);
        assert EndsIn(l + w, '/');
      } else {
        InsideGrows(front, l, w);
      }
    } else {
      SnocOne(front, last, l);
      var v := [l[|l| - 1]] + w[..|w| - 1];
      assert (l + w)[..|l + w| - 1] == l[..|l| - 1] + v && (l + w)[..|l + w| - 1] == l + w[..|w| - 1];
      AnotherSlash(t, last, l, w);
      ClosedHolds(Either, front, l[..|l| - 1], v);
      SnocOne(front, last, l + w);
    }
  }

  lemma PartsOneLine(l: string, w: string)
    requires OneLine(l + w)
    ensures OneLine(l) && OneLine(w)
  {
    assert l == (l + w)[..|l|] && w == (l + w)[|l|..];
  }

  /** Moving one character over leaves a slash in the tail. */
  lemma AnotherSlash(t: Tail, last: Re, l: string, w: string)
    requires !t.Either? && IsTail(t, w) && l != ""
    requires if t.Slash? then last == Char('/') && l[|l| - 1] == '/' else true
    ensures '/' in [l[|l| - 1]] + w[..|w| - 1]
  {
    assert w == w[..|w| - 1] + [w[|w| - 1]];
  }

  lemma GroupPrefix(rs: seq<Re>, l: string)
    requires MatchesAll(rs + [UP_TO_SLASH], l) && OneLine(l)
    ensures HasPrefix(rs, l)
  {
    hide MatchesAll;
    SnocUp(rs, l);
    assert l[..|l|] == l;
  }

  /** What does not hold fails beneath every path: some tail gets past the items. */
  lemma {:induction false} OpenFails(t: Tail, rs: seq<Re>, z: string) returns (x: string)
    requires Parsed(rs) && !ClosedFor(t, rs) && OneLine(z)
    requires t.Inside? ==> rs == [] || rs[|rs| - 1] != Star(NotSlash)
    ensures OneLine(x) && IsTail(t, "/" + x) && !MatchesAll(rs, z + "/" + x)
    decreases |rs|, if t.Either? then 1 else 0, 1
  {
    hide MatchesAll, Parsed;
    if rs == [] {
      x := if t.Inside? then "a" else "";
      NoneMatches(z + "/" + x);
      return;
    }
    FrontParsed(rs);
    var last, front := rs[|rs| - 1], rs[..|rs| - 1];
    if t.Either? && last != Star(NotSlash) {
      x := OpenFails(if !InsideClosed(rs) then Inside else Slash, rs, z);
    } else if last == UP_TO_SLASH {
      BeforeGroup(rs);
      x := OpenFails(Inside, front, z);
      SnocUp(front, z + "/" + x);
      assert EndsIn(z + "/" + x, '/') <==> EndsIn("/" + x, '/');
    } else if last == Star(NotSlash) {
      x := OpenFails(Slash, front, z);
      SlashStops(front, z + "/" + x);
    } else if last.Char? || last.NotSlash? {
      x := OneFails(t, front, last, z);
    }
  }

  lemma {:induction false} OneFails(t: Tail, front: seq<Re>, last: Re, z: string) returns (x: string)
    requires Parsed(front) && (last.Char? || last.NotSlash?) && !t.Either? && !ClosedFor(t, front + [last]) && OneLine(z)
    ensures OneLine(x) && IsTail(t, "/" + x) && !MatchesAll(front + [last], z + "/" + x)
    decreases |front| + 1, 0, 0
  {
    hide MatchesAll, Parsed;
    assert (front + [last])[..|front|] == front;
    if last.Char? && !(t.Slash? && last.c == '/') {
      x := if t.Slash? then "" else if last.c == 'a' then "b" else "a";
    } else if last.NotSlash? && t.Slash? {
      x := "";
    } else {
      var y := OpenFails(Either, front, z);
      x := y + if t.Slash? then "/" else "a";
      assert (z + "/" + x)[..|z + "/" + x| - 1] == z + "/" + y;
    }
    SnocOne(front, last, z + "/" + x);
  }

  lemma NoneMatches(p: string)
    requires p != ""
    ensures !MatchesAll([], p)
  {}

  lemma BeforeGroup(rs: seq<Re>)
    requires Parsed(rs) && rs != [] && rs[|rs| - 1] == UP_TO_SLASH
    ensures var front := rs[..|rs| - 1]; front == [] || front[|front| - 1] != Star(NotSlash)
  {}

  /** A single star takes nothing after a slash at the end. */
  lemma SlashStops(rs: seq<Re>, p: string)
    requires EndsIn(p, '/') && !MatchesAll(rs, p)
    ensures !MatchesAll(rs + [Star(NotSlash)], p)
  {
    hide MatchesAll;
    SnocSegment(rs, p);
    assert p[..|p|] == p;
    forall k | 0 <= k < |p| ensures '/' in p[k..] {
      assert p[k..][|p| - 1 - k] == '/';
    }
  }

  // ----- the items of a glob that ends in a slash -----

  lemma {:induction false} ItemsParsed(g: string)
    ensures Parsed(Items(g))
  {
    if g != "" {
      var k := if "**" <= g then (if |g| > 2 && g[2] == '/' then 3 else 2) else 1;
      ItemsParsed(g[k..]);
      assert Items(g)[1..] == Items(g[k..]);
    }
  }

  /** Without its slash the pattern loses its last item, or has two stars where it had the group. */
  lemma {:induction false} SlashItem(g: string)
    requires EndsIn(g, '/')
    ensures Items(g) != []
    ensures var last, front := Items(g)[|Items(g)| - 1], Items(g)[..|Items(g)| - 1];
      if last == UP_TO_SLASH then Items(TrimSlash(g)) == front + [Star(Any)]
      else last == Char('/') && Items(TrimSlash(g)) == front
  {
    hide Items;
    StarsThen(g);
    var k := FirstWidth(g);
    var t, rest := TrimSlash(g), g[k..];
    HeadItem(g);
    if rest == "" {
      assert k == 1 || g == "**/";
      LastItem(g);
    } else {
      SlashItem(rest);
      StarsThen(t);
      assert t[k..] == TrimSlash(rest);
      HeadItem(t);
      assert Items(g)[0] == Items(t)[0];
      ConsLast(Items(g)[0], Items(rest));
    }
  }

  /** How much of the glob its first item takes. */
  function FirstWidth(g: string): (k: nat)
    requires g != ""
    ensures 1 <= k <= |g|
  {
    if "**" <= g then (if |g| > 2 && g[2] == '/' then 3 else 2) else 1
  }

  lemma HeadItem(g: string)
    requires g != ""
    ensures Items(g) != [] && Items(g) == [Items(g)[0]] + Items(g[FirstWidth(g)..])
    ensures Items(g)[0] ==
      if FirstWidth(g) == 3 then UP_TO_SLASH else if FirstWidth(g) == 2 then Star(Any)
      else if g[0] == '*' then Star(NotSlash) else if g[0] == '?' then NotSlash else Char(g[0])
  {}

  lemma LastItem(g: string)
    requires EndsIn(g, '/') && (|g| == 1 || g == "**/")
    ensures Items(g) == [if |g| == 1 then Char('/') else UP_TO_SLASH]
    ensures Items(TrimSlash(g)) == if |g| == 1 then [] else [Star(Any)]
  {
    assert Items("") == [];
    assert |g| > 1 ==> TrimSlash(g) == "**" && "**"[2..] == "" && g[3..] == "";
  }

  lemma ConsLast(r: Re, rs: seq<Re>)
    requires rs != []
    ensures var all := [r] + rs; all[|all| - 1] == rs[|rs| - 1] && all[..|all| - 1] == [r] + rs[..|rs| - 1]
  {}

  /** The named directories' own match, cut down to a match of all but the group. */
  lemma NamedPrefix(g: string, d: string)
    requires EndsIn(g, '/') && InsideClosed(Items(g)) && MatchesAll(Items(TrimSlash(g)), d) && OneLine(d)
    ensures var front := Items(g)[..|Items(g)| - 1]; Items(g) == front + [UP_TO_SLASH] && InsideClosed(front) && HasPrefix(front, d)
  {
    hide MatchesAll;
    SlashItem(g);
    var front := Items(g)[..|Items(g)| - 1];
    SnocAny(front, d);
  }

  lemma ClosedMatchesBeneath(g: string, d: string, x: string)
    requires EndsIn(g, '/') && InsideClosed(Items(g)) && MatchesAll(Items(TrimSlash(g)), d)
    requires x != "" && OneLine(d + "/" + x)
    ensures MatchesAll(Items(g), d + "/" + x)
  {
    hide MatchesAll, Items;
    var w := "/" + x;
    assert d + "/" + x == d + w;
    assert OneLine(d) by { assert d == (d + w)[..|d|]; }
    NamedPrefix(g, d);
    ItemsParsed(g);
    var front := Items(g)[..|Items(g)| - 1];
    FrontParsed(Items(g));
    SnocUp(front, d + w);
    if EndsIn(w, '/') {
      PrefixGrows(front, d, w);
      assert EndsIn(d + w, '/');
    } else {
      InsideGrows(front, d, w);
    }
  }

  // ----- what normalizing a pattern cuts off -----

  ghost predicate NoWildcard(s: string) {
    '*' !in s && '?' !in s
  }

  lemma {:induction false} TrimSpaceParts(s: string) returns (a: string, b: string)
    ensures s == a + TrimSpace(s) + b && NoWildcard(a) && NoWildcard(b)
    decreases |s|
  {
    if s != "" && IsSpace(s[0]) {
      a, b := TrimSpaceParts(s[1..]);
      a := [s[0]] + a;
    } else if s != "" && IsSpace(s[|s| - 1]) {
      a, b := TrimSpaceParts(s[..|s| - 1]);
      b := b + [s[|s| - 1]];
    } else {
      a, b := "", "";
    }
  }

  lemma NormalizeParts(s: string) returns (a: string, b: string)
    ensures s == a + Normalize(s) + b && NoWildcard(a) && NoWildcard(b)
  {
    hide TrimSpace;
    a, b := TrimSpaceParts(s);
    var m := TrimSpace(s);
    var n := TrimPrefix(m, "./");
    var i := TrimPrefixPart(m, "./");
    var j := TrimPrefixPart(n, "/");
    hide TrimPrefix;
    assert a + (i + (j + Normalize(s))) + b == (a + i + j) + Normalize(s) + b;
    a := a + i + j;
  }

  lemma TrimPrefixPart(s: string, prefix: string) returns (a: string)
    ensures s == a + TrimPrefix(s, prefix)
    ensures NoWildcard(prefix) ==> NoWildcard(a)
  {
    a := if prefix <= s then prefix else "";
  }

  /** A pattern and its normal form have the same wildcards, and one is part of the other. */
  lemma NormalForm(s: string) returns (a: string, b: string)
    ensures s == a + Normalize(s) + b && NoWildcard(a) && NoWildcard(b)
    ensures HasWildcard(Normalize(s)) <==> HasWildcard(s)
    ensures IsAscii(s) ==> IsAscii(Normalize(s))
    ensures OneLine(s) ==> OneLine(Normalize(s))
  {
    hide Normalize;
    a, b := NormalizeParts(s);
    var h := Normalize(s);
    assert forall i :: 0 <= i < |h| ==> h[i] == s[|a| + i];
    if HasWildcard(s) {
      var i :| 0 <= i < |s| && (s[i] == '*' || s[i] == '?');
      OneOfThree(a, h, b, s[i]);
    }
  }

  lemma OneOfThree(a: string, h: string, b: string, c: char)
    requires c in a + h + b
    ensures c in a || c in b || exists i :: 0 <= i < |h| && h[i] == c
  {}

  lemma LastIn(s: string, b: string)
    ensures b != "" ==> (s + b)[|s + b| - 1] in b
  {
    assert b != "" ==> (s + b)[|s + b| - 1] == b[|b| - 1];
  }

  // ----- a pattern that lost more than its slash -----

  lemma {:induction false} LiteralKept(q: string, g: string, p: string)
    requires q <= g && NoWildcard(q) && Direct(g, p)
    ensures q <= p
  {
    if q != "" {
      assert q[0] in q && g[0] == q[0];
      assert q[1..] <= g[1..] && NoWildcard(q[1..]);
      LiteralKept(q[1..], g[1..], p[1..]);
      assert p == [p[0]] + p[1..] && q == [q[0]] + q[1..];
    }
  }

  /** How many characters stand in front of the first wildcard. */
  function Before(h: string): (n: nat)
    requires HasWildcard(h)
    ensures n < |h| && '*' !in h[..n] && '?' !in h[..n]
  {
    if h[0] == '*' || h[0] == '?' then 0
    else
      assert h == [h[0]] + h[1..];
      var n := 1 + Before(h[1..]);
      assert h[..n] == [h[0]] + h[1..][..n - 1];
      n
  }

  /** The first wildcard of a pattern can stand for any one character first. */
  lemma {:induction false} FreeChoice(h: string, e: char) returns (rest: string)
    requires HasWildcard(h) && e != '/' && OneLine(h)
    ensures Direct(h, h[..Before(h)] + [e] + rest) && OneLine(rest)
    decreases |h|
  {
    hide Direct;
    var n := Before(h);
    if h[0] != '*' && h[0] != '?' {
      var t := h[1..];
      assert h == [h[0]] + t;
      rest := FreeChoice(t, e);
      LetterFirst(h[0], t, t[..n - 1] + [e] + rest);
      assert [h[0]] + (t[..n - 1] + [e] + rest) == h[..n] + [e] + rest;
    } else {
      rest := WildcardTakes(h, e);
      assert h[..0] + [e] + rest == [e] + rest;
    }
  }

  lemma WildcardTakes(h: string, e: char) returns (rest: string)
    requires h != "" && (h[0] == '*' || h[0] == '?') && e != '/' && OneLine(h)
    ensures Direct(h, [e] + rest) && OneLine(rest)
  {
    StarsThen(h);
    var k := if "**/" <= h then 3 else if "**" <= h then 2 else 1;
    SampleMatches(h[k..]);
    var tail := Sample(h[k..]);
    rest := (if k == 3 then "/" else "") + tail;
    var p := [e] + rest;
    assert p[1..] == rest;
    if k == 3 {
      assert rest[0] == '/' && rest[1..] == tail;
      assert AfterSlash(h[3..], rest) && AfterSlash(h[3..], p);
    } else {
      assert rest == tail;
      assert h[0] == '*' ==> Direct(h, tail);
    }
  }

  /** What was cut off in front of the pattern is missing in front of the paths. */
  lemma CutOffInFront(g: string, a: string, h: string) returns (d: string)
    requires EndsIn(g, '/') && TrimSlash(g) == a + h && a != "" && NoWildcard(a) && HasWildcard(h) && OneLine(h)
    ensures Direct(h, d) && OneLine(d) && !Direct(g, d + "/" + "a")
  {
    hide Direct;
    var n := Before(h);
    var q := a + h[..n];
    var e := if q[n] == 'a' then 'b' else 'a';
    var rest := FreeChoice(h, e);
    d := h[..n] + [e] + rest;
    var p := d + "/" + "a";
    assert q <= a + h && q <= g && p[n] == e && NoWildcard(q);
    if Direct(g, p) {
      LiteralKept(q, g, p);
    }
  }

  // ----- the theorem -----

  /** What a caller can check on the normalized pattern: without its slash it is in normal form, and
      its items let everything beneath through; without a wildcard, it has one slash at its end. */
  predicate MatchesBeneath(g: string) {
    var t := TrimSlash(g);
    && Normalize(t) == t
    && if HasWildcard(g) then InsideClosed(Items(g)) else !EndsIn(t, '/')
  }

  ghost predicate CoversBeneath(glob: string, g: string) {
    forall d, x :: Accepts(Regexp(TrimSlash(g)), d) && x != "" && OneLine(d + "/" + x) ==> Accepts(Regexp(glob), d + "/" + x)
  }

  /** A pattern that ends in a slash matches everything beneath the directories it names exactly then.
      With a wildcard that takes a double star before the slash, and nothing before that which ties
      the last segment of a path: "x**" and a slash does not do, "x****" and a slash does. */
  lemma BeneathIff(glob: string)
    requires var g := Normalize(glob); EndsIn(g, '/') && (IsAscii(g) || !HasWildcard(g)) && OneLine(g)
    ensures (forall d, x :: Accepts(Regexp(TrimSlash(Normalize(glob))), d) && x != "" && OneLine(d + "/" + x) ==>
               Accepts(Regexp(glob), d + "/" + x))
            <==> MatchesBeneath(Normalize(glob))
  {
    hide Accepts, Regexp, Normalize, TrimSlash, MatchesBeneath;
    var g := Normalize(glob);
    assert CoversBeneath(glob, g) <==> MatchesBeneath(g) by {
      hide CoversBeneath;
      if MatchesBeneath(g) {
        CoversWhenClosed(glob);
      } else if HasWildcard(g) {
        WildcardMisses(glob);
      } else {
        LiteralMisses(glob);
      }
    }
  }

  lemma TrimmedSlash(g: string)
    requires EndsIn(g, '/')
    ensures g == TrimSlash(g) + "/" && (HasWildcard(g) <==> HasWildcard(TrimSlash(g)))
    ensures (IsAscii(g) ==> IsAscii(TrimSlash(g))) && (OneLine(g) ==> OneLine(TrimSlash(g)))
  {
    var t := TrimSlash(g);
    assert forall i :: 0 <= i < |t| ==> t[i] == g[i];
    if HasWildcard(g) {
      var i :| 0 <= i < |g| && (g[i] == '*' || g[i] == '?');
      assert i < |t|;
    }
  }

  lemma CoversWhenClosed(glob: string)
    requires var g := Normalize(glob); EndsIn(g, '/') && (IsAscii(g) || !HasWildcard(g)) && OneLine(g) && MatchesBeneath(g)
    ensures CoversBeneath(glob, Normalize(glob))
  {
    hide Accepts, Regexp, Normalize, Items, Direct, TrimSlash;
    var g := Normalize(glob);
    var t := TrimSlash(g);
    TrimmedSlash(g);
    forall d, x | Accepts(Regexp(t), d) && x != "" && OneLine(d + "/" + x) ensures Accepts(Regexp(glob), d + "/" + x) {
      assert d + "/" + x == d + ("/" + x);
      PartsOneLine(d, "/" + x);
      if HasWildcard(g) {
        RegexpMeans(t, d);
        ItemsMatchIff(t, d);
        ClosedMatchesBeneath(g, d, x);
        ItemsMatchIff(g, d + "/" + x);
        RegexpMeans(glob, d + "/" + x);
      } else {
        LiteralCovers(glob, d, x);
      }
    }
  }

  lemma LiteralCovers(glob: string, d: string, x: string)
    requires var g := Normalize(glob); EndsIn(g, '/') && !HasWildcard(g) && MatchesBeneath(g)
    requires OneLine(d + "/" + x) && OneLine(d) && Accepts(Regexp(TrimSlash(Normalize(glob))), d)
    ensures Accepts(Regexp(glob), d + "/" + x)
  {
    hide Accepts, Regexp, Normalize;
    var g := Normalize(glob);
    var t := TrimSlash(g);
    TrimmedSlash(g);
    RegexpMeans(t, d);
    RegexpMeans(glob, d + "/" + x);
    assert TrimSlash(t) == t && d + "/" + x == d + ("/" + x);
    assert t <= d && (d == t || d[|t|] == '/');
  }

  lemma WildcardMisses(glob: string)
    requires var g := Normalize(glob); EndsIn(g, '/') && IsAscii(g) && OneLine(g) && HasWildcard(g) && !MatchesBeneath(g)
    ensures !CoversBeneath(glob, Normalize(glob))
  {
    hide Accepts, Regexp, Normalize, Items, Direct, TrimSlash;
    var g := Normalize(glob);
    var t := TrimSlash(g);
    TrimmedSlash(g);
    var a, b := NormalForm(t);
    var h := Normalize(t);
    var d, x;
    if !InsideClosed(Items(g)) {
      d := Sample(h);
      SampleMatches(h);
      SlashItem(g);
      ItemsParsed(g);
      x := OpenFails(Inside, Items(g), d);
      ItemsMatchIff(g, d + "/" + x);
    } else {
      NothingBehind(g, t, a, h, b);
      d := CutOffInFront(g, a, h);
      x := "a";
    }
    RegexpMeans(t, d);
    RegexpMeans(glob, d + "/" + x);
    assert Accepts(Regexp(t), d) && x != "" && OneLine(d + "/" + x) && !Accepts(Regexp(glob), d + "/" + x);
  }

  /** A pattern with two stars at its end loses nothing there. */
  lemma NothingBehind(g: string, t: string, a: string, h: string, b: string)
    requires EndsIn(g, '/') && InsideClosed(Items(g)) && t == TrimSlash(g)
    requires t == a + h + b && NoWildcard(b) && h != t
    ensures b == "" && a != ""
  {
    hide Items;
    SlashItem(g);
    EndsInStar(t, Items(g)[..|Items(g)| - 1]);
    LastIn(a + h, b);
    assert a + h + "" == a + h && "" + h == h;
  }

  lemma {:induction false} EndsInStar(t: string, front: seq<Re>)
    requires Items(t) == front + [Star(Any)]
    ensures EndsIn(t, '*')
  {
    hide Items;
    StarsThen(t);
    NoItems();
    if t != "" {
      HeadItem(t);
      var k := FirstWidth(t);
      if t[k..] == "" {
        assert Items(t)[|Items(t)| - 1] == Items(t)[0];
      } else {
        HeadItem(t[k..]);
        ConsLast(Items(t)[0], Items(t[k..]));
        var rest := Items(t[k..]);
        assert rest == rest[..|rest| - 1] + [Star(Any)];
        EndsInStar(t[k..], rest[..|rest| - 1]);
      }
    }
  }

  lemma LiteralMisses(glob: string)
    requires var g := Normalize(glob); EndsIn(g, '/') && OneLine(g) && !HasWildcard(g) && !MatchesBeneath(g)
    ensures !CoversBeneath(glob, Normalize(glob))
  {
    hide Accepts, Regexp, Normalize;
    var g := Normalize(glob);
    var t := TrimSlash(g);
    TrimmedSlash(g);
    var a, b := NormalForm(t);
    var h := Normalize(t);
    var d := TrimSlash(h);
    assert |d| < |t| by {
      if h == t {
        assert EndsIn(t, '/');
      } else {
        assert a == "" && b == "" ==> a + h + b == h;
      }
    }
    assert OneLine(d) by { assert forall i :: 0 <= i < |d| ==> d[i] == h[i]; }
    var x := if t[|t| - 1] == 'a' then "b" else "a";
    var p := d + "/" + x;
    RegexpMeans(t, d);
    RegexpMeans(glob, p);
    assert p != t by { assert p[|p| - 1] == x[0]; }
    assert !(t + "/" <= p) by { TooShort(t, p); }
    assert Accepts(Regexp(t), d) && x != "" && OneLine(p) && !Accepts(Regexp(glob), p);
  }

  lemma TooShort(t: string, p: string)
    requires 0 < |p| <= |t| + 1 && p[|p| - 1] != '/'
    ensures !(t + "/" <= p)
  {
    assert (t + "/")[|t|] == '/';
  }

  // ----- two patterns -----

  /** Contrary to the comment on Match, `src` and one star as a directory do not match what lies
      beneath; with four stars they do. */
  lemma TrailingSlashWildcard()
    ensures !Accepts(Regexp("src/*/"), "src/a/x") && !MatchesBeneath("src/*/")
    ensures Accepts(Regexp("src/****/"), "src/a/x") && MatchesBeneath("src/****/")
  {
    hide Accepts, Regexp, Direct, Normalize, Items, InsideClosed;
    KeptByNormalize();
    assert "src/****/"[..8] == "src/****";
    OneStar();
    FourStars();
    RegexpMeans("src/*/", "src/a/x");
    RegexpMeans("src/****/", "src/a/x");
    assert HasWildcard("src/*/") by { assert "src/*/"[4] == '*'; }
    assert HasWildcard("src/****/") by { assert "src/****/"[4] == '*'; }
  }

  lemma KeptByNormalize()
    ensures Normalize("src/*/") == "src/*/" && Normalize("src/****/") == "src/****/" && Normalize("src/****") == "src/****"
  {}

  lemma OneStar()
    ensures !Direct("src/*/", "src/a/x") && !InsideClosed(Items("src/*/"))
  {
    hide Direct, Items, InsideClosed;
    OneStarStops();
    SrcFirst("/*/", "/a/x");
    assert "src" + "/*/" == "src/*/" && "src" + "/a/x" == "src/a/x";
    OneStarItems();
  }

  lemma OneStarStops()
    ensures !Direct("/*/", "/a/x")
  {
    assert "/x"[1..] == "x" && "/"[1..] == "" && !Direct("", "x");
    assert !Direct("/", "/x");
    assert "*/"[1..] == "/" && !Direct("*/", "/x");
    assert "a/x"[1..] == "/x" && !Direct("/", "a/x") && !Direct("*/", "a/x");
    assert "/a/x"[1..] == "a/x" && "/*/"[1..] == "*/";
  }

  lemma OneStarItems()
    ensures !InsideClosed(Items("src/*/"))
  {
    hide Items;
    HeadItem("*/");
    LetterItem('/', "");
    LetterItem('/', "*/");
    assert ['/'] + "*/" == "/*/" && ['/'] + "" == "/";
    assert "*/"[1..] == "/" && "/"[1..] == "" && "*/"[1] == '/';
    NoItems();
    assert Items("/") == [Char('/')];
    assert Items("*/") == [Star(NotSlash)] + Items("/");
    assert Items("/*/") == [Char('/')] + Items("*/");
    SrcItems("/*/");
    assert "src" + "/*/" == "src/*/";
    var rs := Items("src/*/");
    assert rs == [Char('s'), Char('r'), Char('c'), Char('/'), Star(NotSlash), Char('/')];
    assert rs[|rs| - 1] == Char('/');
  }

  lemma NoItems()
    ensures Items("") == []
  {}

  lemma FourStars()
    ensures Direct("src/****/", "src/a/x") && InsideClosed(Items("src/****/"))
  {
    hide Direct, Items, InsideClosed;
    FourStarsItems();
    FourStarsTakeAll("a/x");
    LetterFirst('/', "****/", "a/x");
    assert "/" + "a/x" == "/a/x" && "/" + "****/" == "/****/";
    assert "src" + "/****/" == "src/****/" && "src" + "/a/x" == "src/a/x";
    SrcFirst("/****/", "/a/x");
  }

  lemma {:induction false} FourStarsTakeAll(p: string)
    ensures Direct("****/", p)
  {
    var g := "****/";
    assert g[2] != "**/"[2];
    assert "**" <= g && g[2..] == "**/" && "**/"[3..] == "";
    if p == "" {
      assert Direct("", "") && Direct("**/", "");
    } else {
      FourStarsTakeAll(p[1..]);
    }
  }

  lemma FourStarsItems()
    ensures InsideClosed(Items("src/****/"))
  {
    hide InsideClosed;
    assert "****/"[2..] == "**/" && "**/"[3..] == "" && "/****/"[1..] == "****/";
    assert Items("") == [] && Items("**/") == [UP_TO_SLASH];
    assert Items("****/") == [Star(Any)] + Items("**/");
    assert Items("/****/") == [Char('/')] + Items("****/");
    assert "src" + "/****/" == "src/****/";
    SrcItems("/****/");
    StarsLast([Char('s'), Char('r'), Char('c'), Char('/')]);
    assert Items("src/****/") == [Char('s'), Char('r'), Char('c'), Char('/')] + [Star(Any)] + [UP_TO_SLASH];
  }

  lemma StarsLast(rs: seq<Re>)
    ensures InsideClosed(rs + [Star(Any)] + [UP_TO_SLASH])
  {
    var a := rs + [Star(Any)];
    assert (a + [UP_TO_SLASH])[..|a|] == a;
    assert InsideClosed(a);
  }

  lemma SrcFirst(g: string, p: string)
    ensures Direct("src" + g, "src" + p) <==> Direct(g, p)
  {
    hide Direct;
    var g1, p1 := ['c'] + g, ['c'] + p;
    var g2, p2 := ['r'] + g1, ['r'] + p1;
    LetterFirst('c', g, p);
    LetterFirst('r', g1, p1);
    LetterFirst('s', g2, p2);
    assert ['s'] + g2 == "src" + g && ['s'] + p2 == "src" + p;
  }

  lemma LetterFirst(c: char, g: string, p: string)
    requires c != '*' && c != '?'
    ensures Direct([c] + g, [c] + p) <==> Direct(g, p)
  {
    var h, q := [c] + g, [c] + p;
    assert h[1..] == g && q[1..] == p && h[0] == c && q[0] == c;
    assert !("**/" <= h) && !("**" <= h);
  }

  lemma SrcItems(g: string)
    ensures Items("src" + g) == [Char('s'), Char('r'), Char('c')] + Items(g)
  {
    hide Items;
    var g1 := ['c'] + g;
    var g2 := ['r'] + g1;
    LetterItem('c', g);
    LetterItem('r', g1);
    LetterItem('s', g2);
    assert ['s'] + g2 == "src" + g;
  }

  lemma LetterItem(c: char, g: string)
    requires c != '*' && c != '?'
    ensures Items([c] + g) == [Char(c)] + Items(g)
  {
    var h := [c] + g;
    assert h[1..] == g && h[0] == c;
    assert !("**/" <= h) && !("**" <= h);
  }
}
