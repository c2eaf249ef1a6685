/** internal/staleness: path globs and the regular expressions they are compiled to. */
module Glob {
  import opened Strings

  // ----- the input as bytes -----

  /** UTF-8, as indexing a Go string sees it. */
  function Utf8(c: char): (b: seq<char>)
    ensures 1 <= |b| <= 4
    ensures c < 128 as char ==> b == [c]
    ensures c >= 128 as char ==> |b| >= 2 && forall i :: 0 <= i < |b| ==> b[i] >= 128 as char
  {
    var n := c as int;
    if n < 0x80 then [c]
    else if n < 0x800 then [(0xC0 + n / 0x40) as char, (0x80 + n % 0x40) as char]
    else if n < 0x1_0000 then
      [(0xE0 + n / 0x1000) as char, (0x80 + n / 0x40 % 0x40) as char, (0x80 + n % 0x40) as char]
    else
      [(0xF0 + n / 0x4_0000) as char, (0x80 + n / 0x1000 % 0x40) as char,
       (0x80 + n / 0x40 % 0x40) as char, (0x80 + n % 0x40) as char]
  }

  function Bytes(s: string): string {
    if s == "" then "" else Utf8(s[0]) + Bytes(s[1..])
  }

  predicate IsAscii(s: string) {
    forall i :: 0 <= i < |s| ==> s[i] < 128 as char
  }

  // ----- regular expressions -----

  /** The fragment of the regexp syntax that is emitted. */
  datatype Re =
    | Char(c: char)      // a literal
    | Any                // .
    | NotSlash           // [^/]
    | Star(r: Re)        // r*
    | Opt(rs: seq<Re>)   // (rs)?

  /** r matches exactly the string p. */
  predicate MatchesOne(r: Re, p: string)
    decreases r, |p|
  {
    match r
    case Char(c) => p == [c]
    case Any => |p| == 1 && p[0] != '\n'
    case NotSlash => |p| == 1 && p[0] != '/'
    case Star(q) => p == "" || exists k :: 0 < k <= |p| && MatchesOne(q, p[..k]) && MatchesOne(r, p[k..])
    case Opt(rs) => p == "" || MatchesAll(rs, p)
  }

  /** The concatenation of rs matches exactly the string p. */
  predicate MatchesAll(rs: seq<Re>, p: string)
    decreases rs, |p|
  {
    if rs == [] then p == ""
    else exists k :: 0 <= k <= |p| && MatchesOne(rs[0], p[..k]) && MatchesAll(rs[1..], p[k..])
  }

  // ----- their concrete syntax -----

  predicate IsMeta(c: char) {
    c in "\\.+*?()|[]{}^$"
  }

  /** regexp.QuoteMeta. */
  function QuoteMeta(s: string): string {
    if s == "" then "" else (if IsMeta(s[0]) then ['\\', s[0]] else [s[0]]) + QuoteMeta(s[1..])
  }

  function Print(r: Re): string {
    match r
    case Char(c) => QuoteMeta([c])
    case Any => "."
    case NotSlash => "[^/]"
    case Star(q) => Print(q) + "*"
    case Opt(rs) => "(" + PrintAll(rs) + ")?"
  }

  function PrintAll(rs: seq<Re>): string {
    if rs == [] then "" else Print(rs[0]) + PrintAll(rs[1..])
  }

  datatype Read<T> = Rejected | Parsed(value: T, rest: string)

  /** One item: an atom and its postfix operator. */
  function ReadItem(s: string): (r: Read<Re>)
    ensures r.Parsed? ==> |r.rest| < |s|
    decreases |s|, 0
  {
    if s == "" then Rejected
    else if s[0] == '(' then
      var inner := ReadItems(s[1..]);
      if inner.Parsed? && ")?" <= inner.rest then Parsed(Opt(inner.value), inner.rest[2..]) else Rejected
    else if s[0] == '\\' then
      if |s| > 1 then Postfix(Char(s[1]), s[2..]) else Rejected
    else if s[0] == '.' then Postfix(Any, s[1..])
    else if "[^/]" <= s then Postfix(NotSlash, s[4..])
    else if IsMeta(s[0]) then Rejected
    else Postfix(Char(s[0]), s[1..])
  }

  function Postfix(atom: Re, s: string): (r: Read<Re>)
    ensures r.Parsed? ==> |r.rest| <= |s|
  {
    if s != "" && s[0] == '*' then Parsed(Star(atom), s[1..])
    else if s != "" && s[0] == '?' then Rejected
    else Parsed(atom, s)
  }

  /** Items up to a closing parenthesis or the end. */
  function ReadItems(s: string): (r: Read<seq<Re>>)
    ensures r.Parsed? ==> |r.rest| <= |s|
    decreases |s|, 1
  {
    if s == "" || s[0] == ')' then Parsed([], s)
    else
      var first := ReadItem(s);
      if first.Rejected? then Rejected
      else
        var more := ReadItems(first.rest);
        if more.Rejected? then Rejected else Parsed([first.value] + more.value, more.rest)
  }

  /** What an anchored regexp means, read from its text; None when the text does not compile. */
  datatype Compiled = Invalid | Valid(rs: seq<Re>)

  function CompileRe(re: string): Compiled {
    if |re| < 2 || re[0] != '^' || re[|re| - 1] != '$' then Invalid
    else
      var body := ReadItems(re[1..|re| - 1]);
      if body.Parsed? && body.rest == "" then Valid(body.value) else Invalid
  }

  predicate Accepts(re: string, p: string) {
    var c := CompileRe(re);
    c.Valid? && MatchesAll(c.rs, p)
  }

  /** A postfix star is only put behind a single atom. */
  predicate Simple(r: Re) {
    match r
    case Char(_) => true
    case Any => true
    case NotSlash => true
    case Star(q) => q.Char? || q.Any? || q.NotSlash?
    case Opt(rs) => SimpleAll(rs)
  }

  predicate SimpleAll(rs: seq<Re>) {
    rs == [] || (Simple(rs[0]) && SimpleAll(rs[1..]))
  }

  predicate NoPostfix(u: string) {
    u == "" || (u[0] != '*' && u[0] != '?')
  }

  lemma AtomReads(a: Re, u: string)
    requires a.Char? || a.Any? || a.NotSlash?
    ensures ReadItem(Print(a) + u) == Postfix(a, u) && Print(a) != "" && NoPostfix(Print(a) + u)
    ensures Print(a)[0] != ')'
  {
    var s := Print(a) + u;
    match a
    case Char(c) =>
      assert QuoteMeta([c]) == if IsMeta(c) then ['\\', c] else [c] by { assert QuoteMeta([c][1..]) == ""; }
      if IsMeta(c) {
        assert s[2..] == u;
      } else {
        assert s[1..] == u;
        assert '(' in "\\.+*?()|[]{}^$" && '[' in "\\.+*?()|[]{}^$";
      }
    case Any => assert s[1..] == u;
    case NotSlash => assert s[4..] == u;
  }

  lemma {:induction false} ItemReads(r: Re, u: string)
    requires Simple(r) && NoPostfix(u)
    ensures ReadItem(Print(r) + u) == Parsed(r, u) && NoPostfix(Print(r) + u)
    ensures Print(r) != "" && Print(r)[0] != ')'
    decreases r, 0
  {
    hide IsMeta, QuoteMeta, ReadItem, ReadItems, PrintAll;
    match r
    case Star(q) =>
      AtomReads(q, "*" + u);
      assert Print(r) + u == Print(q) + ("*" + u);
      assert ("*" + u)[1..] == u;
    case Opt(rs) =>
      ItemsRead(rs, ")?" + u);
      GroupReads(rs, u);
    case _ => AtomReads(r, u);
  }

  lemma GroupReads(rs: seq<Re>, u: string)
    requires ReadItems(PrintAll(rs) + (")?" + u)) == Parsed(rs, ")?" + u)
    ensures ReadItem(Print(Opt(rs)) + u) == Parsed(Opt(rs), u)
  {
    hide IsMeta, QuoteMeta, ReadItems, PrintAll;
    var s := Print(Opt(rs)) + u;
    assert s[0] == '(' && s[1..] == PrintAll(rs) + (")?" + u);
    assert (")?" + u)[2..] == u;
  }

  /** Reading back what was printed gives the items printed. */
  lemma NothingToRead(u: string)
    requires u == "" || u[0] == ')'
    ensures ReadItems(PrintAll([]) + u) == Parsed([], u) && NoPostfix(PrintAll([]) + u)
  {
    assert PrintAll([]) + u == u;
  }

  lemma {:induction false} ItemsRead(rs: seq<Re>, u: string)
    requires SimpleAll(rs) && (u == "" || u[0] == ')')
    ensures ReadItems(PrintAll(rs) + u) == Parsed(rs, u) && NoPostfix(PrintAll(rs) + u)
    decreases rs, 1
  {
    hide Print, ReadItem, ReadItems, Simple;
    if rs == [] {
      NothingToRead(u);
    } else {
      ItemsRead(rs[1..], u);
      var rest := PrintAll(rs[1..]) + u;
      PrintFirst(rs, u);
      hide PrintAll, NoPostfix;
      ItemReads(rs[0], rest);
      MoreItems(Print(rs[0]), rest, rs[0], rs[1..], u);
      assert rs == [rs[0]] + rs[1..];
    }
  }

  lemma PrintFirst(rs: seq<Re>, u: string)
    requires rs != []
    ensures PrintAll(rs) + u == Print(rs[0]) + (PrintAll(rs[1..]) + u)
  {
    hide Print;
  }

  lemma MoreItems(s: string, rest: string, r: Re, more: seq<Re>, u: string)
    requires s != "" && s[0] != ')'
    requires ReadItem(s + rest) == Parsed(r, rest) && ReadItems(rest) == Parsed(more, u)
    ensures ReadItems(s + rest) == Parsed([r] + more, u)
  {
    hide ReadItem;
    assert (s + rest)[0] == s[0];
  }

  lemma CompiledBack(rs: seq<Re>)
    requires SimpleAll(rs)
    ensures CompileRe("^" + PrintAll(rs) + "$") == Valid(rs)
  {
    hide PrintAll, SimpleAll;
    var re := "^" + PrintAll(rs) + "$";
    assert re[1..|re| - 1] == PrintAll(rs) + "";
    ItemsRead(rs, "");
  }

  lemma {:induction false} PrintAllConcat(a: seq<Re>, b: seq<Re>)
    ensures PrintAll(a + b) == PrintAll(a) + PrintAll(b)
  {
    hide Print;
    if a == [] {
      assert a + b == b;
    } else {
      assert (a + b)[1..] == a[1..] + b;
      PrintAllConcat(a[1..], b);
    }
  }

  lemma {:induction false} SimpleConcat(a: seq<Re>, b: seq<Re>)
    requires SimpleAll(a) && SimpleAll(b)
    ensures SimpleAll(a + b)
  {
    if a == [] {
      assert a + b == b;
    } else {
      assert (a + b)[1..] == a[1..] + b;
      SimpleConcat(a[1..], b);
    }
  }

  // ----- globToRegexp -----

  function TrimSlash(s: string): string {
    if s != "" && s[|s| - 1] == '/' then s[..|s| - 1] else s
  }

  function Normalize(glob: string): string {
    TrimPrefix(TrimPrefix(TrimSpace(glob), "./"), "/")
  }

  /** White space around a glob goes, then "./" before it, then a slash. */
  lemma NormalizeIs(glob: string)
    ensures var t := TrimSpace(glob);
      var u := if "./" <= t then t[2..] else t;
      Normalize(glob) == if "/" <= u then u[1..] else u
  {
    hide TrimSpace;
  }

  predicate HasWildcard(g: string) {
    exists i :: 0 <= i < |g| && (g[i] == '*' || g[i] == '?')
  }

  const UP_TO_SLASH := Opt([Star(Any), Char('/')])
  const BENEATH := Opt([Char('/'), Star(Any)])

  /** The items of a glob's bytes. */
  function Items(b: string): seq<Re> {
    if b == "" then []
    else if "**" <= b then
      if |b| > 2 && b[2] == '/' then [UP_TO_SLASH] + Items(b[3..]) else [Star(Any)] + Items(b[2..])
    else if b[0] == '*' then [Star(NotSlash)] + Items(b[1..])
    else if b[0] == '?' then [NotSlash] + Items(b[1..])
    else [Char(b[0])] + Items(b[1..])
  }

  function Literal(s: string): seq<Re> {
    if s == "" then [] else [Char(s[0])] + Literal(s[1..])
  }

  /** The regexp a glob stands for. */
  function ItemsOf(glob: string): seq<Re> {
    var g := Normalize(glob);
    if g == "" then []
    else if !HasWildcard(g) then Literal(TrimSlash(g)) + [BENEATH]
    else Items(Bytes(g))
  }

  lemma {:induction false} LiteralPrints(s: string)
    ensures PrintAll(Literal(s)) == QuoteMeta(s) && SimpleAll(Literal(s))
  {
    if s != "" {
      LiteralPrints(s[1..]);
      assert Literal(s)[1..] == Literal(s[1..]);
      assert QuoteMeta([s[0]]) == if IsMeta(s[0]) then ['\\', s[0]] else [s[0]] by { assert QuoteMeta([s[0]][1..]) == ""; }
    }
  }

  lemma {:induction false} ItemsSimple(b: string)
    ensures SimpleAll(Items(b))
  {
    if b != "" {
      var k := if "**" <= b then (if |b| > 2 && b[2] == '/' then 3 else 2) else 1;
      ItemsSimple(b[k..]);
      assert Items(b)[1..] == Items(b[k..]);
      assert SimpleAll([Star(Any), Char('/')]) by {
        assert [Star(Any), Char('/')][1..] == [Char('/')] && [Char('/')][1..] == [];
      }
    }
  }

  lemma FixedPrints()
    ensures Print(UP_TO_SLASH) == "(.*/)?" && Print(BENEATH) == "(/.*)?" && Simple(BENEATH) && Simple(UP_TO_SLASH)
    ensures Print(Star(Any)) == ".*" && Print(Star(NotSlash)) == "[^/]*" && Print(NotSlash) == "[^/]"
  {
    var a, b := [Star(Any), Char('/')], [Char('/'), Star(Any)];
    assert a[1..] == [Char('/')] && [Char('/')][1..] == [] && b[1..] == [Star(Any)] && [Star(Any)][1..] == [];
    assert QuoteMeta("/") == "/" by { assert "/"[1..] == ""; }
    assert PrintAll([Char('/')]) == "/";
    assert PrintAll([Star(Any)]) == ".*";
    assert PrintAll(a) == ".*/" && PrintAll(b) == "/.*";
  }

  lemma PrintsNothing()
    ensures PrintAll([]) == "" && Items("") == []
  {}

  lemma PrintsOne(r: Re)
    ensures PrintAll([r]) == Print(r)
  {
    hide Print;
    assert PrintAll([r]) == Print(r) + PrintAll([]);
  }

  method GlobToRegexp(glob: string) returns (re: string)
    ensures re == "^" + PrintAll(ItemsOf(glob)) + "$"
  {
    hide Print, QuoteMeta, PrintAll, Items, Bytes, TrimSpace, Literal;
    FixedPrints();
    PrintsNothing();
    var g := TrimPrefix(TrimSpace(glob), "./");
    g := TrimPrefix(g, "/");
    if g == "" {
      return "^$";
    }
    if !HasWildcard(g) {
      LiteralPrints(TrimSlash(g));
      PrintAllConcat(Literal(TrimSlash(g)), [BENEATH]);
      PrintsOne(BENEATH);
      return "^" + QuoteMeta(TrimSlash(g)) + "(/.*)?$";
    }
    var b := Bytes(g);
    var sb := "^";
    var i := 0;
    while i < |b|
      invariant 0 <= i <= |b|
      invariant sb + PrintAll(Items(b[i..])) == "^" + PrintAll(Items(b))
      decreases |b| - i
    {
      PrintStep(b[i..]);
      var c := b[i];
      ghost var start := i;
      if c == '*' && i + 1 < |b| && b[i + 1] == '*' {
        i := i + 1;
        if i + 1 < |b| && b[i + 1] == '/' {
          i := i + 1;
          Printed(sb, b, start, 3, "(.*/)?");
          sb := sb + "(.*/)?";
        } else {
          Printed(sb, b, start, 2, ".*");
          sb := sb + ".*";
        }
      } else if c == '*' {
        Printed(sb, b, start, 1, "[^/]*");
        sb := sb + "[^/]*";
      } else if c == '?' {
        Printed(sb, b, start, 1, "[^/]");
        sb := sb + "[^/]";
      } else {
        Printed(sb, b, start, 1, QuoteMeta([c]));
        sb := sb + QuoteMeta([c]);
      }
      i := i + 1;
    }
    assert b[i..] == "";
    assert sb == "^" + PrintAll(Items(b));
    re := sb + "$";
  }

  /** The builder takes over what one item prints. */
  lemma Printed(sb: string, b: string, i: nat, n: nat, piece: string)
    requires i + n <= |b| && PrintAll(Items(b[i..])) == piece + PrintAll(Items(b[i..][n..]))
    ensures sb + PrintAll(Items(b[i..])) == sb + piece + PrintAll(Items(b[i + n..]))
  {
    assert b[i..][n..] == b[i + n..];
  }

  lemma PrintStep(b: string)
    requires b != ""
    ensures PrintAll(Items(b)) ==
            if "**" <= b then
              (if |b| > 2 && b[2] == '/' then "(.*/)?" + PrintAll(Items(b[3..])) else ".*" + PrintAll(Items(b[2..])))
            else if b[0] == '*' then "[^/]*" + PrintAll(Items(b[1..]))
            else if b[0] == '?' then "[^/]" + PrintAll(Items(b[1..]))
            else QuoteMeta([b[0]]) + PrintAll(Items(b[1..]))
  {
    hide QuoteMeta;
    FixedPrints();
    var rs := Items(b);
    var k := if "**" <= b then (if |b| > 2 && b[2] == '/' then 3 else 2) else 1;
    assert rs[1..] == Items(b[k..]);
  }

  // ----- what a glob means -----

  /** The path after some slash of p matches g. */
  predicate AfterSlash(g: string, p: string)
    decreases |g| + |p|
  {
    p != "" && ((p[0] == '/' && Direct(g, p[1..])) || AfterSlash(g, p[1..]))
  }

  /** A direct matcher, one character at a time: `*` and `?` stay within a segment, `**` does not,
      and `**` followed by a slash stands for any number of leading segments, none included. */
  predicate Direct(g: string, p: string)
    decreases |g| + |p|
  {
    if g == "" then p == ""
    else if "**/" <= g then Direct(g[3..], p) || AfterSlash(g[3..], p)
    else if "**" <= g then Direct(g[2..], p) || (p != "" && Direct(g, p[1..]))
    else if g[0] == '*' then Direct(g[1..], p) || (p != "" && p[0] != '/' && Direct(g, p[1..]))
    else if g[0] == '?' then p != "" && p[0] != '/' && Direct(g[1..], p[1..])
    else p != "" && p[0] == g[0] && Direct(g[1..], p[1..])
  }

  /** What a reader expects of a glob: wildcards as above; without one, the path itself or
      anything beneath it. */
  predicate Means(glob: string, p: string) {
    var g := Normalize(glob);
    if g == "" then p == ""
    else if !HasWildcard(g) then var t := TrimSlash(g); p == t || t + "/" <= p
    else Direct(g, p)
  }

  predicate OneLine(p: string) {
    forall i :: 0 <= i < |p| ==> p[i] != '\n'
  }

  predicate Fits(r: Re, c: char) {
    if r.Any? then c != '\n' else c != '/'
  }

  /** A star over a single-character class is the class throughout. */
  lemma {:induction false} StarIsAll(r: Re, q: string)
    requires r.Any? || r.NotSlash?
    ensures MatchesOne(Star(r), q) <==> forall i :: 0 <= i < |q| ==> Fits(r, q[i])
    decreases |q|
  {
    if q != "" {
      StarIsAll(r, q[1..]);
      if MatchesOne(Star(r), q) {
        var k :| 0 < k <= |q| && MatchesOne(r, q[..k]) && MatchesOne(Star(r), q[k..]);
        assert k == 1;
        forall i | 0 <= i < |q| ensures Fits(r, q[i]) {
          assert i > 0 ==> q[i] == q[1..][i - 1];
        }
      }
      if forall i :: 0 <= i < |q| ==> Fits(r, q[i]) {
        assert MatchesOne(r, q[..1]) && MatchesOne(Star(r), q[1..]);
      }
    }
  }

  lemma MatchesCons(r: Re, rest: seq<Re>, p: string)
    ensures MatchesAll([r] + rest, p) <==> exists k :: 0 <= k <= |p| && MatchesOne(r, p[..k]) && MatchesAll(rest, p[k..])
  {
    assert ([r] + rest)[1..] == rest;
  }

  /** One character of a starred class, or none. */
  lemma StarStep(r: Re, rest: seq<Re>, p: string)
    requires r.Any? || r.NotSlash?
    ensures MatchesAll([Star(r)] + rest, p) <==>
            MatchesAll(rest, p) || (p != "" && Fits(r, p[0]) && MatchesAll([Star(r)] + rest, p[1..]))
  {
    hide MatchesAll;
    MatchesCons(Star(r), rest, p);
    if MatchesAll(rest, p) {
      assert MatchesOne(Star(r), p[..0]) && p[0..] == p;
    }
    if p != "" {
      MatchesCons(Star(r), rest, p[1..]);
      if Fits(r, p[0]) && MatchesAll([Star(r)] + rest, p[1..]) {
        var k :| 0 <= k <= |p[1..]| && MatchesOne(Star(r), p[1..][..k]) && MatchesAll(rest, p[1..][k..]);
        StarIsAll(r, p[1..][..k]);
        StarIsAll(r, p[..k + 1]);
        var q := p[..k + 1];
        forall i | 0 <= i < |q| ensures Fits(r, q[i]) {
          assert i > 0 ==> q[i] == p[1..][..k][i - 1];
        }
        assert p[1..][k..] == p[k + 1..];
      }
    }
    if MatchesAll([Star(r)] + rest, p) && !MatchesAll(rest, p) {
      var k :| 0 <= k <= |p| && MatchesOne(Star(r), p[..k]) && MatchesAll(rest, p[k..]);
      assert k > 0 by { assert p[0..] == p; }
      StarIsAll(r, p[..k]);
      assert p[..k][0] == p[0];
      StarIsAll(r, p[1..][..k - 1]);
      var q := p[1..][..k - 1];
      forall i | 0 <= i < |q| ensures Fits(r, q[i]) {
        assert q[i] == p[..k][i + 1];
      }
      assert p[1..][k - 1..] == p[k..];
    }
  }

  /** A single-character item takes exactly the first character. */
  lemma SingleStep(r: Re, rest: seq<Re>, p: string)
    requires r.Char? || r.NotSlash?
    ensures MatchesAll([r] + rest, p) <==> p != "" && MatchesOne(r, [p[0]]) && MatchesAll(rest, p[1..])
  {
    MatchesCons(r, rest, p);
    if p != "" {
      assert p[..1] == [p[0]];
    }
  }

  /** Up to and including some slash. */
  predicate SlashAhead(rest: seq<Re>, p: string) {
    exists k :: 0 < k <= |p| && p[k - 1] == '/' && MatchesAll(rest, p[k..])
  }

  lemma SlashAlone(p: string)
    ensures MatchesAll([Char('/')], p) <==> p == "/"
  {
    assert [Char('/')] == [Char('/')] + [];
    SingleStep(Char('/'), [], p);
    assert p != "" ==> p == [p[0]] + p[1..];
  }

  lemma GroupMatches(q: string)
    requires OneLine(q)
    ensures MatchesAll([Star(Any), Char('/')], q) <==> q != "" && q[|q| - 1] == '/'
  {
    hide MatchesAll, MatchesOne;
    var rs := [Star(Any)] + [Char('/')];
    assert rs == [Star(Any), Char('/')];
    MatchesCons(Star(Any), [Char('/')], q);
    forall k | 0 <= k <= |q| ensures MatchesAll([Char('/')], q[k..]) <==> k == |q| - 1 && q[k] == '/' {
      SlashAlone(q[k..]);
    }
    if q != "" {
      StarIsAll(Any, q[..|q| - 1]);
    }
  }

  lemma UpToSlashStep(rest: seq<Re>, p: string)
    requires OneLine(p)
    ensures MatchesAll([UP_TO_SLASH] + rest, p) <==> MatchesAll(rest, p) || SlashAhead(rest, p)
  {
    hide MatchesAll;
    MatchesCons(UP_TO_SLASH, rest, p);
    forall k | 0 <= k <= |p| ensures MatchesOne(UP_TO_SLASH, p[..k]) <==> k == 0 || p[k - 1] == '/' {
      GroupMatches(p[..k]);
    }
    assert p[0..] == p;
  }

  lemma {:induction false} SlashAheadStep(rest: seq<Re>, p: string)
    ensures SlashAhead(rest, p) <==> p != "" && ((p[0] == '/' && MatchesAll(rest, p[1..])) || SlashAhead(rest, p[1..]))
  {
    hide MatchesAll;
    if p != "" && SlashAhead(rest, p[1..]) {
      var k :| 0 < k <= |p[1..]| && p[1..][k - 1] == '/' && MatchesAll(rest, p[1..][k..]);
      assert p[1..][k..] == p[k + 1..];
    }
    if SlashAhead(rest, p) {
      var k :| 0 < k <= |p| && p[k - 1] == '/' && MatchesAll(rest, p[k..]);
      assert k > 1 ==> p[1..][k - 1..] == p[k..] && p[1..][k - 2] == '/';
    }
  }

  lemma {:induction false} AfterSlashIff(g: string, p: string)
    requires OneLine(p)
    ensures AfterSlash(g, p) <==> SlashAhead(Items(g), p)
    decreases |g| + |p|, 0
  {
    hide MatchesAll, Items, Direct;
    SlashAheadStep(Items(g), p);
    if p != "" {
      ItemsMatchIff(g, p[1..]);
      AfterSlashIff(g, p[1..]);
    }
  }

  /** The items of a glob match what the direct matcher accepts. */
  lemma {:induction false} ItemsMatchIff(g: string, p: string)
    requires OneLine(p)
    ensures MatchesAll(Items(g), p) <==> Direct(g, p)
    decreases |g| + |p|, 1
  {
    hide MatchesAll, MatchesOne, AfterSlash, SlashAhead;
    if g == "" {
      NothingLeft(p);
    } else if "**/" <= g {
      assert g[2] == '/';
      ItemsMatchIff(g[3..], p);
      AfterSlashIff(g[3..], p);
      UpToSlashStep(Items(g[3..]), p);
    } else if "**" <= g {
      StarsThen(g);
      ItemsMatchIff(g[2..], p);
      StarStep(Any, Items(g[2..]), p);
      if p != "" {
        ItemsMatchIff(g, p[1..]);
      }
    } else if g[0] == '*' {
      ItemsMatchIff(g[1..], p);
      StarStep(NotSlash, Items(g[1..]), p);
      if p != "" {
        ItemsMatchIff(g, p[1..]);
      }
    } else {
      var r := if g[0] == '?' then NotSlash else Char(g[0]);
      SingleStep(r, Items(g[1..]), p);
      if p != "" {
        ItemsMatchIff(g[1..], p[1..]);
        OneCharacter(r, p[0]);
      }
    }
  }

  /** Two stars and a slash, spelled out. */
  lemma StarsThen(g: string)
    ensures "**/" <= g <==> |g| > 2 && g[0] == '*' && g[1] == '*' && g[2] == '/'
    ensures "**" <= g <==> |g| > 1 && g[0] == '*' && g[1] == '*'
  {}

  lemma NothingLeft(p: string)
    ensures MatchesAll(Items(""), p) <==> p == ""
  {}

  lemma OneCharacter(r: Re, c: char)
    ensures r.NotSlash? ==> (MatchesOne(r, [c]) <==> c != '/')
    ensures r.Char? ==> (MatchesOne(r, [c]) <==> c == r.c)
  {}

  lemma {:induction false} AsciiBytes(g: string)
    requires IsAscii(g)
    ensures Bytes(g) == g
  {
    if g != "" {
      AsciiBytes(g[1..]);
    }
  }

  lemma {:induction false} LiteralMatches(t: string, rest: seq<Re>, p: string)
    ensures MatchesAll(Literal(t) + rest, p) <==> t <= p && MatchesAll(rest, p[|t|..])
  {
    hide MatchesAll, MatchesOne;
    if t == "" {
      assert Literal(t) + rest == rest && p[0..] == p;
    } else {
      assert Literal(t) + rest == [Char(t[0])] + (Literal(t[1..]) + rest);
      SingleStep(Char(t[0]), Literal(t[1..]) + rest, p);
      if p != "" {
        OneCharacter(Char(t[0]), p[0]);
        LiteralMatches(t[1..], rest, p[1..]);
        assert t == [t[0]] + t[1..] && p == [p[0]] + p[1..];
        assert |t| <= |p| ==> p[1..][|t[1..]|..] == p[|t|..];
      }
    }
  }

  lemma OneMatches(r: Re, p: string)
    ensures MatchesAll([r], p) <==> MatchesOne(r, p)
  {
    hide MatchesOne;
    assert [r] == [r] + [];
    MatchesCons(r, [], p);
    assert p[..|p|] == p && p[|p|..] == "";
  }

  lemma BeneathMatches(q: string)
    requires OneLine(q)
    ensures MatchesAll([BENEATH], q) <==> q == "" || q[0] == '/'
  {
    hide MatchesAll;
    OneMatches(BENEATH, q);
    var rs := [Char('/')] + [Star(Any)];
    assert rs == [Char('/'), Star(Any)];
    hide MatchesOne;
    SingleStep(Char('/'), [Star(Any)], q);
    if q != "" {
      OneMatches(Star(Any), q[1..]);
      StarIsAll(Any, q[1..]);
      OneCharacter(Char('/'), q[0]);
    }
  }

  lemma {:induction false} ItemsOfSimple(glob: string)
    ensures SimpleAll(ItemsOf(glob))
  {
    var g := Normalize(glob);
    LiteralPrints(TrimSlash(g));
    FixedPrints();
    assert SimpleAll([BENEATH]);
    SimpleConcat(Literal(TrimSlash(g)), [BENEATH]);
    ItemsSimple(Bytes(g));
  }

  /** The regexp text of a glob always compiles, to the items of the glob. */
  lemma RegexpCompiles(glob: string)
    ensures CompileRe("^" + PrintAll(ItemsOf(glob)) + "$") == Valid(ItemsOf(glob))
  {
    hide PrintAll, ItemsOf;
    ItemsOfSimple(glob);
    CompiledBack(ItemsOf(glob));
  }

  /** The regexp of globToRegexp for a glob. */
  function Regexp(glob: string): string {
    "^" + PrintAll(ItemsOf(glob)) + "$"
  }

  lemma AcceptsIff(glob: string, p: string)
    ensures Accepts(Regexp(glob), p) <==> MatchesAll(ItemsOf(glob), p)
  {
    hide MatchesAll, PrintAll, ItemsOf;
    RegexpCompiles(glob);
  }

  /** The compiled glob means what the glob means, on one-line paths, when the glob is ASCII or has
      no wildcard. */
  lemma RegexpMeans(glob: string, p: string)
    requires OneLine(p)
    requires IsAscii(Normalize(glob)) || !HasWildcard(Normalize(glob))
    ensures Accepts(Regexp(glob), p) <==> Means(glob, p)
  {
    hide MatchesAll, PrintAll, Items, Direct, Normalize;
    RegexpCompiles(glob);
    var g := Normalize(glob);
    if g == "" {
      NothingLeft(p);
      ItemsOfNothing();
    } else if !HasWildcard(g) {
      LiteralMeans(TrimSlash(g), p);
    } else {
      AsciiBytes(g);
      ItemsMatchIff(g, p);
    }
  }

  /** A plain path means itself and what is beneath it. */
  lemma LiteralMeans(t: string, p: string)
    requires OneLine(p)
    ensures MatchesAll(Literal(t) + [BENEATH], p) <==> p == t || t + "/" <= p
  {
    hide MatchesAll, Literal;
    LiteralMatches(t, [BENEATH], p);
    if t <= p {
      BeneathMatches(p[|t|..]);
      assert p == t + p[|t|..];
      assert t + "/" <= p <==> p[|t|..] != "" && p[|t|] == '/';
    }
  }

  /** staleness.Match. */
  method Match(glob: string, path: string) returns (matches: bool)
    ensures matches == Accepts(Regexp(glob), path)
    ensures OneLine(path) && (IsAscii(Normalize(glob)) || !HasWildcard(Normalize(glob))) ==> matches == Means(glob, path)
  {
    hide Accepts, Means, Normalize, HasWildcard, IsAscii, OneLine;
    var re := GlobToRegexp(glob);
    matches := Accepts(re, path);
    if OneLine(path) && (IsAscii(Normalize(glob)) || !HasWildcard(Normalize(glob))) {
      RegexpMeans(glob, path);
    }
  }

  lemma ItemsOfNothing()
    ensures Items("") == []
  {}

  // ----- where it does not -----

  /** Fewest characters a match needs. */
  function MinLength(rs: seq<Re>): nat {
    if rs == [] then 0 else (if rs[0].Star? || rs[0].Opt? then 0 else 1) + MinLength(rs[1..])
  }

  lemma {:induction false} MatchIsLong(rs: seq<Re>, p: string)
    requires MatchesAll(rs, p)
    ensures |p| >= MinLength(rs)
  {
    if rs != [] {
      var k :| 0 <= k <= |p| && MatchesOne(rs[0], p[..k]) && MatchesAll(rs[1..], p[k..]);
      MatchIsLong(rs[1..], p[k..]);
    }
  }

  /** A shortest path the glob itself accepts: wildcards dropped, `?` filled in. */
  function Sample(g: string): string {
    if g == "" then ""
    else if "**/" <= g then Sample(g[3..])
    else if "**" <= g then Sample(g[2..])
    else if g[0] == '*' then Sample(g[1..])
    else if g[0] == '?' then "a" + Sample(g[1..])
    else [g[0]] + Sample(g[1..])
  }

  lemma {:induction false} SampleMatches(g: string)
    ensures Direct(g, Sample(g))
    ensures OneLine(g) ==> OneLine(Sample(g))
  {
    if g != "" {
      var k := if "**/" <= g then 3 else if "**" <= g then 2 else 1;
      SampleMatches(g[k..]);
      if k == 1 && g[0] != '*' {
        assert Sample(g)[1..] == Sample(g[1..]);
      }
    }
  }

  lemma {:induction false} BytesNeedLength(g: string)
    ensures MinLength(Items(Bytes(g))) >= |Sample(g)|
    ensures !IsAscii(g) ==> MinLength(Items(Bytes(g))) > |Sample(g)|
  {
    if g != "" {
      var k := if "**/" <= g then 3 else if "**" <= g then 2 else 1;
      BytesNeedLength(g[k..]);
      assert IsAscii(g) <==> IsAscii(g[..k]) && IsAscii(g[k..]) by {
        assert g == g[..k] + g[k..];
      }
      if g[0] >= 128 as char {
        LiteralBytesNeed(Utf8(g[0]), Bytes(g[1..]));
      } else {
        PrefixBytes(g, k);
      }
    }
  }

  /** Literal bytes in front each need a character. */
  lemma {:induction false} LiteralBytesNeed(b: string, rest: string)
    requires forall i :: 0 <= i < |b| ==> b[i] >= 128 as char
    ensures MinLength(Items(b + rest)) == |b| + MinLength(Items(rest))
  {
    if b == "" {
      assert b + rest == rest;
    } else {
      var all := b + rest;
      assert all[0] == b[0] && all[1..] == b[1..] + rest;
      assert Items(all) == [Char(b[0])] + Items(all[1..]);
      LiteralBytesNeed(b[1..], rest);
    }
  }

  lemma PrefixBytes(g: string, k: nat)
    requires g != "" && g[0] < 128 as char
    requires k == if "**/" <= g then 3 else if "**" <= g then 2 else 1
    ensures MinLength(Items(Bytes(g))) == (if g[0] == '*' then 0 else 1) + MinLength(Items(Bytes(g[k..])))
    ensures IsAscii(g[..k])
  {
    SameStars(g, k);
    hide Bytes, Items, MinLength;
    FirstItem(Bytes(g), k, Bytes(g[k..]));
  }

  /** The bytes of a glob start with the stars the glob starts with. */
  lemma SameStars(g: string, k: nat)
    requires g != "" && g[0] < 128 as char
    requires k == if "**/" <= g then 3 else if "**" <= g then 2 else 1
    ensures IsAscii(g[..k]) && k <= |Bytes(g)| && Bytes(g)[0] == g[0] && Bytes(g)[k..] == Bytes(g[k..])
    ensures k == if "**/" <= Bytes(g) then 3 else if "**" <= Bytes(g) then 2 else 1
  {
    hide Bytes, Utf8;
    StarsThen(g);
    AsciiFirst(g);
    FirstByte(g[1..]);
    StarsThen(Bytes(g));
    if k > 1 {
      AsciiFirst(g[1..]);
      assert g[1..][1..] == g[2..];
      FirstByte(g[2..]);
    }
    if k > 2 {
      AsciiFirst(g[2..]);
      assert g[2..][1..] == g[3..];
    }
  }

  lemma AsciiFirst(g: string)
    requires g != "" && g[0] < 128 as char
    ensures Bytes(g) == [g[0]] + Bytes(g[1..])
  {}

  lemma FirstItem(b: string, k: nat, rest: string)
    requires b != "" && k <= |b| && b[k..] == rest
    requires k == if "**/" <= b then 3 else if "**" <= b then 2 else 1
    ensures MinLength(Items(b)) == (if b[0] == '*' then 0 else 1) + MinLength(Items(rest))
  {
    StarsThen(b);
    assert Items(b)[1..] == Items(rest);
  }

  /** An ASCII character shows up as itself, any other as bytes above ASCII. */
  lemma FirstByte(g: string)
    ensures g == "" ==> Bytes(g) == ""
    ensures g != "" ==> Bytes(g) != "" && (Bytes(g)[0] == g[0] || (Bytes(g)[0] >= 128 as char && g[0] >= 128 as char))
  {}

  /** A wildcard glob is quoted byte by byte, so it means what it says exactly when it is ASCII. */
  lemma WildcardMeansIff(glob: string)
    requires HasWildcard(Normalize(glob)) && OneLine(Normalize(glob))
    ensures (forall p :: OneLine(p) ==> (Accepts(Regexp(glob), p) <==> Means(glob, p))) <==> IsAscii(Normalize(glob))
  {
    hide MatchesAll, PrintAll, Items, Direct, Normalize, ItemsOf, MinLength;
    var g := Normalize(glob);
    if IsAscii(g) {
      forall p | OneLine(p) ensures Accepts(Regexp(glob), p) <==> Means(glob, p) {
        RegexpMeans(glob, p);
      }
    } else {
      var p := Sample(g);
      SampleMatches(g);
      assert Means(glob, p);
      BytesNeedLength(g);
      RegexpCompiles(glob);
      WildcardItems(glob);
      if MatchesAll(ItemsOf(glob), p) {
        MatchIsLong(ItemsOf(glob), p);
      }
      assert !Accepts(Regexp(glob), p);
    }
  }

  lemma WildcardItems(glob: string)
    requires HasWildcard(Normalize(glob))
    ensures ItemsOf(glob) == Items(Bytes(Normalize(glob)))
  {}

  lemma {:induction false} DoubleStarTakesAll(p: string)
    ensures Direct("**", p)
  {
    if p != "" {
      DoubleStarTakesAll(p[1..]);
    } else {
      assert "**"[2..] == "" && Direct("", p);
    }
  }

  /** A path is matched as ASCII globs mean exactly when it has no line break: `.` stops at one. */
  lemma PathMeansIff(p: string)
    ensures (forall glob :: IsAscii(Normalize(glob)) ==> (Accepts(Regexp(glob), p) <==> Means(glob, p))) <==> OneLine(p)
  {
    hide MatchesAll, PrintAll, Direct, ItemsOf;
    if OneLine(p) {
      forall glob | IsAscii(Normalize(glob)) ensures Accepts(Regexp(glob), p) <==> Means(glob, p) {
        RegexpMeans(glob, p);
      }
    } else {
      var glob := "**";
      assert Normalize(glob) == "**" && HasWildcard("**") by { assert "**"[0] == '*'; }
      DoubleStarTakesAll(p);
      RegexpCompiles(glob);
      WildcardItems(glob);
      AsciiBytes("**");
      assert Items("**") == [Star(Any)] by { assert "**"[2..] == ""; }
      DotStarMatches(p);
      assert Means(glob, p) && !Accepts(Regexp(glob), p);
    }
  }

  lemma DotStarMatches(p: string)
    ensures MatchesAll([Star(Any)], p) <==> OneLine(p)
  {
    assert [Star(Any)] == [Star(Any)] + [];
    MatchesCons(Star(Any), [], p);
    assert p[|p|..] == "" && p[..|p|] == p;
    StarIsAll(Any, p);
  }
}
