/** internal/bundle/bundle.go: what a request is reduced to before it is compiled, and the text whose
    hash is its cache key.  The hash itself is taken to be injective. */
module Keys {
  import opened Sequences
  import opened Strings

  const NUL: char := '\0'
  const COMMA: char := ','
  const SOH: char := '\U{0001}'

  datatype Request = Request(task: string, scopes: seq<string>, maxTokens: int, paths: seq<string>)

  datatype Defaults = Defaults(scopes: seq<string>, maxTokens: int)

  /** A request with its task trimmed, its lists cleaned, sorted and without duplicates, and defaults
      filled in. */
  datatype Normal = Normal(task: string, scopes: seq<string>, maxTokens: int, paths: seq<string>)

  // ----- normalization -----

  /** The cleaned entries, without empty ones and duplicates, in order. */
  function Canonical(list: seq<string>, clean: string -> string): seq<string> {
    if list == [] then []
    else
      var rest, x := Canonical(list[..|list| - 1], clean), clean(list[|list| - 1]);
      if x == "" then rest else Place(rest, x)
  }

  function CleanScope(s: string): string {
    TrimSpace(s)
  }

  function Slashes(p: string): string {
    if p == "" then "" else [if p[0] == '\\' then '/' else p[0]] + Slashes(p[1..])
  }

  function CleanPath(p: string): string {
    TrimPrefix(TrimSpace(Slashes(p)), "./")
  }

  function Normalize(r: Request, d: Defaults): Normal {
    Normal(
      TrimSpace(r.task),
      Canonical(if r.scopes == [] then d.scopes else r.scopes, CleanScope),
      if r.maxTokens <= 0 then d.maxTokens else r.maxTokens,
      Canonical(r.paths, CleanPath))
  }

  lemma {:induction false} SlashesAre(p: string)
    ensures |Slashes(p)| == |p| && forall k :: 0 <= k < |p| ==> Slashes(p)[k] == if p[k] == '\\' then '/' else p[k]
  {
    if p != "" {
      SlashesAre(p[1..]);
    }
  }

  /** A path with its backslashes turned, the white space around it gone, and then "./" before it. */
  lemma CleanPathIs(p: string, turned: string)
    requires |turned| == |p| && forall k :: 0 <= k < |p| ==> turned[k] == if p[k] == '\\' then '/' else p[k]
    ensures var t := TrimSpace(turned); CleanPath(p) == if "./" <= t then t[2..] else t
  {
    hide TrimSpace;
    SlashesAre(p);
    assert Slashes(p) == turned;
  }

  /** What a request comes to: its task without the white space around it; the trimmed scopes that
      are not empty, once each and in order, those of the program when none are asked for; the cleaned
      paths likewise; and the program's limit when none is given. */
  lemma NormalizedRequest(r: Request, d: Defaults)
    ensures var n := Normalize(r, d);
      var scopes := if r.scopes == [] then d.scopes else r.scopes;
      && n.task == TrimSpace(r.task)
      && n.maxTokens == (if r.maxTokens > 0 then r.maxTokens else d.maxTokens)
      && Ascending(n.scopes) && Ascending(n.paths)
      && (forall y :: y in n.scopes <==> y != "" && exists i :: 0 <= i < |scopes| && TrimSpace(scopes[i]) == y)
      && (forall y :: y in n.paths <==> y != "" && exists i :: 0 <= i < |r.paths| && CleanPath(r.paths[i]) == y)
  {
    hide TrimSpace, CleanPath, Canonical, Ascending;
    var scopes := if r.scopes == [] then d.scopes else r.scopes;
    CanonicalIs(scopes, CleanScope);
    CanonicalIs(r.paths, CleanPath);
  }

  lemma {:induction false} CanonicalIs(list: seq<string>, clean: string -> string)
    ensures Ascending(Canonical(list, clean))
    ensures forall y :: y in Canonical(list, clean) <==> y != "" && exists i :: 0 <= i < |list| && clean(list[i]) == y
  {
    hide Place, Less;
    if list != [] {
      var rest := list[..|list| - 1];
      CanonicalIs(rest, clean);
      var x := clean(list[|list| - 1]);
      PlaceKeeps(Canonical(rest, clean), x);
      forall y ensures y in Canonical(list, clean) <==> y != "" && exists i :: 0 <= i < |list| && clean(list[i]) == y {
        if y != "" && y == x {
          assert clean(list[|list| - 1]) == y;
        }
        assert forall i :: 0 <= i < |rest| ==> rest[i] == list[i];
      }
    }
  }

  /** The same entries in any order, repeated or padded, come to the same list. */
  lemma OrderDoesNotMatter(a: seq<string>, b: seq<string>, clean: string -> string)
    requires forall i :: 0 <= i < |a| ==> exists j :: 0 <= j < |b| && clean(b[j]) == clean(a[i])
    requires forall j :: 0 <= j < |b| ==> exists i :: 0 <= i < |a| && clean(a[i]) == clean(b[j])
    ensures Canonical(a, clean) == Canonical(b, clean)
  {
    hide Canonical;
    CanonicalIs(a, clean);
    CanonicalIs(b, clean);
    AscendingUnique(Canonical(a, clean), Canonical(b, clean));
  }

  /** Trims, drops what is empty or seen before, and sorts. */
  method NormalizeList(list: seq<string>, clean: string -> string) returns (out: seq<string>)
    ensures out == Canonical(list, clean)
  {
    hide Canonical, Place, Less;
    var kept: seq<string> := [];
    var seen: set<string> := {};
    for i := 0 to |list|
      invariant forall y :: y in kept <==> y in seen
      invariant forall y :: y in seen <==> y != "" && exists k :: 0 <= k < i && clean(list[k]) == y
    {
      var s := clean(list[i]);
      if s != "" && s !in seen {
        seen := seen + {s};
        kept := kept + [s];
      }
    }
    out := [];
    for i := 0 to |kept|
      invariant Ascending(out) && forall y :: y in out <==> y in kept[..i]
    {
      assert kept[..i + 1] == kept[..i] + [kept[i]];
      PlaceKeeps(out, kept[i]);
      out := Place(out, kept[i]);
    }
    assert kept[..|kept|] == kept;
    CanonicalIs(list, clean);
    AscendingUnique(out, Canonical(list, clean));
  }

  // ----- the text that is hashed -----

  const DIGITS := "0123456789"

  function Decimal(n: nat): string {
    Numeral(n, DIGITS)
  }

  /** %d */
  function Number(n: int): string {
    if n < 0 then "-" + Decimal(-n) else Decimal(n)
  }

  function KeyText(n: Normal, fingerprint: string, model: string): string {
    "v2" + [NUL] + n.task + [NUL] + Join(n.scopes, [COMMA]) + [NUL] + Number(n.maxTokens) + [NUL] + fingerprint + [NUL] + model
      + [NUL] + Join(n.paths, [SOH])
  }

  /** The last separator of a text tells its two sides. */
  lemma LastSeparator(x: string, t: string, y: string, u: string, c: char)
    requires x + [c] + t == y + [c] + u && c !in t && c !in u
    ensures x == y && t == u
  {
    var s := x + [c] + t;
    assert |s| == |x| + 1 + |t| == |y| + 1 + |u|;
    assert s[|x|] == c && s[|y|] == c;
    assert forall k :: |x| < k < |s| ==> s[k] == t[k - |x| - 1];
    assert forall k :: |y| < k < |s| ==> s[k] == u[k - |y| - 1];
    assert x == s[..|x|] && y == s[..|y|] && t == s[|x| + 1..] && u == s[|y| + 1..];
  }

  lemma FirstSeparator(x: string, r: string, y: string, s: string, c: char)
    requires c !in x && c !in y && (r == "" || r[0] == c) && (s == "" || s[0] == c) && x + r == y + s
    ensures x == y && r == s
  {
    var t := x + r;
    assert forall k :: 0 <= k < |x| ==> t[k] == x[k];
    assert forall k :: 0 <= k < |y| ==> t[k] == y[k];
    assert (|x| < |t| ==> t[|x|] == c) && (|y| < |t| ==> t[|y|] == c);
    assert x == t[..|x|] && y == t[..|y|] && r == t[|x|..] && s == t[|y|..];
  }

  ghost predicate Parts(parts: seq<string>, sep: char) {
    forall p :: p in parts ==> p != "" && sep !in p
  }

  /** Lists of non-empty parts without the separator are told by their join. */
  lemma {:induction false} JoinInjective(a: seq<string>, b: seq<string>, sep: char)
    requires Parts(a, sep) && Parts(b, sep) && Join(a, [sep]) == Join(b, [sep])
    ensures a == b
  {
    hide Join, Parts;
    if a == [] || b == [] {
      JoinEmptyIff(a, sep);
      JoinEmptyIff(b, sep);
    } else {
      JoinFirst(a, sep);
      JoinFirst(b, sep);
      FirstSeparator(a[0], AfterFirst(a, sep), b[0], AfterFirst(b, sep), sep);
      assert a == [a[0]] + a[1..] && b == [b[0]] + b[1..];
      if |a| > 1 && |b| > 1 {
        assert AfterFirst(a, sep)[1..] == Join(a[1..], [sep]) && AfterFirst(b, sep)[1..] == Join(b[1..], [sep]);
        JoinInjective(a[1..], b[1..], sep);
      }
    }
  }

  lemma JoinEmptyIff(a: seq<string>, sep: char)
    requires Parts(a, sep)
    ensures Join(a, [sep]) == "" <==> a == []
  {
    assert a != [] ==> a[0] in a;
  }

  lemma JoinFirst(a: seq<string>, sep: char)
    requires a != [] && Parts(a, sep)
    ensures Join(a, [sep]) == a[0] + AfterFirst(a, sep) && sep !in a[0] && Parts(a[1..], sep)
  {
    assert a[0] in a;
    assert |a| == 1 ==> a[0] + "" == a[0];
    PartsTail(a, sep);
    hide Parts;
  }

  lemma PartsTail(a: seq<string>, sep: char)
    requires a != [] && Parts(a, sep)
    ensures Parts(a[1..], sep)
  {
    var rest := a[1..];
    forall p | p in rest ensures p != "" && sep !in p {
      assert p in a;
    }
  }

  function AfterFirst(a: seq<string>, sep: char): string
    requires a != []
  {
    if |a| == 1 then "" else [sep] + Join(a[1..], [sep])
  }

  lemma DecimalPlain(n: nat)
    ensures Decimal(n) != "" && Decimal(n)[0] != '-' && NUL !in Decimal(n)
  {
    assert Decimal(n)[0] in Decimal(n);
  }

  lemma NumberPlain(n: int)
    ensures NUL !in Number(n)
  {
    if n < 0 {
      DecimalPlain(-n);
    } else {
      DecimalPlain(n);
    }
  }

  lemma NumberInjective(a: int, b: int)
    requires Number(a) == Number(b)
    ensures a == b
  {
    hide Numeral;
    if a < 0 && b < 0 {
      assert Number(a)[1..] == Decimal(-a) && Number(b)[1..] == Decimal(-b);
      NumeralInjective(-a, -b, DIGITS);
    } else if a >= 0 && b >= 0 {
      NumeralInjective(a, b, DIGITS);
    } else if a >= 0 {
      DecimalPlain(a);
    } else {
      DecimalPlain(b);
    }
  }

  /** No field but the first, the request text, holds a NUL. */
  ghost predicate NoNuls(n: Normal, fingerprint: string, model: string) {
    NUL !in Join(n.scopes, [COMMA]) && NUL !in fingerprint && NUL !in model && NUL !in Join(n.paths, [SOH])
  }

  /** Two requests share a key exactly when they differ at most in how their scopes and paths split
      into entries. */
  lemma KeysAgreeIff(n: Normal, f: string, model: string, m: Normal, g: string, model': string)
    requires NoNuls(n, f, model) && NoNuls(m, g, model')
    ensures KeyText(n, f, model) == KeyText(m, g, model') <==>
      && n.task == m.task && n.maxTokens == m.maxTokens && f == g && model == model'
      && Join(n.scopes, [COMMA]) == Join(m.scopes, [COMMA]) && Join(n.paths, [SOH]) == Join(m.paths, [SOH])
  {
    hide Join, Number;
    if KeyText(n, f, model) == KeyText(m, g, model') {
      var a1, b1 := "v2" + [NUL] + n.task, "v2" + [NUL] + m.task;
      var a2, b2 := a1 + [NUL] + Join(n.scopes, [COMMA]), b1 + [NUL] + Join(m.scopes, [COMMA]);
      var a3, b3 := a2 + [NUL] + Number(n.maxTokens), b2 + [NUL] + Number(m.maxTokens);
      var a4, b4 := a3 + [NUL] + f, b3 + [NUL] + g;
      var a5, b5 := a4 + [NUL] + model, b4 + [NUL] + model';
      NumberPlain(n.maxTokens);
      NumberPlain(m.maxTokens);
      LastSeparator(a5, Join(n.paths, [SOH]), b5, Join(m.paths, [SOH]), NUL);
      LastSeparator(a4, model, b4, model', NUL);
      LastSeparator(a3, f, b3, g, NUL);
      LastSeparator(a2, Number(n.maxTokens), b2, Number(m.maxTokens), NUL);
      LastSeparator(a1, Join(n.scopes, [COMMA]), b1, Join(m.scopes, [COMMA]), NUL);
      assert n.task == a1[3..] && m.task == b1[3..];
      NumberInjective(n.maxTokens, m.maxTokens);
    }
  }

  /** No control character where the key uses it to separate; file names and scope names have none. */
  ghost predicate Tame(n: Normal) {
    && (forall s :: s in n.scopes ==> NUL !in s)
    && Parts(n.paths, SOH) && (forall p :: p in n.paths ==> NUL !in p)
  }

  /** Two requests that differ only in scopes, and there only in what commas join. */
  predicate Clash(m: Normal, n: Normal) {
    && m.task == n.task && m.maxTokens == n.maxTokens && m.paths == n.paths
    && Join(m.scopes, [COMMA]) == Join(n.scopes, [COMMA]) && m.scopes != n.scopes
  }

  /** A join holds no character that neither the parts nor the separator hold. */
  lemma {:induction false} JoinHolds(parts: seq<string>, sep: char, c: char)
    requires sep != c && forall p :: p in parts ==> c !in p
    ensures c !in Join(parts, [sep])
  {
    if |parts| > 1 {
      JoinHolds(parts[1..], sep, c);
    }
  }

  /** Requests share a key exactly when they are the same request, or clash, against the same index. */
  lemma TameKeysAgreeIff(n: Normal, f: string, m: Normal, g: string, model: string)
    requires Tame(n) && Tame(m) && NUL !in f && NUL !in g && NUL !in model
    ensures KeyText(n, f, model) == KeyText(m, g, model) <==> f == g && (n == m || Clash(n, m))
  {
    hide Join, KeyText;
    JoinHolds(n.scopes, COMMA, NUL);
    JoinHolds(m.scopes, COMMA, NUL);
    JoinHolds(n.paths, SOH, NUL);
    JoinHolds(m.paths, SOH, NUL);
    KeysAgreeIff(n, f, model, m, g, model);
    if Join(n.paths, [SOH]) == Join(m.paths, [SOH]) {
      JoinInjective(n.paths, m.paths, SOH);
    }
  }

  /** Where no scope has a comma, no two requests clash. */
  lemma NoCommasNoClash(m: Normal, n: Normal)
    requires Parts(m.scopes, COMMA) && Parts(n.scopes, COMMA)
    ensures !Clash(m, n)
  {
    hide Join, Parts;
    if Join(m.scopes, [COMMA]) == Join(n.scopes, [COMMA]) {
      JoinInjective(m.scopes, n.scopes, COMMA);
    }
  }

  /** A scope with a comma in it and the two scopes it reads as. */
  lemma CommaScopesClash(task: string, maxTokens: int, paths: seq<string>)
    ensures Clash(Normal(task, ["a,b"], maxTokens, paths), Normal(task, ["a", "b"], maxTokens, paths))
  {
    assert ["a", "b"][1..] == ["b"];
    assert Join(["a", "b"], [COMMA]) == "a,b";
  }

  lemma ClashSharesAKey(m: Normal, n: Normal, f: string, model: string)
    requires Clash(m, n)
    ensures KeyText(m, f, model) == KeyText(n, f, model)
  {}
}
