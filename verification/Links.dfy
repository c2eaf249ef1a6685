/** internal/ingest/links.go: resolving links between documents.  The path package and case folding
    come in as functions. */
module Links {
  import opened Strings

  datatype Kind = Wikilink | Markdown

  datatype Link = Link(target: string, kind: Kind)

  /** join(from, t) is t read relative to from's directory and cleaned; base(p) is p's file name,
      without ".md", in lower case. */
  datatype PathLib = PathLib(join: (string, string) -> string, base: string -> string)

  /** Sort order of the documents that share a base name. */
  predicate Shorter(a: string, b: string) {
    |a| < |b| || (|a| == |b| && Less(a, b))
  }

  lemma ShorterTotal(a: string, b: string)
    ensures Shorter(a, b) || a == b || Shorter(b, a)
    ensures Shorter(a, b) ==> !Shorter(b, a) && a != b
  {
    hide Less;
    LessTotal(a, b);
    LessIrreflexive(a);
    if Less(a, b) {
      LessAsymmetric(a, b);
    }
  }

  lemma ShorterTransitive(a: string, b: string, c: string)
    requires Shorter(a, b) && Shorter(b, c)
    ensures Shorter(a, c)
  {
    hide Less;
    if |a| == |b| == |c| {
      LessTransitive(a, b, c);
    }
  }

  // ----- what a link resolves to -----

  /** p is the shortest, then least, of the documents with this base name. */
  ghost predicate IsBest(lib: PathLib, paths: set<string>, base: string, p: string) {
    p in paths && lib.base(p) == base && forall q :: q in paths && lib.base(q) == base && q != p ==> Shorter(p, q)
  }

  ghost predicate Candidate(lib: PathLib, paths: set<string>, from: string, t: string, i: nat, p: string) {
    && p == CandidateAt(lib, from, t, i)
    && p in paths
    && forall k: nat :: k < i ==> CandidateAt(lib, from, t, k) !in paths
  }

  function CandidateAt(lib: PathLib, from: string, t: string, i: nat): string {
    if i == 0 then t
    else if i == 1 then t + ".md"
    else if i == 2 then lib.join(from, t)
    else lib.join(from, t) + ".md"
  }

  /** r is what the link resolves to among paths; "" when it is broken. */
  ghost predicate ResolvesTo(lib: PathLib, paths: set<string>, from: string, l: Link, r: string) {
    var t := TrimSpace(l.target);
    var spelled := l.kind.Wikilink? && '/' in t && exists i: nat :: i < 4 && CandidateAt(lib, from, t, i) in paths;
    if l.kind.Markdown? then r == if lib.join(from, t) in paths then lib.join(from, t) else ""
    else if spelled then exists i: nat :: i < 4 && Candidate(lib, paths, from, t, i, r)
    else if exists p :: p in paths && lib.base(p) == lib.base(t) then IsBest(lib, paths, lib.base(t), r)
    else r == ""
  }

  /** A link resolves to one thing only: neither the order in which documents were read nor how the
      index came about plays a part. */
  lemma ResolvesToOne(lib: PathLib, paths: set<string>, from: string, l: Link, r: string, s: string)
    requires ResolvesTo(lib, paths, from, l, r) && ResolvesTo(lib, paths, from, l, s)
    ensures r == s
  {
    hide Shorter, TrimSpace;
    ShorterTotal(r, s);
    ShorterTotal(s, r);
    var t := TrimSpace(l.target);
    if i: nat, j: nat :| i < 4 && j < 4 && Candidate(lib, paths, from, t, i, r) && Candidate(lib, paths, from, t, j, s) {
      assert i == j;
    }
  }

  /** Of the documents with the base name a link asks for: none is shorter, and where one of the same
      length first differs it has the greater character. */
  lemma BestIsLeast(lib: PathLib, paths: set<string>, base: string, r: string)
    requires IsBest(lib, paths, base, r)
    ensures r in paths && lib.base(r) == base
    ensures forall q :: q in paths && lib.base(q) == base ==>
      |r| <= |q| && (|q| == |r| && q != r ==> exists k :: 0 <= k < |r| && r[..k] == q[..k] && r[k] < q[k])
  {
    forall q | q in paths && lib.base(q) == base && |q| == |r| && q != r
      ensures exists k :: 0 <= k < |r| && r[..k] == q[..k] && r[k] < q[k]
    {
      var k := LessAtFirstDifference(r, q);
    }
  }

  /** What a link resolves to: a path as spelled or relative to the linking file, each also with ".md";
      a name without a slash, or one that spells no document, to the first with that base name. */
  lemma ResolvesToIs(lib: PathLib, paths: set<string>, from: string, l: Link, r: string)
    requires ResolvesTo(lib, paths, from, l, r)
    ensures var t := TrimSpace(l.target); var p := lib.join(from, t);
      if l.kind.Markdown? then r == if p in paths then p else ""
      else if '/' in t && t in paths then r == t
      else if '/' in t && t + ".md" in paths then r == t + ".md"
      else if '/' in t && p in paths then r == p
      else if '/' in t && p + ".md" in paths then r == p + ".md"
      else if forall q :: q in paths ==> lib.base(q) != lib.base(t) then r == ""
      else
        && r in paths && lib.base(r) == lib.base(t)
        && forall q :: q in paths && lib.base(q) == lib.base(t) ==>
          |r| <= |q| && (|q| == |r| && q != r ==> exists k :: 0 <= k < |r| && r[..k] == q[..k] && r[k] < q[k])
  {
    hide TrimSpace, IsBest;
    var t := TrimSpace(l.target);
    Spellings(lib, from, t);
    if exists q :: q in paths && lib.base(q) == lib.base(t) {
      if IsBest(lib, paths, lib.base(t), r) {
        BestIsLeast(lib, paths, lib.base(t), r);
      }
    }
  }

  lemma Spellings(lib: PathLib, from: string, t: string)
    ensures CandidateAt(lib, from, t, 0) == t && CandidateAt(lib, from, t, 1) == t + ".md"
    ensures CandidateAt(lib, from, t, 2) == lib.join(from, t) && CandidateAt(lib, from, t, 3) == lib.join(from, t) + ".md"
  {}

  /** Some document is first among those with a base name. */
  lemma {:induction false} BestExists(lib: PathLib, paths: set<string>, base: string) returns (r: string)
    requires exists p :: p in paths && lib.base(p) == base
    ensures IsBest(lib, paths, base, r)
    decreases paths
  {
    hide Shorter;
    var p :| p in paths && lib.base(p) == base;
    var rest := paths - {p};
    if exists q :: q in rest && lib.base(q) == base {
      var b := BestExists(lib, rest, base);
      ShorterTotal(p, b);
      if Shorter(p, b) {
        r := p;
        forall q | q in rest && lib.base(q) == base && q != b ensures Shorter(p, q) {
          ShorterTransitive(p, b, q);
        }
      } else {
        r := b;
      }
    } else {
      r := p;
    }
  }

  /** Every link resolves to something, the empty path included. */
  lemma ResolvesToSomething(lib: PathLib, paths: set<string>, from: string, l: Link) returns (r: string)
    ensures ResolvesTo(lib, paths, from, l, r)
  {
    hide TrimSpace, IsBest;
    var t := TrimSpace(l.target);
    if l.kind.Markdown? {
      r := if lib.join(from, t) in paths then lib.join(from, t) else "";
    } else if '/' in t && exists i: nat :: i < 4 && CandidateAt(lib, from, t, i) in paths {
      var i: nat := 0;
      while CandidateAt(lib, from, t, i) !in paths
        invariant i < 4 && exists k: nat :: i <= k < 4 && CandidateAt(lib, from, t, k) in paths
        invariant forall k: nat :: k < i ==> CandidateAt(lib, from, t, k) !in paths
        decreases 4 - i
      {
        i := i + 1;
      }
      r := CandidateAt(lib, from, t, i);
      assert Candidate(lib, paths, from, t, i, r);
    } else if exists p :: p in paths && lib.base(p) == lib.base(t) {
      r := BestExists(lib, paths, lib.base(t));
    } else {
      r := "";
    }
  }

  // ----- the resolver -----

  ghost predicate Listed(lib: PathLib, paths: set<string>, base: string, list: seq<string>) {
    && list != []
    && forall p :: p in list <==> p in paths && lib.base(p) == base
  }

  class Resolver {
    const lib: PathLib
    var paths: set<string>
    var byBase: map<string, seq<string>>

    /** The index by base name is complete, and the best document leads each list. */
    ghost predicate Valid()
      reads this
    {
      && (forall p :: p in paths ==> lib.base(p) in byBase)
      && (forall b :: b in byBase ==> Listed(lib, paths, b, byBase[b]) && IsBest(lib, paths, b, byBase[b][0]))
    }

    constructor (lib: PathLib, docPaths: seq<string>)
      ensures Valid() && this.lib == lib && paths == set p | p in docPaths
      ensures forall b, q :: b in byBase && q in docPaths && lib.base(q) == b ==>
        var r := byBase[b][0];
        |r| <= |q| && (|q| == |r| && q != r ==> exists k :: 0 <= k < |r| && r[..k] == q[..k] && r[k] < q[k])
    {
      hide IsBest;
      this.lib := lib;
      var known, lists := IndexByBase(lib, docPaths);
      lists := SortLists(lib, known, lists);
      paths, byBase := known, lists;
      AllLed(lib, known, lists);
    }

    method Resolve(from: string, l: Link) returns (r: string)
      requires Valid()
      ensures ResolvesTo(lib, paths, from, l, r)
      ensures var t := TrimSpace(l.target); var p := lib.join(from, t);
        if l.kind.Markdown? then r == if p in paths then p else ""
        else if '/' in t && t in paths then r == t
        else if '/' in t && t + ".md" in paths then r == t + ".md"
        else if '/' in t && p in paths then r == p
        else if '/' in t && p + ".md" in paths then r == p + ".md"
        else if forall q :: q in paths ==> lib.base(q) != lib.base(t) then r == ""
        else
          && r in paths && lib.base(r) == lib.base(t)
          && forall q :: q in paths && lib.base(q) == lib.base(t) ==>
            |r| <= |q| && (|q| == |r| && q != r ==> exists k :: 0 <= k < |r| && r[..k] == q[..k] && r[k] < q[k])
    {
      hide TrimSpace, IsBest;
      var t := TrimSpace(l.target);
      if l.kind.Markdown? {
        var p := lib.join(from, t);
        if p in paths {
          ResolvesToIs(lib, paths, from, l, p);
          return p;
        }
        ResolvesToIs(lib, paths, from, l, "");
        return "";
      }
      if '/' in t {
        var i: nat := 0;
        while i < 4
          invariant i <= 4
          invariant forall k: nat :: k < i ==> CandidateAt(lib, from, t, k) !in paths
        {
          var cand := CandidateAt(lib, from, t, i);
          if cand in paths {
            assert Candidate(lib, paths, from, t, i, cand);
            ResolvesToIs(lib, paths, from, l, cand);
            return cand;
          }
          i := i + 1;
        }
      }
      var base := lib.base(t);
      if base in byBase && |byBase[base]| > 0 {
        assert byBase[base][0] in byBase[base];
        ResolvesToIs(lib, paths, from, l, byBase[base][0]);
        return byBase[base][0];
      }
      ResolvesToIs(lib, paths, from, l, "");
      return "";
    }
  }

  lemma AllLed(lib: PathLib, paths: set<string>, lists: map<string, seq<string>>)
    requires forall b :: b in lists ==> lists[b] != [] && IsBest(lib, paths, b, lists[b][0])
    ensures forall b, q :: b in lists && q in paths && lib.base(q) == b ==>
      var r := lists[b][0];
      |r| <= |q| && (|q| == |r| && q != r ==> exists k :: 0 <= k < |r| && r[..k] == q[..k] && r[k] < q[k])
  {
    hide IsBest;
    forall b | b in lists
      ensures forall q :: q in paths && lib.base(q) == b ==>
        var r := lists[b][0];
        |r| <= |q| && (|q| == |r| && q != r ==> exists k :: 0 <= k < |r| && r[..k] == q[..k] && r[k] < q[k])
    {
      BestIsLeast(lib, paths, b, lists[b][0]);
    }
  }

  /** The first loop of the constructor. */
  method IndexByBase(lib: PathLib, docPaths: seq<string>) returns (paths: set<string>, byBase: map<string, seq<string>>)
    ensures paths == set p | p in docPaths
    ensures forall p :: p in paths ==> lib.base(p) in byBase
    ensures forall b :: b in byBase ==> Listed(lib, paths, b, byBase[b])
  {
    paths, byBase := {}, map[];
    for i := 0 to |docPaths|
      invariant paths == set p | p in docPaths[..i]
      invariant forall p :: p in paths ==> lib.base(p) in byBase
      invariant forall b :: b in byBase ==> Listed(lib, paths, b, byBase[b])
    {
      assert docPaths[..i + 1] == docPaths[..i] + [docPaths[i]];
      var p := docPaths[i];
      paths := paths + {p};
      var base := lib.base(p);
      byBase := byBase[base := (if base in byBase then byBase[base] else []) + [p]];
    }
    assert docPaths[..|docPaths|] == docPaths;
  }

  /** The second loop of the constructor. */
  method SortLists(lib: PathLib, paths: set<string>, lists: map<string, seq<string>>) returns (byBase: map<string, seq<string>>)
    requires forall b :: b in lists ==> Listed(lib, paths, b, lists[b])
    ensures byBase.Keys == lists.Keys
    ensures forall b :: b in byBase ==> Listed(lib, paths, b, byBase[b]) && IsBest(lib, paths, b, byBase[b][0])
  {
    hide IsBest;
    byBase := lists;
    var left := byBase.Keys;
    while left != {}
      invariant left <= byBase.Keys == lists.Keys
      invariant forall b :: b in byBase ==> Listed(lib, paths, b, byBase[b])
      invariant forall b :: b in byBase && b !in left ==> IsBest(lib, paths, b, byBase[b][0])
      decreases left
    {
      var b :| b in left;
      left := left - {b};
      var sorted := SortPaths(byBase[b]);
      HeadIsBest(lib, paths, b, byBase[b], sorted);
      byBase := byBase[b := sorted];
    }
  }

  // ----- sorting a list of paths -----

  ghost predicate ShortestFirst(l: seq<string>) {
    forall i, j :: 0 <= i < j < |l| ==> !Shorter(l[j], l[i])
  }

  /** sort.Slice by length, then alphabetically. */
  method SortPaths(l: seq<string>) returns (r: seq<string>)
    ensures ShortestFirst(r) && multiset(r) == multiset(l)
  {
    hide Shorter;
    r := [];
    for i := 0 to |l|
      invariant ShortestFirst(r) && multiset(r) == multiset(l[..i])
    {
      var p := 0;
      while p < |r| && !Shorter(l[i], r[p])
        invariant 0 <= p <= |r|
        invariant forall k :: 0 <= k < p ==> !Shorter(l[i], r[k])
      {
        p := p + 1;
      }
      InsertShorter(r, l[i], p);
      assert l[..i + 1] == l[..i] + [l[i]];
      r := r[..p] + [l[i]] + r[p..];
    }
    assert l[..|l|] == l;
  }

  lemma InsertShorter(r: seq<string>, x: string, p: nat)
    requires ShortestFirst(r) && p <= |r|
    requires forall k :: 0 <= k < p ==> !Shorter(x, r[k])
    requires p < |r| ==> Shorter(x, r[p])
    ensures ShortestFirst(r[..p] + [x] + r[p..]) && multiset(r[..p] + [x] + r[p..]) == multiset(r) + multiset{x}
  {
    hide Shorter;
    assert r == r[..p] + r[p..];
    forall k | p <= k < |r| ensures !Shorter(r[k], x) {
      ShorterTotal(x, r[p]);
      ShorterTotal(r[p], r[k]);
      if Shorter(r[k], x) {
        ShorterTransitive(r[k], x, r[p]);
      }
    }
  }

  lemma HeadIsBest(lib: PathLib, paths: set<string>, b: string, l: seq<string>, sorted: seq<string>)
    requires Listed(lib, paths, b, l) && ShortestFirst(sorted) && multiset(sorted) == multiset(l)
    ensures Listed(lib, paths, b, sorted) && IsBest(lib, paths, b, sorted[0])
  {
    hide Shorter;
    assert |sorted| == |multiset(sorted)| == |multiset(l)| == |l|;
    forall p ensures p in sorted <==> p in l {
      assert p in multiset(sorted) <==> p in multiset(l);
    }
    assert sorted[0] in sorted;
    forall q | q in paths && lib.base(q) == b && q != sorted[0] ensures Shorter(sorted[0], q) {
      assert q in sorted;
      var i :| 0 <= i < |sorted| && sorted[i] == q;
      ShorterTotal(sorted[0], q);
    }
  }
}
