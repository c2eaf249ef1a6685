/** internal/gitsync: rewriting one file of a commit's tree.  Objects are content-addressed, so an
    object stands for its own hash. */
module GitTree {
  import opened Sequences
  import opened Strings

  datatype Mode = Regular | Executable | Symlink | Dir | Submodule

  /** A commit is what the entry of a submodule names; it is stored elsewhere. */
  datatype Object = Blob(content: string) | Tree(entries: seq<Entry>) | Commit(hash: string)

  datatype Entry = Entry(name: string, mode: Mode, node: Object)

  datatype Outcome<T> = Failed | Done(value: T)

  // ----- entry order -----

  /** Directories sort as name plus "/". */
  function Key(e: Entry): string {
    if e.mode == Dir then e.name + "/" else e.name
  }

  predicate Before(a: Entry, b: Entry) {
    Less(Key(a), Key(b))
  }

  /** Insert x from the right: past every entry it sorts before. */
  function InsertEntry(l: seq<Entry>, x: Entry): seq<Entry> {
    if l == [] || !Before(x, l[|l| - 1]) then l + [x]
    else InsertEntry(l[..|l| - 1], x) + [l[|l| - 1]]
  }

  function SortedEntries(l: seq<Entry>): seq<Entry> {
    if l == [] then [] else InsertEntry(SortedEntries(l[..|l| - 1]), l[|l| - 1])
  }

  /** The insertion sort, in place. */
  method SortEntries(a: array<Entry>)
    modifies a
    ensures a[..] == SortedEntries(old(a[..]))
  {
    hide InsertEntry, SortedEntries;
    ghost var was := a[..];
    SortedLength(was[..0]);
    for i := 0 to a.Length
      invariant |SortedEntries(was[..i])| == i
      invariant a[..] == SortedEntries(was[..i]) + was[i..]
    {
      SortStep(was, i);
      assert a[..i] == a[..][..i] == SortedEntries(was[..i]);
      assert a[i] == a[..][i] == was[i] && a[i + 1..] == a[..][i + 1..] == was[i + 1..];
      SiftLeft(a, i);
    }
    assert was[..a.Length] == was;
  }

  lemma SortStep(l: seq<Entry>, i: nat)
    requires i < |l|
    ensures SortedEntries(l[..i + 1]) == InsertEntry(SortedEntries(l[..i]), l[i])
    ensures |SortedEntries(l[..i + 1])| == i + 1
  {
    hide InsertEntry;
    assert l[..i + 1][..i] == l[..i];
    SortedLength(l[..i + 1]);
  }

  lemma {:induction false} SortedLength(l: seq<Entry>)
    ensures |SortedEntries(l)| == |l|
  {
    if l != [] {
      SortedLength(l[..|l| - 1]);
      InsertLength(SortedEntries(l[..|l| - 1]), l[|l| - 1]);
    }
  }

  lemma {:induction false} InsertLength(l: seq<Entry>, x: Entry)
    ensures |InsertEntry(l, x)| == |l| + 1
  {
    if l != [] {
      InsertLength(l[..|l| - 1], x);
    }
  }

  /** The inner loop: entry i moves left past every entry it sorts before. */
  method SiftLeft(a: array<Entry>, i: nat)
    requires i < a.Length
    modifies a
    ensures a[..] == InsertEntry(old(a[..i]), old(a[i])) + old(a[i + 1..])
  {
    hide Before, InsertEntry, Moved;
    ghost var l, x, rest := a[..i], a[i], a[i + 1..];
    NotMoved(l, x);
    NothingPassed(l, x);
    assert a[..] == l + [x] + rest;
    var j := i;
    while j > 0 && Before(a[j], a[j - 1])
      invariant 0 <= j <= i
      invariant a[..] == Moved(l, x, j) + rest
      invariant InsertEntry(l, x) == InsertEntry(l[..j], x) + l[j..]
    {
      ghost var before := a[..];
      MovedAt(l, x, j, rest);
      assert before[j] == a[j] && before[j - 1] == a[j - 1];
      InsertStep(l, x, j);
      SwapDown(a, j);
      j := j - 1;
    }
    MovedAt(l, x, j, rest);
    assert a[..][j] == a[j] && (j > 0 ==> a[..][j - 1] == a[j - 1]);
    InsertStops(l, x, j);
  }

  method SwapDown(a: array<Entry>, j: nat)
    requires 0 < j < a.Length
    modifies a
    ensures a[..] == old(a[..][j := a[j - 1]][j - 1 := a[j]])
  {
    a[j], a[j - 1] := a[j - 1], a[j];
  }

  lemma NothingPassed(l: seq<Entry>, x: Entry)
    ensures InsertEntry(l, x) == InsertEntry(l[..|l|], x) + l[|l|..]
  {
    assert l[..|l|] == l;
  }

  lemma NotMoved(l: seq<Entry>, x: Entry)
    ensures Moved(l, x, |l|) == l + [x]
  {}

  /** One swap moves x one place further. */
  lemma MovedAt(l: seq<Entry>, x: Entry, j: nat, rest: seq<Entry>)
    requires j <= |l|
    ensures var s := Moved(l, x, j) + rest;
      && s[j] == x && Moved(l, x, j) == l[..j] + [x] + l[j..]
      && (j > 0 ==> s[j - 1] == l[j - 1] && s[j := l[j - 1]][j - 1 := x] == Moved(l, x, j - 1) + rest)
  {}

  /** The entries up to i with x moved to place j. */
  function Moved(l: seq<Entry>, x: Entry, j: nat): (r: seq<Entry>)
    requires j <= |l|
    ensures |r| == |l| + 1
  {
    l[..j] + [x] + l[j..]
  }

  lemma InsertStep(l: seq<Entry>, x: Entry, j: nat)
    requires 0 < j <= |l| && Before(x, l[j - 1]) && InsertEntry(l, x) == InsertEntry(l[..j], x) + l[j..]
    ensures InsertEntry(l, x) == InsertEntry(l[..j - 1], x) + l[j - 1..]
  {
    hide Before;
    assert l[..j][..j - 1] == l[..j - 1];
    assert l[j - 1..] == [l[j - 1]] + l[j..];
  }

  lemma InsertStops(l: seq<Entry>, x: Entry, j: nat)
    requires j <= |l| && (j > 0 ==> !Before(x, l[j - 1])) && InsertEntry(l, x) == InsertEntry(l[..j], x) + l[j..]
    ensures InsertEntry(l, x) == l[..j] + [x] + l[j..]
  {
    hide Before;
  }

  ghost predicate InTreeOrder(l: seq<Entry>) {
    forall i, j :: 0 <= i < j < |l| ==> !Before(l[j], l[i])
  }

  lemma NotBeforeTransitive(a: Entry, b: Entry, c: Entry)
    requires !Before(b, a) && !Before(c, b)
    ensures !Before(c, a)
  {
    hide Less;
    LessTotal(Key(a), Key(b));
    LessTotal(Key(b), Key(c));
    if Less(Key(c), Key(a)) {
      if Less(Key(a), Key(b)) {
        LessTransitive(Key(c), Key(a), Key(b));
      }
    }
  }

  lemma OneMore(r: seq<Entry>, l: seq<Entry>, x: Entry)
    requires multiset(r) == multiset(l) + multiset{x}
    ensures forall i :: 0 <= i < |r| ==> r[i] == x || exists j :: 0 <= j < |l| && l[j] == r[i]
  {
    forall i | 0 <= i < |r| ensures r[i] == x || exists j :: 0 <= j < |l| && l[j] == r[i] {
      assert r[i] in multiset(r);
      assert r[i] == x || r[i] in l;
    }
  }

  lemma {:induction false} InsertKeeps(l: seq<Entry>, x: Entry)
    ensures multiset(InsertEntry(l, x)) == multiset(l) + multiset{x}
  {
    hide Before;
    if l != [] {
      InsertKeeps(l[..|l| - 1], x);
      assert l == l[..|l| - 1] + [l[|l| - 1]];
    }
  }

  lemma InTreeOrderSnoc(l: seq<Entry>, x: Entry)
    requires InTreeOrder(l) && forall i :: 0 <= i < |l| ==> !Before(x, l[i])
    ensures InTreeOrder(l + [x])
  {
    hide Before;
  }

  lemma {:induction false} InsertInTreeOrder(l: seq<Entry>, x: Entry)
    requires InTreeOrder(l)
    ensures InTreeOrder(InsertEntry(l, x)) && multiset(InsertEntry(l, x)) == multiset(l) + multiset{x}
  {
    hide Before;
    InsertKeeps(l, x);
    if l != [] {
      var front, last := l[..|l| - 1], l[|l| - 1];
      if Before(x, last) {
        InsertInTreeOrder(front, x);
        var r := InsertEntry(front, x);
        OneMore(r, front, x);
        BeforeAsymmetric(x, last);
        InTreeOrderSnoc(r, last);
      } else {
        forall i | 0 <= i < |l| ensures !Before(x, l[i]) {
          if i < |l| - 1 {
            NotBeforeTransitive(l[i], last, x);
          }
        }
        InTreeOrderSnoc(l, x);
      }
    }
  }

  lemma BeforeAsymmetric(a: Entry, b: Entry)
    requires Before(a, b)
    ensures !Before(b, a)
  {
    LessAsymmetric(Key(a), Key(b));
  }

  /** Sorted entries follow one another by name, the name of a directory taken with a slash. */
  lemma SortedByName(l: seq<Entry>)
    ensures var s := SortedEntries(l);
      forall i, j :: 0 <= i < j < |s| ==>
        !Less(if s[j].mode.Dir? then s[j].name + "/" else s[j].name, if s[i].mode.Dir? then s[i].name + "/" else s[i].name)
  {
    hide Less, SortedEntries;
    SortOrders(l);
    var s := SortedEntries(l);
    forall i, j | 0 <= i < j < |s| ensures !Less(Key(s[j]), Key(s[i])) {
      assert !Before(s[j], s[i]);
    }
  }

  lemma {:induction false} SortOrders(l: seq<Entry>)
    ensures InTreeOrder(SortedEntries(l)) && multiset(SortedEntries(l)) == multiset(l)
  {
    hide InsertEntry;
    if l != [] {
      var n := |l| - 1;
      SortOrders(l[..n]);
      InsertInTreeOrder(SortedEntries(l[..n]), l[n]);
      assert l == l[..n] + [l[n]];
    }
  }

  // ----- putting a file -----

  function FindEntry(l: seq<Entry>, name: string): Outcome<Entry> {
    if l == [] then Failed else if l[0].name == name then Done(l[0]) else FindEntry(l[1..], name)
  }

  /** newPath: the object and mode to enter under parts[0]. */
  function NewPath(parts: seq<string>, blob: Object): (Object, Mode)
    requires parts != []
  {
    if |parts| == 1 then (blob, Regular)
    else
      var (h, mode) := NewPath(parts[1..], blob);
      (Tree(SortedEntries([Entry(parts[1], mode, h)])), Dir)
  }

  /** The entries with every one named parts[0] rewritten. */
  function Replaced(l: seq<Entry>, parts: seq<string>, blob: Object): Outcome<seq<Entry>>
    requires parts != []
    decreases |parts|, |l|, 0
  {
    if l == [] then Done([])
    else
      var front, e := Replaced(l[..|l| - 1], parts, blob), l[|l| - 1];
      if front.Failed? then Failed
      else if e.name != parts[0] then Done(front.value + [e])
      else if |parts| == 1 then Done(front.value + [Entry(e.name, e.mode, blob)])
      else if !e.node.Tree? then Failed
      else
        var sub := Put(e.node.entries, parts[1..], blob);
        if sub.Failed? then Failed else Done(front.value + [Entry(e.name, e.mode, sub.value)])
  }

  /** The tree with the file at parts replaced or added. */
  function Put(l: seq<Entry>, parts: seq<string>, blob: Object): Outcome<Object>
    requires parts != []
    decreases |parts|, |l|, 1
  {
    var r := Replaced(l, parts, blob);
    if r.Failed? then Failed
    else if FindEntry(l, parts[0]).Done? then Done(Tree(SortedEntries(r.value)))
    else
      var (h, mode) := NewPath(parts, blob);
      Done(Tree(SortedEntries(r.value + [Entry(parts[0], mode, h)])))
  }

  /** The object store the rewritten trees go to. */
  class Repo {
    var objects: set<Object>

    constructor ()
      ensures objects == {}
    {
      objects := {};
    }

    method StoreTree(entries: seq<Entry>) returns (h: Object)
      modifies this
      ensures h == Tree(SortedEntries(entries))
      ensures objects == old(objects) + {h}
    {
      var a := new Entry[|entries|](i requires 0 <= i < |entries| => entries[i]);
      assert a[..] == entries;
      SortEntries(a);
      h := Tree(a[..]);
      objects := objects + {h};
    }

    method NewPathTrees(parts: seq<string>, blob: Object) returns (h: Object, mode: Mode)
      requires parts != []
      modifies this
      ensures (h, mode) == NewPath(parts, blob)
      ensures objects >= old(objects) && AllInTreeOrder(objects - old(objects))
      decreases |parts|
    {
      hide SortedEntries;
      if |parts| == 1 {
        return blob, Regular;
      }
      h, mode := NewPathTrees(parts[1..], blob);
      SortOrders([Entry(parts[1], mode, h)]);
      h := StoreTree([Entry(parts[1], mode, h)]);
      mode := Dir;
    }

    /** rebuildTree; r is Failed when a file is in the way. */
    method RebuildTree(l: seq<Entry>, parts: seq<string>, blob: Object) returns (r: Outcome<Object>)
      requires parts != []
      modifies this
      ensures r == Put(l, parts, blob)
      ensures objects >= old(objects) && AllInTreeOrder(objects - old(objects))
      ensures r.Done? ==> r.value in objects
      decreases |parts|
    {
      hide SortedEntries, InTreeOrder;
      var entries: seq<Entry> := [];
      var replaced := false;
      assert l[..|l|] == l;
      for k := 0 to |l|
        invariant objects >= old(objects) && AllInTreeOrder(objects - old(objects))
        invariant Replaced(l[..k], parts, blob) == Done(entries)
        invariant replaced <==> exists i :: 0 <= i < k && l[i].name == parts[0]
      {
        var e := l[k];
        assert l[..k + 1][..k] == l[..k];
        if e.name != parts[0] {
          entries := entries + [e];
          continue;
        }
        replaced := true;
        if |parts| == 1 {
          entries := entries + [Entry(e.name, e.mode, blob)];
          continue;
        }
        if !e.node.Tree? {
          FailureSpreads(l, parts, blob, k + 1);
          return Failed;
        }
        var sub := RebuildTree(e.node.entries, parts[1..], blob);
        if sub.Failed? {
          FailureSpreads(l, parts, blob, k + 1);
          return Failed;
        }
        entries := entries + [Entry(e.name, e.mode, sub.value)];
      }
      FoundIff(l, parts[0]);
      if !replaced {
        var h, mode := NewPathTrees(parts, blob);
        entries := entries + [Entry(parts[0], mode, h)];
      }
      SortOrders(entries);
      var t := StoreTree(entries);
      r := Done(t);
    }
  }

  ghost predicate AllInTreeOrder(objects: set<Object>) {
    forall o :: o in objects && o.Tree? ==> InTreeOrder(o.entries)
  }

  lemma {:induction false} FailureSpreads(l: seq<Entry>, parts: seq<string>, blob: Object, k: nat)
    requires parts != [] && k <= |l| && Replaced(l[..k], parts, blob).Failed?
    ensures Put(l, parts, blob).Failed? && Replaced(l, parts, blob).Failed?
    decreases |l| - k
  {
    hide SortedEntries;
    if k < |l| {
      assert l[..k + 1][..k] == l[..k];
      FailureSpreads(l, parts, blob, k + 1);
    } else {
      assert l[..k] == l;
    }
  }

  lemma {:induction false} FoundIff(l: seq<Entry>, name: string)
    ensures FindEntry(l, name).Done? <==> exists i :: 0 <= i < |l| && l[i].name == name
    ensures FindEntry(l, name).Done? ==> FindEntry(l, name).value in l && FindEntry(l, name).value.name == name
  {
    if l != [] {
      FoundIff(l[1..], name);
      if l[0].name != name {
        if i :| 0 <= i < |l| && l[i].name == name {
          assert l[1..][i - 1].name == name;
        }
      }
    }
  }

  // ----- looking up a file -----

  /** Names are unique, and exactly the entries in directory mode hold trees, in submodule mode commits. */
  ghost predicate WellFormed(o: Object)
    decreases o
  {
    o.Tree? ==>
      && UniqueNames(o.entries)
      && forall e :: e in o.entries ==> (e.mode == Dir <==> e.node.Tree?) && (e.mode == Submodule <==> e.node.Commit?) && WellFormed(e.node)
  }

  ghost predicate UniqueNames(l: seq<Entry>) {
    forall i, j :: 0 <= i < j < |l| ==> l[i].name != l[j].name
  }

  datatype File = File(mode: Mode, node: Object)

  /** The file a path names. */
  function Lookup(o: Object, parts: seq<string>): Outcome<File>
    requires parts != []
    decreases |parts|
  {
    if !o.Tree? then Failed
    else
      var e := FindEntry(o.entries, parts[0]);
      if e.Failed? then Failed
      else if |parts| == 1 then (if e.value.mode.Dir? || e.value.mode.Submodule? then Failed else Done(File(e.value.mode, e.value.node)))
      else if e.value.mode == Dir then Lookup(e.value.node, parts[1..])
      else Failed
  }

  /** The path names a directory or a submodule. */
  predicate NamesNoFile(o: Object, parts: seq<string>)
    requires parts != []
    decreases |parts|
  {
    o.Tree? &&
    var e := FindEntry(o.entries, parts[0]);
    e.Done? &&
    if |parts| == 1 then e.value.mode.Dir? || e.value.mode.Submodule? else e.value.mode == Dir && NamesNoFile(e.value.node, parts[1..])
  }

  /** A proper prefix of the path names a file or a submodule. */
  predicate InTheWay(o: Object, parts: seq<string>)
    requires parts != []
    decreases |parts|
  {
    o.Tree? && |parts| > 1 &&
    var e := FindEntry(o.entries, parts[0]);
    e.Done? && (e.value.mode != Dir || InTheWay(e.value.node, parts[1..]))
  }

  lemma {:induction false} UniqueFind(l: seq<Entry>, e: Entry)
    requires UniqueNames(l) && e in l
    ensures FindEntry(l, e.name) == Done(e)
  {
    if l[0] != e {
      var i :| 0 <= i < |l| && l[i] == e;
      assert l[0].name != e.name;
      assert e in l[1..] by { assert l[1..][i - 1] == e; }
      UniqueFind(l[1..], e);
    }
  }

  /** Sorting moves entries, and neither names nor what is found change. */
  lemma SortKeepsEntries(l: seq<Entry>, name: string)
    requires UniqueNames(l)
    ensures UniqueNames(SortedEntries(l)) && FindEntry(SortedEntries(l), name) == FindEntry(l, name)
    ensures forall e :: e in SortedEntries(l) <==> e in l
  {
    hide SortedEntries, FindEntry;
    var s := SortedEntries(l);
    SortOrders(l);
    forall e ensures e in s <==> e in l {
      assert e in multiset(s) <==> e in multiset(l);
    }
    NamesByCount(l, s);
    FoundIff(l, name);
    FoundIff(s, name);
    if FindEntry(l, name).Done? {
      UniqueFind(s, FindEntry(l, name).value);
      var i :| 0 <= i < |s| && s[i] == FindEntry(l, name).value;
    }
  }

  /** Unique names survive any reordering. */
  lemma NamesByCount(l: seq<Entry>, s: seq<Entry>)
    requires UniqueNames(l) && multiset(s) == multiset(l)
    ensures UniqueNames(s)
  {
    DistinctByCount(l, s);
    forall i, j | 0 <= i < j < |s| ensures s[i].name != s[j].name {
      assert s[i] in multiset(l) && s[j] in multiset(l);
    }
  }

  // ----- the laws -----

  /** Rewriting keeps names and finds, under every other name, the old entry. */
  lemma {:induction false} ReplacedFinds(l: seq<Entry>, parts: seq<string>, blob: Object, name: string)
    requires parts != [] && UniqueNames(l) && Replaced(l, parts, blob).Done?
    ensures var r := Replaced(l, parts, blob).value;
            && |r| == |l| && (forall i :: 0 <= i < |l| ==> r[i].name == l[i].name)
            && (forall i :: 0 <= i < |l| && l[i].name != parts[0] ==> r[i] == l[i])
            && (forall i :: 0 <= i < |l| && l[i].name == parts[0] ==> Rewrites(l[i], parts, blob, r[i]))
    decreases |l|
  {
    hide Put;
    if l != [] {
      var n := |l| - 1;
      assert UniqueNames(l[..n]);
      ReplacedFinds(l[..n], parts, blob, name);
    }
  }

  /** e' is the entry e on the path, rewritten. */
  ghost predicate Rewrites(e: Entry, parts: seq<string>, blob: Object, e': Entry)
    requires parts != []
  {
    && e'.name == e.name && e'.mode == e.mode
    && if |parts| == 1 then e'.node == blob
       else e.node.Tree? && Put(e.node.entries, parts[1..], blob) == Done(e'.node)
  }

  /** The entry stored for parts[0]. */
  ghost predicate Entered(l: seq<Entry>, parts: seq<string>, blob: Object, e': Entry)
    requires parts != []
  {
    var e := FindEntry(l, parts[0]);
    if e.Done? then Rewrites(e.value, parts, blob, e')
    else e' == Entry(parts[0], NewPath(parts, blob).1, NewPath(parts, blob).0)
  }

  lemma FindAt(l: seq<Entry>, i: nat)
    requires i < |l| && UniqueNames(l)
    ensures FindEntry(l, l[i].name) == Done(l[i])
  {
    UniqueFind(l, l[i]);
  }

  /** One level of a put: the rewritten or new entry is found, and so is every other one. */
  lemma PutLevel(l: seq<Entry>, parts: seq<string>, blob: Object) returns (e': Entry)
    requires parts != [] && UniqueNames(l) && Put(l, parts, blob).Done?
    ensures Entered(l, parts, blob, e') && e'.name == parts[0]
    ensures var t := Put(l, parts, blob).value;
            && t.Tree? && UniqueNames(t.entries) && InTreeOrder(t.entries)
            && FindEntry(t.entries, parts[0]) == Done(e') && e' in t.entries
            && (forall name :: name != parts[0] ==> FindEntry(t.entries, name) == FindEntry(l, name))
            && (forall e :: e in t.entries ==> e == e' || e in l)
            && forall e :: e in l && e.name != parts[0] ==> e in t.entries
  {
    hide SortedEntries, Replaced, FindEntry, NewPath, InTreeOrder;
    var r := Replaced(l, parts, blob).value;
    ReplacedFinds(l, parts, blob, parts[0]);
    FoundIff(l, parts[0]);
    var all := r;
    if FindEntry(l, parts[0]).Done? {
      var i :| 0 <= i < |l| && l[i] == FindEntry(l, parts[0]).value;
      e' := r[i];
      assert forall k :: 0 <= k < |l| && k != i ==> r[k] == l[k];
    } else {
      e' := Entry(parts[0], NewPath(parts, blob).1, NewPath(parts, blob).0);
      all := r + [e'];
      assert forall k :: 0 <= k < |l| ==> all[k] == l[k];
    }
    assert UniqueNames(all);
    SortOrders(all);
    SortKeepsEntries(all, parts[0]);
    UniqueFind(all, e');
    forall name | name != parts[0] ensures FindEntry(SortedEntries(all), name) == FindEntry(l, name) {
      SortKeepsEntries(all, name);
      OthersFound(l, all, e', name);
    }
    forall e | e in l && e.name != parts[0] ensures e in all {
      var k :| 0 <= k < |l| && l[k] == e;
      assert all[k] == e;
    }
  }

  lemma OthersFound(l: seq<Entry>, all: seq<Entry>, e': Entry, name: string)
    requires UniqueNames(l) && UniqueNames(all) && name != e'.name
    requires |l| <= |all| && forall k :: 0 <= k < |l| ==> all[k].name == l[k].name && (all[k] == l[k] || all[k] == e')
    requires forall k :: |l| <= k < |all| ==> all[k] == e'
    ensures FindEntry(all, name) == FindEntry(l, name)
  {
    hide FindEntry;
    FoundIff(l, name);
    FoundIff(all, name);
    if FindEntry(l, name).Done? {
      var k :| 0 <= k < |l| && l[k] == FindEntry(l, name).value;
      UniqueFind(all, all[k]);
    }
  }

  /** A put goes through exactly when no file is in the way. */
  lemma {:induction false} PutSucceedsIff(l: seq<Entry>, parts: seq<string>, blob: Object)
    requires parts != [] && WellFormed(Tree(l))
    ensures Put(l, parts, blob).Done? <==> !InTheWay(Tree(l), parts)
    decreases |parts|
  {
    hide SortedEntries, NewPath;
    var e := FindEntry(l, parts[0]);
    FoundIff(l, parts[0]);
    if e.Done? && |parts| > 1 && e.value.mode == Dir {
      PutSucceedsIff(e.value.node.entries, parts[1..], blob);
    }
    ReplacedIff(l, |l|, parts, blob);
    assert l[..|l|] == l;
  }

  lemma {:induction false} ReplacedIff(l: seq<Entry>, k: nat, parts: seq<string>, blob: Object)
    requires parts != [] && UniqueNames(l) && k <= |l|
    ensures Replaced(l[..k], parts, blob).Failed? <==>
            exists i :: 0 <= i < k && l[i].name == parts[0] && |parts| > 1
              && (!l[i].node.Tree? || Put(l[i].node.entries, parts[1..], blob).Failed?)
    ensures FindEntry(l, parts[0]).Done? ==>
              forall i :: 0 <= i < |l| && l[i].name == parts[0] ==> l[i] == FindEntry(l, parts[0]).value
  {
    hide Put, FindEntry;
    if k > 0 {
      ReplacedIff(l, k - 1, parts, blob);
      assert l[..k][..k - 1] == l[..k - 1];
    }
    forall i | 0 <= i < |l| && l[i].name == parts[0] ensures FindEntry(l, parts[0]) == Done(l[i]) {
      FindAt(l, i);
    }
  }

  /** A new path holds the file, and nothing else. */
  lemma {:induction false} NewPathLookup(parts: seq<string>, blob: Object, q: seq<string>)
    requires parts != [] && blob.Blob? && q != []
    ensures var (h, mode) := NewPath(parts, blob);
            && WellFormed(h) && (mode == Dir <==> h.Tree?) && (mode == Dir <==> |parts| > 1)
            && (|parts| > 1 ==> Lookup(h, q) == if q == parts[1..] then Done(File(Regular, blob)) else Failed)
            && (|parts| == 1 ==> mode == Regular && h == blob)
    decreases |parts|
  {
    if |parts| > 1 {
      var (h, mode) := NewPath(parts[1..], blob);
      NewPathLookup(parts[1..], blob, if |q| > 1 then q[1..] else q);
      var e := Entry(parts[1], mode, h);
      SingleSorted(e);
      FindSingle(e, q[0]);
      assert parts[1..] == [parts[1]] + parts[2..] && parts[1..][1..] == parts[2..];
      if |q| > 1 {
        assert q == [q[0]] + q[1..];
        assert q == parts[1..] <==> q[0] == parts[1] && q[1..] == parts[2..];
      } else {
        assert q == parts[1..] <==> q[0] == parts[1] && |parts| == 2;
      }
    }
  }

  lemma FindSingle(e: Entry, name: string)
    ensures FindEntry([e], name) == if e.name == name then Done(e) else Failed
  {
    assert [e][1..] == [];
  }

  lemma SingleSorted(e: Entry)
    ensures SortedEntries([e]) == [e]
  {
    assert [e][..0] == [];
  }

  /** After a put the path names the new blob, and every other path the file it named before. */
  lemma {:induction false} PutLookup(l: seq<Entry>, parts: seq<string>, blob: Object, q: seq<string>)
    requires parts != [] && q != [] && blob.Blob? && WellFormed(Tree(l))
    requires Put(l, parts, blob).Done? && !NamesNoFile(Tree(l), parts)
    ensures var t := Put(l, parts, blob).value;
            && t.Tree? && WellFormed(t)
            && Lookup(t, q) ==
                 if q == parts then
                   var was := Lookup(Tree(l), parts);
                   Done(File(if was.Done? then was.value.mode else Regular, blob))
                 else Lookup(Tree(l), q)
    decreases |parts|
  {
    hide SortedEntries, Put, NewPath, FindEntry, InTreeOrder;
    var t := Put(l, parts, blob).value;
    var e' := PutLevel(l, parts, blob);
    var e := FindEntry(l, parts[0]);
    FoundIff(l, parts[0]);
    assert |q| > 1 ==> q == [q[0]] + q[1..];
    assert |parts| > 1 ==> parts == [parts[0]] + parts[1..];
    var tail := if |q| > 1 then q[1..] else q;
    if e.Failed? {
      NewPathLookup(parts, blob, tail);
    } else if |parts| > 1 {
      DirectoryAhead(l, parts, e.value);
      PutLookup(e.value.node.entries, parts[1..], blob, tail);
    }
    assert |parts| == 1 ==> parts == [parts[0]];
    assert |q| == 1 ==> q == [q[0]];
    assert WellFormed(e'.node) && (e'.mode == Dir <==> e'.node.Tree?);
  }

  lemma DirectoryAhead(l: seq<Entry>, parts: seq<string>, e: Entry)
    requires |parts| > 1 && WellFormed(Tree(l)) && FindEntry(l, parts[0]) == Done(e) && e in l
    requires e.node.Tree? && !NamesNoFile(Tree(l), parts)
    ensures e.mode == Dir && WellFormed(e.node) && !NamesNoFile(e.node, parts[1..])
    ensures e.node == Tree(e.node.entries)
  {}

  /** Over a directory or a submodule the new entry keeps that mode, and the file cannot be read back. */
  lemma {:induction false} DirectoryLeafIsLost(l: seq<Entry>, parts: seq<string>, blob: Object)
    requires parts != [] && blob.Blob? && WellFormed(Tree(l)) && NamesNoFile(Tree(l), parts)
    ensures Put(l, parts, blob).Done? && Lookup(Put(l, parts, blob).value, parts).Failed?
    decreases |parts|
  {
    hide SortedEntries, Put, NewPath, FindEntry, InTreeOrder;
    FoundIff(l, parts[0]);
    PutSucceedsIff(l, parts, blob);
    NothingInTheWay(Tree(l), parts);
    var e' := PutLevel(l, parts, blob);
    if |parts| > 1 {
      DirectoryLeafIsLost(FindEntry(l, parts[0]).value.node.entries, parts[1..], blob);
    }
  }

  lemma {:induction false} NothingInTheWay(o: Object, parts: seq<string>)
    requires parts != [] && NamesNoFile(o, parts)
    ensures !InTheWay(o, parts)
    decreases |parts|
  {
    if |parts| > 1 {
      NothingInTheWay(FindEntry(o.entries, parts[0]).value.node, parts[1..]);
    }
  }

  /** What was put is read back exactly when the path did not name a directory or a submodule. */
  lemma GetAfterPutIff(l: seq<Entry>, parts: seq<string>, blob: Object)
    requires parts != [] && blob.Blob? && WellFormed(Tree(l)) && Put(l, parts, blob).Done?
    ensures var got := Lookup(Put(l, parts, blob).value, parts);
            (got.Done? && got.value.node == blob) <==> !NamesNoFile(Tree(l), parts)
  {
    hide SortedEntries, Put, FindEntry;
    if NamesNoFile(Tree(l), parts) {
      DirectoryLeafIsLost(l, parts, blob);
    } else {
      PutLookup(l, parts, blob, parts);
    }
  }

  // ----- a second put wins -----

  ghost predicate SlashFree(o: Object)
    decreases o
  {
    o.Tree? ==> forall e :: e in o.entries ==> '/' !in e.name && SlashFree(e.node)
  }

  lemma SameKeySameName(a: Entry, b: Entry)
    requires '/' !in a.name && '/' !in b.name && !Before(a, b) && !Before(b, a)
    ensures a.name == b.name
  {
    hide Less;
    assert a.mode == Dir ==> Key(a)[|a.name|] == '/';
    assert b.mode == Dir ==> Key(b)[|b.name|] == '/';
    assert Key(a)[..|a.name|] == a.name && Key(b)[..|b.name|] == b.name;
    LessTotal(Key(a), Key(b));
  }

  lemma LastInTreeOrder(a: seq<Entry>, b: seq<Entry>)
    requires a != [] && InTreeOrder(a) && InTreeOrder(b) && UniqueNames(a) && UniqueNames(b)
    requires forall e :: e in a <==> e in b
    requires forall e :: e in a ==> '/' !in e.name
    ensures b != [] && a[|a| - 1] == b[|b| - 1]
  {
    hide Before;
    var x := a[|a| - 1];
    assert x in b;
    var m :| 0 <= m < |b| && b[m] == x;
    var y := b[|b| - 1];
    assert y in a;
    var n :| 0 <= n < |a| && a[n] == y;
    if m < |b| - 1 && n < |a| - 1 {
      SameKeySameName(x, y);
    }
  }

  lemma HasMember(b: seq<Entry>)
    ensures b != [] ==> exists e :: e in b
  {
    assert b != [] ==> b[0] in b;
  }

  /** Entries in order are determined by which they are. */
  lemma {:induction false} OrderIsUnique(a: seq<Entry>, b: seq<Entry>)
    requires InTreeOrder(a) && InTreeOrder(b) && UniqueNames(a) && UniqueNames(b)
    requires forall e :: e in a <==> e in b
    requires forall e :: e in a ==> '/' !in e.name
    ensures a == b
  {
    hide Before;
    if a == [] {
      HasMember(b);
    } else {
      LastInTreeOrder(a, b);
      var x := a[|a| - 1];
      var a', b' := a[..|a| - 1], b[..|b| - 1];
      assert a == a' + [x] && b == b' + [x];
      assert x !in a' && x !in b';
      forall e ensures e in a' <==> e in b' {
        assert e in a <==> e in a' || e == x;
        assert e in b <==> e in b' || e == x;
      }
      OrderIsUnique(a', b');
    }
  }

  /** Putting over the only entry of a tree. */
  lemma SinglePut(e: Entry, parts: seq<string>, blob: Object, e': Entry)
    requires parts != [] && e.name == parts[0] && Rewrites(e, parts, blob, e')
    ensures Put([e], parts, blob) == Done(Tree([e']))
  {
    FindSingle(e, parts[0]);
    SingleSorted(e');
    assert [e][..0] == [] && [] + [e'] == [e'];
    assert Replaced([], parts, blob) == Done([]);
    assert Replaced([e], parts, blob) == Done([e']);
  }

  /** Putting into a path just created is creating it with the new blob. */
  lemma {:induction false} NewPathPut(parts: seq<string>, first: Object, second: Object)
    requires |parts| > 1
    ensures NewPath(parts, first).0.Tree?
    ensures Put(NewPath(parts, first).0.entries, parts[1..], second) == Done(NewPath(parts, second).0)
    decreases |parts|
  {
    hide Put, SortedEntries;
    var (h, mode) := NewPath(parts[1..], first);
    var (h', mode') := NewPath(parts[1..], second);
    var e, e' := Entry(parts[1], mode, h), Entry(parts[1], mode', h');
    SingleSorted(e);
    SingleSorted(e');
    NewPathMode(parts[1..], first, second);
    if |parts| > 2 {
      NewPathPut(parts[1..], first, second);
    }
    SinglePut(e, parts[1..], second, e');
  }

  /** The second of two puts to one path leaves the tree that it alone would have left. */
  lemma {:induction false} SecondPutWins(l: seq<Entry>, parts: seq<string>, first: Object, second: Object)
    requires parts != [] && (forall p :: p in parts ==> '/' !in p) && first.Blob? && second.Blob?
    requires WellFormed(Tree(l)) && SlashFree(Tree(l)) && Put(l, parts, first).Done? && !NamesNoFile(Tree(l), parts)
    ensures var once := Put(l, parts, first).value;
            once.Tree? && Put(once.entries, parts, second) == Put(l, parts, second)
    decreases |parts|
  {
    hide SortedEntries, Put, NewPath, FindEntry, InTreeOrder, Before, WellFormed;
    PutLookup(l, parts, first, parts);
    var once := Put(l, parts, first).value;
    PutAgain(l, parts, first, second);
    var e1 := PutLevel(l, parts, first);
    var e2 := PutLevel(l, parts, second);
    var e12 := PutLevel(once.entries, parts, second);
    FoundIff(l, parts[0]);
    if |parts| > 1 {
      if FindEntry(l, parts[0]).Done? {
        var e := FindEntry(l, parts[0]).value;
        DirectoryBelow(l, parts, e);
        SecondPutWins(e.node.entries, parts[1..], first, second);
      } else {
        NewPathPut(parts, first, second);
      }
    }
    NewPathMode(parts, first, second);
    NewPathMode(parts, second, first);
    assert Rewrites(e1, parts, second, e12);
    assert e12.node == e2.node && e12.mode == e2.mode && e12.name == e2.name;
    var a, b := Put(once.entries, parts, second).value.entries, Put(l, parts, second).value.entries;
    forall e ensures e in a <==> e in b {
      SameMembers(l, once.entries, a, b, e1, e2, e);
    }
    forall e | e in a ensures '/' !in e.name {
      assert e in b;
    }
    OrderIsUnique(a, b);
  }

  /** Whether a put goes through does not depend on the blob, nor on an earlier put. */
  lemma PutAgain(l: seq<Entry>, parts: seq<string>, first: Object, second: Object)
    requires parts != [] && first.Blob? && second.Blob?
    requires WellFormed(Tree(l)) && Put(l, parts, first).Done? && !NamesNoFile(Tree(l), parts)
    ensures Put(l, parts, second).Done?
    ensures Put(l, parts, first).value.Tree? && Put(Put(l, parts, first).value.entries, parts, second).Done?
    ensures WellFormed(Put(l, parts, first).value) && UniqueNames(l) && UniqueNames(Put(l, parts, first).value.entries)
  {
    hide Put, FindEntry;
    PutSucceedsIff(l, parts, first);
    PutSucceedsIff(l, parts, second);
    PutLookup(l, parts, first, parts);
    var once := Put(l, parts, first).value;
    assert once == Tree(once.entries);
    FileIsNotBehindFile(once, parts);
    PutSucceedsIff(once.entries, parts, second);
  }

  lemma {:induction false} FileIsNotBehindFile(o: Object, parts: seq<string>)
    requires parts != [] && Lookup(o, parts).Done?
    ensures !InTheWay(o, parts)
    decreases |parts|
  {
    if |parts| > 1 {
      FileIsNotBehindFile(FindEntry(o.entries, parts[0]).value.node, parts[1..]);
    }
  }

  lemma DirectoryBelow(l: seq<Entry>, parts: seq<string>, e: Entry)
    requires |parts| > 1 && WellFormed(Tree(l)) && SlashFree(Tree(l)) && FindEntry(l, parts[0]) == Done(e) && e in l
    requires e.node.Tree? && !NamesNoFile(Tree(l), parts)
    ensures WellFormed(e.node) && SlashFree(e.node) && !NamesNoFile(e.node, parts[1..])
    ensures e.node == Tree(e.node.entries)
  {}

  lemma NewPathMode(parts: seq<string>, first: Object, second: Object)
    requires parts != []
    ensures NewPath(parts, first).1 == NewPath(parts, second).1
    ensures |parts| == 1 ==> NewPath(parts, first) == (first, Regular)
  {}

  lemma SameMembers(l: seq<Entry>, once: seq<Entry>, a: seq<Entry>, b: seq<Entry>, e1: Entry, e2: Entry, e: Entry)
    requires UniqueNames(once) && UniqueNames(a) && UniqueNames(b) && UniqueNames(l)
    requires e1.name == e2.name && e1 in once && e2 in a && e2 in b
    requires forall x :: x in once ==> x == e1 || x in l
    requires forall x :: x in l && x.name != e1.name ==> x in once
    requires forall x :: x in a ==> x == e2 || x in once
    requires forall x :: x in once && x.name != e1.name ==> x in a
    requires forall x :: x in b ==> x == e2 || x in l
    requires forall x :: x in l && x.name != e1.name ==> x in b
    ensures e in a <==> e in b
  {
    if e in a && e != e2 {
      SameNameSameEntry(a, e, e2);
    }
    if e in b && e != e2 {
      SameNameSameEntry(b, e, e2);
    }
  }

  lemma SameNameSameEntry(l: seq<Entry>, x: Entry, y: Entry)
    requires UniqueNames(l) && x in l && y in l && x != y
    ensures x.name != y.name
  {
    var i :| 0 <= i < |l| && l[i] == x;
    var j :| 0 <= j < |l| && l[j] == y;
  }
}
