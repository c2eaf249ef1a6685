/** internal/bundle: cutting a chunk down to a number of tokens. */
module Truncation {
  import opened Runes
  import opened Sequences
  import opened Tokenizer

  /** The first k lines. */
  function Head(lines: seq<Text>, k: nat): Text
    requires k <= |lines|
  {
    Join(lines[..k], NL)
  }

  /** t is s cut to limit: s itself when it fits, else as many whole lines as fit (without trailing
      newlines), else, when not even the first line fits, as many runes as fit (trimmed). */
  ghost predicate IsCut(s: Text, limit: int, t: Text) {
    var lines := Split(s, NL);
    if Tokens(s) <= limit then t == s
    else if Tokens(lines[0]) <= limit then
      exists k :: 0 < k < |lines| && LinesEndAt(lines, limit, k) && t == TrimNewlines(Head(lines, k))
    else
      exists k :: 0 <= k <= |s| && RunesEndAt(s, limit, k) && t == Trim(s[..k])
  }

  predicate LinesEndAt(lines: seq<Text>, limit: int, k: nat)
    requires 0 < k < |lines|
  {
    Tokens(Head(lines, k)) <= limit < Tokens(Head(lines, k + 1))
  }

  predicate RunesEndAt(s: Text, limit: int, k: nat)
    requires k <= |s|
  {
    (k == 0 || Tokens(s[..k]) <= limit) && (k == |s| || limit < Tokens(s[..k + 1]))
  }

  lemma HeadGrows(lines: seq<Text>, k: nat, m: nat)
    requires 0 < k <= m <= |lines|
    ensures Tokens(Head(lines, k)) <= Tokens(Head(lines, m))
    decreases m - k
  {
    if k < m {
      HeadGrows(lines, k, m - 1);
      assert lines[..m] == lines[..m - 1] + [lines[m - 1]];
      JoinSnoc(lines[..m - 1], lines[m - 1], NL);
      var h := Head(lines, m - 1);
      AppendMonotone(h, NL + lines[m - 1]);
      assert h + NL + lines[m - 1] == h + (NL + lines[m - 1]);
    }
  }

  lemma RunesGrow(s: Text, k: nat, m: nat)
    requires k <= m <= |s|
    ensures Tokens(s[..k]) <= Tokens(s[..m])
  {
    PrefixBelow(s[..m], k);
    assert s[..m][..k] == s[..k];
  }

  method Truncate(s: Text, limit: int) returns (t: Text)
    requires Countable(s)
    ensures IsCut(s, limit, t)
  {
    hide Tokens, Trim, TrimNewlines;
    var c := Count(s);
    if c <= limit {
      return s;
    }
    var lines := Split(s, NL);
    JoinSplit(s, NL);
    LinesCountable(s);
    var out: seq<Text> := [];
    var k := 0;
    while k < |lines|
      invariant k <= |lines| && out == lines[..k]
      invariant k > 0 ==> Tokens(Head(lines, k)) <= limit
    {
      assert lines[..k + 1] == lines[..k] + [lines[k]];
      HeadCountable(lines, k + 1);
      c := Count(Join(out + [lines[k]], NL));
      if c > limit {
        break;
      }
      out := out + [lines[k]];
      k := k + 1;
    }
    assert k < |lines| by { assert lines[..|lines|] == lines; }
    assert lines[..1] == [lines[0]];
    if |out| > 0 {
      assert LinesEndAt(lines, limit, k);
      if k > 1 {
        HeadGrows(lines, 1, k);
      }
      return TrimNewlines(Join(out, NL));
    }
    var n := LongestRunes(s, limit);
    t := Trim(s[..n]);
  }

  /** The binary search for the longest fitting prefix. */
  method LongestRunes(s: Text, limit: int) returns (n: nat)
    requires Countable(s) && limit < Tokens(s)
    ensures n <= |s| && RunesEndAt(s, limit, n)
  {
    hide Tokens;
    var lo, hi := 0, |s|;
    assert s[..|s|] == s;
    while lo < hi
      invariant 0 <= lo <= hi <= |s|
      invariant lo == 0 || Tokens(s[..lo]) <= limit
      invariant hi < |s| ==> limit < Tokens(s[..hi + 1])
    {
      var mid := (lo + hi + 1) / 2;
      var c := Count(s[..mid]);
      if c <= limit {
        lo := mid;
      } else {
        hi := mid - 1;
      }
    }
    return lo;
  }

  lemma NothingCosts()
    ensures Tokens([]) == 0
  {}

  lemma {:induction false} LinesCountable(s: Text)
    requires Countable(s)
    ensures forall i :: 0 <= i < |Split(s, NL)| ==> Countable(Split(s, NL)[i])
    decreases |s|
  {
    hide Find;
    var i := Find(s, NL);
    if i < |s| {
      LinesCountable(s[i + 1..]);
    }
  }

  lemma {:induction false} HeadCountable(lines: seq<Text>, k: nat)
    requires 0 < k <= |lines|
    requires forall i :: 0 <= i < |lines| ==> Countable(lines[i])
    ensures Countable(Head(lines, k))
  {
    if k > 1 {
      HeadCountable(lines, k - 1);
      assert lines[..k] == lines[..k - 1] + [lines[k - 1]];
      JoinSnoc(lines[..k - 1], lines[k - 1], NL);
    } else {
      assert lines[..1] == [lines[0]];
    }
  }

  // ----- what the cut guarantees -----

  /** The cut text is within its limit whenever any text can be. */
  lemma CutFits(s: Text, limit: int, t: Text)
    requires IsCut(s, limit, t)
    ensures Tokens(t) <= limit <==> limit >= 0
  {
    hide Tokens, Trim, TrimNewlines;
    var lines := Split(s, NL);
    if limit >= 0 && Tokens(s) > limit {
      if Tokens(lines[0]) <= limit {
        var k :| 0 < k < |lines| && LinesEndAt(lines, limit, k) && t == TrimNewlines(Head(lines, k));
        PrefixBelow(Head(lines, k), |t|);
      } else {
        var k :| 0 <= k <= |s| && RunesEndAt(s, limit, k) && t == Trim(s[..k]);
        TrimBelow(s[..k]);
        if k == 0 {
          assert s[..0] == [];
          NothingCosts();
        }
      }
    }
  }

  /** No longer run of whole lines fits, and when the first line alone is too big no longer run
      of runes does: truncation keeps as much as it may. */
  lemma CutIsLongest(s: Text, limit: int, t: Text)
    requires IsCut(s, limit, t) && limit < Tokens(s)
    ensures var lines := Split(s, NL);
            if Tokens(lines[0]) <= limit then
              exists k :: 0 < k < |lines| && t == TrimNewlines(Join(lines[..k], [Newline])) &&
                forall m :: 0 < m <= |lines| ==> (Tokens(Join(lines[..m], [Newline])) <= limit <==> m <= k)
            else
              exists k :: 0 <= k <= |s| && t == Trim(s[..k]) &&
                forall m :: 0 < m <= |s| ==> (Tokens(s[..m]) <= limit <==> m <= k)
  {
    hide Tokens, Trim, TrimNewlines, Join, Split;
    var lines := Split(s, NL);
    if Tokens(lines[0]) <= limit {
      var k :| 0 < k < |lines| && LinesEndAt(lines, limit, k) && t == TrimNewlines(Head(lines, k));
      assert t == TrimNewlines(Join(lines[..k], [Newline]));
      forall m | 0 < m <= |lines| ensures Tokens(Join(lines[..m], [Newline])) <= limit <==> m <= k {
        assert Head(lines, m) == Join(lines[..m], [Newline]);
        if m <= k {
          HeadGrows(lines, m, k);
        } else {
          HeadGrows(lines, k + 1, m);
        }
      }
    } else {
      var k :| 0 <= k <= |s| && RunesEndAt(s, limit, k) && t == Trim(s[..k]);
      forall m | 0 < m <= |s| ensures Tokens(s[..m]) <= limit <==> m <= k {
        if m <= k {
          RunesGrow(s, m, k);
        } else {
          RunesGrow(s, k + 1, m);
        }
      }
    }
  }

  /** There is only one way to cut. */
  lemma CutIsUnique(s: Text, limit: int, t: Text, u: Text)
    requires IsCut(s, limit, t) && IsCut(s, limit, u)
    ensures t == u
  {
    hide Tokens, Trim, TrimNewlines;
    var lines := Split(s, NL);
    if Tokens(s) > limit {
      if Tokens(lines[0]) <= limit {
        var k :| 0 < k < |lines| && LinesEndAt(lines, limit, k) && t == TrimNewlines(Head(lines, k));
        var m :| 0 < m < |lines| && LinesEndAt(lines, limit, m) && u == TrimNewlines(Head(lines, m));
        if k < m {
          HeadGrows(lines, k + 1, m);
        } else if m < k {
          HeadGrows(lines, m + 1, k);
        }
      } else {
        var k :| 0 <= k <= |s| && RunesEndAt(s, limit, k) && t == Trim(s[..k]);
        var m :| 0 <= m <= |s| && RunesEndAt(s, limit, m) && u == Trim(s[..m]);
        if k < m {
          RunesGrow(s, k + 1, m);
        } else if m < k {
          RunesGrow(s, m + 1, k);
        }
      }
    }
  }
}
