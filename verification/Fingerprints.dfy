/** A fingerprint that tells any two indexes apart, of characters the cache key can hold: what the hash
    in internal/store/bundles.go is taken to be. */
module Fingerprints {
  import opened Sequences
  import opened Keys
  import opened BundleCache

  const SEMICOLON: char := ';'

  /** Each character by its number. */
  function Codes(s: string): (codes: seq<string>)
    ensures |codes| == |s| && forall i :: 0 <= i < |s| ==> codes[i] == Decimal(s[i] as nat)
  {
    seq(|s|, i requires 0 <= i < |s| => Decimal(s[i] as nat))
  }

  function Spelled(s: string): string {
    "s" + Join(Codes(s), [COMMA])
  }

  lemma CodesAre(s: string)
    ensures Parts(Codes(s), COMMA) && (forall c :: c in Codes(s) ==> NUL !in c && SEMICOLON !in c)
  {
    forall c | c in Codes(s) ensures c != "" && COMMA !in c && NUL !in c && SEMICOLON !in c {
      var i :| 0 <= i < |s| && c == Decimal(s[i] as nat);
      assert forall d :: d in c ==> d in DIGITS;
    }
  }

  lemma SpelledIs(s: string)
    ensures Spelled(s) != "" && NUL !in Spelled(s) && SEMICOLON !in Spelled(s)
  {
    hide Join, Codes;
    CodesAre(s);
    JoinHolds(Codes(s), COMMA, NUL);
    JoinHolds(Codes(s), COMMA, SEMICOLON);
  }

  lemma SpelledTells(s: string, t: string)
    requires Spelled(s) == Spelled(t)
    ensures s == t
  {
    hide Join, Codes, Decimal;
    CodesAre(s);
    CodesAre(t);
    assert Spelled(s)[1..] == Join(Codes(s), [COMMA]) && Spelled(t)[1..] == Join(Codes(t), [COMMA]);
    JoinInjective(Codes(s), Codes(t), COMMA);
    forall i | 0 <= i < |s| ensures s[i] == t[i] {
      assert Codes(s)[i] == Codes(t)[i];
      NumberInjective(s[i] as int, t[i] as int);
    }
  }

  /** Paths and contents, one after the other, in some order. */
  ghost function Listing(k: Knowledge): seq<string> {
    if k == map[] then []
    else
      var p :| p in k;
      [Spelled(p), Spelled(k[p])] + Listing(k - {p})
  }

  ghost function Fingerprint(k: Knowledge): string {
    "f" + Join(Listing(k), [SEMICOLON])
  }

  lemma {:induction false} ListingIs(k: Knowledge)
    ensures Parts(Listing(k), SEMICOLON) && forall x :: x in Listing(k) ==> NUL !in x
  {
    hide Spelled;
    if k != map[] {
      var p :| p in k && Listing(k) == [Spelled(p), Spelled(k[p])] + Listing(k - {p});
      SpelledIs(p);
      SpelledIs(k[p]);
      ListingIs(k - {p});
    }
  }

  lemma {:induction false} ListingTells(k: Knowledge, l: Knowledge)
    requires Listing(k) == Listing(l)
    ensures k == l
  {
    hide Spelled;
    if k != map[] && l != map[] {
      var p :| p in k && Listing(k) == [Spelled(p), Spelled(k[p])] + Listing(k - {p});
      var q :| q in l && Listing(l) == [Spelled(q), Spelled(l[q])] + Listing(l - {q});
      assert Listing(k)[0] == Listing(l)[0] && Listing(k)[1] == Listing(l)[1];
      SpelledTells(p, q);
      SpelledTells(k[p], l[q]);
      assert Listing(k)[2..] == Listing(k - {p}) && Listing(l)[2..] == Listing(l - {q});
      ListingTells(k - {p}, l - {q});
      assert k == (k - {p})[p := k[p]] && l == (l - {q})[q := l[q]];
    }
  }

  lemma FingerprintIs(k: Knowledge)
    ensures Fingerprint(k) != "" && NUL !in Fingerprint(k)
  {
    hide Join, Listing;
    ListingIs(k);
    JoinHolds(Listing(k), SEMICOLON, NUL);
  }

  lemma FingerprintTells(k: Knowledge, l: Knowledge)
    requires Fingerprint(k) == Fingerprint(l)
    ensures k == l
  {
    hide Join, Listing;
    ListingIs(k);
    ListingIs(l);
    assert Fingerprint(k)[1..] == Join(Listing(k), [SEMICOLON]) && Fingerprint(l)[1..] == Join(Listing(l), [SEMICOLON]);
    JoinInjective(Listing(k), Listing(l), SEMICOLON);
    ListingTells(k, l);
  }

  /** So the results that ask for a telling fingerprint are about something. */
  lemma TellingExists() returns (fingerprint: Knowledge -> string)
    ensures Telling(fingerprint)
  {
    hide Fingerprint;
    fingerprint := k => Fingerprint(k);
    forall k: Knowledge ensures fingerprint(k) != "" && NUL !in fingerprint(k) {
      FingerprintIs(k);
    }
    forall k: Knowledge, l: Knowledge | fingerprint(k) == fingerprint(l) ensures k == l {
      FingerprintTells(k, l);
    }
  }
}
