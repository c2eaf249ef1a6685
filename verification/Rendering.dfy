/** internal/bundle: how a bundle is laid out, and what its text costs. */
module Rendering {
  import opened Runes
  import opened Sequences
  import opened Tokenizer

  datatype Option<T> = None | Some(value: T)

  datatype Date = Date(year: nat, month: nat, day: nat)

  /** A ranked chunk, as search returns it. */
  datatype Hit = Hit(
    id: string, docPath: Text, scope: string, heading: Text, content: Text, tokens: nat,
    updated: Option<Date>, codeChanges: nat, codeChanged: Date)

  // ----- attribution lines -----

  function Pad(n: nat, width: nat): Text {
    var d := Decimal(n);
    (if |d| < width then seq(width - |d|, _ => Digit(0)) else []) + d
  }

  function FormatDate(d: Date): Text {
    Pad(d.year, 4) + Lit("-") + Pad(d.month, 2) + Lit("-") + Pad(d.day, 2)
  }

  function Plural(n: nat): Text {
    if n == 1 then [] else Lit("s")
  }

  function SectionHeader(ch: Hit): Text {
    var name := Lit("## ") + ch.docPath + Lit(" — ") + ch.heading;
    match ch.updated
    case None => name
    case Some(updated) =>
      var h := name + Lit(" (updated ") + FormatDate(updated);
      var drift :=
        if ch.codeChanges > 0 then
          Lit("; code changed since: ") + Decimal(ch.codeChanges) + Lit(" commit") + Plural(ch.codeChanges)
          + Lit(", last ") + FormatDate(ch.codeChanged)
        else [];
      h + drift + Lit(")")
  }

  function SectionOverhead(ch: Hit): nat {
    Tokens(SectionHeader(ch)) + 2
  }

  /** The content without its leading Markdown heading line. */
  function Body(content: Text): Text {
    var t := Trim(content);
    if t != [] && t[0] == Symbol('#' as nat) then
      var i := Find(t, NL);
      if i < |t| then Trim(t[i + 1..]) else []
    else t
  }

  // ----- what a section shows -----

  /** The day in ten runes, for every year of at most four digits. */
  lemma FormatDateIs(d: Date)
    requires d.year < 10_000 && d.month < 100 && d.day < 100
    ensures FormatDate(d) ==
            [Digit(d.year / 1000), Digit(d.year / 100 % 10), Digit(d.year / 10 % 10), Digit(d.year % 10)]
            + Lit("-") + [Digit(d.month / 10), Digit(d.month % 10)]
            + Lit("-") + [Digit(d.day / 10), Digit(d.day % 10)]
  {
    hide Pad;
    PadFour(d.year);
    PadTwo(d.month);
    PadTwo(d.day);
  }

  lemma PadTwo(n: nat)
    requires n < 100
    ensures Pad(n, 2) == [Digit(n / 10), Digit(n % 10)]
  {
    hide Numeral;
    DecimalSteps(n);
    if n >= 10 {
      DecimalSteps(n / 10);
    }
  }

  lemma DecimalSteps(n: nat)
    ensures Decimal(n) == if n < 10 then [Digit(n)] else Decimal(n / 10) + [Digit(n % 10)]
  {
    assert forall i :: 0 <= i < 10 ==> DIGITS[i] == Digit(i);
  }

  lemma PadFour(n: nat)
    requires n < 10_000
    ensures Pad(n, 4) == [Digit(n / 1000), Digit(n / 100 % 10), Digit(n / 10 % 10), Digit(n % 10)]
  {
    hide Decimal;
    DecimalSteps(n);
    if n >= 10 {
      DecimalSteps(n / 10);
      if n >= 100 {
        DecimalSteps(n / 100);
        if n >= 1000 {
          DecimalSteps(n / 1000);
        }
      }
    }
  }

  /** The line above a section: where it is from, how old it is, and, when the code it is about has
      changed since, how often and when last. */
  ghost predicate Attributes(title: Text, ch: Hit) {
    var name := Lit("## ") + ch.docPath + Lit(" — ") + ch.heading;
    && (ch.updated == None ==> title == name)
    && (ch.updated != None && ch.codeChanges == 0 ==>
          title == name + Lit(" (updated ") + FormatDate(ch.updated.value) + Lit(")"))
    && (ch.updated != None && ch.codeChanges == 1 ==>
          title == name + Lit(" (updated ") + FormatDate(ch.updated.value) + Lit("; code changed since: ")
                   + Decimal(1) + Lit(" commit, last ") + FormatDate(ch.codeChanged) + Lit(")"))
    && (ch.updated != None && ch.codeChanges > 1 ==>
          title == name + Lit(" (updated ") + FormatDate(ch.updated.value) + Lit("; code changed since: ")
                   + Decimal(ch.codeChanges) + Lit(" commits, last ") + FormatDate(ch.codeChanged) + Lit(")"))
  }

  lemma HeaderAttributes(ch: Hit)
    ensures Attributes(SectionHeader(ch), ch)
  {
    hide FormatDate, Decimal, Plural;
    var name := Lit("## ") + ch.docPath + Lit(" — ") + ch.heading;
    if ch.updated != None && ch.codeChanges > 0 {
      Regrouped(name + Lit(" (updated ") + FormatDate(ch.updated.value), Lit("; code changed since: "), Decimal(ch.codeChanges),
                Lit(" commit"), Plural(ch.codeChanges), Lit(", last "), FormatDate(ch.codeChanged), Lit(")"));
      CommitWords();
    } else if ch.updated != None {
      var h := name + Lit(" (updated ") + FormatDate(ch.updated.value);
      assert h + [] == h;
    }
  }

  lemma Regrouped(h: Text, a: Text, b: Text, c: Text, d: Text, e: Text, f: Text, g: Text)
    ensures h + (a + b + c + d + e + f) + g == h + a + b + (c + d + e) + f + g
  {}

  lemma CommitWords()
    ensures Lit(" commit") + Plural(1) + Lit(", last ") == Lit(" commit, last ")
    ensures forall n: nat :: n > 1 ==> Lit(" commit") + Plural(n) + Lit(", last ") == Lit(" commits, last ")
  {
    assert Lit(" commit") + Lit("s") + Lit(", last ") == Lit(" commits, last ");
    assert Lit(" commit") + [] + Lit(", last ") == Lit(" commit, last ");
  }

  /** The content trimmed, its first line cut off when that starts with '#'. */
  ghost predicate ShowsContent(shown: Text, content: Text) {
    var t := Trim(content);
    && (t == [] || t[0] != Symbol('#' as nat) ==> shown == t)
    && (t != [] && t[0] == Symbol('#' as nat) && Newline !in t ==> shown == [])
    && (forall n :: 0 <= n < |t| && t[0] == Symbol('#' as nat) && t[n] == Newline && Newline !in t[..n] ==> shown == Trim(t[n + 1..]))
  }

  lemma BodyShows(content: Text)
    ensures ShowsContent(Body(content), content)
  {
    hide Trim;
    var t := Trim(content);
    if t != [] {
      LineEnd(t);
    }
  }

  /** The first newline is where the search for one stops. */
  lemma LineEnd(t: Text)
    ensures Newline !in t[..Find(t, NL)]
    ensures Find(t, NL) < |t| ==> t[Find(t, NL)] == Newline
  {
    var i := Find(t, NL);
    forall j | 0 <= j < i ensures t[j] != Newline {
      assert t[j..][0] == t[j];
      assert NL <= t[j..] <==> t[j] == Newline;
    }
    if i < |t| {
      assert t[i..][0] == t[i];
    }
  }

  /** Of a section with a heading line everything but that line is shown, white space at the ends
      aside; of one without a heading line, everything. */
  lemma BodyKeeps(content: Text, gap: Text, heading: Text, rest: Text)
    requires (forall r :: r in gap ==> r.IsSpace()) && heading != [] && Newline !in heading
    requires content == gap + heading + NL + rest && !heading[0].IsSpace()
    ensures heading[0] == Symbol('#' as nat) ==> Body(content) == Trim(rest) && Squeeze(Body(content)) == Squeeze(rest)
    ensures heading[0] != Symbol('#' as nat) ==> Body(content) == Trim(content) && Squeeze(Body(content)) == Squeeze(content)
  {
    hide Trim, Squeeze, TrimLeft, TrimRight, Find;
    SqueezeTrim(content);
    SqueezeTrim(rest);
    var i, j := InkEnds(rest);
    TrimIs(rest, i, j);
    if i == j {
      var m := TrimToLine(gap, heading, rest);
      FindLine(heading[..m], []);
    } else {
      TrimToInk(gap, heading, rest, i, j);
      FindLine(heading, rest[..j]);
      TrimIs(rest[..j], i, j);
      assert (heading + NL + rest[..j])[|heading| + 1..] == rest[..j];
      assert rest[..j][i..j] == rest[i..j];
    }
  }

  lemma FindLine(line: Text, rest: Text)
    requires Newline !in line
    ensures Find(line, NL) == |line| && Find(line + NL + rest, NL) == |line|
  {
    hide Find;
    LineEnd(line);
    var t := line + NL + rest;
    LineEnd(t);
    assert t[|line|..][0] == Newline;
    var i := Find(t, NL);
    assert NL <= t[|line|..];
  }

  /** Nothing but white space follows the line. */
  lemma TrimToLine(gap: Text, heading: Text, rest: Text) returns (m: nat)
    requires forall r :: r in gap ==> r.IsSpace()
    requires heading != [] && !heading[0].IsSpace()
    requires forall k :: 0 <= k < |rest| ==> rest[k].IsSpace()
    ensures 0 < m <= |heading| && Trim(gap + heading + NL + rest) == heading[..m]
  {
    hide Trim;
    var s := gap + heading + NL + rest;
    var i;
    i, m := InkEnds(heading);
    var e := |gap| + m;
    forall k | 0 <= k < |gap| || e <= k < |s| ensures s[k].IsSpace() {
      if k < |gap| {
        assert s[k] in gap;
      } else if k < |gap| + |heading| {
        assert s[k] == heading[k - |gap|];
      } else if k > |gap| + |heading| {
        assert s[k] == rest[k - |gap| - |heading| - 1];
      }
    }
    assert s[|gap|] == heading[0] && s[e - 1] == heading[m - 1];
    TrimIs(s, |gap|, e);
    assert s[|gap|..e] == heading[..m];
  }

  lemma TrimToInk(gap: Text, heading: Text, rest: Text, i: nat, j: nat)
    requires forall r :: r in gap ==> r.IsSpace()
    requires heading != [] && !heading[0].IsSpace()
    requires i < j <= |rest| && !rest[j - 1].IsSpace()
    requires forall k :: j <= k < |rest| ==> rest[k].IsSpace()
    ensures Trim(gap + heading + NL + rest) == heading + NL + rest[..j]
  {
    hide Trim;
    var s := gap + heading + NL + rest;
    var n := |gap| + |heading| + 1;
    var e := n + j;
    forall k | 0 <= k < |gap| || e <= k < |s| ensures s[k].IsSpace() {
      if k < |gap| {
        assert s[k] in gap;
      } else {
        assert s[k] == rest[k - n];
      }
    }
    assert s[|gap|] == heading[0] && s[e - 1] == rest[j - 1];
    TrimIs(s, |gap|, e);
    assert s[|gap|..e] == heading + NL + rest[..j];
  }

  // ----- the request text in the header line -----

  const SPACE: Text := [Blank(0x20)]

  /** Text without a line break in it. */
  ghost predicate OnOneLine(t: Text) {
    forall i :: 0 <= i < |t| ==> !t[i].IsBreak()
  }

  /** strings.Fields. */
  function Fields(s: Text): seq<Text>
    decreases |s|
  {
    var t := TrimLeft(s);
    if t == [] then []
    else
      var n := FieldLength(t);
      [t[..n]] + Fields(t[n..])
  }

  function FieldLength(s: Text): (n: nat)
    ensures n <= |s|
    ensures s != [] && !s[0].IsSpace() ==> n > 0
    ensures forall i :: 0 <= i < n ==> !s[i].IsSpace()
  {
    if s == [] || s[0].IsSpace() then 0 else 1 + FieldLength(s[1..])
  }

  const DASH := Symbol('-' as nat)
  const LONG_DASH := Symbol('—' as nat)

  /** strings.ReplaceAll(s, "--", "—"). */
  function ReplaceDashes(s: Text): (t: Text) {
    if |s| >= 2 && s[0] == DASH && s[1] == DASH then [LONG_DASH] + ReplaceDashes(s[2..])
    else if s == [] then []
    else [s[0]] + ReplaceDashes(s[1..])
  }

  function OneLine(s: Text): Text {
    var t := ReplaceDashes(Join(Fields(s), SPACE));
    if |t| > 120 then t[..119] + Lit("…") else t
  }

  // ----- the bundle -----

  function TotalTokens(chunks: seq<Hit>): nat {
    if chunks == [] then 0 else chunks[0].tokens + TotalTokens(chunks[1..])
  }

  function HeadOf(id: Text): Text {
    Lit("<!-- briefd bundle ") + id + Lit(" · ")
  }

  function TailOf(task: Text, scopes: seq<Text>, fingerprint: Text): Text {
    Lit(" tokens · scopes: ") + Join(scopes, Lit(", ")) + Lit(" · index ") + fingerprint
    + Lit(" · task: ") + OneLine(task) + Lit(" -->\n")
  }

  function HeaderLine(id: Text, task: Text, scopes: seq<Text>, fingerprint: Text, n: nat, total: nat): Text {
    HeadOf(id) + Decimal(n) + Lit(" section(s), ~") + Decimal(total) + TailOf(task, scopes, fingerprint)
  }

  function Section(ch: Hit): Text {
    NL + SectionHeader(ch) + NLNL + Body(ch.content) + NL
  }

  function Sections(chunks: seq<Hit>): Text {
    if chunks == [] then [] else Section(chunks[0]) + Sections(chunks[1..])
  }

  function NothingFound(): Text {
    Lit("\n(no matching knowledge)\n")
  }

  function Bundle(id: Text, task: Text, scopes: seq<Text>, fingerprint: Text, chunks: seq<Hit>): Text {
    HeaderLine(id, task, scopes, fingerprint, |chunks|, TotalTokens(chunks))
    + if chunks == [] then NothingFound() else Sections(chunks)
  }

  lemma {:induction false} SectionsSnoc(chunks: seq<Hit>, ch: Hit)
    ensures Sections(chunks + [ch]) == Sections(chunks) + Section(ch)
    ensures TotalTokens(chunks + [ch]) == TotalTokens(chunks) + ch.tokens
  {
    hide Section;
    if chunks != [] {
      assert (chunks + [ch])[1..] == chunks[1..] + [ch];
      SectionsSnoc(chunks[1..], ch);
    } else {
      assert [] + [ch] == [ch] && [ch][1..] == [];
      assert Sections([ch]) == Section(ch) + [];
    }
  }

  /** A section is its title and its text, each set apart by line breaks. */
  function Laid(titles: seq<Text>, bodies: seq<Text>): (sections: seq<Text>)
    requires |titles| == |bodies|
    ensures |sections| == |titles|
    ensures forall k :: 0 <= k < |titles| ==> sections[k] == NL + titles[k] + NL + NL + bodies[k] + NL
  {
    seq(|titles|, k requires 0 <= k < |titles| => NL + titles[k] + NL + NL + bodies[k] + NL)
  }

  lemma {:induction false} SectionsLaid(chunks: seq<Hit>) returns (titles: seq<Text>, bodies: seq<Text>)
    ensures Fills(titles, bodies, chunks) && Sections(chunks) == Flatten(Laid(titles, bodies))
  {
    hide Attributes, ShowsContent, SectionHeader, Body, Laid;
    titles, bodies := [], [];
    if chunks != [] {
      var ts, bs := SectionsLaid(chunks[1..]);
      var title, body := SectionHeader(chunks[0]), Body(chunks[0].content);
      HeaderAttributes(chunks[0]);
      BodyShows(chunks[0].content);
      titles, bodies := [title] + ts, [body] + bs;
      var first := NL + title + NL + NL + body + NL;
      assert Section(chunks[0]) == first;
      assert Laid(titles, bodies) == [first] + Laid(ts, bs);
      assert ([first] + Laid(ts, bs))[1..] == Laid(ts, bs);
    } else {
      assert Laid([], []) == [];
    }
  }

  /** Nothing that can be seen is lost or added by the layout. */
  lemma {:induction false} LaidKeeps(titles: seq<Text>, bodies: seq<Text>)
    requires |titles| == |bodies|
    ensures Squeeze(Flatten(Laid(titles, bodies))) ==
            Flatten(seq(|titles|, k requires 0 <= k < |titles| => Squeeze(titles[k]) + Squeeze(bodies[k])))
  {
    hide Squeeze, Laid;
    var inks := seq(|titles|, k requires 0 <= k < |titles| => Squeeze(titles[k]) + Squeeze(bodies[k]));
    if titles != [] {
      var ts, bs := titles[1..], bodies[1..];
      LaidKeeps(ts, bs);
      assert inks[1..] == seq(|ts|, k requires 0 <= k < |ts| => Squeeze(ts[k]) + Squeeze(bs[k]));
      assert Laid(titles, bodies)[1..] == Laid(ts, bs);
      SectionInk(titles[0], bodies[0]);
      SqueezeConcat(Laid(titles, bodies)[0], Flatten(Laid(ts, bs)));
    } else {
      SqueezeBlank([]);
      assert Laid(titles, bodies) == [];
    }
  }

  lemma SectionInk(title: Text, body: Text)
    ensures Squeeze(NL + title + NL + NL + body + NL) == Squeeze(title) + Squeeze(body)
  {
    hide Squeeze;
    SqueezeBlank(NL);
    SqueezeConcat(NL, title);
    SqueezeConcat(NL + title, NL);
    SqueezeConcat(NL + title + NL, NL);
    SqueezeConcat(NL + title + NL + NL, body);
    SqueezeConcat(NL + title + NL + NL + body, NL);
  }

  /** Title and text of every section, in order. */
  ghost predicate Fills(titles: seq<Text>, bodies: seq<Text>, chunks: seq<Hit>) {
    && |titles| == |bodies| == |chunks|
    && forall k :: 0 <= k < |chunks| ==> Attributes(titles[k], chunks[k]) && ShowsContent(bodies[k], chunks[k].content)
  }

  /** A bundle laid out: its header line, and either every section, in order, under its title, or
      the notice that there is none. */
  ghost predicate Lays(out: Text, line: Text, chunks: seq<Hit>) {
    if chunks == [] then out == line + Lit("\n(no matching knowledge)\n")
    else exists titles, bodies :: Fills(titles, bodies, chunks) && out == line + Flatten(Laid(titles, bodies))
  }

  lemma BundleLays(id: Text, task: Text, scopes: seq<Text>, fingerprint: Text, chunks: seq<Hit>)
    ensures Lays(Bundle(id, task, scopes, fingerprint, chunks),
                 Lit("<!-- briefd bundle ") + id + Lit(" · ") + Decimal(|chunks|) + Lit(" section(s), ~")
                 + Decimal(TotalTokens(chunks)) + Lit(" tokens · scopes: ") + Join(scopes, Lit(", "))
                 + Lit(" · index ") + fingerprint + Lit(" · task: ") + OneLine(task) + Lit(" -->\n"), chunks)
  {
    hide HeaderLine, Attributes, ShowsContent, Laid, Sections;
    LineWritten(id, task, scopes, fingerprint, |chunks|, TotalTokens(chunks));
    var titles, bodies := SectionsLaid(chunks);
  }

  lemma LineWritten(id: Text, task: Text, scopes: seq<Text>, fingerprint: Text, n: nat, total: nat)
    ensures HeaderLine(id, task, scopes, fingerprint, n, total) ==
            Lit("<!-- briefd bundle ") + id + Lit(" · ") + Decimal(n) + Lit(" section(s), ~")
            + Decimal(total) + Lit(" tokens · scopes: ") + Join(scopes, Lit(", "))
            + Lit(" · index ") + fingerprint + Lit(" · task: ") + OneLine(task) + Lit(" -->\n")
  {
    hide Decimal, Join, OneLine;
  }

  /** What a reader sees of a bundle with sections: the header line, then, section by section, its
      title and its content without the heading line. */
  lemma LaysKeeps(out: Text, line: Text, chunks: seq<Hit>) returns (titles: seq<Text>, bodies: seq<Text>)
    requires chunks != [] && Lays(out, line, chunks)
    ensures Fills(titles, bodies, chunks)
    ensures Squeeze(out) ==
            Squeeze(line) + Flatten(seq(|titles|, k requires 0 <= k < |titles| => Squeeze(titles[k]) + Squeeze(bodies[k])))
  {
    hide Attributes, ShowsContent, Laid, Squeeze, Flatten;
    titles, bodies :| Fills(titles, bodies, chunks) && out == line + Flatten(Laid(titles, bodies));
    LaidKeeps(titles, bodies);
    SqueezeConcat(line, Flatten(Laid(titles, bodies)));
  }

  method Render(id: Text, task: Text, scopes: seq<Text>, fingerprint: Text, chunks: seq<Hit>) returns (out: Text)
    ensures out == Bundle(id, task, scopes, fingerprint, chunks)
    ensures Lays(out,
                 Lit("<!-- briefd bundle ") + id + Lit(" · ") + Decimal(|chunks|) + Lit(" section(s), ~")
                 + Decimal(TotalTokens(chunks)) + Lit(" tokens · scopes: ") + Join(scopes, Lit(", "))
                 + Lit(" · index ") + fingerprint + Lit(" · task: ") + OneLine(task) + Lit(" -->\n"), chunks)
  {
    hide HeadOf, TailOf, SectionHeader, Body, Decimal, Lays, Section, Join, OneLine;
    var total := 0;
    for k := 0 to |chunks|
      invariant total == TotalTokens(chunks[..k])
    {
      assert chunks[..k + 1] == chunks[..k] + [chunks[k]];
      SectionsSnoc(chunks[..k], chunks[k]);
      total := total + chunks[k].tokens;
    }
    assert chunks[..|chunks|] == chunks;
    out := HeadOf(id) + Decimal(|chunks|) + Lit(" section(s), ~") + Decimal(total) + TailOf(task, scopes, fingerprint);
    ghost var head := out;
    for k := 0 to |chunks|
      invariant out == head + Sections(chunks[..k])
    {
      assert chunks[..k + 1] == chunks[..k] + [chunks[k]];
      SectionsSnoc(chunks[..k], chunks[k]);
      out := out + NL;
      out := out + SectionHeader(chunks[k]);
      out := out + NLNL;
      out := out + Body(chunks[k].content);
      out := out + NL;
      SectionAppended(head, Sections(chunks[..k]), chunks[k]);
    }
    if |chunks| == 0 {
      out := out + NothingFound();
    }
    BundleLays(id, task, scopes, fingerprint, chunks);
  }

  lemma SectionAppended(head: Text, before: Text, ch: Hit)
    ensures head + before + NL + SectionHeader(ch) + NLNL + Body(ch.content) + NL == head + (before + Section(ch))
  {
    hide SectionHeader, Body;
  }

  // ----- what the text costs -----

  lemma EndMode(x: Text, r: Rune)
    ensures r.Blank? ==> Run(START, x + [r]).mode.Gap?
    ensures r.Symbol? ==> Run(START, x + [r]).mode.Marks?
    ensures r.Newline? ==> Run(START, x + [r]).mode.Break?
  {
    RunSnoc(START, x, r);
  }

  lemma HeadEnds(id: Text)
    ensures Run(START, HeadOf(id)).mode.Gap?
  {
    var h := HeadOf(id);
    assert h == h[..|h| - 1] + [h[|h| - 1]];
    EndMode(h[..|h| - 1], h[|h| - 1]);
  }

  lemma TailEnds(task: Text, scopes: seq<Text>, fingerprint: Text)
    ensures var t := TailOf(task, scopes, fingerprint); t != [] && t[0].Blank? && Run(START, t).mode.Break?
  {
    hide OneLine, Join;
    var t := TailOf(task, scopes, fingerprint);
    assert t[0] == Lit(" tokens · scopes: ")[0];
    assert t == t[..|t| - 1] + [t[|t| - 1]];
    EndMode(t[..|t| - 1], t[|t| - 1]);
  }

  /** The two numbers of the header line are priced apart from its fixed text. */
  lemma HeaderLineCost(id: Text, task: Text, scopes: seq<Text>, fingerprint: Text, n: nat, total: nat)
    ensures Tokens(HeaderLine(id, task, scopes, fingerprint, n, total)) ==
            Tokens(HeadOf(id)) + CeilDiv(|Decimal(n)|, 3) + Tokens(Lit(" section(s), ~"))
            + CeilDiv(|Decimal(total)|, 3) + Tokens(TailOf(task, scopes, fingerprint))
    ensures Run(START, HeaderLine(id, task, scopes, fingerprint, n, total)).mode.Break?
  {
    hide HeadOf, TailOf, Decimal, Tokens, Run, CeilDiv;
    var a, b, c := HeadOf(id), Lit(" section(s), ~"), TailOf(task, scopes, fingerprint);
    var dn, dt := Decimal(n), Decimal(total);
    DigitCost(dn);
    DigitCost(dt);
    HeadEnds(id);
    TailEnds(task, scopes, fingerprint);
    assert b == b[..|b| - 1] + [b[|b| - 1]];
    EndMode(b[..|b| - 1], b[|b| - 1]);
    assert dn[0] in dn && dt[0] in dt;
    CutBefore(a, dn);
    CutBefore(a + dn, b);
    CutBefore(a + dn + b, dt);
    CutBefore(a + dn + b + dt, c);
  }

  lemma DigitCost(d: Text)
    requires d != [] && forall r :: r in d ==> r.Digit?
    ensures Tokens(d) == CeilDiv(|d|, 3) && Run(START, d).mode.Digits?
  {
    assert forall i :: 0 <= i < |d| ==> d[i] in d;
    DigitRun(d);
  }

  /** The notice for an empty bundle costs at least two tokens. */
  lemma NothingFoundCost(st: State)
    requires st.mode.Break?
    ensures Run(st, NothingFound()).Total() >= st.closed + 2
  {
    var t := NothingFound();
    var first := [Newline, Symbol('(' as nat), Letter('n' as nat)];
    assert t == first + t[3..];
    RunConcat(st, first, t[3..]);
    TotalGrows(Run(st, first), t[3..]);
    assert first == ([Newline] + [Symbol('(' as nat)]) + [Letter('n' as nat)];
    RunOne(st, Newline);
    RunSnoc(st, [Newline], Symbol('(' as nat));
    RunSnoc(st, [Newline] + [Symbol('(' as nat)], Letter('n' as nat));
  }

  lemma BodyBelow(content: Text)
    ensures Tokens(Body(content)) <= Tokens(content)
  {
    hide Tokens, Trim;
    var t := Trim(content);
    TrimBelow(content);
    if t != [] && t[0] == Symbol('#' as nat) {
      var i := Find(t, NL);
      if i < |t| {
        assert t[i..][0] == Newline;
        assert t == t[..i] + NL + t[i + 1..];
        LineSuffixBelow(t[..i], t[i + 1..]);
        TrimBelow(t[i + 1..]);
      } else {
        assert Tokens([]) == 0 by { NoTokens(); }
      }
    }
  }

  lemma NoTokens()
    ensures Tokens([]) == 0
  {}

  /** What Pack reserves for a section covers its text. */
  lemma SectionCost(st: State, ch: Hit)
    requires st.mode.Break?
    ensures Run(st, Section(ch)).mode.Break?
    ensures Run(st, Section(ch)).closed <= st.closed + Tokens(ch.content) + SectionOverhead(ch)
  {
    hide Tokens, Run, SectionHeader, Body;
    var h, b := SectionHeader(ch), Body(ch.content);
    BodyBelow(ch.content);
    assert Section(ch) == NL + h + NL + NL + b + NL;
    RunOne(st, Newline);
    RunConcat(st, NL, h);
    ResumeBelow(st, h);
    RunSnoc(st, NL + h, Newline);
    RunSnoc(st, NL + h + NL, Newline);
    var mid := Run(st, NL + h + NL + NL);
    RunConcat(st, NL + h + NL + NL, b);
    ResumeBelow(mid, b);
    RunSnoc(st, NL + h + NL + NL + b, Newline);
  }

  /** Reserved for the sections of a selection. */
  function SumCost(chunks: seq<Hit>): nat {
    if chunks == [] then 0 else chunks[0].tokens + SectionOverhead(chunks[0]) + SumCost(chunks[1..])
  }

  /** The stored token count of a chunk is the estimate of its content. */
  ghost predicate Priced(chunks: seq<Hit>) {
    forall i :: 0 <= i < |chunks| ==> chunks[i].tokens == Tokens(chunks[i].content)
  }

  lemma {:induction false} SectionsCost(st: State, chunks: seq<Hit>)
    requires st.mode.Break? && Priced(chunks)
    ensures Run(st, Sections(chunks)).mode.Break?
    ensures Run(st, Sections(chunks)).closed <= st.closed + SumCost(chunks)
    decreases |chunks|
  {
    hide Tokens, Section, SectionOverhead;
    if chunks != [] {
      RunConcat(st, Section(chunks[0]), Sections(chunks[1..]));
      SectionCost(st, chunks[0]);
      SectionsCost(Run(st, Section(chunks[0])), chunks[1..]);
    }
  }

  const CANDIDATES := 40
  const MAX_INT := 0x7fff_ffff_ffff_ffff

  function HeaderCost(id: Text, task: Text, scopes: seq<Text>, fingerprint: Text): nat {
    Tokens(Bundle(id, task, scopes, fingerprint, [])) + 4
  }

  /** Header and sections together never cost more than was reserved, real numbers included:
      the four spare tokens and the notice left out pay for the longer numbers. */
  lemma BundleCost(id: Text, task: Text, scopes: seq<Text>, fingerprint: Text, chunks: seq<Hit>)
    requires Priced(chunks) && 0 < |chunks| <= CANDIDATES && TotalTokens(chunks) <= MAX_INT
    ensures Tokens(Bundle(id, task, scopes, fingerprint, chunks)) <=
            HeaderCost(id, task, scopes, fingerprint) + SumCost(chunks)
  {
    hide HeaderLine, Sections, NothingFound, SumCost, Decimal, Run, Priced, TotalTokens;
    var n, total := |chunks|, TotalTokens(chunks);
    var h0 := HeaderLine(id, task, scopes, fingerprint, 0, 0);
    var h := HeaderLine(id, task, scopes, fingerprint, n, total);
    HeaderLineCost(id, task, scopes, fingerprint, 0, 0);
    HeaderLineCost(id, task, scopes, fingerprint, n, total);
    NumbersAreShort(n, total);
    NoTotal();
    RunConcat(START, h0, NothingFound());
    NothingFoundCost(Run(START, h0));
    RunConcat(START, h, Sections(chunks));
    SectionsCost(Run(START, h), chunks);
  }

  lemma NoTotal()
    ensures TotalTokens([]) == 0 && |Decimal(0)| == 1
  {}

  lemma NumbersAreShort(n: nat, total: nat)
    requires n <= CANDIDATES && total <= MAX_INT
    ensures CeilDiv(|Decimal(n)|, 3) <= 1 && CeilDiv(|Decimal(total)|, 3) <= 7
  {
    assert Pow10(3) == 1000;
    NumeralLength(n, DIGITS, 3);
    assert Pow10(5) == 100_000;
    assert Pow10(10) == 10_000_000_000;
    assert Pow10(15) == 1_000_000_000_000_000;
    assert Pow10(19) == 10_000_000_000_000_000_000;
    NumeralLength(total, DIGITS, 19);
  }

  // ----- the header stays one comment -----

  ghost predicate NoDoubleDash(t: Text) {
    forall i :: 0 <= i < |t| - 1 ==> !(t[i] == DASH && t[i + 1] == DASH)
  }

  lemma {:induction false} ReplaceDashesWorks(s: Text)
    ensures NoDoubleDash(ReplaceDashes(s))
    ensures ReplaceDashes(s) != [] && ReplaceDashes(s)[0] == DASH ==> s[0] == DASH && (|s| == 1 || s[1] != DASH)
    ensures OnOneLine(s) ==> OnOneLine(ReplaceDashes(s))
    decreases |s|
  {
    if |s| >= 2 && s[0] == DASH && s[1] == DASH {
      ReplaceDashesWorks(s[2..]);
    } else if s != [] {
      ReplaceDashesWorks(s[1..]);
    }
  }

  lemma {:induction false} FieldsHaveNoSpace(s: Text)
    ensures forall k, i :: 0 <= k < |Fields(s)| && 0 <= i < |Fields(s)[k]| ==> !Fields(s)[k][i].IsSpace()
    decreases |s|
  {
    var t := TrimLeft(s);
    if t != [] {
      var n := FieldLength(t);
      FieldsHaveNoSpace(t[n..]);
      FieldsFirst(s);
      hide Fields, TrimLeft;
      forall k, i | 0 <= k < |Fields(s)| && 0 <= i < |Fields(s)[k]| ensures !Fields(s)[k][i].IsSpace() {
        if k > 0 {
          assert Fields(s)[k] == Fields(t[n..])[k - 1];
        }
      }
    }
  }

  lemma FieldsFirst(s: Text)
    requires TrimLeft(s) != []
    ensures var t := TrimLeft(s); Fields(s) == [t[..FieldLength(t)]] + Fields(t[FieldLength(t)..])
  {
    hide FieldLength, TrimLeft;
  }

  lemma {:induction false} JoinFieldsNoBreak(parts: seq<Text>)
    requires forall k, i :: 0 <= k < |parts| && 0 <= i < |parts[k]| ==> !parts[k][i].IsSpace()
    ensures OnOneLine(Join(parts, SPACE))
  {
    if |parts| > 1 {
      JoinFieldsNoBreak(parts[1..]);
      var rest := Join(parts[1..], SPACE);
      var j := parts[0] + SPACE + rest;
      assert Join(parts, SPACE) == j;
      forall i | 0 <= i < |j| ensures !j[i].IsBreak() {
        if i < |parts[0]| {
          assert j[i] == parts[0][i] && !parts[0][i].IsSpace();
        } else if i > |parts[0]| {
          assert j[i] == rest[i - |parts[0]| - 1];
        }
      }
    }
  }

  /** Whatever a request says, the header line holds it on one line of at most 120 runes, with
      nothing in it that could close the comment early. */
  lemma OneLineSafe(task: Text)
    ensures |OneLine(task)| <= 120 && NoDoubleDash(OneLine(task))
    ensures OnOneLine(OneLine(task))
  {
    hide Fields, Join, ReplaceDashes;
    FieldsHaveNoSpace(task);
    JoinFieldsNoBreak(Fields(task));
    ReplaceDashesWorks(Join(Fields(task), SPACE));
    assert Lit("…")[0] == RuneOf('…') && !RuneOf('…').IsBreak() && RuneOf('…') != DASH;
    var t := ReplaceDashes(Join(Fields(task), SPACE));
    if |t| > 120 {
      assert OneLine(task) == t[..119] + [RuneOf('…')];
    } else {
      assert OneLine(task) == t;
    }
  }

  // ----- what the header says of the request -----

  /** The words of a request: what white space surrounds or separates, in order. */
  lemma FieldsWord(gap: Text, word: Text, rest: Text)
    requires (forall r :: r in gap ==> r.IsSpace()) && word != [] && (forall r :: r in word ==> !r.IsSpace())
    requires rest == [] || rest[0].IsSpace()
    ensures Fields(gap + word + rest) == [word] + Fields(rest)
  {
    hide Fields, TrimLeft, FieldLength;
    var s, t := gap + word + rest, word + rest;
    assert s == gap + t;
    GapTrimmed(gap, t);
    var m := FieldLength(t);
    WordLength(word, rest);
    assert t[..m] == word && t[m..] == rest;
    FieldsFirst(s);
  }

  lemma {:induction false} WordLength(word: Text, rest: Text)
    requires forall r :: r in word ==> !r.IsSpace()
    requires rest == [] || rest[0].IsSpace()
    ensures FieldLength(word + rest) == |word|
  {
    if word != [] {
      WordLength(word[1..], rest);
      assert (word + rest)[1..] == word[1..] + rest;
    } else {
      assert word + rest == rest;
    }
  }

  lemma NoFields(gap: Text)
    requires forall r :: r in gap ==> r.IsSpace()
    ensures Fields(gap) == []
  {
    GapTrimmed(gap, []);
    assert gap + [] == gap;
  }

  lemma GapTrimmed(gap: Text, s: Text)
    requires forall r :: r in gap ==> r.IsSpace()
    requires s == [] || !s[0].IsSpace()
    ensures TrimLeft(gap + s) == s
  {
    hide TrimLeft;
    var x := gap + s;
    var t := TrimLeft(x);
    assert forall k :: 0 <= k < |gap| ==> x[k] in gap;
    assert t != [] ==> t[0] == x[|x| - |t|];
    assert s != [] ==> x[|gap|] == s[0];
    assert |t| == |s|;
  }

  /** Words apart, each of them at least one rune. */
  ghost predicate AreWords(words: seq<Text>) {
    forall k :: 0 <= k < |words| ==> words[k] != [] && forall r :: r in words[k] ==> !r.IsSpace()
  }

  lemma {:induction false} FieldsOfWords(gap: Text, words: seq<Text>, sep: Text, end: Text)
    requires AreWords(words) && sep != []
    requires (forall r :: r in gap ==> r.IsSpace()) && (forall r :: r in sep ==> r.IsSpace()) && (forall r :: r in end ==> r.IsSpace())
    ensures Fields(gap + Join(words, sep) + end) == words
    decreases |words|
  {
    hide Fields;
    if words == [] {
      NoFields(gap + [] + end);
    } else if |words| == 1 {
      FieldsWord(gap, words[0], end);
      NoFields(end);
      assert [words[0]] + [] == words;
    } else {
      var rest := sep + Join(words[1..], sep) + end;
      FieldsOfWords(sep, words[1..], sep, end);
      assert gap + Join(words, sep) + end == gap + words[0] + rest;
      FieldsWord(gap, words[0], rest);
      assert [words[0]] + words[1..] == words;
    }
  }

  lemma {:induction false} DashesKept(s: Text)
    requires NoDoubleDash(s)
    ensures ReplaceDashes(s) == s
  {
    if s != [] {
      DashesKept(s[1..]);
      assert [s[0]] + s[1..] == s;
    }
  }

  /** From the left, each pair of dashes becomes one long dash. */
  lemma {:induction false} DashesReplaced(a: Text, b: Text)
    requires NoDoubleDash(a + [DASH])
    ensures ReplaceDashes(a + [DASH, DASH] + b) == a + [LONG_DASH] + ReplaceDashes(b)
  {
    var s := a + [DASH, DASH] + b;
    if a == [] {
      assert s[2..] == b;
    } else {
      assert (a + [DASH])[1..] == a[1..] + [DASH];
      DashesReplaced(a[1..], b);
      assert s[1..] == a[1..] + [DASH, DASH] + b;
      assert (a + [DASH])[0] == s[0] && (a + [DASH])[1] == s[1];
    }
  }

  /** The header names the request by its words, one space between them, and when that is too long
      by its first 119 runes and an ellipsis. */
  lemma OneLineIs(gap: Text, words: seq<Text>, sep: Text, end: Text)
    requires AreWords(words) && sep != []
    requires (forall r :: r in gap ==> r.IsSpace()) && (forall r :: r in sep ==> r.IsSpace()) && (forall r :: r in end ==> r.IsSpace())
    requires NoDoubleDash(Join(words, [Blank(0x20)]))
    ensures var t := Join(words, [Blank(0x20)]);
      && (|t| <= 120 ==> OneLine(gap + Join(words, sep) + end) == t)
      && (|t| > 120 ==> OneLine(gap + Join(words, sep) + end) == t[..119] + Lit("…"))
  {
    hide Fields, Join, ReplaceDashes;
    FieldsOfWords(gap, words, sep, end);
    DashesKept(Join(words, SPACE));
  }

  lemma OneLineDashes(words: seq<Text>, a: Text, b: Text)
    requires AreWords(words) && Join(words, [Blank(0x20)]) == a + [DASH, DASH] + b
    requires NoDoubleDash(a + [DASH]) && NoDoubleDash(b)
    ensures var t := a + Lit("—") + b;
      && (|t| <= 120 ==> OneLine(Join(words, [Blank(0x20)])) == t)
      && (|t| > 120 ==> OneLine(Join(words, [Blank(0x20)])) == t[..119] + Lit("…"))
  {
    hide Fields, Join, ReplaceDashes;
    FieldsOfWords([], words, SPACE, []);
    assert [] + Join(words, SPACE) + [] == Join(words, SPACE);
    DashesReplaced(a, b);
    DashesKept(b);
    assert Lit("—") == [LONG_DASH];
  }
}
