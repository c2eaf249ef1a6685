/** The bundle caches: internal/bundle's Compile and Invalidate, internal/store's bundles and drift
    tables, and the order in which cmd/briefd's syncer works on them.  Searching without vectors and
    rendering come in as functions; what they return for the same inputs is always the same. */
module BundleCache {
  import opened Strings
  import opened Keys
  import Lru

  const NO_MODEL := ""
  const SECOND: nat := 1_000_000_000

  /** Paths and contents of the indexed documents. */
  type Knowledge = map<string, string>

  /** Times are nanoseconds; the table keeps whole seconds. */
  datatype Drift = Drift(docPath: string, repo: string, commits: nat, lastChangeAt: nat, lastPath: string)

  datatype Hit = Hit(docPath: string, chunk: string, changes: nat, changedAt: nat)

  datatype Output = Output(content: string, sections: seq<Hit>, truncated: bool)

  datatype Bundle = Bundle(key: string, task: string, scopes: seq<string>, maxTokens: int, fingerprint: string, model: string, output: Output)

  datatype Row = Row(bundle: Bundle, hits: nat)

  /** search ranks the sections of the knowledge for a request, before drift is attached; build packs
      and renders them. */
  datatype Engine = Engine(
    search: (Knowledge, Normal) -> seq<Hit>,
    build: (string, Normal, string, seq<Hit>) -> Output,
    fingerprint: Knowledge -> string)

  // ----- drift -----

  function Stored(d: Drift): Drift {
    d.(lastChangeAt := d.lastChangeAt / SECOND * SECOND)
  }

  /** What a bundle shows of the drift table. */
  function Visible(drift: map<string, Drift>): map<string, (nat, nat)> {
    map p | p in drift :: (drift[p].commits, drift[p].lastChangeAt)
  }

  function TableOf(rows: seq<Drift>): map<string, Drift> {
    if rows == [] then map[]
    else TableOf(rows[..|rows| - 1])[rows[|rows| - 1].docPath := Stored(rows[|rows| - 1])]
  }

  function AttachOne(h: Hit, drift: map<string, Drift>): Hit {
    if h.docPath in drift then h.(changes := drift[h.docPath].commits, changedAt := drift[h.docPath].lastChangeAt) else h
  }

  function Attached(hits: seq<Hit>, drift: map<string, Drift>): seq<Hit> {
    seq(|hits|, i requires 0 <= i < |hits| => AttachOne(hits[i], drift))
  }

  /** Each section gets the commits and the time of its document's row; one without a row stays. */
  lemma AttachedIs(hits: seq<Hit>, drift: map<string, Drift>)
    ensures var r := Attached(hits, drift);
      && |r| == |hits|
      && forall i :: 0 <= i < |hits| ==>
        if hits[i].docPath in drift then
          r[i] == Hit(hits[i].docPath, hits[i].chunk, drift[hits[i].docPath].commits, drift[hits[i].docPath].lastChangeAt)
        else r[i] == hits[i]
  {}

  /** Sections show no more of the drift than is visible. */
  lemma AttachedShowsVisible(hits: seq<Hit>, a: map<string, Drift>, b: map<string, Drift>)
    requires Visible(a) == Visible(b)
    ensures Attached(hits, a) == Attached(hits, b)
  {
    forall i | 0 <= i < |hits| ensures AttachOne(hits[i], a) == AttachOne(hits[i], b) {
      var p := hits[i].docPath;
      assert p in a <==> p in Visible(a);
      assert p in b <==> p in Visible(b);
      if p in a {
        assert Visible(a)[p] == Visible(b)[p];
      }
    }
    assert Attached(hits, a) == Attached(hits, b);
  }

  predicate OnePerDocument(rows: seq<Drift>) {
    forall i, j :: 0 <= i < j < |rows| ==> rows[i].docPath != rows[j].docPath
  }

  predicate Matches(before: map<string, Drift>, d: Drift) {
    && d.docPath in before
    && before[d.docPath].commits == d.commits
    && before[d.docPath].lastChangeAt == Stored(d).lastChangeAt
  }

  predicate Changed(before: map<string, Drift>, rows: seq<Drift>) {
    |before| != |rows| || exists i :: 0 <= i < |rows| && !Matches(before, rows[i])
  }

  lemma {:induction false} TableIs(rows: seq<Drift>)
    requires OnePerDocument(rows)
    ensures |TableOf(rows)| == |rows|
    ensures forall i :: 0 <= i < |rows| ==> rows[i].docPath in TableOf(rows) && TableOf(rows)[rows[i].docPath] == Stored(rows[i])
    ensures forall p :: p in TableOf(rows) ==> exists i :: 0 <= i < |rows| && rows[i].docPath == p
  {
    hide Stored;
    if rows != [] {
      var rest, d := rows[..|rows| - 1], rows[|rows| - 1];
      TableIs(rest);
      assert TableOf(rows) == TableOf(rest)[d.docPath := Stored(d)];
      hide TableOf;
      assert forall i :: 0 <= i < |rest| ==> rest[i] == rows[i];
      assert d.docPath !in TableOf(rest);
      forall i | 0 <= i < |rows|
        ensures rows[i].docPath in TableOf(rows) && TableOf(rows)[rows[i].docPath] == Stored(rows[i])
      {
        if i < |rest| {
          assert rest[i].docPath in TableOf(rest);
        }
      }
      forall p | p in TableOf(rows) ensures exists i :: 0 <= i < |rows| && rows[i].docPath == p {
        if p == d.docPath {
          assert rows[|rows| - 1].docPath == p;
        } else {
          var i :| 0 <= i < |rest| && rest[i].docPath == p;
          assert rows[i].docPath == p;
        }
      }
    }
  }

  /** Comparing row by row reports a change exactly when something visible differs. */
  lemma ChangedIffVisible(before: map<string, Drift>, rows: seq<Drift>)
    requires OnePerDocument(rows)
    ensures Changed(before, rows) <==> Visible(before) != Visible(TableOf(rows))
  {
    hide Visible, TableOf, Matches, Stored;
    TableIs(rows);
    var after := TableOf(rows);
    SizeOf(before);
    SizeOf(after);
    if |before| == |rows| {
      if i :| 0 <= i < |rows| && !Matches(before, rows[i]) {
        MismatchShows(before, after, rows[i]);
      } else {
        MatchesHide(before, after, rows);
      }
    }
  }

  lemma MismatchShows(before: map<string, Drift>, after: map<string, Drift>, d: Drift)
    requires d.docPath in after && after[d.docPath] == Stored(d) && !Matches(before, d)
    ensures Visible(before) != Visible(after)
  {
    assert d.docPath in Visible(after) && Visible(after)[d.docPath] == (d.commits, Stored(d).lastChangeAt);
    assert d.docPath in Visible(before) <==> d.docPath in before;
  }

  lemma MatchesHide(before: map<string, Drift>, after: map<string, Drift>, rows: seq<Drift>)
    requires |before| == |after| && forall i :: 0 <= i < |rows| ==> Matches(before, rows[i])
    requires forall i :: 0 <= i < |rows| ==> rows[i].docPath in after && after[rows[i].docPath] == Stored(rows[i])
    requires forall p :: p in after ==> exists i :: 0 <= i < |rows| && rows[i].docPath == p
    ensures Visible(before) == Visible(after)
  {
    SameSize(before, after, rows);
    forall p | p in after ensures p in before && Visible(before)[p] == Visible(after)[p] {
      var i :| 0 <= i < |rows| && rows[i].docPath == p;
      assert Matches(before, rows[i]);
    }
  }

  lemma SizeOf(drift: map<string, Drift>)
    ensures |Visible(drift)| == |drift|
  {
    assert Visible(drift).Keys == drift.Keys;
  }

  lemma SameSize(before: map<string, Drift>, after: map<string, Drift>, rows: seq<Drift>)
    requires |before| == |after| && forall i :: 0 <= i < |rows| ==> rows[i].docPath in before
    requires forall p :: p in after ==> exists i :: 0 <= i < |rows| && rows[i].docPath == p
    ensures before.Keys == after.Keys
  {
    assert after.Keys <= before.Keys;
    assert |before.Keys - after.Keys| == |before.Keys| - |after.Keys|;
  }

  // ----- what is cached, and what happens to it -----

  datatype State = State(
    knowledge: Knowledge,
    fingerprint: string,
    drift: map<string, Drift>,
    lru: Lru.Cache<Bundle>,
    rows: map<string, Row>,
    uses: seq<string>)

  const INITIAL := State(map[], "", map[], Lru.Cache(map[], []), map[], [])

  function KeyOf(n: Normal, fingerprint: string): string {
    KeyText(n, fingerprint, NO_MODEL)
  }

  /** The bundle compiled for a request from this knowledge and drift. */
  function Made(e: Engine, k: Knowledge, drift: map<string, Drift>, n: Normal, fingerprint: string): Bundle {
    var key := KeyOf(n, fingerprint);
    Bundle(key, n.task, n.scopes, n.maxTokens, fingerprint, NO_MODEL, e.build(key, n, fingerprint, Attached(e.search(k, n), drift)))
  }

  /** What compile would produce now. */
  function MadeNow(e: Engine, s: State, n: Normal): Bundle {
    Made(e, s.knowledge, s.drift, n, s.fingerprint)
  }

  function Bumped(rows: map<string, Row>, key: string): map<string, Row>
    requires key in rows
  {
    rows[key := rows[key].(hits := rows[key].hits + 1)]
  }

  function WithRow(rows: map<string, Row>, b: Bundle): map<string, Row> {
    if b.key in rows then rows else rows[b.key := Row(b, 0)]
  }

  datatype Result = Result(after: State, bundle: Bundle, cached: bool)

  /** Compile: from memory, from the store, or compiled and put into both. */
  function Compiled(e: Engine, s: State, n: Normal): Result {
    var key := KeyOf(n, s.fingerprint);
    if key in s.lru.entries then
      Result(s.(lru := Lru.Touch(s.lru, key), uses := s.uses + [key]), s.lru.entries[key], true)
    else if key in s.rows then
      var b := s.rows[key].bundle;
      Result(s.(rows := Bumped(s.rows, key), lru := Lru.Put(s.lru, key, b), uses := s.uses + [key]), b, true)
    else
      var b := MadeNow(e, s, n);
      Result(s.(rows := WithRow(s.rows, b), lru := Lru.Put(s.lru, key, b), uses := s.uses + [key]), b, false)
  }

  function PrunedRows(rows: map<string, Row>, fingerprint: string): map<string, Row> {
    map key | key in rows && rows[key].bundle.fingerprint == fingerprint :: rows[key]
  }

  /** An index run that succeeded.  It prunes bundles of other fingerprints if it changed something. */
  function Indexed(e: Engine, s: State, k: Knowledge, changed: bool): State {
    var f := e.fingerprint(k);
    s.(knowledge := k, fingerprint := f, rows := if changed then PrunedRows(s.rows, f) else s.rows)
  }

  function Invalidated(s: State): State {
    s.(lru := Lru.Cache(map[], []), rows := map[], uses := [])
  }

  /** New drift rows; the caches are dropped if something visible changed. */
  function DriftChecked(s: State, rows: seq<Drift>): State {
    var t := s.(drift := TableOf(rows));
    if Changed(s.drift, rows) then Invalidated(t) else t
  }

  datatype Event = Index(knowledge: Knowledge, changed: bool) | CheckDrift(rows: seq<Drift>) | Compile(request: Normal)

  /** A run that stored and deleted nothing leaves the knowledge as it was; drift has one row a document. */
  predicate Enabled(s: State, ev: Event) {
    match ev
    case Index(k, changed) => changed || k == s.knowledge
    case CheckDrift(rows) => OnePerDocument(rows)
    case Compile(_) => true
  }

  function Next(e: Engine, s: State, ev: Event): State {
    match ev
    case Index(k, changed) => Indexed(e, s, k, changed)
    case CheckDrift(rows) => DriftChecked(s, rows)
    case Compile(n) => Compiled(e, s, n).after
  }

  // ----- cache coherence -----

  /** Fingerprints tell knowledge apart; none is empty, as the one before any run is. */
  ghost predicate Telling(fingerprint: Knowledge -> string) {
    && (forall k, l :: fingerprint(k) == fingerprint(l) ==> k == l)
    && (forall k :: fingerprint(k) != "" && NUL !in fingerprint(k))
  }

  ghost predicate PrintOf(e: Engine, k: Knowledge, f: string) {
    f == e.fingerprint(k) || (f == "" && k == map[])
  }

  /** Under this key, b is what one of the requests asked so far comes to, for the knowledge its
      fingerprint stands for and the drift of now. */
  ghost predicate Explained(e: Engine, drift: map<string, Drift>, asked: set<Normal>, key: string, b: Bundle) {
    exists n, k, f :: n in asked && PrintOf(e, k, f) && key == KeyOf(n, f) && b == Made(e, k, drift, n, f)
  }

  ghost predicate AllExplained(e: Engine, s: State, asked: set<Normal>) {
    && (forall key :: key in s.lru.entries ==> Explained(e, s.drift, asked, key, s.lru.entries[key]))
    && (forall key :: key in s.rows ==> Explained(e, s.drift, asked, key, s.rows[key].bundle))
  }

  ghost predicate Coherent(e: Engine, s: State, asked: set<Normal>) {
    && PrintOf(e, s.knowledge, s.fingerprint)
    && Lru.Valid(s.lru) && Lru.Recent(s.lru.order, s.uses)
    && AllExplained(e, s, asked)
  }

  ghost function Asking(asked: set<Normal>, ev: Event): set<Normal> {
    if ev.Compile? then asked + {ev.request} else asked
  }

  lemma AskedMore(e: Engine, drift: map<string, Drift>, asked: set<Normal>, more: set<Normal>, key: string, b: Bundle)
    requires Explained(e, drift, asked, key, b) && asked <= more
    ensures Explained(e, drift, more, key, b)
  {
    hide PrintOf, KeyOf, Made;
  }

  lemma SameVisible(e: Engine, a: map<string, Drift>, b: map<string, Drift>, asked: set<Normal>, key: string, bundle: Bundle)
    requires Explained(e, a, asked, key, bundle) && Visible(a) == Visible(b)
    ensures Explained(e, b, asked, key, bundle)
  {
    hide PrintOf, KeyOf, Attached, Visible;
    var n, k, f :| n in asked && PrintOf(e, k, f) && key == KeyOf(n, f) && bundle == Made(e, k, a, n, f);
    AttachedShowsVisible(e.search(k, n), a, b);
    assert bundle == Made(e, k, b, n, f);
  }

  lemma CompileKeeps(e: Engine, s: State, n: Normal, asked: set<Normal>)
    requires Coherent(e, s, asked)
    ensures Coherent(e, Compiled(e, s, n).after, asked + {n})
    ensures Explained(e, s.drift, asked + {n}, KeyOf(n, s.fingerprint), Compiled(e, s, n).bundle)
  {
    hide PrintOf, KeyOf, Made, Explained, Lru.Valid, Lru.Recent, Lru.Put, Lru.Touch;
    var key, answer := KeyOf(n, s.fingerprint), Compiled(e, s, n);
    forall k, b | Explained(e, s.drift, asked, k, b) ensures Explained(e, s.drift, asked + {n}, k, b) {
      AskedMore(e, s.drift, asked, asked + {n}, k, b);
    }
    NowExplained(e, s, n, asked);
    if key in s.lru.entries {
      Lru.TouchKeeps(s.lru, key, s.uses);
      TouchKeepsEntries(s.lru, key);
    } else {
      Lru.PutKeeps(s.lru, key, answer.bundle, s.uses);
    }
  }

  lemma TouchKeepsEntries(c: Lru.Cache<Bundle>, key: string)
    ensures Lru.Touch(c, key).entries == c.entries
  {
  }

  lemma NowExplained(e: Engine, s: State, n: Normal, asked: set<Normal>)
    requires PrintOf(e, s.knowledge, s.fingerprint)
    ensures Explained(e, s.drift, asked + {n}, KeyOf(n, s.fingerprint), MadeNow(e, s, n))
    ensures MadeNow(e, s, n).key == KeyOf(n, s.fingerprint)
  {
    hide PrintOf, KeyOf;
  }

  lemma DriftKeeps(e: Engine, s: State, rows: seq<Drift>, asked: set<Normal>)
    requires Coherent(e, s, asked) && OnePerDocument(rows)
    ensures Coherent(e, DriftChecked(s, rows), asked)
  {
    hide PrintOf, Explained, Visible, TableOf, Changed, OnePerDocument, Lru.Valid, Lru.Recent;
    var t := DriftChecked(s, rows);
    ChangedIffVisible(s.drift, rows);
    if Changed(s.drift, rows) {
      EmptyLru();
    } else {
      forall key, b | Explained(e, s.drift, asked, key, b) ensures Explained(e, t.drift, asked, key, b) {
        SameVisible(e, s.drift, t.drift, asked, key, b);
      }
    }
  }

  lemma EmptyLru()
    ensures var none: Lru.Cache<Bundle> := Lru.Cache(map[], []); Lru.Valid(none) && Lru.Recent([], [])
  {
  }

  /** Each event keeps the caches coherent. */
  lemma EventKeeps(e: Engine, s: State, ev: Event, asked: set<Normal>)
    requires Coherent(e, s, asked) && Enabled(s, ev)
    ensures Coherent(e, Next(e, s, ev), Asking(asked, ev))
  {
    match ev
    case Compile(n) => CompileKeeps(e, s, n, asked);
    case CheckDrift(rows) => DriftKeeps(e, s, rows, asked);
    case Index(k, changed) => { hide Explained, Lru.Valid, Lru.Recent; }
  }

  lemma InitialCoherent(e: Engine)
    ensures Coherent(e, INITIAL, {})
  {
    EmptyLru();
  }

  // ----- transparency -----

  /** When the request clashes with none asked so far, Compile returns what compiling now would,
      cached or not. */
  lemma CompileIsTransparent(e: Engine, s: State, n: Normal, asked: set<Normal>)
    requires Telling(e.fingerprint) && Coherent(e, s, asked) && Tame(n) && forall m :: m in asked ==> Tame(m) && !Clash(n, m)
    ensures Compiled(e, s, n).bundle == MadeNow(e, s, n)
  {
    hide Made, Coherent, Lru.Valid, Lru.Recent, Compiled, Tame, KeyText, Clash;
    CompileKeeps(e, s, n, asked);
    CoherentPrint(e, s, asked);
    var key, b := KeyOf(n, s.fingerprint), Compiled(e, s, n).bundle;
    var m, k, f :| m in asked + {n} && PrintOf(e, k, f) && key == KeyOf(m, f) && b == Made(e, k, s.drift, m, f);
    TameKeysAgreeIff(n, s.fingerprint, m, f, NO_MODEL);
    NoClashWithItself(n);
    assert k == s.knowledge;
  }

  lemma NoClashWithItself(n: Normal)
    ensures !Clash(n, n)
  {}

  lemma CoherentPrint(e: Engine, s: State, asked: set<Normal>)
    requires Coherent(e, s, asked)
    ensures PrintOf(e, s.knowledge, s.fingerprint)
  {
  }

  ghost predicate Trace(e: Engine, events: seq<Event>, states: seq<State>) {
    && |states| == |events| + 1
    && states[0] == INITIAL
    && forall i :: 0 <= i < |events| ==> Enabled(states[i], events[i]) && states[i + 1] == Next(e, states[i], events[i])
  }

  ghost function AskedBy(events: seq<Event>): set<Normal> {
    set ev | ev in events && ev.Compile? :: ev.request
  }

  lemma {:induction false} TraceCoherent(e: Engine, events: seq<Event>, states: seq<State>, i: nat)
    requires Trace(e, events, states) && i < |states|
    ensures Coherent(e, states[i], AskedBy(events[..i]))
  {
    hide Coherent, Next, Enabled;
    if i == 0 {
      InitialCoherent(e);
      assert AskedBy(events[..0]) == {};
    } else {
      TraceCoherent(e, events, states, i - 1);
      EventKeeps(e, states[i - 1], events[i - 1], AskedBy(events[..i - 1]));
      assert events[..i] == events[..i - 1] + [events[i - 1]];
      assert AskedBy(events[..i]) == Asking(AskedBy(events[..i - 1]), events[i - 1]);
    }
  }

  ghost predicate RightAt(e: Engine, events: seq<Event>, states: seq<State>, i: nat)
    requires Trace(e, events, states) && i < |events|
  {
    events[i].Compile? ==> Compiled(e, states[i], events[i].request).bundle == MadeNow(e, states[i], events[i].request)
  }

  /** Over every interleaving of index runs, drift checks and requests, each answer to a request that
      clashes with no earlier one is what compiling at that point would produce, and the memory cache
      stays in order of use, at most 256 long, its order naming exactly what it holds. */
  lemma HistoryIsTransparent(e: Engine, events: seq<Event>, states: seq<State>, i: nat)
    requires Telling(e.fingerprint) && Trace(e, events, states) && i < |events|
    requires forall m :: m in AskedBy(events[..i + 1]) ==> Tame(m)
    requires events[i].Compile? ==> forall m :: m in AskedBy(events[..i]) ==> !Clash(events[i].request, m)
    ensures Lru.Valid(states[i].lru) && Lru.Recent(states[i].lru.order, states[i].uses)
    ensures RightAt(e, events, states, i)
  {
    hide Next, Enabled, Compiled, MadeNow, Tame, Clash, Lru.Valid, Lru.Recent, AskedBy;
    TraceCoherent(e, events, states, i);
    AskedNext(events, i);
    if events[i].Compile? {
      CompileIsTransparent(e, states[i], events[i].request, AskedBy(events[..i]));
    }
  }

  lemma AskedNext(events: seq<Event>, i: nat)
    requires i < |events|
    ensures AskedBy(events[..i + 1]) == Asking(AskedBy(events[..i]), events[i])
  {
    assert events[..i + 1] == events[..i] + [events[i]];
  }

  /** Every answer, in every history that asks only these requests, is right. */
  ghost predicate AlwaysRight(e: Engine, requests: set<Normal>) {
    forall events, states, i: nat :: Trace(e, events, states) && AskedBy(events) <= requests && i < |events| ==>
      RightAt(e, events, states, i)
  }

  /** The caches are transparent for a set of requests exactly when no two of them clash. */
  lemma AlwaysRightIff(e: Engine, requests: set<Normal>)
    requires Telling(e.fingerprint) && forall n :: n in requests ==> Tame(n)
    ensures AlwaysRight(e, requests) <==> forall m, n :: m in requests && n in requests ==> !Clash(m, n)
  {
    hide RightAt, Tame, Clash, Trace, AskedBy;
    if m, n :| m in requests && n in requests && Clash(m, n) {
      ClashIsWrong(e, m, n, requests);
    } else {
      forall events, states, i: nat | Trace(e, events, states) && AskedBy(events) <= requests && i < |events|
        ensures RightAt(e, events, states, i)
      {
        AskedEarlier(events, i);
        HistoryIsTransparent(e, events, states, i);
      }
    }
  }

  lemma AskedEarlier(events: seq<Event>, i: nat)
    requires i < |events|
    ensures AskedBy(events[..i]) <= AskedBy(events[..i + 1]) <= AskedBy(events)
    ensures events[i].Compile? ==> events[i].request in AskedBy(events)
  {
    assert forall ev :: ev in events[..i] ==> ev in events[..i + 1];
    assert forall ev :: ev in events[..i + 1] ==> ev in events;
    assert events[i] in events;
  }

  /** Asking one of two clashing requests after the other is enough to get a wrong answer. */
  lemma ClashIsWrong(e: Engine, m: Normal, n: Normal, requests: set<Normal>)
    requires Clash(m, n) && m in requests && n in requests
    ensures !AlwaysRight(e, requests)
  {
    hide Clash, Compiled, Made;
    var events := [Compile(m), Compile(n)];
    var second := Compiled(e, INITIAL, m).after;
    var states := [INITIAL, second, Compiled(e, second, n).after];
    assert Trace(e, events, states);
    assert AskedBy(events) == {m, n};
    ClashGetsTheOther(e, INITIAL, m, n);
    FirstAnswer(e, INITIAL, m);
    assert !RightAt(e, events, states, 1);
  }

  /** The second of two requests on empty caches is answered right exactly when they do not clash. */
  lemma SecondAnswerIff(e: Engine, s: State, m: Normal, n: Normal)
    requires s.lru == Lru.Cache(map[], []) && s.rows == map[] && NUL !in s.fingerprint && Tame(m) && Tame(n)
    ensures Compiled(e, Compiled(e, s, m).after, n).bundle == MadeNow(e, s, n) <==> !Clash(m, n)
  {
    hide Made, Lru.Valid, Lru.Recent, Lru.Put, Tame, Clash, KeyText;
    TameKeysAgreeIff(m, s.fingerprint, n, s.fingerprint, NO_MODEL);
    FirstAnswer(e, s, m);
    if Clash(m, n) {
      ClashGetsTheOther(e, s, m, n);
    }
  }

  /** The second of two clashing requests gets the bundle of the first, which is not its own. */
  lemma ClashGetsTheOther(e: Engine, s: State, m: Normal, n: Normal)
    requires s.lru == Lru.Cache(map[], []) && s.rows == map[] && Clash(m, n)
    ensures var b := Compiled(e, Compiled(e, s, m).after, n).bundle; b == MadeNow(e, s, m) && b != MadeNow(e, s, n)
  {
    hide KeyText;
    FirstAnswer(e, s, m);
    ClashSharesAKey(m, n, s.fingerprint, NO_MODEL);
    hide Clash, Lru.Put;
    assert MadeNow(e, s, m).scopes == m.scopes && MadeNow(e, s, n).scopes == n.scopes;
    ClashScopes(m, n);
  }

  lemma ClashScopes(m: Normal, n: Normal)
    requires Clash(m, n)
    ensures m.scopes != n.scopes
  {}

  /** On empty caches the answer is made now, and is then found under its key, which alone is cached. */
  lemma FirstAnswer(e: Engine, s: State, m: Normal)
    requires s.lru == Lru.Cache(map[], []) && s.rows == map[]
    ensures var key, b, t := KeyOf(m, s.fingerprint), MadeNow(e, s, m), Compiled(e, s, m).after;
      && t.lru.entries == map[key := b] && t.rows == map[key := Row(b, 0)]
      && t.knowledge == s.knowledge && t.drift == s.drift && t.fingerprint == s.fingerprint
  {
    hide KeyOf;
    var key, b := KeyOf(m, s.fingerprint), MadeNow(e, s, m);
    assert b.key == key;
    hide Made, Lru.Valid, Lru.Recent;
    EmptyLru();
    Lru.PutKeeps(s.lru, key, b, []);
    hide Lru.Put;
  }

  /** A request for scopes "a" and "b" that follows one for the scope "a,b" is answered with the bundle
      of the latter. */
  lemma CommaScopesGetTheOtherBundle(e: Engine, s: State, task: string, maxTokens: int, paths: seq<string>)
    requires s.lru == Lru.Cache(map[], []) && s.rows == map[]
    ensures var m, n := Normal(task, ["a,b"], maxTokens, paths), Normal(task, ["a", "b"], maxTokens, paths);
      var b := Compiled(e, Compiled(e, s, m).after, n).bundle;
      b.scopes == ["a,b"] && b != MadeNow(e, s, n)
  {
    hide Clash, Compiled, MadeNow;
    var m, n := Normal(task, ["a,b"], maxTokens, paths), Normal(task, ["a", "b"], maxTokens, paths);
    CommaScopesClash(task, maxTokens, paths);
    ClashGetsTheOther(e, s, m, n);
    assert MadeNow(e, s, m).scopes == m.scopes by { MadeFor(e, s, m); }
  }

  lemma MadeFor(e: Engine, s: State, m: Normal)
    ensures MadeNow(e, s, m).scopes == m.scopes
  {}

  // ----- the store -----

  class BundleStore {
    const engine: Engine
    var knowledge: Knowledge
    var fingerprint: string
    var drift: map<string, Drift>
    var rows: map<string, Row>

    constructor (engine: Engine)
      ensures this.engine == engine && knowledge == map[] && fingerprint == "" && drift == map[] && rows == map[]
    {
      this.engine := engine;
      knowledge, fingerprint, drift, rows := map[], "", map[], map[];
    }

    /** Bumps the hit counter. */
    method GetBundleByKey(key: string) returns (found: bool, b: Bundle)
      modifies this`rows
      ensures found <==> key in old(rows)
      ensures found ==> b == old(rows[key]).bundle && rows == Bumped(old(rows), key)
      ensures found ==> rows == old(rows)[key := Row(old(rows[key]).bundle, old(rows[key]).hits + 1)]
      ensures !found ==> rows == old(rows)
    {
      found := key in rows;
      if found {
        b := rows[key].bundle;
        rows := rows[key := rows[key].(hits := rows[key].hits + 1)];
      } else {
        b := Bundle("", "", [], 0, "", "", Output("", [], false));
      }
    }

    /** The existing row wins. */
    method PutBundle(b: Bundle)
      modifies this`rows
      ensures rows == WithRow(old(rows), b)
      ensures rows == if b.key in old(rows) then old(rows) else old(rows)[b.key := Row(b, 0)]
    {
      if b.key !in rows {
        rows := rows[b.key := Row(b, 0)];
      }
    }

    method PruneBundles(fingerprint: string)
      modifies this`rows
      ensures rows == PrunedRows(old(rows), fingerprint)
      ensures forall key :: key in rows <==> key in old(rows) && old(rows)[key].bundle.fingerprint == fingerprint
      ensures forall key :: key in rows ==> rows[key] == old(rows)[key]
    {
      rows := map key | key in rows && rows[key].bundle.fingerprint == fingerprint :: rows[key];
    }

    method DeleteAllBundles()
      modifies this`rows
      ensures rows == map[]
    {
      rows := map[];
    }

    /** The end of an index run that left this knowledge. */
    method FinishRun(k: Knowledge, changed: bool)
      modifies this`knowledge, this`fingerprint, this`rows
      ensures knowledge == k && fingerprint == engine.fingerprint(k)
      ensures rows == if changed then PrunedRows(old(rows), fingerprint) else old(rows)
      ensures forall key :: key in rows <==> key in old(rows) && (changed ==> old(rows)[key].bundle.fingerprint == engine.fingerprint(k))
      ensures forall key :: key in rows ==> rows[key] == old(rows)[key]
    {
      knowledge := k;
      fingerprint := engine.fingerprint(k);
      if changed {
        PruneBundles(fingerprint);
      }
    }

    /** Overwrites the table and says whether anything visible changed; two rows for one document are
        an error, and then nothing is changed. */
    method ReplaceDrift(drifts: seq<Drift>) returns (ok: bool, changed: bool)
      modifies this`drift
      ensures ok <==> OnePerDocument(drifts)
      ensures drift == if ok then TableOf(drifts) else old(drift)
      ensures ok ==> (changed <==> Visible(drift) != Visible(old(drift)))
      ensures ok <==> forall i, j :: 0 <= i < j < |drifts| ==> drifts[i].docPath != drifts[j].docPath
      ensures ok ==> (forall p :: p in drift <==> exists i :: 0 <= i < |drifts| && drifts[i].docPath == p)
      ensures ok ==> forall i :: 0 <= i < |drifts| ==>
        var d := drifts[i];
        d.docPath in drift && drift[d.docPath] == Drift(d.docPath, d.repo, d.commits, d.lastChangeAt / 1_000_000_000 * 1_000_000_000, d.lastPath)
      ensures ok ==> (changed <==>
        drift.Keys != old(drift).Keys
        || exists p :: p in drift && (drift[p].commits != old(drift)[p].commits || drift[p].lastChangeAt != old(drift)[p].lastChangeAt))
    {
      hide Visible, TableOf;
      var before := drift;
      changed := |before| != |drifts|;
      for i := 0 to |drifts|
        invariant changed <==> |before| != |drifts| || exists k :: 0 <= k < i && !Matches(before, drifts[k])
      {
        if !Matches(before, drifts[i]) {
          changed := true;
        }
      }
      drift := map[];
      ok := true;
      NoRows(drifts);
      var i := 0;
      while i < |drifts|
        invariant 0 <= i <= |drifts| && OnePerDocument(drifts[..i]) && drift == TableOf(drifts[..i])
      {
        var d := drifts[i];
        RowTaken(drifts, i);
        if d.docPath in drift {
          drift := before;
          return false, changed;
        }
        drift := drift[d.docPath := Stored(d)];
        i := i + 1;
      }
      assert drifts[..i] == drifts;
      ChangedIffVisible(before, drifts);
      WrittenRows(drifts);
      DifferIff(drift, before);
    }

    /** Writes the drift of each section's document into it. */
    method AttachDrift(hits: seq<Hit>) returns (r: seq<Hit>)
      ensures r == Attached(hits, drift)
      ensures |r| == |hits| && forall i :: 0 <= i < |hits| ==>
        if hits[i].docPath in drift then
          r[i] == Hit(hits[i].docPath, hits[i].chunk, drift[hits[i].docPath].commits, drift[hits[i].docPath].lastChangeAt)
        else r[i] == hits[i]
    {
      AttachedIs(hits, drift);
      r := hits;
      if |hits| == 0 || |drift| == 0 {
        NoDrift(hits, drift);
        return;
      }
      for i := 0 to |hits|
        invariant |r| == |hits|
        invariant forall k :: 0 <= k < |hits| ==> r[k] == if k < i then AttachOne(hits[k], drift) else hits[k]
      {
        if r[i].docPath in drift {
          r := r[i := r[i].(changes := drift[r[i].docPath].commits, changedAt := drift[r[i].docPath].lastChangeAt)];
        }
      }
      assert r == Attached(hits, drift);
    }
  }

  lemma WrittenRows(rows: seq<Drift>)
    requires OnePerDocument(rows)
    ensures forall p :: p in TableOf(rows) <==> exists i :: 0 <= i < |rows| && rows[i].docPath == p
    ensures forall i :: 0 <= i < |rows| ==>
      var d := rows[i];
      && d.docPath in TableOf(rows)
      && TableOf(rows)[d.docPath] == Drift(d.docPath, d.repo, d.commits, d.lastChangeAt / 1_000_000_000 * 1_000_000_000, d.lastPath)
  {
    hide TableOf;
    TableIs(rows);
  }

  /** Two tables show something different when their documents differ, or a count or a time does. */
  lemma DifferIff(a: map<string, Drift>, b: map<string, Drift>)
    ensures Visible(a) != Visible(b) <==>
      a.Keys != b.Keys || exists p :: p in a && (a[p].commits != b[p].commits || a[p].lastChangeAt != b[p].lastChangeAt)
  {
    var v, w := Visible(a), Visible(b);
    assert v.Keys == a.Keys && w.Keys == b.Keys;
    if a.Keys == b.Keys {
      assert forall p :: p in a ==> v[p] == (a[p].commits, a[p].lastChangeAt) && w[p] == (b[p].commits, b[p].lastChangeAt);
      if v != w {
        var p :| p in v && v[p] != w[p];
      }
    }
  }

  lemma NoRows(drifts: seq<Drift>)
    ensures TableOf(drifts[..0]) == map[]
  {
  }

  lemma RowTaken(drifts: seq<Drift>, i: nat)
    requires i < |drifts| && OnePerDocument(drifts[..i])
    ensures drifts[i].docPath in TableOf(drifts[..i]) ==> !OnePerDocument(drifts)
    ensures drifts[i].docPath !in TableOf(drifts[..i]) ==> OnePerDocument(drifts[..i + 1])
    ensures TableOf(drifts[..i + 1]) == TableOf(drifts[..i])[drifts[i].docPath := Stored(drifts[i])]
  {
    hide Stored, TableOf;
    var a := drifts[..i];
    TableIs(a);
    TableSnoc(drifts, i);
    var p := drifts[i].docPath;
    if p in TableOf(a) {
      var k :| 0 <= k < |a| && a[k].docPath == p;
      assert drifts[k].docPath == drifts[i].docPath;
    } else {
      OneMoreDocument(drifts, i);
    }
  }

  lemma TableSnoc(drifts: seq<Drift>, i: nat)
    requires i < |drifts|
    ensures TableOf(drifts[..i + 1]) == TableOf(drifts[..i])[drifts[i].docPath := Stored(drifts[i])]
  {
    assert drifts[..i + 1][..i] == drifts[..i];
  }

  lemma OneMoreDocument(drifts: seq<Drift>, i: nat)
    requires i < |drifts| && OnePerDocument(drifts[..i])
    requires forall k :: 0 <= k < i ==> drifts[..i][k].docPath != drifts[i].docPath
    ensures OnePerDocument(drifts[..i + 1])
  {
    var a, b := drifts[..i], drifts[..i + 1];
    forall k, l | 0 <= k < l < |b| ensures b[k].docPath != b[l].docPath {
      assert b[k] == a[k] && (l < i ==> b[l] == a[l]);
    }
  }

  lemma NoDrift(hits: seq<Hit>, drift: map<string, Drift>)
    requires |hits| == 0 || |drift| == 0
    ensures Attached(hits, drift) == hits
  {
    assert |drift| == 0 ==> drift.Keys == {};
  }

  // ----- the compiler -----

  lemma NormalizeIs(req: Request, d: Defaults, n: Normal)
    requires n.task == TrimSpace(req.task)
    requires n.scopes == Canonical(if req.scopes == [] then d.scopes else req.scopes, CleanScope)
    requires n.maxTokens == if req.maxTokens <= 0 then d.maxTokens else req.maxTokens
    requires n.paths == Canonical(req.paths, CleanPath)
    ensures n == Normalize(req, d)
  {
  }

  lemma ValidListed(c: Lru.Cache<Bundle>)
    requires Lru.Valid(c)
    ensures forall k :: k in c.entries ==> k in c.order
  {
  }

  /** The three ways Compiled goes. */
  lemma FromMemory(e: Engine, s: State, n: Normal)
    requires KeyOf(n, s.fingerprint) in s.lru.entries
    ensures var key := KeyOf(n, s.fingerprint);
      Compiled(e, s, n) == Result(
        State(s.knowledge, s.fingerprint, s.drift, Lru.Cache(s.lru.entries, Lru.Used(s.lru.order, key)), s.rows, s.uses + [key]),
        s.lru.entries[key], true)
  {
    hide Lru.Used, KeyOf, MadeNow;
  }

  lemma FromStore(e: Engine, s: State, n: Normal)
    requires KeyOf(n, s.fingerprint) !in s.lru.entries && KeyOf(n, s.fingerprint) in s.rows
    ensures var key := KeyOf(n, s.fingerprint);
      var b := s.rows[key].bundle;
      Compiled(e, s, n) == Result(
        State(s.knowledge, s.fingerprint, s.drift, Lru.Put(s.lru, key, b), Bumped(s.rows, key), s.uses + [key]), b, true)
  {
    hide Lru.Put, Bumped, KeyOf, MadeNow;
  }

  lemma FromScratch(e: Engine, s: State, n: Normal, b: Bundle)
    requires KeyOf(n, s.fingerprint) !in s.lru.entries && KeyOf(n, s.fingerprint) !in s.rows
    requires b == Bundle(KeyOf(n, s.fingerprint), n.task, n.scopes, n.maxTokens, s.fingerprint, NO_MODEL,
      e.build(KeyOf(n, s.fingerprint), n, s.fingerprint, Attached(e.search(s.knowledge, n), s.drift)))
    ensures var key := KeyOf(n, s.fingerprint);
      Compiled(e, s, n) == Result(
        State(s.knowledge, s.fingerprint, s.drift, Lru.Put(s.lru, key, b), WithRow(s.rows, b), s.uses + [key]), b, false)
  {
    hide Lru.Put, WithRow, KeyOf, Attached;
  }

  /** What rendering is given: the sections found, each with the drift of its document. */
  lemma BuiltFrom(e: Engine, s: State, n: Normal) returns (hits: seq<Hit>)
    ensures var found := e.search(s.knowledge, n);
      && |hits| == |found|
      && forall i :: 0 <= i < |found| ==>
        if found[i].docPath in s.drift then
          hits[i] == Hit(found[i].docPath, found[i].chunk, s.drift[found[i].docPath].commits, s.drift[found[i].docPath].lastChangeAt)
        else hits[i] == found[i]
    ensures var key := KeyText(n, s.fingerprint, "");
      MadeNow(e, s, n) == Bundle(key, n.task, n.scopes, n.maxTokens, s.fingerprint, "", e.build(key, n, s.fingerprint, hits))
  {
    hide KeyText, Attached;
    hits := Attached(e.search(s.knowledge, n), s.drift);
    AttachedIs(e.search(s.knowledge, n), s.drift);
  }

  /** The answer in so many words: what memory holds, else what the store holds, else what is made; and
      in the store either one more use or a new row. */
  lemma CompiledIs(e: Engine, s: State, n: Normal)
    ensures var r, key := Compiled(e, s, n), KeyText(n, s.fingerprint, "");
      && r.cached == (key in s.lru.entries || key in s.rows)
      && (key in s.lru.entries ==> r.bundle == s.lru.entries[key] && r.after.rows == s.rows && r.after.lru.entries == s.lru.entries)
      && (key !in s.lru.entries && key in s.rows ==>
            r.bundle == s.rows[key].bundle && r.after.rows == s.rows[key := Row(s.rows[key].bundle, s.rows[key].hits + 1)])
      && (key !in s.lru.entries && key !in s.rows ==> r.bundle == MadeNow(e, s, n) && r.after.rows == s.rows[key := Row(r.bundle, 0)])
      && r.after.knowledge == s.knowledge && r.after.fingerprint == s.fingerprint && r.after.drift == s.drift
  {
    hide KeyText, Attached, Lru.Put, Lru.Used;
    var key := KeyOf(n, s.fingerprint);
    assert MadeNow(e, s, n).key == key;
  }

  /** hits are the sections found with the drift of their documents. */
  ghost predicate HasDrift(hits: seq<Hit>, found: seq<Hit>, drift: map<string, Drift>) {
    && |hits| == |found|
    && forall i :: 0 <= i < |found| ==>
      if found[i].docPath in drift then
        hits[i] == Hit(found[i].docPath, found[i].chunk, drift[found[i].docPath].commits, drift[found[i].docPath].lastChangeAt)
      else hits[i] == found[i]
  }

  lemma RowsAfter(e: Engine, s: State, n: Normal)
    ensures var r, key := Compiled(e, s, n), KeyText(n, s.fingerprint, "");
      && (key in s.lru.entries ==> r.after.rows == s.rows)
      && (key !in s.lru.entries && key in s.rows ==> r.after.rows == s.rows[key := Row(r.bundle, s.rows[key].hits + 1)])
      && (!r.cached ==> r.after.rows == s.rows[key := Row(r.bundle, 0)])
  {
    hide KeyText, Compiled, MadeNow;
    CompiledIs(e, s, n);
  }

  /** The memory cache has the answer afterwards, used last; what it had before it still has, the entry
      used longest ago aside when it was full and the key is new. */
  lemma CompiledRemembers(e: Engine, s: State, n: Normal)
    requires Lru.Valid(s.lru) && Lru.Recent(s.lru.order, s.uses)
    ensures var r, key := Compiled(e, s, n), KeyText(n, s.fingerprint, "");
      && key in r.after.lru.entries && r.after.lru.entries[key] == r.bundle
      && r.after.uses == s.uses + [key] && Lru.Valid(r.after.lru) && Lru.Recent(r.after.lru.order, r.after.uses)
      && (forall x :: x in r.after.lru.entries && x != key ==> x in s.lru.entries && r.after.lru.entries[x] == s.lru.entries[x])
      && forall x :: x in s.lru.entries && x !in r.after.lru.entries ==>
           |s.lru.order| == 256 && key !in s.lru.entries && x == s.lru.order[0]
  {
    hide KeyText, Attached, Lru.Used, Lru.Valid, Lru.Recent, MadeNow, Lru.Put;
    var key := KeyOf(n, s.fingerprint);
    if key in s.lru.entries {
      Lru.TouchKeeps(s.lru, key, s.uses);
    } else {
      var b := if key in s.rows then s.rows[key].bundle else MadeNow(e, s, n);
      Lru.PutKeeps(s.lru, key, b, s.uses);
    }
  }

  lemma AnswerIs(e: Engine, s: State, n: Normal, b: Bundle)
    requires b == Compiled(e, s, n).bundle
    ensures var key, cached := KeyText(n, s.fingerprint, ""), Compiled(e, s, n).cached;
      && cached == (key in s.lru.entries || key in s.rows)
      && (key in s.lru.entries ==> b == s.lru.entries[key])
      && (key !in s.lru.entries && key in s.rows ==> b == s.rows[key].bundle)
      && (!cached ==> exists hits ::
            && HasDrift(hits, e.search(s.knowledge, n), s.drift)
            && b == Bundle(key, n.task, n.scopes, n.maxTokens, s.fingerprint, "", e.build(key, n, s.fingerprint, hits)))
  {
    hide KeyText, Compiled, MadeNow;
    CompiledIs(e, s, n);
    var hits := BuiltFrom(e, s, n);
    assert HasDrift(hits, e.search(s.knowledge, n), s.drift);
  }

  class Compiler {
    const store: BundleStore
    const defaults: Defaults
    var lru: map<string, Bundle>
    /** Least recently used first. */
    var order: seq<string>
    ghost var uses: seq<string>

    ghost function Snapshot(): State
      reads this, store
    {
      State(store.knowledge, store.fingerprint, store.drift, Lru.Cache(lru, order), store.rows, uses)
    }

    constructor (store: BundleStore, defaults: Defaults)
      ensures this.store == store && this.defaults == defaults && lru == map[] && order == [] && uses == []
    {
      this.store := store;
      this.defaults := defaults;
      lru, order, uses := map[], [], [];
    }

    method Touch(key: string)
      requires key in order
      modifies this`order
      ensures order == Lru.Used(old(order), key)
    {
      var i := 0;
      while order[i] != key
        invariant 0 <= i < |order| && order == old(order) && forall k :: 0 <= k < i ==> order[k] != key
        decreases |order| - i
      {
        i := i + 1;
      }
      Lru.WithoutAt(order, i);
      order := order[..i] + order[i + 1..] + [key];
    }

    method LruGet(key: string) returns (found: bool, b: Bundle)
      requires forall k :: k in lru ==> k in order
      modifies this`order, this`uses
      ensures found <==> key in lru
      ensures found ==> b == lru[key] && order == Lru.Used(old(order), key) && uses == old(uses) + [key]
      ensures !found ==> order == old(order) && uses == old(uses)
    {
      found := key in lru;
      if found {
        Touch(key);
        uses := uses + [key];
        b := lru[key];
      } else {
        b := Bundle("", "", [], 0, "", "", Output("", [], false));
      }
    }

    method LruPut(key: string, b: Bundle)
      requires forall k :: k in lru ==> k in order
      modifies this`lru, this`order, this`uses
      ensures Lru.Cache(lru, order) == Lru.Put(old(Lru.Cache(lru, order)), key, b) && uses == old(uses) + [key]
    {
      uses := uses + [key];
      if key in lru {
        lru := lru[key := b];
        Touch(key);
        return;
      }
      lru := lru[key := b];
      order := order + [key];
      while |order| > Lru.SIZE
        invariant Lru.Evict(Lru.Cache(lru, order)) == Lru.Put(old(Lru.Cache(lru, order)), key, b)
        invariant uses == old(uses) + [key]
      {
        lru := lru - {order[0]};
        order := order[1..];
      }
    }

    /** From memory, from the store, or compiled and put into both. */
    method Answer(n: Normal) returns (b: Bundle, cached: bool)
      requires forall k :: k in lru ==> k in order
      modifies this, store`rows
      ensures Result(Snapshot(), b, cached) == Compiled(store.engine, old(Snapshot()), n)
    {
      hide *;
      ghost var before := Snapshot();
      SnapshotIs();
      var fingerprint := store.fingerprint;
      var key := KeyOf(n, fingerprint);
      var found;
      found, b := LruGet(key);
      if found {
        cached := true;
        FromMemory(store.engine, before, n);
        SnapshotIs();
        return;
      }
      found, b := store.GetBundleByKey(key);
      if found {
        LruPut(key, b);
        cached := true;
        FromStore(store.engine, before, n);
        SnapshotIs();
        return;
      }
      var hits := store.engine.search(store.knowledge, n);
      hits := store.AttachDrift(hits);
      b := Bundle(key, n.task, n.scopes, n.maxTokens, fingerprint, NO_MODEL, store.engine.build(key, n, fingerprint, hits));
      cached := false;
      store.PutBundle(b);
      LruPut(key, b);
      FromScratch(store.engine, before, n, b);
      SnapshotIs();
    }

    /** Nothing for an empty task.  Otherwise the bundle of the normalized request. */
    method Compile(req: Request) returns (ok: bool, b: Bundle, cached: bool)
      requires Lru.Valid(Lru.Cache(lru, order))
      modifies this, store`rows
      ensures ok <==> Normalize(req, defaults).task != ""
      ensures !ok ==> Snapshot() == old(Snapshot())
      ensures ok ==> Result(Snapshot(), b, cached) == Compiled(store.engine, old(Snapshot()), Normalize(req, defaults))
      ensures ok ==>
        var n := Normalize(req, defaults);
        var key := KeyText(n, old(store.fingerprint), "");
        && cached == (key in old(lru) || key in old(store.rows))
        && (key in old(lru) ==> b == old(lru)[key])
        && (key !in old(lru) && key in old(store.rows) ==> b == old(store.rows)[key].bundle)
        && (!cached ==> exists hits ::
              && HasDrift(hits, store.engine.search(store.knowledge, n), store.drift)
              && b == Bundle(key, n.task, n.scopes, n.maxTokens, store.fingerprint, "", store.engine.build(key, n, store.fingerprint, hits)))
        && (key in old(lru) ==> store.rows == old(store.rows))
        && (key !in old(lru) && key in old(store.rows) ==> store.rows == old(store.rows)[key := Row(b, old(store.rows)[key].hits + 1)])
        && (!cached ==> store.rows == old(store.rows)[key := Row(b, 0)])
    {
      hide *;
      b, cached := Bundle("", "", [], 0, "", "", Output("", [], false)), false;
      var task := TrimSpace(req.task);
      var scopes := NormalizeList(if req.scopes == [] then defaults.scopes else req.scopes, CleanScope);
      var maxTokens := if req.maxTokens <= 0 then defaults.maxTokens else req.maxTokens;
      var paths := NormalizeList(req.paths, CleanPath);
      var n := Normal(task, scopes, maxTokens, paths);
      NormalizeIs(req, defaults, n);
      ok := task != "";
      if ok {
        ValidListed(Lru.Cache(lru, order));
        ghost var before := Snapshot();
        SnapshotIs();
        b, cached := Answer(n);
        SnapshotIs();
        AnswerIs(store.engine, before, n, b);
        RowsAfter(store.engine, before, n);
      }
    }

    lemma SnapshotIs()
      ensures Snapshot() == State(store.knowledge, store.fingerprint, store.drift, Lru.Cache(lru, order), store.rows, uses)
    {
    }

    /** Both caches are empty afterwards. */
    method Invalidate()
      modifies this, store`rows
      ensures Snapshot() == Invalidated(old(Snapshot()))
      ensures lru == map[] && order == [] && store.rows == map[]
      ensures store.knowledge == old(store.knowledge) && store.fingerprint == old(store.fingerprint) && store.drift == old(store.drift)
    {
      lru, order, uses := map[], [], [];
      store.DeleteAllBundles();
    }
  }

  /** The end of the syncer's drift check: the table is replaced, then the caches are dropped if that
      changed anything a bundle shows. */
  method StoreDrift(c: Compiler, rows: seq<Drift>) returns (ok: bool)
    modifies c, c.store`drift, c.store`rows
    ensures ok <==> OnePerDocument(rows)
    ensures c.Snapshot() == if ok then DriftChecked(old(c.Snapshot()), rows) else old(c.Snapshot())
    ensures ok <==> forall i, j :: 0 <= i < j < |rows| ==> rows[i].docPath != rows[j].docPath
    ensures ok && Visible(c.store.drift) != Visible(old(c.store.drift)) ==> c.lru == map[] && c.order == [] && c.store.rows == map[]
    ensures !ok || Visible(c.store.drift) == Visible(old(c.store.drift)) ==>
      c.lru == old(c.lru) && c.order == old(c.order) && c.store.rows == old(c.store.rows)
  {
    hide Visible, TableOf;
    ghost var before := c.store.drift;
    var changed;
    ok, changed := c.store.ReplaceDrift(rows);
    if ok {
      ChangedIffVisible(before, rows);
      if changed {
        c.Invalidate();
      }
    }
  }
}
