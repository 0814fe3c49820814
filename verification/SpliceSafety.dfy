/**
 * When the resolver's order-independence hypothesis holds, and what happens without it.
 *
 * The resolver scans values again after they were expanded. That is harmless as
 * long as no value that is scanned again spells a new reference.
 */
module SpliceSafety {
  import opened Wrappers
  import opened References
  import opened Semantics
  import opened Resolver

  // ---- A condition an operator can check on the raw rows ----

  /** Every '$' outside a reference is followed, before the next reference or the end, by something that is not "{{". */
  predicate Clean(text: string) { CleanFrom(text, 0, Matches(text)) }

  /** Every stored value that resolving root inherits or follows a reference to is clean; other values may be anything. */
  ghost predicate CleanConfig(cfg: Config, root: int) {
    forall e, key :: Reread(cfg, root, e, key) ==> Clean(Visible(cfg, e, key).value.value)
  }

  lemma {:induction false} RereadInert(cfg: Config, root: int, e: int, key: string, n: nat)
    requires CleanConfig(cfg, root) && Reread(cfg, root, e, key)
    requires MeaningWithin(cfg, Visible(cfg, e, key).value.value, n).Some?
    ensures Inert(MeaningWithin(cfg, Visible(cfg, e, key).value.value, n).value)
    decreases n, 1, 0
  {
    hide Clean, Inert, Visible, Reread;
    RereadReached(cfg, root, e, key);
    var text := Visible(cfg, e, key).value.value;
    SitesInert(cfg, root, e, key, Matches(text), n);
    CleanInert(text, AllWithin(cfg, Matches(text), n).value);
  }

  lemma CleanInert(text: string, vals: seq<string>)
    requires Clean(text) && |vals| == |Matches(text)| && forall i :: 0 <= i < |vals| ==> Inert(vals[i])
    ensures Inert(Substitute(text, Matches(text), vals))
  {
    CleanSubstitute(text, 0, Matches(text), vals);
  }

  lemma {:induction false} SitesInert(cfg: Config, root: int, e: int, key: string, refs: seq<Reference>, n: nat)
    requires CleanConfig(cfg, root) && Reread(cfg, root, e, key)
    requires forall ref :: ref in refs ==> ref in Matches(Visible(cfg, e, key).value.value)
    requires AllWithin(cfg, refs, n).Some?
    ensures forall i :: 0 <= i < |refs| ==> Inert(AllWithin(cfg, refs, n).value[i])
    decreases n, 0, |refs|
  {
    hide Clean, CleanConfig, Inert, Reaches, Visible, Matches, Reread;
    if refs != [] {
      var t := cfg.names[refs[0].envName];
      assert refs[0] in refs;
      RereadReached(cfg, root, e, key);
      TargetReached(cfg, root, e, key, refs[0], t);
      ReferredIsReread(cfg, root, Position(e, key), Position(t, refs[0].keyName));
      RereadInert(cfg, root, t, refs[0].keyName, n - 1);
      SitesInert(cfg, root, e, key, refs[1..], n);
    }
  }

  lemma ReferredIsReread(cfg: Config, root: int, p: Position, q: Position)
    requires Reaches(cfg, root, p.env) && Refers(cfg, p, q) && Visible(cfg, q.env, q.key).Some?
    ensures Reread(cfg, root, q.env, q.key)
  {
  }

  lemma RereadReached(cfg: Config, root: int, e: int, key: string)
    requires Reread(cfg, root, e, key)
    ensures Reaches(cfg, root, e) && Visible(cfg, e, key).Some?
  {
    hide Visible, Reaches, Matches;
    if c :| Reaches(cfg, root, c) && Parent(cfg, c, e) && key !in OwnOf(cfg, c) {
      ReachesStep(cfg, root, c, e);
    } else {
      var p: Position :| Reaches(cfg, root, p.env) && Refers(cfg, p, Position(e, key));
      var ref :| RefersBy(cfg, Visible(cfg, p.env, p.key).value.value, ref, Position(e, key));
      TargetReached(cfg, root, p.env, p.key, ref, e);
    }
  }

  /** Clean rows make splicing safe, whatever the references are. */
  lemma CleanIsSafe(cfg: Config, root: int)
    requires CleanConfig(cfg, root)
    ensures SpliceSafe(cfg, root)
  {
    hide CleanConfig, Visible;
    forall e, key | Reread(cfg, root, e, key) ensures PlainMeaning(cfg, Visible(cfg, e, key).value.value) {
      PlainFromClean(cfg, root, e, key);
    }
  }

  lemma PlainFromClean(cfg: Config, root: int, e: int, key: string)
    requires CleanConfig(cfg, root) && Reread(cfg, root, e, key)
    ensures PlainMeaning(cfg, Visible(cfg, e, key).value.value)
  {
    hide CleanConfig, Visible;
    var text := Visible(cfg, e, key).value.value;
    if Meaning(cfg, text).Some? {
      var n: nat :| MeaningWithin(cfg, text, n).Some?;
      MeaningIs(cfg, text, n);
      RereadInert(cfg, root, e, key, n);
      InertFromNoMatch(Meaning(cfg, text).value, 0);
    }
  }

  /** A text that no reference can start in is clean, such as a password with a '$' in it. */
  lemma InertIsClean(text: string)
    requires Inert(text)
    ensures Clean(text)
  {
    InertFromNoMatch(text, 0);
    assert text[0..] == text;
  }

  // ---- What reading an expanded value again does ----

  /** Expanding m again gives m back if m spells no reference; it gives something else if m does and the result spells none. */
  lemma ReadAgain(cfg: Config, m: string, out: string)
    requires OneExpansion(cfg, m, out)
    ensures Matches(m) == [] ==> out == m
    ensures Matches(out) == [] ==> (out == m <==> Matches(m) == [])
  {
    SubstituteNone(m);
  }

  /** It succeeds only if everything m spells a reference to is there. */
  lemma ReadAgainFinds(cfg: Config, m: string, out: string, ref: Reference)
    requires OneExpansion(cfg, m, out) && ref in Matches(m)
    ensures Target(cfg, ref).Some?
  {
    var vals :| SitesPlanned(cfg, Matches(m), vals) && out == Substitute(m, Matches(m), vals);
    var i :| 0 <= i < |Matches(m)| && Matches(m)[i] == ref;
    assert SitePlanned(cfg, Matches(m)[i], vals[i]);
  }

  /**
   * A text whose meaning spells references with a plain meaning of their own has
   * two different values: the meaning, and what reading it again gives.
   */
  lemma SpelledMeansTwo(cfg: Config, text: string)
    requires HasMeaning(cfg, text) && Matches(Meaning(cfg, text).value) != []
    requires HasMeaning(cfg, Meaning(cfg, text).value)
    ensures var m := Meaning(cfg, text).value; var again := Meaning(cfg, m).value;
            && Planned(cfg, text, m) && Planned(cfg, text, again) && OneExpansion(cfg, m, again)
            && (Matches(again) == [] ==> again != m)
  {
    hide Matches, Substitute, Planned, MeaningWithin;
    PlannedIffMeaning(cfg, text);
    var m := Meaning(cfg, text).value;
    var vals := MeaningSites(cfg, m);
    MeansPlanned(cfg, Matches(m), vals);
    PlanCompose(cfg, text, m, vals);
    ReadAgain(cfg, m, Meaning(cfg, m).value);
  }

  lemma MeansPlanned(cfg: Config, refs: seq<Reference>, vals: seq<string>)
    requires SitesMean(cfg, refs, vals)
    ensures SitesPlanned(cfg, refs, vals)
  {
    hide Planned, Meaning;
    forall i | 0 <= i < |refs| ensures SitePlanned(cfg, refs[i], vals[i]) {
      assert SiteMeaning(cfg, refs[i]) == Some(vals[i]);
      PlannedIffMeaning(cfg, Target(cfg, refs[i]).value.value);
    }
  }

  /** Where no visible value spells a reference, every plan gives the meaning. */
  lemma {:induction false} PlainMeansOne(cfg: Config, text: string, plan: Plan)
    requires PlanValue(cfg, text, plan).Some? && PlainMeaning(cfg, text)
    requires forall e, key :: Visible(cfg, e, key).Some? ==> PlainMeaning(cfg, Visible(cfg, e, key).value.value)
    ensures PlanValue(cfg, text, plan) == Meaning(cfg, text)
    decreases plan
  {
    hide Visible, Matches, Substitute;
    var base := PlanBase(cfg, text, plan.first).value;
    if plan.first.Some? { PlainMeansOne(cfg, text, plan.first.value); }
    var vals := PlanSites(cfg, Matches(base), plan.sites).value;
    PlainSitesMean(cfg, Matches(base), plan.sites);
    MeaningCompose(cfg, base, vals);
    if plan.first.Some? { MeaningPlain(cfg, base); }
  }

  lemma {:induction false} PlainSitesMean(cfg: Config, refs: seq<Reference>, plans: Plans)
    requires PlanSites(cfg, refs, plans).Some?
    requires forall e, key :: Visible(cfg, e, key).Some? ==> PlainMeaning(cfg, Visible(cfg, e, key).value.value)
    ensures SitesMean(cfg, refs, PlanSites(cfg, refs, plans).value)
    decreases plans
  {
    hide Visible, Matches;
    if plans.Then? {
      assert Visible(cfg, cfg.names[refs[0].envName], refs[0].keyName).Some?;
      PlainMeansOne(cfg, Target(cfg, refs[0]).value.value, plans.head);
      PlainSitesMean(cfg, refs[1..], plans.tail);
    }
  }

  // ---- Without safety, the result depends on the order of expansion ----

  const PIECES := "${{A.Y}}{{A.Z}}"
  const READER := "${{A.X}}"
  const SPELLED := "${{A.Z}}"

  /** One environment A: X joins the value of Y, a lone '$', to text that then reads as a reference to Z. */
  function Rows(): seq<Secret> {
    [Secret(1, "W", READER, 1, 0), Secret(2, "X", PIECES, 1, 0), Secret(3, "Y", "$", 1, 0), Secret(4, "Z", "z", 1, 0)]
  }

  function Unsafe(): Config { Config(map[1 := Environment("A", "", Rows())], map["A" := 1]) }

  /** A's snapshot with these values for W and X. */
  function Snap(w: string, x: string): Snapshot {
    map["W" := RawEntry(Rows()[0]).(value := w), "X" := RawEntry(Rows()[1]).(value := x),
        "Y" := RawEntry(Rows()[2]), "Z" := RawEntry(Rows()[3])]
  }

  function Cached(w: string, x: string): map<int, Snapshot> { map[1 := Snap(w, x)] }

  lemma ShortSite(s: string, i: nat, e: char, k: char)
    requires i + 8 <= |s| && OpensAt(s, i) && s[i + 3] == e && s[i + 4] == '.' && s[i + 5] == k && ClosesAt(s, i + 6)
    requires 'A' <= e <= 'Z' && 'A' <= k <= 'Z'
    ensures MatchAt(s, i) == Some(Reference([e], [k], i, i + 8))
  {
    assert SkipSpace(s, i + 3) == i + 3;
    assert SkipName(s, i + 6) == i + 6;
    assert SkipName(s, i + 5) == i + 6;
    assert SkipName(s, i + 4) == i + 6;
    assert SkipName(s, i + 3) == i + 6;
    assert LastDot(s, i + 3, i + 6) == Some(i + 4);
    assert s[i + 3..i + 4] == [e] && s[i + 5..i + 6] == [k];
  }

  /** A text that starts with a short site and has no other '$'. */
  ghost predicate Short(s: string, e: char, k: char) {
    && 8 <= |s| && OpensAt(s, 0) && s[3] == e && s[4] == '.' && s[5] == k && ClosesAt(s, 6)
    && 'A' <= e <= 'Z' && 'A' <= k <= 'Z'
    && forall j :: 8 <= j < |s| ==> s[j] != '$'
  }

  lemma OneSite(s: string, e: char, k: char, v: string)
    requires Short(s, e, k)
    ensures Matches(s) == [Reference([e], [k], 0, 8)]
    ensures Substitute(s, Matches(s), [v]) == v + s[8..]
  {
    ShortSite(s, 0, e, k);
    InertFromNoMatch(s, 8);
    assert Matches(s) == [Reference([e], [k], 0, 8)] + MatchesFrom(s, 8);
    OneSiteSubstitute(s, Matches(s)[0], v);
  }

  lemma OneSiteSubstitute(s: string, r: Reference, v: string)
    requires Ordered(s, 0, [r]) && r.start == 0 && r.end == 8
    ensures Substitute(s, [r], [v]) == v + s[8..]
  {
    assert [r][1..] == [] && [v][1..] == [];
    assert SubstituteFrom(s, 8, [], []) == s[8..];
    assert Substitute(s, [r], [v]) == s[0..0] + (v + s[8..]);
    assert s[0..0] == "";
  }

  lemma PlainIn(cfg: Config, cache: map<int, Snapshot>, text: string, n: nat)
    requires Matches(text) == []
    ensures ExpandIn(cfg, cache, text, n) == Some(text)
  {
    SubstituteNone(text);
  }

  lemma OneSiteIn(cfg: Config, cache: map<int, Snapshot>, text: string, key: char, n: nat, v: string)
    requires n > 0 && "A" in cfg.names && cfg.names["A"] in cache && [key] in cache[cfg.names["A"]]
    requires Matches(text) == [Reference("A", [key], 0, 8)]
    requires ExpandIn(cfg, cache, cache[cfg.names["A"]][[key]].value, n - 1) == Some(v)
    ensures ExpandIn(cfg, cache, text, n) == Some(Substitute(text, Matches(text), [v]))
  {
    var refs := Matches(text);
    assert refs[1..] == [];
    assert SitesIn(cfg, cache, refs, n) == Some([v] + []);
    assert [v] + [] == [v];
  }

  lemma PiecesSpell()
    ensures Matches(PIECES) == [Reference("A", "Y", 0, 8)]
    ensures Substitute(PIECES, Matches(PIECES), ["$"]) == SPELLED
  {
    hide Matches, Substitute;
    assert Short(PIECES, 'A', 'Y');
    OneSite(PIECES, 'A', 'Y', "$");
    assert PIECES[8..] == "{{A.Z}}";
  }

  lemma ReaderSite(v: string)
    ensures Matches(READER) == [Reference("A", "X", 0, 8)]
    ensures Substitute(READER, Matches(READER), [v]) == v
  {
    assert Short(READER, 'A', 'X');
    OneSite(READER, 'A', 'X', v);
    assert v + READER[8..] == v;
  }

  lemma SpelledSite(v: string)
    ensures Matches(SPELLED) == [Reference("A", "Z", 0, 8)]
    ensures Substitute(SPELLED, Matches(SPELLED), [v]) == v
  {
    assert Short(SPELLED, 'A', 'Z');
    OneSite(SPELLED, 'A', 'Z', v);
    assert v + SPELLED[8..] == v;
  }

  lemma PlainText()
    ensures Matches("$") == [] && Matches("z") == []
  {
    InertFromNoMatch("$", 1);
    assert MatchAt("$", 0).None?;
    InertFromNoMatch("z", 0);
  }

  /** X comes out the same at any time. */
  lemma PiecesGive(w: string, x: string)
    ensures Gives(Unsafe(), Cached(w, x), PIECES, SPELLED)
  {
    hide Matches, ExpandIn, Substitute;
    PlainText();
    PiecesSpell();
    PlainIn(Unsafe(), Cached(w, x), "$", 1);
    OneSiteIn(Unsafe(), Cached(w, x), PIECES, 'Y', 2, "$");
  }

  /** W expanded before X keeps the spelled reference as text. */
  lemma ReaderFirst()
    ensures Gives(Unsafe(), Cached(READER, PIECES), READER, SPELLED)
  {
    hide Matches, ExpandIn, Substitute;
    var cfg, cache := Unsafe(), Cached(READER, PIECES);
    PlainText();
    PiecesSpell();
    ReaderSite(SPELLED);
    PlainIn(cfg, cache, "$", 1);
    OneSiteIn(cfg, cache, PIECES, 'Y', 2, "$");
    OneSiteIn(cfg, cache, READER, 'X', 3, SPELLED);
  }

  /** X expanded before W: the reference that X now spells is followed. */
  lemma ReaderLast()
    ensures Gives(Unsafe(), Cached(READER, SPELLED), READER, "z")
  {
    hide Matches, ExpandIn, Substitute;
    var cfg, cache := Unsafe(), Cached(READER, SPELLED);
    PlainText();
    SpelledSite("z");
    ReaderSite("z");
    PlainIn(cfg, cache, "z", 1);
    OneSiteIn(cfg, cache, SPELLED, 'Z', 2, "z");
    OneSiteIn(cfg, cache, READER, 'X', 3, "z");
  }

  lemma PlainGives(w: string, x: string)
    ensures Gives(Unsafe(), Cached(w, x), "$", "$") && Gives(Unsafe(), Cached(w, x), "z", "z")
  {
    hide Matches, ExpandIn;
    PlainText();
    PlainIn(Unsafe(), Cached(w, x), "$", 0);
    PlainIn(Unsafe(), Cached(w, x), "z", 0);
  }

  lemma UnsafeView()
    ensures View(Unsafe(), 1).Some? && View(Unsafe(), 1).value.Keys == {"W", "X", "Y", "Z"}
    ensures var v := View(Unsafe(), 1).value;
            v["W"] == Rows()[0] && v["X"] == Rows()[1] && v["Y"] == Rows()[2] && v["Z"] == Rows()[3]
    ensures RawOwn(Unsafe(), 1) == Snap(READER, PIECES)
  {
    ViewRoot(Unsafe(), 1);
    var rows := Rows();
    assert rows[..3] == [rows[0], rows[1], rows[2]];
    assert rows[..3][..2] == [rows[0], rows[1]];
    assert [rows[0], rows[1]][..1] == [rows[0]];
    assert [rows[0]][..0] == [];
    assert Own([rows[0]]) == map["W" := rows[0]];
    assert Own([rows[0], rows[1]]) == map["W" := rows[0], "X" := rows[1]];
    assert Own(rows[..3]) == map["W" := rows[0], "X" := rows[1], "Y" := rows[2]];
  }

  lemma PiecesMean()
    ensures Meaning(Unsafe(), PIECES) == Some(SPELLED)
  {
    hide Matches, Meaning, Substitute;
    var cfg := Unsafe();
    UnsafeView();
    PlainText();
    PiecesSpell();
    MeaningPlain(cfg, "$");
    var refs := Matches(PIECES);
    assert Target(cfg, refs[0]) == Some(Rows()[2]);
    assert SiteMeaning(cfg, refs[0]) == Some("$");
    MeaningCompose(cfg, PIECES, ["$"]);
  }

  lemma UnsafeReread()
    ensures !SpliceSafe(Unsafe(), 1)
  {
    hide Matches, Meaning, View;
    UnsafeView();
    PiecesMean();
    ReaderSite("");
    SpelledSite("");
    var cfg := Unsafe();
    var ref := Matches(READER)[0];
    assert RefersBy(cfg, READER, ref, Position(1, "X"));
    assert Refers(cfg, Position(1, "W"), Position(1, "X"));
    ReachesSelf(cfg, 1);
    assert Reread(cfg, 1, 1, "X");
    assert !PlainMeaning(cfg, PIECES);
  }

  // ---- Two runs of the resolver ----

  /** The first key of a list that remains. */
  function First(order: seq<string>, rest: set<string>): string {
    if order == [] then "" else if order[0] in rest then order[0] else First(order[1..], rest)
  }

  function PickIn(order: seq<string>): Picker { (e, rest) => First(order, rest) }

  lemma {:induction false} FirstLeft(order: seq<string>, i: nat)
    requires i < |order| && forall a, b :: 0 <= a < b < |order| ==> order[a] != order[b]
    ensures First(order, KeySet(order) - KeySet(order[..i])) == order[i]
    decreases i
  {
    FirstAt(order, KeySet(order) - KeySet(order[..i]), i);
  }

  lemma {:induction false} FirstAt(order: seq<string>, rest: set<string>, i: nat)
    requires i < |order| && order[i] in rest && forall a :: 0 <= a < i ==> order[a] !in rest
    ensures First(order, rest) == order[i]
    decreases i
  {
    if i > 0 { FirstAt(order[1..], rest, i - 1); }
  }

  /** A prefix of a list without repetitions has all its keys only if it is all of it. */
  lemma PrefixIsAll(order: seq<string>, n: nat)
    requires n <= |order| && forall a, b :: 0 <= a < b < |order| ==> order[a] != order[b]
    ensures KeySet(order[..n]) == KeySet(order) <==> n == |order|
  {
    if n == |order| {
      assert order[..n] == order;
    } else {
      assert order[n] in KeySet(order) && order[n] !in KeySet(order[..n]);
    }
  }

  /** With a list of all keys as the choice, the keys come up in that order. */
  lemma {:induction false} FollowsList(order: seq<string>, e: int, done: seq<string>)
    requires forall a, b :: 0 <= a < b < |order| ==> order[a] != order[b]
    requires Follows(PickIn(order), e, KeySet(order), done)
    ensures |done| <= |order| && done == order[..|done|]
    decreases |done|
  {
    hide First;
    if done != [] {
      var front := done[..|done| - 1];
      forall i | 0 <= i < |front| ensures FollowsAt(PickIn(order), e, KeySet(order) - KeySet(front[..i]), front[i]) {
        assert front[..i] == done[..i];
        assert FollowsAt(PickIn(order), e, KeySet(order) - KeySet(done[..i]), done[i]);
      }
      FollowsList(order, e, front);
      assert FollowsAt(PickIn(order), e, KeySet(order) - KeySet(front), done[|done| - 1]);
      PrefixIsAll(order, |order|);
      FirstLeft(order, |front|);
      assert order[|front|] in KeySet(order) - KeySet(front);
    }
  }

  /** One turn of A's loop. */
  lemma TurnW(w: string, x: string, v: string)
    requires Gives(Unsafe(), Cached(w, x), w, v)
    ensures TurnIn(Unsafe(), Cached(w, x), 1, "W", Cached(v, x))
  {
    hide Gives;
    assert Snap(w, x)["W" := Snap(w, x)["W"].(value := v)] == Snap(v, x);
  }

  lemma TurnX(w: string, v: string)
    requires Gives(Unsafe(), Cached(w, PIECES), PIECES, v)
    ensures TurnIn(Unsafe(), Cached(w, PIECES), 1, "X", Cached(w, v))
  {
    hide Gives;
    assert Snap(w, PIECES)["X" := Snap(w, PIECES)["X"].(value := v)] == Snap(w, v);
  }

  lemma TurnYZ(w: string, x: string)
    ensures TurnIn(Unsafe(), Cached(w, x), 1, "Y", Cached(w, x)) && TurnIn(Unsafe(), Cached(w, x), 1, "Z", Cached(w, x))
  {
    hide ExpandIn;
    PlainGives(w, x);
    assert Gives(Unsafe(), Cached(w, x), Snap(w, x)["Y"].value, "$") && Gives(Unsafe(), Cached(w, x), Snap(w, x)["Z"].value, "z");
    assert Snap(w, x)["Y" := Snap(w, x)["Y"].(value := "$")] == Snap(w, x);
    assert Snap(w, x)["Z" := Snap(w, x)["Z"].(value := "z")] == Snap(w, x);
  }

  /** The cache was is enough for every beginning of the order. */
  ghost predicate Begins(was: map<int, Snapshot>, order: seq<string>) {
    forall i :: 0 <= i <= |order| ==> exists c :: RoundIn(Unsafe(), was, 1, order[..i], c)
  }

  /** Four turns make a round, and each of its beginnings is one too. */
  lemma RoundOfFour(was: map<int, Snapshot>, order: seq<string>, c1: map<int, Snapshot>, c2: map<int, Snapshot>, c3: map<int, Snapshot>,
                    c4: map<int, Snapshot>)
    requires |order| == 4
    requires TurnIn(Unsafe(), was, 1, order[0], c1) && TurnIn(Unsafe(), c1, 1, order[1], c2)
    requires TurnIn(Unsafe(), c2, 1, order[2], c3) && TurnIn(Unsafe(), c3, 1, order[3], c4)
    ensures RoundIn(Unsafe(), was, 1, order, c4)
    ensures Begins(was, order)
  {
    hide TurnIn;
    assert RoundIn(Unsafe(), was, 1, order[..0], was);
    assert order[..1][..0] == order[..0] && order[..2][..1] == order[..1] && order[..3][..2] == order[..2];
    assert order[..3] == order[..|order| - 1] && order[..4] == order;
    assert RoundIn(Unsafe(), was, 1, order[..1], c1);
    assert RoundIn(Unsafe(), was, 1, order[..2], c2);
    assert RoundIn(Unsafe(), was, 1, order[..3], c3);
  }

  const READER_FIRST := ["W", "X", "Y", "Z"]
  const READER_LAST := ["X", "W", "Y", "Z"]

  lemma KeyLists()
    ensures KeySet(READER_FIRST) == {"W", "X", "Y", "Z"} && KeySet(READER_LAST) == {"W", "X", "Y", "Z"}
    ensures forall a, b :: 0 <= a < b < 4 ==> READER_FIRST[a] != READER_FIRST[b] && READER_LAST[a] != READER_LAST[b]
  {
    assert "W" == READER_FIRST[0] == READER_LAST[1] && "X" == READER_FIRST[1] == READER_LAST[0];
    assert "Y" == READER_FIRST[2] == READER_LAST[2] && "Z" == READER_FIRST[3] == READER_LAST[3];
    assert "W"[0] == 'W' && "X"[0] == 'X' && "Y"[0] == 'Y' && "Z"[0] == 'Z';
  }

  lemma RoundReaderFirst()
    ensures RoundIn(Unsafe(), Cached(READER, PIECES), 1, READER_FIRST, Cached(SPELLED, SPELLED))
    ensures Begins(Cached(READER, PIECES), READER_FIRST)
  {
    hide TurnIn, RoundIn, Gives, Snap, Unsafe, Begins;
    ReaderFirst();
    TurnW(READER, PIECES, SPELLED);
    PiecesGive(SPELLED, PIECES);
    TurnX(SPELLED, SPELLED);
    TurnYZ(SPELLED, SPELLED);
    RoundOfFour(Cached(READER, PIECES), READER_FIRST, Cached(SPELLED, PIECES), Cached(SPELLED, SPELLED),
                Cached(SPELLED, SPELLED), Cached(SPELLED, SPELLED));
  }

  lemma RoundReaderLast()
    ensures RoundIn(Unsafe(), Cached(READER, PIECES), 1, READER_LAST, Cached("z", SPELLED))
    ensures Begins(Cached(READER, PIECES), READER_LAST)
  {
    hide TurnIn, RoundIn, Gives, Snap, Unsafe, Begins;
    PiecesGive(READER, PIECES);
    TurnX(READER, SPELLED);
    ReaderLast();
    TurnW(READER, SPELLED, "z");
    TurnYZ("z", SPELLED);
    RoundOfFour(Cached(READER, PIECES), READER_LAST, Cached(READER, SPELLED), Cached("z", SPELLED),
                Cached("z", SPELLED), Cached("z", SPELLED));
  }

  /** A list of keys for which the raw cache suffices fixes the outcome. */
  lemma OnlyOutcome(order: seq<string>, final: map<int, Snapshot>, ok: bool, cache: map<int, Snapshot>)
    requires |order| == 4 && KeySet(order) == {"W", "X", "Y", "Z"}
    requires forall a, b :: 0 <= a < b < |order| ==> order[a] != order[b]
    requires RoundIn(Unsafe(), Cached(READER, PIECES), 1, order, final)
    requires Begins(Cached(READER, PIECES), order)
    requires RoundedOnce(Unsafe(), PickIn(order), Cached(READER, PIECES), 1, ok, cache)
    ensures ok && cache == final
  {
    hide Follows, RoundIn;
    var was := Cached(READER, PIECES);
    var done :| Rounded(Unsafe(), PickIn(order), was, 1, done, ok, cache);
    assert was[1].Keys == KeySet(order);
    FollowsList(order, 1, done);
    assert exists c :: RoundIn(Unsafe(), was, 1, order[..|done|], c);
    assert ok;
    PrefixIsAll(order, |done|);
    assert order[..4] == order;
  }

  /**
   * Two runs of the resolver on the same environment, told apart only by the order
   * in which the runtime hands out its keys, that both succeed and differ in W.
   */
  method OrderMatters() returns (first: Result<Snapshot, Defect>, second: Result<Snapshot, Defect>)
    ensures !SpliceSafe(Unsafe(), 1)
    ensures first == Ok(Snap(SPELLED, SPELLED)) && second == Ok(Snap("z", SPELLED))
  {
    hide *;
    UnsafeReread();
    UnsafeView();
    UnsafeIsValid();
    first := Resolve(Unsafe(), 1, PickIn(READER_FIRST));
    second := Resolve(Unsafe(), 1, PickIn(READER_LAST));
    RoundReaderFirst();
    RoundReaderLast();
    KeyLists();
    Ends(READER_FIRST, Cached(SPELLED, SPELLED), first);
    Ends(READER_LAST, Cached("z", SPELLED), second);
  }

  lemma UnsafeIsValid()
    ensures Unsafe().Valid() && IsRoot(Unsafe(), 1)
    ensures forall w, x :: 1 in Cached(w, x) && Cached(w, x)[1] == Snap(w, x)
    ensures map[1 := Snap(READER, PIECES)] == Cached(READER, PIECES)
    ensures |READER_FIRST| == 4 && |READER_LAST| == 4
  {
  }

  lemma Ends(order: seq<string>, final: map<int, Snapshot>, r: Result<Snapshot, Defect>)
    requires |order| == 4 && KeySet(order) == {"W", "X", "Y", "Z"} && 1 in final
    requires forall a, b :: 0 <= a < b < |order| ==> order[a] != order[b]
    requires RoundIn(Unsafe(), Cached(READER, PIECES), 1, order, final) && Begins(Cached(READER, PIECES), order)
    requires exists cache :: RoundedOnce(Unsafe(), PickIn(order), Cached(READER, PIECES), 1, r.Ok?, cache)
                             && (r.Ok? ==> 1 in cache && r.value == cache[1])
    ensures r == Ok(final[1])
  {
    hide *;
    var c :| RoundedOnce(Unsafe(), PickIn(order), Cached(READER, PIECES), 1, r.Ok?, c) && (r.Ok? ==> 1 in c && r.value == c[1]);
    OnlyOutcome(order, final, r.Ok?, c);
  }
}
