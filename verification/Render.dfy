/**
 * The client-side template renderer: collect every gap, then splice in reverse.
 * Its result agrees with what the server-side resolver gives the same text.
 */
module Render {
  import opened Wrappers
  import opened References
  import opened Semantics
  import opened Resolver
  import opened Strings

  const SelfEnv := "self"

  type Snapshots = map<string, map<string, string>>

  datatype RenderError = ReservedEnv | Unresolved(missing: seq<Reference>) | FetchFailed(env: string)

  function EnvName(ref: Reference, currentEnv: string): string {
    if ref.envName == SelfEnv then currentEnv else ref.envName
  }

  predicate Has(snapshots: Snapshots, currentEnv: string, ref: Reference) {
    EnvName(ref, currentEnv) in snapshots && ref.keyName in snapshots[EnvName(ref, currentEnv)]
  }

  // ---- What a site reads, in the template's own words ----

  /** The env or key that the site names, "self" meaning the current env, is absent. */
  predicate Gap(snapshots: Snapshots, currentEnv: string, ref: Reference) {
    && (ref.envName == "self" ==> currentEnv !in snapshots || ref.keyName !in snapshots[currentEnv])
    && (ref.envName != "self" ==> ref.envName !in snapshots || ref.keyName !in snapshots[ref.envName])
  }

  /** val is what the snapshots hold for the site, "self" meaning the current env. */
  predicate Read(snapshots: Snapshots, currentEnv: string, ref: Reference, val: string) {
    && (ref.envName == "self" ==> currentEnv in snapshots && ref.keyName in snapshots[currentEnv] && val == snapshots[currentEnv][ref.keyName])
    && (ref.envName != "self" ==>
          ref.envName in snapshots && ref.keyName in snapshots[ref.envName] && val == snapshots[ref.envName][ref.keyName])
  }

  predicate ReadAll(snapshots: Snapshots, currentEnv: string, refs: seq<Reference>, vals: seq<string>) {
    |vals| == |refs| && forall i :: 0 <= i < |refs| ==> Read(snapshots, currentEnv, refs[i], vals[i])
  }

  /** gaps lists the sites of refs that are gaps, each once, in source order. */
  ghost predicate AreGaps(snapshots: Snapshots, currentEnv: string, refs: seq<Reference>, gaps: seq<Reference>) {
    && (forall ref :: ref in gaps <==> ref in refs && Gap(snapshots, currentEnv, ref))
    && Apart(gaps)
  }

  /** Sites in source order that do not overlap. */
  predicate Apart(refs: seq<Reference>) { forall i, j :: 0 <= i < j < |refs| ==> refs[i].end <= refs[j].start }

  lemma HasOrGap(snapshots: Snapshots, currentEnv: string, ref: Reference)
    ensures Has(snapshots, currentEnv, ref) <==> !Gap(snapshots, currentEnv, ref)
    ensures Has(snapshots, currentEnv, ref) ==> Read(snapshots, currentEnv, ref, ValueOf(snapshots, currentEnv, ref))
  {
  }

  lemma MissingInOrder(s: string, snapshots: Snapshots, currentEnv: string, refs: seq<Reference>)
    requires Ordered(s, 0, refs)
    ensures AreGaps(snapshots, currentEnv, refs, Missing(snapshots, currentEnv, refs))
  {
    hide Has, Gap;
    OrderedApart(s, 0, refs);
    MissingApart(snapshots, currentEnv, refs);
    forall ref ensures Has(snapshots, currentEnv, ref) <==> !Gap(snapshots, currentEnv, ref) { HasOrGap(snapshots, currentEnv, ref); }
  }

  lemma {:induction false} MissingApart(snapshots: Snapshots, currentEnv: string, refs: seq<Reference>)
    requires Apart(refs)
    ensures Apart(Missing(snapshots, currentEnv, refs))
    decreases |refs|
  {
    hide Has;
    if refs != [] {
      var front, last := refs[..|refs| - 1], refs[|refs| - 1];
      MissingApart(snapshots, currentEnv, front);
      var m := Missing(snapshots, currentEnv, front);
      forall i | 0 <= i < |m| ensures m[i].end <= last.start {
        assert m[i] in front;
        var k :| 0 <= k < |front| && front[k] == m[i];
        assert refs[k] == m[i];
      }
      ApartAppend(m, last);
    }
  }

  lemma ApartAppend(m: seq<Reference>, last: Reference)
    requires Apart(m) && forall i :: 0 <= i < |m| ==> m[i].end <= last.start
    ensures Apart(m + [last])
  {
  }

  /** The sites whose env or key is absent, in source order. */
  function Missing(snapshots: Snapshots, currentEnv: string, refs: seq<Reference>): (m: seq<Reference>)
    ensures forall ref :: ref in m <==> ref in refs && !Has(snapshots, currentEnv, ref)
  {
    if refs == [] then []
    else
      var front := Missing(snapshots, currentEnv, refs[..|refs| - 1]);
      var last := refs[|refs| - 1];
      assert refs == refs[..|refs| - 1] + [last];
      if Has(snapshots, currentEnv, last) then front else front + [last]
  }

  function ValueOf(snapshots: Snapshots, currentEnv: string, ref: Reference): string {
    if Has(snapshots, currentEnv, ref) then snapshots[EnvName(ref, currentEnv)][ref.keyName] else ""
  }

  /** The snapshot values of the sites refs. */
  function ValuesOf(snapshots: Snapshots, currentEnv: string, refs: seq<Reference>): (vals: seq<string>)
    ensures |vals| == |refs| && forall i :: 0 <= i < |refs| ==> vals[i] == ValueOf(snapshots, currentEnv, refs[i])
  {
    if refs == [] then [] else [ValueOf(snapshots, currentEnv, refs[0])] + ValuesOf(snapshots, currentEnv, refs[1..])
  }

  /** Some site names e, or says "self" and e is the current env. */
  ghost predicate Needs(tmpl: string, currentEnv: string, e: string) {
    || (e != "self" && exists ref :: ref in Matches(tmpl) && ref.envName == e)
    || (e == currentEnv && exists ref :: ref in Matches(tmpl) && ref.envName == "self")
  }

  lemma NeedsByName(tmpl: string, currentEnv: string, e: string)
    ensures Needs(tmpl, currentEnv, e) <==> exists ref :: ref in Matches(tmpl) && EnvName(ref, currentEnv) == e
  {
    hide Matches;
    if ref :| ref in Matches(tmpl) && EnvName(ref, currentEnv) == e {
      assert ref.envName == "self" || ref.envName == e;
    }
    if Needs(tmpl, currentEnv, e) {
      if e != "self" && exists ref :: ref in Matches(tmpl) && ref.envName == e {
        var ref :| ref in Matches(tmpl) && ref.envName == e;
        assert EnvName(ref, currentEnv) == e;
      } else {
        var ref :| ref in Matches(tmpl) && ref.envName == "self";
        assert EnvName(ref, currentEnv) == e;
      }
    }
  }

  /** The code's tests and values, in the template's words. */
  lemma Outcome(tmpl: string, currentEnv: string, snapshots: Snapshots)
    ensures var refs := Matches(tmpl); var missing := Missing(snapshots, currentEnv, refs);
            && AreGaps(snapshots, currentEnv, refs, missing)
            && (missing == [] <==> forall ref :: ref in refs ==> !Gap(snapshots, currentEnv, ref))
            && (missing == [] <==> forall ref :: ref in refs ==> Has(snapshots, currentEnv, ref))
            && (missing == [] ==> ReadAll(snapshots, currentEnv, refs, ValuesOf(snapshots, currentEnv, refs)))
  {
    hide Matches, Has, Gap, Read, ValueOf;
    var refs := Matches(tmpl);
    var missing := Missing(snapshots, currentEnv, refs);
    MatchesOrdered(tmpl);
    MissingInOrder(tmpl, snapshots, currentEnv, refs);
    forall ref | ref in refs ensures Has(snapshots, currentEnv, ref) <==> !Gap(snapshots, currentEnv, ref) {
      HasOrGap(snapshots, currentEnv, ref);
    }
    if missing == [] {
      forall i | 0 <= i < |refs| ensures Read(snapshots, currentEnv, refs[i], ValueOf(snapshots, currentEnv, refs[i])) {
        assert refs[i] in refs;
        HasOrGap(snapshots, currentEnv, refs[i]);
      }
    } else {
      assert missing[0] in missing;
    }
  }

  /** The distinct environments a template needs, "self" read as currentEnv, sorted. */
  method Envs(tmpl: string, currentEnv: string) returns (out: seq<string>)
    ensures Sorted(out) && Distinct(out)
    ensures forall e :: e in out <==> exists ref :: ref in Matches(tmpl) && EnvName(ref, currentEnv) == e
    ensures forall e :: e in out <==> Needs(tmpl, currentEnv, e)
    ensures currentEnv != "self" ==> "self" !in out
  {
    var refs := FindReferences(tmpl);
    var seen: set<string> := {};
    for i := 0 to |refs|
      invariant forall e :: e in seen <==> exists ref :: ref in refs[..i] && EnvName(ref, currentEnv) == e
    {
      assert refs[..i + 1] == refs[..i] + [refs[i]];
      seen := seen + {EnvName(refs[i], currentEnv)};
    }
    assert refs[..|refs|] == refs;
    out := SortedKeys(seen);
    assert forall e :: e in out <==> e in Elements(out);
    forall e ensures Needs(tmpl, currentEnv, e) <==> exists ref :: ref in Matches(tmpl) && EnvName(ref, currentEnv) == e {
      NeedsByName(tmpl, currentEnv, e);
    }
  }

  /** The first pass: collect every gap so that the error reports all at once. */
  method Gaps(currentEnv: string, snapshots: Snapshots, refs: seq<Reference>) returns (missing: seq<Reference>)
    ensures missing == Missing(snapshots, currentEnv, refs)
  {
    hide EnvName;
    missing := [];
    for i := 0 to |refs|
      invariant missing == Missing(snapshots, currentEnv, refs[..i])
    {
      var env := EnvName(refs[i], currentEnv);
      assert refs[..i + 1][..i] == refs[..i];
      if env !in snapshots {
        missing := missing + [refs[i]];
      } else if refs[i].keyName !in snapshots[env] {
        missing := missing + [refs[i]];
      }
    }
    assert refs[..|refs|] == refs;
  }

  /**
   * Succeeds exactly when no site is missing and then substitutes all sites at
   * once; otherwise reports exactly the missing sites and renders nothing.
   */
  method RenderTemplate(tmpl: string, currentEnv: string, snapshots: Snapshots)
    returns (r: Result<string, RenderError>)
    ensures currentEnv == "self" ==> r == Err(ReservedEnv)
    ensures currentEnv != "self" ==> (r.Ok? <==> forall ref :: ref in Matches(tmpl) ==> !Gap(snapshots, currentEnv, ref))
    ensures r.Ok? ==> var refs := Matches(tmpl); var vals := ValuesOf(snapshots, currentEnv, refs);
                      ReadAll(snapshots, currentEnv, refs, vals) && r.value == Substitute(tmpl, refs, vals)
    ensures currentEnv != "self" && r.Err? ==>
              r.error.Unresolved? && AreGaps(snapshots, currentEnv, Matches(tmpl), r.error.missing)
  {
    if currentEnv == SelfEnv { return Err(ReservedEnv); }
    hide Has, ValueOf, Gap, ReadAll, AreGaps, Matches, Missing, EnvName;
    Outcome(tmpl, currentEnv, snapshots);
    var refs := FindReferences(tmpl);
    if refs == [] {
      SubstituteNone(tmpl);
      return Ok(tmpl);
    }
    var missing := Gaps(currentEnv, snapshots, refs);
    if |missing| > 0 {
      return Err(Unresolved(missing));
    }
    var out := Splice(tmpl, currentEnv, snapshots, refs);
    return Ok(out);
  }

  /** The second pass: splice in reverse so that earlier offsets stay valid. */
  method Splice(tmpl: string, currentEnv: string, snapshots: Snapshots, refs: seq<Reference>)
    returns (out: string)
    requires refs == Matches(tmpl)
    requires forall ref :: ref in refs ==> Has(snapshots, currentEnv, ref)
    ensures out == Substitute(tmpl, refs, ValuesOf(snapshots, currentEnv, refs))
  {
    assert Ordered(tmpl, 0, refs);
    hide Matches, Ordered, Substitute;
    out := tmpl;
    SubstituteNone(tmpl);
    var i := |refs|;
    assert refs[i..] == [];
    while i > 0
      invariant 0 <= i <= |refs|
      invariant Ordered(tmpl, 0, refs[i..])
      invariant out == Substitute(tmpl, refs[i..], ValuesOf(snapshots, currentEnv, refs[i..]))
    {
      i := i - 1;
      var ref := refs[i];
      assert ref in refs;
      var val := snapshots[EnvName(ref, currentEnv)][ref.keyName];
      SpliceStep(tmpl, refs, i, val, ValuesOf(snapshots, currentEnv, refs[i + 1..]), out);
      assert refs[i..][0] == ref && refs[i..][1..] == refs[i + 1..];
      out := out[..ref.start] + val + out[ref.end..];
    }
    assert refs[0..] == refs;
  }

  // ---- Agreement with the resolver ----

  /** snapshots holds, by environment name, values the resolver returned. */
  ghost predicate Fetched(cfg: Config, snapshots: Snapshots) {
    forall name :: name in snapshots ==> name in cfg.names && FetchedEnv(cfg, cfg.names[name], snapshots[name])
  }

  ghost predicate FetchedEnv(cfg: Config, e: int, values: map<string, string>) {
    && View(cfg, e).Some? && values.Keys == View(cfg, e).value.Keys
    && forall k :: k in values ==> Meaning(cfg, View(cfg, e).value[k].value) == Some(values[k])
  }

  ghost predicate NoSelf(text: string) { forall ref :: ref in Matches(text) ==> ref.envName != SelfEnv }

  /** The reference with "self" written as the current env. */
  function AsCurrent(ref: Reference, currentEnv: string): Reference {
    if ref.envName == "self" then ref.(envName := currentEnv) else ref
  }

  ghost predicate SitesMeanAs(cfg: Config, currentEnv: string, refs: seq<Reference>, vals: seq<string>) {
    |vals| == |refs| && forall i :: 0 <= i < |refs| ==> SiteMeaning(cfg, AsCurrent(refs[i], currentEnv)) == Some(vals[i])
  }

  /** text is the template with each site replaced by what it means to the resolver in currentEnv. */
  ghost predicate RenderedAs(cfg: Config, tmpl: string, currentEnv: string, text: string) {
    exists vals :: SitesMeanAs(cfg, currentEnv, Matches(tmpl), vals) && text == Substitute(tmpl, Matches(tmpl), vals)
  }

  lemma FetchedSite(cfg: Config, snapshots: Snapshots, currentEnv: string, ref: Reference)
    requires Fetched(cfg, snapshots)
    ensures Has(snapshots, currentEnv, ref) ==> SiteMeaning(cfg, AsCurrent(ref, currentEnv)) == Some(ValueOf(snapshots, currentEnv, ref))
    ensures !Has(snapshots, currentEnv, ref) && EnvName(ref, currentEnv) in snapshots ==>
              SiteMeaning(cfg, AsCurrent(ref, currentEnv)).None?
  {
    var e := EnvName(ref, currentEnv);
    if e in snapshots { assert FetchedEnv(cfg, cfg.names[e], snapshots[e]); }
  }

  /** The rendered text is the template with every site's meaning put in; without "self", the template's meaning. */
  lemma RenderedMeans(cfg: Config, tmpl: string, currentEnv: string, snapshots: Snapshots)
    requires Fetched(cfg, snapshots)
    requires forall ref :: ref in Matches(tmpl) ==> Has(snapshots, currentEnv, ref)
    ensures RenderedAs(cfg, tmpl, currentEnv, Substitute(tmpl, Matches(tmpl), ValuesOf(snapshots, currentEnv, Matches(tmpl))))
    ensures NoSelf(tmpl) ==>
              Meaning(cfg, tmpl) == Some(Substitute(tmpl, Matches(tmpl), ValuesOf(snapshots, currentEnv, Matches(tmpl))))
  {
    hide Fetched, Meaning, SiteMeaning, Matches, Has, ValueOf;
    var refs, vals := Matches(tmpl), ValuesOf(snapshots, currentEnv, Matches(tmpl));
    forall i | 0 <= i < |refs| ensures SiteMeaning(cfg, AsCurrent(refs[i], currentEnv)) == Some(vals[i]) {
      assert refs[i] in refs;
      FetchedSite(cfg, snapshots, currentEnv, refs[i]);
    }
    assert SitesMeanAs(cfg, currentEnv, refs, vals);
    if NoSelf(tmpl) {
      forall i | 0 <= i < |refs| ensures SiteMeaning(cfg, refs[i]) == Some(vals[i]) { assert refs[i] in refs; }
      MeaningCompose(cfg, tmpl, vals);
    }
  }

  /** Values of a resolved snapshot, as the list endpoint sends them. */
  function Values(snap: Snapshot): map<string, string> { map k | k in snap :: snap[k].value }

  lemma ResolvedIsFetched(cfg: Config, e: int, snap: Snapshot)
    requires IsResolved(cfg, e, snap)
    ensures FetchedEnv(cfg, e, Values(snap))
  {
    hide Meaning, View;
    forall k | k in Values(snap) ensures Meaning(cfg, View(cfg, e).value[k].value) == Some(Values(snap)[k]) {
      assert IsResolvedEntry(cfg, View(cfg, e).value[k], snap[k]);
    }
  }

  /** Splicing is safe in every environment the template names. */
  ghost predicate SafeFor(cfg: Config, tmpl: string, env: string) {
    forall ref :: ref in Matches(tmpl) && EnvName(ref, env) in cfg.names ==> SpliceSafe(cfg, cfg.names[EnvName(ref, env)])
  }

  /**
   * The render command: fetch the snapshot of every named environment, then render.
   * It gives the template with each site's meaning put in, "self" meaning env, and
   * finds a gap only where a site has no meaning; without "self" the result is the
   * meaning the resolver gives the template.
   */
  method RenderCommand(cfg: Config, tmpl: string, env: string, pick: Picker) returns (r: Result<string, RenderError>)
    requires cfg.Valid()
    ensures r.Ok? && SafeFor(cfg, tmpl, env) ==> RenderedAs(cfg, tmpl, env, r.value)
    ensures r.Ok? && NoSelf(tmpl) && SafeFor(cfg, tmpl, env) ==> Meaning(cfg, tmpl) == Some(r.value)
    ensures r.Err? && r.error.Unresolved? && SafeFor(cfg, tmpl, env) ==>
              exists ref :: ref in Matches(tmpl) && SiteMeaning(cfg, AsCurrent(ref, env)).None?
    ensures r.Err? && r.error.Unresolved? && NoSelf(tmpl) && SafeFor(cfg, tmpl, env) ==> Meaning(cfg, tmpl).None?
    ensures r.Err? && r.error.FetchFailed? && SafeFor(cfg, tmpl, env) && r.error.env in cfg.names ==>
              exists d :: IsDefect(cfg, cfg.names[r.error.env], d)
  {
    hide Meaning, View, Matches, SpliceSafe, IsDefect, FetchedEnv, IsResolved, IsEvaluated, RoundedOnce, Reported, Substitute, Missing,
         Needs, RenderedAs, Read, Gap, Has, SiteMeaning;
    var names := Envs(tmpl, env);
    var snapshots: Snapshots := map[];
    for i := 0 to |names|
      invariant SafeFor(cfg, tmpl, env) ==> Fetched(cfg, snapshots)
      invariant forall j :: 0 <= j < i ==> names[j] in snapshots
    {
      var name := names[i];
      assert name in names;
      if name !in cfg.names { return Err(FetchFailed(name)); }
      var snap := Resolve(cfg, cfg.names[name], pick);
      if snap.Err? { return Err(FetchFailed(name)); }
      if SafeFor(cfg, tmpl, env) { ResolvedIsFetched(cfg, cfg.names[name], snap.value); }
      snapshots := snapshots[name := Values(snap.value)];
    }
    r := RenderTemplate(tmpl, env, snapshots);
    forall ref: Reference ensures Has(snapshots, env, ref) <==> !Gap(snapshots, env, ref) { HasOrGap(snapshots, env, ref); }
    if SafeFor(cfg, tmpl, env) {
      if r.Ok? {
        RenderedMeans(cfg, tmpl, env, snapshots);
      } else if r.error.Unresolved? {
        var ref :| ref in Matches(tmpl) && !Has(snapshots, env, ref);
        assert EnvName(ref, env) in names;
        FetchedSite(cfg, snapshots, env, ref);
        if NoSelf(tmpl) { GapHasNoMeaning(cfg, tmpl, ref); }
      }
    }
  }

  /** A text with a site that means nothing means nothing. */
  lemma GapHasNoMeaning(cfg: Config, tmpl: string, ref: Reference)
    requires ref in Matches(tmpl) && SiteMeaning(cfg, ref).None?
    ensures Meaning(cfg, tmpl).None?
  {
    hide Matches;
    if HasMeaning(cfg, tmpl) {
      var vals := MeaningSites(cfg, tmpl);
    }
  }

  // ---- A fresh key holding the template ----

  /** cfg with one more row in environment e. */
  function AddRow(cfg: Config, e: int, row: Secret): Config
    requires e in cfg.envs
  {
    cfg.(envs := cfg.envs[e := cfg.envs[e].(rows := cfg.envs[e].rows + [row])])
  }

  /** key is not visible in e. */
  ghost predicate Fresh(cfg: Config, e: int, key: string) {
    forall n :: ViewWithin(cfg, e, n).Some? ==> key !in ViewWithin(cfg, e, n).value
  }

  lemma AddRowOwn(cfg: Config, e: int, row: Secret, f: int)
    requires e in cfg.envs
    ensures OwnOf(AddRow(cfg, e, row), f) == if f == e then OwnOf(cfg, e)[row.key := row] else OwnOf(cfg, f)
  {
    var rows := cfg.envs[e].rows;
    assert (rows + [row])[..|rows|] == rows;
  }

  /** What was visible stays visible and unchanged, everywhere. */
  lemma {:induction false} AddRowView(cfg: Config, e: int, row: Secret, f: int, n: nat)
    requires e in cfg.envs && Fresh(cfg, e, row.key) && ViewWithin(cfg, f, n).Some?
    ensures var v, w := ViewWithin(cfg, f, n), ViewWithin(AddRow(cfg, e, row), f, n);
            w.Some? && forall k :: k in v.value ==> k in w.value && w.value[k] == v.value[k]
    decreases n
  {
    AddRowOwn(cfg, e, row, f);
    if cfg.envs[f].inheritsFrom != "" {
      AddRowView(cfg, e, row, cfg.names[cfg.envs[f].inheritsFrom], n - 1);
    }
    if f == e { assert row.key !in ViewWithin(cfg, e, n).value; }
  }

  lemma AddRowTarget(cfg: Config, e: int, row: Secret, ref: Reference)
    requires e in cfg.envs && Fresh(cfg, e, row.key) && Target(cfg, ref).Some?
    ensures Target(AddRow(cfg, e, row), ref) == Target(cfg, ref)
  {
    var f := cfg.names[ref.envName];
    var n: nat :| ViewWithin(cfg, f, n).Some?;
    ViewIs(cfg, f, n);
    AddRowView(cfg, e, row, f, n);
    ViewIs(AddRow(cfg, e, row), f, n);
  }

  lemma {:induction false} AddRowMeaning(cfg: Config, e: int, row: Secret, text: string, n: nat)
    requires e in cfg.envs && Fresh(cfg, e, row.key) && MeaningWithin(cfg, text, n).Some?
    ensures MeaningWithin(AddRow(cfg, e, row), text, n) == MeaningWithin(cfg, text, n)
    decreases n, 1, 0
  {
    hide Fresh, AddRow, Target;
    AddRowAll(cfg, e, row, Matches(text), n);
  }

  lemma {:induction false} AddRowAll(cfg: Config, e: int, row: Secret, refs: seq<Reference>, n: nat)
    requires e in cfg.envs && Fresh(cfg, e, row.key) && AllWithin(cfg, refs, n).Some?
    ensures AllWithin(AddRow(cfg, e, row), refs, n) == AllWithin(cfg, refs, n)
    decreases n, 0, |refs|
  {
    hide Fresh, AddRow, Target, Matches;
    if refs != [] {
      AddRowTarget(cfg, e, row, refs[0]);
      AddRowMeaning(cfg, e, row, Target(cfg, refs[0]).value.value, n - 1);
      AddRowAll(cfg, e, row, refs[1..], n);
    }
  }

  /** Any resolved snapshot of the extended environment holds the row's meaning under its key. */
  lemma FreshKeyAgrees(cfg: Config, e: int, row: Secret, v: string, snap: Snapshot)
    requires e in cfg.envs && Fresh(cfg, e, row.key) && Meaning(cfg, row.value) == Some(v)
    requires IsResolved(AddRow(cfg, e, row), e, snap)
    ensures row.key in snap && snap[row.key].value == v && snap[row.key].secretID == row.id
  {
    hide Fresh, Matches, MeaningWithin;
    var cfg' := AddRow(cfg, e, row);
    var n: nat :| MeaningWithin(cfg, row.value, n).Some?;
    MeaningIs(cfg, row.value, n);
    AddRowMeaning(cfg, e, row, row.value, n);
    MeaningIs(cfg', row.value, n);
    AddRowOwn(cfg, e, row, e);
    OwnVisible(cfg', e, row.key);
    assert IsResolvedEntry(cfg', View(cfg', e).value[row.key], snap[row.key]);
  }

  /**
   * Rendering a template agrees with storing it under a key that is not visible in
   * e and resolving e: when both succeed, both give the same text.
   */
  method RenderAndStore(cfg: Config, env: string, e: int, row: Secret, pick: Picker)
    returns (rendered: Result<string, RenderError>, stored: Result<Snapshot, Defect>)
    requires cfg.Valid() && e in cfg.envs
    ensures rendered.Ok? && stored.Ok? && NoSelf(row.value) && Fresh(cfg, e, row.key)
            && SafeFor(cfg, row.value, env) && SpliceSafe(AddRow(cfg, e, row), e) ==>
              row.key in stored.value && stored.value[row.key].value == rendered.value
  {
    hide *;
    rendered := RenderCommand(cfg, row.value, env, pick);
    AddRowValid(cfg, e, row);
    stored := Resolve(AddRow(cfg, e, row), e, pick);
    if rendered.Ok? && stored.Ok? && NoSelf(row.value) && Fresh(cfg, e, row.key)
       && SafeFor(cfg, row.value, env) && SpliceSafe(AddRow(cfg, e, row), e)
    {
      FreshKeyAgrees(cfg, e, row, rendered.value, stored.value);
    }
  }

  lemma AddRowValid(cfg: Config, e: int, row: Secret)
    requires cfg.Valid() && e in cfg.envs
    ensures AddRow(cfg, e, row).Valid()
  {
  }
}
