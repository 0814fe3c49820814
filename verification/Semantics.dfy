/**
 * What a configuration means, independently of any evaluation order.
 *
 * Both notions are inductive: a view or a meaning exists when some finite
 * unfolding produces it. Inheritance cycles and reference cycles have none.
 */
module Semantics {
  import opened Wrappers
  import opened References

  /** A live row of the secrets table, opened. */
  datatype Secret = Secret(id: int, key: string, value: string, version: int, updatedAt: int)

  /** A row of the environments table with the secrets it owns. "" means no inheritance. */
  datatype Environment = Environment(name: string, inheritsFrom: string, rows: seq<Secret>)

  /** Environments by id, and the name lookup of one project. */
  datatype Config = Config(envs: map<int, Environment>, names: map<string, int>) {
    ghost predicate Valid() { forall n :: n in names ==> names[n] in envs }
  }

  /** One entry of a snapshot. */
  datatype ResolvedSecret = ResolvedSecret(secretID: int, value: string, version: int, updatedAt: int)

  type Snapshot = map<string, ResolvedSecret>

  /** The secrets an environment owns, by key. */
  function Own(rows: seq<Secret>): map<string, Secret> {
    if rows == [] then map[]
    else var last := rows[|rows| - 1]; Own(rows[..|rows| - 1])[last.key := last]
  }

  /** A key is owned with the last row that bears it. */
  lemma {:induction false} OwnIsLast(rows: seq<Secret>, i: nat)
    requires i < |rows| && forall j :: i < j < |rows| ==> rows[j].key != rows[i].key
    ensures rows[i].key in Own(rows) && Own(rows)[rows[i].key] == rows[i]
    decreases |rows|
  {
    if i < |rows| - 1 {
      var front := rows[..|rows| - 1];
      assert rows[|rows| - 1].key != rows[i].key;
      assert front[i] == rows[i];
      OwnIsLast(front, i);
    }
  }

  function OwnOf(cfg: Config, e: int): map<string, Secret> {
    if e in cfg.envs then Own(cfg.envs[e].rows) else map[]
  }

  /** e inherits from p. */
  predicate Parent(cfg: Config, e: int, p: int) {
    && e in cfg.envs && cfg.envs[e].inheritsFrom != ""
    && cfg.envs[e].inheritsFrom in cfg.names && cfg.names[cfg.envs[e].inheritsFrom] == p
  }

  predicate IsRoot(cfg: Config, e: int) { e in cfg.envs && cfg.envs[e].inheritsFrom == "" }

  // ---- Inheritance ----

  /** The inherited view of e, unfolding at most n environments. Child wins. */
  ghost function ViewWithin(cfg: Config, e: int, n: nat): Option<map<string, Secret>>
    decreases n
  {
    if n == 0 || e !in cfg.envs then None
    else
      var from := cfg.envs[e].inheritsFrom;
      if from == "" then Some(OwnOf(cfg, e))
      else if from !in cfg.names then None
      else match ViewWithin(cfg, cfg.names[from], n - 1)
        case None => None
        case Some(m) => Some(m + OwnOf(cfg, e))
  }

  ghost predicate HasView(cfg: Config, e: int) { exists n :: ViewWithin(cfg, e, n).Some? }

  /** The inherited view of e, if inheritance from e ends. */
  ghost function View(cfg: Config, e: int): (v: Option<map<string, Secret>>)
    ensures v.Some? <==> HasView(cfg, e)
  {
    if HasView(cfg, e) then
      var n: nat :| ViewWithin(cfg, e, n).Some?; ViewWithin(cfg, e, n)
    else None
  }

  lemma {:induction false} ViewMonotone(cfg: Config, e: int, n: nat, m: nat)
    requires n <= m && ViewWithin(cfg, e, n).Some?
    ensures ViewWithin(cfg, e, m) == ViewWithin(cfg, e, n)
    decreases n
  {
    if cfg.envs[e].inheritsFrom != "" {
      ViewMonotone(cfg, cfg.names[cfg.envs[e].inheritsFrom], n - 1, m - 1);
    }
  }

  lemma ViewIs(cfg: Config, e: int, n: nat)
    requires ViewWithin(cfg, e, n).Some?
    ensures View(cfg, e) == ViewWithin(cfg, e, n)
  {
    var k: nat :| ViewWithin(cfg, e, k).Some? && View(cfg, e) == ViewWithin(cfg, e, k);
    if k <= n { ViewMonotone(cfg, e, k, n); } else { ViewMonotone(cfg, e, n, k); }
  }

  lemma ViewRoot(cfg: Config, e: int)
    requires IsRoot(cfg, e)
    ensures View(cfg, e) == Some(OwnOf(cfg, e))
  {
    ViewIs(cfg, e, 1);
  }

  lemma ViewChild(cfg: Config, e: int, p: int)
    requires Parent(cfg, e, p)
    ensures View(cfg, e) == match View(cfg, p) case None => None case Some(m) => Some(m + OwnOf(cfg, e))
  {
    if View(cfg, p).Some? {
      var n: nat :| ViewWithin(cfg, p, n).Some?;
      ViewIs(cfg, p, n);
      ViewIs(cfg, e, n + 1);
    } else {
      forall n: nat ensures ViewWithin(cfg, e, n).None? {
        if n > 0 { assert !ViewWithin(cfg, p, n - 1).Some?; }
      }
    }
  }

  /** The secret visible under key in e. */
  ghost function Visible(cfg: Config, e: int, key: string): Option<Secret> {
    match View(cfg, e)
    case None => None
    case Some(m) => if key in m then Some(m[key]) else None
  }

  /** A walk up the inheritance edges. */
  ghost predicate InheritWalk(cfg: Config, w: seq<int>) {
    w != [] && forall i {:trigger w[i]} :: 0 < i < |w| ==> Parent(cfg, w[i - 1], w[i])
  }

  /** The visible secret is the one of the nearest owner up the chain. */
  lemma {:induction false} NearestOwner(cfg: Config, e: int, key: string, n: nat) returns (w: seq<int>)
    requires ViewWithin(cfg, e, n).Some? && key in ViewWithin(cfg, e, n).value
    ensures InheritWalk(cfg, w) && w[0] == e
    ensures var owner := w[|w| - 1];
            key in OwnOf(cfg, owner) && OwnOf(cfg, owner)[key] == ViewWithin(cfg, e, n).value[key]
    ensures forall i :: 0 <= i < |w| - 1 ==> key !in OwnOf(cfg, w[i])
    decreases n
  {
    if key in OwnOf(cfg, e) {
      w := [e];
    } else {
      var p := cfg.names[cfg.envs[e].inheritsFrom];
      var u := NearestOwner(cfg, p, key, n - 1);
      w := [e] + u;
    }
  }

  // ---- References ----

  /** The value a reference site reads, before expansion. */
  ghost function Target(cfg: Config, ref: Reference): Option<Secret> {
    if ref.envName in cfg.names then Visible(cfg, cfg.names[ref.envName], ref.keyName) else None
  }

  /** Meaning of a text with at most n levels of references followed. */
  ghost function MeaningWithin(cfg: Config, text: string, n: nat): Option<string>
    decreases n, 1, 0
  {
    match AllWithin(cfg, Matches(text), n)
    case None => None
    case Some(vals) => Some(Substitute(text, Matches(text), vals))
  }

  ghost function AllWithin(cfg: Config, refs: seq<Reference>, n: nat): (r: Option<seq<string>>)
    ensures r.Some? ==> |r.value| == |refs|
    decreases n, 0, |refs|
  {
    if refs == [] then Some([])
    else match (SiteWithin(cfg, refs[0], n), AllWithin(cfg, refs[1..], n))
      case (Some(v), Some(vs)) => Some([v] + vs)
      case _ => None
  }

  ghost function SiteWithin(cfg: Config, ref: Reference, n: nat): Option<string>
    decreases n, 0, 0
  {
    if n == 0 || Target(cfg, ref).None? then None
    else MeaningWithin(cfg, Target(cfg, ref).value.value, n - 1)
  }

  ghost predicate HasMeaning(cfg: Config, text: string) { exists n :: MeaningWithin(cfg, text, n).Some? }

  /** The text with every reference replaced by the meaning of its target. */
  ghost function Meaning(cfg: Config, text: string): (v: Option<string>)
    ensures v.Some? <==> HasMeaning(cfg, text)
  {
    if HasMeaning(cfg, text) then
      var n: nat :| MeaningWithin(cfg, text, n).Some?; MeaningWithin(cfg, text, n)
    else None
  }

  ghost function SiteMeaning(cfg: Config, ref: Reference): Option<string> {
    match Target(cfg, ref)
    case None => None
    case Some(s) => Meaning(cfg, s.value)
  }

  lemma {:induction false} MeaningMonotone(cfg: Config, text: string, n: nat, m: nat)
    requires n <= m && MeaningWithin(cfg, text, n).Some?
    ensures MeaningWithin(cfg, text, m) == MeaningWithin(cfg, text, n)
    decreases n, 1, 0
  {
    AllMonotone(cfg, Matches(text), n, m);
  }

  lemma {:induction false} AllMonotone(cfg: Config, refs: seq<Reference>, n: nat, m: nat)
    requires n <= m && AllWithin(cfg, refs, n).Some?
    ensures AllWithin(cfg, refs, m) == AllWithin(cfg, refs, n)
    decreases n, 0, |refs|
  {
    if refs != [] {
      MeaningMonotone(cfg, Target(cfg, refs[0]).value.value, n - 1, m - 1);
      AllMonotone(cfg, refs[1..], n, m);
    }
  }

  lemma MeaningIs(cfg: Config, text: string, n: nat)
    requires MeaningWithin(cfg, text, n).Some?
    ensures Meaning(cfg, text) == MeaningWithin(cfg, text, n)
  {
    var k: nat :| MeaningWithin(cfg, text, k).Some? && Meaning(cfg, text) == MeaningWithin(cfg, text, k);
    if k <= n { MeaningMonotone(cfg, text, k, n); } else { MeaningMonotone(cfg, text, n, k); }
  }

  /** vals are the meanings of the sites refs. */
  ghost predicate SitesMean(cfg: Config, refs: seq<Reference>, vals: seq<string>) {
    |vals| == |refs| && forall i :: 0 <= i < |refs| ==> SiteMeaning(cfg, refs[i]) == Some(vals[i])
  }

  lemma {:induction false} SitesBound(cfg: Config, refs: seq<Reference>, vals: seq<string>) returns (n: nat)
    requires SitesMean(cfg, refs, vals)
    ensures AllWithin(cfg, refs, n) == Some(vals)
  {
    if refs == [] {
      n := 0;
    } else {
      assert SiteMeaning(cfg, refs[0]) == Some(vals[0]);
      var text := Target(cfg, refs[0]).value.value;
      var a: nat :| MeaningWithin(cfg, text, a).Some?;
      MeaningIs(cfg, text, a);
      var b := SitesBound(cfg, refs[1..], vals[1..]);
      n := if a + 1 < b then b else a + 1;
      AllMonotone(cfg, refs[1..], b, n);
      MeaningMonotone(cfg, text, a, n - 1);
      assert vals == [vals[0]] + vals[1..];
    }
  }

  /** Meaning is compositional: substitute the meanings of all sites at once. */
  lemma MeaningCompose(cfg: Config, text: string, vals: seq<string>)
    requires SitesMean(cfg, Matches(text), vals)
    ensures Meaning(cfg, text) == Some(Substitute(text, Matches(text), vals))
  {
    var n := SitesBound(cfg, Matches(text), vals);
    MeaningIs(cfg, text, n);
  }

  lemma {:induction false} AllSites(cfg: Config, refs: seq<Reference>, n: nat)
    requires AllWithin(cfg, refs, n).Some?
    ensures SitesMean(cfg, refs, AllWithin(cfg, refs, n).value)
    ensures forall i :: 0 <= i < |refs| ==> SiteWithin(cfg, refs[i], n).Some?
    decreases |refs|
  {
    if refs != [] {
      var text := Target(cfg, refs[0]).value.value;
      MeaningIs(cfg, text, n - 1);
      AllSites(cfg, refs[1..], n);
    }
  }

  /** Conversely a meaningful text has only meaningful sites. */
  lemma MeaningSites(cfg: Config, text: string) returns (vals: seq<string>)
    requires HasMeaning(cfg, text)
    ensures SitesMean(cfg, Matches(text), vals)
    ensures Meaning(cfg, text) == Some(Substitute(text, Matches(text), vals))
  {
    var n: nat :| MeaningWithin(cfg, text, n).Some?;
    MeaningIs(cfg, text, n);
    AllSites(cfg, Matches(text), n);
    vals := AllWithin(cfg, Matches(text), n).value;
  }

  lemma MeaningPlain(cfg: Config, text: string)
    requires Matches(text) == []
    ensures Meaning(cfg, text) == Some(text)
  {
    SubstituteNone(text);
    MeaningCompose(cfg, text, []);
  }

  // ---- Reading values that were expanded before ----

  /**
   * A way to evaluate a text when expanded values may be scanned again: expand
   * the text itself, or first evaluate it by another plan and then expand what
   * came out; and evaluate the target of each site by a plan of its own.
   */
  datatype Plan = Plan(first: Option<Plan>, sites: Plans)

  datatype Plans = Done | Then(head: Plan, tail: Plans)

  /** The value of text under a plan, if the plan fits. */
  ghost function PlanValue(cfg: Config, text: string, plan: Plan): Option<string>
    decreases plan
  {
    match PlanBase(cfg, text, plan.first)
    case None => None
    case Some(base) =>
      match PlanSites(cfg, Matches(base), plan.sites)
      case None => None
      case Some(vals) => Some(Substitute(base, Matches(base), vals))
  }

  /** The text that the plan's last scan reads. */
  ghost function PlanBase(cfg: Config, text: string, first: Option<Plan>): Option<string>
    decreases first
  {
    match first case None => Some(text) case Some(p) => PlanValue(cfg, text, p)
  }

  ghost function PlanSites(cfg: Config, refs: seq<Reference>, plans: Plans): (r: Option<seq<string>>)
    ensures r.Some? ==> |r.value| == |refs|
    decreases plans
  {
    match plans
    case Done => if refs == [] then Some([]) else None
    case Then(p, rest) =>
      if refs == [] || Target(cfg, refs[0]).None? then None
      else match (PlanValue(cfg, Target(cfg, refs[0]).value.value, p), PlanSites(cfg, refs[1..], rest))
        case (Some(v), Some(vs)) => Some([v] + vs)
        case _ => None
  }

  /** v is a value of text under some plan. */
  ghost predicate Planned(cfg: Config, text: string, v: string) { exists p :: PlanValue(cfg, text, p) == Some(v) }

  ghost predicate SitePlanned(cfg: Config, ref: Reference, v: string) {
    Target(cfg, ref).Some? && Planned(cfg, Target(cfg, ref).value.value, v)
  }

  ghost predicate SitesPlanned(cfg: Config, refs: seq<Reference>, vals: seq<string>) {
    |vals| == |refs| && forall i :: 0 <= i < |refs| ==> SitePlanned(cfg, refs[i], vals[i])
  }

  lemma {:induction false} PlansFor(cfg: Config, refs: seq<Reference>, vals: seq<string>) returns (plans: Plans)
    requires SitesPlanned(cfg, refs, vals)
    ensures PlanSites(cfg, refs, plans) == Some(vals)
    decreases |refs|
  {
    if refs == [] {
      plans := Done;
    } else {
      assert SitePlanned(cfg, refs[0], vals[0]);
      var p :| PlanValue(cfg, Target(cfg, refs[0]).value.value, p) == Some(vals[0]);
      var rest := PlansFor(cfg, refs[1..], vals[1..]);
      plans := Then(p, rest);
      assert vals == [vals[0]] + vals[1..];
    }
  }

  /** One expansion of the text, or of a value planned for it, gives a planned value. */
  lemma PlanCompose(cfg: Config, text: string, base: string, vals: seq<string>)
    requires base == text || Planned(cfg, text, base)
    requires SitesPlanned(cfg, Matches(base), vals)
    ensures Planned(cfg, text, Substitute(base, Matches(base), vals))
  {
    hide Substitute, SitesPlanned;
    var plans := PlansFor(cfg, Matches(base), vals);
    var first: Option<Plan>;
    if base == text {
      first := None;
    } else {
      var p :| PlanValue(cfg, text, p) == Some(base);
      first := Some(p);
    }
    assert PlanValue(cfg, text, Plan(first, plans)) == Some(Substitute(base, Matches(base), vals));
  }

  /** Whatever was scanned again on the way, a text that could be evaluated has a meaning. */
  lemma {:induction false} PlanHasMeaning(cfg: Config, text: string, plan: Plan)
    requires PlanValue(cfg, text, plan).Some?
    ensures HasMeaning(cfg, text)
    decreases plan
  {
    if plan.first.Some? {
      PlanHasMeaning(cfg, text, plan.first.value);
    } else {
      var vals := PlansHaveMeanings(cfg, Matches(text), plan.sites);
      MeaningCompose(cfg, text, vals);
    }
  }

  lemma {:induction false} PlansHaveMeanings(cfg: Config, refs: seq<Reference>, plans: Plans) returns (vals: seq<string>)
    requires PlanSites(cfg, refs, plans).Some?
    ensures SitesMean(cfg, refs, vals)
    decreases plans
  {
    if plans.Done? {
      vals := [];
    } else {
      var text := Target(cfg, refs[0]).value.value;
      PlanHasMeaning(cfg, text, plans.head);
      var rest := PlansHaveMeanings(cfg, refs[1..], plans.tail);
      vals := [Meaning(cfg, text).value] + rest;
    }
  }

  lemma {:induction false} MeaningWithinPlanned(cfg: Config, text: string, n: nat)
    requires MeaningWithin(cfg, text, n).Some?
    ensures Planned(cfg, text, MeaningWithin(cfg, text, n).value)
    decreases n, 1, 0
  {
    AllWithinPlanned(cfg, Matches(text), n);
    PlanCompose(cfg, text, text, AllWithin(cfg, Matches(text), n).value);
  }

  lemma {:induction false} AllWithinPlanned(cfg: Config, refs: seq<Reference>, n: nat)
    requires AllWithin(cfg, refs, n).Some?
    ensures SitesPlanned(cfg, refs, AllWithin(cfg, refs, n).value)
    decreases n, 0, |refs|
  {
    if refs != [] {
      MeaningWithinPlanned(cfg, Target(cfg, refs[0]).value.value, n - 1);
      AllWithinPlanned(cfg, refs[1..], n);
    }
  }

  /** The meaning is one of the planned values, and there is a planned value only if there is a meaning. */
  lemma PlannedIffMeaning(cfg: Config, text: string)
    ensures HasMeaning(cfg, text) <==> exists v :: Planned(cfg, text, v)
    ensures HasMeaning(cfg, text) ==> Planned(cfg, text, Meaning(cfg, text).value)
  {
    if HasMeaning(cfg, text) {
      var n: nat :| MeaningWithin(cfg, text, n).Some?;
      MeaningIs(cfg, text, n);
      MeaningWithinPlanned(cfg, text, n);
    }
    forall v | Planned(cfg, text, v) ensures HasMeaning(cfg, text) {
      var p :| PlanValue(cfg, text, p) == Some(v);
      PlanHasMeaning(cfg, text, p);
    }
  }

  // ---- Defects ----

  /** A position of the reference graph. */
  datatype Position = Position(env: int, key: string)

  /** Resolution of e reads environment f: by inheritance, or by a reference in a secret e owns. */
  ghost predicate Reads(cfg: Config, e: int, f: int) {
    || Parent(cfg, e, f)
    || exists key, ref :: OwnRefers(cfg, e, key, ref) && ref.envName in cfg.names && cfg.names[ref.envName] == f
  }

  /** The secret e owns under key contains the site ref. */
  ghost predicate OwnRefers(cfg: Config, e: int, key: string, ref: Reference) {
    key in OwnOf(cfg, e) && ref in Matches(OwnOf(cfg, e)[key].value)
  }

  ghost predicate ReadWalk(cfg: Config, w: seq<int>) {
    w != [] && forall i {:trigger w[i]} :: 0 < i < |w| ==> Reads(cfg, w[i - 1], w[i])
  }

  ghost predicate ReadWalkTo(cfg: Config, w: seq<int>, a: int, b: int) {
    ReadWalk(cfg, w) && w[0] == a && w[|w| - 1] == b
  }

  ghost predicate Reaches(cfg: Config, a: int, b: int) {
    exists w :: ReadWalkTo(cfg, w, a, b)
  }

  /** The value visible at p refers to position q. */
  ghost predicate Refers(cfg: Config, p: Position, q: Position) {
    && Visible(cfg, p.env, p.key).Some?
    && exists ref :: RefersBy(cfg, Visible(cfg, p.env, p.key).value.value, ref, q)
  }

  ghost predicate RefersBy(cfg: Config, text: string, ref: Reference, q: Position) {
    ref in Matches(text) && ref.envName in cfg.names && cfg.names[ref.envName] == q.env && ref.keyName == q.key
  }

  ghost predicate ReferWalk(cfg: Config, w: seq<Position>) {
    w != [] && forall i {:trigger w[i]} :: 0 < i < |w| ==> Refers(cfg, w[i - 1], w[i])
  }

  /** Why resolution can fail; also what the resolver reports. */
  datatype Defect =
    | EnvNotFound(id: int)
    | InheritanceCycle(chain: seq<int>)
    | ReferenceCycle(chain': seq<Position>)
    | UnknownEnv(name: string)
    | UnknownKey(env: int, key: string)

  ghost predicate NamedBy(cfg: Config, e: int, name: string) {
    || (e in cfg.envs && cfg.envs[e].inheritsFrom != "" && cfg.envs[e].inheritsFrom == name)
    || exists key, ref :: OwnRefers(cfg, e, key, ref) && ref.envName == name
  }

  ghost predicate ReadsKey(cfg: Config, e: int, f: int, key: string) {
    exists own, ref :: OwnRefers(cfg, e, own, ref) && RefersBy(cfg, OwnOf(cfg, e)[own].value, ref, Position(f, key))
  }

  /** d is a genuine defect of the part of cfg that resolving root reads. */
  ghost predicate IsDefect(cfg: Config, root: int, d: Defect) {
    match d
    case EnvNotFound(id) => id == root && root !in cfg.envs
    case InheritanceCycle(w) =>
      InheritWalk(cfg, w) && w[|w| - 1] in w[..|w| - 1] && Reaches(cfg, root, w[0])
    case ReferenceCycle(w) =>
      ReferWalk(cfg, w) && w[|w| - 1] in w[..|w| - 1] && Reaches(cfg, root, w[0].env)
    case UnknownEnv(name) =>
      name !in cfg.names && exists e :: Reaches(cfg, root, e) && NamedBy(cfg, e, name)
    case UnknownKey(f, key) =>
      View(cfg, f).Some? && key !in View(cfg, f).value
      && exists e :: Reaches(cfg, root, e) && ReadsKey(cfg, e, f, key)
  }

  lemma ReachesSelf(cfg: Config, a: int)
    ensures Reaches(cfg, a, a)
  {
    assert ReadWalkTo(cfg, [a], a, a);
  }

  lemma ReachesStep(cfg: Config, a: int, b: int, c: int)
    requires Reaches(cfg, a, b) && Reads(cfg, b, c)
    ensures Reaches(cfg, a, c)
  {
    var w :| ReadWalkTo(cfg, w, a, b);
    var u := w + [c];
    forall i | 0 < i < |u| ensures Reads(cfg, u[i - 1], u[i]) {
      if i < |w| { assert w[i] == u[i]; }
    }
    assert ReadWalkTo(cfg, u, a, c);
  }

  lemma {:induction false} ReachesUp(cfg: Config, a: int, w: seq<int>)
    requires InheritWalk(cfg, w) && Reaches(cfg, a, w[0])
    ensures Reaches(cfg, a, w[|w| - 1])
    decreases |w|
  {
    if |w| > 1 {
      assert Parent(cfg, w[0], w[1]);
      assert Reads(cfg, w[0], w[1]);
      ReachesStep(cfg, a, w[0], w[1]);
      var u := w[1..];
      forall i | 0 < i < |u| ensures Parent(cfg, u[i - 1], u[i]) { assert w[i + 1] == u[i]; }
      ReachesUp(cfg, a, u);
    }
  }

  /** The owner of a visible secret is among the environments that are read. */
  lemma OwnerReached(cfg: Config, root: int, e: int, key: string) returns (owner: int)
    requires Reaches(cfg, root, e) && Visible(cfg, e, key).Some?
    ensures Reaches(cfg, root, owner)
    ensures key in OwnOf(cfg, owner) && OwnOf(cfg, owner)[key] == Visible(cfg, e, key).value
  {
    var n: nat :| ViewWithin(cfg, e, n).Some?;
    ViewIs(cfg, e, n);
    var w := NearestOwner(cfg, e, key, n);
    ReachesUp(cfg, root, w);
    owner := w[|w| - 1];
  }

  // ---- A view or a meaning rules its cycles out ----

  lemma {:induction false} NoInheritanceLoop(cfg: Config, w: seq<int>, n: nat)
    requires InheritWalk(cfg, w) && |w| >= 2 && w[0] == w[|w| - 1]
    requires ViewWithin(cfg, w[0], n).Some?
    ensures false
    decreases n
  {
    assert Parent(cfg, w[0], w[1]);
    var u := w[1..] + [w[1]];
    forall i | 0 < i < |u| ensures Parent(cfg, u[i - 1], u[i]) {
      if i < |w| - 1 { assert w[i + 1] == u[i]; }
    }
    NoInheritanceLoop(cfg, u, n - 1);
  }

  lemma {:induction false} NoReferenceLoop(cfg: Config, w: seq<Position>, n: nat)
    requires ReferWalk(cfg, w) && |w| >= 2 && w[0] == w[|w| - 1]
    requires Visible(cfg, w[0].env, w[0].key).Some?
    requires MeaningWithin(cfg, Visible(cfg, w[0].env, w[0].key).value.value, n).Some?
    ensures false
    decreases n
  {
    hide Visible, Matches, Refers;
    assert Refers(cfg, w[0], w[1]);
    StepMeaning(cfg, w[0], w[1], n);
    var u := w[1..] + [w[1]];
    forall i | 0 < i < |u| ensures Refers(cfg, u[i - 1], u[i]) {
      if i < |w| - 1 { assert w[i + 1] == u[i]; }
    }
    NoReferenceLoop(cfg, u, n - 1);
  }

  lemma StepMeaning(cfg: Config, p: Position, q: Position, n: nat)
    requires Refers(cfg, p, q)
    requires MeaningWithin(cfg, Visible(cfg, p.env, p.key).value.value, n).Some?
    ensures n > 0 && Visible(cfg, q.env, q.key).Some?
    ensures MeaningWithin(cfg, Visible(cfg, q.env, q.key).value.value, n - 1).Some?
  {
    var text := Visible(cfg, p.env, p.key).value.value;
    var ref :| RefersBy(cfg, text, ref, q);
    AllSites(cfg, Matches(text), n);
    var i :| 0 <= i < |Matches(text)| && Matches(text)[i] == ref;
    assert SiteWithin(cfg, Matches(text)[i], n).Some?;
  }
}
