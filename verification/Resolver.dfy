/**
 * The memoised resolver: snapshot and expand call each other over a cache that
 * first holds raw values and is then rewritten in place.
 *
 * The order in which a snapshot's keys are expanded is left open, as Go leaves
 * map iteration open; every contract holds for every order.
 */
module Resolver {
  import opened Wrappers
  import opened References
  import opened Semantics

  // ---- What the cache holds ----

  ghost predicate TargetsCached(cfg: Config, text: string, cached: set<int>) {
    forall ref :: ref in Matches(text) ==> ref.envName in cfg.names && cfg.names[ref.envName] in cached
  }

  function RawEntry(s: Secret): ResolvedSecret { ResolvedSecret(s.id, s.value, s.version, s.updatedAt) }

  /** What an environment owns, before expansion. */
  ghost function RawOwn(cfg: Config, e: int): Snapshot { map k | k in OwnOf(cfg, e) :: RawEntry(OwnOf(cfg, e)[k]) }

  /** r is the row s, perhaps with another value. */
  ghost predicate SameRow(s: Secret, r: ResolvedSecret) { r == RawEntry(s).(value := r.value) }

  /**
   * r is the final entry for the row s: its value was planned for the row's text,
   * whose targets are cached; where splicing is safe, it is the text's meaning.
   */
  ghost predicate DoneEntry(cfg: Config, root: int, s: Secret, r: ResolvedSecret, cached: set<int>) {
    && SameRow(s, r)
    && Planned(cfg, s.value, r.value) && TargetsCached(cfg, s.value, cached)
    && (SpliceSafe(cfg, root) ==> Meaning(cfg, s.value) == Some(r.value))
  }

  /** An entry is raw or final, never in between. */
  ghost predicate EntryOK(cfg: Config, root: int, s: Secret, r: ResolvedSecret, cached: set<int>) {
    r == RawEntry(s) || DoneEntry(cfg, root, s, r, cached)
  }

  ghost predicate ViewKeys(cfg: Config, e: int, snap: Snapshot) {
    View(cfg, e).Some? && snap.Keys == View(cfg, e).value.Keys
  }

  ghost predicate EnvOK(cfg: Config, root: int, e: int, snap: Snapshot, cached: set<int>) {
    && ViewKeys(cfg, e, snap)
    && forall k :: k in snap ==> EntryOK(cfg, root, View(cfg, e).value[k], snap[k], cached)
  }

  ghost predicate EnvDone(cfg: Config, root: int, e: int, snap: Snapshot, cached: set<int>) {
    && ViewKeys(cfg, e, snap)
    && forall k :: k in snap ==> DoneEntry(cfg, root, View(cfg, e).value[k], snap[k], cached)
  }

  ghost predicate ParentCached(cfg: Config, e: int, cached: set<int>) {
    forall p :: Parent(cfg, e, p) ==> p in cached
  }

  ghost predicate CacheOK(cfg: Config, root: int, cache: map<int, Snapshot>) {
    forall e :: e in cache ==> e in cfg.envs && EnvOK(cfg, root, e, cache[e], cache.Keys) && ParentCached(cfg, e, cache.Keys)
  }

  /** Environments cached before are untouched. */
  ghost predicate Extends(was: map<int, Snapshot>, cache: map<int, Snapshot>) {
    was.Keys <= cache.Keys && forall e :: e in was ==> cache[e] == was[e]
  }

  /** The same for every environment but e, whose entries are being expanded. */
  ghost predicate ExtendsBut(e: int, was: map<int, Snapshot>, cache: map<int, Snapshot>) {
    was.Keys <= cache.Keys && forall f :: f in was && f != e ==> cache[f] == was[f]
  }

  /** Environments cached since are final. */
  ghost predicate Finished(cfg: Config, root: int, was: map<int, Snapshot>, cache: map<int, Snapshot>) {
    forall e :: e in cache && e !in was ==> EnvDone(cfg, root, e, cache[e], cache.Keys)
  }

  lemma DoneMonotone(cfg: Config, root: int, e: int, snap: Snapshot, a: set<int>, b: set<int>)
    requires a <= b && EnvDone(cfg, root, e, snap, a)
    ensures EnvDone(cfg, root, e, snap, b)
  {
  }

  lemma FinishedTrans(cfg: Config, root: int, a: map<int, Snapshot>, b: map<int, Snapshot>, c: map<int, Snapshot>)
    requires Extends(a, b) && Extends(b, c) && Finished(cfg, root, a, b) && Finished(cfg, root, b, c)
    ensures Extends(a, c) && Finished(cfg, root, a, c) && a.Keys <= c.Keys
  {
    forall e | e in c && e !in a ensures EnvDone(cfg, root, e, c[e], c.Keys) {
      if e in b {
        DoneMonotone(cfg, root, e, b[e], b.Keys, c.Keys);
      }
    }
  }

  // ---- When a value is read again after expansion ----

  /** Resolving root reads the value at (e, key) again: a child inherits it or a visible value refers to it. */
  ghost predicate Reread(cfg: Config, root: int, e: int, key: string) {
    && Visible(cfg, e, key).Some?
    && ((exists c :: Reaches(cfg, root, c) && Parent(cfg, c, e) && key !in OwnOf(cfg, c))
        || exists p: Position :: Reaches(cfg, root, p.env) && Refers(cfg, p, Position(e, key)))
  }

  /** No value that is read again spells a reference once its own references are replaced. */
  ghost predicate SpliceSafe(cfg: Config, root: int) {
    forall e, key :: Reread(cfg, root, e, key) ==> PlainMeaning(cfg, Visible(cfg, e, key).value.value)
  }

  /** Where splicing is safe, resolving root really reads e. */
  ghost predicate Traced(cfg: Config, root: int, e: int) { SpliceSafe(cfg, root) ==> Reaches(cfg, root, e) }

  /** Where splicing is safe, w is a walk of references from an environment that root reads. */
  ghost predicate TracedWalk(cfg: Config, root: int, w: seq<Position>) {
    w != [] && (SpliceSafe(cfg, root) ==> ReferWalk(cfg, w) && Reaches(cfg, root, w[0].env))
  }

  /** Where splicing is safe, ref is a site of the row's own text. */
  ghost predicate TracedSite(cfg: Config, root: int, s: Secret, ref: Reference) {
    SpliceSafe(cfg, root) ==> ref in Matches(s.value)
  }

  /** What an error tells about every configuration, and what more it tells where splicing is safe. */
  ghost predicate Reported(cfg: Config, root: int, d: Defect) {
    && (SpliceSafe(cfg, root) ==> IsDefect(cfg, root, d))
    && match d
       case EnvNotFound(id) => id == root && root !in cfg.envs
       case InheritanceCycle(w) => InheritWalk(cfg, w) && w[|w| - 1] in w[..|w| - 1]
       case ReferenceCycle(w) => w != [] && w[|w| - 1] in w[..|w| - 1]
       case UnknownEnv(name) => name !in cfg.names
       case UnknownKey(f, key) => View(cfg, f).Some? && key !in View(cfg, f).value
  }

  ghost predicate PlainMeaning(cfg: Config, text: string) {
    Meaning(cfg, text).Some? ==> Matches(Meaning(cfg, text).value) == []
  }

  /** Entries waiting for expansion: raw, or final and free of references. */
  ghost predicate Ready(cfg: Config, root: int, s: Secret, r: ResolvedSecret, cached: set<int>) {
    r == RawEntry(s) || (DoneEntry(cfg, root, s, r, cached) && (SpliceSafe(cfg, root) ==> Matches(r.value) == []))
  }

  /** During the expansion of e, the keys in remaining wait and the others are final. */
  ghost predicate Progress(cfg: Config, root: int, e: int, snap: Snapshot, remaining: set<string>, cached: set<int>) {
    && ViewKeys(cfg, e, snap) && remaining <= snap.Keys
    && forall k :: k in snap ==>
         if k in remaining then Ready(cfg, root, View(cfg, e).value[k], snap[k], cached)
         else DoneEntry(cfg, root, View(cfg, e).value[k], snap[k], cached)
  }

  // ---- Every position lies in a finite grid ----

  function RowKeys(rows: seq<Secret>): set<string> { set i | 0 <= i < |rows| :: rows[i].key }

  function Grid(cfg: Config): set<Position> {
    set e, f, k | e in cfg.envs && f in cfg.envs && k in RowKeys(cfg.envs[f].rows) :: Position(e, k)
  }

  lemma {:induction false} OwnKeys(rows: seq<Secret>)
    ensures Own(rows).Keys <= RowKeys(rows)
  {
    if rows != [] {
      var front := rows[..|rows| - 1];
      OwnKeys(front);
      assert forall i :: 0 <= i < |front| ==> front[i] == rows[i];
    }
  }

  lemma VisibleInGrid(cfg: Config, e: int, key: string)
    requires Visible(cfg, e, key).Some?
    ensures Position(e, key) in Grid(cfg)
  {
    ReachesSelf(cfg, e);
    var owner := OwnerReached(cfg, e, e, key);
    OwnKeys(cfg.envs[owner].rows);
    var n: nat :| ViewWithin(cfg, e, n).Some?;
  }

  // ---- What expansion reads when everything it meets is cached ----

  /**
   * What expanding value gives when every environment it meets is cached: the
   * descent then never builds a snapshot and reads the cache as it stands.
   */
  ghost function ExpandIn(cfg: Config, cache: map<int, Snapshot>, value: string, n: nat): Option<string>
    decreases n, 1, 0
  {
    match SitesIn(cfg, cache, Matches(value), n)
    case None => None
    case Some(vals) => Some(Substitute(value, Matches(value), vals))
  }

  ghost function SitesIn(cfg: Config, cache: map<int, Snapshot>, refs: seq<Reference>, n: nat): (r: Option<seq<string>>)
    ensures r.Some? ==> |r.value| == |refs|
    decreases n, 0, |refs|
  {
    if refs == [] then Some([])
    else match (SiteIn(cfg, cache, refs[0], n), SitesIn(cfg, cache, refs[1..], n))
      case (Some(v), Some(vs)) => Some([v] + vs)
      case _ => None
  }

  ghost function SiteIn(cfg: Config, cache: map<int, Snapshot>, ref: Reference, n: nat): Option<string>
    decreases n, 0, 0
  {
    if n == 0 || ref.envName !in cfg.names || cfg.names[ref.envName] !in cache || ref.keyName !in cache[cfg.names[ref.envName]]
    then None
    else ExpandIn(cfg, cache, cache[cfg.names[ref.envName]][ref.keyName].value, n - 1)
  }

  /** Expanding value over the cache was gave out and left cache; if was was enough, it stayed and determined out. */
  ghost predicate AsCached(cfg: Config, was: map<int, Snapshot>, value: string, out: string, cache: map<int, Snapshot>) {
    forall n :: ExpandIn(cfg, was, value, n).Some? ==> ExpandIn(cfg, was, value, n) == Some(out) && cache == was
  }

  ghost predicate SiteAsCached(cfg: Config, was: map<int, Snapshot>, ref: Reference, out: string, cache: map<int, Snapshot>) {
    forall n :: SiteIn(cfg, was, ref, n).Some? ==> SiteIn(cfg, was, ref, n) == Some(out) && cache == was
  }

  /** The same for the sites from i on. */
  ghost predicate SitesAsCached(cfg: Config, was: map<int, Snapshot>, refs: seq<Reference>, i: nat, vals: seq<string>,
                                cache: map<int, Snapshot>)
  {
    && i <= |refs|
    && forall n :: SitesIn(cfg, was, refs, n).Some? ==> SitesIn(cfg, was, refs[i..], n) == Some(vals) && cache == was
  }

  lemma {:induction false} SitesInDrop(cfg: Config, cache: map<int, Snapshot>, refs: seq<Reference>, i: nat, n: nat)
    requires i < |refs| && SitesIn(cfg, cache, refs, n).Some?
    ensures SitesIn(cfg, cache, refs[i..], n).Some?
    ensures SiteIn(cfg, cache, refs[i], n).Some? && SitesIn(cfg, cache, refs[i + 1..], n).Some?
    decreases i
  {
    hide SiteIn;
    if i == 0 {
      assert refs[0..] == refs;
    } else {
      SitesInDrop(cfg, cache, refs[1..], i - 1, n);
      assert refs[1..][i - 1..] == refs[i..] && refs[1..][i - 1 + 1..] == refs[i + 1..];
    }
  }

  lemma SitesCachedStart(cfg: Config, cache: map<int, Snapshot>, refs: seq<Reference>)
    ensures SitesAsCached(cfg, cache, refs, |refs|, [], cache)
  {
    assert refs[|refs|..] == [];
  }

  lemma SitesCachedStep(cfg: Config, was: map<int, Snapshot>, refs: seq<Reference>, i: nat, val: string, vals: seq<string>,
                        before: map<int, Snapshot>, cache: map<int, Snapshot>)
    requires i < |refs| && SitesAsCached(cfg, was, refs, i + 1, vals, before)
    requires SiteAsCached(cfg, before, refs[i], val, cache)
    ensures SitesAsCached(cfg, was, refs, i, [val] + vals, cache)
  {
    hide SiteIn;
    forall n | SitesIn(cfg, was, refs, n).Some?
      ensures SitesIn(cfg, was, refs[i..], n) == Some([val] + vals) && cache == was
    {
      SitesInDrop(cfg, was, refs, i, n);
      assert refs[i..][0] == refs[i] && refs[i..][1..] == refs[i + 1..];
    }
  }

  lemma SitesCachedEnd(cfg: Config, was: map<int, Snapshot>, root: int, text: string, vals: seq<string>, out: string,
                       cache: map<int, Snapshot>)
    requires Spliced(cfg, root, text, 0, vals, out) && SitesAsCached(cfg, was, Matches(text), 0, vals, cache)
    ensures AsCached(cfg, was, text, out, cache)
  {
    hide SpliceSafe, SitesMean, Matches, SitesIn;
    assert Matches(text)[0..] == Matches(text);
    forall n | ExpandIn(cfg, was, text, n).Some? ensures ExpandIn(cfg, was, text, n) == Some(out) && cache == was {
      assert SitesIn(cfg, was, Matches(text), n).Some?;
    }
  }

  lemma SiteCached(cfg: Config, was: map<int, Snapshot>, ref: Reference, t: int, mid: map<int, Snapshot>, out: string,
                   cache: map<int, Snapshot>)
    requires ref.envName in cfg.names && cfg.names[ref.envName] == t && t in mid && ref.keyName in mid[t]
    requires t in was ==> mid == was
    requires AsCached(cfg, mid, mid[t][ref.keyName].value, out, cache)
    ensures SiteAsCached(cfg, was, ref, out, cache)
  {
    hide ExpandIn;
    forall n: nat | SiteIn(cfg, was, ref, n).Some? ensures SiteIn(cfg, was, ref, n) == Some(out) && cache == was {
      assert n > 0 && ExpandIn(cfg, mid, mid[t][ref.keyName].value, n - 1).Some?;
    }
  }

  lemma PlainCached(cfg: Config, cache: map<int, Snapshot>, text: string)
    requires Matches(text) == []
    ensures AsCached(cfg, cache, text, text, cache)
  {
    SubstituteNone(text);
    forall n: nat ensures ExpandIn(cfg, cache, text, n) == Some(text) {
      assert SitesIn(cfg, cache, Matches(text), n) == Some([]);
    }
  }

  lemma {:induction false} ExpandInMonotone(cfg: Config, cache: map<int, Snapshot>, value: string, n: nat, m: nat)
    requires n <= m && ExpandIn(cfg, cache, value, n).Some?
    ensures ExpandIn(cfg, cache, value, m) == ExpandIn(cfg, cache, value, n)
    decreases n, 1, 0
  {
    SitesInMonotone(cfg, cache, Matches(value), n, m);
  }

  lemma {:induction false} SitesInMonotone(cfg: Config, cache: map<int, Snapshot>, refs: seq<Reference>, n: nat, m: nat)
    requires n <= m && SitesIn(cfg, cache, refs, n).Some?
    ensures SitesIn(cfg, cache, refs, m) == SitesIn(cfg, cache, refs, n)
    decreases n, 0, |refs|
  {
    if refs != [] {
      ExpandInMonotone(cfg, cache, cache[cfg.names[refs[0].envName]][refs[0].keyName].value, n - 1, m - 1);
      SitesInMonotone(cfg, cache, refs[1..], n, m);
    }
  }

  ghost predicate Holds(cache: map<int, Snapshot>, p: Position) { p.env in cache && p.key in cache[p.env] }

  /** n levels are too few for every position on the way here, so none of them can come up again below. */
  ghost predicate Above(cfg: Config, cache: map<int, Snapshot>, visited: seq<Position>, n: nat) {
    forall i :: 0 <= i < |visited| && Holds(cache, visited[i]) ==>
      ExpandIn(cfg, cache, cache[visited[i].env][visited[i].key].value, n).None?
  }

  /** The cache is enough to expand value below the visited positions. */
  ghost predicate Enough(cfg: Config, cache: map<int, Snapshot>, value: string, visited: seq<Position>) {
    exists n :: ExpandIn(cfg, cache, value, n).Some? && Above(cfg, cache, visited, n)
  }

  ghost predicate EnoughSite(cfg: Config, cache: map<int, Snapshot>, ref: Reference, visited: seq<Position>) {
    exists n: nat :: SiteIn(cfg, cache, ref, n).Some? && n > 0 && Above(cfg, cache, visited, n - 1)
  }

  ghost predicate EnoughSites(cfg: Config, cache: map<int, Snapshot>, refs: seq<Reference>, visited: seq<Position>) {
    exists n: nat :: SitesIn(cfg, cache, refs, n).Some? && n > 0 && Above(cfg, cache, visited, n - 1)
  }

  /** The fewest levels that suffice. */
  lemma {:induction false} FewestLevels(cfg: Config, cache: map<int, Snapshot>, value: string, n: nat) returns (m: nat)
    requires ExpandIn(cfg, cache, value, n).Some?
    ensures m <= n && ExpandIn(cfg, cache, value, m).Some?
    ensures m > 0 ==> ExpandIn(cfg, cache, value, m - 1).None?
    decreases n
  {
    hide ExpandIn;
    if n > 0 && ExpandIn(cfg, cache, value, n - 1).Some? { m := FewestLevels(cfg, cache, value, n - 1); } else { m := n; }
  }

  /** With enough in the cache, no visited position comes up and every site has enough below this one. */
  lemma EnoughBelow(cfg: Config, cache: map<int, Snapshot>, visited: seq<Position>, p: Position)
    requires Holds(cache, p)
    requires Enough(cfg, cache, cache[p.env][p.key].value, visited) && Matches(cache[p.env][p.key].value) != []
    ensures p !in visited && EnoughSites(cfg, cache, Matches(cache[p.env][p.key].value), visited + [p])
  {
    hide Matches;
    var value := cache[p.env][p.key].value;
    var n: nat :| ExpandIn(cfg, cache, value, n).Some? && Above(cfg, cache, visited, n);
    var m := FewestLevels(cfg, cache, value, n);
    var more := visited + [p];
    forall i | 0 <= i < |more| && Holds(cache, more[i])
      ensures m > 0 && ExpandIn(cfg, cache, cache[more[i].env][more[i].key].value, m - 1).None?
    {
      NotAtZero(cfg, cache, value, m);
      if i < |visited| { NotBelow(cfg, cache, visited, i, n, m - 1); }
    }
    NotAtZero(cfg, cache, value, m);
    assert SitesIn(cfg, cache, Matches(value), m).Some? && Above(cfg, cache, more, m - 1);
  }

  lemma NotAtZero(cfg: Config, cache: map<int, Snapshot>, value: string, m: nat)
    requires Matches(value) != [] && ExpandIn(cfg, cache, value, m).Some?
    ensures m > 0
  {
  }

  lemma NotBelow(cfg: Config, cache: map<int, Snapshot>, visited: seq<Position>, i: nat, n: nat, m: nat)
    requires i < |visited| && Holds(cache, visited[i]) && Above(cfg, cache, visited, n) && m <= n
    ensures ExpandIn(cfg, cache, cache[visited[i].env][visited[i].key].value, m).None?
  {
    hide ExpandIn;
    var value := cache[visited[i].env][visited[i].key].value;
    if ExpandIn(cfg, cache, value, m).Some? { ExpandInMonotone(cfg, cache, value, m, n); }
  }

  /** The splice loop has enough for its next site. */
  lemma EnoughNext(cfg: Config, was: map<int, Snapshot>, refs: seq<Reference>, i: nat, vals: seq<string>,
                   before: map<int, Snapshot>, visited: seq<Position>)
    requires i < |refs| && SitesAsCached(cfg, was, refs, i + 1, vals, before)
    requires EnoughSites(cfg, was, refs, visited)
    ensures EnoughSite(cfg, before, refs[i], visited)
  {
    hide SiteIn, Above;
    var n: nat :| SitesIn(cfg, was, refs, n).Some? && n > 0 && Above(cfg, was, visited, n - 1);
    SitesInDrop(cfg, was, refs, i, n);
  }

  /** One expansion of value, each target evaluated somehow, gives out. */
  ghost predicate OneExpansion(cfg: Config, value: string, out: string) {
    exists vals :: SitesPlanned(cfg, Matches(value), vals) && out == Substitute(value, Matches(value), vals)
  }

  // ---- Orders of expansion ----

  /** The key to expand next, as far as the runtime's choice is known. */
  type Picker = (int, set<string>) -> string

  function KeySet(keys: seq<string>): set<string> { set k | k in keys }

  /** order is how the keys of e come up under pick; where pick names no remaining key, any may follow. */
  ghost predicate Follows(pick: Picker, e: int, keys: set<string>, order: seq<string>) {
    forall i :: 0 <= i < |order| ==> FollowsAt(pick, e, keys - KeySet(order[..i]), order[i])
  }

  ghost predicate FollowsAt(pick: Picker, e: int, rest: set<string>, k: string) {
    k in rest && (pick(e, rest) in rest ==> k == pick(e, rest))
  }

  ghost predicate Gives(cfg: Config, cache: map<int, Snapshot>, value: string, v: string) {
    exists n :: ExpandIn(cfg, cache, value, n) == Some(v)
  }

  /** Expanding the keys of e in this order leads from was to cache, and was is enough for all of it. */
  ghost predicate RoundIn(cfg: Config, was: map<int, Snapshot>, e: int, order: seq<string>, cache: map<int, Snapshot>) {
    if order == [] then cache == was
    else
      var front, k := order[..|order| - 1], order[|order| - 1];
      exists mid :: RoundIn(cfg, was, e, front, mid) && TurnIn(cfg, mid, e, k, cache)
  }

  ghost predicate TurnIn(cfg: Config, mid: map<int, Snapshot>, e: int, k: string, cache: map<int, Snapshot>) {
    && e in mid && k in mid[e]
    && exists v :: Gives(cfg, mid, mid[e][k].value, v) && cache == mid[e := mid[e][k := mid[e][k].(value := v)]]
  }

  /** One turn of the loop: if the cache was enough for this key, it went the only way. */
  lemma TurnDone(cfg: Config, before: map<int, Snapshot>, e: int, k: string, out: string, mid: map<int, Snapshot>)
    requires e in before && k in before[e] && e in mid && AsCached(cfg, before, before[e][k].value, out, mid)
    ensures forall c :: TurnIn(cfg, before, e, k, c) ==> mid[e := mid[e][k := before[e][k].(value := out)]] == c
  {
    hide ExpandIn;
    forall c: map<int, Snapshot> | TurnIn(cfg, before, e, k, c)
      ensures mid[e := mid[e][k := before[e][k].(value := out)]] == c
    {
      var v :| Gives(cfg, before, before[e][k].value, v) && c == before[e := before[e][k := before[e][k].(value := v)]];
    }
  }

  lemma RoundStep(cfg: Config, was: map<int, Snapshot>, e: int, order: seq<string>, k: string, before: map<int, Snapshot>,
                  cache: map<int, Snapshot>)
    requires forall c :: RoundIn(cfg, was, e, order, c) ==> before == c
    requires forall c :: TurnIn(cfg, before, e, k, c) ==> cache == c
    ensures forall c :: RoundIn(cfg, was, e, order + [k], c) ==> cache == c
  {
    hide TurnIn;
    forall c | RoundIn(cfg, was, e, order + [k], c) ensures cache == c {
      assert (order + [k])[..|order|] == order;
      var mid: map<int, Snapshot> :| RoundIn(cfg, was, e, order, mid) && TurnIn(cfg, mid, e, k, c);
    }
  }

  lemma TurnIsEnough(cfg: Config, mid: map<int, Snapshot>, e: int, k: string, cache: map<int, Snapshot>)
    requires TurnIn(cfg, mid, e, k, cache)
    ensures Enough(cfg, mid, mid[e][k].value, [])
  {
    hide ExpandIn;
    var v :| Gives(cfg, mid, mid[e][k].value, v);
    var n: nat :| ExpandIn(cfg, mid, mid[e][k].value, n) == Some(v);
    assert Above(cfg, mid, [], n);
  }

  lemma RoundStops(cfg: Config, was: map<int, Snapshot>, e: int, order: seq<string>, k: string, before: map<int, Snapshot>)
    requires e in before && k in before[e] && !Enough(cfg, before, before[e][k].value, [])
    requires forall c :: RoundIn(cfg, was, e, order, c) ==> before == c
    ensures forall c :: !RoundIn(cfg, was, e, order + [k], c)
  {
    hide ExpandIn;
    forall c ensures !RoundIn(cfg, was, e, order + [k], c) {
      if RoundIn(cfg, was, e, order + [k], c) {
        assert (order + [k])[..|order|] == order;
        var mid: map<int, Snapshot> :| RoundIn(cfg, was, e, order, mid) && TurnIn(cfg, mid, e, k, c);
        TurnIsEnough(cfg, mid, e, k, c);
      }
    }
  }

  lemma RoundStart(cfg: Config, pick: Picker, was: map<int, Snapshot>, e: int)
    requires e in was
    ensures Follows(pick, e, was[e].Keys, []) && KeySet([]) == {}
    ensures forall c :: RoundIn(cfg, was, e, [], c) ==> was == c
  {
  }

  lemma Picked(pick: Picker, e: int, rest: set<string>, k: string)
    requires k in rest && (pick(e, rest) in rest ==> k == pick(e, rest))
    ensures FollowsAt(pick, e, rest, k)
  {
  }

  lemma FollowsStep(pick: Picker, e: int, keys: set<string>, order: seq<string>, k: string)
    requires Follows(pick, e, keys, order) && FollowsAt(pick, e, keys - KeySet(order), k)
    ensures Follows(pick, e, keys, order + [k]) && KeySet(order + [k]) == KeySet(order) + {k}
  {
    var more := order + [k];
    forall i | 0 <= i < |more| ensures FollowsAt(pick, e, keys - KeySet(more[..i]), more[i]) {
      assert more[..i] == order[..i];
      assert order[..|order|] == order;
    }
  }

  /**
   * The outcome of expanding all keys of e from was: some order that follows pick,
   * and if the cache was enough for the whole of it, the cache it leads to.
   */
  ghost predicate Rounded(cfg: Config, pick: Picker, was: map<int, Snapshot>, e: int, order: seq<string>, ok: bool,
                          cache: map<int, Snapshot>)
  {
    && e in was && Follows(pick, e, was[e].Keys, order)
    && (ok ==> KeySet(order) == was[e].Keys)
    && forall c :: RoundIn(cfg, was, e, order, c) ==> ok && cache == c
  }

  ghost predicate RoundedOnce(cfg: Config, pick: Picker, was: map<int, Snapshot>, e: int, ok: bool, cache: map<int, Snapshot>) {
    exists order :: Rounded(cfg, pick, was, e, order, ok, cache)
  }

  // ---- The recursive descent ----

  class ResolveCtx {
    const cfg: Config
    const pick: Picker
    ghost const root: int
    var envCache: map<int, Snapshot>
    var envByNameID: map<string, int>

    constructor (cfg: Config, pick: Picker, ghost root: int)
      ensures this.cfg == cfg && this.pick == pick && this.root == root && envCache == map[] && envByNameID == map[]
    {
      this.cfg := cfg;
      this.pick := pick;
      this.root := root;
      envCache := map[];
      envByNameID := map[];
    }

    ghost predicate Inv()
      reads this
    {
      && cfg.Valid() && CacheOK(cfg, root, envCache)
      && forall n :: n in envByNameID ==> n in cfg.names && cfg.names[n] == envByNameID[n]
    }

    method ResolveEnvName(name: string) returns (id: Option<int>)
      requires Inv()
      modifies this`envByNameID
      ensures Inv()
      ensures id == if name in cfg.names then Some(cfg.names[name]) else None
    {
      if name in envByNameID { return Some(envByNameID[name]); }
      if name !in cfg.names { return None; }
      envByNameID := envByNameID[name := cfg.names[name]];
      return Some(cfg.names[name]);
    }

    /** Overlay this env's own rows: a later write wins, so the child wins. */
    method Overlay(base: Snapshot, rows: seq<Secret>) returns (merged: Snapshot)
      ensures merged.Keys == base.Keys + Own(rows).Keys
      ensures forall k :: k in merged ==> merged[k] == if k in Own(rows) then RawEntry(Own(rows)[k]) else base[k]
    {
      merged := base;
      var i := 0;
      while i < |rows|
        invariant 0 <= i <= |rows|
        invariant merged.Keys == base.Keys + Own(rows[..i]).Keys
        invariant forall k :: k in merged ==>
                    merged[k] == if k in Own(rows[..i]) then RawEntry(Own(rows[..i])[k]) else base[k]
      {
        assert rows[..i + 1][..i] == rows[..i];
        var s := rows[i];
        merged := merged[s.key := ResolvedSecret(s.id, s.value, s.version, s.updatedAt)];
        i := i + 1;
      }
      assert rows[..i] == rows;
    }

    /** snapshot: the cached view of envID, built on the first visit. */
    method SnapshotOf(envID: int, visited: seq<int>) returns (r: Result<Snapshot, Defect>)
      requires Inv()
      requires envID in cfg.envs || envID == root
      requires InheritWalk(cfg, visited + [envID]) && Traced(cfg, root, (visited + [envID])[0])
      modifies this
      ensures r.Ok? ==> Inv() && Extends(old(envCache), envCache) && Finished(cfg, root, old(envCache), envCache)
      ensures r.Ok? ==> envID in envCache && r.value == envCache[envID]
      ensures envID in old(envCache) ==> r.Ok? && envCache == old(envCache)
      ensures IsRoot(cfg, envID) && envID !in old(envCache) && visited == [] ==>
                RoundedOnce(cfg, pick, old(envCache)[envID := RawOwn(cfg, envID)], envID, r.Ok?, envCache)
      ensures r.Err? ==> Reported(cfg, root, r.error)
      decreases cfg.envs.Keys - envCache.Keys, 0, cfg.envs.Keys - (set v | v in visited), 1
    {
      hide Meaning, View, Matches, Reaches, Traced, Reported, SpliceSafe, Planned, CacheOK, EnvDone, Progress;
      if envID in envCache { return Ok(envCache[envID]); }
      if envID in visited {
        InheritanceCycleFound(cfg, root, visited, envID);
        return Err(InheritanceCycle(visited + [envID]));
      }
      if envID !in cfg.envs {
        EnvMissingFound(cfg, root);
        return Err(EnvNotFound(envID));
      }
      var merged := Merge(envID, visited);
      if merged.Err? { return merged; }
      ghost var afterParent := envCache;
      CacheMerged(cfg, root, envID, envCache, merged.value);
      envCache := envCache[envID := merged.value];
      ghost var started := envCache;
      assert envID in old(cfg.envs.Keys - envCache.Keys) && envID !in cfg.envs.Keys - envCache.Keys;
      var expanded, order := ExpandAll(envID);
      if IsRoot(cfg, envID) { assert Rounded(cfg, pick, started, envID, order, expanded.Ok?, envCache); }
      if expanded.Err? { return Err(expanded.error); }
      SnapshotFrame(cfg, root, envID, old(envCache), afterParent, started, envCache);
      return Ok(envCache[envID]);
    }

    /** Steps 1 and 2 of snapshot: copy the parent's view, overlay this env's own secrets. */
    method Merge(envID: int, visited: seq<int>) returns (r: Result<Snapshot, Defect>)
      requires Inv()
      requires envID in cfg.envs && envID !in visited
      requires InheritWalk(cfg, visited + [envID]) && Traced(cfg, root, (visited + [envID])[0])
      modifies this
      ensures r.Ok? ==> Inv() && Extends(old(envCache), envCache) && Finished(cfg, root, old(envCache), envCache)
      ensures r.Ok? ==> Progress(cfg, root, envID, r.value, r.value.Keys, envCache.Keys)
      ensures IsRoot(cfg, envID) ==> r.Ok? && r.value == RawOwn(cfg, envID) && envCache == old(envCache)
      ensures r.Ok? ==> ParentCached(cfg, envID, envCache.Keys) && Traced(cfg, root, envID)
      ensures r.Err? ==> Reported(cfg, root, r.error)
      decreases cfg.envs.Keys - envCache.Keys, 0, cfg.envs.Keys - (set v | v in visited), 0
    {
      hide Meaning, View, Matches, Reaches, Traced, Reported, SpliceSafe, Planned, CacheOK, EnvDone, Progress;
      var env := cfg.envs[envID];
      var nextVisited := visited + [envID];
      TracedUp(cfg, root, nextVisited);
      var merged: Snapshot := map[];
      var parentID: Option<int> := None;
      if env.inheritsFrom != "" {
        parentID := ResolveEnvName(env.inheritsFrom);
        if parentID.None? {
          UnknownParentFound(cfg, root, envID);
          return Err(UnknownEnv(env.inheritsFrom));
        }
        WalkExtends(cfg, nextVisited, parentID.value);
        assert (set v | v in nextVisited) == (set v | v in visited) + {envID};
        var parent := SnapshotOf(parentID.value, nextVisited);
        if parent.Err? { return parent; }
        merged := parent.value;
      }
      merged := Overlay(merged, env.rows);
      MergedReady(cfg, root, envID, parentID, envCache, merged);
      return Ok(merged);
    }

    /** Step 4 of snapshot: expand every value of a cached env, writing back into the same map. */
    method ExpandAll(envID: int) returns (r: Result<(), Defect>, ghost order: seq<string>)
      requires Inv()
      requires envID in envCache && Traced(cfg, root, envID)
      requires Progress(cfg, root, envID, envCache[envID], envCache[envID].Keys, envCache.Keys)
      modifies this
      ensures r.Ok? ==> Inv() && ExtendsBut(envID, old(envCache), envCache)
      ensures r.Ok? ==> Finished(cfg, root, old(envCache), envCache) && EnvDone(cfg, root, envID, envCache[envID], envCache.Keys)
      ensures Rounded(cfg, pick, old(envCache), envID, order, r.Ok?, envCache)
      ensures r.Err? ==> Reported(cfg, root, r.error)
      decreases cfg.envs.Keys - envCache.Keys, 2
    {
      hide Meaning, View, Matches, Reaches, Traced, Reported, SpliceSafe, Planned, CacheOK, EnvDone, DoneEntry, Finished;
      hide Follows, FollowsAt, RoundIn, TurnIn, Enough, KeySet;
      ghost var start := envCache;
      var remaining := envCache[envID].Keys;
      FinishedSelf(cfg, root, start);
      order := [];
      RoundStart(cfg, pick, start, envID);
      while remaining != {}
        invariant Inv() && envID in envCache
        invariant ExtendsBut(envID, start, envCache) && Finished(cfg, root, start, envCache)
        invariant Progress(cfg, root, envID, envCache[envID], remaining, envCache.Keys)
        invariant remaining == start[envID].Keys - KeySet(order) && KeySet(order) <= start[envID].Keys
        invariant Follows(pick, envID, start[envID].Keys, order)
        invariant forall c :: RoundIn(cfg, start, envID, order, c) ==> envCache == c
        decreases remaining
      {
        var k := pick(envID, remaining);
        if k !in remaining { k :| k in remaining; }
        ghost var before := envCache;
        Picked(pick, envID, remaining, k);
        FollowsStep(pick, envID, start[envID].Keys, order, k);
        var expanded := ExpandKey(envID, k);
        if expanded.Err? {
          RoundStops(cfg, start, envID, order, k, before);
          order := order + [k];
          return expanded, order;
        }
        RoundStep(cfg, start, envID, order, k, before, envCache);
        FinishedBut(cfg, root, envID, start, before, envCache);
        ProgressStep(cfg, root, envID, before, remaining, k, envCache);
        order := order + [k];
        remaining := remaining - {k};
      }
      ProgressEnd(cfg, root, envID, envCache[envID], envCache.Keys);
      return Ok(()), order;
    }

    /** One turn of that loop. */
    method ExpandKey(envID: int, k: string) returns (r: Result<(), Defect>)
      requires Inv()
      requires envID in envCache && k in envCache[envID] && Traced(cfg, root, envID)
      requires View(cfg, envID).Some? && k in View(cfg, envID).value
      requires Ready(cfg, root, View(cfg, envID).value[k], envCache[envID][k], envCache.Keys)
      modifies this
      ensures r.Ok? ==> Inv() && ExtendsBut(envID, old(envCache), envCache)
      ensures r.Ok? ==> Finished(cfg, root, old(envCache), envCache)
      ensures r.Ok? ==> envID in envCache && k in envCache[envID]
                        && envCache[envID] == old(envCache[envID])[k := envCache[envID][k]]
      ensures r.Ok? ==> DoneEntry(cfg, root, View(cfg, envID).value[k], envCache[envID][k], envCache.Keys)
      ensures r.Ok? ==> forall c :: TurnIn(cfg, old(envCache), envID, k, c) ==> envCache == c
      ensures Enough(cfg, old(envCache), old(envCache[envID][k].value), []) ==> r.Ok?
      ensures r.Err? ==> Reported(cfg, root, r.error)
      decreases cfg.envs.Keys - envCache.Keys, 2, 0
    {
      hide Meaning, View, Matches, Reaches, Traced, Reported, SpliceSafe, Planned, EnvOK, Grid;
      CachedView(cfg, root, envID, envCache);
      WalkStart(cfg, root, Position(envID, k));
      var v := envCache[envID][k];
      var expanded := Expand(envID, k, v.value, []);
      if expanded.Err? { return Err(expanded.error); }
      ghost var mid := envCache;
      var done := v.(value := expanded.value);
      envCache := envCache[envID := envCache[envID][k := done]];
      WriteBack(cfg, root, envID, k, done, mid);
      TurnDone(cfg, old(envCache), envID, k, expanded.value, mid);
      return Ok(());
    }

    method Expand(envID: int, key: string, value: string, visited: seq<Position>) returns (r: Result<string, Defect>)
      requires Inv()
      requires Visible(cfg, envID, key).Some? && Traced(cfg, root, envID)
      requires envID in envCache && key in envCache[envID] && value == envCache[envID][key].value
      requires var s := Visible(cfg, envID, key).value;
               Ready(cfg, root, s, RawEntry(s).(value := value), envCache.Keys)
      requires TracedWalk(cfg, root, visited + [Position(envID, key)])
      modifies this
      ensures r.Ok? ==> Inv() && Extends(old(envCache), envCache) && Finished(cfg, root, old(envCache), envCache)
      ensures r.Ok? ==> var s := Visible(cfg, envID, key).value;
                        DoneEntry(cfg, root, s, RawEntry(s).(value := r.value), envCache.Keys)
      ensures r.Ok? ==> OneExpansion(cfg, value, r.value) && AsCached(cfg, old(envCache), value, r.value, envCache)
      ensures Enough(cfg, old(envCache), value, visited) ==> r.Ok?
      ensures r.Err? ==> Reported(cfg, root, r.error)
      decreases cfg.envs.Keys - envCache.Keys, 1, Grid(cfg) - (set v | v in visited), 0
    {
      hide *;
      ghost var s := Visible(cfg, envID, key).value;
      var refs := FindReferences(value);
      FinishedSelf(cfg, root, envCache);
      if refs == [] {
        ReadyPlain(cfg, root, s, value, envCache.Keys);
        PlainCached(cfg, envCache, value);
        PlainExpansion(cfg, value);
        return Ok(value);
      }
      var nextVisited := visited + [Position(envID, key)];
      if Enough(cfg, envCache, value, visited) { HoldsHere(envCache, envID, key); EnoughBelow(cfg, envCache, visited, Position(envID, key)); }
      if Position(envID, key) in visited {
        ReferenceCycleFound(cfg, root, visited, Position(envID, key));
        return Err(ReferenceCycle(nextVisited));
      }
      VisibleInGrid(cfg, envID, key);
      assert (set v | v in nextVisited) == (set v | v in visited) + {Position(envID, key)};
      ReadyRaw(cfg, root, s, value, envCache.Keys);
      RawSites(cfg, root, s, value);

      var out := value;
      ghost var vals: seq<string> := [];
      SplicedStart(cfg, root, value);
      CachedStart(cfg, refs, envCache.Keys);
      SitesCachedStart(cfg, envCache, refs);
      var i := |refs|;
      while i > 0
        invariant 0 <= i <= |refs| && Inv()
        invariant Extends(old(envCache), envCache) && Finished(cfg, root, old(envCache), envCache)
        invariant old(envCache).Keys <= envCache.Keys
        invariant Spliced(cfg, root, value, i, vals, out) && CachedFrom(cfg, refs, i, envCache.Keys)
        invariant SitesAsCached(cfg, old(envCache), refs, i, vals, envCache)
      {
        i := i - 1;
        ghost var before := envCache;
        if EnoughSites(cfg, old(envCache), refs, nextVisited) {
          EnoughNext(cfg, old(envCache), refs, i, vals, envCache, nextVisited);
        }
        var site := ExpandSite(envID, key, refs[i], nextVisited);
        if site.Err? { return site; }
        FinishedTrans(cfg, root, old(envCache), before, envCache);
        SplicedStep(cfg, root, value, i, site.value, vals, out);
        CachedStep(cfg, refs, i, before, envCache);
        SitesCachedStep(cfg, old(envCache), refs, i, site.value, vals, before, envCache);
        out := out[..refs[i].start] + site.value + out[refs[i].end..];
        vals := [site.value] + vals;
      }
      CachedEnd(cfg, value, envCache.Keys);
      ExpansionEnd(cfg, root, value, vals, out);
      SitesCachedEnd(cfg, old(envCache), root, value, vals, out, envCache);
      SplicedEnd(cfg, root, s, value, vals, out, old(envCache).Keys, envCache.Keys);
      return Ok(out);
    }

    /** One turn of the splice loop: the text that replaces one reference site. */
    method ExpandSite(envID: int, key: string, ref: Reference, nextVisited: seq<Position>)
      returns (r: Result<string, Defect>)
      requires Inv()
      requires Visible(cfg, envID, key).Some? && Traced(cfg, root, envID)
      requires TracedSite(cfg, root, Visible(cfg, envID, key).value, ref)
      requires TracedWalk(cfg, root, nextVisited) && nextVisited[|nextVisited| - 1] == Position(envID, key)
      modifies this
      ensures r.Ok? ==> Inv() && Extends(old(envCache), envCache) && Finished(cfg, root, old(envCache), envCache)
      ensures r.Ok? ==> SitePlanned(cfg, ref, r.value)
      ensures r.Ok? && SpliceSafe(cfg, root) ==> SiteMeaning(cfg, ref) == Some(r.value)
      ensures r.Ok? ==> ref.envName in cfg.names && cfg.names[ref.envName] in envCache
      ensures r.Ok? ==> SiteAsCached(cfg, old(envCache), ref, r.value, envCache)
      ensures EnoughSite(cfg, old(envCache), ref, nextVisited) ==> r.Ok?
      ensures r.Err? ==> Reported(cfg, root, r.error)
      decreases cfg.envs.Keys - envCache.Keys, 1, Grid(cfg) - (set v | v in nextVisited), 1
    {
      hide Meaning, View, Matches, Reaches, Traced, Reported, SpliceSafe, Planned, EnvDone, Grid, SitesMean, Ready, AsCached, SiteAsCached;
      var target := ResolveEnvName(ref.envName);
      if target.None? {
        UnknownEnvFound(cfg, root, envID, key, ref);
        return Err(UnknownEnv(ref.envName));
      }
      var t := target.value;
      TargetTraced(cfg, root, envID, key, ref, t);
      var snap := SnapshotOf(t, []);
      if snap.Err? { return Err(snap.error); }
      ghost var mid := envCache;
      assert EnvOK(cfg, root, t, envCache[t], envCache.Keys);
      if ref.keyName !in snap.value {
        UnknownKeyFound(cfg, root, envID, key, ref, t);
        return Err(UnknownKey(t, ref.keyName));
      }
      TargetReady(cfg, root, envID, key, ref, t, envCache);
      TracedExtends(cfg, root, envID, key, ref, t, nextVisited);
      if EnoughSite(cfg, old(envCache), ref, nextVisited) { EnoughTarget(cfg, old(envCache), ref, t, nextVisited); }
      r := Expand(t, ref.keyName, snap.value[ref.keyName].value, nextVisited);
      if r.Ok? {
        FinishedTrans(cfg, root, old(envCache), mid, envCache);
        SiteCached(cfg, old(envCache), ref, t, mid, r.value, envCache);
      }
    }
  }

  // ---- Frame lemmas for the descent ----

  lemma HoldsHere(cache: map<int, Snapshot>, e: int, k: string)
    requires e in cache && k in cache[e]
    ensures Holds(cache, Position(e, k))
  {
  }

  lemma EnoughTarget(cfg: Config, cache: map<int, Snapshot>, ref: Reference, t: int, visited: seq<Position>)
    requires EnoughSite(cfg, cache, ref, visited) && ref.envName in cfg.names && cfg.names[ref.envName] == t
    ensures t in cache && ref.keyName in cache[t] && Enough(cfg, cache, cache[t][ref.keyName].value, visited)
  {
    hide ExpandIn, Above;
    var n: nat :| SiteIn(cfg, cache, ref, n).Some? && n > 0 && Above(cfg, cache, visited, n - 1);
    assert ExpandIn(cfg, cache, cache[t][ref.keyName].value, n - 1).Some?;
  }

  lemma PlainExpansion(cfg: Config, value: string)
    requires Matches(value) == []
    ensures OneExpansion(cfg, value, value)
  {
    SubstituteNone(value);
    assert SitesPlanned(cfg, Matches(value), []);
  }

  lemma ExpansionEnd(cfg: Config, root: int, text: string, vals: seq<string>, out: string)
    requires Spliced(cfg, root, text, 0, vals, out)
    ensures OneExpansion(cfg, text, out)
  {
    hide SpliceSafe, Matches, SitesPlanned, SitesMean, Substitute;
    assert Matches(text)[0..] == Matches(text);
  }

  lemma CachedView(cfg: Config, root: int, e: int, cache: map<int, Snapshot>)
    requires CacheOK(cfg, root, cache) && e in cache
    ensures View(cfg, e).Some? && cache[e].Keys == View(cfg, e).value.Keys
    ensures forall k :: k in cache[e] ==> Visible(cfg, e, k) == Some(View(cfg, e).value[k])
  {
    assert EnvOK(cfg, root, e, cache[e], cache.Keys);
  }

  lemma WalkExtends(cfg: Config, w: seq<int>, p: int)
    requires InheritWalk(cfg, w) && Parent(cfg, w[|w| - 1], p)
    ensures InheritWalk(cfg, w + [p])
  {
    var u := w + [p];
    forall i | 0 < i < |u| ensures Parent(cfg, u[i - 1], u[i]) {
      if i < |w| { assert w[i] == u[i]; }
    }
  }

  lemma WalkStart(cfg: Config, root: int, p: Position)
    requires Traced(cfg, root, p.env)
    ensures TracedWalk(cfg, root, [] + [p])
  {
  }

  lemma TracedUp(cfg: Config, root: int, w: seq<int>)
    requires InheritWalk(cfg, w) && Traced(cfg, root, w[0])
    ensures Traced(cfg, root, w[|w| - 1])
  {
    hide SpliceSafe, Reaches, InheritWalk;
    if SpliceSafe(cfg, root) { ReachesUp(cfg, root, w); }
  }

  lemma ReferExtends(cfg: Config, w: seq<Position>, p: Position)
    requires ReferWalk(cfg, w) && Refers(cfg, w[|w| - 1], p)
    ensures ReferWalk(cfg, w + [p]) && (w + [p])[0] == w[0]
  {
    var u := w + [p];
    forall i | 0 < i < |u| ensures Refers(cfg, u[i - 1], u[i]) {
      if i < |w| { assert w[i] == u[i]; }
    }
  }

  /** merged holds the cached entries of p, overlaid by what e owns. */
  ghost predicate Inherits(cfg: Config, e: int, p: int, cache: map<int, Snapshot>, merged: Snapshot) {
    && p in cache
    && merged.Keys == cache[p].Keys + OwnOf(cfg, e).Keys
    && forall k :: k in merged && k !in OwnOf(cfg, e) ==> merged[k] == cache[p][k]
  }

  /** The merged map of a new env: own entries raw, inherited ones raw or final. */
  lemma MergedReady(cfg: Config, root: int, e: int, parent: Option<int>, cache: map<int, Snapshot>, merged: Snapshot)
    requires cfg.Valid() && CacheOK(cfg, root, cache) && Traced(cfg, root, e)
    requires forall k :: k in merged && k in OwnOf(cfg, e) ==> merged[k] == RawEntry(OwnOf(cfg, e)[k])
    requires parent.None? ==> IsRoot(cfg, e) && merged.Keys == OwnOf(cfg, e).Keys
    requires parent.Some? ==> Parent(cfg, e, parent.value) && Inherits(cfg, e, parent.value, cache, merged)
    ensures ParentCached(cfg, e, cache.Keys) && Progress(cfg, root, e, merged, merged.Keys, cache.Keys)
  {
    if parent.None? {
      ViewRoot(cfg, e);
    } else {
      var p := parent.value;
      ViewChild(cfg, e, p);
      assert EnvOK(cfg, root, p, cache[p], cache.Keys);
      forall k | k in merged ensures Ready(cfg, root, View(cfg, e).value[k], merged[k], cache.Keys) {
        if k !in OwnOf(cfg, e) {
          assert EntryOK(cfg, root, View(cfg, p).value[k], cache[p][k], cache.Keys);
          assert Visible(cfg, p, k).Some?;
          assert SpliceSafe(cfg, root) ==> Reread(cfg, root, p, k);
        }
      }
    }
  }

  /** A cached entry that a reference reads is raw, or final and free of references. */
  lemma TargetReady(cfg: Config, root: int, e: int, key: string, ref: Reference, t: int, cache: map<int, Snapshot>)
    requires CacheOK(cfg, root, cache) && t in cache && ref.keyName in cache[t]
    requires Traced(cfg, root, e) && Visible(cfg, e, key).Some? && ref.envName in cfg.names && cfg.names[ref.envName] == t
    requires TracedSite(cfg, root, Visible(cfg, e, key).value, ref)
    ensures Visible(cfg, t, ref.keyName).Some?
    ensures var s, k := Visible(cfg, t, ref.keyName).value, ref.keyName;
            Ready(cfg, root, s, RawEntry(s).(value := cache[t][k].value), cache.Keys)
  {
    hide Matches, Reaches, SpliceSafe;
    var k := ref.keyName;
    assert EnvOK(cfg, root, t, cache[t], cache.Keys);
    assert EntryOK(cfg, root, View(cfg, t).value[k], cache[t][k], cache.Keys);
    if SpliceSafe(cfg, root) { RereadPlain(cfg, root, e, key, ref, t); }
  }

  lemma RereadPlain(cfg: Config, root: int, e: int, key: string, ref: Reference, t: int)
    requires SpliceSafe(cfg, root) && Reaches(cfg, root, e) && Visible(cfg, e, key).Some?
    requires RefersBy(cfg, Visible(cfg, e, key).value.value, ref, Position(t, ref.keyName))
    requires Visible(cfg, t, ref.keyName).Some?
    ensures PlainMeaning(cfg, Visible(cfg, t, ref.keyName).value.value)
  {
    assert Refers(cfg, Position(e, key), Position(t, ref.keyName));
    assert Reread(cfg, root, t, ref.keyName);
  }

  /** In the splice loop, the sites from i on are already replaced in out by their meanings. */
  ghost predicate Spliced(cfg: Config, root: int, text: string, i: nat, vals: seq<string>, out: string) {
    var refs := Matches(text);
    && i <= |refs| && SitesPlanned(cfg, refs[i..], vals)
    && (SpliceSafe(cfg, root) ==> SitesMean(cfg, refs[i..], vals))
    && Ordered(text, 0, refs[i..]) && out == Substitute(text, refs[i..], vals)
  }

  /** The environments named by the sites from i on are cached. */
  ghost predicate CachedFrom(cfg: Config, refs: seq<Reference>, i: nat, cached: set<int>) {
    forall j :: i <= j < |refs| ==> refs[j].envName in cfg.names && cfg.names[refs[j].envName] in cached
  }

  lemma CachedStart(cfg: Config, refs: seq<Reference>, cached: set<int>)
    ensures CachedFrom(cfg, refs, |refs|, cached)
  {
  }

  lemma CachedStep(cfg: Config, refs: seq<Reference>, i: nat, before: map<int, Snapshot>, cache: map<int, Snapshot>)
    requires i < |refs| && CachedFrom(cfg, refs, i + 1, before.Keys) && Extends(before, cache)
    requires refs[i].envName in cfg.names && cfg.names[refs[i].envName] in cache
    ensures CachedFrom(cfg, refs, i, cache.Keys)
  {
  }

  lemma CachedEnd(cfg: Config, text: string, cached: set<int>)
    requires CachedFrom(cfg, Matches(text), 0, cached)
    ensures TargetsCached(cfg, text, cached)
  {
    hide Matches;
  }

  lemma ReadyPlain(cfg: Config, root: int, s: Secret, value: string, cached: set<int>)
    requires Ready(cfg, root, s, RawEntry(s).(value := value), cached) && Matches(value) == []
    ensures DoneEntry(cfg, root, s, RawEntry(s).(value := value), cached)
  {
    hide SpliceSafe;
    if value == s.value {
      MeaningPlain(cfg, value);
      PlannedIffMeaning(cfg, value);
    }
  }

  lemma ReadyRaw(cfg: Config, root: int, s: Secret, value: string, cached: set<int>)
    requires Ready(cfg, root, s, RawEntry(s).(value := value), cached) && Matches(value) != []
    ensures SpliceSafe(cfg, root) ==> value == s.value
  {
    hide SpliceSafe;
  }

  lemma RawSites(cfg: Config, root: int, s: Secret, value: string)
    requires SpliceSafe(cfg, root) ==> value == s.value
    ensures forall ref :: ref in Matches(value) ==> TracedSite(cfg, root, s, ref)
  {
    hide SpliceSafe, Matches;
  }

  lemma SplicedStart(cfg: Config, root: int, text: string)
    ensures Spliced(cfg, root, text, |Matches(text)|, [], text)
  {
    SubstituteNone(text);
    assert Matches(text)[|Matches(text)|..] == [];
  }

  lemma SplicedStep(cfg: Config, root: int, text: string, i: nat, val: string, vals: seq<string>, out: string)
    requires i < |Matches(text)| && Spliced(cfg, root, text, i + 1, vals, out)
    requires SitePlanned(cfg, Matches(text)[i], val)
    requires SpliceSafe(cfg, root) ==> SiteMeaning(cfg, Matches(text)[i]) == Some(val)
    ensures var r := Matches(text)[i];
            && r.start <= r.end <= |out|
            && Spliced(cfg, root, text, i, [val] + vals, out[..r.start] + val + out[r.end..])
  {
    hide SpliceSafe, SitePlanned, SiteMeaning, Substitute, Ordered;
    var refs := Matches(text);
    SpliceStep(text, refs, i, val, vals, out);
    assert refs[i..] == [refs[i]] + refs[i + 1..];
  }

  lemma SplicedEnd(cfg: Config, root: int, s: Secret, text: string, vals: seq<string>, out: string,
                   was: set<int>, cached: set<int>)
    requires Ready(cfg, root, s, RawEntry(s).(value := text), was) && Matches(text) != [] && was <= cached
    requires Spliced(cfg, root, text, 0, vals, out) && TargetsCached(cfg, text, cached)
    ensures DoneEntry(cfg, root, s, RawEntry(s).(value := out), cached)
  {
    hide SpliceSafe, Matches, SitesPlanned, SitesMean, Planned;
    assert Matches(text)[0..] == Matches(text);
    PlanCompose(cfg, s.value, text, vals);
    if SpliceSafe(cfg, root) { MeaningCompose(cfg, text, vals); }
  }

  // ---- Reported errors are genuine ----

  lemma EnvMissingFound(cfg: Config, root: int)
    requires root !in cfg.envs
    ensures Reported(cfg, root, EnvNotFound(root))
  {
    hide SpliceSafe;
  }

  lemma InheritanceCycleFound(cfg: Config, root: int, visited: seq<int>, e: int)
    requires InheritWalk(cfg, visited + [e]) && Traced(cfg, root, (visited + [e])[0]) && e in visited
    ensures Reported(cfg, root, InheritanceCycle(visited + [e]))
  {
    hide SpliceSafe, Reaches, InheritWalk;
    var w := visited + [e];
    assert w[..|w| - 1] == visited;
  }

  lemma ReferenceCycleFound(cfg: Config, root: int, visited: seq<Position>, p: Position)
    requires TracedWalk(cfg, root, visited + [p]) && p in visited
    ensures Reported(cfg, root, ReferenceCycle(visited + [p]))
  {
    hide SpliceSafe, Reaches, ReferWalk;
    var w := visited + [p];
    assert w[..|w| - 1] == visited;
  }

  lemma UnknownParentFound(cfg: Config, root: int, e: int)
    requires Traced(cfg, root, e) && e in cfg.envs
    requires cfg.envs[e].inheritsFrom != "" && cfg.envs[e].inheritsFrom !in cfg.names
    ensures Reported(cfg, root, UnknownEnv(cfg.envs[e].inheritsFrom))
  {
    hide SpliceSafe, Reaches;
    assert NamedBy(cfg, e, cfg.envs[e].inheritsFrom);
  }

  lemma UnknownEnvFound(cfg: Config, root: int, e: int, key: string, ref: Reference)
    requires Traced(cfg, root, e) && Visible(cfg, e, key).Some? && ref.envName !in cfg.names
    requires TracedSite(cfg, root, Visible(cfg, e, key).value, ref)
    ensures Reported(cfg, root, UnknownEnv(ref.envName))
  {
    hide SpliceSafe, Reaches, Matches;
    if SpliceSafe(cfg, root) {
      var owner := OwnerReached(cfg, root, e, key);
      assert OwnRefers(cfg, owner, key, ref);
      assert NamedBy(cfg, owner, ref.envName);
    }
  }

  /** A reference seen from a visible value is followed from the environment that owns it. */
  lemma TargetReached(cfg: Config, root: int, e: int, key: string, ref: Reference, t: int)
    requires Reaches(cfg, root, e) && Visible(cfg, e, key).Some?
    requires RefersBy(cfg, Visible(cfg, e, key).value.value, ref, Position(t, ref.keyName))
    ensures Reaches(cfg, root, t) && Refers(cfg, Position(e, key), Position(t, ref.keyName))
    ensures View(cfg, t).Some? && Visible(cfg, t, ref.keyName).None? ==> IsDefect(cfg, root, UnknownKey(t, ref.keyName))
  {
    var owner := OwnerReached(cfg, root, e, key);
    assert OwnRefers(cfg, owner, key, ref);
    assert Reads(cfg, owner, t);
    ReachesStep(cfg, root, owner, t);
    assert ReadsKey(cfg, owner, t, ref.keyName);
  }

  lemma TargetTraced(cfg: Config, root: int, e: int, key: string, ref: Reference, t: int)
    requires Traced(cfg, root, e) && Visible(cfg, e, key).Some? && ref.envName in cfg.names && cfg.names[ref.envName] == t
    requires TracedSite(cfg, root, Visible(cfg, e, key).value, ref)
    ensures Traced(cfg, root, t)
  {
    hide SpliceSafe, Reaches, Matches;
    if SpliceSafe(cfg, root) { TargetReached(cfg, root, e, key, ref, t); }
  }

  lemma UnknownKeyFound(cfg: Config, root: int, e: int, key: string, ref: Reference, t: int)
    requires Traced(cfg, root, e) && Visible(cfg, e, key).Some? && ref.envName in cfg.names && cfg.names[ref.envName] == t
    requires TracedSite(cfg, root, Visible(cfg, e, key).value, ref)
    requires View(cfg, t).Some? && Visible(cfg, t, ref.keyName).None?
    ensures Reported(cfg, root, UnknownKey(t, ref.keyName))
  {
    hide SpliceSafe, Reaches, Matches, IsDefect;
    if SpliceSafe(cfg, root) { TargetReached(cfg, root, e, key, ref, t); }
  }

  lemma TracedExtends(cfg: Config, root: int, e: int, key: string, ref: Reference, t: int, w: seq<Position>)
    requires Traced(cfg, root, e) && Visible(cfg, e, key).Some? && ref.envName in cfg.names && cfg.names[ref.envName] == t
    requires TracedSite(cfg, root, Visible(cfg, e, key).value, ref)
    requires TracedWalk(cfg, root, w) && w[|w| - 1] == Position(e, key)
    ensures TracedWalk(cfg, root, w + [Position(t, ref.keyName)])
  {
    hide SpliceSafe, Reaches, Matches, ReferWalk;
    if SpliceSafe(cfg, root) {
      TargetReached(cfg, root, e, key, ref, t);
      ReferExtends(cfg, w, Position(t, ref.keyName));
    }
  }

  lemma CacheMerged(cfg: Config, root: int, e: int, cache: map<int, Snapshot>, merged: Snapshot)
    requires CacheOK(cfg, root, cache) && e in cfg.envs
    requires ParentCached(cfg, e, cache.Keys) && Progress(cfg, root, e, merged, merged.Keys, cache.Keys)
    ensures CacheOK(cfg, root, cache[e := merged]) && ExtendsBut(e, cache, cache[e := merged])
    ensures Progress(cfg, root, e, merged, merged.Keys, cache[e := merged].Keys)
  {
    var c := cache[e := merged];
    forall f | f in c
      ensures f in cfg.envs && EnvOK(cfg, root, f, c[f], c.Keys) && ParentCached(cfg, f, c.Keys)
    {
      if f != e { assert EnvOK(cfg, root, f, cache[f], cache.Keys); }
    }
  }

  lemma FinishedSelf(cfg: Config, root: int, cache: map<int, Snapshot>)
    ensures Extends(cache, cache) && Finished(cfg, root, cache, cache)
  {
  }

  lemma ProgressStep(cfg: Config, root: int, e: int, before: map<int, Snapshot>, remaining: set<string>, k: string,
                     cache: map<int, Snapshot>)
    requires e in before && before.Keys <= cache.Keys && k in remaining
    requires Progress(cfg, root, e, before[e], remaining, before.Keys)
    requires k in cache[e] && cache[e] == before[e][k := cache[e][k]]
    requires DoneEntry(cfg, root, View(cfg, e).value[k], cache[e][k], cache.Keys)
    ensures Progress(cfg, root, e, cache[e], remaining - {k}, cache.Keys)
  {
    hide View, Meaning, Planned, SpliceSafe, Matches;
  }

  lemma ProgressEnd(cfg: Config, root: int, e: int, snap: Snapshot, cached: set<int>)
    requires Progress(cfg, root, e, snap, {}, cached)
    ensures EnvDone(cfg, root, e, snap, cached)
  {
  }

  /** Writing a final value back keeps the cache consistent. */
  lemma WriteBack(cfg: Config, root: int, e: int, k: string, r: ResolvedSecret, cache: map<int, Snapshot>)
    requires CacheOK(cfg, root, cache) && e in cache && k in cache[e] && View(cfg, e).Some?
    requires k in View(cfg, e).value && DoneEntry(cfg, root, View(cfg, e).value[k], r, cache.Keys)
    ensures CacheOK(cfg, root, cache[e := cache[e][k := r]])
  {
    var c := cache[e := cache[e][k := r]];
    assert c.Keys == cache.Keys;
    forall f | f in c
      ensures f in cfg.envs && EnvOK(cfg, root, f, c[f], c.Keys) && ParentCached(cfg, f, c.Keys)
    {
      assert EnvOK(cfg, root, f, cache[f], cache.Keys);
    }
  }

  lemma FinishedBut(cfg: Config, root: int, e: int, a: map<int, Snapshot>, b: map<int, Snapshot>, c: map<int, Snapshot>)
    requires e in a && ExtendsBut(e, a, b) && ExtendsBut(e, b, c) && Finished(cfg, root, a, b) && Finished(cfg, root, b, c)
    ensures ExtendsBut(e, a, c) && Finished(cfg, root, a, c)
  {
    forall f | f in c && f !in a ensures EnvDone(cfg, root, f, c[f], c.Keys) {
      if f in b { DoneMonotone(cfg, root, f, b[f], b.Keys, c.Keys); }
    }
  }

  /** What a whole snapshot call did, from its stages. */
  lemma SnapshotFrame(cfg: Config, root: int, e: int, was: map<int, Snapshot>, afterParent: map<int, Snapshot>,
                      started: map<int, Snapshot>, cache: map<int, Snapshot>)
    requires e !in was && Extends(was, afterParent) && Finished(cfg, root, was, afterParent)
    requires ExtendsBut(e, afterParent, started) && started.Keys == afterParent.Keys + {e}
    requires ExtendsBut(e, started, cache) && Finished(cfg, root, started, cache)
    requires EnvDone(cfg, root, e, cache[e], cache.Keys)
    ensures Extends(was, cache) && Finished(cfg, root, was, cache)
  {
    forall f | f in cache && f !in was ensures EnvDone(cfg, root, f, cache[f], cache.Keys) {
      if f != e && f in afterParent {
        DoneMonotone(cfg, root, f, afterParent[f], afterParent.Keys, cache.Keys);
      }
    }
  }

  // ---- A finished cache leaves no defect ----

  lemma {:induction false} ViewEnds(cfg: Config, e: int, n: nat)
    requires ViewWithin(cfg, e, n).Some?
    ensures e in cfg.envs && (cfg.envs[e].inheritsFrom == "" || cfg.envs[e].inheritsFrom in cfg.names)
  {
  }

  lemma OwnVisible(cfg: Config, e: int, key: string)
    requires View(cfg, e).Some? && key in OwnOf(cfg, e)
    ensures key in View(cfg, e).value && View(cfg, e).value[key] == OwnOf(cfg, e)[key]
  {
    var n: nat :| ViewWithin(cfg, e, n).Some?;
    ViewIs(cfg, e, n);
  }

  ghost predicate Complete(cfg: Config, root: int, cache: map<int, Snapshot>) {
    CacheOK(cfg, root, cache) && Finished(cfg, root, map[], cache)
  }

  lemma CompleteOwn(cfg: Config, root: int, cache: map<int, Snapshot>, e: int, key: string, ref: Reference)
    requires Complete(cfg, root, cache) && e in cache && OwnRefers(cfg, e, key, ref)
    ensures ref.envName in cfg.names && cfg.names[ref.envName] in cache
    ensures SiteMeaning(cfg, ref).Some?
  {
    assert EnvDone(cfg, root, e, cache[e], cache.Keys);
    OwnVisible(cfg, e, key);
    var text := OwnOf(cfg, e)[key].value;
    assert DoneEntry(cfg, root, View(cfg, e).value[key], cache[e][key], cache.Keys);
    PlannedIffMeaning(cfg, text);
    var vals := MeaningSites(cfg, text);
    var i :| 0 <= i < |Matches(text)| && Matches(text)[i] == ref;
    assert SiteMeaning(cfg, Matches(text)[i]) == Some(vals[i]);
  }

  lemma CompleteClosed(cfg: Config, root: int, cache: map<int, Snapshot>, e: int, f: int)
    requires Complete(cfg, root, cache) && e in cache && Reads(cfg, e, f)
    ensures f in cache
  {
    if !Parent(cfg, e, f) {
      var key, ref :| OwnRefers(cfg, e, key, ref) && ref.envName in cfg.names && cfg.names[ref.envName] == f;
      CompleteOwn(cfg, root, cache, e, key, ref);
    }
  }

  lemma {:induction false} CompleteReaches(cfg: Config, root: int, cache: map<int, Snapshot>, w: seq<int>)
    requires Complete(cfg, root, cache) && ReadWalk(cfg, w) && w[0] in cache
    ensures w[|w| - 1] in cache
    decreases |w|
  {
    hide Complete, Reads;
    if |w| > 1 {
      var u := w[..|w| - 1];
      forall i | 0 < i < |u| ensures Reads(cfg, u[i - 1], u[i]) { assert w[i] == u[i]; }
      CompleteReaches(cfg, root, cache, u);
      assert Reads(cfg, w[|w| - 2], w[|w| - 1]);
      CompleteClosed(cfg, root, cache, w[|w| - 2], w[|w| - 1]);
    }
  }

  lemma CompleteReached(cfg: Config, cache: map<int, Snapshot>, root: int, e: int)
    requires Complete(cfg, root, cache) && root in cache && Reaches(cfg, root, e)
    ensures e in cache && View(cfg, e).Some?
  {
    var w :| ReadWalkTo(cfg, w, root, e);
    CompleteReaches(cfg, root, cache, w);
    assert EnvDone(cfg, root, e, cache[e], cache.Keys);
  }

  lemma NoInheritanceCycle(cfg: Config, cache: map<int, Snapshot>, root: int, w: seq<int>)
    requires Complete(cfg, root, cache) && root in cache
    ensures !IsDefect(cfg, root, InheritanceCycle(w))
  {
    if IsDefect(cfg, root, InheritanceCycle(w)) {
      var i :| 0 <= i < |w| - 1 && w[i] == w[|w| - 1];
      var pre, loop := w[..i + 1], w[i..];
      forall j | 0 < j < |pre| ensures Parent(cfg, pre[j - 1], pre[j]) { assert w[j] == pre[j]; }
      forall j | 0 < j < |loop| ensures Parent(cfg, loop[j - 1], loop[j]) { assert w[i + j] == loop[j]; }
      ReachesUp(cfg, root, pre);
      CompleteReached(cfg, cache, root, w[i]);
      var n: nat :| ViewWithin(cfg, w[i], n).Some?;
      NoInheritanceLoop(cfg, loop, n);
    }
  }

  lemma {:induction false} ReferReaches(cfg: Config, root: int, w: seq<Position>)
    requires ReferWalk(cfg, w) && Reaches(cfg, root, w[0].env)
    ensures Reaches(cfg, root, w[|w| - 1].env)
    decreases |w|
  {
    if |w| > 1 {
      assert Refers(cfg, w[0], w[1]);
      var ref :| RefersBy(cfg, Visible(cfg, w[0].env, w[0].key).value.value, ref, w[1]);
      TargetReached(cfg, root, w[0].env, w[0].key, ref, w[1].env);
      var u := w[1..];
      forall i | 0 < i < |u| ensures Refers(cfg, u[i - 1], u[i]) { assert w[i + 1] == u[i]; }
      ReferReaches(cfg, root, u);
    }
  }

  lemma CompleteMeaning(cfg: Config, cache: map<int, Snapshot>, root: int, e: int, key: string)
    requires Complete(cfg, root, cache) && root in cache && Reaches(cfg, root, e) && Visible(cfg, e, key).Some?
    ensures HasMeaning(cfg, Visible(cfg, e, key).value.value)
  {
    CompleteReached(cfg, cache, root, e);
    assert EnvDone(cfg, root, e, cache[e], cache.Keys);
    assert DoneEntry(cfg, root, View(cfg, e).value[key], cache[e][key], cache.Keys);
    PlannedIffMeaning(cfg, Visible(cfg, e, key).value.value);
  }

  lemma ReferSub(cfg: Config, w: seq<Position>, i: nat, j: nat)
    requires ReferWalk(cfg, w) && i < j <= |w|
    ensures ReferWalk(cfg, w[i..j])
  {
    var u := w[i..j];
    forall k | 0 < k < |u| ensures Refers(cfg, u[k - 1], u[k]) { assert w[i + k] == u[k]; }
  }

  lemma NoReferenceCycle(cfg: Config, cache: map<int, Snapshot>, root: int, w: seq<Position>)
    requires Complete(cfg, root, cache) && root in cache
    ensures !IsDefect(cfg, root, ReferenceCycle(w))
  {
    if IsDefect(cfg, root, ReferenceCycle(w)) {
      var i :| 0 <= i < |w| - 1 && w[i] == w[|w| - 1];
      NoCycleAt(cfg, cache, root, w, i);
    }
  }

  lemma NoCycleAt(cfg: Config, cache: map<int, Snapshot>, root: int, w: seq<Position>, i: nat)
    requires ReferWalk(cfg, w) && Complete(cfg, root, cache) && root in cache && Reaches(cfg, root, w[0].env)
    requires i < |w| - 1 && w[i] == w[|w| - 1]
    ensures false
  {
    hide Complete, Reaches, Visible, Matches;
    ReferSub(cfg, w, 0, i + 1);
    ReferSub(cfg, w, i, |w|);
    ReferReaches(cfg, root, w[0..i + 1]);
    assert Refers(cfg, w[i..][0], w[i..][1]);
    CompleteMeaning(cfg, cache, root, w[i].env, w[i].key);
    var n: nat :| MeaningWithin(cfg, Visible(cfg, w[i].env, w[i].key).value.value, n).Some?;
    NoReferenceLoop(cfg, w[i..], n);
  }

  lemma NoUnknown(cfg: Config, cache: map<int, Snapshot>, root: int, d: Defect)
    requires Complete(cfg, root, cache) && root in cache && (d.UnknownEnv? || d.UnknownKey?)
    ensures !IsDefect(cfg, root, d)
  {
    if IsDefect(cfg, root, d) {
      match d {
        case UnknownEnv(name) =>
          var e :| Reaches(cfg, root, e) && NamedBy(cfg, e, name);
          CompleteReached(cfg, cache, root, e);
          if e in cfg.envs && cfg.envs[e].inheritsFrom == name {
            var n: nat :| ViewWithin(cfg, e, n).Some?;
            ViewEnds(cfg, e, n);
          }
          var key, ref :| OwnRefers(cfg, e, key, ref) && ref.envName == name;
          CompleteOwn(cfg, root, cache, e, key, ref);
        case UnknownKey(f, key) =>
          var e :| Reaches(cfg, root, e) && ReadsKey(cfg, e, f, key);
          CompleteReached(cfg, cache, root, e);
          var own, ref :| OwnRefers(cfg, e, own, ref) && RefersBy(cfg, OwnOf(cfg, e)[own].value, ref, Position(f, key));
          CompleteOwn(cfg, root, cache, e, own, ref);
      }
    }
  }

  lemma NoDefect(cfg: Config, cache: map<int, Snapshot>, root: int, d: Defect)
    requires Complete(cfg, root, cache) && root in cache
    ensures !IsDefect(cfg, root, d)
  {
    match d
    case EnvNotFound(_) =>
    case InheritanceCycle(w) => NoInheritanceCycle(cfg, cache, root, w);
    case ReferenceCycle(w) => NoReferenceCycle(cfg, cache, root, w);
    case UnknownEnv(_) => NoUnknown(cfg, cache, root, d);
    case UnknownKey(_, _) => NoUnknown(cfg, cache, root, d);
  }

  // ---- The resolver ----

  /** snap is the resolved view of e: its inherited keys, the nearest owner's row, the owner's meaning. */
  ghost predicate IsResolved(cfg: Config, e: int, snap: Snapshot) {
    && ViewKeys(cfg, e, snap)
    && forall k :: k in snap ==> IsResolvedEntry(cfg, View(cfg, e).value[k], snap[k])
  }

  ghost predicate IsResolvedEntry(cfg: Config, s: Secret, r: ResolvedSecret) {
    && r.secretID == s.id && r.version == s.version && r.updatedAt == s.updatedAt
    && Meaning(cfg, s.value) == Some(r.value)
  }

  /**
   * Whatever the texts are: the inherited keys, each with the nearest owner's row
   * and a value planned for that row's text.
   */
  ghost predicate IsEvaluated(cfg: Config, e: int, snap: Snapshot) {
    && ViewKeys(cfg, e, snap)
    && forall k :: k in snap ==> SameRow(View(cfg, e).value[k], snap[k]) && Planned(cfg, View(cfg, e).value[k].value, snap[k].value)
  }

  /**
   * On every configuration Resolve ends, and succeeds only where no reachable
   * defect exists, with the inherited keys, their owners' rows and planned values;
   * otherwise it names a cycle or a missing name. Where splicing is safe the
   * values are the meanings and the error is a reachable defect, so that it
   * succeeds exactly on the configurations without one. For an environment without
   * a parent, pick decides the order in which its keys are expanded.
   */
  method Resolve(cfg: Config, envID: int, pick: Picker) returns (r: Result<Snapshot, Defect>)
    requires cfg.Valid()
    ensures r.Ok? ==> IsEvaluated(cfg, envID, r.value) && forall d :: !IsDefect(cfg, envID, d)
    ensures r.Err? ==> Reported(cfg, envID, r.error)
    ensures IsRoot(cfg, envID) ==> exists cache ::
              && RoundedOnce(cfg, pick, map[envID := RawOwn(cfg, envID)], envID, r.Ok?, cache)
              && (r.Ok? ==> envID in cache && r.value == cache[envID])
    ensures SpliceSafe(cfg, envID) ==>
              && (r.Ok? ==> IsResolved(cfg, envID, r.value))
              && (r.Err? ==> IsDefect(cfg, envID, r.error))
  {
    hide Meaning, View, Matches, IsDefect, SpliceSafe, Reaches, Planned, RoundedOnce, RawOwn;
    var rc := new ResolveCtx(cfg, pick, envID);
    ReachesSelf(cfg, envID);
    assert ([] + [envID])[0] == envID;
    r := rc.SnapshotOf(envID, []);
    if r.Ok? {
      forall d ensures !IsDefect(cfg, envID, d) { NoDefect(cfg, rc.envCache, envID, d); }
      assert EnvDone(cfg, envID, envID, rc.envCache[envID], rc.envCache.Keys);
    }
  }
}
