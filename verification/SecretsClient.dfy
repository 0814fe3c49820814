/**
 * The SDK's secrets client: a per-key cache, single-flight fetches, and a
 * generation counter that keeps a fetch overtaken by reload() out of the cache.
 *
 * A promise is an identity drawn from a counter. The code after each `await`
 * is a method of its own that takes the variables its closure captured.
 */
module SecretsClient {
  import opened Wrappers

  datatype Secret = Secret(key: string, value: string, version: int)

  datatype CacheEntry = CacheEntry(secret: Secret, fetchedAt: int)

  /** The client's fields. */
  datatype Client = Client(
    cache: map<string, CacheEntry>,
    inflight: map<string, nat>,
    allInflight: Option<nat>,
    epoch: nat,
    nextPromise: nat)

  /** What a read gives its caller at once: a cached secret, or a promise to wait for. */
  datatype Outcome = Hit(secret: Secret) | Wait(promise: nat)

  const Initial := Client(map[], map[], None, 0, 0)

  predicate IsStale(ttlMs: int, fetchedAt: int, now: int) { ttlMs <= 0 || now - fetchedAt >= ttlMs }

  predicate FreshIn(c: Client, ttlMs: int, key: string, now: int) {
    key in c.cache && !IsStale(ttlMs, c.cache[key].fetchedAt, now)
  }

  // ---- One method call or continuation, as a function of the fields ----

  /** getSecret starts a fetch: nothing fresh is cached and no flight is registered for key. */
  predicate GetStarts(c: Client, ttlMs: int, key: string, now: int) {
    !FreshIn(c, ttlMs, key, now) && key !in c.inflight
  }

  function AfterGet(c: Client, ttlMs: int, key: string, now: int): Client {
    if GetStarts(c, ttlMs, key, now) then
      c.(inflight := c.inflight[key := c.nextPromise], nextPromise := c.nextPromise + 1)
    else c
  }

  function GetOutcome(c: Client, ttlMs: int, key: string, now: int): Outcome {
    if FreshIn(c, ttlMs, key, now) then Hit(c.cache[key].secret)
    else if key in c.inflight then Wait(c.inflight[key])
    else Wait(c.nextPromise)
  }

  function AfterPreload(c: Client): Client {
    if c.allInflight.None? then c.(allInflight := Some(c.nextPromise), nextPromise := c.nextPromise + 1) else c
  }

  function PreloadPromise(c: Client): nat { if c.allInflight.None? then c.nextPromise else c.allInflight.value }

  function AfterReload(c: Client, key: string): Client {
    c.(cache := c.cache - {key}, inflight := c.inflight - {key}, epoch := c.epoch + 1)
  }

  function AfterReloadAll(c: Client): Client {
    c.(cache := map[], inflight := map[], allInflight := None, epoch := c.epoch + 1)
  }

  function AfterOne(c: Client, key: string, startEpoch: nat, secret: Secret, now: int): Client {
    if c.epoch == startEpoch then c.(cache := c.cache[key := CacheEntry(secret, now)]) else c
  }

  function AfterAll(c: Client, startEpoch: nat, secrets: map<string, Secret>, now: int): Client {
    if c.epoch == startEpoch then c.(cache := c.cache + map k | k in secrets :: CacheEntry(secrets[k], now)) else c
  }

  function AfterCleanupOne(c: Client, key: string, owned: nat): Client {
    if key in c.inflight && c.inflight[key] == owned then c.(inflight := c.inflight - {key}) else c
  }

  function AfterCleanupAll(c: Client, owned: nat): Client {
    if c.allInflight == Some(owned) then c.(allInflight := None) else c
  }

  // ---- The class ----

  class SecretsClient {
    const ttlMs: int
    var cache: map<string, CacheEntry>
    var inflight: map<string, nat>
    var allInflight: Option<nat>
    var epoch: nat
    var nextPromise: nat

    constructor (ttlMs: int)
      ensures State() == Initial && this.ttlMs == ttlMs
    {
      this.ttlMs := ttlMs;
      cache, inflight, allInflight, epoch, nextPromise := map[], map[], None, 0, 0;
    }

    function State(): Client
      reads this
    {
      Client(cache, inflight, allInflight, epoch, nextPromise)
    }

    method GetSecret(key: string, now: int) returns (out: Outcome)
      modifies this
      ensures State() == AfterGet(old(State()), ttlMs, key, now)
      ensures out == GetOutcome(old(State()), ttlMs, key, now)
      ensures out.Hit? <==> old(key in cache && ttlMs > 0 && now < cache[key].fetchedAt + ttlMs)
    {
      if key in cache {
        var stale := ttlMs <= 0 || now - cache[key].fetchedAt >= ttlMs;
        if !stale { return Hit(cache[key].secret); }
      }
      if key !in inflight {
        var owned := nextPromise;
        nextPromise := nextPromise + 1;
        inflight := inflight[key := owned];
      }
      return Wait(inflight[key]);
    }

    method Preload() returns (promise: nat)
      modifies this
      ensures State() == AfterPreload(old(State()))
      ensures promise == PreloadPromise(old(State()))
    {
      if allInflight.None? {
        var owned := nextPromise;
        nextPromise := nextPromise + 1;
        allInflight := Some(owned);
      }
      return allInflight.value;
    }

    method Has(key: string, now: int) returns (b: bool)
      ensures b <==> key in cache && ttlMs > 0 && now < cache[key].fetchedAt + ttlMs
    {
      if key !in cache { return false; }
      return !IsStale(ttlMs, cache[key].fetchedAt, now);
    }

    method Reload(key: Option<string>)
      modifies this
      ensures State() == match key case Some(k) => AfterReload(old(State()), k) case None => AfterReloadAll(old(State()))
    {
      if key.Some? {
        cache := cache - {key.value};
        inflight := inflight - {key.value};
      } else {
        cache := map[];
        inflight := map[];
        allInflight := None;
      }
      epoch := epoch + 1;
    }

    /** fetchOne after its await. */
    method FetchOneResumed(key: string, startEpoch: nat, secret: Secret, now: int)
      modifies this
      ensures State() == AfterOne(old(State()), key, startEpoch, secret, now)
    {
      if epoch == startEpoch { cache := cache[key := CacheEntry(secret, now)]; }
    }

    /** fetchAll after its await: one cache write per secret, in any order (keys are distinct). */
    method FetchAllResumed(startEpoch: nat, secrets: map<string, Secret>, now: int)
      modifies this
      ensures State() == AfterAll(old(State()), startEpoch, secrets, now)
    {
      if epoch == startEpoch {
        var rest := secrets.Keys;
        while rest != {}
          invariant rest <= secrets.Keys
          invariant inflight == old(inflight) && allInflight == old(allInflight)
          invariant epoch == old(epoch) && nextPromise == old(nextPromise)
          invariant cache == old(cache) + map k | k in secrets && k !in rest :: CacheEntry(secrets[k], now)
          decreases rest
        {
          var k :| k in rest;
          cache := cache[k := CacheEntry(secrets[k], now)];
          rest := rest - {k};
        }
      }
    }

    /** The `finally` of one flight: delete the slot only if it is still this flight's. */
    method CleanupOne(key: string, owned: nat)
      modifies this
      ensures State() == AfterCleanupOne(old(State()), key, owned)
    {
      if key in inflight && inflight[key] == owned { inflight := inflight - {key}; }
    }

    method CleanupAll(owned: nat)
      modifies this
      ensures State() == AfterCleanupAll(old(State()), owned)
    {
      if allInflight == Some(owned) { allInflight := None; }
    }
  }

  // ---- Every interleaving ----

  datatype Phase = Running | Settled | Cleaned

  /**
   * One fetch: the key it asks for (None for the whole environment), the
   * generation and step it started at, and what it read from the server when.
   */
  datatype Flight = Flight(key: Option<string>, epoch: nat, started: nat, data: Option<map<string, Secret>>, readAt: nat, phase: Phase)

  /**
   * The client with its flights and its server. `servers[t]` is the server's
   * content after t steps; `origin` records which flight filled a cache entry,
   * `reloads` and `reloadAll` the step after which a key was last reloaded.
   */
  datatype World = World(
    client: Client,
    flights: seq<Flight>,
    servers: seq<map<string, Secret>>,
    origin: map<string, nat>,
    reloads: map<string, nat>,
    reloadAll: nat)

  datatype Event =
    | Get(key: string, now: int)
    | Preload
    | Reload(key: string)
    | ReloadAll
    | ServerWrite(content: map<string, Secret>)
    | ServerRead(flight: nat)
    | Respond(flight: nat, now: int)
    | Fail(flight: nat)
    | Cleanup(flight: nat)

  /** Steps taken so far. */
  function Now(w: World): nat
    requires w.servers != []
  { |w.servers| - 1 }

  function Start(content: map<string, Secret>): World { World(Initial, [], [content], map[], map[], 0) }

  predicate Enabled(w: World, ev: Event) {
    match ev
    case ServerRead(f) => f < |w.flights| && w.flights[f].phase.Running? && w.flights[f].data.None?
    case Respond(f, _) =>
      && f < |w.flights| && w.flights[f].phase.Running? && w.flights[f].data.Some?
      && (w.flights[f].key.Some? ==> w.flights[f].key.value in w.flights[f].data.value)
    case Fail(f) => f < |w.flights| && w.flights[f].phase.Running?
    case Cleanup(f) => f < |w.flights| && w.flights[f].phase.Settled?
    case _ => true
  }

  /** One atomic step: a call, a continuation, or something the server does. */
  function Step(w: World, ttlMs: int, ev: Event): World
    requires w.servers != [] && Enabled(w, ev)
  {
    var c, t, content := w.client, Now(w), w.servers[|w.servers| - 1];
    var next := w.(servers := w.servers + [content]);
    match ev
    case Get(key, now) =>
      next.(client := AfterGet(c, ttlMs, key, now),
            flights := if GetStarts(c, ttlMs, key, now) then w.flights + [Flight(Some(key), c.epoch, t, None, t, Running)] else w.flights)
    case Preload =>
      next.(client := AfterPreload(c),
            flights := if c.allInflight.None? then w.flights + [Flight(None, c.epoch, t, None, t, Running)] else w.flights)
    case Reload(key) =>
      next.(client := AfterReload(c, key), origin := w.origin - {key}, reloads := w.reloads[key := t + 1])
    case ReloadAll =>
      next.(client := AfterReloadAll(c), origin := map[], reloadAll := t + 1)
    case ServerWrite(new_) => w.(servers := w.servers + [new_])
    case ServerRead(f) => next.(flights := w.flights[f := w.flights[f].(data := Some(content), readAt := t)])
    case Respond(f, now) =>
      var fl := w.flights[f];
      var done := next.(flights := w.flights[f := fl.(phase := Settled)]);
      if c.epoch != fl.epoch then done
      else if fl.key.Some? then
        done.(client := AfterOne(c, fl.key.value, fl.epoch, fl.data.value[fl.key.value], now), origin := w.origin[fl.key.value := f])
      else
        done.(client := AfterAll(c, fl.epoch, fl.data.value, now), origin := w.origin + map k | k in fl.data.value :: f)
    case Fail(f) => next.(flights := w.flights[f := w.flights[f].(phase := Settled)])
    case Cleanup(f) =>
      var fl := w.flights[f];
      next.(client := if fl.key.Some? then AfterCleanupOne(c, fl.key.value, f) else AfterCleanupAll(c, f),
            flights := w.flights[f := fl.(phase := Cleaned)])
  }

  /** The step after which key was last reloaded, by name or with everything else. */
  function Barrier(w: World, key: string): nat {
    if key in w.reloads && w.reloads[key] > w.reloadAll then w.reloads[key] else w.reloadAll
  }

  // ---- The invariant ----

  ghost predicate FlightOK(w: World, f: nat)
    requires f < |w.flights| && w.servers != []
  {
    var fl := w.flights[f];
    && fl.epoch <= w.client.epoch && fl.started <= Now(w) && fl.started <= fl.readAt <= Now(w)
    && (fl.data.Some? ==> fl.data.value == w.servers[fl.readAt])
    && (fl.epoch == w.client.epoch ==> fl.started >= w.reloadAll && forall k :: k in w.reloads ==> fl.started >= w.reloads[k])
    && (fl.phase != Cleaned ==>
          match fl.key
          case Some(k) => fl.started >= Barrier(w, k) ==> k in w.client.inflight && w.client.inflight[k] == f
          case None => fl.started >= w.reloadAll ==> w.client.allInflight == Some(f))
  }

  ghost predicate EntryOK(w: World, k: string)
    requires k in w.client.cache && w.servers != []
  {
    && k in w.origin && w.origin[k] < |w.flights|
    && var fl := w.flights[w.origin[k]];
       && (fl.key == Some(k) || fl.key == None)
       && fl.started >= Barrier(w, k)
       && fl.data.Some? && k in fl.data.value && w.client.cache[k].secret == fl.data.value[k]
  }

  ghost predicate SlotOK(w: World, k: string)
    requires k in w.client.inflight
  {
    var f := w.client.inflight[k];
    f < |w.flights| && w.flights[f].key == Some(k) && w.flights[f].started >= Barrier(w, k) && w.flights[f].phase != Cleaned
  }

  ghost predicate AllSlotOK(w: World) {
    w.client.allInflight.Some? ==>
      var f := w.client.allInflight.value;
      f < |w.flights| && w.flights[f].key == None && w.flights[f].started >= w.reloadAll && w.flights[f].phase != Cleaned
  }

  ghost predicate Inv(w: World) {
    && w.servers != [] && |w.flights| == w.client.nextPromise
    && w.reloadAll <= Now(w) && (forall k :: k in w.reloads ==> w.reloads[k] <= Now(w))
    && (forall f :: 0 <= f < |w.flights| ==> FlightOK(w, f))
    && (forall k :: k in w.client.cache ==> EntryOK(w, k))
    && (forall k :: k in w.client.inflight ==> SlotOK(w, k))
    && AllSlotOK(w)
  }

  lemma StartInv(content: map<string, Secret>)
    ensures Inv(Start(content))
  {
  }

  /** u has w's flights, possibly read or further along, and perhaps more. */
  ghost predicate FlightsGrow(w: World, u: World) {
    && |w.flights| <= |u.flights|
    && forall f :: 0 <= f < |w.flights| ==> FlightKept(w, u, f)
  }

  /** Entries stay good while cache, barriers and their flights stay. */
  lemma EntriesKept(w: World, u: World)
    requires w.servers != [] && u.servers != [] && FlightsGrow(w, u)
    requires forall k :: k in w.client.cache ==> EntryOK(w, k)
    requires u.client.cache == w.client.cache && u.origin == w.origin
    requires u.reloads == w.reloads && u.reloadAll == w.reloadAll
    ensures forall k :: k in u.client.cache ==> EntryOK(u, k)
  {
    forall k | k in u.client.cache ensures EntryOK(u, k) {
      assert EntryOK(w, k);
      assert FlightKept(w, u, w.origin[k]);
    }
  }

  lemma GetInv(w: World, ttlMs: int, key: string, now: int)
    requires Inv(w)
    ensures Inv(Step(w, ttlMs, Get(key, now)))
  {
    var u := Step(w, ttlMs, Get(key, now));
    GetFlights(w, ttlMs, key, now);
    EntriesKept(w, u);
    forall k | k in u.client.inflight ensures SlotOK(u, k) {
      hide FlightOK, EntryOK;
      if k in w.client.inflight { assert SlotOK(w, k); }
    }
  }

  lemma GetFlights(w: World, ttlMs: int, key: string, now: int)
    requires Inv(w)
    ensures var u := Step(w, ttlMs, Get(key, now)); forall f :: 0 <= f < |u.flights| ==> FlightOK(u, f)
  {
    hide EntryOK, SlotOK, AllSlotOK;
    var u := Step(w, ttlMs, Get(key, now));
    forall f | 0 <= f < |u.flights| ensures FlightOK(u, f) {
      if f < |w.flights| { assert FlightOK(w, f); }
    }
  }

  lemma PreloadInv(w: World, ttlMs: int)
    requires Inv(w)
    ensures Inv(Step(w, ttlMs, Preload))
  {
    var u := Step(w, ttlMs, Preload);
    forall f | 0 <= f < |u.flights| ensures FlightOK(u, f) {
      hide EntryOK, SlotOK, AllSlotOK;
      if f < |w.flights| { assert FlightOK(w, f); }
    }
    EntriesKept(w, u);
    forall k | k in u.client.inflight ensures SlotOK(u, k) {
      hide FlightOK, EntryOK;
      assert SlotOK(w, k);
    }
  }

  lemma ReloadInv(w: World, ttlMs: int, ev: Event)
    requires Inv(w) && (ev.Reload? || ev.ReloadAll?)
    ensures Inv(Step(w, ttlMs, ev))
  {
    hide FlightOK, EntryOK;
    var u := Step(w, ttlMs, ev);
    ReloadFlights(w, ttlMs, ev);
    ReloadEntries(w, ttlMs, ev);
    forall k | k in u.client.inflight ensures SlotOK(u, k) { assert SlotOK(w, k); }
  }

  lemma ReloadFlights(w: World, ttlMs: int, ev: Event)
    requires Inv(w) && (ev.Reload? || ev.ReloadAll?)
    ensures var u := Step(w, ttlMs, ev); forall f :: 0 <= f < |u.flights| ==> FlightOK(u, f)
  {
    hide EntryOK, SlotOK, AllSlotOK;
    var u := Step(w, ttlMs, ev);
    forall f | 0 <= f < |u.flights| ensures FlightOK(u, f) { assert FlightOK(w, f); }
  }

  lemma ReloadEntries(w: World, ttlMs: int, ev: Event)
    requires Inv(w) && (ev.Reload? || ev.ReloadAll?)
    ensures var u := Step(w, ttlMs, ev); forall k :: k in u.client.cache ==> EntryOK(u, k)
  {
    hide FlightOK, SlotOK, AllSlotOK;
    var u := Step(w, ttlMs, ev);
    forall k | k in u.client.cache ensures EntryOK(u, k) { assert EntryOK(w, k); }
  }

  lemma ServerInv(w: World, ttlMs: int, ev: Event)
    requires Inv(w) && Enabled(w, ev) && (ev.ServerWrite? || ev.ServerRead? || ev.Fail?)
    ensures Inv(Step(w, ttlMs, ev))
  {
    var u := Step(w, ttlMs, ev);
    ServerFlights(w, ttlMs, ev);
    EntriesKept(w, u);
    forall k | k in u.client.inflight ensures SlotOK(u, k) {
      hide FlightOK, EntryOK;
      assert SlotOK(w, k);
    }
  }

  lemma ServerFlights(w: World, ttlMs: int, ev: Event)
    requires Inv(w) && Enabled(w, ev) && (ev.ServerWrite? || ev.ServerRead? || ev.Fail?)
    ensures var u := Step(w, ttlMs, ev); forall f :: 0 <= f < |u.flights| ==> FlightOK(u, f)
  {
    hide EntryOK, SlotOK, AllSlotOK;
    var u := Step(w, ttlMs, ev);
    forall f | 0 <= f < |u.flights| ensures FlightOK(u, f) { assert FlightOK(w, f); }
  }

  lemma RespondFlights(w: World, ttlMs: int, f: nat, now: int)
    requires Inv(w) && Enabled(w, Respond(f, now))
    ensures var u := Step(w, ttlMs, Respond(f, now)); forall g :: 0 <= g < |u.flights| ==> FlightOK(u, g)
  {
    hide EntryOK, SlotOK, AllSlotOK;
    var u := Step(w, ttlMs, Respond(f, now));
    forall g | 0 <= g < |u.flights| ensures FlightOK(u, g) { assert FlightOK(w, g); }
  }

  /** The response of flight f fills the entry of k. */
  predicate Fills(w: World, f: nat, k: string)
    requires f < |w.flights| && w.flights[f].data.Some?
  {
    var fl := w.flights[f];
    w.client.epoch == fl.epoch && if fl.key.Some? then k == fl.key.value else k in fl.data.value
  }

  lemma RespondFills(w: World, ttlMs: int, f: nat, now: int, k: string)
    requires Inv(w) && Enabled(w, Respond(f, now)) && Fills(w, f, k)
    ensures k in Step(w, ttlMs, Respond(f, now)).client.cache && EntryOK(Step(w, ttlMs, Respond(f, now)), k)
  {
    hide SlotOK, AllSlotOK;
    assert FlightOK(w, f);
    assert Barrier(w, k) <= w.flights[f].started;
  }

  lemma RespondKeeps(w: World, ttlMs: int, f: nat, now: int, k: string)
    requires Inv(w) && Enabled(w, Respond(f, now)) && !Fills(w, f, k) && k in Step(w, ttlMs, Respond(f, now)).client.cache
    ensures EntryOK(Step(w, ttlMs, Respond(f, now)), k)
  {
    hide FlightOK, SlotOK, AllSlotOK;
    assert EntryOK(w, k);
  }

  lemma RespondInv(w: World, ttlMs: int, f: nat, now: int)
    requires Inv(w) && Enabled(w, Respond(f, now))
    ensures Inv(Step(w, ttlMs, Respond(f, now)))
  {
    hide FlightOK, EntryOK, Fills;
    var u := Step(w, ttlMs, Respond(f, now));
    RespondFlights(w, ttlMs, f, now);
    forall k | k in u.client.cache ensures EntryOK(u, k) {
      if Fills(w, f, k) { RespondFills(w, ttlMs, f, now, k); } else { RespondKeeps(w, ttlMs, f, now, k); }
    }
    forall k | k in u.client.inflight ensures SlotOK(u, k) {
      hide FlightOK, EntryOK;
      assert SlotOK(w, k);
    }
  }

  lemma CleanupInv(w: World, ttlMs: int, f: nat)
    requires Inv(w) && Enabled(w, Cleanup(f))
    ensures Inv(Step(w, ttlMs, Cleanup(f)))
  {
    var u := Step(w, ttlMs, Cleanup(f));
    CleanupFlights(w, ttlMs, f);
    EntriesKept(w, u);
    forall k | k in u.client.inflight ensures SlotOK(u, k) {
      hide FlightOK, EntryOK;
      assert SlotOK(w, k);
    }
  }

  lemma CleanupFlights(w: World, ttlMs: int, f: nat)
    requires Inv(w) && Enabled(w, Cleanup(f))
    ensures var u := Step(w, ttlMs, Cleanup(f)); forall g :: 0 <= g < |u.flights| ==> FlightOK(u, g)
  {
    hide EntryOK, SlotOK, AllSlotOK;
    var u := Step(w, ttlMs, Cleanup(f));
    assert FlightOK(w, f);
    forall g | 0 <= g < |u.flights| ensures FlightOK(u, g) { assert FlightOK(w, g); }
  }

  /** Every step keeps the invariant. */
  lemma StepInv(w: World, ttlMs: int, ev: Event)
    requires Inv(w) && Enabled(w, ev)
    ensures Inv(Step(w, ttlMs, ev))
  {
    match ev
    case Get(key, now) => GetInv(w, ttlMs, key, now);
    case Preload => PreloadInv(w, ttlMs);
    case Reload(_) => ReloadInv(w, ttlMs, ev);
    case ReloadAll => ReloadInv(w, ttlMs, ev);
    case ServerWrite(_) => ServerInv(w, ttlMs, ev);
    case ServerRead(_) => ServerInv(w, ttlMs, ev);
    case Respond(f, now) => RespondInv(w, ttlMs, f, now);
    case Fail(_) => ServerInv(w, ttlMs, ev);
    case Cleanup(f) => CleanupInv(w, ttlMs, f);
  }

  // ---- Runs ----

  /** The worlds a run passes through: ws[0] is a start and each event leads to the next. */
  ghost predicate Run(ws: seq<World>, evs: seq<Event>, ttlMs: int) {
    && |ws| == |evs| + 1 && (exists content :: ws[0] == Start(content))
    && forall i :: 0 <= i < |evs| ==> StepsTo(ws[i], ttlMs, evs[i], ws[i + 1])
  }

  ghost predicate StepsTo(w: World, ttlMs: int, ev: Event, u: World) {
    w.servers != [] && Enabled(w, ev) && u == Step(w, ttlMs, ev)
  }

  lemma {:induction false} RunInv(ws: seq<World>, evs: seq<Event>, ttlMs: int, i: nat)
    requires Run(ws, evs, ttlMs) && i <= |evs|
    ensures Inv(ws[i]) && Now(ws[i]) == i
    decreases i
  {
    if i == 0 {
      var content :| ws[0] == Start(content);
      StartInv(content);
    } else {
      RunInv(ws, evs, ttlMs, i - 1);
      assert StepsTo(ws[i - 1], ttlMs, evs[i - 1], ws[i]);
      StepInv(ws[i - 1], ttlMs, evs[i - 1]);
    }
  }

  /** ev reloads key, by name or with everything else. */
  predicate Reloads(ev: Event, key: string) { ev == Reload(key) || ev == ReloadAll }

  /** A barrier never goes back, and moves only when key is reloaded. */
  lemma {:induction false} BarrierGrows(ws: seq<World>, evs: seq<Event>, ttlMs: int, key: string, i: nat, j: nat)
    requires Run(ws, evs, ttlMs) && i <= j <= |evs|
    ensures Barrier(ws[i], key) <= Barrier(ws[j], key)
    ensures (forall n :: i <= n < j ==> !Reloads(evs[n], key)) ==> Barrier(ws[i], key) == Barrier(ws[j], key)
    decreases j - i
  {
    if i < j {
      BarrierGrows(ws, evs, ttlMs, key, i, j - 1);
      RunInv(ws, evs, ttlMs, j - 1);
      assert StepsTo(ws[j - 1], ttlMs, evs[j - 1], ws[j]);
    }
  }

  lemma BarrierAfterReload(ws: seq<World>, evs: seq<Event>, ttlMs: int, key: string, i: nat, j: nat)
    requires Run(ws, evs, ttlMs) && i < j <= |evs| && Reloads(evs[i], key)
    ensures Barrier(ws[j], key) >= i + 1
  {
    RunInv(ws, evs, ttlMs, i);
    assert StepsTo(ws[i], ttlMs, evs[i], ws[i + 1]);
    BarrierGrows(ws, evs, ttlMs, key, i + 1, j);
  }

  /** A flight keeps its key and start; once read, its data stays, and cleaning is for good. */
  ghost predicate FlightKept(w: World, u: World, f: nat)
    requires f < |w.flights|
  {
    && f < |u.flights| && u.flights[f].key == w.flights[f].key && u.flights[f].started == w.flights[f].started
    && (w.flights[f].data.Some? ==> u.flights[f].data == w.flights[f].data)
    && (w.flights[f].phase.Cleaned? ==> u.flights[f].phase.Cleaned?)
  }

  lemma {:induction false} FlightsKept(ws: seq<World>, evs: seq<Event>, ttlMs: int, f: nat, i: nat, j: nat)
    requires Run(ws, evs, ttlMs) && i <= j <= |evs| && f < |ws[i].flights|
    ensures FlightKept(ws[i], ws[j], f)
    decreases j - i
  {
    if i < j {
      FlightsKept(ws, evs, ttlMs, f, i, j - 1);
      RunInv(ws, evs, ttlMs, j - 1);
      assert StepsTo(ws[j - 1], ttlMs, evs[j - 1], ws[j]);
    }
  }

  // ---- The reload barrier ----

  /** s is what the server held for key after some step r of at least lo. */
  ghost predicate HeldSince(w: World, key: string, s: Secret, lo: nat) {
    exists r :: lo <= r < |w.servers| && key in w.servers[r] && w.servers[r][key] == s
  }

  /** The fetch that filled key's cache entry started at step lo or later. */
  predicate FilledSince(w: World, key: string, lo: nat) {
    key in w.origin && w.origin[key] < |w.flights| && w.flights[w.origin[key]].started >= lo
  }

  /**
   * After reload(key) or reload() returns at step i, every later cache entry for
   * key comes from a fetch started since, and holds a secret the server held since.
   */
  lemma ReloadBarrierCache(ws: seq<World>, evs: seq<Event>, ttlMs: int, key: string, i: nat, j: nat)
    requires Run(ws, evs, ttlMs) && i < j <= |evs| && Reloads(evs[i], key)
    requires key in ws[j].client.cache
    ensures FilledSince(ws[j], key, i + 1)
    ensures HeldSince(ws[j], key, ws[j].client.cache[key].secret, i + 1)
  {
    RunInv(ws, evs, ttlMs, j);
    BarrierAfterReload(ws, evs, ttlMs, key, i, j);
    var w := ws[j];
    assert EntryOK(w, key);
    assert FlightOK(w, w.origin[key]);
  }

  /**
   * The same for what get(key) hands out when called at step j > i: a cached
   * secret at once, or a flight whose response, whenever it is read, is as new.
   */
  lemma ReloadBarrierGet(ws: seq<World>, evs: seq<Event>, ttlMs: int, key: string, now: int, i: nat, j: nat, m: nat)
    requires Run(ws, evs, ttlMs) && i < j < m <= |evs| && Reloads(evs[i], key) && evs[j] == Get(key, now)
    ensures match GetOutcome(ws[j].client, ttlMs, key, now)
            case Hit(s) => FilledSince(ws[j], key, i + 1) && HeldSince(ws[j], key, s, i + 1)
            case Wait(f) =>
              && f < |ws[m].flights| && ws[m].flights[f].key == Some(key) && ws[m].flights[f].started >= i + 1
              && (ws[m].flights[f].data.Some? && key in ws[m].flights[f].data.value ==>
                    HeldSince(ws[m], key, ws[m].flights[f].data.value[key], i + 1))
  {
    RunInv(ws, evs, ttlMs, j);
    BarrierAfterReload(ws, evs, ttlMs, key, i, j);
    var w := ws[j];
    match GetOutcome(w.client, ttlMs, key, now)
    case Hit(s) =>
      ReloadBarrierCache(ws, evs, ttlMs, key, i, j);
    case Wait(f) =>
      assert StepsTo(w, ttlMs, evs[j], ws[j + 1]);
      if key in w.client.inflight { assert SlotOK(w, key); }
      FlightsKept(ws, evs, ttlMs, f, j + 1, m);
      RunInv(ws, evs, ttlMs, m);
      assert FlightOK(ws[m], f);
  }

  /** What preload() hands out after a keyless reload() is as new as that reload. */
  lemma ReloadBarrierPreload(ws: seq<World>, evs: seq<Event>, ttlMs: int, i: nat, j: nat, m: nat)
    requires Run(ws, evs, ttlMs) && i < j < m <= |evs| && evs[i] == ReloadAll && evs[j] == Preload
    ensures var f := PreloadPromise(ws[j].client);
            && f < |ws[m].flights| && ws[m].flights[f].key == None && ws[m].flights[f].started >= i + 1
            && (ws[m].flights[f].data.Some? ==>
                  exists r :: i + 1 <= r < |ws[m].servers| && ws[m].flights[f].data.value == ws[m].servers[r])
  {
    RunInv(ws, evs, ttlMs, j);
    ReloadAllGrows(ws, evs, ttlMs, i, j);
    var f := PreloadPromise(ws[j].client);
    assert StepsTo(ws[j], ttlMs, evs[j], ws[j + 1]);
    FlightsKept(ws, evs, ttlMs, f, j + 1, m);
    RunInv(ws, evs, ttlMs, m);
    assert FlightOK(ws[m], f);
  }

  lemma {:induction false} ReloadAllGrows(ws: seq<World>, evs: seq<Event>, ttlMs: int, i: nat, j: nat)
    requires Run(ws, evs, ttlMs) && i < j <= |evs| && evs[i] == ReloadAll
    ensures ws[j].reloadAll >= i + 1
    decreases j - i
  {
    RunInv(ws, evs, ttlMs, j - 1);
    assert StepsTo(ws[j - 1], ttlMs, evs[j - 1], ws[j]);
    if i + 1 < j { ReloadAllGrows(ws, evs, ttlMs, i, j - 1); }
  }

  /** The whole-environment slot holds what it held at step i, or a fetch started since. */
  lemma {:induction false} AllSlotSince(ws: seq<World>, evs: seq<Event>, ttlMs: int, i: nat, j: nat)
    requires Run(ws, evs, ttlMs) && i <= j <= |evs|
    ensures |ws[i].flights| <= |ws[j].flights|
    ensures ws[j].client.allInflight.Some? ==>
              ws[j].client.allInflight == ws[i].client.allInflight || ws[j].client.allInflight.value >= |ws[i].flights|
    ensures forall f :: |ws[i].flights| <= f < |ws[j].flights| ==> ws[j].flights[f].started >= i
    decreases j - i
  {
    hide Inv, Step, Enabled;
    if i < j {
      AllSlotSince(ws, evs, ttlMs, i, j - 1);
      RunInv(ws, evs, ttlMs, j - 1);
      assert StepsTo(ws[j - 1], ttlMs, evs[j - 1], ws[j]);
      AllSlotStep(ws[j - 1], ttlMs, evs[j - 1]);
    }
  }

  lemma AllSlotStep(w: World, ttlMs: int, ev: Event)
    requires Inv(w) && Enabled(w, ev)
    ensures var u := Step(w, ttlMs, ev);
            && |w.flights| <= |u.flights|
            && (u.client.allInflight.Some? ==> u.client.allInflight == w.client.allInflight || u.client.allInflight.value >= |w.flights|)
            && (forall f :: 0 <= f < |w.flights| ==> u.flights[f].started == w.flights[f].started)
            && forall f :: |w.flights| <= f < |u.flights| ==> u.flights[f].started == Now(w)
  {
    hide FlightOK, EntryOK, SlotOK, AllSlotOK;
  }

  /**
   * After a keyed reload, any later preload() starts afresh or joins a fetch started
   * since, exactly when the fetch registered at the reload, if any, no longer is.
   */
  lemma PreloadAfterKeyedReload(ws: seq<World>, evs: seq<Event>, ttlMs: int, key: string, i: nat, j: nat)
    requires Run(ws, evs, ttlMs) && i < j < |evs| && evs[i] == Reload(key) && evs[j] == Preload
    ensures var f := PreloadPromise(ws[j].client);
            && f < |ws[j + 1].flights|
            && (ws[j + 1].flights[f].started >= i + 1 <==>
                  ws[i].client.allInflight.None? || ws[j].client.allInflight != ws[i].client.allInflight)
  {
    RunInv(ws, evs, ttlMs, i);
    RunInv(ws, evs, ttlMs, j);
    assert StepsTo(ws[i], ttlMs, evs[i], ws[i + 1]);
    assert StepsTo(ws[j], ttlMs, evs[j], ws[j + 1]);
    AllSlotSince(ws, evs, ttlMs, i + 1, j);
    if ws[i].client.allInflight.Some? {
      var g := ws[i].client.allInflight.value;
      assert FlightOK(ws[i], g);
      FlightsKept(ws, evs, ttlMs, g, i, j + 1);
    }
  }

  /** A run in which preload(), called after reload("K"), answers with the value the server held before. */
  lemma KeyedReloadLeavesOldPreload(older: Secret, newer: Secret) returns (ws: seq<World>, evs: seq<Event>)
    requires older != newer
    ensures Run(ws, evs, 1) && |evs| == 5 && evs[3] == Reload("K") && evs[4] == Preload
    ensures |ws[3].servers| == 4 && ws[3].servers[3] == map["K" := newer]
    ensures var f := PreloadPromise(ws[4].client); f < |ws[5].flights| && ws[5].flights[f].data == Some(map["K" := older])
  {
    evs := [Preload, ServerRead(0), ServerWrite(map["K" := newer]), Reload("K"), Preload];
    var w0 := Start(map["K" := older]);
    var w1 := Step(w0, 1, evs[0]);
    var w2 := Step(w1, 1, evs[1]);
    var w3 := Step(w2, 1, evs[2]);
    var w4 := Step(w3, 1, evs[3]);
    var w5 := Step(w4, 1, evs[4]);
    ws := [w0, w1, w2, w3, w4, w5];
    assert forall i :: 0 <= i < 5 ==> StepsTo(ws[i], 1, evs[i], ws[i + 1]);
  }

  // ---- Single flight ----

  /** Two fetches of one key that are both in progress are separated by a reload of that key. */
  lemma AtMostOneFlight(ws: seq<World>, evs: seq<Event>, ttlMs: int, key: string, j: nat, f: nat, g: nat)
    requires Run(ws, evs, ttlMs) && j <= |evs| && f < |ws[j].flights| && g < |ws[j].flights| && f != g
    requires ws[j].flights[f].key == ws[j].flights[g].key == Some(key)
    requires !ws[j].flights[f].phase.Cleaned? && !ws[j].flights[g].phase.Cleaned?
    ensures ws[j].flights[f].started < Barrier(ws[j], key) || ws[j].flights[g].started < Barrier(ws[j], key)
  {
    RunInv(ws, evs, ttlMs, j);
    assert FlightOK(ws[j], f) && FlightOK(ws[j], g);
  }

  /** Overlapping calls of get(key) with no reload between share one fetch. */
  lemma CallsShareFlight(ws: seq<World>, evs: seq<Event>, ttlMs: int, key: string, now: int, later: int, i: nat, j: nat)
    requires Run(ws, evs, ttlMs) && i < j < |evs| && evs[i] == Get(key, now) && evs[j] == Get(key, later)
    requires GetOutcome(ws[i].client, ttlMs, key, now).Wait?
    requires forall n :: i <= n < j ==> !Reloads(evs[n], key)
    ensures var f := GetOutcome(ws[i].client, ttlMs, key, now).promise;
            && f < |ws[j].flights|
            && (!ws[j].flights[f].phase.Cleaned? && GetOutcome(ws[j].client, ttlMs, key, later).Wait? ==>
                  GetOutcome(ws[j].client, ttlMs, key, later) == Wait(f) && ws[j + 1].flights == ws[j].flights)
  {
    var f := GetOutcome(ws[i].client, ttlMs, key, now).promise;
    RunInv(ws, evs, ttlMs, i);
    RunInv(ws, evs, ttlMs, i + 1);
    RunInv(ws, evs, ttlMs, j);
    assert StepsTo(ws[i], ttlMs, evs[i], ws[i + 1]);
    assert SlotOK(ws[i + 1], key);
    FlightsKept(ws, evs, ttlMs, f, i + 1, j);
    BarrierGrows(ws, evs, ttlMs, key, i + 1, j);
    assert FlightOK(ws[j], f);
    assert StepsTo(ws[j], ttlMs, evs[j], ws[j + 1]);
  }

  ghost predicate Unregistered(c: Client, f: nat) {
    c.allInflight != Some(f) && forall k :: k in c.inflight ==> c.inflight[k] != f
  }

  ghost predicate OtherSlotsKept(c: Client, d: Client, f: nat) {
    && (forall k :: k in c.inflight && c.inflight[k] != f ==> k in d.inflight && d.inflight[k] == c.inflight[k])
    && (c.allInflight != Some(f) ==> d.allInflight == c.allInflight)
  }

  /** A failed fetch writes nothing; after its cleanup step it is registered nowhere. */
  lemma FailureLeavesNoTrace(ws: seq<World>, evs: seq<Event>, ttlMs: int, f: nat, i: nat)
    requires Run(ws, evs, ttlMs) && i < |evs| && (evs[i] == Fail(f) || evs[i] == Cleanup(f))
    ensures evs[i] == Fail(f) ==> ws[i + 1].client == ws[i].client
    ensures evs[i] == Cleanup(f) ==>
              && ws[i + 1].client.cache == ws[i].client.cache
              && Unregistered(ws[i + 1].client, f) && OtherSlotsKept(ws[i].client, ws[i + 1].client, f)
  {
    RunInv(ws, evs, ttlMs, i);
    RunInv(ws, evs, ttlMs, i + 1);
    assert StepsTo(ws[i], ttlMs, evs[i], ws[i + 1]);
    var u := ws[i + 1];
    if evs[i] == Cleanup(f) {
      forall k | k in u.client.inflight ensures u.client.inflight[k] != f { assert SlotOK(u, k); }
    }
  }

  // ---- The age of a cached secret ----

  /** A get is answered from the cache exactly when the entry is younger than the ttl, and never without a positive ttl. */
  lemma HitIff(c: Client, ttlMs: int, key: string, now: int)
    ensures GetOutcome(c, ttlMs, key, now).Hit? <==> key in c.cache && ttlMs > 0 && now < c.cache[key].fetchedAt + ttlMs
    ensures GetOutcome(c, ttlMs, key, now).Hit? ==> GetOutcome(c, ttlMs, key, now).secret == c.cache[key].secret
    ensures GetStarts(c, ttlMs, key, now) ==> !GetOutcome(c, ttlMs, key, now).Hit?
  {
  }

  /** Step i was the response, at clock time `at`, of the fetch that filled key's entry. */
  ghost predicate FilledBy(w: World, evs: seq<Event>, i: nat, key: string) {
    && i < |evs| && key in w.client.cache && key in w.origin
    && evs[i] == Respond(w.origin[key], w.client.cache[key].fetchedAt)
  }

  /** After ev, key's entry is the one before it, or ev is the response that wrote it. */
  ghost predicate FilledNow(w: World, u: World, ev: Event, key: string)
    requires key in u.client.cache
  {
    && key in u.origin
    && (ev == Respond(u.origin[key], u.client.cache[key].fetchedAt)
        || (key in w.client.cache && key in w.origin && u.client.cache[key] == w.client.cache[key] && u.origin[key] == w.origin[key]))
  }

  lemma StepFills(w: World, ttlMs: int, ev: Event, key: string)
    requires Inv(w) && Enabled(w, ev) && key in Step(w, ttlMs, ev).client.cache
    ensures FilledNow(w, Step(w, ttlMs, ev), ev, key)
  {
    hide FlightOK, SlotOK, AllSlotOK;
    if key in w.client.cache { assert EntryOK(w, key); }
    if ev.Respond? { RespondFillsNow(w, ttlMs, ev, key); }
  }

  lemma RespondFillsNow(w: World, ttlMs: int, ev: Event, key: string)
    requires w.servers != [] && Enabled(w, ev) && ev.Respond? && key in Step(w, ttlMs, ev).client.cache
    requires key in w.client.cache ==> key in w.origin
    ensures FilledNow(w, Step(w, ttlMs, ev), ev, key)
  {
  }

  /** Every cache entry was written by a response, with that response's time. */
  lemma {:induction false} EntryHasResponse(ws: seq<World>, evs: seq<Event>, ttlMs: int, j: nat, key: string) returns (i: nat)
    requires Run(ws, evs, ttlMs) && j <= |evs| && key in ws[j].client.cache
    ensures i < j && FilledBy(ws[j], evs, i, key)
    decreases j
  {
    hide Inv, Step, Enabled;
    if j == 0 {
      NothingCached(ws, evs, ttlMs, key);
    }
    RunInv(ws, evs, ttlMs, j - 1);
    assert StepsTo(ws[j - 1], ttlMs, evs[j - 1], ws[j]);
    StepFills(ws[j - 1], ttlMs, evs[j - 1], key);
    if evs[j - 1] == Respond(ws[j].origin[key], ws[j].client.cache[key].fetchedAt) {
      i := j - 1;
    } else {
      i := EntryHasResponse(ws, evs, ttlMs, j - 1, key);
    }
  }

  lemma NothingCached(ws: seq<World>, evs: seq<Event>, ttlMs: int, key: string)
    requires Run(ws, evs, ttlMs)
    ensures key !in ws[0].client.cache
  {
  }

  /**
   * In every run, what a get(key) at clock time now hands out from the cache was
   * written by a response less than ttl before now; without a positive ttl every get waits.
   */
  lemma HitsAreYoung(ws: seq<World>, evs: seq<Event>, ttlMs: int, j: nat, key: string, now: int) returns (i: nat, f: nat, at: int)
    requires Run(ws, evs, ttlMs) && j < |evs| && evs[j] == Get(key, now) && GetOutcome(ws[j].client, ttlMs, key, now).Hit?
    ensures ttlMs > 0 && i < j && evs[i] == Respond(f, at) && now - at < ttlMs
    ensures f < |ws[j].flights| && ws[j].flights[f].data.Some? && key in ws[j].flights[f].data.value
            && GetOutcome(ws[j].client, ttlMs, key, now) == Hit(ws[j].flights[f].data.value[key])
  {
    HitIff(ws[j].client, ttlMs, key, now);
    RunInv(ws, evs, ttlMs, j);
    assert EntryOK(ws[j], key);
    i := EntryHasResponse(ws, evs, ttlMs, j, key);
    f, at := ws[j].origin[key], ws[j].client.cache[key].fetchedAt;
  }

  // ---- A response fills the cache unless a reload came between ----

  predicate AnyReload(ev: Event) { ev.Reload? || ev.ReloadAll? }

  /** The generation moves at reloads and only there. */
  lemma {:induction false} EpochMoves(ws: seq<World>, evs: seq<Event>, ttlMs: int, i: nat, j: nat)
    requires Run(ws, evs, ttlMs) && i <= j <= |evs|
    ensures ws[i].client.epoch <= ws[j].client.epoch
    ensures ws[i].client.epoch == ws[j].client.epoch <==> forall n :: i <= n < j ==> !AnyReload(evs[n])
    decreases j - i
  {
    if i < j {
      EpochMoves(ws, evs, ttlMs, i, j - 1);
      assert StepsTo(ws[j - 1], ttlMs, evs[j - 1], ws[j]);
      StepEpoch(ws[j - 1], ttlMs, evs[j - 1]);
    }
  }

  lemma StepEpoch(w: World, ttlMs: int, ev: Event)
    requires w.servers != [] && Enabled(w, ev)
    ensures Step(w, ttlMs, ev).client.epoch == w.client.epoch + if AnyReload(ev) then 1 else 0
  {
  }

  /** A fetch carries the generation of the step it started at. */
  ghost predicate StartEpochs(ws: seq<World>, j: nat)
    requires j < |ws|
  {
    forall f :: 0 <= f < |ws[j].flights| ==>
      ws[j].flights[f].started < j && ws[j].flights[f].epoch == ws[ws[j].flights[f].started].client.epoch
  }

  lemma StepFlights(w: World, ttlMs: int, ev: Event)
    requires w.servers != [] && Enabled(w, ev)
    ensures var u := Step(w, ttlMs, ev);
            && |w.flights| <= |u.flights|
            && (forall f :: 0 <= f < |w.flights| ==> u.flights[f].started == w.flights[f].started && u.flights[f].epoch == w.flights[f].epoch)
            && forall f :: |w.flights| <= f < |u.flights| ==> u.flights[f].started == Now(w) && u.flights[f].epoch == w.client.epoch
  {
  }

  lemma {:induction false} FlightEpoch(ws: seq<World>, evs: seq<Event>, ttlMs: int, j: nat)
    requires Run(ws, evs, ttlMs) && j <= |evs|
    ensures StartEpochs(ws, j)
    decreases j
  {
    hide Inv, Step, Enabled;
    if j > 0 {
      FlightEpoch(ws, evs, ttlMs, j - 1);
      RunInv(ws, evs, ttlMs, j - 1);
      assert StepsTo(ws[j - 1], ttlMs, evs[j - 1], ws[j]);
      StepFlights(ws[j - 1], ttlMs, evs[j - 1]);
    }
  }

  /**
   * The response of a fetch for key is cached, with its time, exactly when nothing was
   * reloaded since the fetch started; otherwise it changes nothing.
   */
  lemma CachedUnlessReloaded(ws: seq<World>, evs: seq<Event>, ttlMs: int, i: nat, f: nat, at: int, key: string)
    requires Run(ws, evs, ttlMs) && i < |evs| && evs[i] == Respond(f, at)
    requires f < |ws[i].flights| && ws[i].flights[f].key == Some(key)
    ensures ws[i].flights[f].started <= i && ws[i].flights[f].data.Some? && key in ws[i].flights[f].data.value
    ensures (forall n :: ws[i].flights[f].started <= n < i ==> !AnyReload(evs[n])) ==>
              ws[i + 1].client == ws[i].client.(cache := ws[i].client.cache[key := CacheEntry(ws[i].flights[f].data.value[key], at)])
    ensures !(forall n :: ws[i].flights[f].started <= n < i ==> !AnyReload(evs[n])) ==> ws[i + 1].client == ws[i].client
  {
    FlightEpoch(ws, evs, ttlMs, i);
    assert StepsTo(ws[i], ttlMs, evs[i], ws[i + 1]);
    EpochMoves(ws, evs, ttlMs, ws[i].flights[f].started, i);
  }

  /** The same for every key of a whole-environment fetch. */
  lemma AllCachedUnlessReloaded(ws: seq<World>, evs: seq<Event>, ttlMs: int, i: nat, f: nat, at: int)
    requires Run(ws, evs, ttlMs) && i < |evs| && evs[i] == Respond(f, at) && f < |ws[i].flights| && ws[i].flights[f].key == None
    ensures ws[i].flights[f].started <= i && ws[i].flights[f].data.Some?
    ensures (forall n :: ws[i].flights[f].started <= n < i ==> !AnyReload(evs[n])) ==>
              && ws[i + 1].client == ws[i].client.(cache := ws[i + 1].client.cache)
              && ws[i + 1].client.cache.Keys == ws[i].client.cache.Keys + ws[i].flights[f].data.value.Keys
              && forall k :: k in ws[i + 1].client.cache ==>
                   ws[i + 1].client.cache[k] ==
                     (if k in ws[i].flights[f].data.value then CacheEntry(ws[i].flights[f].data.value[k], at) else ws[i].client.cache[k])
    ensures !(forall n :: ws[i].flights[f].started <= n < i ==> !AnyReload(evs[n])) ==> ws[i + 1].client == ws[i].client
  {
    FlightEpoch(ws, evs, ttlMs, i);
    assert StepsTo(ws[i], ttlMs, evs[i], ws[i + 1]);
    EpochMoves(ws, evs, ttlMs, ws[i].flights[f].started, i);
  }

  /** An entry stays, perhaps renewed, until its key is reloaded. */
  lemma {:induction false} CachedUntilReload(ws: seq<World>, evs: seq<Event>, ttlMs: int, key: string, i: nat, j: nat)
    requires Run(ws, evs, ttlMs) && i <= j <= |evs| && key in ws[i].client.cache
    requires forall n :: i <= n < j ==> !Reloads(evs[n], key)
    ensures key in ws[j].client.cache
    decreases j - i
  {
    if i < j {
      CachedUntilReload(ws, evs, ttlMs, key, i, j - 1);
      assert StepsTo(ws[j - 1], ttlMs, evs[j - 1], ws[j]);
    }
  }

  /** Reloading one key leaves every other key's reads and the next preload as they were; reloading all leaves nothing. */
  lemma ReloadIsLocal(c: Client, ttlMs: int, key: string, other: string, now: int)
    ensures other != key ==> GetOutcome(AfterReload(c, key), ttlMs, other, now) == GetOutcome(c, ttlMs, other, now)
    ensures PreloadPromise(AfterReload(c, key)) == PreloadPromise(c)
    ensures GetStarts(AfterReload(c, key), ttlMs, key, now) && GetStarts(AfterReloadAll(c), ttlMs, other, now)
    ensures PreloadPromise(AfterReloadAll(c)) == c.nextPromise
  {
  }
}
