/**
 * Secret versions and the transactional outbox: every committed put, rollback or
 * delete writes the secrets row, its history, the audit log and the deliveries
 * in one transaction; rollback reads what it needs before its transaction.
 */
module Lineage {
  import opened Wrappers
  import opened Outbox
  import opened Subscriptions
  import opened Ordering

  /** The unique key of the secrets table. */
  datatype Slot = Slot(env: int, key: string)

  datatype SecretRow = SecretRow(id: int, ciphertext: string, version: int, createdAt: int, updatedAt: int, deletedAt: Option<int>)

  /** The unique key of the secret_versions table. */
  datatype VersionKey = VersionKey(secretID: int, version: int)

  datatype VersionRow = VersionRow(ciphertext: string, actor: Option<int>, createdAt: int)

  datatype Db = Db(
    secrets: map<Slot, SecretRow>,
    versions: map<VersionKey, VersionRow>,
    audit: seq<string>,
    webhooks: map<int, Webhook>,
    deliveries: Table)

  /** Who changes what, when; payload is the delivery body the handler marshals. */
  datatype Change = Change(project: int, slot: Slot, actor: Option<int>, payload: string, now: int)

  // ---- Statements ----

  function SecretIds(db: Db): set<int> { set s | s in db.secrets :: db.secrets[s].id }

  /** INSERT ... ON CONFLICT(env_id, key) DO UPDATE ... RETURNING. */
  function UpsertedRow(db: Db, slot: Slot, ciphertext: string, now: int): SecretRow {
    if slot in db.secrets then
      db.secrets[slot].(ciphertext := ciphertext, version := db.secrets[slot].version + 1, updatedAt := now, deletedAt := None)
    else SecretRow(NextRowid(SecretIds(db)), ciphertext, 1, now, now, None)
  }

  function Upserted(db: Db, slot: Slot, ciphertext: string, now: int): Db {
    db.(secrets := db.secrets[slot := UpsertedRow(db, slot, ciphertext, now)])
  }

  /** The insert signature Upsert reports as Created. */
  predicate LooksCreated(row: SecretRow, now: int) { row.version == 1 && row.createdAt == now }

  predicate VersionConflict(db: Db, k: VersionKey) { k in db.versions }

  function VersionAppended(db: Db, k: VersionKey, row: VersionRow): Db { db.(versions := db.versions[k := row]) }

  function Audited(db: Db, action: string): Db { db.(audit := db.audit + [action]) }

  predicate LiveRow(db: Db, slot: Slot) { slot in db.secrets && db.secrets[slot].deletedAt.None? }

  function SoftDeleted(db: Db, slot: Slot, now: int): Db
    requires slot in db.secrets
  {
    db.(secrets := db.secrets[slot := db.secrets[slot].(deletedAt := Some(now), updatedAt := now)])
  }

  /** The WHERE clause of MatchForEvent. */
  predicate Matches(w: Webhook, project: int, env: int, event: string) {
    w.enabled && w.projectID == project && (w.envID == None || w.envID == Some(env)) && EventMatches(w.events, event)
  }

  /** Ordered by id. */
  function MatchForEvent(webhooks: map<int, Webhook>, project: int, env: int, event: string): (hooks: seq<int>)
    ensures forall h :: h in hooks <==> h in webhooks && Matches(webhooks[h], project, env, event)
    ensures forall i, j :: 0 <= i < j < |hooks| ==> hooks[i] < hooks[j]
  {
    Ascending(set h | h in webhooks && Matches(webhooks[h], project, env, event))
  }

  /** One insert per hook, in order. */
  function Enqueued(t: Table, hooks: seq<int>, event: string, payload: string, now: int): Table {
    if hooks == [] then t
    else
      var before := Enqueued(t, hooks[..|hooks| - 1], event, payload, now);
      Inserted(before, NextRowid(before.Keys), hooks[|hooks| - 1], event, payload, now)
  }

  function WithDeliveries(db: Db, c: Change, event: string): Db {
    db.(deliveries := Enqueued(db.deliveries, MatchForEvent(db.webhooks, c.project, c.slot.env, event), event, c.payload, c.now))
  }

  // ---- Transactions ----

  /** The writes of a put and of a rollback's transaction; None when the history row already exists. */
  function WriteTx(db: Db, c: Change, ciphertext: string, event: string): Option<Db> {
    var row := UpsertedRow(db, c.slot, ciphertext, c.now);
    var k := VersionKey(row.id, row.version);
    if VersionConflict(db, k) then None
    else Some(WithDeliveries(Audited(VersionAppended(Upserted(db, c.slot, ciphertext, c.now), k, VersionRow(ciphertext, c.actor, c.now)), event), c, event))
  }

  function DeleteTx(db: Db, c: Change): Option<Db> {
    if !LiveRow(db, c.slot) then None
    else Some(WithDeliveries(Audited(SoftDeleted(db, c.slot, c.now), DELETE), c, DELETE))
  }

  /** What a rollback request carries from its reads into its transaction. */
  datatype Target = Target(slot: Slot, secretID: int, fromVersion: int, toVersion: int, ciphertext: string)

  datatype Refusal = BadTarget | NotFound | AlreadyCurrent | VersionNotFound

  /** The reads of a rollback request. */
  function ReadTarget(db: Db, slot: Slot, to: int): Result<Target, Refusal> {
    if to <= 0 then Err(BadTarget)
    else if !LiveRow(db, slot) then Err(NotFound)
    else
      var current := db.secrets[slot];
      if to == current.version then Err(AlreadyCurrent)
      else if VersionKey(current.id, to) !in db.versions then Err(VersionNotFound)
      else Ok(Target(slot, current.id, current.version, to, db.versions[VersionKey(current.id, to)].ciphertext))
  }

  // ---- The handlers ----

  /** Where a driver error strikes a transaction, if anywhere. */
  datatype Fault = Nowhere | AtUpsert | AtVersion | AtAudit | AtEnqueue(hook: nat) | AtCommit

  class Server {
    var secrets: map<Slot, SecretRow>
    var versions: map<VersionKey, VersionRow>
    var audit: seq<string>
    var webhooks: map<int, Webhook>
    var deliveries: Table

    constructor ()
      ensures State() == Db(map[], map[], [], map[], map[])
    {
      secrets, versions, audit, webhooks, deliveries := map[], map[], [], map[], map[];
    }

    function State(): Db
      reads this
    {
      Db(secrets, versions, audit, webhooks, deliveries)
    }

    /** tx.Commit: the transaction's tables become the database's. */
    method Commit(tx: Db)
      modifies this
      ensures State() == tx
    {
      secrets, versions, audit, webhooks, deliveries := tx.secrets, tx.versions, tx.audit, tx.webhooks, tx.deliveries;
    }

    method EnqueueWebhooks(tx: Db, c: Change, event: string, fault: Fault) returns (r: Option<Db>)
      ensures r.Some? ==> r.value == WithDeliveries(tx, c, event)
      ensures r.None? <==> fault.AtEnqueue? && fault.hook < |MatchForEvent(tx.webhooks, c.project, c.slot.env, event)|
    {
      hide Inserted, NextRowid, MatchForEvent, Matches;
      var hooks := MatchForEvent(tx.webhooks, c.project, c.slot.env, event);
      if |hooks| == 0 { return Some(tx); }
      var t := tx.deliveries;
      for i := 0 to |hooks|
        invariant t == Enqueued(tx.deliveries, hooks[..i], event, c.payload, c.now)
        invariant !(fault.AtEnqueue? && fault.hook < i)
      {
        if fault == AtEnqueue(i) { return None; }
        assert hooks[..i + 1][..i] == hooks[..i];
        t := Inserted(t, NextRowid(t.Keys), hooks[i], event, c.payload, c.now);
      }
      assert hooks[..|hooks|] == hooks;
      return Some(tx.(deliveries := t));
    }

    /** Upsert, history row, audit row, deliveries, commit; any failure rolls all of it back. */
    method Write(c: Change, ciphertext: string, event: string, fault: Fault) returns (committed: bool, created: bool)
      modifies this
      ensures committed ==> WriteTx(old(State()), c, ciphertext, event) == Some(State())
      ensures committed ==> created == LooksCreated(UpsertedRow(old(State()), c.slot, ciphertext, c.now), c.now)
      ensures !committed ==> State() == old(State())
      ensures fault.Nowhere? ==> (committed <==> WriteTx(old(State()), c, ciphertext, event).Some?)
    {
      if fault.AtUpsert? { return false, false; }
      var row := UpsertedRow(State(), c.slot, ciphertext, c.now);
      var tx := Upserted(State(), c.slot, ciphertext, c.now);
      var k := VersionKey(row.id, row.version);
      if fault.AtVersion? || VersionConflict(tx, k) { return false, false; }
      tx := VersionAppended(tx, k, VersionRow(ciphertext, c.actor, c.now));
      if fault.AtAudit? { return false, false; }
      tx := Audited(tx, event);
      var enqueued := EnqueueWebhooks(tx, c, event, fault);
      if enqueued.None? { return false, false; }
      if fault.AtCommit? { return false, false; }
      Commit(enqueued.value);
      return true, LooksCreated(row, c.now);
    }

    method PutSecret(c: Change, ciphertext: string, fault: Fault) returns (committed: bool, created: bool)
      modifies this
      ensures committed ==> WriteTx(old(State()), c, ciphertext, UPSERT) == Some(State())
      ensures committed ==> created == LooksCreated(UpsertedRow(old(State()), c.slot, ciphertext, c.now), c.now)
      ensures !committed ==> State() == old(State())
      ensures fault.Nowhere? ==> (committed <==> WriteTx(old(State()), c, ciphertext, UPSERT).Some?)
    {
      committed, created := Write(c, ciphertext, UPSERT, fault);
    }

    /** The reads of a rollback, outside any transaction. */
    method RollbackRead(slot: Slot, to: int) returns (r: Result<Target, Refusal>)
      ensures r == ReadTarget(State(), slot, to)
    {
      if to <= 0 { return Err(BadTarget); }
      if slot !in secrets || secrets[slot].deletedAt.Some? { return Err(NotFound); }
      var current := secrets[slot];
      if to == current.version { return Err(AlreadyCurrent); }
      var k := VersionKey(current.id, to);
      if k !in versions { return Err(VersionNotFound); }
      return Ok(Target(slot, current.id, current.version, to, versions[k].ciphertext));
    }

    method RollbackWrite(c: Change, target: Target, fault: Fault) returns (committed: bool)
      requires c.slot == target.slot
      modifies this
      ensures committed ==> WriteTx(old(State()), c, target.ciphertext, ROLLBACK) == Some(State())
      ensures !committed ==> State() == old(State())
      ensures fault.Nowhere? ==> (committed <==> WriteTx(old(State()), c, target.ciphertext, ROLLBACK).Some?)
    {
      var created;
      committed, created := Write(c, target.ciphertext, ROLLBACK, fault);
    }

    method DeleteSecret(c: Change, fault: Fault) returns (committed: bool)
      modifies this
      ensures committed ==> DeleteTx(old(State()), c) == Some(State())
      ensures !committed ==> State() == old(State())
      ensures fault.Nowhere? ==> (committed <==> DeleteTx(old(State()), c).Some?)
    {
      if c.slot !in secrets || secrets[c.slot].deletedAt.Some? || fault.AtUpsert? { return false; }
      var tx := SoftDeleted(State(), c.slot, c.now);
      if fault.AtAudit? { return false; }
      tx := Audited(tx, DELETE);
      var enqueued := EnqueueWebhooks(tx, c, DELETE, fault);
      if enqueued.None? || fault.AtCommit? { return false; }
      Commit(enqueued.value);
      return true;
    }
  }

  // ---- History in every reachable state ----

  /** row's history is exactly versions 1..row.version, and the last one holds the row's ciphertext. */
  ghost predicate HistoryOf(db: Db, row: SecretRow) {
    && row.version >= 1
    && (forall v :: VersionKey(row.id, v) in db.versions <==> 1 <= v <= row.version)
    && db.versions[VersionKey(row.id, row.version)].ciphertext == row.ciphertext
  }

  ghost predicate History(db: Db) {
    && (forall s :: s in db.secrets ==> HistoryOf(db, db.secrets[s]))
    && (forall s, t :: s in db.secrets && t in db.secrets && s != t ==> db.secrets[s].id != db.secrets[t].id)
    && (forall k :: k in db.versions ==> k.secretID in SecretIds(db))
  }

  /** Webhooks hold normalised event lists. */
  ghost predicate Subscribed(db: Db) {
    forall h :: h in db.webhooks ==> exists names :: StoredEvents(db.webhooks[h].events, names)
  }

  ghost predicate StoredEvents(events: string, names: seq<string>) {
    events == JoinComma(names) && forall n :: n in names ==> ValidEvent(n)
  }

  /** u is db after one more version of c.slot, holding ciphertext. */
  ghost predicate Wrote(db: Db, u: Db, c: Change, ciphertext: string) {
    && c.slot in u.secrets
    && var row := u.secrets[c.slot];
       && u.secrets == db.secrets[c.slot := row]
       && row.ciphertext == ciphertext && row.deletedAt.None?
       && (if c.slot in db.secrets
           then row.id == db.secrets[c.slot].id && row.version == db.secrets[c.slot].version + 1
           else row.id !in SecretIds(db) && row.version == 1)
       && VersionKey(row.id, row.version) !in db.versions
       && u.versions == db.versions[VersionKey(row.id, row.version) := VersionRow(ciphertext, c.actor, c.now)]
  }

  /** A write never meets an existing history row: it appends the next version. */
  lemma WriteAppends(db: Db, c: Change, ciphertext: string, event: string)
    requires History(db)
    ensures WriteTx(db, c, ciphertext, event).Some? && Wrote(db, WriteTx(db, c, ciphertext, event).value, c, ciphertext)
  {
    var row := UpsertedRow(db, c.slot, ciphertext, c.now);
    if c.slot in db.secrets { assert HistoryOf(db, db.secrets[c.slot]); }
    assert !VersionConflict(db, VersionKey(row.id, row.version));
  }

  lemma WroteIds(db: Db, u: Db, c: Change, ciphertext: string)
    requires History(db) && Wrote(db, u, c, ciphertext)
    ensures SecretIds(u) == SecretIds(db) + {u.secrets[c.slot].id}
    ensures forall s :: s in u.secrets && s != c.slot ==> u.secrets[s].id != u.secrets[c.slot].id
  {
    hide HistoryOf;
    forall s | s in u.secrets ensures u.secrets[s].id in SecretIds(db) + {u.secrets[c.slot].id} {
      if s != c.slot { assert db.secrets[s].id in SecretIds(db); }
    }
    forall i | i in SecretIds(db) ensures i in SecretIds(u) {
      var s :| s in db.secrets && db.secrets[s].id == i;
      assert u.secrets[s].id == i;
    }
    assert u.secrets[c.slot].id in SecretIds(u);
  }

  lemma WroteHistory(db: Db, u: Db, c: Change, ciphertext: string)
    requires History(db) && Wrote(db, u, c, ciphertext)
    ensures History(u)
  {
    WroteIds(db, u, c, ciphertext);
    forall s | s in u.secrets ensures HistoryOf(u, u.secrets[s]) {
      hide SecretIds;
      WroteRow(db, u, c, ciphertext, s);
    }
    forall s, t | s in u.secrets && t in u.secrets && s != t ensures u.secrets[s].id != u.secrets[t].id {
      hide HistoryOf, SecretIds;
    }
  }

  lemma WroteRow(db: Db, u: Db, c: Change, ciphertext: string, s: Slot)
    requires History(db) && Wrote(db, u, c, ciphertext) && s in u.secrets
    requires s != c.slot ==> u.secrets[s].id != u.secrets[c.slot].id
    ensures HistoryOf(u, u.secrets[s])
  {
    var row := u.secrets[c.slot];
    if s in db.secrets {
      assert HistoryOf(db, db.secrets[s]);
    } else {
      forall v ensures VersionKey(row.id, v) !in db.versions { assert VersionKey(row.id, v).secretID == row.id; }
    }
  }

  /** u differs from db at most in the columns a soft delete touches. */
  ghost predicate SameRows(db: Db, u: Db) {
    && u.versions == db.versions && u.secrets.Keys == db.secrets.Keys
    && forall s :: s in db.secrets ==> u.secrets[s].id == db.secrets[s].id && u.secrets[s].version == db.secrets[s].version
                                       && u.secrets[s].ciphertext == db.secrets[s].ciphertext
  }

  lemma SameHistory(db: Db, u: Db)
    requires History(db) && SameRows(db, u)
    ensures History(u)
  {
    forall s | s in u.secrets ensures HistoryOf(u, u.secrets[s]) { assert HistoryOf(db, db.secrets[s]); }
    forall i | i in SecretIds(db) ensures i in SecretIds(u) {
      var s :| s in db.secrets && db.secrets[s].id == i;
      assert u.secrets[s].id == i;
    }
  }

  lemma DeleteSameRows(db: Db, c: Change)
    requires DeleteTx(db, c).Some?
    ensures SameRows(db, DeleteTx(db, c).value)
  {
  }

  /** What a committed write leaves besides the history: its audit entry and times, and no other row touched. */
  lemma WriteRecords(db: Db, c: Change, ciphertext: string, event: string)
    requires WriteTx(db, c, ciphertext, event).Some?
    ensures var u := WriteTx(db, c, ciphertext, event).value;
            && u.audit == db.audit + [event] && u.webhooks == db.webhooks
            && c.slot in u.secrets && u.secrets[c.slot].updatedAt == c.now
            && u.secrets[c.slot].createdAt == (if c.slot in db.secrets then db.secrets[c.slot].createdAt else c.now)
            && forall s :: s in db.secrets && s != c.slot ==> s in u.secrets && u.secrets[s] == db.secrets[s]
  {
  }

  /** A delete marks the row with its time, is audited, and touches no history. */
  lemma DeleteRecords(db: Db, c: Change)
    ensures DeleteTx(db, c).Some? <==> c.slot in db.secrets && db.secrets[c.slot].deletedAt == None
    ensures DeleteTx(db, c).Some? ==>
              var u := DeleteTx(db, c).value;
              && u.audit == db.audit + ["secret.delete"] && u.webhooks == db.webhooks && u.versions == db.versions
              && u.secrets == db.secrets[c.slot := db.secrets[c.slot].(deletedAt := Some(c.now), updatedAt := c.now)]
  {
  }

  /** Every committed change adds the one audit entry that names it, and an event that commits nothing adds none. */
  lemma ChangesAreAudited(s: System, ev: Event)
    requires Inv(s) && Enabled(s, ev)
    ensures Step(s, ev).db.audit == s.db.audit + match ev
              case Put(_, _) => ["secret.upsert"]
              case Rollback(_, _) => ["secret.rollback"]
              case Delete(c) => if LiveRow(s.db, c.slot) then ["secret.delete"] else []
              case _ => []
  {
    hide WriteTx, DeleteTx, History, Inv;
    HistoryOfInv(s);
    match ev
    case Put(c, ct) =>
      WriteAppends(s.db, c, ct, UPSERT);
      WriteRecords(s.db, c, ct, UPSERT);
    case Rollback(req, c) =>
      WriteAppends(s.db, c, s.targets[req].ciphertext, ROLLBACK);
      WriteRecords(s.db, c, s.targets[req].ciphertext, ROLLBACK);
    case Delete(c) => DeleteRecords(s.db, c);
    case _ =>
  }

  /**
   * In a consistent database a rollback's reads accept exactly the earlier versions
   * of a live key, and the refusals are told apart by the first check that fails.
   */
  lemma RollbackAccepts(db: Db, slot: Slot, to: int)
    requires History(db)
    ensures ReadTarget(db, slot, to).Ok? <==> LiveRow(db, slot) && 1 <= to < db.secrets[slot].version
    ensures ReadTarget(db, slot, to) == Err(BadTarget) <==> to <= 0
    ensures ReadTarget(db, slot, to) == Err(NotFound) <==> to >= 1 && !LiveRow(db, slot)
    ensures ReadTarget(db, slot, to) == Err(AlreadyCurrent) <==> LiveRow(db, slot) && to == db.secrets[slot].version
    ensures ReadTarget(db, slot, to) == Err(VersionNotFound) <==> LiveRow(db, slot) && to > db.secrets[slot].version
  {
    if LiveRow(db, slot) { assert HistoryOf(db, db.secrets[slot]); }
  }

  /** The insert signature is exact: it shows precisely for a key that had no row. */
  lemma CreatedIsNew(db: Db, c: Change, ciphertext: string)
    requires History(db)
    ensures LooksCreated(UpsertedRow(db, c.slot, ciphertext, c.now), c.now) <==> c.slot !in db.secrets
  {
    if c.slot in db.secrets { assert HistoryOf(db, db.secrets[c.slot]); }
  }

  // ---- Runs ----

  /** The database and the rollback requests that have read but not yet written. */
  datatype System = System(db: Db, targets: map<nat, Target>)

  datatype Event =
    | Put(c: Change, ciphertext: string)
    | Delete(c: Change)
    | ReadFor(req: nat, slot: Slot, to: int)
    | Rollback(req: nat, c: Change)
    | Subscribe(id: int, hook: Webhook, names: seq<string>)
    | SetEnabled(id: int, enabled: bool)
    | Unsubscribe(id: int)
    | WorkerStep(t: Table)

  predicate Enabled(s: System, ev: Event) {
    match ev
    case Rollback(req, c) => req in s.targets && c.slot == s.targets[req].slot
    case Subscribe(id, hook, names) =>
      id !in s.db.webhooks && hook.events == JoinComma(names) && forall n :: n in names ==> ValidEvent(n)
    case SetEnabled(id, _) => id in s.db.webhooks
    case _ => true
  }

  function OrElse(d: Option<Db>, db: Db): Db { if d.Some? then d.value else db }

  /** A request that fails leaves the database as it was. */
  function Step(s: System, ev: Event): System
    requires Enabled(s, ev)
  {
    match ev
    case Put(c, ciphertext) => s.(db := OrElse(WriteTx(s.db, c, ciphertext, UPSERT), s.db))
    case Delete(c) => s.(db := OrElse(DeleteTx(s.db, c), s.db))
    case ReadFor(req, slot, to) =>
      var r := ReadTarget(s.db, slot, to);
      if r.Ok? then s.(targets := s.targets[req := r.value]) else s
    case Rollback(req, c) =>
      System(OrElse(WriteTx(s.db, c, s.targets[req].ciphertext, ROLLBACK), s.db), s.targets - {req})
    case Subscribe(id, hook, _) => s.(db := s.db.(webhooks := s.db.webhooks[id := hook]))
    case SetEnabled(id, enabled) => s.(db := s.db.(webhooks := s.db.webhooks[id := s.db.webhooks[id].(enabled := enabled)]))
    case Unsubscribe(id) => s.(db := s.db.(webhooks := s.db.webhooks - {id}, deliveries := WithoutWebhook(s.db.deliveries, id)))
    case WorkerStep(t) => s.(db := s.db.(deliveries := t))
  }

  const Empty := System(Db(map[], map[], [], map[], map[]), map[])

  ghost predicate StepsTo(s: System, ev: Event, u: System) { Enabled(s, ev) && u == Step(s, ev) }

  ghost predicate Run(ss: seq<System>, evs: seq<Event>) {
    |ss| == |evs| + 1 && ss[0] == Empty && forall i :: 0 <= i < |evs| ==> StepsTo(ss[i], evs[i], ss[i + 1])
  }

  /** What a request read still stands: rows keep their ids and history never changes. */
  ghost predicate TargetOK(db: Db, t: Target) {
    && t.slot in db.secrets && db.secrets[t.slot].id == t.secretID
    && VersionKey(t.secretID, t.toVersion) in db.versions
    && db.versions[VersionKey(t.secretID, t.toVersion)].ciphertext == t.ciphertext
  }

  ghost predicate Inv(s: System) {
    && History(s.db) && Subscribed(s.db)
    && forall req :: req in s.targets ==> TargetOK(s.db, s.targets[req])
  }

  /** History rows stay; slots stay and keep their ids. */
  ghost predicate Grows(db: Db, u: Db) {
    && (forall k :: k in db.versions ==> k in u.versions && u.versions[k] == db.versions[k])
    && (forall s :: s in db.secrets ==> s in u.secrets && u.secrets[s].id == db.secrets[s].id
                                        && u.secrets[s].version >= db.secrets[s].version)
  }

  lemma WroteGrows(db: Db, u: Db, c: Change, ciphertext: string)
    requires Wrote(db, u, c, ciphertext)
    ensures Grows(db, u)
  {
  }

  lemma StepGrows(s: System, ev: Event)
    requires Inv(s) && Enabled(s, ev)
    ensures Grows(s.db, Step(s, ev).db) && History(Step(s, ev).db)
  {
    hide WriteTx, DeleteTx, ReadTarget, History, HistoryOf, Subscribed;
    match ev
    case Put(c, ct) =>
      HistoryOfInv(s);
      WriteAppends(s.db, c, ct, UPSERT);
      WroteGrows(s.db, Step(s, ev).db, c, ct);
      WroteHistory(s.db, Step(s, ev).db, c, ct);
    case Rollback(req, c) =>
      HistoryOfInv(s);
      var ct := s.targets[req].ciphertext;
      WriteAppends(s.db, c, ct, ROLLBACK);
      WroteGrows(s.db, Step(s, ev).db, c, ct);
      WroteHistory(s.db, Step(s, ev).db, c, ct);
    case Delete(c) =>
      HistoryOfInv(s);
      if DeleteTx(s.db, c).Some? { DeleteSameRows(s.db, c); }
      SameHistory(s.db, Step(s, ev).db);
    case _ =>
      SameHistory(s.db, Step(s, ev).db);
  }

  lemma HistoryOfInv(s: System)
    requires Inv(s)
    ensures History(s.db)
  {
  }

  lemma StepSubscribed(s: System, ev: Event)
    requires Inv(s) && Enabled(s, ev)
    ensures Subscribed(Step(s, ev).db)
  {
    var u := Step(s, ev).db;
    forall h | h in u.webhooks ensures exists names :: StoredEvents(u.webhooks[h].events, names) {
      if ev.Subscribe? && h == ev.id {
        assert StoredEvents(u.webhooks[h].events, ev.names);
      } else {
        assert exists names :: StoredEvents(s.db.webhooks[h].events, names);
      }
    }
  }

  lemma StepInv(s: System, ev: Event)
    requires Inv(s) && Enabled(s, ev)
    ensures Inv(Step(s, ev))
  {
    hide WriteTx, DeleteTx, History, Subscribed;
    StepGrows(s, ev);
    StepSubscribed(s, ev);
    var u := Step(s, ev);
    forall req | req in u.targets ensures TargetOK(u.db, u.targets[req]) {
      if req in s.targets { assert TargetOK(s.db, s.targets[req]); }
    }
  }

  lemma {:induction false} RunInv(ss: seq<System>, evs: seq<Event>, i: nat)
    requires Run(ss, evs) && i <= |evs|
    ensures Inv(ss[i])
    decreases i
  {
    hide Inv, Step;
    if i == 0 {
      StartInv();
    } else {
      RunInv(ss, evs, i - 1);
      assert StepsTo(ss[i - 1], evs[i - 1], ss[i]);
      StepInv(ss[i - 1], evs[i - 1]);
    }
  }

  lemma StartInv()
    ensures Inv(Empty)
  {
  }

  /**
   * In every reachable state each secret's history is exactly versions
   * 1..current and its last row holds the current ciphertext, deleted or not.
   */
  lemma HistoryAlways(ss: seq<System>, evs: seq<Event>, i: nat, slot: Slot)
    requires Run(ss, evs) && i <= |evs| && slot in ss[i].db.secrets
    ensures HistoryOf(ss[i].db, ss[i].db.secrets[slot])
  {
    RunInv(ss, evs, i);
  }

  lemma GrowsOnward(a: Db, b: Db, c: Db)
    ensures Grows(a, a)
    ensures Grows(a, b) && Grows(b, c) ==> Grows(a, c)
  {
  }

  /** History rows never change or vanish, and a secret never loses its id. */
  lemma {:induction false} HistoryAppendOnly(ss: seq<System>, evs: seq<Event>, i: nat, j: nat)
    requires Run(ss, evs) && i <= j <= |evs|
    ensures Grows(ss[i].db, ss[j].db)
    decreases j - i
  {
    hide Inv, Step, Enabled, Grows;
    GrowsOnward(ss[i].db, ss[i].db, ss[i].db);
    if i < j {
      HistoryAppendOnly(ss, evs, i, j - 1);
      RunInv(ss, evs, j - 1);
      assert StepsTo(ss[j - 1], evs[j - 1], ss[j]);
      StepGrows(ss[j - 1], evs[j - 1]);
      GrowsOnward(ss[i].db, ss[j - 1].db, ss[j].db);
    }
  }

  /**
   * A rollback to version v, read at step i and written at step j, appends the
   * version after the one current at j with the content v had at i, whatever was
   * written in between.
   */
  lemma RollbackAppends(ss: seq<System>, evs: seq<Event>, i: nat, j: nat, req: nat, slot: Slot, to: int, c: Change)
    requires Run(ss, evs) && i < j < |evs| && evs[i] == ReadFor(req, slot, to) && ReadTarget(ss[i].db, slot, to).Ok?
    requires evs[j] == Rollback(req, c) && c.slot == slot
    requires forall n :: i < n < j ==> !(evs[n].ReadFor? && evs[n].req == req) && !(evs[n].Rollback? && evs[n].req == req)
    ensures slot in ss[i].db.secrets && slot in ss[j].db.secrets && slot in ss[j + 1].db.secrets
    ensures var was, row, k := ss[j].db.secrets[slot], ss[j + 1].db.secrets[slot], VersionKey(ss[i].db.secrets[slot].id, to);
            && row.version == was.version + 1 && row.id == ss[i].db.secrets[slot].id && row.deletedAt.None?
            && k in ss[i].db.versions && row.ciphertext == ss[i].db.versions[k].ciphertext
            && VersionKey(row.id, row.version) in ss[j + 1].db.versions
            && ss[j + 1].db.versions[VersionKey(row.id, row.version)].ciphertext == ss[i].db.versions[k].ciphertext
  {
    RunInv(ss, evs, j);
    TargetStays(ss, evs, i, j, req);
    HistoryAppendOnly(ss, evs, i, j);
    assert StepsTo(ss[j], evs[j], ss[j + 1]);
    WriteAppends(ss[j].db, c, ss[j].targets[req].ciphertext, ROLLBACK);
  }

  lemma {:induction false} TargetStays(ss: seq<System>, evs: seq<Event>, i: nat, j: nat, req: nat)
    requires Run(ss, evs) && i < j <= |evs| && evs[i].ReadFor? && evs[i].req == req
    requires ReadTarget(ss[i].db, evs[i].slot, evs[i].to).Ok?
    requires forall n :: i < n < j ==> !(evs[n].ReadFor? && evs[n].req == req) && !(evs[n].Rollback? && evs[n].req == req)
    ensures req in ss[j].targets && ss[j].targets[req] == ReadTarget(ss[i].db, evs[i].slot, evs[i].to).value
    decreases j - i
  {
    hide ReadTarget, WriteTx, DeleteTx;
    assert StepsTo(ss[j - 1], evs[j - 1], ss[j]);
    if i + 1 < j { TargetStays(ss, evs, i, j - 1, req); }
  }

  /**
   * Rollback refuses a deleted key when it reads, yet a delete that lands before
   * its transaction is undone: from every reachable state with a valid target,
   * read, delete and write leave the key alive.
   */
  lemma DeleteBetweenIsUndone(s: System, req: nat, slot: Slot, to: int, c: Change)
    requires Inv(s) && ReadTarget(s.db, slot, to).Ok? && c.slot == slot
    ensures var read := Step(s, ReadFor(req, slot, to));
            var deleted := Step(read, Delete(c));
            && LiveRow(read.db, slot) && !LiveRow(deleted.db, slot) && Enabled(deleted, Rollback(req, c))
            && LiveRow(Step(deleted, Rollback(req, c)).db, slot)
            && Step(deleted, Rollback(req, c)).db.secrets[slot].ciphertext == ReadTarget(s.db, slot, to).value.ciphertext
  {
    hide WriteTx, Inv, Wrote, Enqueued, MatchForEvent;
    var read := Step(s, ReadFor(req, slot, to));
    StepInv(s, ReadFor(req, slot, to));
    var deleted := Step(read, Delete(c));
    StepInv(read, Delete(c));
    HistoryOfInv(deleted);
    WroteLive(deleted.db, c, deleted.targets[req].ciphertext);
  }

  lemma WroteLive(db: Db, c: Change, ciphertext: string)
    requires History(db)
    ensures WriteTx(db, c, ciphertext, ROLLBACK).Some?
    ensures var u := WriteTx(db, c, ciphertext, ROLLBACK).value;
            LiveRow(u, c.slot) && u.secrets[c.slot].ciphertext == ciphertext
  {
    hide WriteTx, History;
    WriteAppends(db, c, ciphertext, ROLLBACK);
  }

  /** Only such a delete can do it: a key found deleted at the write was deleted since the read. */
  lemma {:induction false} DeletedSinceRead(ss: seq<System>, evs: seq<Event>, i: nat, j: nat, slot: Slot)
    requires Run(ss, evs) && i <= j <= |evs| && LiveRow(ss[i].db, slot)
    ensures LiveRow(ss[j].db, slot) || exists n :: i <= n < j && evs[n].Delete? && evs[n].c.slot == slot
    decreases j - i
  {
    if i < j {
      DeletedSinceRead(ss, evs, i, j - 1, slot);
      assert StepsTo(ss[j - 1], evs[j - 1], ss[j]);
      if LiveRow(ss[j - 1].db, slot) && !(evs[j - 1].Delete? && evs[j - 1].c.slot == slot) {
        LiveStays(ss[j - 1], evs[j - 1], slot);
      }
    }
  }

  lemma LiveStays(s: System, ev: Event, slot: Slot)
    requires Enabled(s, ev) && LiveRow(s.db, slot) && !(ev.Delete? && ev.c.slot == slot)
    ensures LiveRow(Step(s, ev).db, slot)
  {
  }

  // ---- One delivery per matching webhook ----

  /** id is a new delivery of t's successor u for webhook h: pending, due at once, not yet tried. */
  predicate NewFor(t: Table, u: Table, id: int, h: int, event: string, payload: string, now: int) {
    id !in t && id in u && u[id] == Row(h, event, payload, Pending, 0, now, None, None, "", now, None)
  }

  /** u is t plus exactly one new delivery for each of hooks, in the hooks' order, and nothing else. */
  ghost predicate OneEach(t: Table, u: Table, hooks: set<int>, event: string, payload: string, now: int) {
    && (forall id :: id in t ==> id in u && u[id] == t[id])
    && (forall id :: id in u && id !in t ==> u[id].webhookID in hooks && NewFor(t, u, id, u[id].webhookID, event, payload, now))
    && (forall h :: h in hooks ==> exists id :: NewFor(t, u, id, h, event, payload, now))
    && (forall i, j :: i in u && j in u && i !in t && j !in t && i < j ==> u[i].webhookID < u[j].webhookID)
  }

  function IdSet(ids: seq<int>): set<int> { set h | h in ids }

  lemma {:induction false} EnqueuedOneEach(t: Table, hooks: seq<int>, event: string, payload: string, now: int)
    requires forall i, j :: 0 <= i < j < |hooks| ==> hooks[i] < hooks[j]
    ensures OneEach(t, Enqueued(t, hooks, event, payload, now), IdSet(hooks), event, payload, now)
    decreases |hooks|
  {
    if hooks != [] {
      var front, last := hooks[..|hooks| - 1], hooks[|hooks| - 1];
      EnqueuedOneEach(t, front, event, payload, now);
      var before := Enqueued(t, front, event, payload, now);
      assert hooks == front + [last];
      assert IdSet(hooks) == IdSet(front) + {last};
      OneMore(t, before, IdSet(front), last, event, payload, now);
    }
  }

  lemma OneMore(t: Table, before: Table, hooks: set<int>, last: int, event: string, payload: string, now: int)
    requires OneEach(t, before, hooks, event, payload, now) && forall h :: h in hooks ==> h < last
    ensures OneEach(t, Inserted(before, NextRowid(before.Keys), last, event, payload, now), hooks + {last}, event, payload, now)
  {
    var id := NextRowid(before.Keys);
    assert id !in before.Keys;
    var u := Inserted(before, id, last, event, payload, now);
    forall h | h in hooks + {last} ensures exists i :: NewFor(t, u, i, h, event, payload, now) {
      if h == last {
        assert NewFor(t, u, id, h, event, payload, now);
      } else {
        var i :| NewFor(t, before, i, h, event, payload, now);
        assert NewFor(t, u, i, h, event, payload, now);
      }
    }
    forall i | i in u && i !in t ensures u[i].webhookID in hooks + {last} && NewFor(t, u, i, u[i].webhookID, event, payload, now) {
      if i != id { assert NewFor(t, before, i, before[i].webhookID, event, payload, now); }
    }
  }

  /** The webhooks a change concerns, told from the stored names instead of the LIKE clause. */
  ghost predicate Concerns(w: Webhook, names: seq<string>, c: Change, event: string) {
    w.enabled && w.projectID == c.project && (w.envID == None || w.envID == Some(c.slot.env)) && event in names
  }

  lemma MatchIsConcern(w: Webhook, names: seq<string>, c: Change, event: string)
    requires StoredEvents(w.events, names) && ValidEvent(event)
    ensures Matches(w, c.project, c.slot.env, event) <==> Concerns(w, names, c, event)
  {
    forall n | n in names ensures PlainName(n) { KnownEventsPlain(n); }
    KnownEventsPlain(event);
    MatchIsMembership(event, names);
  }

  /** The ids of the webhooks a change concerns. */
  ghost function Concerned(db: Db, c: Change, event: string): set<int> {
    set h | h in db.webhooks && exists names :: StoredEvents(db.webhooks[h].events, names) && Concerns(db.webhooks[h], names, c, event)
  }

  /** After a committed change: one new delivery for each webhook it concerns, and nothing else moved. */
  ghost predicate Notified(db: Db, u: Db, c: Change, event: string) {
    OneEach(db.deliveries, u.deliveries, Concerned(db, c, event), event, c.payload, c.now)
  }

  lemma ConcernedAreMatched(db: Db, c: Change, event: string)
    requires ValidEvent(event) && Subscribed(db)
    ensures IdSet(MatchForEvent(db.webhooks, c.project, c.slot.env, event)) == Concerned(db, c, event)
  {
    hide Matches, Concerns, StoredEvents, EventMatches;
    var hooks := MatchForEvent(db.webhooks, c.project, c.slot.env, event);
    forall h | h in db.webhooks ensures h in hooks <==> h in Concerned(db, c, event) {
      var names :| StoredEvents(db.webhooks[h].events, names);
      MatchIsConcern(db.webhooks[h], names, c, event);
      forall other | StoredEvents(db.webhooks[h].events, other) && Concerns(db.webhooks[h], other, c, event)
        ensures Matches(db.webhooks[h], c.project, c.slot.env, event)
      {
        MatchIsConcern(db.webhooks[h], other, c, event);
      }
    }
  }

  lemma DeliveriesNotify(db: Db, u: Db, c: Change, event: string)
    requires ValidEvent(event) && Subscribed(db)
    requires u.deliveries == Enqueued(db.deliveries, MatchForEvent(db.webhooks, c.project, c.slot.env, event), event, c.payload, c.now)
    ensures Notified(db, u, c, event)
  {
    hide Matches, Concerned, OneEach, Subscribed;
    EnqueuedOneEach(db.deliveries, MatchForEvent(db.webhooks, c.project, c.slot.env, event), event, c.payload, c.now);
    ConcernedAreMatched(db, c, event);
  }

  /**
   * Each committed put, rollback or delete adds exactly one pending delivery per
   * enabled webhook of its project and env scope whose stored list names the event,
   * and none for any other.
   */
  lemma CommittedChangeNotifies(s: System, ev: Event)
    requires Inv(s) && Enabled(s, ev)
    ensures ev.Put? ==> Notified(s.db, Step(s, ev).db, ev.c, UPSERT)
    ensures ev.Rollback? ==> Notified(s.db, Step(s, ev).db, ev.c, ROLLBACK)
    ensures ev.Delete? && LiveRow(s.db, ev.c.slot) ==> Notified(s.db, Step(s, ev).db, ev.c, DELETE)
    ensures ev.Delete? && !LiveRow(s.db, ev.c.slot) ==> Step(s, ev) == s
  {
    hide Notified, History, Subscribed;
    match ev
    case Put(c, ct) =>
      HistoryOfInv(s);
      WriteAppends(s.db, c, ct, UPSERT);
      DeliveriesNotify(s.db, Step(s, ev).db, c, UPSERT);
    case Rollback(req, c) =>
      HistoryOfInv(s);
      WriteAppends(s.db, c, s.targets[req].ciphertext, ROLLBACK);
      DeliveriesNotify(s.db, Step(s, ev).db, c, ROLLBACK);
    case Delete(c) =>
      if LiveRow(s.db, c.slot) { DeliveriesNotify(s.db, Step(s, ev).db, c, DELETE); }
    case _ =>
  }
}
