/** One worker's sweep over the outbox: reclaim, claim, deliver each claimed row. */
module Tick {
  import opened Wrappers
  import opened Outbox
  import opened Worker

  /** How far one attempt came, and what it met there. */
  datatype Attempt =
    | WebhookGone
    | KeyUnavailable
    | KeyUnsealable
    | UrlBlocked
    | BuildFailed
    | TransportFailed(reason: string)
    | Responded(status: int)

  function Digits(n: nat): string {
    if n < 10 then [['0', '1', '2', '3', '4', '5', '6', '7', '8', '9'][n]] else Digits(n / 10) + Digits(n % 10)
  }

  function Decimal(n: int): string { if n < 0 then "-" + Digits(-n) else Digits(n) }

  /** A 2xx response delivers, a key that cannot be opened dead-letters, anything else is a failed attempt. */
  function OutcomeOf(a: Attempt): Outcome {
    match a
    case WebhookGone => Failure(0, "webhook not found")
    case KeyUnavailable => Failure(0, "signing key unavailable")
    case KeyUnsealable => Unsealable
    case UrlBlocked => Failure(0, "url blocked by policy")
    case BuildFailed => Failure(0, "request build failed")
    case TransportFailed(reason) => Failure(0, reason)
    case Responded(status) => if 200 <= status < 300 then Success(status) else Failure(status, "HTTP " + Decimal(status))
  }

  function ClaimOf(d: Delivery): Claim { Claim(d.id, d.row.attempts) }

  class DeliveryWorker {
    const pol: Policy
    const batchSize: nat

    constructor (pol: Policy, batchSize: nat)
      ensures this.pol == pol && this.batchSize == batchSize
    {
      this.pol := pol;
      this.batchSize := batchSize;
    }

    method Fail(repo: DeliveryRepo, d: Delivery, code: int, msg: string, now: int)
      modifies repo
      ensures repo.rows == Failed(old(repo.rows), pol, ClaimOf(d), code, msg, now)
    {
      var attempt := d.row.attempts + 1;
      var found;
      if attempt >= pol.maxAttempts {
        found := repo.MarkDead(d.id, code, msg);
        return;
      }
      var delay := DefaultBackoff(attempt);
      found := repo.MarkRetry(d.id, now + delay, code, msg);
    }

    method DeliverOne(repo: DeliveryRepo, d: Delivery, a: Attempt, now: int)
      modifies repo
      ensures repo.rows == Finished(old(repo.rows), pol, ClaimOf(d), OutcomeOf(a), now)
      ensures Markable(old(repo.rows), d.id) ==>
                d.id in repo.rows && AfterAttempt(old(repo.rows)[d.id], repo.rows[d.id], pol, d.row.attempts, a, now)
      ensures repo.rows.Keys == old(repo.rows).Keys
              && forall id :: id in repo.rows && (id != d.id || !Markable(old(repo.rows), id)) ==> repo.rows[id] == old(repo.rows)[id]
    {
      FinishIsLocal(repo.rows, pol, ClaimOf(d), OutcomeOf(a), now);
      if Markable(repo.rows, d.id) { FinishedMeans(repo.rows[d.id], pol, d.row.attempts, a, now); }
      var found;
      match a {
        case WebhookGone => Fail(repo, d, 0, "webhook not found", now);
        case KeyUnavailable => Fail(repo, d, 0, "signing key unavailable", now);
        case KeyUnsealable => found := repo.MarkDead(d.id, 0, "signing key unsealable");
        case UrlBlocked => Fail(repo, d, 0, "url blocked by policy", now);
        case BuildFailed => Fail(repo, d, 0, "request build failed", now);
        case TransportFailed(reason) => Fail(repo, d, 0, reason, now);
        case Responded(status) =>
          if status >= 200 && status < 300 {
            found := repo.MarkDelivered(d.id, status, Unix(now));
          } else {
            Fail(repo, d, status, "HTTP " + Decimal(status), now);
          }
      }
    }

    /**
     * Undisturbed, a sweep settles every row it claims by its own outcome and
     * leaves every other row as the reclaim at the start left it. Each reading of
     * the clock is a parameter.
     */
    method Sweep(repo: DeliveryRepo, reclaimAt: int, claimAt: int, finishAt: int -> int, attempts: int -> Attempt)
      returns (ghost ids: seq<int>)
      modifies repo
      ensures IsSelection(Reclaimed(old(repo.rows), Unix(reclaimAt - pol.staleAfter)), Unix(claimAt), batchSize, ids)
      ensures Partway(Reclaimed(old(repo.rows), Unix(reclaimAt - pol.staleAfter)), repo.rows, pol, ids, |ids|,
                      id => OutcomeOf(attempts(id)), Unix(claimAt), finishAt)
      ensures forall j :: 0 <= j < |ids| ==>
                ids[j] in old(repo.rows) && ids[j] in repo.rows
                && AfterAttempt(old(repo.rows)[ids[j]].(claimedAt := None), repo.rows[ids[j]], pol, old(repo.rows)[ids[j]].attempts,
                                attempts(ids[j]), finishAt(ids[j]))
    {
      hide Finished, IsSelection, Stale, FinishedRow;
      var n := repo.ReclaimStale(reclaimAt - pol.staleAfter);
      ghost var t := repo.rows;
      var claimed;
      claimed, ids := repo.ClaimDue(claimAt, batchSize);
      SelectionFacts(t, Unix(claimAt), batchSize, ids);
      ghost var outcome := id => OutcomeOf(attempts(id));
      assert ids[..0] == [];
      for i := 0 to |claimed|
        invariant Partway(t, repo.rows, pol, ids, i, outcome, Unix(claimAt), finishAt)
        invariant forall j :: i <= j < |ids| ==> ids[j] in repo.rows && repo.rows[ids[j]] == ClaimedRow(t[ids[j]], Unix(claimAt))
      {
        var d := claimed[i];
        ghost var before := repo.rows;
        DeliverOne(repo, d, attempts(d.id), finishAt(d.id));
        FinishIsLocal(before, pol, ClaimOf(d), OutcomeOf(attempts(d.id)), finishAt(d.id));
        PartwayStep(t, before, repo.rows, pol, ids, i, outcome, Unix(claimAt), finishAt);
      }
      forall j | 0 <= j < |ids|
        ensures ids[j] in old(repo.rows) && ids[j] in repo.rows
                && AfterAttempt(old(repo.rows)[ids[j]].(claimedAt := None), repo.rows[ids[j]], pol, old(repo.rows)[ids[j]].attempts,
                                attempts(ids[j]), finishAt(ids[j]))
      {
        SettledMeans(old(repo.rows), Unix(reclaimAt - pol.staleAfter), repo.rows, pol, ids[j], attempts(ids[j]), Unix(claimAt), finishAt(ids[j]));
      }
    }
  }

  // ---- What an attempt leaves behind, in the attempt's own terms ----

  /** The receiver answered with a status from 200 to 299. */
  predicate Accepted(a: Attempt) { a.Responded? && 200 <= a.status <= 299 }

  /** The reason stored for an attempt that was not accepted. */
  predicate Reason(a: Attempt, msg: string) {
    && (a.WebhookGone? ==> msg == "webhook not found")
    && (a.KeyUnavailable? ==> msg == "signing key unavailable")
    && (a.KeyUnsealable? ==> msg == "signing key unsealable")
    && (a.UrlBlocked? ==> msg == "url blocked by policy")
    && (a.BuildFailed? ==> msg == "request build failed")
    && (a.TransportFailed? ==> msg == a.reason)
    && (a.Responded? ==> |msg| > 5 && msg[..5] == "HTTP " && DecimalValue(msg[5..]) == a.status)
  }

  /**
   * Row r, in progress, became u by attempt a of a worker that remembered `attempts`
   * earlier ones: delivered exactly on an accepted answer; dead exactly when the key
   * cannot be opened or this was the last allowed attempt; otherwise waiting for the next.
   */
  predicate AfterAttempt(r: Row, u: Row, pol: Policy, attempts: nat, a: Attempt, now: int) {
    && u.webhookID == r.webhookID && u.event == r.event && u.payload == r.payload && u.createdAt == r.createdAt
    && u.attempts == r.attempts + 1 && u.claimedAt == None
    && (u.status.Delivered? <==> Accepted(a))
    && (u.status.Dead? <==> a.KeyUnsealable? || (!Accepted(a) && attempts + 1 >= pol.maxAttempts))
    && !u.status.InProgress?
    && u.lastStatus == (if a.Responded? && a.status > 0 then Some(a.status) else None)
    && (if Accepted(a) then u.lastError == "" else Reason(a, u.lastError))
    && u.deliveredAt == (if Accepted(a) then Some(Unix(now)) else r.deliveredAt)
    && u.nextAttemptAt == (if u.status.Pending? then Unix(now + Backoff(attempts + 1)) else r.nextAttemptAt)
  }

  lemma FinishedMeans(r: Row, pol: Policy, attempts: nat, a: Attempt, now: int)
    ensures AfterAttempt(r, FinishedRow(r, pol, attempts, OutcomeOf(a), now), pol, attempts, a, now)
  {
    if a.Responded? {
      DecimalReads(a.status);
      assert ("HTTP " + Decimal(a.status))[..5] == "HTTP " && ("HTTP " + Decimal(a.status))[5..] == Decimal(a.status);
    }
  }

  lemma SettledMeans(was: Table, before: int, u: Table, pol: Policy, id: int, a: Attempt, claimAt: int, finishAt: int)
    requires Settled(Reclaimed(was, before), u, pol, id, OutcomeOf(a), claimAt, finishAt)
    ensures id in was && id in u && AfterAttempt(was[id].(claimedAt := None), u[id], pol, was[id].attempts, a, finishAt)
  {
    var t := Reclaimed(was, before);
    FinishedMeans(ClaimedRow(t[id], claimAt), pol, t[id].attempts, a, finishAt);
  }

  /** The number a decimal text stands for. */
  function DecimalValue(s: string): int { if s != "" && s[0] == '-' then -DigitsValue(s[1..]) else DigitsValue(s) }

  function DigitsValue(s: string): int {
    if s == "" then 0 else 10 * DigitsValue(s[..|s| - 1]) + (s[|s| - 1] as int - '0' as int)
  }

  lemma {:induction false} DigitsRead(n: nat)
    ensures DigitsValue(Digits(n)) == n && Digits(n) != "" && Digits(n)[0] != '-'
  {
    if n < 10 {
      var s := Digits(n);
      assert |s| == 1 && s[..0] == "" && s[0] as int == '0' as int + n;
    } else {
      DigitsRead(n / 10);
      DigitsRead(n % 10);
      var s := Digits(n);
      assert |Digits(n % 10)| == 1 && s[..|s| - 1] == Digits(n / 10);
      assert s[|s| - 1] == Digits(n % 10)[0] && Digits(n % 10)[..0] == "";
    }
  }

  lemma DecimalReads(n: int)
    ensures DecimalValue(Decimal(n)) == n && Decimal(n) != ""
  {
    hide Digits, DigitsValue;
    if n < 0 {
      DigitsRead(-n);
      assert ("-" + Digits(-n))[1..] == Digits(-n);
    } else {
      DigitsRead(n);
    }
  }

  function ClaimedRow(r: Row, now: int): Row { r.(status := InProgress, claimedAt := Some(now)) }

  /** A row in progress after an attempt that was its (attempts + 1)-th. */
  function FinishedRow(r: Row, pol: Policy, attempts: nat, o: Outcome, now: int): Row {
    var counted := r.(attempts := r.attempts + 1, claimedAt := None);
    match o
    case Success(code) => counted.(status := Delivered, lastStatus := Some(code), lastError := "", deliveredAt := Some(Unix(now)))
    case Unsealable => counted.(status := Dead, lastStatus := None, lastError := "signing key unsealable")
    case Failure(code, msg) =>
      var failed := counted.(lastStatus := NullableStatus(code), lastError := msg);
      if attempts + 1 >= pol.maxAttempts then failed.(status := Dead)
      else failed.(status := Pending, nextAttemptAt := Unix(now + Backoff(attempts + 1)))
  }

  /** Row id was claimed and then finished with its outcome. */
  ghost predicate Settled(t: Table, u: Table, pol: Policy, id: int, o: Outcome, claimAt: int, finishAt: int) {
    id in t && id in u && u[id] == FinishedRow(ClaimedRow(t[id], claimAt), pol, t[id].attempts, o, finishAt)
  }

  /** The first i claims are settled; rows that are not claimed are as in t. */
  ghost predicate Partway(t: Table, u: Table, pol: Policy, ids: seq<int>, i: nat, outcome: int -> Outcome, claimAt: int,
                          finishAt: int -> int)
  {
    && i <= |ids| && u.Keys == t.Keys
    && (forall id :: id in t && id !in ids ==> u[id] == t[id])
    && (forall j :: 0 <= j < i ==> Settled(t, u, pol, ids[j], outcome(ids[j]), claimAt, finishAt(ids[j])))
  }

  /** A settled row has used one more attempt and is out of the sweep's hands: done, dead, or due again after the backoff. */
  lemma SettledRow(t: Table, u: Table, pol: Policy, id: int, o: Outcome, claimAt: int, finishAt: int)
    requires Settled(t, u, pol, id, o, claimAt, finishAt) && !t[id].status.InProgress?
    ensures u[id].attempts == t[id].attempts + 1 && u[id].claimedAt.None?
    ensures u[id].status.Delivered? <==> o.Success?
    ensures u[id].status.Dead? <==> o.Unsealable? || (o.Failure? && t[id].attempts + 1 >= pol.maxAttempts)
    ensures u[id].status.Pending? ==> u[id].nextAttemptAt >= Unix(finishAt) + 10 && t[id].attempts + 1 < pol.maxAttempts
  {
    Pow2Grows(0, t[id].attempts);
  }

  lemma SelectionFacts(t: Table, now: int, limit: nat, ids: seq<int>)
    requires IsSelection(t, now, limit, ids)
    ensures forall i :: 0 <= i < |ids| ==> ids[i] in t
    ensures forall i, j :: 0 <= i < j < |ids| ==> ids[i] != ids[j]
  {
    forall i | 0 <= i < |ids| ensures ids[i] in t { assert Due(t, ids[i], now); }
  }

  lemma PartwayStep(t: Table, before: Table, u: Table, pol: Policy, ids: seq<int>, i: nat, outcome: int -> Outcome,
                    claimAt: int, finishAt: int -> int)
    requires i < |ids| && Partway(t, before, pol, ids, i, outcome, claimAt, finishAt) && u.Keys == before.Keys
    requires forall a, b :: 0 <= a < b < |ids| ==> ids[a] != ids[b]
    requires forall id :: id in before && id != ids[i] ==> u[id] == before[id]
    requires Settled(t, u, pol, ids[i], outcome(ids[i]), claimAt, finishAt(ids[i]))
    ensures Partway(t, u, pol, ids, i + 1, outcome, claimAt, finishAt)
  {
    forall j | 0 <= j < i + 1 ensures Settled(t, u, pol, ids[j], outcome(ids[j]), claimAt, finishAt(ids[j])) {
      if j < i { assert Settled(t, before, pol, ids[j], outcome(ids[j]), claimAt, finishAt(ids[j])) && ids[j] != ids[i]; }
    }
    forall id | id in t && id !in ids ensures u[id] == t[id] { assert ids[i] in ids; }
  }

  /** Finishing a claim rewrites its own row and no other. */
  lemma FinishIsLocal(u: Table, pol: Policy, c: Claim, o: Outcome, now: int)
    ensures Finished(u, pol, c, o, now).Keys == u.Keys
    ensures forall id :: id in u && id != c.id ==> Finished(u, pol, c, o, now)[id] == u[id]
    ensures Markable(u, c.id) ==> Finished(u, pol, c, o, now)[c.id] == FinishedRow(u[c.id], pol, c.attempts, o, now)
  {
  }
}
