/** Row ids: picking the smallest, listing in order, and the id SQLite gives the next row. */
module Ordering {

  lemma NonEmpty(s: set<int>)
    requires s != {}
    ensures exists x :: x in s
  {
    assert (forall x :: x !in s) ==> s == {};
  }

  predicate IsLeast(s: set<int>, x: int) { x in s && forall y :: y in s ==> x <= y }

  predicate IsGreatest(s: set<int>, x: int) { x in s && forall y :: y in s ==> y <= x }

  lemma {:induction false} LeastExists(s: set<int>)
    requires s != {}
    ensures exists x :: IsLeast(s, x)
    decreases |s|
  {
    NonEmpty(s);
    var x :| x in s;
    if s == {x} {
      assert IsLeast(s, x);
    } else {
      LeastExists(s - {x});
      var y :| IsLeast(s - {x}, y);
      var m := if x < y then x else y;
      forall z | z in s ensures m <= z { assert z != x ==> z in s - {x}; }
      assert IsLeast(s, m);
    }
  }

  lemma {:induction false} GreatestExists(s: set<int>)
    requires s != {}
    ensures exists x :: IsGreatest(s, x)
    decreases |s|
  {
    NonEmpty(s);
    var x :| x in s;
    if s == {x} {
      assert IsGreatest(s, x);
    } else {
      GreatestExists(s - {x});
      var y :| IsGreatest(s - {x}, y);
      var m := if x < y then y else x;
      forall z | z in s ensures z <= m { assert z != x ==> z in s - {x}; }
      assert IsGreatest(s, m);
    }
  }

  /** The elements in ascending order. */
  function Ascending(s: set<int>): (r: seq<int>)
    ensures forall x :: x in r <==> x in s
    ensures forall i, j :: 0 <= i < j < |r| ==> r[i] < r[j]
    decreases |s|
  {
    if s == {} then []
    else
      LeastExists(s);
      var least :| IsLeast(s, least);
      var rest := Ascending(s - {least});
      assert forall i :: 0 <= i < |rest| ==> rest[i] in s - {least};
      [least] + rest
  }

  /** One more than the largest id in use, or 1. */
  function NextRowid(s: set<int>): (id: int)
    ensures forall x :: x in s ==> x < id
    ensures if s == {} then id == 1 else id - 1 in s
  {
    if s == {} then 1
    else
      GreatestExists(s);
      var greatest :| IsGreatest(s, greatest);
      greatest + 1
  }
}

/**
 * The webhook_deliveries table and its statements. Each SQL statement is one
 * function on the table; the repository's methods run them on their field.
 */
module Outbox {
  import opened Wrappers
  import Ordering

  datatype Status = Pending | InProgress | Delivered | Dead

  /** Times in the table are unix seconds. */
  datatype Row = Row(
    webhookID: int,
    event: string,
    payload: string,
    status: Status,
    attempts: nat,
    nextAttemptAt: int,
    claimedAt: Option<int>,
    lastStatus: Option<int>,
    lastError: string,
    createdAt: int,
    deliveredAt: Option<int>)

  type Table = map<int, Row>

  const SECOND := 1_000_000_000

  /** time.Time.Unix: nanoseconds to whole seconds, rounded down. */
  function Unix(ns: int): int { ns / SECOND }

  /** A moment lies within the second it is cut to. */
  lemma UnixIsWholeSeconds(ns: int)
    ensures Unix(ns) * 1_000_000_000 <= ns < (Unix(ns) + 1) * 1_000_000_000
  {
  }

  function NullableStatus(code: int): Option<int> { if code <= 0 then None else Some(code) }

  // ---- Statements ----

  function Inserted(t: Table, id: int, webhookID: int, event: string, payload: string, now: int): Table {
    t[id := Row(webhookID, event, payload, Pending, 0, now, None, None, "", now, None)]
  }

  predicate Due(t: Table, id: int, now: int) { id in t && t[id].status.Pending? && t[id].nextAttemptAt <= now }

  /** The result of the claim's SELECT: the due rows with the smallest ids, in order, at most limit. */
  predicate IsSelection(t: Table, now: int, limit: nat, ids: seq<int>) {
    && |ids| <= limit
    && (forall i, j :: 0 <= i < j < |ids| ==> ids[i] < ids[j])
    && (forall i :: 0 <= i < |ids| ==> Due(t, ids[i], now))
    && (forall id :: id in t && Due(t, id, now) && id !in ids ==> |ids| == limit && forall i :: 0 <= i < |ids| ==> ids[i] < id)
  }

  predicate Won(t: Table, id: int) { id in t && t[id].status.Pending? }

  function Claimed(t: Table, id: int, now: int): Table {
    if Won(t, id) then t[id := t[id].(status := InProgress, claimedAt := Some(now))] else t
  }

  /** The guard of every Mark statement. */
  predicate Markable(t: Table, id: int) { id in t && t[id].status.InProgress? }

  function MarkedDelivered(t: Table, id: int, code: int, now: int): Table {
    if !Markable(t, id) then t
    else t[id := t[id].(status := Delivered, attempts := t[id].attempts + 1, lastStatus := Some(code), lastError := "",
                        claimedAt := None, deliveredAt := Some(now))]
  }

  function MarkedRetry(t: Table, id: int, next: int, code: int, msg: string): Table {
    if !Markable(t, id) then t
    else t[id := t[id].(status := Pending, attempts := t[id].attempts + 1, nextAttemptAt := next,
                        lastStatus := NullableStatus(code), lastError := msg, claimedAt := None)]
  }

  function MarkedDead(t: Table, id: int, code: int, msg: string): Table {
    if !Markable(t, id) then t
    else t[id := t[id].(status := Dead, attempts := t[id].attempts + 1,
                        lastStatus := NullableStatus(code), lastError := msg, claimedAt := None)]
  }

  predicate Stale(r: Row, before: int) { r.status.InProgress? && r.claimedAt.Some? && r.claimedAt.value < before }

  function Reclaimed(t: Table, before: int): Table {
    map id | id in t :: if Stale(t[id], before) then t[id].(status := Pending, claimedAt := None) else t[id]
  }

  /** ON DELETE CASCADE from webhooks. */
  function WithoutWebhook(t: Table, webhookID: int): Table {
    map id | id in t && t[id].webhookID != webhookID :: t[id]
  }

  // ---- What the statements mean together ----

  /** The three ways to finish a claim. */
  datatype Mark = AsDelivered(code: int, now: int) | AsRetry(next: int, code: int, msg: string) | AsDead(code: int, msg: string)

  function Marked(t: Table, id: int, m: Mark): Table {
    match m
    case AsDelivered(code, now) => MarkedDelivered(t, id, code, now)
    case AsRetry(next, code, msg) => MarkedRetry(t, id, next, code, msg)
    case AsDead(code, msg) => MarkedDead(t, id, code, msg)
  }

  /**
   * A claim is finished once: a second Mark of any kind finds nothing, a Mark after
   * the claim was reclaimed finds nothing, and no Mark touches another row.
   */
  lemma MarksExclude(t: Table, id: int, a: Mark, b: Mark, before: int)
    ensures Marked(Marked(t, id, a), id, b) == Marked(t, id, a)
    ensures id in t && Stale(t[id], before) ==> Marked(Reclaimed(t, before), id, a) == Reclaimed(t, before)
    ensures Marked(t, id, a).Keys == t.Keys && forall other :: other in t && other != id ==> Marked(t, id, a)[other] == t[other]
    ensures Marked(t, id, a) != t <==> Markable(t, id)
  {
    if Markable(t, id) { assert Marked(t, id, a)[id].attempts == t[id].attempts + 1; }
  }

  /**
   * Of two claims of one row the second loses and changes nothing; a claim that goes
   * stale and is reclaimed leaves the row as it was before the claim.
   */
  lemma ClaimsExclude(t: Table, id: int, now: int, later: int, before: int)
    requires Won(t, id)
    ensures !Won(Claimed(t, id, now), id) && Claimed(Claimed(t, id, now), id, later) == Claimed(t, id, now)
    ensures t[id].claimedAt.None? && now < before ==> Reclaimed(Claimed(t, id, now), before)[id] == t[id]
    ensures now >= before ==> Reclaimed(Claimed(t, id, now), before)[id] == Claimed(t, id, now)[id]
  {
  }

  function StaleIds(t: Table, before: int): set<int> { set id | id in t && Stale(t[id], before) }

  /**
   * A reclaim changes exactly the stale rows, leaves none, keeps their attempts and
   * due times, and a second one with the same cutoff finds nothing.
   */
  lemma ReclaimRecovers(t: Table, before: int)
    ensures var u := Reclaimed(t, before);
            && u.Keys == t.Keys
            && (set id | id in t && u[id] != t[id]) == StaleIds(t, before)
            && StaleIds(u, before) == {} && Reclaimed(u, before) == u
            && forall id :: id in StaleIds(t, before) ==>
                 u[id].status.Pending? && u[id].attempts == t[id].attempts && u[id].nextAttemptAt == t[id].nextAttemptAt
  {
    var u := Reclaimed(t, before);
    forall id | id in t ensures !Stale(u[id], before) {}
  }

  /** The table once the taken rows have been claimed. */
  ghost function ClaimedAll(t: Table, taken: set<int>, now: int): Table {
    map id | id in t :: if id in taken then t[id].(status := InProgress, claimedAt := Some(now)) else t[id]
  }

  lemma ClaimOneMore(t: Table, taken: set<int>, id: int, now: int)
    requires id in t && t[id].status.Pending? && id !in taken
    ensures Won(ClaimedAll(t, taken, now), id)
    ensures Claimed(ClaimedAll(t, taken, now), id, now) == ClaimedAll(t, taken + {id}, now)
  {
  }

  /** A selection, column by column: pending rows whose time has come, in order of id, and none left out before a chosen one. */
  lemma SelectionMeans(t: Table, now: int, limit: nat, ids: seq<int>)
    ensures IsSelection(t, now, limit, ids) <==>
            && |ids| <= limit && (forall i, j :: 0 <= i < j < |ids| ==> ids[i] < ids[j])
            && (forall i :: 0 <= i < |ids| ==> ids[i] in t && t[ids[i]].status == Pending && t[ids[i]].nextAttemptAt <= now)
            && (forall id :: id in t && t[id].status == Pending && t[id].nextAttemptAt <= now && id !in ids ==>
                  |ids| == limit && forall i :: 0 <= i < |ids| ==> ids[i] < id)
  {
    forall id ensures Due(t, id, now) <==> id in t && t[id].status == Pending && t[id].nextAttemptAt <= now {}
  }

  lemma NothingClaimed(t: Table, now: int)
    ensures ClaimedAll(t, {}, now) == t
  {
  }

  lemma ClaimedRows(t: Table, taken: set<int>, now: int)
    ensures ClaimedAll(t, taken, now).Keys == t.Keys
    ensures forall id :: id in t ==> ClaimedAll(t, taken, now)[id] ==
                                      if id in taken then t[id].(status := InProgress, claimedAt := Some(now)) else t[id]
  {
  }

  lemma SelectedArePending(t: Table, now: int, limit: nat, ids: seq<int>)
    requires IsSelection(t, now, limit, ids)
    ensures forall i :: 0 <= i < |ids| ==> ids[i] in t && t[ids[i]].status.Pending?
    ensures forall i, j :: 0 <= i < j < |ids| ==> ids[i] < ids[j]
  {
  }

  // ---- The repository ----

  /** What ClaimDue hands to the worker: the row as selected, with the claim filled in. */
  datatype Delivery = Delivery(id: int, row: Row)

  class DeliveryRepo {
    var rows: Table

    constructor ()
      ensures rows == map[]
    {
      rows := map[];
    }

    /** The id is the database's choice among unused ones; a deleted row's id may come back. */
    method Enqueue(id: int, webhookID: int, event: string, payload: string, now: int) returns (d: Delivery)
      requires id !in rows
      modifies this
      ensures rows == Inserted(old(rows), id, webhookID, event, payload, now)
      ensures d == Delivery(id, rows[id])
    {
      var row := Row(webhookID, event, payload, Pending, 0, now, None, None, "", now, None);
      rows := rows[id := row];
      return Delivery(id, row);
    }

    /** Ordered by id, cut off at limit. */
    method SelectDue(now: int, limit: nat) returns (ids: seq<int>)
      ensures IsSelection(rows, now, limit, ids)
    {
      var due := Ordering.Ascending(set id | id in rows && rows[id].status.Pending? && rows[id].nextAttemptAt <= now);
      ids := if |due| <= limit then due else due[..limit];
      forall i | 0 <= i < |ids| ensures Due(rows, ids[i], now) { assert due[i] in due; }
      forall id | id in rows && Due(rows, id, now) && id !in ids
        ensures |ids| == limit && forall i :: 0 <= i < |ids| ==> ids[i] < id
      {
        assert id in due;
        assert forall k :: 0 <= k < |ids| ==> due[k] == ids[k] && ids[k] in ids;
        var j :| 0 <= j < |due| && due[j] == id;
      }
    }

    method Cas(id: int, now: int) returns (won: bool)
      modifies this
      ensures rows == Claimed(old(rows), id, now)
      ensures won == Won(old(rows), id)
    {
      if id !in rows || rows[id].status != Pending { return false; }
      rows := rows[id := rows[id].(status := InProgress, claimedAt := Some(now))];
      return true;
    }

    /** Alone on the table, a claim takes exactly the selected rows and touches no other. */
    method ClaimDue(nowNs: int, limit: nat) returns (claimed: seq<Delivery>, ghost ids: seq<int>)
      modifies this
      ensures IsSelection(old(rows), Unix(nowNs), limit, ids)
      ensures |claimed| == |ids|
      ensures forall i :: 0 <= i < |ids| ==>
                ids[i] in rows && claimed[i] == Delivery(ids[i], rows[ids[i]])
                && rows[ids[i]] == old(rows)[ids[i]].(status := InProgress, claimedAt := Some(Unix(nowNs)))
      ensures rows.Keys == old(rows).Keys && forall id :: id in rows && id !in ids ==> rows[id] == old(rows)[id]
    {
      hide IsSelection, Due, Won, Claimed, ClaimedAll;
      var now := Unix(nowNs);
      var candidates := SelectDue(now, limit);
      ids := candidates;
      var was := rows;
      claimed := [];
      SelectedArePending(was, now, limit, ids);
      ghost var taken := {};
      NothingClaimed(was, now);
      for n := 0 to |candidates|
        invariant rows == ClaimedAll(was, taken, now)
        invariant forall x :: x in taken <==> exists i :: 0 <= i < n && ids[i] == x
        invariant |claimed| == n
        invariant forall i :: 0 <= i < n ==>
                    claimed[i] == Delivery(ids[i], was[ids[i]].(status := InProgress, claimedAt := Some(now)))
      {
        var id := candidates[n];
        var d := was[id];
        ClaimOneMore(was, taken, id, now);
        taken := taken + {id};
        var won := Cas(id, now);
        if !won { continue; }
        claimed := claimed + [Delivery(id, d.(status := InProgress, claimedAt := Some(now)))];
      }
      ClaimedRows(was, taken, now);
    }

    method MarkDelivered(id: int, code: int, now: int) returns (found: bool)
      modifies this
      ensures rows == MarkedDelivered(old(rows), id, code, now) && found == Markable(old(rows), id)
    {
      if id !in rows || rows[id].status != InProgress { return false; }
      rows := rows[id := rows[id].(status := Delivered, attempts := rows[id].attempts + 1, lastStatus := Some(code),
                                   lastError := "", claimedAt := None, deliveredAt := Some(now))];
      return true;
    }

    method MarkRetry(id: int, nextNs: int, code: int, msg: string) returns (found: bool)
      modifies this
      ensures rows == MarkedRetry(old(rows), id, Unix(nextNs), code, msg) && found == Markable(old(rows), id)
    {
      if id !in rows || rows[id].status != InProgress { return false; }
      rows := rows[id := rows[id].(status := Pending, attempts := rows[id].attempts + 1, nextAttemptAt := Unix(nextNs),
                                   lastStatus := NullableStatus(code), lastError := msg, claimedAt := None)];
      return true;
    }

    method MarkDead(id: int, code: int, msg: string) returns (found: bool)
      modifies this
      ensures rows == MarkedDead(old(rows), id, code, msg) && found == Markable(old(rows), id)
    {
      if id !in rows || rows[id].status != InProgress { return false; }
      rows := rows[id := rows[id].(status := Dead, attempts := rows[id].attempts + 1,
                                   lastStatus := NullableStatus(code), lastError := msg, claimedAt := None)];
      return true;
    }

    /** Counts the rows it changes; they are the stale ones, and none is left stale. */
    method ReclaimStale(beforeNs: int) returns (n: nat)
      modifies this
      ensures rows == Reclaimed(old(rows), Unix(beforeNs))
      ensures rows.Keys == old(rows).Keys && StaleIds(rows, Unix(beforeNs)) == {}
      ensures n == |set id | id in old(rows) && rows[id] != old(rows)[id]|
    {
      ReclaimRecovers(rows, Unix(beforeNs));
      n := |StaleIds(rows, Unix(beforeNs))|;
      rows := map id | id in rows ::
                if Stale(rows[id], Unix(beforeNs)) then rows[id].(status := Pending, claimedAt := None) else rows[id];
    }
  }
}
