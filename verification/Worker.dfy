/**
 * Any number of delivery workers over the outbox, with crashes and a clock.
 * Each SQL statement is one atomic step; every time a statement uses was read
 * from the clock at or before the statement.
 */
module Worker {
  import opened Wrappers
  import opened Outbox

  // ---- Backoff ----

  const CEILING := 300 * SECOND

  function Pow2(n: nat): nat { if n == 0 then 1 else 2 * Pow2(n - 1) }

  function Min(x: int, y: int): int { if x < y then x else y }

  /** min(5 min, 10 s * 2^(attempt - 1)), attempts counted from 1. */
  function Backoff(attempt: int): int { Min(CEILING, 10 * SECOND * Pow2(if attempt < 1 then 0 else attempt - 1)) }

  lemma {:induction false} Pow2Grows(m: nat, n: nat)
    requires m <= n
    ensures 1 <= Pow2(m) <= Pow2(n)
  {
    if m < n { Pow2Grows(m, n - 1); } else if m > 0 { Pow2Grows(m - 1, n - 1); }
  }

  /** 10 s, 20 s, 40 s, 80 s, 160 s, and five minutes from the sixth attempt on. */
  lemma BackoffTable(attempt: int)
    ensures Backoff(1) == 10_000_000_000 && Backoff(2) == 20_000_000_000 && Backoff(3) == 40_000_000_000
    ensures Backoff(4) == 80_000_000_000 && Backoff(5) == 160_000_000_000
    ensures attempt >= 6 ==> Backoff(attempt) == 300_000_000_000
    ensures attempt < 1 ==> Backoff(attempt) == Backoff(1)
  {
    assert Pow2(2) == 2 * Pow2(1) && Pow2(3) == 2 * Pow2(2) && Pow2(4) == 2 * Pow2(3) && Pow2(5) == 2 * Pow2(4);
    if attempt >= 6 { Pow2Grows(5, attempt - 1); }
  }

  /** No intermediate value leaves the 64-bit range of a duration. */
  method DefaultBackoff(attempt: int) returns (d: int)
    ensures d == Backoff(attempt) && 10 * SECOND <= d <= CEILING
  {
    var a := if attempt < 1 then 1 else attempt;
    d := 10 * SECOND;
    var i := 1;
    while i < a
      invariant 1 <= i <= a && d == 10 * SECOND * Pow2(i - 1)
      invariant 10 * SECOND <= d < CEILING
    {
      assert d * 2 < 0x8000_0000_0000_0000;
      d := d * 2;
      if d >= CEILING {
        Pow2Grows(i, a - 1);
        return CEILING;
      }
      i := i + 1;
    }
  }

  // ---- The protocol ----

  /** Retry policy, as NewWorker leaves it. */
  datatype Policy = Policy(maxAttempts: nat, staleAfter: int) {
    predicate Valid() { maxAttempts > 0 && staleAfter > 0 }
  }

  /** What the worker remembers of a selected row: its id and its attempts at selection. */
  datatype Claim = Claim(id: int, attempts: nat)

  /**
   * Claiming: selected at `at`, `rest` still to be won, `won` claimed.
   * Delivering: `queue` claimed and not yet finished.
   */
  datatype Phase =
    | Idle
    | Claiming(at: int, rest: seq<Claim>, won: seq<Claim>)
    | Delivering(at: int, queue: seq<Claim>)

  /**
   * Table, clock and workers; `owner` records which worker last won a row and
   * `marks` how many Mark statements took effect on it.
   */
  datatype System = System(rows: Table, clock: int, workers: seq<Phase>, owner: map<int, nat>, marks: map<int, nat>)

  datatype Outcome = Success(code: int) | Failure(code: int, msg: string) | Unsealable

  datatype Event =
    | Advance(to: int)
    | Enqueue(id: int, webhookID: int, event: string, payload: string, now: int)
    | DeleteWebhook(webhookID: int)
    | Reclaim(w: nat, now: int)
    | Select(w: nat, now: int, limit: nat, ids: seq<int>)
    | Cas(w: nat)
    | Deliver(w: nat)
    | Finish(w: nat, outcome: Outcome, now: int)
    | Lose(w: nat)
    | Crash(w: nat)

  predicate Enabled(s: System, ev: Event) {
    match ev
    case Advance(to) => s.clock <= to
    case Enqueue(id, _, _, _, now) => id !in s.rows && now <= Unix(s.clock)
    case DeleteWebhook(_) => true
    case Reclaim(w, now) => w < |s.workers| && s.workers[w].Idle? && now <= s.clock
    case Select(w, now, limit, ids) =>
      w < |s.workers| && s.workers[w].Idle? && now <= s.clock && IsSelection(s.rows, Unix(now), limit, ids)
    case Cas(w) => w < |s.workers| && s.workers[w].Claiming? && s.workers[w].rest != []
    case Deliver(w) => w < |s.workers| && s.workers[w].Claiming? && s.workers[w].rest == []
    case Finish(w, _, now) => w < |s.workers| && s.workers[w].Delivering? && s.workers[w].queue != [] && now <= s.clock
    case Lose(w) => w < |s.workers| && s.workers[w].Delivering? && s.workers[w].queue != []
    case Crash(w) => w < |s.workers|
  }

  /** fail: dead-letter the last allowed attempt, otherwise retry after the backoff. */
  function Failed(t: Table, pol: Policy, c: Claim, code: int, msg: string, now: int): Table {
    var attempt := c.attempts + 1;
    if attempt >= pol.maxAttempts then MarkedDead(t, c.id, code, msg)
    else MarkedRetry(t, c.id, Unix(now + Backoff(attempt)), code, msg)
  }

  /** deliverOne's last statement, by the outcome of the attempt. */
  function Finished(t: Table, pol: Policy, c: Claim, outcome: Outcome, now: int): Table {
    match outcome
    case Success(code) => MarkedDelivered(t, c.id, code, Unix(now))
    case Failure(code, msg) => Failed(t, pol, c, code, msg, now)
    case Unsealable => MarkedDead(t, c.id, 0, "signing key unsealable")
  }

  /** After its last delivery the worker is idle again. */
  function NextPhase(at: int, queue: seq<Claim>): Phase { if queue == [] then Idle else Delivering(at, queue) }

  /** What a worker remembers of the rows it selected. */
  function Selected(t: Table, ids: seq<int>): seq<Claim>
    requires forall i :: 0 <= i < |ids| ==> ids[i] in t
  {
    seq(|ids|, i requires 0 <= i < |ids| => Claim(ids[i], t[ids[i]].attempts))
  }

  function Step(s: System, pol: Policy, ev: Event): System
    requires Enabled(s, ev)
  {
    match ev
    case Advance(to) => s.(clock := to)
    case Enqueue(id, webhookID, event, payload, now) =>
      s.(rows := Inserted(s.rows, id, webhookID, event, payload, now), marks := s.marks[id := 0])
    case DeleteWebhook(webhookID) => s.(rows := WithoutWebhook(s.rows, webhookID))
    case Reclaim(_, now) => s.(rows := Reclaimed(s.rows, Unix(now - pol.staleAfter)))
    case Select(w, now, _, ids) =>
      s.(workers := s.workers[w := Claiming(now, Selected(s.rows, ids), [])])
    case Cas(w) =>
      var ph := s.workers[w];
      var c := ph.rest[0];
      var won := Won(s.rows, c.id);
      s.(rows := Claimed(s.rows, c.id, Unix(ph.at)),
         owner := if won then s.owner[c.id := w] else s.owner,
         workers := s.workers[w := Claiming(ph.at, ph.rest[1..], if won then ph.won + [c] else ph.won)])
    case Deliver(w) => s.(workers := s.workers[w := NextPhase(s.workers[w].at, s.workers[w].won)])
    case Finish(w, outcome, now) =>
      var ph := s.workers[w];
      var c := ph.queue[0];
      s.(rows := Finished(s.rows, pol, c, outcome, now),
         marks := if Markable(s.rows, c.id) && c.id in s.marks then s.marks[c.id := s.marks[c.id] + 1] else s.marks,
         workers := s.workers[w := NextPhase(ph.at, ph.queue[1..])])
    case Lose(w) => s.(workers := s.workers[w := NextPhase(s.workers[w].at, s.workers[w].queue[1..])])
    case Crash(w) => s.(workers := s.workers[w := Idle])
  }

  function Start(clock: int, n: nat): System { System(map[], clock, seq(n, _ => Idle), map[], map[]) }

  ghost predicate StepsTo(s: System, pol: Policy, ev: Event, u: System) { Enabled(s, ev) && u == Step(s, pol, ev) }

  ghost predicate Run(ss: seq<System>, evs: seq<Event>, pol: Policy, n: nat) {
    && |ss| == |evs| + 1 && (exists clock :: ss[0] == Start(clock, n))
    && forall i :: 0 <= i < |evs| ==> StepsTo(ss[i], pol, evs[i], ss[i + 1])
  }

  // ---- What holds with any number of workers ----

  predicate Terminal(r: Row) { r.status.Delivered? || r.status.Dead? }

  ghost predicate RowOK(r: Row) {
    && (r.claimedAt.Some? <==> r.status.InProgress?)
    && (r.deliveredAt.Some? <==> r.status.Delivered?)
    && (Terminal(r) ==> r.attempts >= 1)
  }

  ghost predicate TableOK(s: System) {
    forall id :: id in s.rows ==> RowOK(s.rows[id]) && id in s.marks && s.marks[id] == s.rows[id].attempts
  }

  lemma StepTable(s: System, pol: Policy, ev: Event)
    requires TableOK(s) && Enabled(s, ev)
    ensures TableOK(Step(s, pol, ev))
  {
  }

  lemma {:induction false} RunTable(ss: seq<System>, evs: seq<Event>, pol: Policy, n: nat, i: nat)
    requires Run(ss, evs, pol, n) && i <= |evs|
    ensures TableOK(ss[i]) && |ss[i].workers| == n
    decreases i
  {
    if i > 0 {
      RunTable(ss, evs, pol, n, i - 1);
      assert StepsTo(ss[i - 1], pol, evs[i - 1], ss[i]);
      StepTable(ss[i - 1], pol, evs[i - 1]);
    }
  }

  /** delivered and dead are absorbing: such a row stays as it is until its webhook is deleted. */
  lemma {:induction false} TerminalAbsorbs(ss: seq<System>, evs: seq<Event>, pol: Policy, n: nat, id: int, i: nat, j: nat)
    requires Run(ss, evs, pol, n) && i <= j <= |evs| && id in ss[i].rows && Terminal(ss[i].rows[id])
    requires forall k :: i <= k < j ==> evs[k] != DeleteWebhook(ss[i].rows[id].webhookID)
    ensures id in ss[j].rows && ss[j].rows[id] == ss[i].rows[id]
    decreases j - i
  {
    if i < j {
      TerminalAbsorbs(ss, evs, pol, n, id, i, j - 1);
      assert StepsTo(ss[j - 1], pol, evs[j - 1], ss[j]);
    }
  }

  /** A row vanishes only with its webhook, and never changes webhook, event or payload. */
  lemma RowsVanishWithWebhook(s: System, pol: Policy, ev: Event, id: int)
    requires Enabled(s, ev) && id in s.rows
    ensures var u := Step(s, pol, ev);
            if id in u.rows then
              u.rows[id].webhookID == s.rows[id].webhookID && u.rows[id].event == s.rows[id].event
              && u.rows[id].payload == s.rows[id].payload && u.rows[id].createdAt == s.rows[id].createdAt
            else ev == DeleteWebhook(s.rows[id].webhookID)
  {
  }

  /** Only a compare-and-swap moves a row from pending to in_progress, and it puts the row in its own worker's hands. */
  lemma ClaimHasOneWinner(s: System, pol: Policy, ev: Event, id: int)
    requires Enabled(s, ev) && id in s.rows && s.rows[id].status.Pending?
    requires var u := Step(s, pol, ev); id in u.rows && u.rows[id].status.InProgress?
    ensures ev.Cas? && s.workers[ev.w].rest[0].id == id
    ensures var u := Step(s, pol, ev);
            && u.owner[id] == ev.w && s.workers[ev.w].rest[0] in u.workers[ev.w].won
            && forall v :: 0 <= v < |s.workers| && v != ev.w ==> u.workers[v] == s.workers[v]
  {
  }

  // ---- Leases: any number of workers that finish within staleAfter ----

  /** The claims a worker holds: won, and not finished. */
  function Held(ph: Phase): seq<Claim> {
    match ph case Idle => [] case Claiming(_, _, won) => won case Delivering(_, queue) => queue
  }

  /** Everything a worker may still act on. */
  function Pendings(ph: Phase): seq<Claim> {
    match ph case Idle => [] case Claiming(_, rest, won) => won + rest case Delivering(_, queue) => queue
  }

  /** The lease of a worker's claims has not run out. */
  predicate Live(s: System, pol: Policy, w: nat)
    requires w < |s.workers|
  {
    !s.workers[w].Idle? && s.clock <= s.workers[w].at + pol.staleAfter
  }

  predicate DistinctIds(cs: seq<Claim>) { forall i, j :: 0 <= i < j < |cs| ==> cs[i].id != cs[j].id }

  /** Worker w's hold on row id is the table's: in progress, stamped with w's claim time, last won by w. */
  ghost predicate HoldsRow(s: System, w: nat, id: int)
    requires w < |s.workers| && !s.workers[w].Idle?
  {
    id in s.rows ==>
      && s.rows[id].status.InProgress? && s.rows[id].claimedAt == Some(Unix(s.workers[w].at))
      && id in s.owner && s.owner[id] == w
  }

  ghost predicate LeaseOK(s: System, pol: Policy) {
    && (forall w :: 0 <= w < |s.workers| ==> DistinctIds(Pendings(s.workers[w])))
    && (forall w, c :: 0 <= w < |s.workers| && Live(s, pol, w) && c in Held(s.workers[w]) ==> HoldsRow(s, w, c.id))
  }

  /** The step respects leases: a delivery is finished in time, and a new row's id is in no live worker's hands. */
  ghost predicate Disciplined(s: System, pol: Policy, ev: Event)
    requires Enabled(s, ev)
  {
    match ev
    case Finish(w, _, _) => Live(s, pol, w)
    case Enqueue(id, _, _, _, _) => !LiveHeld(s, pol, id)
    case _ => true
  }

  ghost predicate LiveHeld(s: System, pol: Policy, id: int) {
    exists w, c :: 0 <= w < |s.workers| && Live(s, pol, w) && c in Held(s.workers[w]) && c.id == id
  }

  lemma UnixMonotone(a: int, b: int)
    requires a <= b
    ensures Unix(a) <= Unix(b)
  {
  }

  /** Whole seconds do not shorten a lease: a live claim is never stale. */
  lemma LiveNotStale(s: System, pol: Policy, w: nat, id: int, now: int)
    requires w < |s.workers| && Live(s, pol, w) && now <= s.clock
    requires id in s.rows && HoldsRow(s, w, id)
    ensures !Stale(s.rows[id], Unix(now - pol.staleAfter))
  {
    UnixMonotone(now - pol.staleAfter, s.workers[w].at);
  }

  lemma {:induction false} IdsDistinct(ids: seq<int>, rest: seq<Claim>)
    requires |rest| == |ids| && forall i :: 0 <= i < |ids| ==> rest[i].id == ids[i]
    requires forall i, j :: 0 <= i < j < |ids| ==> ids[i] < ids[j]
    ensures DistinctIds(rest)
  {
  }

  /** Claiming moves claims from rest to won, and delivering hands the won ones over. */
  lemma ClaimingPendings(at: int, rest: seq<Claim>, won: seq<Claim>)
    ensures Pendings(Claiming(at, rest, [])) == rest && Pendings(Claiming(at, [], won)) == won
    ensures rest != [] ==> Pendings(Claiming(at, rest[1..], won + [rest[0]])) == Pendings(Claiming(at, rest, won))
  {
    if rest != [] { assert rest == [rest[0]] + rest[1..]; }
  }

  lemma StepDistinct(s: System, pol: Policy, ev: Event)
    requires Enabled(s, ev) && forall w :: 0 <= w < |s.workers| ==> DistinctIds(Pendings(s.workers[w]))
    ensures var u := Step(s, pol, ev); forall w :: 0 <= w < |u.workers| ==> DistinctIds(Pendings(u.workers[w]))
  {
    hide DistinctIds, Enabled, Pendings;
    SameWorkers(s, pol, ev);
    forall w | 0 <= w < |s.workers| ensures DistinctIds(Pendings(Step(s, pol, ev).workers[w])) { WorkerDistinct(s, pol, ev, w); }
  }

  lemma SameWorkers(s: System, pol: Policy, ev: Event)
    requires Enabled(s, ev)
    ensures |Step(s, pol, ev).workers| == |s.workers|
  {
  }

  lemma WorkerDistinct(s: System, pol: Policy, ev: Event, w: nat)
    requires Enabled(s, ev) && w < |s.workers| && DistinctIds(Pendings(s.workers[w]))
    ensures DistinctIds(Pendings(Step(s, pol, ev).workers[w]))
  {
    hide IsSelection, Claimed, Finished, DistinctIds, Pendings, Won, NextPhase, Selected;
    NoneDistinct();
    if ev.Select? && ev.w == w {
      SelectionInTable(s.rows, Unix(ev.now), ev.limit, ev.ids);
      SelectDistinct(ev.now, s.rows, ev.ids);
    } else if ev.Cas? && ev.w == w {
      CasDistinct(s.workers[w].at, s.workers[w].rest, s.workers[w].won);
    } else if ev.Deliver? && ev.w == w {
      ClaimingPendings(s.workers[w].at, [], s.workers[w].won);
      QueueDistinct(s.workers[w].at, s.workers[w].won);
    } else if (ev.Finish? || ev.Lose?) && ev.w == w {
      DeliveringDistinct(s.workers[w].at, s.workers[w].queue);
    }
  }

  lemma NoneDistinct()
    ensures DistinctIds(Pendings(Idle))
  {
  }

  lemma SelectDistinct(at: int, t: Table, ids: seq<int>)
    requires forall i :: 0 <= i < |ids| ==> ids[i] in t
    requires forall i, j :: 0 <= i < j < |ids| ==> ids[i] < ids[j]
    ensures DistinctIds(Pendings(Claiming(at, Selected(t, ids), [])))
  {
    ClaimingPendings(at, Selected(t, ids), []);
    IdsDistinct(ids, Selected(t, ids));
  }

  lemma CasDistinct(at: int, rest: seq<Claim>, won: seq<Claim>)
    requires rest != [] && DistinctIds(Pendings(Claiming(at, rest, won)))
    ensures DistinctIds(Pendings(Claiming(at, rest[1..], won))) && DistinctIds(Pendings(Claiming(at, rest[1..], won + [rest[0]])))
  {
    ClaimingPendings(at, rest, won);
    CasDropsOne(won, rest);
  }

  lemma QueueDistinct(at: int, queue: seq<Claim>)
    requires DistinctIds(queue)
    ensures DistinctIds(Pendings(NextPhase(at, queue)))
  {
  }

  lemma DeliveringDistinct(at: int, queue: seq<Claim>)
    requires queue != [] && DistinctIds(Pendings(Delivering(at, queue)))
    ensures DistinctIds(Pendings(NextPhase(at, queue[1..])))
  {
  }

  lemma CasDropsOne(won: seq<Claim>, rest: seq<Claim>)
    requires rest != [] && DistinctIds(won + rest)
    ensures DistinctIds(won + rest[1..])
  {
    var all, less := won + rest, won + rest[1..];
    forall i, j | 0 <= i < j < |less| ensures less[i].id != less[j].id {
      var i' := if i < |won| then i else i + 1;
      var j' := if j < |won| then j else j + 1;
      assert less[i] == all[i'] && less[j] == all[j'];
    }
  }

  /** A disciplined step keeps every live claim in its worker's hands. */
  lemma StepLease(s: System, pol: Policy, ev: Event)
    requires pol.Valid() && LeaseOK(s, pol) && Enabled(s, ev) && Disciplined(s, pol, ev)
    ensures LeaseOK(Step(s, pol, ev), pol)
  {
    var u := Step(s, pol, ev);
    StepDistinct(s, pol, ev);
    forall w, c | 0 <= w < |u.workers| && Live(u, pol, w) && c in Held(u.workers[w])
      ensures HoldsRow(u, w, c.id)
    {
      StepHold(s, pol, ev, w, c);
    }
  }

  lemma StepHold(s: System, pol: Policy, ev: Event, w: nat, c: Claim)
    requires pol.Valid() && LeaseOK(s, pol) && Enabled(s, ev) && Disciplined(s, pol, ev)
    requires var u := Step(s, pol, ev); w < |u.workers| && Live(u, pol, w) && c in Held(u.workers[w])
    ensures HoldsRow(Step(s, pol, ev), w, c.id)
  {
    var u := Step(s, pol, ev);
    if ev.Cas? {
      CasHold(s, pol, ev.w, w, c);
    } else if ev.Finish? {
      FinishHold(s, pol, ev, w, c);
    } else {
      assert c in Held(s.workers[w]);
      assert HoldsRow(s, w, c.id);
      if ev.Reclaim? && c.id in s.rows { LiveNotStale(s, pol, w, c.id, ev.now); }
    }
  }

  lemma CasHold(s: System, pol: Policy, v: nat, w: nat, c: Claim)
    requires LeaseOK(s, pol) && Enabled(s, Cas(v))
    requires var u := Step(s, pol, Cas(v)); w < |u.workers| && Live(u, pol, w) && c in Held(u.workers[w])
    ensures HoldsRow(Step(s, pol, Cas(v)), w, c.id)
  {
    var taken := s.workers[v].rest[0];
    if w == v && c == taken && Won(s.rows, taken.id) {
    } else {
      assert c in Held(s.workers[w]);
      assert HoldsRow(s, w, c.id);
    }
  }

  lemma FinishHold(s: System, pol: Policy, ev: Event, w: nat, c: Claim)
    requires LeaseOK(s, pol) && ev.Finish? && Enabled(s, ev) && Disciplined(s, pol, ev)
    requires var u := Step(s, pol, ev); w < |u.workers| && Live(u, pol, w) && c in Held(u.workers[w])
    ensures HoldsRow(Step(s, pol, ev), w, c.id)
  {
    var v := ev.w;
    var done := s.workers[v].queue[0];
    assert done in Held(s.workers[v]);
    assert HoldsRow(s, v, done.id);
    if w == v {
      var i :| 0 <= i < |s.workers[v].queue[1..]| && s.workers[v].queue[1..][i] == c;
      assert s.workers[v].queue[i + 1] == c;
      assert DistinctIds(Pendings(s.workers[v]));
    }
    assert c in Held(s.workers[w]);
    assert HoldsRow(s, w, c.id);
  }

  /** Every delivery is finished within staleAfter of its claim. */
  ghost predicate InTime(ss: seq<System>, evs: seq<Event>, pol: Policy)
    requires |ss| == |evs| + 1
  {
    forall i :: 0 <= i < |evs| && evs[i].Finish? && evs[i].w < |ss[i].workers| ==> Live(ss[i], pol, evs[i].w)
  }

  /** No row id is ever used twice. */
  ghost predicate FreshIds(evs: seq<Event>) {
    forall i, j :: 0 <= i < j < |evs| && evs[i].Enqueue? && evs[j].Enqueue? ==> evs[i].id != evs[j].id
  }

  /** No webhook is deleted while one of its deliveries is in progress. */
  ghost predicate HeldKept(ss: seq<System>, evs: seq<Event>)
    requires |ss| == |evs| + 1
  {
    forall i, id :: 0 <= i < |evs| && evs[i].DeleteWebhook? && id in ss[i].rows && ss[i].rows[id].status.InProgress? ==>
      ss[i].rows[id].webhookID != evs[i].webhookID
  }

  /** The hypothesis on runs: deliveries finish in time, and a held row's id does not come back for another row. */
  ghost predicate DisciplinedRun(ss: seq<System>, evs: seq<Event>, pol: Policy, n: nat) {
    && pol.Valid() && Run(ss, evs, pol, n) && InTime(ss, evs, pol)
    && (FreshIds(evs) || HeldKept(ss, evs))
  }

  /** id was given to a row before step i. */
  ghost predicate Used(evs: seq<Event>, i: nat, id: int) {
    exists j :: 0 <= j < i <= |evs| && evs[j].Enqueue? && evs[j].id == id
  }

  lemma UsedLater(evs: seq<Event>, i: nat, id: int)
    requires i < |evs| && Used(evs, i, id)
    ensures Used(evs, i + 1, id)
  {
    var j :| 0 <= j < i && evs[j].Enqueue? && evs[j].id == id;
    assert evs[j].id == id;
  }

  /** All ids in the table and in workers' hands were given to rows before. */
  ghost predicate AllUsed(s: System, evs: seq<Event>, i: nat) {
    && (forall id :: id in s.rows ==> Used(evs, i, id))
    && (forall w, c :: 0 <= w < |s.workers| && c in Pendings(s.workers[w]) ==> Used(evs, i, c.id))
  }

  lemma StepRows(s: System, pol: Policy, ev: Event, id: int)
    requires Enabled(s, ev) && id in Step(s, pol, ev).rows
    ensures id in s.rows || (ev.Enqueue? && ev.id == id)
  {
  }

  lemma StepPendings(s: System, pol: Policy, ev: Event, w: nat, c: Claim)
    requires Enabled(s, ev) && w < |s.workers| && c in Pendings(Step(s, pol, ev).workers[w])
    ensures c in Pendings(s.workers[w]) || c.id in s.rows
  {
    var u := Step(s, pol, ev);
    if ev.Select? && ev.w == w {
      SelectPendings(s, pol, ev, c);
    } else if ev.Cas? && ev.w == w {
      ClaimingPendings(s.workers[w].at, s.workers[w].rest, s.workers[w].won);
      LessPending(s.workers[w], c);
    }
  }

  lemma LessPending(ph: Phase, c: Claim)
    requires ph.Claiming? && ph.rest != []
    requires c in Pendings(Claiming(ph.at, ph.rest[1..], ph.won)) || c in Pendings(Claiming(ph.at, ph.rest[1..], ph.won + [ph.rest[0]]))
    ensures c in Pendings(ph)
  {
    ClaimingPendings(ph.at, ph.rest, ph.won);
    assert ph.rest == [ph.rest[0]] + ph.rest[1..];
  }

  lemma SelectPendings(s: System, pol: Policy, ev: Event, c: Claim)
    requires Enabled(s, ev) && ev.Select? && c in Pendings(Step(s, pol, ev).workers[ev.w])
    ensures c.id in s.rows && c.attempts == s.rows[c.id].attempts && Due(s.rows, c.id, Unix(ev.now))
  {
    hide IsSelection, Due;
    SelectionInTable(s.rows, Unix(ev.now), ev.limit, ev.ids);
    ClaimingPendings(ev.now, Selected(s.rows, ev.ids), []);
    SelectedClaims(s.rows, Unix(ev.now), ev.limit, ev.ids, c);
  }

  lemma SelectionInTable(t: Table, now: int, limit: nat, ids: seq<int>)
    requires IsSelection(t, now, limit, ids)
    ensures forall i :: 0 <= i < |ids| ==> ids[i] in t
    ensures forall i, j :: 0 <= i < j < |ids| ==> ids[i] < ids[j]
  {
  }

  lemma SelectedClaims(t: Table, now: int, limit: nat, ids: seq<int>, c: Claim)
    requires IsSelection(t, now, limit, ids) && c in Selected(t, ids)
    ensures c.id in t && c.attempts == t[c.id].attempts && Due(t, c.id, now)
  {
    var i :| 0 <= i < |ids| && Selected(t, ids)[i] == c;
    assert Due(t, ids[i], now);
  }

  lemma {:induction false} RunUsed(ss: seq<System>, evs: seq<Event>, pol: Policy, n: nat, i: nat)
    requires Run(ss, evs, pol, n) && i <= |evs|
    ensures AllUsed(ss[i], evs, i)
    decreases i
  {
    hide Step, Enabled, Pendings;
    if i == 0 {
      NothingPending(ss, evs, pol, n);
    } else {
      var s, ev, u := ss[i - 1], evs[i - 1], ss[i];
      RunUsed(ss, evs, pol, n, i - 1);
      RunTable(ss, evs, pol, n, i - 1);
      RunTable(ss, evs, pol, n, i);
      assert StepsTo(s, pol, ev, u);
      forall id | id in u.rows ensures Used(evs, i, id) {
        StepRows(s, pol, ev, id);
        if id in s.rows { UsedLater(evs, i - 1, id); } else { assert evs[i - 1].id == id; }
      }
      forall w, c | 0 <= w < |u.workers| && c in Pendings(u.workers[w]) ensures Used(evs, i, c.id) {
        StepPendings(s, pol, ev, w, c);
        UsedLater(evs, i - 1, c.id);
      }
    }
  }

  lemma NothingPending(ss: seq<System>, evs: seq<Event>, pol: Policy, n: nat)
    requires Run(ss, evs, pol, n)
    ensures ss[0].rows == map[] && forall w, c :: 0 <= w < |ss[0].workers| ==> c !in Pendings(ss[0].workers[w])
  {
  }

  /** Live claims are on rows that exist. */
  ghost predicate HeldPresent(s: System, pol: Policy) {
    forall w, c :: 0 <= w < |s.workers| && Live(s, pol, w) && c in Held(s.workers[w]) ==> c.id in s.rows
  }

  lemma HeldIsPending(ph: Phase, c: Claim)
    requires c in Held(ph)
    ensures c in Pendings(ph)
  {
  }

  /** With ids never used twice, a new row's id is in nobody's hands. */
  lemma FreshNotHeld(ss: seq<System>, evs: seq<Event>, pol: Policy, n: nat, i: nat)
    requires Run(ss, evs, pol, n) && FreshIds(evs) && i < |evs| && evs[i].Enqueue?
    ensures !LiveHeld(ss[i], pol, evs[i].id)
  {
    hide StepsTo, Live;
    RunUsed(ss, evs, pol, n, i);
    if w, c :| 0 <= w < |ss[i].workers| && Live(ss[i], pol, w) && c in Held(ss[i].workers[w]) && c.id == evs[i].id {
      HeldIsPending(ss[i].workers[w], c);
      NotUsed(evs, i);
    }
  }

  lemma NotUsed(evs: seq<Event>, i: nat)
    requires FreshIds(evs) && i < |evs| && evs[i].Enqueue?
    ensures !Used(evs, i, evs[i].id)
  {
  }

  /** A live claim's row stays as long as its webhook does. */
  lemma StepPresent(s: System, pol: Policy, ev: Event)
    requires pol.Valid() && LeaseOK(s, pol) && HeldPresent(s, pol) && Enabled(s, ev) && Disciplined(s, pol, ev)
    requires forall id :: ev.DeleteWebhook? && id in s.rows && s.rows[id].status.InProgress? ==> s.rows[id].webhookID != ev.webhookID
    ensures HeldPresent(Step(s, pol, ev), pol)
  {
    var u := Step(s, pol, ev);
    forall w, c | 0 <= w < |u.workers| && Live(u, pol, w) && c in Held(u.workers[w]) ensures c.id in u.rows {
      HeldFrom(s, pol, ev, w, c);
      if c in Held(s.workers[w]) { assert HoldsRow(s, w, c.id); }
    }
  }

  /** A live claim after a step was held before it, or was just won. */
  lemma HeldFrom(s: System, pol: Policy, ev: Event, w: nat, c: Claim)
    requires Enabled(s, ev)
    requires var u := Step(s, pol, ev); w < |u.workers| && Live(u, pol, w) && c in Held(u.workers[w])
    ensures w < |s.workers|
    ensures (Live(s, pol, w) && c in Held(s.workers[w])) || (ev == Cas(w) && c == s.workers[w].rest[0] && Won(s.rows, c.id))
  {
  }

  lemma {:induction false} RunLease(ss: seq<System>, evs: seq<Event>, pol: Policy, n: nat, i: nat)
    requires DisciplinedRun(ss, evs, pol, n) && i <= |evs|
    ensures LeaseOK(ss[i], pol)
    ensures HeldKept(ss, evs) ==> HeldPresent(ss[i], pol)
    decreases i
  {
    hide Step, LeaseOK, HeldPresent, FreshIds, HeldKept, LiveHeld;
    if i == 0 {
      LeaseStart(ss, evs, pol, n);
    } else {
      RunLease(ss, evs, pol, n, i - 1);
      assert StepsTo(ss[i - 1], pol, evs[i - 1], ss[i]);
      RunDisciplined(ss, evs, pol, n, i - 1);
      StepLease(ss[i - 1], pol, evs[i - 1]);
      if HeldKept(ss, evs) {
        KeptHere(ss, evs, i - 1);
        StepPresent(ss[i - 1], pol, evs[i - 1]);
      }
    }
  }

  lemma LeaseStart(ss: seq<System>, evs: seq<Event>, pol: Policy, n: nat)
    requires Run(ss, evs, pol, n)
    ensures LeaseOK(ss[0], pol) && HeldPresent(ss[0], pol)
  {
  }

  lemma KeptHere(ss: seq<System>, evs: seq<Event>, i: nat)
    requires |ss| == |evs| + 1 && HeldKept(ss, evs) && i < |evs|
    ensures forall id :: evs[i].DeleteWebhook? && id in ss[i].rows && ss[i].rows[id].status.InProgress? ==>
              ss[i].rows[id].webhookID != evs[i].webhookID
  {
  }

  lemma RunDisciplined(ss: seq<System>, evs: seq<Event>, pol: Policy, n: nat, i: nat)
    requires DisciplinedRun(ss, evs, pol, n) && i < |evs|
    requires HeldKept(ss, evs) ==> HeldPresent(ss[i], pol)
    ensures Enabled(ss[i], evs[i]) && Disciplined(ss[i], pol, evs[i])
  {
    hide FreshIds, HeldKept, Step;
    assert StepsTo(ss[i], pol, evs[i], ss[i + 1]);
    if evs[i].Enqueue? && FreshIds(evs) { FreshNotHeld(ss, evs, pol, n, i); }
  }

  /** Each existing row has at most one live holder, and that holder's claim is the one in the table. */
  lemma OneLiveHolder(ss: seq<System>, evs: seq<Event>, pol: Policy, n: nat, i: nat, v: nat, w: nat, c: Claim, d: Claim)
    requires DisciplinedRun(ss, evs, pol, n) && i <= |evs| && v < |ss[i].workers| && w < |ss[i].workers|
    requires Live(ss[i], pol, v) && Live(ss[i], pol, w)
    requires c in Held(ss[i].workers[v]) && d in Held(ss[i].workers[w]) && c.id == d.id && c.id in ss[i].rows
    ensures v == w && ss[i].rows[c.id].claimedAt == Some(Unix(ss[i].workers[w].at))
  {
    RunLease(ss, evs, pol, n, i);
    assert HoldsRow(ss[i], v, c.id) && HoldsRow(ss[i], w, d.id);
  }

  /** A live claim is never reclaimed: the sweep of any worker leaves its row alone. */
  lemma LiveNeverReclaimed(ss: seq<System>, evs: seq<Event>, pol: Policy, n: nat, i: nat, w: nat, c: Claim)
    requires DisciplinedRun(ss, evs, pol, n) && i < |evs| && evs[i].Reclaim?
    requires w < |ss[i].workers| && Live(ss[i], pol, w) && c in Held(ss[i].workers[w]) && c.id in ss[i].rows
    ensures c.id in ss[i + 1].rows && ss[i + 1].rows[c.id] == ss[i].rows[c.id]
  {
    RunLease(ss, evs, pol, n, i);
    assert StepsTo(ss[i], pol, evs[i], ss[i + 1]);
    assert HoldsRow(ss[i], w, c.id);
    LiveNotStale(ss[i], pol, w, c.id, evs[i].now);
  }

  /** Every Mark finalises the caller's own claim, and takes effect unless the row is gone. */
  lemma MarkIsOwn(ss: seq<System>, evs: seq<Event>, pol: Policy, n: nat, i: nat)
    requires DisciplinedRun(ss, evs, pol, n) && i < |evs| && evs[i].Finish?
    ensures evs[i].w < |ss[i].workers| && ss[i].workers[evs[i].w].Delivering? && ss[i].workers[evs[i].w].queue != []
    ensures var c := ss[i].workers[evs[i].w].queue[0];
            && (Markable(ss[i].rows, c.id) <==> c.id in ss[i].rows)
            && (c.id in ss[i].rows ==> c.id in ss[i].owner && ss[i].owner[c.id] == evs[i].w)
  {
    RunLease(ss, evs, pol, n, i);
    assert StepsTo(ss[i], pol, evs[i], ss[i + 1]);
    var c := ss[i].workers[evs[i].w].queue[0];
    assert c in Held(ss[i].workers[evs[i].w]);
    assert HoldsRow(ss[i], evs[i].w, c.id);
  }

  // ---- One worker: attempts and due times ----

  /** Bounds on a row's attempts. */
  ghost predicate AttemptsOK(r: Row, pol: Policy) {
    if Terminal(r) then 1 <= r.attempts <= pol.maxAttempts else r.attempts < pol.maxAttempts
  }

  /** The worker's memory of a row is never behind the table. */
  ghost predicate ClaimOK(s: System, pol: Policy, c: Claim) {
    c.attempts < pol.maxAttempts && (c.id in s.rows ==> s.rows[c.id].attempts <= c.attempts)
  }

  ghost predicate SingleOK(s: System, pol: Policy) {
    && |s.workers| == 1 && DistinctIds(Pendings(s.workers[0]))
    && (forall id :: id in s.rows ==> AttemptsOK(s.rows[id], pol))
    && (forall c :: c in Pendings(s.workers[0]) ==> ClaimOK(s, pol, c))
    && (s.workers[0].Claiming? ==> forall c :: c in s.workers[0].rest ==> DueNow(s, c.id))
  }

  /** If the row is pending, it is due by the clock. */
  ghost predicate DueNow(s: System, id: int) {
    id in s.rows && s.rows[id].status.Pending? ==> s.rows[id].nextAttemptAt <= Unix(s.clock)
  }

  lemma StepSingle(s: System, pol: Policy, ev: Event)
    requires pol.Valid() && SingleOK(s, pol) && Enabled(s, ev)
    ensures SingleOK(Step(s, pol, ev), pol)
  {
    var u := Step(s, pol, ev);
    StepDistinct(s, pol, ev);
    forall id | id in u.rows ensures AttemptsOK(u.rows[id], pol) { SingleRow(s, pol, ev, id); }
    forall c | c in Pendings(u.workers[0]) ensures ClaimOK(u, pol, c) { SingleClaim(s, pol, ev, c); }
    if u.workers[0].Claiming? {
      forall c | c in u.workers[0].rest ensures DueNow(u, c.id) { SingleDue(s, pol, ev, c); }
    }
  }

  lemma SingleRow(s: System, pol: Policy, ev: Event, id: int)
    requires pol.Valid() && SingleOK(s, pol) && Enabled(s, ev) && id in Step(s, pol, ev).rows
    ensures AttemptsOK(Step(s, pol, ev).rows[id], pol)
  {
    if id in s.rows { assert AttemptsOK(s.rows[id], pol); }
    if ev.Finish? {
      var c := s.workers[0].queue[0];
      assert c in Pendings(s.workers[0]);
      assert ClaimOK(s, pol, c);
    }
  }

  lemma SingleClaim(s: System, pol: Policy, ev: Event, c: Claim)
    requires pol.Valid() && SingleOK(s, pol) && Enabled(s, ev) && c in Pendings(Step(s, pol, ev).workers[0])
    ensures ClaimOK(Step(s, pol, ev), pol, c)
  {
    if ev.Select? {
      SelectedClaim(s, pol, ev, c);
    } else if ev.Finish? {
      FinishedClaim(s, pol, ev, c);
    } else {
      assert c in Pendings(s.workers[0]);
      assert ClaimOK(s, pol, c);
    }
  }

  lemma SelectedClaim(s: System, pol: Policy, ev: Event, c: Claim)
    requires pol.Valid() && SingleOK(s, pol) && ev.Select? && Enabled(s, ev) && c in Pendings(Step(s, pol, ev).workers[0])
    ensures ClaimOK(Step(s, pol, ev), pol, c)
  {
    SelectPendings(s, pol, ev, c);
    assert AttemptsOK(s.rows[c.id], pol);
  }

  lemma FinishedClaim(s: System, pol: Policy, ev: Event, c: Claim)
    requires pol.Valid() && SingleOK(s, pol) && ev.Finish? && Enabled(s, ev) && c in Pendings(Step(s, pol, ev).workers[0])
    ensures ClaimOK(Step(s, pol, ev), pol, c)
  {
    var queue := s.workers[0].queue;
    var i :| 0 <= i < |queue[1..]| && queue[1..][i] == c;
    assert queue[i + 1] == c && queue[0].id != c.id;
    assert c in Pendings(s.workers[0]);
    assert ClaimOK(s, pol, c);
  }

  lemma SingleDue(s: System, pol: Policy, ev: Event, c: Claim)
    requires pol.Valid() && SingleOK(s, pol) && Enabled(s, ev)
    requires var u := Step(s, pol, ev); u.workers[0].Claiming? && c in u.workers[0].rest
    ensures DueNow(Step(s, pol, ev), c.id)
  {
    var u := Step(s, pol, ev);
    UnixMonotone(s.clock, u.clock);
    if ev.Select? {
      ClaimingPendings(ev.now, u.workers[0].rest, []);
      SelectPendings(s, pol, ev, c);
      UnixMonotone(ev.now, s.clock);
    } else if ev.Cas? {
      var ph := s.workers[0];
      assert c in ph.rest;
      assert DueNow(s, c.id);
    } else {
      assert c in s.workers[0].rest;
      assert DueNow(s, c.id);
    }
  }

  lemma {:induction false} RunSingle(ss: seq<System>, evs: seq<Event>, pol: Policy, i: nat)
    requires pol.Valid() && Run(ss, evs, pol, 1) && i <= |evs|
    ensures SingleOK(ss[i], pol)
    decreases i
  {
    if i > 0 {
      RunSingle(ss, evs, pol, i - 1);
      assert StepsTo(ss[i - 1], pol, evs[i - 1], ss[i]);
      StepSingle(ss[i - 1], pol, evs[i - 1]);
    }
  }

  /**
   * With the one worker the server starts, crashes included: a row in play has
   * room for another attempt, a terminal row used between one and maxAttempts,
   * and the count is the number of Mark statements that took effect.
   */
  lemma AttemptsBounded(ss: seq<System>, evs: seq<Event>, pol: Policy, i: nat, id: int)
    requires pol.Valid() && Run(ss, evs, pol, 1) && i <= |evs| && id in ss[i].rows
    ensures AttemptsOK(ss[i].rows[id], pol)
    ensures id in ss[i].marks && ss[i].marks[id] == ss[i].rows[id].attempts <= pol.maxAttempts
    ensures ss[i].marks[id] == pol.maxAttempts ==> Terminal(ss[i].rows[id])
  {
    RunSingle(ss, evs, pol, i);
    RunTable(ss, evs, pol, 1, i);
  }

  /** With one worker no row is claimed before its stored next_attempt_at. */
  lemma NeverClaimedEarly(ss: seq<System>, evs: seq<Event>, pol: Policy, i: nat, id: int)
    requires pol.Valid() && Run(ss, evs, pol, 1) && i < |evs| && id in ss[i].rows && id in ss[i + 1].rows
    requires ss[i].rows[id].status.Pending? && ss[i + 1].rows[id].status.InProgress?
    ensures ss[i].rows[id].nextAttemptAt <= Unix(ss[i].clock)
  {
    RunSingle(ss, evs, pol, i);
    assert StepsTo(ss[i], pol, evs[i], ss[i + 1]);
    ClaimHasOneWinner(ss[i], pol, evs[i], id);
    assert DueNow(ss[i], id);
  }

  /** A failed attempt that is not the last schedules the next one a backoff later. */
  lemma RetryIsDelayed(s: System, pol: Policy, ev: Event)
    requires Enabled(s, ev) && ev.Finish? && ev.outcome.Failure?
    requires var c := s.workers[ev.w].queue[0]; Markable(s.rows, c.id) && c.attempts + 1 < pol.maxAttempts
    ensures var c := s.workers[ev.w].queue[0]; var r := Step(s, pol, ev).rows[c.id];
            && r.status.Pending?
            && r.nextAttemptAt == Unix(ev.now + Min(CEILING, 10 * SECOND * Pow2(c.attempts)))
            && r.nextAttemptAt >= Unix(ev.now) + 10
  {
    Pow2Grows(0, s.workers[ev.w].queue[0].attempts);
  }

  // ---- Two workers on one row: what the hypotheses exclude ----

  const BAD := Failure(500, "HTTP 500")

  /** Row 7 and two workers. */
  function Pair(row: Row, clock: int, w0: Phase, w1: Phase, owner: map<int, nat>, marks: nat): System {
    System(map[7 := row], clock, [w0, w1], owner, map[7 := marks])
  }

  function Put(w: nat, ph: Phase, w0: Phase, w1: Phase): (Phase, Phase) { if w == 0 then (ph, w1) else (w0, ph) }

  function At(w: nat, w0: Phase, w1: Phase): Phase { if w == 0 then w0 else w1 }

  lemma PairSelect(pol: Policy, w: nat, row: Row, clock: int, w0: Phase, w1: Phase, owner: map<int, nat>, marks: nat)
    requires w < 2 && At(w, w0, w1).Idle? && row.status.Pending? && row.nextAttemptAt <= Unix(clock)
    ensures var (p, q) := Put(w, Claiming(clock, [Claim(7, row.attempts)], []), w0, w1);
            StepsTo(Pair(row, clock, w0, w1, owner, marks), pol, Select(w, clock, 50, [7]), Pair(row, clock, p, q, owner, marks))
  {
    var s := Pair(row, clock, w0, w1, owner, marks);
    assert Due(s.rows, 7, Unix(clock));
    assert IsSelection(s.rows, Unix(clock), 50, [7]);
    assert Selected(s.rows, [7]) == [Claim(7, row.attempts)];
    var (p, q) := Put(w, Claiming(clock, [Claim(7, row.attempts)], []), w0, w1);
    assert s.workers[w := Claiming(clock, [Claim(7, row.attempts)], [])] == [p, q];
  }

  lemma PairCas(pol: Policy, w: nat, c: Claim, at: int, row: Row, clock: int, w0: Phase, w1: Phase, owner: map<int, nat>, marks: nat)
    requires w < 2 && At(w, w0, w1) == Claiming(at, [c], []) && c.id == 7 && row.status.Pending?
    ensures var (p, q) := Put(w, Claiming(at, [], [c]), w0, w1);
            StepsTo(Pair(row, clock, w0, w1, owner, marks), pol, Cas(w),
                    Pair(row.(status := InProgress, claimedAt := Some(Unix(at))), clock, p, q, owner[7 := w], marks))
  {
    var s := Pair(row, clock, w0, w1, owner, marks);
    assert [c][1..] == [] && [] + [c] == [c];
    var (p, q) := Put(w, Claiming(at, [], [c]), w0, w1);
    assert s.workers[w := Claiming(at, [], [c])] == [p, q];
  }

  lemma PairDeliver(pol: Policy, w: nat, c: Claim, at: int, row: Row, clock: int, w0: Phase, w1: Phase, owner: map<int, nat>, marks: nat)
    requires w < 2 && At(w, w0, w1) == Claiming(at, [], [c])
    ensures var (p, q) := Put(w, Delivering(at, [c]), w0, w1);
            StepsTo(Pair(row, clock, w0, w1, owner, marks), pol, Deliver(w), Pair(row, clock, p, q, owner, marks))
  {
    var s := Pair(row, clock, w0, w1, owner, marks);
    var (p, q) := Put(w, Delivering(at, [c]), w0, w1);
    assert s.workers[w := Delivering(at, [c])] == [p, q];
  }

  lemma PairFinish(pol: Policy, w: nat, c: Claim, at: int, row: Row, clock: int, w0: Phase, w1: Phase, owner: map<int, nat>, marks: nat,
                   o: Outcome, next: Row)
    requires w < 2 && At(w, w0, w1) == Delivering(at, [c]) && c.id == 7 && row.status.InProgress?
    requires Finished(map[7 := row], pol, c, o, clock) == map[7 := next]
    ensures var (p, q) := Put(w, Idle, w0, w1);
            StepsTo(Pair(row, clock, w0, w1, owner, marks), pol, Finish(w, o, clock), Pair(next, clock, p, q, owner, marks + 1))
  {
    var s := Pair(row, clock, w0, w1, owner, marks);
    assert [c][1..] == [];
    var (p, q) := Put(w, Idle, w0, w1);
    assert s.workers[w := Idle] == [p, q];
    assert s.marks[7 := marks + 1] == map[7 := marks + 1];
  }

  lemma PairAdvance(pol: Policy, row: Row, clock: int, to: int, w0: Phase, w1: Phase, owner: map<int, nat>, marks: nat)
    requires clock <= to
    ensures StepsTo(Pair(row, clock, w0, w1, owner, marks), pol, Advance(to), Pair(row, to, w0, w1, owner, marks))
  {
  }

  const FRESH := Row(1, "secret.upsert", "{}", Pending, 0, 0, None, None, "", 0, None)

  lemma PairStart(pol: Policy, clock: int)
    requires 0 <= clock
    ensures StepsTo(Start(clock, 2), pol, Enqueue(7, 1, "secret.upsert", "{}", 0), Pair(FRESH, clock, Idle, Idle, map[], 0))
  {
    assert seq(2, _ => Idle) == [Idle, Idle];
  }

  /** A run, one step longer. */
  lemma Extend(ss: seq<System>, evs: seq<Event>, pol: Policy, n: nat, ev: Event, u: System)
    requires Run(ss, evs, pol, n) && StepsTo(ss[|evs|], pol, ev, u)
    ensures Run(ss + [u], evs + [ev], pol, n)
  {
    hide StepsTo;
    var more, steps := ss + [u], evs + [ev];
    forall i | 0 <= i < |steps| ensures StepsTo(more[i], pol, steps[i], more[i + 1]) {
      if i < |evs| { assert StepsTo(ss[i], pol, evs[i], ss[i + 1]); }
    }
  }

  // The second worker remembers the row from before the first one's attempts.

  const EARLIER := Claiming(0, [Claim(7, 0)], [])

  /** The row waits between attempts: `attempts` were made, the next is due later. */
  predicate Waits(row: Row, clock: int, attempts: nat) {
    row.status.Pending? && row.attempts == attempts && (attempts > 0 ==> row.nextAttemptAt > Unix(clock))
  }

  /** One failed attempt of worker 0. */
  lemma RaceRound(pol: Policy, ss: seq<System>, evs: seq<Event>, row: Row, clock: int, owner: map<int, nat>, attempts: nat)
    returns (tt: seq<System>, more: seq<Event>, next: Row, later: int)
    requires Run(ss, evs, pol, 2) && ss[|evs|] == Pair(row, clock, Idle, EARLIER, owner, attempts)
    requires row.status.Pending? && row.attempts == attempts && attempts + 1 < pol.maxAttempts
    ensures Run(tt, more, pol, 2) && tt[|more|] == Pair(next, later, Idle, EARLIER, owner[7 := 0], attempts + 1)
    ensures Waits(next, later, attempts + 1)
  {
    hide Run, StepsTo, Finished, Pair;
    later := if row.nextAttemptAt * SECOND <= clock then clock else row.nextAttemptAt * SECOND;
    var c := Claim(7, attempts);
    var held := row.(status := InProgress, claimedAt := Some(Unix(later)));
    next := row.(attempts := attempts + 1, nextAttemptAt := Unix(later + Backoff(attempts + 1)), lastStatus := Some(500),
                 lastError := "HTTP 500", claimedAt := None);
    var selected, taken, sending := Claiming(later, [c], []), Claiming(later, [], [c]), Delivering(later, [c]);
    PairAdvance(pol, row, clock, later, Idle, EARLIER, owner, attempts);
    tt, more := Extended(ss, evs, pol, Advance(later), Pair(row, later, Idle, EARLIER, owner, attempts));
    PairSelect(pol, 0, row, later, Idle, EARLIER, owner, attempts);
    tt, more := Extended(tt, more, pol, Select(0, later, 50, [7]), Pair(row, later, selected, EARLIER, owner, attempts));
    PairCas(pol, 0, c, later, row, later, selected, EARLIER, owner, attempts);
    tt, more := Extended(tt, more, pol, Cas(0), Pair(held, later, taken, EARLIER, owner[7 := 0], attempts));
    PairDeliver(pol, 0, c, later, held, later, taken, EARLIER, owner[7 := 0], attempts);
    tt, more := Extended(tt, more, pol, Deliver(0), Pair(held, later, sending, EARLIER, owner[7 := 0], attempts));
    RetryRow(pol, c, held, next, later);
    PairFinish(pol, 0, c, later, held, later, sending, EARLIER, owner[7 := 0], attempts, BAD, next);
    tt, more := Extended(tt, more, pol, Finish(0, BAD, later), Pair(next, later, Idle, EARLIER, owner[7 := 0], attempts + 1));
  }

  lemma RetryRow(pol: Policy, c: Claim, held: Row, next: Row, now: int)
    requires c.id == 7 && held.status.InProgress? && c.attempts + 1 < pol.maxAttempts
    requires next == held.(status := Pending, attempts := held.attempts + 1, nextAttemptAt := Unix(now + Backoff(c.attempts + 1)),
                           lastStatus := Some(500), lastError := "HTTP 500", claimedAt := None)
    ensures Finished(map[7 := held], pol, c, BAD, now) == map[7 := next] && next.nextAttemptAt > Unix(now)
  {
    Pow2Grows(0, c.attempts);
  }

  /** Extend, with the longer run at hand. */
  lemma Extended(ss: seq<System>, evs: seq<Event>, pol: Policy, ev: Event, u: System) returns (tt: seq<System>, more: seq<Event>)
    requires Run(ss, evs, pol, 2) && StepsTo(ss[|evs|], pol, ev, u)
    ensures tt == ss + [u] && more == evs + [ev] && Run(tt, more, pol, 2) && tt[|more|] == u
  {
    Extend(ss, evs, pol, 2, ev, u);
    tt, more := ss + [u], evs + [ev];
  }

  lemma {:induction false} RaceRounds(pol: Policy, attempts: nat)
    returns (ss: seq<System>, evs: seq<Event>, row: Row, clock: int, owner: map<int, nat>)
    requires attempts < pol.maxAttempts
    ensures Run(ss, evs, pol, 2) && ss[|evs|] == Pair(row, clock, Idle, EARLIER, owner, attempts)
    ensures Waits(row, clock, attempts)
    decreases attempts
  {
    hide StepsTo, Pair;
    if attempts == 0 {
      row, clock, owner := FRESH, 0, map[];
      assert Run([Start(0, 2)], [], pol, 2);
      PairStart(pol, 0);
      ss, evs := Extended([Start(0, 2)], [], pol, Enqueue(7, 1, "secret.upsert", "{}", 0), Pair(FRESH, 0, Idle, Idle, map[], 0));
      PairSelect(pol, 1, FRESH, 0, Idle, Idle, map[], 0);
      ss, evs := Extended(ss, evs, pol, Select(1, 0, 50, [7]), Pair(FRESH, 0, Idle, EARLIER, map[], 0));
    } else {
      ss, evs, row, clock, owner := RaceRounds(pol, attempts - 1);
      ss, evs, row, clock := RaceRound(pol, ss, evs, row, clock, owner, attempts - 1);
      owner := owner[7 := 0];
    }
  }

  /**
   * Two workers, whatever the policy allows beyond one attempt: a run in which the
   * second claims the row before it is due, and its memory of the attempts, by then
   * behind the table, lets the row outlive its last attempt.
   */
  lemma TwoWorkersExceed(pol: Policy) returns (ss: seq<System>, evs: seq<Event>, claim: nat)
    requires pol.Valid() && pol.maxAttempts >= 2
    ensures Run(ss, evs, pol, 2) && claim < |evs|
    ensures 7 in ss[claim].rows && ss[claim].rows[7].status.Pending? && ss[claim].rows[7].nextAttemptAt > Unix(ss[claim].clock)
    ensures 7 in ss[claim + 1].rows && ss[claim + 1].rows[7].status.InProgress?
    ensures 7 in ss[|evs|].rows && ss[|evs|].rows[7].status.Pending? && ss[|evs|].rows[7].attempts == pol.maxAttempts
  {
    hide Run, StepsTo, Finished;
    var row, clock, owner;
    ss, evs, row, clock, owner := RaceRounds(pol, pol.maxAttempts - 1);
    claim := |evs|;
    RunLength(ss, evs, pol, 2);
    var c := Claim(7, 0);
    var held := row.(status := InProgress, claimedAt := Some(Unix(0)));
    var next := held.(status := Pending, attempts := held.attempts + 1, nextAttemptAt := Unix(clock + Backoff(1)), lastStatus := Some(500),
                      lastError := "HTTP 500", claimedAt := None);
    PairCas(pol, 1, c, 0, row, clock, Idle, EARLIER, owner, pol.maxAttempts - 1);
    ss, evs := Extended(ss, evs, pol, Cas(1), Pair(held, clock, Idle, Claiming(0, [], [c]), owner[7 := 1], pol.maxAttempts - 1));
    PairDeliver(pol, 1, c, 0, held, clock, Idle, Claiming(0, [], [c]), owner[7 := 1], pol.maxAttempts - 1);
    ss, evs := Extended(ss, evs, pol, Deliver(1), Pair(held, clock, Idle, Delivering(0, [c]), owner[7 := 1], pol.maxAttempts - 1));
    RetryRow(pol, c, held, next, clock);
    PairFinish(pol, 1, c, 0, held, clock, Idle, Delivering(0, [c]), owner[7 := 1], pol.maxAttempts - 1, BAD, next);
    ss, evs := Extended(ss, evs, pol, Finish(1, BAD, clock), Pair(next, clock, Idle, Idle, owner[7 := 1], pol.maxAttempts));
  }

  lemma RunLength(ss: seq<System>, evs: seq<Event>, pol: Policy, n: nat)
    requires Run(ss, evs, pol, n)
    ensures |ss| == |evs| + 1
  {
  }

  // A worker that finishes one nanosecond after its lease ran out.

  const CLAIMED_AT := SECOND - 1

  function TooLate(pol: Policy): int { CLAIMED_AT + pol.staleAfter + 1 }

  lemma PairReclaim(pol: Policy, now: int, row: Row, at: int, w0: Phase, owner: map<int, nat>, marks: nat)
    requires row.status.InProgress? && row.claimedAt == Some(at) && at < Unix(now - pol.staleAfter)
    ensures StepsTo(Pair(row, now, w0, Idle, owner, marks), pol, Reclaim(1, now),
                    Pair(row.(status := Pending, claimedAt := None), now, w0, Idle, owner, marks))
  {
    var s := Pair(row, now, w0, Idle, owner, marks);
    assert Reclaimed(s.rows, Unix(now - pol.staleAfter)) == map[7 := row.(status := Pending, claimedAt := None)];
  }

  lemma DeliveredRow(pol: Policy, c: Claim, held: Row, next: Row, now: int)
    requires c.id == 7 && held.status.InProgress?
    requires next == held.(status := Delivered, attempts := held.attempts + 1, lastStatus := Some(200), lastError := "", claimedAt := None,
                           deliveredAt := Some(Unix(now)))
    ensures Finished(map[7 := held], pol, c, Success(200), now) == map[7 := next]
  {
  }

  /** The last step of ss finishes worker 0's delivery of row 7, which is in worker 1's hands. */
  ghost predicate EndsAnothersClaim(ss: seq<System>, evs: seq<Event>, pol: Policy)
    requires |ss| == |evs| + 1
  {
    && evs != [] && |ss[|evs| - 1].workers| == 2
    && var before, after := ss[|evs| - 1], ss[|evs|];
       && evs[|evs| - 1].Finish? && evs[|evs| - 1].w == 0
       && 7 in before.rows && before.rows[7].status.InProgress? && before.owner == map[7 := 1]
       && (exists c :: c in Held(before.workers[1]) && c.id == 7) && Live(before, pol, 1)
       && 7 in after.rows && after.rows[7].status.Delivered?
  }

  /**
   * The status guard alone does not protect a claim: under every policy there is a
   * run in which a worker one nanosecond late ends another worker's live claim.
   */
  lemma LateMarkEndsAnotherClaim(pol: Policy) returns (ss: seq<System>, evs: seq<Event>)
    requires pol.Valid()
    ensures Run(ss, evs, pol, 2) && FreshIds(evs) && HeldKept(ss, evs) && EndsAnothersClaim(ss, evs, pol)
    ensures ss[|evs| - 1].workers[0].Delivering? && ss[|evs| - 1].clock == ss[|evs| - 1].workers[0].at + pol.staleAfter + 1
  {
    hide StepsTo, Finished, FreshIds, HeldKept, EndsAnothersClaim;
    var c, t := Claim(7, 0), TooLate(pol);
    var held := FRESH.(status := InProgress, claimedAt := Some(0));
    var theirs := FRESH.(status := InProgress, claimedAt := Some(Unix(t)));
    var done := FRESH.(status := Delivered, attempts := 1, lastStatus := Some(200), deliveredAt := Some(Unix(t)));
    var sending, other := Delivering(CLAIMED_AT, [c]), Claiming(t, [], [c]);
    assert Unix(t - pol.staleAfter) == 1 && 0 <= Unix(t) && Unix(CLAIMED_AT) == 0;
    assert Run([Start(CLAIMED_AT, 2)], [], pol, 2);
    PairStart(pol, CLAIMED_AT);
    ss, evs := Extended([Start(CLAIMED_AT, 2)], [], pol, Enqueue(7, 1, "secret.upsert", "{}", 0), Pair(FRESH, CLAIMED_AT, Idle, Idle, map[], 0));
    ss, evs := ClaimByFirst(ss, evs, pol, CLAIMED_AT);
    PairAdvance(pol, held, CLAIMED_AT, t, sending, Idle, map[7 := 0], 0);
    ss, evs := Extended(ss, evs, pol, Advance(t), Pair(held, t, sending, Idle, map[7 := 0], 0));
    PairReclaim(pol, t, held, 0, sending, map[7 := 0], 0);
    ss, evs := Extended(ss, evs, pol, Reclaim(1, t), Pair(FRESH, t, sending, Idle, map[7 := 0], 0));
    PairSelect(pol, 1, FRESH, t, sending, Idle, map[7 := 0], 0);
    ss, evs := Extended(ss, evs, pol, Select(1, t, 50, [7]), Pair(FRESH, t, sending, Claiming(t, [c], []), map[7 := 0], 0));
    PairCas(pol, 1, c, t, FRESH, t, sending, Claiming(t, [c], []), map[7 := 0], 0);
    assert map[7 := 0][7 := 1] == map[7 := 1];
    ss, evs := Extended(ss, evs, pol, Cas(1), Pair(theirs, t, sending, other, map[7 := 1], 0));
    DeliveredRow(pol, c, theirs, done, t);
    PairFinish(pol, 0, c, CLAIMED_AT, theirs, t, sending, other, map[7 := 1], 0, Success(200), done);
    ss, evs := Extended(ss, evs, pol, Finish(0, Success(200), t), Pair(done, t, Idle, other, map[7 := 1], 1));
    OneEnqueue(ss, evs);
    EndsHere(ss, evs, pol, theirs, done, t, sending, other, c);
  }

  /** Worker 0 claims row 7 and starts to deliver it. */
  lemma ClaimByFirst(ss: seq<System>, evs: seq<Event>, pol: Policy, at: int) returns (tt: seq<System>, more: seq<Event>)
    requires 0 <= at && Run(ss, evs, pol, 2) && ss[|evs|] == Pair(FRESH, at, Idle, Idle, map[], 0)
    ensures Run(tt, more, pol, 2) && more == evs + [Select(0, at, 50, [7]), Cas(0), Deliver(0)]
    ensures tt[|more|] == Pair(FRESH.(status := InProgress, claimedAt := Some(Unix(at))), at, Delivering(at, [Claim(7, 0)]), Idle, map[7 := 0], 0)
  {
    hide StepsTo, Run;
    var c := Claim(7, 0);
    var held := FRESH.(status := InProgress, claimedAt := Some(Unix(at)));
    PairSelect(pol, 0, FRESH, at, Idle, Idle, map[], 0);
    tt, more := Extended(ss, evs, pol, Select(0, at, 50, [7]), Pair(FRESH, at, Claiming(at, [c], []), Idle, map[], 0));
    PairCas(pol, 0, c, at, FRESH, at, Claiming(at, [c], []), Idle, map[], 0);
    assert map[][7 := 0] == map[7 := 0];
    tt, more := Extended(tt, more, pol, Cas(0), Pair(held, at, Claiming(at, [], [c]), Idle, map[7 := 0], 0));
    PairDeliver(pol, 0, c, at, held, at, Claiming(at, [], [c]), Idle, map[7 := 0], 0);
    tt, more := Extended(tt, more, pol, Deliver(0), Pair(held, at, Delivering(at, [c]), Idle, map[7 := 0], 0));
  }

  lemma OneEnqueue(ss: seq<System>, evs: seq<Event>)
    requires |ss| == |evs| + 1
    requires forall i :: 0 < i < |evs| ==> !evs[i].Enqueue?
    requires forall i :: 0 <= i < |evs| ==> !evs[i].DeleteWebhook?
    ensures FreshIds(evs) && HeldKept(ss, evs)
  {
  }

  lemma EndsHere(ss: seq<System>, evs: seq<Event>, pol: Policy, row: Row, done: Row, now: int, w0: Phase, w1: Phase, c: Claim)
    requires pol.Valid() && |ss| == |evs| + 1 && evs != [] && evs[|evs| - 1] == Finish(0, Success(200), now)
    requires ss[|evs| - 1] == Pair(row, now, w0, w1, map[7 := 1], 0) && ss[|evs|] == Pair(done, now, Idle, w1, map[7 := 1], 1)
    requires row.status.InProgress? && done.status.Delivered? && c.id == 7
    requires w1 == Claiming(now, [], [c]) || w1 == Delivering(now, [c])
    ensures EndsAnothersClaim(ss, evs, pol)
  {
    assert c in Held(w1);
  }

  // A row id that comes back while its first holder is still at work.

  /** The same row id, given to a delivery of another webhook. */
  const REUSED := FRESH.(webhookID := 2)

  lemma ReuseSteps(pol: Policy, row: Row, w0: Phase)
    requires row.webhookID == 1
    ensures StepsTo(Pair(row, 0, w0, Idle, map[7 := 0], 0), pol, DeleteWebhook(1),
                    System(map[], 0, [w0, Idle], map[7 := 0], map[7 := 0]))
    ensures StepsTo(System(map[], 0, [w0, Idle], map[7 := 0], map[7 := 0]), pol, Enqueue(7, 2, "secret.upsert", "{}", 0),
                    Pair(REUSED, 0, w0, Idle, map[7 := 0], 0))
  {
    assert WithoutWebhook(map[7 := row], 1) == map[];
    assert map[7 := 0][7 := 0] == map[7 := 0];
  }

  /**
   * Nor does finishing in time: under every policy there is a run in which a webhook
   * is deleted while its delivery is held, the id comes back for another row, and
   * the first worker's Mark, well within its lease, ends the second one's claim.
   */
  lemma ReusedIdEndsAnotherClaim(pol: Policy) returns (ss: seq<System>, evs: seq<Event>)
    requires pol.Valid()
    ensures Run(ss, evs, pol, 2) && InTime(ss, evs, pol) && EndsAnothersClaim(ss, evs, pol)
    ensures Live(ss[|evs| - 1], pol, 0) && ss[|evs| - 1].rows[7].webhookID == 2
  {
    hide StepsTo, Finished, EndsAnothersClaim, InTime;
    var c := Claim(7, 0);
    var held := FRESH.(status := InProgress, claimedAt := Some(0));
    var theirs := REUSED.(status := InProgress, claimedAt := Some(0));
    var done := REUSED.(status := Delivered, attempts := 1, lastStatus := Some(200), deliveredAt := Some(0));
    var sending, other := Delivering(0, [c]), Claiming(0, [], [c]);
    assert Run([Start(0, 2)], [], pol, 2);
    PairStart(pol, 0);
    ss, evs := Extended([Start(0, 2)], [], pol, Enqueue(7, 1, "secret.upsert", "{}", 0), Pair(FRESH, 0, Idle, Idle, map[], 0));
    ss, evs := ClaimByFirst(ss, evs, pol, 0);
    ReuseSteps(pol, held, sending);
    ss, evs := Extended(ss, evs, pol, DeleteWebhook(1), System(map[], 0, [sending, Idle], map[7 := 0], map[7 := 0]));
    ss, evs := Extended(ss, evs, pol, Enqueue(7, 2, "secret.upsert", "{}", 0), Pair(REUSED, 0, sending, Idle, map[7 := 0], 0));
    PairSelect(pol, 1, REUSED, 0, sending, Idle, map[7 := 0], 0);
    ss, evs := Extended(ss, evs, pol, Select(1, 0, 50, [7]), Pair(REUSED, 0, sending, Claiming(0, [c], []), map[7 := 0], 0));
    PairCas(pol, 1, c, 0, REUSED, 0, sending, Claiming(0, [c], []), map[7 := 0], 0);
    assert map[7 := 0][7 := 1] == map[7 := 1];
    ss, evs := Extended(ss, evs, pol, Cas(1), Pair(theirs, 0, sending, other, map[7 := 1], 0));
    DeliveredRow(pol, c, theirs, done, 0);
    PairFinish(pol, 0, c, 0, theirs, 0, sending, other, map[7 := 1], 0, Success(200), done);
    ss, evs := Extended(ss, evs, pol, Finish(0, Success(200), 0), Pair(done, 0, Idle, other, map[7 := 1], 1));
    EndsHere(ss, evs, pol, theirs, done, 0, sending, other, c);
    OneFinish(ss, evs, pol);
  }

  lemma OneFinish(ss: seq<System>, evs: seq<Event>, pol: Policy)
    requires |ss| == |evs| + 1 && evs != []
    requires forall i :: 0 <= i < |evs| - 1 ==> !evs[i].Finish?
    requires evs[|evs| - 1].Finish? && evs[|evs| - 1].w < |ss[|evs| - 1].workers| ==> Live(ss[|evs| - 1], pol, evs[|evs| - 1].w)
    ensures InTime(ss, evs, pol)
  {
  }
}
