/** The queue driven by the worker loop: attempts are a budget that claims spend,
    outcomes are final, and one job's backoff is bounded. */
module JobWorker {
  import opened Prelude
  import opened LeasedJobs
  import opened LeaseFencing

  /** A finish that the worker loop makes: its lease, what it was told when it
      revalidated, how the provider call went, and its own clock. */
  datatype WorkerEvent =
    | Other(e: Event)
    | Worked(l: Lease, auth: Authorization, outcome: ProviderError, now: Time, clock: Time)

  function Plain(w: WorkerEvent): Event {
    match w
    case Other(e) => e
    case Worked(l, auth, outcome, now, clock) => FinishEvent(l, Report(l, auth, outcome, now), now, clock)
  }

  /** Finishes come from the worker, with leases that were issued. */
  predicate FromWorker(s: System, w: WorkerEvent) {
    match w
    case Other(e) => !e.FinishEvent?
    case Worked(l, _, _, _, _) => l in s.issued
  }

  /** `waits` adds up, for each job, how far ahead its retries were put. */
  datatype Ledger = Ledger(s: System, waits: map<string, Time>)

  function Wait(g: Ledger, id: string): Time { if id in g.waits then g.waits[id] else 0 }

  function WorkStep(g: Ledger, w: WorkerEvent): Ledger {
    var s' := Step(g.s, Plain(w));
    if w.Worked? && Finishes(g.s, Plain(w)) && Plain(w).result.status == Retry then
      Ledger(s', g.waits[w.l.job.id := Wait(g, w.l.job.id) + Plain(w).result.nextAt - w.now])
    else Ledger(s', g.waits)
  }

  function Work(events: seq<WorkerEvent>): Ledger {
    if events == [] then Ledger(INITIAL, map[]) else WorkStep(Work(events[..|events| - 1]), events[|events| - 1])
  }

  ghost predicate WorkerRun(events: seq<WorkerEvent>) {
    forall i :: 0 <= i < |events| ==> FromWorker(Work(events[..i]).s, events[i])
  }

  // ----- attempts are a budget

  /** Claims the stored jobs have left. */
  ghost function Budget(rows: Rows): int { Left(rows, rows.Keys) }

  ghost function Left(rows: Rows, ids: set<string>): int
    requires ids <= rows.Keys
  {
    if ids == {} then 0 else var id :| id in ids; MAX_ATTEMPTS - rows[id].job.attempts + Left(rows, ids - {id})
  }

  lemma {:induction false} LeftTakeOut(rows: Rows, ids: set<string>, x: string)
    requires ids <= rows.Keys && x in ids
    ensures Left(rows, ids) == MAX_ATTEMPTS - rows[x].job.attempts + Left(rows, ids - {x})
    decreases |ids|
  {
    var id :| id in ids && Left(rows, ids) == MAX_ATTEMPTS - rows[id].job.attempts + Left(rows, ids - {id});
    if id != x {
      LeftTakeOut(rows, ids - {id}, x);
      LeftTakeOut(rows, ids - {x}, id);
      assert ids - {id} - {x} == ids - {x} - {id};
    }
  }

  lemma {:induction false} LeftSame(a: Rows, b: Rows, ids: set<string>)
    requires ids <= a.Keys && ids <= b.Keys
    requires forall id :: id in ids ==> a[id].job.attempts == b[id].job.attempts
    ensures Left(a, ids) == Left(b, ids)
    decreases |ids|
  {
    if ids != {} {
      var id :| id in ids;
      LeftTakeOut(a, ids, id);
      LeftTakeOut(b, ids, id);
      LeftSame(a, b, ids - {id});
    }
  }

  lemma BudgetPut(rows: Rows, id: string, r: Row)
    ensures Budget(rows[id := r]) ==
      Budget(rows) + (if id in rows then rows[id].job.attempts else MAX_ATTEMPTS) - r.job.attempts
  {
    var rows' := rows[id := r];
    LeftTakeOut(rows', rows'.Keys, id);
    assert rows'.Keys - {id} == rows.Keys - {id};
    LeftSame(rows, rows', rows.Keys - {id});
    if id in rows { LeftTakeOut(rows, rows.Keys, id); } else { assert rows.Keys - {id} == rows.Keys; }
  }

  lemma {:induction false} LeftNonNegative(rows: Rows, ids: set<string>)
    requires ids <= rows.Keys && forall id :: id in rows ==> rows[id].job.attempts <= MAX_ATTEMPTS
    ensures Left(rows, ids) >= 0
    decreases |ids|
  {
    if ids != {} {
      var id :| id in ids;
      LeftTakeOut(rows, ids, id);
      LeftNonNegative(rows, ids - {id});
    }
  }

  predicate Enqueues(s: System, e: Event) {
    e.EnqueueEvent? && Enqueue(s.rows, e.job, e.availableAt, e.auth, e.clock).1.None?
  }

  function ClaimsMade(events: seq<Event>): nat {
    if events == [] then 0
    else
      var init := events[..|events| - 1];
      ClaimsMade(init) + if Claims(Run(INITIAL, init), events[|events| - 1]) then 1 else 0
  }

  /** Six claims for each enqueued job, less those it had already used when it came. */
  function Allotted(events: seq<Event>): int {
    if events == [] then 0
    else
      var init, e := events[..|events| - 1], events[|events| - 1];
      Allotted(init) + if Enqueues(Run(INITIAL, init), e) then MAX_ATTEMPTS - e.job.attempts else 0
  }

  /** Every claim spends exactly one attempt and nothing gives any back, so in every
      run the claims made and the claims left add up to what enqueueing allotted;
      claims are finite. */
  lemma {:induction false} ClaimsAreConserved(events: seq<Event>)
    ensures ClaimsMade(events) + Budget(Run(INITIAL, events).rows) == Allotted(events)
    ensures ClaimsMade(events) <= Allotted(events)
  {
    InvRun(INITIAL, events);
    var rows := Run(INITIAL, events).rows;
    forall id | id in rows ensures rows[id].job.attempts <= MAX_ATTEMPTS { assert RowOk(Run(INITIAL, events), id); }
    LeftNonNegative(rows, rows.Keys);
    if events != [] {
      var init, e := events[..|events| - 1], events[|events| - 1];
      ClaimsAreConserved(init);
      StepSpends(Run(INITIAL, init), e);
    }
  }

  lemma StepSpends(s: System, e: Event)
    ensures Budget(Step(s, e).rows) == Budget(s.rows)
      - (if Claims(s, e) then 1 else 0) + (if Enqueues(s, e) then MAX_ATTEMPTS - e.job.attempts else 0)
  {
    var rows' := Step(s, e).rows;
    if rows' != s.rows {
      var id := match e
        case EnqueueEvent(j, _, _, _) => j.id
        case AuthorizeEvent(id, _) => id
        case ClaimEvent(id, _, _, _, _, _) => id
        case FinishEvent(l, _, _, _) => l.job.id;
      BudgetPut(s.rows, id, rows'[id]);
    }
  }

  // ----- outcomes are final

  predicate Terminal(st: Status) { st == Succeeded || st == Failed || st == Unknown || st == Cancelled }

  /** A job that has ended stays as it ended, whatever is claimed or finished later. */
  lemma {:induction false} TerminalStays(s: System, more: seq<Event>, id: string)
    requires id in s.rows && Terminal(s.rows[id].status)
    ensures var s' := Run(s, more); id in s'.rows && s'.rows[id] == s.rows[id].(auth := s'.rows[id].auth)
  {
    if more != [] { TerminalStays(s, more[..|more| - 1], id); }
  }

  // ----- what the worker adds

  function TotalDelay(n: nat): Time { if n == 0 then 0 else TotalDelay(n - 1) + Delay(n) }

  /** How many of its attempts a job can have ended with a retry. */
  function RetriesSoFar(r: Row): int {
    if r.status == Running then r.job.attempts - 1 else if r.job.attempts == MAX_ATTEMPTS then MAX_ATTEMPTS - 1 else r.job.attempts
  }

  /** The pace of one row that has waited `wait`. */
  ghost predicate RowPaced(r: Row, wait: Time) {
    && (r.status == Retryable ==> r.job.attempts < MAX_ATTEMPTS)
    && 0 <= RetriesSoFar(r) < MAX_ATTEMPTS
    && wait <= TotalDelay(RetriesSoFar(r))
  }

  ghost predicate Paced(g: Ledger, id: string) {
    if id !in g.s.rows then Wait(g, id) == 0
    else
      RowPaced(g.s.rows[id], Wait(g, id))
  }

  lemma ClaimedRowPaced(r: Row, r': Row, wait: Time)
    requires RowPaced(r, wait) && 0 <= r.job.attempts < MAX_ATTEMPTS
    requires r'.status == Running && r'.job.attempts == r.job.attempts + 1
    ensures RowPaced(r', wait)
  {
    if r.status == Running { assert TotalDelay(r.job.attempts - 1) <= TotalDelay(r.job.attempts); }
  }

  lemma OtherKeepsPace(g: Ledger, w: WorkerEvent, id: string)
    requires Inv(g.s) && FromWorker(g.s, w) && Paced(g, id)
    requires !(w.Worked? && Finishes(g.s, Plain(w)) && w.l.job.id == id)
    ensures Paced(WorkStep(g, w), id)
  {
    assert Wait(WorkStep(g, w), id) == Wait(g, id);
    if id in g.s.rows {
      assert RowOk(g.s, id);
      OtherRow(g.s, Plain(w), id);
      if Claims(g.s, Plain(w)) && Plain(w).id == id { ClaimedRowPaced(g.s.rows[id], WorkStep(g, w).s.rows[id], Wait(g, id)); }
    } else {
      NewRowPaced(g, w, id);
    }
  }

  lemma NewRowPaced(g: Ledger, w: WorkerEvent, id: string)
    requires Inv(g.s) && FromWorker(g.s, w) && Paced(g, id) && id !in g.s.rows
    ensures Paced(WorkStep(g, w), id)
  {}

  /** Without a finish of its own, a row keeps its state or is claimed. */
  lemma OtherRow(s: System, e: Event, id: string)
    requires id in s.rows && !(Finishes(s, e) && e.l.job.id == id)
    ensures id in Step(s, e).rows
    ensures var r, r' := s.rows[id], Step(s, e).rows[id];
      if Claims(s, e) && e.id == id then r'.status == Running && r'.job.attempts == r.job.attempts + 1 && r.job.attempts < MAX_ATTEMPTS
      else r'.status == r.status && r'.job == r.job
  {}

  lemma FinishedRowPaced(r: Row, r': Row, wait: Time, wait': Time)
    requires r.status == Running && RowPaced(r, wait) && 0 <= r.job.attempts <= MAX_ATTEMPTS && r'.job == r.job && r'.status != Running
    requires if r'.status == Retryable then r.job.attempts < MAX_ATTEMPTS && wait' <= wait + Delay(r.job.attempts) else wait' == wait
    ensures RowPaced(r', wait')
  {
    var a := r.job.attempts;
    if a < MAX_ATTEMPTS { assert TotalDelay(a) == TotalDelay(a - 1) + Delay(a); }
  }

  lemma FinishKeepsPace(g: Ledger, w: WorkerEvent)
    requires Inv(g.s) && w.Worked? && w.l in g.s.issued && Finishes(g.s, Plain(w)) && Paced(g, w.l.job.id)
    ensures Paced(WorkStep(g, w), w.l.job.id)
  {
    var id, result := w.l.job.id, Plain(w).result;
    assert RowOk(g.s, id);
    WorkedLeaseIsCurrent(g.s, w.l, w.clock);
    var r' := WorkStep(g, w).s.rows[id];
    assert r'.job == w.l.job && r'.status == FinalStatus(result.status);
    assert result.status == Retry ==> w.l.job.attempts < MAX_ATTEMPTS && result.nextAt == w.now + Delay(w.l.job.attempts);
    FinishedRowPaced(g.s.rows[id], r', Wait(g, id), Wait(WorkStep(g, w), id));
  }

  lemma WorkStepKeeps(g: Ledger, w: WorkerEvent)
    requires Inv(g.s) && FromWorker(g.s, w) && forall id :: Paced(g, id)
    ensures Inv(WorkStep(g, w).s) && forall id :: Paced(WorkStep(g, w), id)
  {
    InvStep(g.s, Plain(w));
    forall id ensures Paced(WorkStep(g, w), id) {
      assert Paced(g, id);
      if w.Worked? && Finishes(g.s, Plain(w)) && w.l.job.id == id {
        FinishKeepsPace(g, w);
      } else {
        OtherKeepsPace(g, w, id);
      }
    }
  }

  lemma WorkedLeaseIsCurrent(s: System, l: Lease, clock: Time)
    requires Inv(s) && l in s.issued && Acceptable(s.rows, l, clock)
    ensures s.rows[l.job.id].job == l.job
  {
    assert RowOk(s, l.job.id);
    var i :| IsCurrent(s, l.job.id, i);
    var j :| 0 <= j < |s.issued| && s.issued[j] == l;
    assert i == j;
  }

  lemma {:induction false} WorkKeeps(events: seq<WorkerEvent>)
    requires WorkerRun(events)
    ensures Inv(Work(events).s) && forall id :: Paced(Work(events), id)
  {
    if events != [] {
      var init := events[..|events| - 1];
      assert forall i :: 0 <= i < |init| ==> events[..i] == init[..i];
      WorkKeeps(init);
      assert FromWorker(Work(init).s, events[|events| - 1]);
      WorkStepKeeps(Work(init), events[|events| - 1]);
    }
  }

  ghost predicate Bounded(g: Ledger, id: string) {
    && Wait(g, id) <= 31 * SECOND
    && (id in g.s.rows ==>
          && 0 <= g.s.rows[id].job.attempts <= MAX_ATTEMPTS
          && (g.s.rows[id].status == Retryable ==> g.s.rows[id].job.attempts < MAX_ATTEMPTS))
  }

  lemma PacedIsBounded(g: Ledger, id: string)
    requires Inv(g.s) && Paced(g, id)
    ensures Bounded(g, id)
  {
    if id in g.s.rows {
      assert RowOk(g.s, id);
      DelaysAddUp(RetriesSoFar(g.s.rows[id]));
    }
  }

  /** When finishes come from the worker loop, no job is ever put up for a retry it
      cannot have, and all retries of one job together put it off by at most 31 seconds. */
  lemma RetriesAreBounded(events: seq<WorkerEvent>, id: string)
    requires WorkerRun(events)
    ensures Bounded(Work(events), id)
  {
    WorkKeeps(events);
    PacedIsBounded(Work(events), id);
  }

  lemma DelaysAddUp(n: nat)
    requires n < MAX_ATTEMPTS
    ensures TotalDelay(n) == [0, 1, 3, 7, 15, 31][n] * SECOND
  {
    if n > 0 { DelaysAddUp(n - 1); }
  }
}
