/** The job queue under concurrency: any number of workers, leases that run out, crashes, and finishing
    updates that check nothing but the job's id (crates/api/src/jobs.rs:118-278). */
module JobProtocol {
  import opened Wrappers
  import opened Jobs

  // ---------- The machine ----------

  /** The n-th claim of a job, counting from zero. */
  type Ticket = (string, nat)

  /** A claim not yet finished: what the worker saw, when it claimed, and whether the worker is gone or
      the lease was taken back. */
  datatype Hold = Hold(seen: Claimed, at: int, crashed: bool, reclaimed: bool)

  /** The table, the outstanding claims, the clock, how often each job was claimed, and which claims have
      started the job's handler. */
  datatype State = State(rows: Table, held: map<Ticket, Hold>, now: int, claims: map<string, nat>, ran: set<Ticket>)

  const START := State(map[], map[], 0, map[], {})

  datatype Event =
    | Enqueue(id: string, priority: int, maxAttempts: int, delay: nat)
    | Claim(worker: string, id: string)
    | Begin(ticket: Ticket)                          // the handler starts
    | Finish(ticket: Ticket, outcome: Option<string>) // `None` is success
    | Crash(ticket: Ticket)
    | Reclaim(lease: int)
    | Tick(micros: nat)

  ghost predicate Enabled(s: State, e: Event) {
    match e
    case Enqueue(id, _, _, _) => id !in s.rows
    case Claim(_, id) => id in s.rows && Due(s.rows[id], s.now) && id in s.claims
    case Begin(t) => t in s.held && !s.held[t].crashed && t !in s.ran
    case Finish(t, _) => t in s.held && !s.held[t].crashed && t in s.ran && t.0 in s.rows
    case Crash(t) => t in s.held
    case Reclaim(_) => true
    case Tick(_) => true
  }

  ghost function TakeBack(s: State, lease: int): map<Ticket, Hold> {
    map t | t in s.held ::
      if t.0 in s.rows && Stale(s.rows[t.0], lease, s.now) then s.held[t].(reclaimed := true) else s.held[t]
  }

  ghost function Apply(s: State, e: Event): State
    requires Enabled(s, e)
  {
    match e
    case Enqueue(id, priority, max, delay) =>
      s.(rows := s.rows[id := NewJob(priority, max, delay, s.now)], claims := s.claims[id := 0])
    case Claim(worker, id) =>
      var j := s.rows[id];
      s.(rows := s.rows[id := Held(j, worker, s.now)],
         held := s.held[(id, s.claims[id]) := Hold(Claimed(j.attempts, j.maxAttempts), s.now, false, false)],
         claims := s.claims[id := s.claims[id] + 1])
    case Begin(t) => s.(ran := s.ran + {t})
    case Finish(t, outcome) =>
      s.(rows := s.rows[t.0 := Jobs.Finish(s.rows[t.0], s.held[t].seen, outcome, s.now)], held := s.held - {t})
    case Crash(t) => s.(held := s.held[t := s.held[t].(crashed := true)])
    case Reclaim(lease) => s.(rows := ReclaimIn(s.rows, lease, s.now), held := TakeBack(s, lease))
    case Tick(d) => s.(now := s.now + d)
  }

  ghost predicate Run(s: State, es: seq<Event>)
    decreases |es|
  {
    es == [] || (Enabled(s, es[0]) && Run(Apply(s, es[0]), es[1..]))
  }

  ghost function After(s: State, es: seq<Event>): State
    requires Run(s, es)
    decreases |es|
  {
    if es == [] then s else After(Apply(s, es[0]), es[1..])
  }

  /** The hypothesis the queue rests on. A worker reports success only while its lease stands, and reports
      failure only while no other worker has claimed the job since. */
  ghost predicate Timely(s: State, e: Event)
    requires Enabled(s, e)
  {
    e.Finish? ==>
      if e.outcome.None? then !s.held[e.ticket].reclaimed
      else e.ticket.0 in s.claims && e.ticket.1 + 1 == s.claims[e.ticket.0]
  }

  ghost predicate TimelyRun(s: State, es: seq<Event>)
    decreases |es|
  {
    es == [] || (Enabled(s, es[0]) && Timely(s, es[0]) && TimelyRun(Apply(s, es[0]), es[1..]))
  }

  // ---------- What every timely step keeps ----------

  /** A job always gets one attempt, even when it was enqueued with a budget of zero or less. */
  function Budget(j: Job): int {
    if j.maxAttempts < 1 then 1 else j.maxAttempts
  }

  ghost predicate RowIsSound(s: State, id: string)
    requires id in s.rows
  {
    var j := s.rows[id];
    && id in s.claims && s.claims[id] == j.attempts + (if j.status == Running then 1 else 0)
    && 0 <= j.attempts <= Budget(j)
    && (j.status == Pending || j.status == Running ==> j.attempts < Budget(j))
    && (j.status == Dead ==> j.attempts == Budget(j))
    && (j.status == Running ==> j.attempts == s.claims[id] - 1 && (id, j.attempts) in s.held
                                && !s.held[(id, j.attempts)].reclaimed)
    && (j.status == Pending ==> j.lockedAt == None)
  }

  ghost predicate HoldIsSound(s: State, t: Ticket)
    requires t in s.held
  {
    var h := s.held[t];
    && t.0 in s.rows && t.0 in s.claims && t.1 < s.claims[t.0]
    && h.seen == Claimed(t.1, s.rows[t.0].maxAttempts)
    && h.at <= s.now
    && (t.1 + 1 == s.claims[t.0] ==> s.rows[t.0].status != Done)
    && (!h.reclaimed ==> s.rows[t.0].status == Running && s.rows[t.0].attempts == t.1 && s.rows[t.0].lockedAt == Some(h.at))
  }

  ghost predicate Inv(s: State) {
    && s.claims.Keys == s.rows.Keys
    && (forall id :: id in s.rows ==> RowIsSound(s, id))
    && (forall t :: t in s.held ==> HoldIsSound(s, t))
    && (forall t :: t in s.ran ==> t.0 in s.claims && t.1 < s.claims[t.0])
  }

  lemma EnqueueKeepsInv(s: State, e: Event)
    requires Inv(s) && Enabled(s, e) && e.Enqueue?
    ensures Inv(Apply(s, e))
  {
    var s' := Apply(s, e);
    assert forall id :: id in s.rows ==> RowIsSound(s, id) && RowIsSound(s', id);
    assert forall t :: t in s.held ==> HoldIsSound(s, t) && HoldIsSound(s', t);
  }

  lemma ClaimKeepsInv(s: State, worker: string, id: string)
    requires Inv(s) && Enabled(s, Claim(worker, id))
    ensures Inv(Apply(s, Claim(worker, id)))
  {
    var s' := Apply(s, Claim(worker, id));
    assert RowIsSound(s, id);
    assert (id, s.claims[id]) !in s.held by {
      assert forall t :: t in s.held ==> HoldIsSound(s, t);
    }
    forall k | k in s'.rows ensures RowIsSound(s', k) { assert RowIsSound(s, k); }
    forall t | t in s'.held ensures HoldIsSound(s', t) {
      if t != (id, s.claims[id]) { assert HoldIsSound(s, t); }
    }
  }

  lemma BeginKeepsInv(s: State, t: Ticket)
    requires Inv(s) && Enabled(s, Begin(t))
    ensures Inv(Apply(s, Begin(t)))
  {
    var s' := Apply(s, Begin(t));
    assert HoldIsSound(s, t);
    forall k | k in s'.rows ensures RowIsSound(s', k) { assert RowIsSound(s, k); }
    forall u | u in s'.held ensures HoldIsSound(s', u) { assert HoldIsSound(s, u); }
  }

  lemma CrashKeepsInv(s: State, t: Ticket)
    requires Inv(s) && Enabled(s, Crash(t))
    ensures Inv(Apply(s, Crash(t)))
  {
    var s' := Apply(s, Crash(t));
    forall k | k in s'.rows ensures RowIsSound(s', k) { assert RowIsSound(s, k); }
    forall u | u in s'.held ensures HoldIsSound(s', u) { assert HoldIsSound(s, u); }
  }

  lemma ReclaimKeepsInv(s: State, lease: int)
    requires Inv(s)
    ensures Inv(Apply(s, Reclaim(lease)))
  {
    var s' := Apply(s, Reclaim(lease));
    forall k | k in s'.rows ensures RowIsSound(s', k) { assert RowIsSound(s, k); }
    forall u | u in s'.held ensures HoldIsSound(s', u) { assert HoldIsSound(s, u); }
  }

  lemma TickKeepsInv(s: State, d: nat)
    requires Inv(s)
    ensures Inv(Apply(s, Tick(d)))
  {
    var s' := Apply(s, Tick(d));
    forall k | k in s'.rows ensures RowIsSound(s', k) { assert RowIsSound(s, k); }
    forall u | u in s'.held ensures HoldIsSound(s', u) { assert HoldIsSound(s, u); }
  }

  lemma FinishKeepsInv(s: State, t: Ticket, outcome: Option<string>)
    requires Inv(s) && Enabled(s, Finish(t, outcome)) && Timely(s, Finish(t, outcome))
    ensures Inv(Apply(s, Finish(t, outcome)))
  {
    var s' := Apply(s, Finish(t, outcome));
    assert HoldIsSound(s, t) && RowIsSound(s, t.0);
    assert s.rows[t.0].attempts == if s.held[t].reclaimed then t.1 + 1 else t.1;
    assert s'.rows[t.0].attempts == t.1 + 1;
    forall k | k in s'.rows ensures RowIsSound(s', k) { assert RowIsSound(s, k); }
    forall u | u in s'.held ensures HoldIsSound(s', u) { assert HoldIsSound(s, u); }
  }

  lemma StepKeepsInv(s: State, e: Event)
    requires Inv(s) && Enabled(s, e) && Timely(s, e)
    ensures Inv(Apply(s, e))
  {
    match e {
      case Enqueue(_, _, _, _) => EnqueueKeepsInv(s, e);
      case Claim(worker, id) => ClaimKeepsInv(s, worker, id);
      case Begin(t) => BeginKeepsInv(s, t);
      case Finish(t, outcome) => FinishKeepsInv(s, t, outcome);
      case Crash(t) => CrashKeepsInv(s, t);
      case Reclaim(lease) => ReclaimKeepsInv(s, lease);
      case Tick(d) => TickKeepsInv(s, d);
    }
  }

  lemma {:induction false} RunKeepsInv(s: State, es: seq<Event>)
    requires Inv(s) && TimelyRun(s, es)
    ensures Run(s, es) && Inv(After(s, es))
    decreases |es|
  {
    if es != [] {
      StepKeepsInv(s, es[0]);
      RunKeepsInv(Apply(s, es[0]), es[1..]);
    }
  }

  // ---------- Bounds over every timely run ----------

  ghost function Holders(s: State, id: string): set<Ticket> {
    set t | t in s.held && t.0 == id && !s.held[t].reclaimed
  }

  ghost function Executions(s: State, id: string): set<Ticket> {
    set t | t in s.ran && t.0 == id
  }

  lemma {:induction false} TicketsBelow(id: string, n: nat) returns (all: set<Ticket>)
    ensures forall t: Ticket :: t in all <==> t.0 == id && t.1 < n
    ensures |all| == n
  {
    if n == 0 {
      all := {};
    } else {
      var front := TicketsBelow(id, n - 1);
      all := front + {(id, n - 1)};
    }
  }

  lemma SubsetSize<T>(a: set<T>, b: set<T>)
    requires a <= b
    ensures |a| <= |b|
  {
    assert b == a + (b - a);
  }

  /** A running job has exactly one lease standing, and the attempts its worker saw are the attempts stored; nobody
      else holds one; each claim counts one attempt; and the job was claimed, and its handler run, at most as often as
      its budget. */
  ghost predicate AccountIsExact(s: State, id: string)
    requires id in s.rows
  {
    var j := s.rows[id];
    && (j.status == Running ==> Holders(s, id) == {(id, j.attempts)}
                                && s.held[(id, j.attempts)].seen == Claimed(j.attempts, j.maxAttempts))
    && (j.status != Running ==> Holders(s, id) == {})
    && id in s.claims && s.claims[id] == j.attempts + (if j.status == Running then 1 else 0)
    && 0 <= j.attempts <= Budget(j) && s.claims[id] <= Budget(j)
    && |Executions(s, id)| <= s.claims[id]
  }

  lemma InvKeepsTheAccount(s: State, id: string)
    requires Inv(s) && id in s.rows
    ensures AccountIsExact(s, id)
  {
    assert RowIsSound(s, id);
    forall t | t in Holders(s, id) ensures s.rows[id].status == Running && t == (id, s.rows[id].attempts) {
      assert HoldIsSound(s, t);
    }
    if s.rows[id].status == Running { assert HoldIsSound(s, (id, s.rows[id].attempts)); }
    var all := TicketsBelow(id, s.claims[id]);
    assert Executions(s, id) <= all;
    SubsetSize(Executions(s, id), all);
  }

  /** In every timely run every job's account is exact, its budget included. */
  lemma JobsKeepToTheirBudget(es: seq<Event>, id: string)
    requires TimelyRun(START, es)
    ensures Run(START, es)
    ensures id in After(START, es).rows ==> AccountIsExact(After(START, es), id)
  {
    RunKeepsInv(START, es);
    if id in After(START, es).rows { InvKeepsTheAccount(After(START, es), id); }
  }

  // ---------- The hypothesis is exact for the account ----------

  lemma LateFinishBreaksTheAccount(s: State, t: Ticket, outcome: Option<string>)
    requires Inv(s) && Enabled(s, Finish(t, outcome)) && !Timely(s, Finish(t, outcome))
    ensures t.0 in Apply(s, Finish(t, outcome)).rows && !AccountIsExact(Apply(s, Finish(t, outcome)), t.0)
  {
    var id := t.0;
    var s' := Apply(s, Finish(t, outcome));
    var j := s.rows[id];
    assert HoldIsSound(s, t) && RowIsSound(s, id);
    if j.status == Running {
      var u: Ticket := (id, j.attempts);
      assert u in Holders(s', id) && s'.rows[id].status != Running;
    } else {
      assert s'.claims[id] != s'.rows[id].attempts;
    }
  }

  /** From here on every job's account is exact, as long as every finish is timely. */
  ghost predicate AccountsStayExact(s: State) {
    forall es, id :: Run(s, es) && TimelyRun(s, es) && id in After(s, es).rows ==> AccountIsExact(After(s, es), id)
  }

  /** A finishing update leaves every account exact, then and in every timely continuation, if and only if it is timely
      itself. An account that is off is not yet a budget overrun: see below. */
  lemma TimelinessIsExact(s: State, t: Ticket, outcome: Option<string>)
    requires Inv(s) && Enabled(s, Finish(t, outcome))
    ensures AccountsStayExact(Apply(s, Finish(t, outcome))) <==> Timely(s, Finish(t, outcome))
  {
    var s' := Apply(s, Finish(t, outcome));
    if Timely(s, Finish(t, outcome)) {
      FinishKeepsInv(s, t, outcome);
      forall es, id | Run(s', es) && TimelyRun(s', es) && id in After(s', es).rows ensures AccountIsExact(After(s', es), id) {
        RunKeepsInv(s', es);
        InvKeepsTheAccount(After(s', es), id);
      }
    } else {
      LateFinishBreaksTheAccount(s, t, outcome);
      assert Run(s', []) && TimelyRun(s', []) && After(s', []) == s';
    }
  }

  // ---------- A worker that stops ----------

  /** A worker can stop anywhere. Its claim is then neither begun nor finished any more, and once its lease has run out the
      job is handed back with the attempt counted: to be claimed again, or dead when that was the last. */
  lemma CrashedWorkIsHandedBack(s: State, t: Ticket, wait: nat, lease: int, outcome: Option<string>)
    requires Inv(s) && t in s.held && !s.held[t].reclaimed && s.held[t].at < s.now + wait - lease
    ensures var es := [Crash(t), Tick(wait), Reclaim(lease)];
            Run(s, es) && t.0 in s.rows && t.0 in After(s, es).rows && t in After(s, es).held && After(s, es).held[t].reclaimed
    ensures var j, j' := s.rows[t.0], After(s, [Crash(t), Tick(wait), Reclaim(lease)]).rows[t.0];
            && j'.attempts == j.attempts + 1 && j'.lockedAt.None? && j'.lockedBy.None? && j'.runAt == s.now + wait
            && j'.status == (if j.attempts + 1 >= j.maxAttempts then Dead else Pending)
    ensures var s' := After(s, [Crash(t), Tick(wait), Reclaim(lease)]);
            !Enabled(s', Begin(t)) && !Enabled(s', Finish(t, outcome))
  {
    assert HoldIsSound(s, t);
    var s1 := Apply(s, Crash(t));
    var s2 := Apply(s1, Tick(wait));
    Compose(s2, Reclaim(lease), []);
    Compose(s1, Tick(wait), [Reclaim(lease)]);
    Compose(s, Crash(t), [Tick(wait), Reclaim(lease)]);
    assert [Crash(t), Tick(wait), Reclaim(lease)] == [Crash(t)] + [Tick(wait), Reclaim(lease)];
  }

  // ---------- When a job overruns its budget ----------

  /** A failure is reported only while no later claim of the job was made; a success at any time. */
  ghost predicate FailureTimely(s: State, e: Event)
    requires Enabled(s, e)
  {
    e.Finish? && e.outcome.Some? ==> e.ticket.0 in s.claims && e.ticket.1 + 1 == s.claims[e.ticket.0]
  }

  ghost predicate FailuresTimelyRun(s: State, es: seq<Event>)
    decreases |es|
  {
    es == [] || (Enabled(s, es[0]) && FailureTimely(s, es[0]) && FailuresTimelyRun(Apply(s, es[0]), es[1..]))
  }

  /** A job that can still be claimed has an attempt left for every claim to come. */
  ghost predicate RowIsCovered(s: State, id: string)
    requires id in s.rows
  {
    var j := s.rows[id];
    && id in s.claims && s.claims[id] <= Budget(j) && j.attempts >= 0
    && (j.status == Pending ==> s.claims[id] <= j.attempts < Budget(j))
    && (j.status == Running ==> s.claims[id] <= j.attempts + 1)
  }

  /** What a worker saw counts at least the claims before its own. */
  ghost predicate HoldIsCovered(s: State, t: Ticket)
    requires t in s.held
  {
    && t.0 in s.rows && t.0 in s.claims && t.1 < s.claims[t.0] && t.1 <= s.held[t].seen.attempts
    && s.held[t].seen.maxAttempts == s.rows[t.0].maxAttempts
  }

  ghost predicate Covered(s: State) {
    && s.claims.Keys == s.rows.Keys
    && (forall id :: id in s.rows ==> RowIsCovered(s, id))
    && (forall t :: t in s.held ==> HoldIsCovered(s, t))
    && (forall t :: t in s.ran ==> t.0 in s.claims && t.1 < s.claims[t.0])
  }

  lemma InvIsCovered(s: State)
    requires Inv(s)
    ensures Covered(s)
  {
    forall id | id in s.rows ensures RowIsCovered(s, id) { assert RowIsSound(s, id); }
    forall t | t in s.held ensures HoldIsCovered(s, t) { assert HoldIsSound(s, t); }
  }

  /** A finish that can do no harm: a success, or a failure whose worker saw all the claims before the present one. */
  ghost predicate Harmless(s: State, t: Ticket, outcome: Option<string>)
    requires t in s.held && t.0 in s.claims
  {
    outcome.Some? ==> s.held[t].seen.attempts + 1 >= s.claims[t.0]
  }

  lemma FinishKeepsCover(s: State, t: Ticket, outcome: Option<string>)
    requires Covered(s) && Enabled(s, Finish(t, outcome)) && t.0 in s.claims && Harmless(s, t, outcome)
    ensures Covered(Apply(s, Finish(t, outcome)))
  {
    var s' := Apply(s, Finish(t, outcome));
    assert HoldIsCovered(s, t) && RowIsCovered(s, t.0);
    forall k | k in s'.rows ensures RowIsCovered(s', k) { assert RowIsCovered(s, k); }
    forall u | u in s'.held ensures HoldIsCovered(s', u) { assert HoldIsCovered(s, u); }
  }

  lemma ClaimKeepsCover(s: State, e: Event)
    requires Covered(s) && Enabled(s, e) && e.Claim?
    ensures Covered(Apply(s, e))
  {
    var s' := Apply(s, e);
    assert RowIsCovered(s, e.id);
    forall k | k in s'.rows ensures RowIsCovered(s', k) { assert RowIsCovered(s, k); }
    forall u | u in s'.held ensures HoldIsCovered(s', u) {
      if u != (e.id, s.claims[e.id]) { assert HoldIsCovered(s, u); }
    }
  }

  lemma RestKeepsCover(s: State, e: Event)
    requires Covered(s) && Enabled(s, e) && !e.Claim? && !e.Finish?
    ensures Covered(Apply(s, e))
  {
    var s' := Apply(s, e);
    if e.Begin? { assert HoldIsCovered(s, e.ticket); }
    forall k | k in s'.rows ensures RowIsCovered(s', k) {
      if k in s.rows { assert RowIsCovered(s, k); }
    }
    forall u | u in s'.held ensures HoldIsCovered(s', u) { assert HoldIsCovered(s, u); }
  }

  lemma {:induction false} RunKeepsCover(s: State, es: seq<Event>)
    requires Covered(s) && FailuresTimelyRun(s, es)
    ensures Run(s, es) && Covered(After(s, es))
    decreases |es|
  {
    if es != [] {
      var e := es[0];
      if e.Finish? {
        assert HoldIsCovered(s, e.ticket);
        FinishKeepsCover(s, e.ticket, e.outcome);
      } else if e.Claim? {
        ClaimKeepsCover(s, e);
      } else {
        RestKeepsCover(s, e);
      }
      RunKeepsCover(Apply(s, e), es[1..]);
    }
  }

  /** The job was claimed, and its handler run, at most as often as its budget. */
  ghost predicate WithinBudget(s: State, id: string)
    requires id in s.rows
  {
    id in s.claims && |Executions(s, id)| <= s.claims[id] <= Budget(s.rows[id])
  }

  lemma CoveredIsWithinBudget(s: State, id: string)
    requires Covered(s) && id in s.rows
    ensures WithinBudget(s, id)
  {
    assert RowIsCovered(s, id);
    var all := TicketsBelow(id, s.claims[id]);
    assert Executions(s, id) <= all;
    SubsetSize(Executions(s, id), all);
  }

  /** Late successes do no harm: in every run whose failures are timely every job stays within its budget. */
  lemma OnlyFailuresNeedBeTimely(es: seq<Event>, id: string)
    requires FailuresTimelyRun(START, es)
    ensures Run(START, es)
    ensures id in After(START, es).rows ==> WithinBudget(After(START, es), id)
  {
    RunKeepsCover(START, es);
    if id in After(START, es).rows { CoveredIsWithinBudget(After(START, es), id); }
  }

  /** From here on every job stays within its budget, as long as every failure is timely. */
  ghost predicate StaysWithinBudget(s: State) {
    forall es, id :: Run(s, es) && FailuresTimelyRun(s, es) && id in After(s, es).rows ==> WithinBudget(After(s, es), id)
  }

  /** A pending job with fewer attempts on record than claims behind it. */
  ghost predicate Shortchanged(s: State, id: string) {
    && id in s.rows && id in s.claims && s.rows[id].status == Pending
    && 0 <= s.rows[id].attempts < s.claims[id] && s.rows[id].attempts < s.rows[id].maxAttempts
    && forall t :: t in s.ran && t.0 == id ==> t.1 < s.claims[id]
  }

  lemma ComposeFailures(s: State, e: Event, es: seq<Event>)
    requires Enabled(s, e) && FailureTimely(s, e) && Run(Apply(s, e), es) && FailuresTimelyRun(Apply(s, e), es)
    ensures Run(s, [e] + es) && FailuresTimelyRun(s, [e] + es) && After(s, [e] + es) == After(Apply(s, e), es)
  {
    assert ([e] + es)[1..] == es;
  }

  /** Once it is due, such a job is claimed once more, and by failing in time it is as short of attempts as before. */
  lemma OneMoreAttempt(s: State, id: string)
    requires Shortchanged(s, id) && s.rows[id].runAt <= s.now
    ensures Enabled(s, Claim("w", id))
    ensures var s1, t := Apply(s, Claim("w", id)), (id, s.claims[id]);
            && id in s1.rows && s1.rows[id].maxAttempts == s.rows[id].maxAttempts
            && id in s1.claims && s1.claims[id] == s.claims[id] + 1
            && Enabled(s1, Begin(t)) && Enabled(Apply(s1, Begin(t)), Event.Finish(t, Some("")))
            && FailureTimely(Apply(s1, Begin(t)), Event.Finish(t, Some("")))
            && var s3 := Apply(Apply(s1, Begin(t)), Event.Finish(t, Some("")));
               && id in s3.rows && s3.rows[id].attempts == s.rows[id].attempts + 1
               && s3.rows[id].maxAttempts == s.rows[id].maxAttempts
               && (s.rows[id].attempts + 1 < s.rows[id].maxAttempts ==> Shortchanged(s3, id))
  {}

  /** So it goes on until the attempts on record are used up, and by then it was claimed too often. */
  lemma {:induction false} Overrun(s: State, id: string) returns (es: seq<Event>)
    requires Shortchanged(s, id)
    ensures Run(s, es) && FailuresTimelyRun(s, es)
    ensures id in After(s, es).rows && !WithinBudget(After(s, es), id)
    decreases s.rows[id].maxAttempts - s.rows[id].attempts
  {
    var wait := if s.rows[id].runAt > s.now then s.rows[id].runAt - s.now else 0;
    var s0 := Apply(s, Tick(wait));
    var t: Ticket := (id, s.claims[id]);
    var e1, e2, e3 := Claim("w", id), Begin(t), Event.Finish(t, Some(""));
    OneMoreAttempt(s0, id);
    var s1 := Apply(s0, e1);
    var rest: seq<Event> := [];
    if s1.claims[id] <= s.rows[id].maxAttempts {
      var s2 := Apply(s1, e2);
      var more := Overrun(Apply(s2, e3), id);
      ComposeFailures(s2, e3, more);
      ComposeFailures(s1, e2, [e3] + more);
      rest := [e2] + ([e3] + more);
    } else {
      assert After(s1, rest) == s1;
    }
    ComposeFailures(s0, e1, rest);
    ComposeFailures(s, Tick(wait), [e1] + rest);
    es := [Tick(wait)] + ([e1] + rest);
  }

  lemma HarmIsDone(s: State, t: Ticket, outcome: Option<string>)
    requires Covered(s) && Enabled(s, Finish(t, outcome)) && t.0 in s.claims && !Harmless(s, t, outcome)
    ensures Shortchanged(Apply(s, Finish(t, outcome)), t.0)
  {
    assert HoldIsCovered(s, t) && RowIsCovered(s, t.0);
  }

  /** In any state a run with timely failures can reach, and more: a finishing update lets some continuation with timely
      failures claim a job beyond its budget if and only if it is a failure and its worker saw fewer attempts than there
      were claims before the last one. */
  lemma OverrunsExactly(s: State, t: Ticket, outcome: Option<string>)
    requires Covered(s) && Enabled(s, Finish(t, outcome))
    ensures t.0 in s.claims
    ensures StaysWithinBudget(Apply(s, Finish(t, outcome))) <==> Harmless(s, t, outcome)
  {
    assert HoldIsCovered(s, t);
    var s' := Apply(s, Finish(t, outcome));
    if Harmless(s, t, outcome) {
      FinishKeepsCover(s, t, outcome);
      forall es, id | Run(s', es) && FailuresTimelyRun(s', es) && id in After(s', es).rows ensures WithinBudget(After(s', es), id) {
        RunKeepsCover(s', es);
        CoveredIsWithinBudget(After(s', es), id);
      }
    } else {
      HarmIsDone(s, t, outcome);
      var es := Overrun(s', t.0);
    }
  }

  /** From a timely run: exactly a failure reported after a later claim of the job does that. */
  lemma LateFailureOverrunsExactly(before: seq<Event>, t: Ticket, outcome: Option<string>)
    requires TimelyRun(START, before) && Run(START, before) && Enabled(After(START, before), Finish(t, outcome))
    ensures var s := After(START, before);
            && t.0 in s.claims
            && (!StaysWithinBudget(Apply(s, Finish(t, outcome))) <==> outcome.Some? && t.1 + 1 < s.claims[t.0])
  {
    RunKeepsInv(START, before);
    var s := After(START, before);
    assert HoldIsSound(s, t);
    InvIsCovered(s);
    OverrunsExactly(s, t, outcome);
  }

  /** How much is left to happen to a job: attempts first, and within one attempt, waiting before running. */
  function Measure(j: Job): int {
    match j.status
    case Pending => 2 * (Budget(j) - j.attempts) + 1
    case Running => 2 * (Budget(j) - j.attempts)
    case Done => 0
    case Dead => 0
  }

  /** Every timely step leaves a job's status and attempts alone or brings its measure down; the budget is
      fixed when the job is enqueued. */
  lemma StepsMakeProgress(s: State, e: Event, id: string)
    requires Inv(s) && Enabled(s, e) && Timely(s, e) && id in s.rows
    ensures id in Apply(s, e).rows
    ensures Progressed(s.rows[id], Apply(s, e).rows[id])
  {
    match e {
      case Finish(_, _) => FinishMakesProgress(s, e, id);
      case Claim(_, _) => ClaimMakesProgress(s, e, id);
      case _ => OtherStepMakesProgress(s, e, id);
    }
  }

  /** The measure of a job goes down exactly when its status or attempts change. */
  ghost predicate Progressed(j: Job, j': Job) {
    && j'.maxAttempts == j.maxAttempts && j.attempts <= j'.attempts <= j.attempts + 1
    && 0 <= Measure(j') <= Measure(j)
    && (Measure(j') == Measure(j) <==> j'.status == j.status && j'.attempts == j.attempts)
  }

  lemma FinishMakesProgress(s: State, e: Event, id: string)
    requires Inv(s) && Enabled(s, e) && Timely(s, e) && id in s.rows && e.Finish?
    ensures id in Apply(s, e).rows && Progressed(s.rows[id], Apply(s, e).rows[id])
  {
    FinishKeepsInv(s, e.ticket, e.outcome);
    assert RowIsSound(s, id) && HoldIsSound(s, e.ticket);
    assert RowIsSound(Apply(s, e), id);
  }

  lemma ClaimMakesProgress(s: State, e: Event, id: string)
    requires Inv(s) && Enabled(s, e) && id in s.rows && e.Claim?
    ensures id in Apply(s, e).rows && Progressed(s.rows[id], Apply(s, e).rows[id])
  {
    assert RowIsSound(s, id);
  }

  lemma OtherStepMakesProgress(s: State, e: Event, id: string)
    requires Inv(s) && Enabled(s, e) && id in s.rows && !e.Finish? && !e.Claim?
    ensures id in Apply(s, e).rows && Progressed(s.rows[id], Apply(s, e).rows[id])
  {
    assert RowIsSound(s, id);
  }

  /** How many events of a run changed a job's status or attempts. */
  ghost function Changes(s: State, es: seq<Event>, id: string): nat
    requires Run(s, es)
    decreases |es|
  {
    if es == [] then 0
    else
      var s' := Apply(s, es[0]);
      (if id in s.rows && id in s'.rows && (s'.rows[id].status != s.rows[id].status || s'.rows[id].attempts != s.rows[id].attempts)
       then 1 else 0) + Changes(s', es[1..], id)
  }

  /** So a job is done with after finitely many changes: from any point of a timely run, never more than its
      measure there. In particular `done` and `dead` are final. */
  lemma {:induction false} JobsComeToAnEnd(s: State, es: seq<Event>, id: string)
    requires Inv(s) && TimelyRun(s, es) && id in s.rows
    ensures Run(s, es) && Changes(s, es, id) <= Measure(s.rows[id])
    ensures id in After(s, es).rows
    ensures s.rows[id].status == Done || s.rows[id].status == Dead ==>
              After(s, es).rows[id].status == s.rows[id].status && After(s, es).rows[id].attempts == s.rows[id].attempts
    decreases |es|
  {
    assert RowIsSound(s, id);
    if es != [] {
      StepsMakeProgress(s, es[0], id);
      StepKeepsInv(s, es[0]);
      JobsComeToAnEnd(Apply(s, es[0]), es[1..], id);
    }
  }

  ghost predicate NoClaim(es: seq<Event>, id: string) {
    forall i :: 0 <= i < |es| && es[i].Claim? ==> es[i].id != id
  }

  lemma WaitingStep(s: State, e: Event, id: string)
    requires Inv(s) && Enabled(s, e) && Timely(s, e) && (e.Claim? ==> e.id != id)
    requires id in s.rows && s.rows[id].status == Pending && forall t :: t in s.held && t.0 == id ==> t.1 + 1 < s.claims[id]
    ensures var s' := Apply(s, e);
            && id in s'.rows && s'.rows[id] == s.rows[id] && id in s'.claims
            && forall t :: t in s'.held && t.0 == id ==> t.1 + 1 < s'.claims[id]
  {
    if e.Finish? { assert HoldIsSound(s, e.ticket); }
  }

  lemma {:induction false} WaitingRun(s: State, es: seq<Event>, id: string)
    requires Inv(s) && TimelyRun(s, es) && NoClaim(es, id)
    requires id in s.rows && s.rows[id].status == Pending && forall t :: t in s.held && t.0 == id ==> t.1 + 1 < s.claims[id]
    ensures Run(s, es) && id in After(s, es).rows && After(s, es).rows[id] == s.rows[id]
    decreases |es|
  {
    if es != [] {
      WaitingStep(s, es[0], id);
      StepKeepsInv(s, es[0]);
      assert NoClaim(es[1..], id);
      WaitingRun(Apply(s, es[0]), es[1..], id);
    }
  }

  /** A job that failed and has attempts left is not claimed again before its backoff has passed. */
  lemma RetriesWaitOutTheirBackoff(s: State, t: Ticket, message: string, es: seq<Event>, worker: string)
    requires Inv(s) && Enabled(s, Finish(t, Some(message))) && Timely(s, Finish(t, Some(message)))
    requires t.1 + 1 < s.rows[t.0].maxAttempts
    requires TimelyRun(Apply(s, Finish(t, Some(message))), es) && NoClaim(es, t.0)
    ensures Run(Apply(s, Finish(t, Some(message))), es)
    ensures var s' := After(Apply(s, Finish(t, Some(message))), es);
            Enabled(s', Claim(worker, t.0)) ==> s'.now >= s.now + SECOND * BackoffSeconds(t.1 + 1)
  {
    var s1 := Apply(s, Finish(t, Some(message)));
    assert HoldIsSound(s, t);
    StepKeepsInv(s, Finish(t, Some(message)));
    forall u | u in s1.held && u.0 == t.0 ensures u.1 + 1 < s1.claims[t.0] {
      assert HoldIsSound(s, u);
    }
    WaitingRun(s1, es, t.0);
  }

  /** Nor is a job claimed before the delay it was enqueued with has passed. */
  lemma EnqueuedJobsWaitOutTheirDelay(s: State, id: string, priority: int, max: int, delay: nat, es: seq<Event>, worker: string)
    requires Inv(s) && Enabled(s, Enqueue(id, priority, max, delay))
    requires TimelyRun(Apply(s, Enqueue(id, priority, max, delay)), es) && NoClaim(es, id)
    ensures Run(Apply(s, Enqueue(id, priority, max, delay)), es)
    ensures var s' := After(Apply(s, Enqueue(id, priority, max, delay)), es);
            && id in s'.rows && s'.rows[id].status == Pending && s'.rows[id].priority == priority
            && (Enabled(s', Claim(worker, id)) <==> s'.now >= s.now + delay)
  {
    var s0 := Apply(s, Enqueue(id, priority, max, delay));
    StepKeepsInv(s, Enqueue(id, priority, max, delay));
    forall t | t in s0.held ensures t.0 != id { assert HoldIsSound(s, t); }
    WaitingRun(s0, es, id);
    RunKeepsInv(s0, es);
  }

  // ---------- Leases and time ----------

  /** Every reclaim of the run uses a lease of at least `lease`, and every report comes within that lease of
      its claim. */
  ghost predicate WithinLease(s: State, es: seq<Event>, lease: int)
    requires Run(s, es)
    decreases |es|
  {
    es == [] ||
    (&& (es[0].Reclaim? ==> es[0].lease >= lease)
     && (es[0].Finish? ==> s.now <= s.held[es[0].ticket].at + lease)
     && WithinLease(Apply(s, es[0]), es[1..], lease))
  }

  /** A lease is only taken back once it has run out. */
  ghost predicate ReclaimedIsOverdue(s: State, lease: int) {
    forall t :: t in s.held && s.held[t].reclaimed ==> s.now > s.held[t].at + lease
  }

  lemma OverdueStep(s: State, e: Event, lease: int)
    requires Inv(s) && ReclaimedIsOverdue(s, lease) && Enabled(s, e)
    requires e.Reclaim? ==> e.lease >= lease
    ensures ReclaimedIsOverdue(Apply(s, e), lease)
  {
    if e.Reclaim? {
      forall t | t in s.held && !s.held[t].reclaimed && Stale(s.rows[t.0], e.lease, s.now)
        ensures s.now > s.held[t].at + lease
      {
        assert HoldIsSound(s, t);
      }
      forall t | t in s.held ensures t.0 in s.rows { assert HoldIsSound(s, t); }
    }
  }

  /** A deployment meets the hypothesis by finishing within the lease: when every worker reports no later
      than one lease after its claim (the whole batch of a pass is claimed at once), every run is timely. */
  lemma {:induction false} WithinLeaseIsTimely(s: State, es: seq<Event>, lease: int)
    requires Inv(s) && ReclaimedIsOverdue(s, lease) && Run(s, es) && WithinLease(s, es, lease)
    ensures TimelyRun(s, es)
    decreases |es|
  {
    if es != [] {
      var e := es[0];
      if e.Finish? {
        assert HoldIsSound(s, e.ticket) && RowIsSound(s, e.ticket.0);
      }
      StepKeepsInv(s, e);
      OverdueStep(s, e, lease);
      WithinLeaseIsTimely(Apply(s, e), es[1..], lease);
    }
  }

  lemma WithinLeaseFromTheStart(es: seq<Event>, lease: int)
    requires Run(START, es) && WithinLease(START, es, lease)
    ensures TimelyRun(START, es)
  {
    WithinLeaseIsTimely(START, es, lease);
  }

  // ---------- A batch is its claims ----------

  lemma Compose(s: State, e: Event, es: seq<Event>)
    requires Enabled(s, e) && Run(Apply(s, e), es)
    ensures Run(s, [e] + es) && After(s, [e] + es) == After(Apply(s, e), es)
  {
    assert ([e] + es)[1..] == es;
  }

  /** The one statement that claims a batch does what claiming its jobs one by one does. */
  lemma {:induction false} BatchIsItsClaims(s: State, ids: set<string>, worker: string) returns (es: seq<Event>)
    requires s.claims.Keys == s.rows.Keys
    requires forall id :: id in ids ==> id in s.rows && Due(s.rows[id], s.now)
    ensures Run(s, es) && |es| == |ids|
    ensures After(s, es).rows == ClaimIn(s.rows, ids, worker, s.now)
    decreases ids
  {
    if ids == {} {
      es := [];
      assert ClaimIn(s.rows, {}, worker, s.now) == s.rows;
    } else {
      var id :| id in ids;
      var e := Claim(worker, id);
      var s' := Apply(s, e);
      var rest := BatchIsItsClaims(s', ids - {id}, worker);
      es := [e] + rest;
      Compose(s, e, rest);
      assert ClaimIn(s'.rows, ids - {id}, worker, s.now) == ClaimIn(s.rows, ids, worker, s.now);
    }
  }

  // ---------- Why the hypothesis is needed ----------

  const MINUTE := 60 * SECOND

  /** The first worker outlives its one-minute lease; the second takes the job over and finishes it. */
  const TAKEN_OVER := [Enqueue("j", 0, 2, 0), Claim("w1", "j"), Begin(("j", 0)), Tick(MINUTE + 1), Reclaim(MINUTE),
                      Claim("w2", "j"), Begin(("j", 1)), Finish(("j", 1), None)]

  /** Then the first worker reports a failure, and the job runs again. */
  const REVIVED := [Finish(("j", 0), Some("late")), Tick(2 * SECOND), Claim("w3", "j"), Begin(("j", 2))]

  ghost function FinishedOnce(): State {
    State(map["j" := Job(Done, 0, 2, 2, MINUTE + 1, None, None, None)],
          map[("j", 0) := Hold(Claimed(0, 2), 0, false, true)], MINUTE + 1, map["j" := 2], {("j", 0), ("j", 1)})
  }

  ghost function Overdue(): State {
    State(map["j" := Job(Running, 0, 0, 2, 0, Some("w1"), Some(0), None)],
          map[("j", 0) := Hold(Claimed(0, 2), 0, false, false)], MINUTE + 1, map["j" := 1], {("j", 0)})
  }

  ghost function Retaken(): State {
    State(map["j" := Job(Running, 0, 1, 2, MINUTE + 1, Some("w2"), Some(MINUTE + 1), Some("the worker holding this job stopped"))],
          map[("j", 0) := Hold(Claimed(0, 2), 0, false, true), ("j", 1) := Hold(Claimed(1, 2), MINUTE + 1, false, false)],
          MINUTE + 1, map["j" := 2], {("j", 0)})
  }

  lemma FirstHalf()
    ensures Run(START, TAKEN_OVER[..4]) && After(START, TAKEN_OVER[..4]) == Overdue()
  {
    var e0, e1, e2, e3 := TAKEN_OVER[0], TAKEN_OVER[1], TAKEN_OVER[2], TAKEN_OVER[3];
    var s1 := Apply(START, e0);
    var s2 := Apply(s1, e1);
    var s3 := Apply(s2, e2);
    Compose(s3, e3, []);
    Compose(s2, e2, [e3]);
    Compose(s1, e1, [e2, e3]);
    Compose(START, e0, [e1, e2, e3]);
    assert TAKEN_OVER[..4] == [e0] + [e1, e2, e3];
  }

  lemma TakeOver()
    ensures Enabled(Apply(Overdue(), Reclaim(MINUTE)), Claim("w2", "j"))
    ensures Apply(Apply(Overdue(), Reclaim(MINUTE)), Claim("w2", "j")) == Retaken()
  {
    var s5 := Apply(Overdue(), Reclaim(MINUTE));
    assert s5.rows == map["j" := Job(Pending, 0, 1, 2, MINUTE + 1, None, None, Some("the worker holding this job stopped"))];
    assert s5.held == map[("j", 0) := Hold(Claimed(0, 2), 0, false, true)];
  }

  lemma SecondHalf()
    ensures Run(Overdue(), TAKEN_OVER[4..]) && After(Overdue(), TAKEN_OVER[4..]) == FinishedOnce()
  {
    var e4, e5, e6, e7 := Reclaim(MINUTE), Claim("w2", "j"), Begin(("j", 1)), Event.Finish(("j", 1), None);
    TakeOver();
    LastSteps();
    Compose(Apply(Overdue(), e4), e5, [e6, e7]);
    Compose(Overdue(), e4, [e5, e6, e7]);
    assert TAKEN_OVER[4..] == [e4] + [e5, e6, e7];
  }

  lemma LastSteps()
    ensures var es := [Begin(("j", 1)), Event.Finish(("j", 1), None)];
            Run(Retaken(), es) && After(Retaken(), es) == FinishedOnce()
  {
    var e6, e7 := Begin(("j", 1)), Event.Finish(("j", 1), None);
    var s7 := Apply(Retaken(), e6);
    var s8 := Apply(s7, e7);
    assert s8.held == map[("j", 0) := Hold(Claimed(0, 2), 0, false, true)];
    assert s8.ran == {("j", 0), ("j", 1)};
    Compose(s7, e7, []);
    Compose(Retaken(), e6, [e7]);
  }

  /** One late failure report revives a job that is done, lowers its attempts, and has its handler run a
      third time on a budget of two. */
  lemma LateFailureRevivesADoneJob()
    ensures Run(START, TAKEN_OVER[..4]) && Run(After(START, TAKEN_OVER[..4]), TAKEN_OVER[4..])
    ensures After(After(START, TAKEN_OVER[..4]), TAKEN_OVER[4..]) == FinishedOnce()
    ensures FinishedOnce().rows["j"].status == Done && FinishedOnce().rows["j"].attempts == 2
    ensures Enabled(FinishedOnce(), REVIVED[0]) && !Timely(FinishedOnce(), REVIVED[0])
    ensures Run(FinishedOnce(), REVIVED)
    ensures var s := After(FinishedOnce(), REVIVED);
            && "j" in s.rows && s.rows["j"].status == Running && s.rows["j"].attempts == 1
            && Executions(s, "j") == {("j", 0), ("j", 1), ("j", 2)}
  {
    FirstHalf();
    SecondHalf();
    var s := FinishedOnce();
    var e0, e1, e2, e3 := REVIVED[0], REVIVED[1], REVIVED[2], REVIVED[3];
    var s1 := Apply(s, e0);
    assert BackoffSeconds(1) == 2 by { assert Power2(1) == 2; }
    assert s1.rows == map["j" := Job(Pending, 0, 1, 2, MINUTE + 1 + 2 * SECOND, None, None, Some("late"))];
    var s2 := Apply(s1, e1);
    var s3 := Apply(s2, e2);
    assert s3.held == map[("j", 2) := Hold(Claimed(1, 2), s2.now, false, false)];
    var s4 := Apply(s3, e3);
    Compose(s3, e3, []);
    Compose(s2, e2, [e3]);
    Compose(s1, e1, [e2, e3]);
    Compose(s, e0, [e1, e2, e3]);
    assert REVIVED == [e0] + [e1, e2, e3];
  }

  // ---------- A budget of nothing ----------

  /** A job enqueued with a budget of zero or less, claimed, begun and failed. */
  function Unbudgeted(max: int): seq<Event> {
    [Enqueue("j", 0, max, 0), Claim("w", "j"), Begin(("j", 0)), Event.Finish(("j", 0), Some("no"))]
  }

  /** It runs once all the same and is dead after that one attempt. */
  lemma NoBudgetStillRunsOnce(max: int)
    requires max <= 0
    ensures TimelyRun(START, Unbudgeted(max))
    ensures Run(START, Unbudgeted(max))
    ensures var s := After(START, Unbudgeted(max));
            && "j" in s.rows && s.rows["j"].status == Dead && s.rows["j"].attempts == 1
            && s.rows["j"].maxAttempts == max && Executions(s, "j") == {("j", 0)} && Budget(s.rows["j"]) == 1
  {
    var e0, e1, e2, e3 := Enqueue("j", 0, max, 0), Event.Claim("w", "j"), Begin(("j", 0)), Event.Finish(("j", 0), Some("no"));
    var s1 := Apply(START, e0);
    assert s1.rows == map["j" := NewJob(0, max, 0, 0)] && s1.claims == map["j" := 0];
    var s2 := Apply(s1, e1);
    assert s2.held == map[("j", 0) := Hold(Claimed(0, max), 0, false, false)];
    var s3 := Apply(s2, e2);
    var s4 := Apply(s3, e3);
    assert s4.ran == {("j", 0)};
    TimelyStep(s3, e3, []);
    TimelyStep(s2, e2, [e3]);
    TimelyStep(s1, e1, [e2, e3]);
    TimelyStep(START, e0, [e1, e2, e3]);
    assert Unbudgeted(max) == [e0] + [e1, e2, e3] && [e1] + [e2, e3] == [e1, e2, e3];
  }

  lemma TimelyStep(s: State, e: Event, es: seq<Event>)
    requires Enabled(s, e) && Timely(s, e) && Run(Apply(s, e), es) && TimelyRun(Apply(s, e), es)
    ensures Run(s, [e] + es) && TimelyRun(s, [e] + es) && After(s, [e] + es) == After(Apply(s, e), es)
  {
    assert ([e] + es)[1..] == es;
  }
}
