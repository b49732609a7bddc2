/** The `_jobs` queue (crates/api/src/jobs.rs): enqueue, claim, reclaim and the finishing updates, each a
    function from table to table, and the class whose methods perform them. Times are microseconds. */
module Jobs {
  import opened Wrappers

  const SECOND := 1_000_000

  datatype Status = Pending | Running | Done | Dead

  datatype Job = Job(status: Status, priority: int, attempts: int, maxAttempts: int, runAt: int,
                     lockedBy: Option<string>, lockedAt: Option<int>, lastError: Option<string>)

  type Table = map<string, Job>

  /** What a worker carries away from a claim: the row as it was then. */
  datatype Claimed = Claimed(attempts: int, maxAttempts: int)

  function Power2(n: nat): nat {
    if n == 0 then 1 else 2 * Power2(n - 1)
  }

  /** `backoff_seconds`: two to the attempts, clamped to 1..16, held at five minutes. */
  function BackoffSeconds(attempts: int): nat {
    var p := Power2(if attempts < 1 then 1 else if attempts > 16 then 16 else attempts);
    if p < 300 then p else 300
  }

  lemma {:induction false} Power2Grows(m: nat, n: nat)
    requires m <= n
    ensures 1 <= Power2(m) <= Power2(n)
    decreases n
  {
    if m < n { Power2Grows(m, n - 1); }
    else if m > 0 { Power2Grows(m - 1, n - 1); }
  }

  /** The wait at least doubles up to the ceiling, never shrinks, and reaches the ceiling at the ninth
      attempt. */
  lemma BackoffGrowsAndHolds(a: int, b: int)
    requires a <= b
    ensures 2 <= BackoffSeconds(a) <= BackoffSeconds(b) <= 300
    ensures BackoffSeconds(a) == 300 <==> a >= 9
    ensures 1 <= a < 8 ==> BackoffSeconds(a + 1) == 2 * BackoffSeconds(a)
  {
    var m := if a < 1 then 1 else if a > 16 then 16 else a;
    var n := if b < 1 then 1 else if b > 16 then 16 else b;
    Power2Grows(1, m);
    Power2Grows(m, n);
    assert Power2(1) == 2 && Power2(2) == 4 && Power2(4) == 16 && Power2(6) == 64 && Power2(8) == 256;
    assert Power2(9) == 512;
    if m <= 8 { Power2Grows(m, 8); } else { Power2Grows(9, m); }
  }

  // ---------- One statement each ----------

  function NewJob(priority: int, maxAttempts: int, delay: nat, now: int): Job {
    Job(Pending, priority, 0, maxAttempts, now + delay, None, None, None)
  }

  predicate Due(j: Job, now: int) {
    j.status == Pending && j.runAt <= now
  }

  function Held(j: Job, worker: string, now: int): Job {
    j.(status := Running, lockedBy := Some(worker), lockedAt := Some(now))
  }

  function ClaimIn(t: Table, ids: set<string>, worker: string, now: int): Table {
    map id | id in t :: if id in ids then Held(t[id], worker, now) else t[id]
  }

  /** `locked_at < now() - lease`; a NULL compares as unknown, and is left alone. */
  predicate Stale(j: Job, lease: int, now: int) {
    j.status == Running && j.lockedAt.Some? && j.lockedAt.value < now - lease
  }

  function HandBack(j: Job, now: int): Job {
    j.(attempts := j.attempts + 1, status := if j.attempts + 1 >= j.maxAttempts then Dead else Pending,
       runAt := now, lockedBy := None, lockedAt := None,
       lastError := if j.lastError.Some? then j.lastError else Some("the worker holding this job stopped"))
  }

  function ReclaimIn(t: Table, lease: int, now: int): Table {
    map id | id in t :: if Stale(t[id], lease, now) then HandBack(t[id], now) else t[id]
  }

  function Succeed(j: Job): Job {
    j.(status := Done, attempts := j.attempts + 1, lockedBy := None, lockedAt := None, lastError := None)
  }

  /** A failure writes the attempts the worker saw when it claimed, plus one. */
  function Fail(j: Job, c: Claimed, message: string, now: int): Job {
    var attempts := c.attempts + 1;
    if attempts >= c.maxAttempts then
      j.(status := Dead, attempts := attempts, runAt := now, lockedBy := None, lockedAt := None, lastError := Some(message))
    else
      j.(status := Pending, attempts := attempts, runAt := now + SECOND * BackoffSeconds(attempts),
         lockedBy := None, lockedAt := None, lastError := Some(message))
  }

  /** What the finishing statement does to a row, whatever has become of it since. */
  function Finish(j: Job, c: Claimed, outcome: Option<string>, now: int): Job {
    match outcome
    case None => Succeed(j)
    case Some(message) => Fail(j, c, message, now)
  }

  /** What a job's handler answers; a job without a message succeeds. */
  function OutcomeOf(outcomes: map<string, string>, id: string): Option<string> {
    if id in outcomes then Some(outcomes[id]) else None
  }

  // ---------- Which rows a claim takes ----------

  function Available(t: Table, locked: set<string>, now: int): set<string> {
    set id | id in t && Due(t[id], now) && id !in locked
  }

  /** `order by priority desc, run_at`. */
  predicate NotAfter(a: Job, b: Job) {
    a.priority > b.priority || (a.priority == b.priority && a.runAt <= b.runAt)
  }

  /** `limit $1 for update skip locked`: as many due rows as the limit allows, none of them locked by
      another transaction, and none left behind that should have gone first. */
  predicate IsBatch(t: Table, limit: nat, locked: set<string>, now: int, ids: set<string>) {
    var available := Available(t, locked, now);
    && ids <= available && |ids| <= limit && (|ids| == limit || ids == available)
    && forall a, b :: a in ids && b in available - ids ==> NotAfter(t[a], t[b])
  }

  /** Among jobs of one priority a due job is claimed before any that came due later, and one of a higher priority before
      any of a lower. */
  lemma BatchGoesInOrder(t: Table, limit: nat, locked: set<string>, now: int, ids: set<string>, first: string, second: string)
    requires IsBatch(t, limit, locked, now, ids) && second in ids
    requires first in t && first !in locked && t[first].status == Pending && t[first].runAt <= now
    requires t[first].priority > t[second].priority
             || (t[first].priority == t[second].priority && t[first].runAt < t[second].runAt)
    ensures first in ids
  {
    assert first in Available(t, locked, now);
    assert forall b :: b in Available(t, locked, now) - ids ==> NotAfter(t[second], t[b]);
  }

  lemma {:induction false} FirstOf(t: Table, ids: set<string>) returns (first: string)
    requires ids != {} && ids <= t.Keys
    ensures first in ids && forall b :: b in ids ==> NotAfter(t[first], t[b])
  {
    first :| first in ids;
    var rest := ids - {first};
    assert forall b :: b in ids ==> b == first || b in rest;
    if rest != {} {
      var other := FirstOf(t, rest);
      var was := first;
      first := if NotAfter(t[was], t[other]) then was else other;
    }
  }

  /** The statement always has a batch to take. */
  lemma {:induction false} BatchExists(t: Table, limit: nat, locked: set<string>, now: int) returns (ids: set<string>)
    ensures IsBatch(t, limit, locked, now, ids)
  {
    if limit == 0 {
      ids := {};
    } else {
      ids := BatchExists(t, limit - 1, locked, now);
      var rest := Available(t, locked, now) - ids;
      if rest != {} {
        var first := FirstOf(t, rest);
        ids := ids + {first};
      }
    }
  }

  class JobQueue {
    var rows: Table

    constructor ()
      ensures rows == map[]
    {
      rows := map[];
    }

    method Enqueue(id: string, priority: int, maxAttempts: int, delay: nat, now: int) returns (ok: bool)
      modifies this
      ensures ok <==> id !in old(rows)
      ensures rows == if ok then old(rows)[id := NewJob(priority, maxAttempts, delay, now)] else old(rows)
      ensures ok ==> rows[id] == Job(Pending, priority, 0, maxAttempts, now + delay, None, None, None)
    {
      ok := id !in rows;
      if ok {
        rows := rows[id := NewJob(priority, maxAttempts, delay, now)];
      }
    }

    method ReclaimStale(lease: int, now: int) returns (reclaimed: nat)
      modifies this
      ensures rows == ReclaimIn(old(rows), lease, now) && rows.Keys == old(rows).Keys
      ensures forall id :: id in rows ==>
                var j := old(rows)[id];
                if j.status == Running && j.lockedAt.Some? && j.lockedAt.value < now - lease then
                  rows[id] == Job(if j.attempts + 1 < j.maxAttempts then Pending else Dead, j.priority, j.attempts + 1,
                                  j.maxAttempts, now, None, None,
                                  if j.lastError.None? then Some("the worker holding this job stopped") else j.lastError)
                else rows[id] == j
      ensures reclaimed == |set id | id in old(rows) && Stale(old(rows)[id], lease, now)|
    {
      reclaimed := |set id | id in rows && Stale(rows[id], lease, now)|;
      rows := ReclaimIn(rows, lease, now);
    }

    method Claim(worker: string, limit: nat, locked: set<string>, now: int) returns (claimed: map<string, Claimed>)
      modifies this
      ensures IsBatch(old(rows), limit, locked, now, claimed.Keys) && rows == ClaimIn(old(rows), claimed.Keys, worker, now)
      ensures |claimed| <= limit && rows.Keys == old(rows).Keys
      ensures forall id :: id in claimed ==>
                && id in rows && id !in locked && old(rows)[id].status == Pending && old(rows)[id].runAt <= now
                && rows[id] == old(rows)[id].(status := Running, lockedBy := Some(worker), lockedAt := Some(now))
      ensures forall id :: id in rows && id !in claimed ==> rows[id] == old(rows)[id]
      ensures forall id, left ::
                && id in claimed && left in rows && left !in claimed && left !in locked
                && old(rows)[left].status == Pending && old(rows)[left].runAt <= now ==>
                  && old(rows)[id].priority >= old(rows)[left].priority
                  && (old(rows)[id].priority == old(rows)[left].priority ==> old(rows)[id].runAt <= old(rows)[left].runAt)
      ensures |claimed| < limit ==>
                forall left :: left in rows && left !in claimed && left !in locked && old(rows)[left].status == Pending ==>
                  old(rows)[left].runAt > now
      ensures forall id :: id in claimed ==> claimed[id] == Claimed(old(rows)[id].attempts, old(rows)[id].maxAttempts)
    {
      var available := Available(rows, locked, now);
      ghost var batch := BatchExists(rows, limit, locked, now);
      var ids :| ids <= available && IsBatch(rows, limit, locked, now, ids);
      claimed := map id | id in ids :: Claimed(rows[id].attempts, rows[id].maxAttempts);
      assert claimed.Keys == ids;
      rows := ClaimIn(rows, ids, worker, now);
    }

    /** `run_one`, once `perform` has answered. */
    method RunOne(id: string, c: Claimed, outcome: Option<string>, now: int)
      modifies this
      ensures rows == if id in old(rows) then old(rows)[id := Finish(old(rows)[id], c, outcome, now)] else old(rows)
      ensures id in old(rows) && outcome.None? ==>
                var j := old(rows)[id];
                rows[id] == Job(Done, j.priority, j.attempts + 1, j.maxAttempts, j.runAt, None, None, None)
      ensures id in old(rows) && outcome.Some? ==>
                var j, spent := old(rows)[id], c.attempts + 1 >= c.maxAttempts;
                rows[id] == Job(if spent then Dead else Pending, j.priority, c.attempts + 1, j.maxAttempts,
                                now + (if spent then 0 else 1_000_000 * BackoffSeconds(c.attempts + 1)), None, None, outcome)
    {
      if id !in rows {
        return;
      }
      match outcome {
        case None =>
          rows := rows[id := Succeed(rows[id])];
        case Some(message) =>
          rows := rows[id := Fail(rows[id], c, message, now)];
      }
    }

    /** The claimed jobs, each finished once and at its own time. */
    method RunClaimed(claimed: map<string, Claimed>, outcomes: map<string, string>, finishedAt: string -> int)
      requires claimed.Keys <= rows.Keys
      modifies this
      ensures rows.Keys == old(rows).Keys
      ensures forall id :: id in rows ==>
                rows[id] == if id in claimed then Finish(old(rows)[id], claimed[id], OutcomeOf(outcomes, id), finishedAt(id))
                            else old(rows)[id]
    {
      var rest := claimed.Keys;
      while rest != {}
        invariant rest <= claimed.Keys && rows.Keys == old(rows).Keys
        invariant forall id :: id in rows && (id !in claimed || id in rest) ==> rows[id] == old(rows)[id]
        invariant forall id :: id in claimed && id !in rest ==>
          rows[id] == Finish(old(rows)[id], claimed[id], OutcomeOf(outcomes, id), finishedAt(id))
        decreases rest
      {
        var id :| id in rest;
        RunOne(id, claimed[id], OutcomeOf(outcomes, id), finishedAt(id));
        rest := rest - {id};
      }
    }

    /** `run_due`, one pass with nothing in between: `outcomes` is what each job's handler answers, and each statement
        reads its own clock. */
    method RunDue(worker: string, limit: nat, lease: int, locked: set<string>, outcomes: map<string, string>,
                  reclaimedAt: int, claimedAt: int, finishedAt: string -> int)
      returns (ran: nat, claimed: map<string, Claimed>)
      modifies this
      ensures var t := ReclaimIn(old(rows), lease, reclaimedAt);
              && IsBatch(t, limit, locked, claimedAt, claimed.Keys) && ran == |claimed|
              && rows.Keys == t.Keys
              && (forall id :: id in t && id !in claimed ==> rows[id] == t[id])
              && (forall id :: id in claimed ==>
                    rows[id] == Finish(Held(t[id], worker, claimedAt), Claimed(t[id].attempts, t[id].maxAttempts),
                                       OutcomeOf(outcomes, id), finishedAt(id)))
    {
      var reclaimed := ReclaimStale(lease, reclaimedAt);
      ghost var t := rows;
      claimed := Claim(worker, limit, locked, claimedAt);
      ran := |claimed|;
      assert claimed.Keys <= rows.Keys;
      assert forall id :: id in claimed ==> rows[id] == Held(t[id], worker, claimedAt);
      RunClaimed(claimed, outcomes, finishedAt);
    }
  }
}
