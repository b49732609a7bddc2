/** Scheduled jobs (crates/api/src/crons.rs): the claim as one call on the table, and the claim as nodes perform it,
    with row locks held across select, advance and commit. Evaluating a cron expression is abstract: it answers a
    moment strictly later than the clock, or nothing. */
module Crons {
  import opened Wrappers

  datatype Row = Row(enabled: bool, next: Option<int>)

  type Table = map<string, Row>

  /** `enabled and next_run_at <= now()`; a NULL compares as unknown. */
  predicate Due(r: Row, now: int) {
    r.enabled && r.next.Some? && r.next.value <= now
  }

  /** What the expression may answer at a moment. */
  predicate Later(next: Option<int>, now: int) {
    next.Some? ==> next.value > now
  }

  // ---------- One claim, alone ----------

  predicate Available(t: Table, locked: set<string>, now: int, id: string) {
    id in t && Due(t[id], now) && id !in locked
  }

  function NextOf(t: Table, id: string): int {
    if id in t && t[id].next.Some? then t[id].next.value else 0
  }

  /** `order by next_run_at limit $1 for update skip locked`. */
  ghost predicate IsBatch(t: Table, limit: nat, locked: set<string>, now: int, ids: seq<string>) {
    && (forall i :: 0 <= i < |ids| ==> Available(t, locked, now, ids[i]))
    && (forall i, j :: 0 <= i < j < |ids| ==> ids[i] != ids[j] && NextOf(t, ids[i]) <= NextOf(t, ids[j]))
    && |ids| <= limit
    && (|ids| < limit ==> forall id :: Available(t, locked, now, id) ==> id in ids)
    && forall i, id :: 0 <= i < |ids| && Available(t, locked, now, id) && id !in ids ==> NextOf(t, ids[i]) <= NextOf(t, id)
  }

  /** The batch in the rows' own fields: enabled, due and unlocked rows, the earliest first, and none left behind that
      should have gone before one that was taken. */
  lemma BatchInFields(t: Table, limit: nat, locked: set<string>, now: int, ids: seq<string>)
    requires IsBatch(t, limit, locked, now, ids)
    ensures forall i :: 0 <= i < |ids| ==>
              ids[i] in t && ids[i] !in locked && t[ids[i]].enabled && t[ids[i]].next.Some? && t[ids[i]].next.value <= now
    ensures forall i, j :: 0 <= i < j < |ids| ==> ids[i] != ids[j] && t[ids[i]].next.value <= t[ids[j]].next.value
    ensures forall id :: id in t && id !in ids && id !in locked && t[id].enabled && t[id].next.Some? && t[id].next.value <= now ==>
              |ids| == limit && forall i :: 0 <= i < |ids| ==> t[ids[i]].next.value <= t[id].next.value
    ensures |ids| <= limit
  {
    assert forall i :: 0 <= i < |ids| ==> Available(t, locked, now, ids[i]);
    forall id | id in t && id !in locked && t[id].enabled && t[id].next.Some? && t[id].next.value <= now
      ensures Available(t, locked, now, id)
    {}
  }

  lemma {:induction false} EarliestOf(t: Table, ids: set<string>) returns (first: string)
    requires ids != {}
    ensures first in ids && forall b :: b in ids ==> NextOf(t, first) <= NextOf(t, b)
  {
    first :| first in ids;
    var rest := ids - {first};
    assert forall b :: b in ids ==> b == first || b in rest;
    if rest != {} {
      var other := EarliestOf(t, rest);
      if NextOf(t, other) < NextOf(t, first) { first := other; }
    }
  }

  class CronTable {
    var rows: Table

    constructor (rows: Table)
      ensures this.rows == rows
    {
      this.rows := rows;
    }

    /** `ADVANCE_SCHEDULE`. */
    method Advance(id: string, next: Option<int>)
      modifies this
      ensures rows == if id in old(rows) then old(rows)[id := old(rows)[id].(next := next)] else old(rows)
    {
      if id in rows {
        rows := rows[id := rows[id].(next := next)];
      }
    }

    /** The select: the earliest due rows, one after the other. */
    method Select(limit: nat, locked: set<string>, now: int) returns (ids: seq<string>)
      ensures IsBatch(rows, limit, locked, now, ids)
    {
      ids := [];
      var left := set id | id in rows && Available(rows, locked, now, id);
      while |ids| < limit && left != {}
        invariant forall id :: id in left <==> Available(rows, locked, now, id) && id !in ids
        invariant forall i :: 0 <= i < |ids| ==> Available(rows, locked, now, ids[i])
        invariant forall i, j :: 0 <= i < j < |ids| ==> ids[i] != ids[j] && NextOf(rows, ids[i]) <= NextOf(rows, ids[j])
        invariant forall i, id :: 0 <= i < |ids| && id in left ==> NextOf(rows, ids[i]) <= NextOf(rows, id)
        invariant |ids| <= limit
        decreases left
      {
        ghost var witnessed := EarliestOf(rows, left);
        var first :| first in left && forall b :: b in left ==> NextOf(rows, first) <= NextOf(rows, b);
        ids := ids + [first];
        left := left - {first};
      }
    }

    /** `claim_due` with nothing in between: the earliest due rows within the limit are claimed, each moves to the
        moment its expression answers, no other row changes, and no claimed row is due again. */
    method ClaimDue(limit: nat, locked: set<string>, now: int, answers: map<string, int>) returns (claimed: seq<string>)
      requires forall id :: id in answers ==> answers[id] > now
      modifies this
      ensures IsBatch(old(rows), limit, locked, now, claimed)
      ensures rows == map id | id in old(rows) ::
                        if id in claimed then old(rows)[id].(next := if id in answers then Some(answers[id]) else None)
                        else old(rows)[id]
      ensures forall id :: id in claimed ==> id in rows && !Due(rows[id], now)
    {
      claimed := Select(limit, locked, now);
      ghost var t := rows;
      for i := 0 to |claimed|
        invariant rows == map id | id in t ::
                            if id in claimed[..i] then t[id].(next := if id in answers then Some(answers[id]) else None)
                            else t[id]
      {
        assert claimed[..i + 1] == claimed[..i] + [claimed[i]];
        assert Available(t, locked, now, claimed[i]);
        Advance(claimed[i], if claimed[i] in answers then Some(answers[claimed[i]]) else None);
      }
      assert claimed[..|claimed|] == claimed;
      forall id | id in claimed ensures id in t {
        var i :| 0 <= i < |claimed| && claimed[i] == id;
        assert Available(t, locked, now, claimed[i]);
      }
    }
  }

  // ---------- Many nodes ----------

  /** A committed claim: the occurrence it answers for, and the claim's own clock reading. */
  datatype Claim = Claim(id: string, occurrence: int, at: int)

  /** One node's transaction. `began` is what `now()` answers in it; `locked` the rows it selected, `moved` those it
      has advanced so far. */
  datatype Tx = Tx(began: int, locked: set<string>, moved: map<string, Option<int>>)

  /** A manual run or an edit that has computed the next moment and not written it yet. */
  datatype Draft = Draft(id: string, enabled: Option<bool>, next: Option<int>)

  datatype State = State(rows: Table, txs: map<string, Tx>, drafts: map<string, Draft>, log: seq<Claim>, now: int)

  datatype Event =
    | Begin(node: string)
    | Lock(node: string, ids: set<string>)
    | Advance(node: string, id: string, next: Option<int>)
    | Commit(node: string)
    | Abort(node: string)                 // an error, or a crash
    | Create(id: string, row: Row)
    | Delete(id: string)
    | Compute(op: string, draft: Draft)   // `run_now` and `update`, the first half
    | Write(op: string)                   // and the second
    | Tick(micros: nat)

  predicate Locked(s: State, id: string) {
    exists node :: node in s.txs && id in s.txs[node].locked
  }

  predicate Enabled(s: State, e: Event) {
    match e
    case Begin(n) => n !in s.txs
    case Lock(n, ids) =>
      && n in s.txs && s.txs[n].locked == {}
      && forall id :: id in ids ==> id in s.rows && Due(s.rows[id], s.txs[n].began) && !Locked(s, id)
    case Advance(n, id, next) => n in s.txs && id in s.txs[n].locked && id !in s.txs[n].moved && Later(next, s.now)
    case Commit(n) => n in s.txs && s.txs[n].moved.Keys == s.txs[n].locked
    case Abort(n) => n in s.txs
    case Create(id, row) => id !in s.rows && Later(row.next, s.now)
    case Delete(id) => id in s.rows && !Locked(s, id)
    case Compute(op, d) => op !in s.drafts && d.id in s.rows && Later(d.next, s.now)
    case Write(op) => op in s.drafts && !Locked(s, s.drafts[op].id)
    case Tick(_) => true
  }

  function Moved(rows: Table, moved: map<string, Option<int>>): Table {
    map id | id in rows :: if id in moved then rows[id].(next := moved[id]) else rows[id]
  }

  function Written(rows: Table, d: Draft): Table {
    if d.id !in rows then rows
    else rows[d.id := Row(if d.enabled.Some? then d.enabled.value else rows[d.id].enabled, d.next)]
  }

  /** The claims of a commit, in some order. */
  function ClaimsOf(rows: Table, ids: set<string>, at: int): set<Claim> {
    set id | id in ids :: Claim(id, NextOf(rows, id), at)
  }

  ghost function Listed(claims: set<Claim>): (list: seq<Claim>)
    ensures forall c :: c in list <==> c in claims
    ensures forall i, j :: 0 <= i < j < |list| ==> list[i] != list[j]
  {
    if claims == {} then [] else
      var c :| c in claims;
      [c] + Listed(claims - {c})
  }

  ghost function Apply(s: State, e: Event): State
    requires Enabled(s, e)
  {
    match e
    case Begin(n) => s.(txs := s.txs[n := Tx(s.now, {}, map[])])
    case Lock(n, ids) => s.(txs := s.txs[n := s.txs[n].(locked := ids)])
    case Advance(n, id, next) => s.(txs := s.txs[n := s.txs[n].(moved := s.txs[n].moved[id := next])])
    case Commit(n) =>
      s.(rows := Moved(s.rows, s.txs[n].moved), txs := s.txs - {n},
         log := s.log + Listed(ClaimsOf(s.rows, s.txs[n].locked, s.txs[n].began)))
    case Abort(n) => s.(txs := s.txs - {n})
    case Create(id, row) => s.(rows := s.rows[id := row])
    case Delete(id) => s.(rows := s.rows - {id})
    case Compute(op, d) => s.(drafts := s.drafts[op := d])
    case Write(op) => s.(rows := Written(s.rows, s.drafts[op]), drafts := s.drafts - {op})
    case Tick(d) => s.(now := s.now + d)
  }

  ghost predicate Run(s: State, es: seq<Event>)
    decreases |es|
  {
    es == [] || (Enabled(s, es[0]) && Run(Apply(s, es[0]), es[1..]))
  }

  ghost function After(s: State, es: seq<Event>): State
    requires Run(s, es)
    decreases |es|
  {
    if es == [] then s else After(Apply(s, es[0]), es[1..])
  }

  /** A manual run or edit writes the moment it computed before that moment comes. */
  predicate Prompt(s: State, e: Event)
    requires Enabled(s, e)
  {
    e.Write? ==> Later(s.drafts[e.op].next, s.now)
  }

  ghost predicate PromptRun(s: State, es: seq<Event>)
    decreases |es|
  {
    es == [] || (Enabled(s, es[0]) && Prompt(s, es[0]) && PromptRun(Apply(s, es[0]), es[1..]))
  }

  // ---------- What every prompt step keeps ----------

  predicate TxIsSound(s: State, n: string)
    requires n in s.txs
  {
    var tx := s.txs[n];
    && tx.began <= s.now && tx.moved.Keys <= tx.locked
    && (forall id :: id in tx.locked ==> id in s.rows && Due(s.rows[id], tx.began))
    && (forall id :: id in tx.moved ==> Later(tx.moved[id], tx.began))
  }

  /** No row is locked twice. */
  predicate LocksAreExclusive(s: State) {
    forall m, n :: m in s.txs && n in s.txs && m != n ==> s.txs[m].locked !! s.txs[n].locked
  }

  /** Claims lie in the past, each answers for an occurrence already due, and what a row that is switched on is
      scheduled for next is later than every claim of it. */
  predicate LogIsBehind(s: State) {
    forall k :: 0 <= k < |s.log| ==>
      var c := s.log[k];
      c.occurrence <= c.at <= s.now && (c.id in s.rows && s.rows[c.id].enabled ==> Later(s.rows[c.id].next, c.at))
  }

  /** The stretch from an occurrence to its claim does not meet that of a later claim. */
  predicate LogIsDisjoint(log: seq<Claim>) {
    forall i, j :: 0 <= i < j < |log| && log[i].id == log[j].id ==> log[i].at < log[j].occurrence
  }

  predicate Inv(s: State) {
    && (forall n :: n in s.txs ==> TxIsSound(s, n))
    && LocksAreExclusive(s)
    && LogIsBehind(s)
    && LogIsDisjoint(s.log)
  }

  lemma LockKeepsInv(s: State, e: Event)
    requires Inv(s) && Enabled(s, e) && (e.Begin? || e.Lock? || e.Advance?)
    ensures Inv(Apply(s, e))
  {
    var s' := Apply(s, e);
    assert TxIsSound(s', e.node) by {
      if e.node in s.txs { assert TxIsSound(s, e.node); }
    }
    forall n | n in s.txs && n != e.node ensures TxIsSound(s', n) { assert TxIsSound(s, n); }
    if e.Lock? {
      forall n | n in s.txs && n != e.node ensures e.ids !! s.txs[n].locked {
        assert forall id :: id in e.ids ==> !Locked(s, id);
      }
    }
  }

  lemma AddedClaims(s: State, n: string)
    requires Inv(s) && n in s.txs
    ensures var tx := s.txs[n];
            forall c :: c in Listed(ClaimsOf(s.rows, tx.locked, tx.began)) ==>
              c.id in tx.locked && c.occurrence == NextOf(s.rows, c.id) && c.at == tx.began && c.occurrence <= c.at
  {
    assert TxIsSound(s, n);
  }

  lemma CommitKeepsTxs(s: State, n: string)
    requires Inv(s) && Enabled(s, Commit(n))
    ensures forall m :: m in Apply(s, Commit(n)).txs ==> TxIsSound(Apply(s, Commit(n)), m)
  {
    var s' := Apply(s, Commit(n));
    assert TxIsSound(s, n);
    forall m | m in s'.txs ensures TxIsSound(s', m) {
      assert TxIsSound(s, m) && s.txs[m].locked !! s.txs[n].locked;
    }
  }

  lemma CommitKeepsLog(s: State, n: string)
    requires Inv(s) && Enabled(s, Commit(n))
    ensures LogIsBehind(Apply(s, Commit(n)))
  {
    var s', tx := Apply(s, Commit(n)), s.txs[n];
    var added := Listed(ClaimsOf(s.rows, tx.locked, tx.began));
    AddedClaims(s, n);
    assert TxIsSound(s, n);
    assert s'.log == s.log + added;
    forall k | 0 <= k < |s'.log|
      ensures var c := s'.log[k];
              c.occurrence <= c.at <= s'.now && (c.id in s'.rows && s'.rows[c.id].enabled ==> Later(s'.rows[c.id].next, c.at))
    {
      var c := s'.log[k];
      if k < |s.log| {
        assert c == s.log[k];
        if c.id in tx.locked { assert Due(s.rows[c.id], tx.began); }
      } else {
        assert c == added[k - |s.log|] && c in added;
      }
    }
  }

  lemma CommitKeepsDisjoint(s: State, n: string)
    requires Inv(s) && Enabled(s, Commit(n))
    ensures LogIsDisjoint(Apply(s, Commit(n)).log)
  {
    var tx := s.txs[n];
    var added := Listed(ClaimsOf(s.rows, tx.locked, tx.began));
    AddedClaims(s, n);
    assert TxIsSound(s, n);
    forall i, j | 0 <= i < |s.log| && 0 <= j < |added| && s.log[i].id == added[j].id
      ensures s.log[i].at < added[j].occurrence
    {
      assert added[j] in added && Due(s.rows[added[j].id], tx.began);
    }
    forall i, j | 0 <= i < j < |added| ensures added[i].id != added[j].id {
      assert added[i] in added && added[j] in added;
    }
    DisjointJoined(s.log, added);
  }

  lemma DisjointJoined(log: seq<Claim>, added: seq<Claim>)
    requires LogIsDisjoint(log)
    requires forall i, j :: 0 <= i < j < |added| ==> added[i].id != added[j].id
    requires forall i, j :: 0 <= i < |log| && 0 <= j < |added| && log[i].id == added[j].id ==> log[i].at < added[j].occurrence
    ensures LogIsDisjoint(log + added)
  {}

  lemma OtherStepKeepsInv(s: State, e: Event)
    requires Inv(s) && Enabled(s, e) && Prompt(s, e)
    requires e.Abort? || e.Create? || e.Delete? || e.Compute? || e.Write? || e.Tick?
    ensures Inv(Apply(s, e))
  {
    var s' := Apply(s, e);
    forall n | n in s'.txs ensures TxIsSound(s', n) {
      assert TxIsSound(s, n);
      assert forall id :: id in s.txs[n].locked ==> Locked(s, id);
    }
  }

  /** Every prompt step keeps the invariant. */
  lemma StepKeepsInv(s: State, e: Event)
    requires Inv(s) && Enabled(s, e) && Prompt(s, e)
    ensures Inv(Apply(s, e))
  {
    match e
    case Begin(_) => LockKeepsInv(s, e);
    case Lock(_, _) => LockKeepsInv(s, e);
    case Advance(_, _, _) => LockKeepsInv(s, e);
    case Commit(n) => CommitKeepsTxs(s, n); CommitKeepsLog(s, n); CommitKeepsDisjoint(s, n);
    case _ => OtherStepKeepsInv(s, e);
  }

  lemma {:induction false} RunKeepsInv(s: State, es: seq<Event>)
    requires Inv(s) && PromptRun(s, es)
    ensures Run(s, es) && Inv(After(s, es))
    decreases |es|
  {
    if es != [] {
      StepKeepsInv(s, es[0]);
      RunKeepsInv(Apply(s, es[0]), es[1..]);
    }
  }

  /** From a table without claims, whatever nodes, crashes, manual runs and edits do in between: two claims of a job
      answer for different occurrences, and every occurrence due by a claim is settled by it, however many were
      missed; a job once claimed is not due again at its claim time. */
  lemma NoOccurrenceIsClaimedTwice(s: State, es: seq<Event>)
    requires s.txs == map[] && s.log == [] && PromptRun(s, es)
    ensures Run(s, es)
    ensures var t := After(s, es);
            && (forall i, j | 0 <= i < j < |t.log| && t.log[i].id == t.log[j].id ::
                  t.log[i].occurrence <= t.log[i].at < t.log[j].occurrence <= t.log[j].at <= t.now)
            && (forall k | 0 <= k < |t.log| && t.log[k].id in t.rows :: !Due(t.rows[t.log[k].id], t.log[k].at))
            && (forall m, n | m in t.txs && n in t.txs && m != n :: t.txs[m].locked !! t.txs[n].locked)
  {
    RunKeepsInv(s, es);
  }

  // ---------- Manual runs, edits and deletions ----------

  /** A manual run leaves the switch as it is and an edit sets it; both write the moment they computed, to a row that is
      still there, and to no other. */
  lemma WriteTouchesItsRow(s: State, op: string, other: string)
    requires Enabled(s, Write(op))
    ensures var d, s' := s.drafts[op], Apply(s, Write(op));
            && s'.rows.Keys == s.rows.Keys && op !in s'.drafts && s'.log == s.log && s'.txs == s.txs
            && (d.id in s.rows ==>
                  && s'.rows[d.id].next == d.next
                  && s'.rows[d.id].enabled == (if d.enabled == None then s.rows[d.id].enabled else d.enabled.value))
            && (other in s.rows && other != d.id ==> s'.rows[other] == s.rows[other])
  {}

  /** A job that is neither there nor locked. */
  predicate Gone(s: State, id: string) {
    id !in s.rows && !Locked(s, id)
  }

  lemma GoneStep(s: State, e: Event, id: string)
    requires Gone(s, id) && Enabled(s, e) && (e.Create? ==> e.id != id)
    ensures Gone(Apply(s, e), id)
    ensures s.log <= Apply(s, e).log && forall k :: |s.log| <= k < |Apply(s, e).log| ==> Apply(s, e).log[k].id != id
  {
    var s' := Apply(s, e);
    assert forall n :: n in s.txs ==> id !in s.txs[n].locked;
    if e.Commit? {
      var added := Listed(ClaimsOf(s.rows, s.txs[e.node].locked, s.txs[e.node].began));
      assert s'.log == s.log + added;
      forall k | |s.log| <= k < |s'.log| ensures s'.log[k].id != id { assert added[k - |s.log|] in added; }
    }
  }

  /** A job once deleted is never claimed again, unless one of its id is created. */
  lemma DeletedJobsAreNotClaimed(s: State, id: string, es: seq<Event>)
    requires Enabled(s, Delete(id)) && Run(Apply(s, Delete(id)), es) && forall e :: e in es && e.Create? ==> e.id != id
    ensures var s' := After(Apply(s, Delete(id)), es);
            s.log <= s'.log && forall k :: |s.log| <= k < |s'.log| ==> s'.log[k].id != id
  {
    GoneStaysGone(Apply(s, Delete(id)), id, es);
  }

  lemma {:induction false} GoneStaysGone(s: State, id: string, es: seq<Event>)
    requires Gone(s, id) && Run(s, es) && forall e :: e in es && e.Create? ==> e.id != id
    ensures s.log <= After(s, es).log && forall k :: |s.log| <= k < |After(s, es).log| ==> After(s, es).log[k].id != id
    decreases |es|
  {
    if es != [] {
      var next, last := Apply(s, es[0]), After(s, es);
      assert es[0] in es;
      GoneStep(s, es[0], id);
      GoneStaysGone(next, id, es[1..]);
      forall k | |s.log| <= k < |last.log| ensures last.log[k].id != id {
        if k < |next.log| { assert last.log[k] == next.log[k]; }
      }
    }
  }

  // ---------- When promptness is needed ----------

  /** From here on no claim of a job ever meets an earlier one, as long as every write is prompt. */
  ghost predicate NeverTwice(s: State) {
    forall es :: Run(s, es) && PromptRun(s, es) ==> LogIsDisjoint(After(s, es).log)
  }

  /** A written row is switched off, or its next moment is later than every claim of its job. */
  predicate AheadOfClaims(s: State, id: string)
    requires id in s.rows
  {
    s.rows[id].enabled ==> forall k :: 0 <= k < |s.log| && s.log[k].id == id ==> Later(s.rows[id].next, s.log[k].at)
  }

  /** A late write does harm exactly when it leaves the row switched on at a moment some claim of the job has already
      passed: then, and only then, can an occurrence be claimed again even though every later write is prompt. */
  lemma WriteIsSafeExactly(s: State, op: string)
    requires Inv(s) && Enabled(s, Write(op)) && s.drafts[op].id in s.rows
    ensures s.drafts[op].id in Apply(s, Write(op)).rows
    ensures NeverTwice(Apply(s, Write(op))) <==> AheadOfClaims(Apply(s, Write(op)), s.drafts[op].id)
    ensures Prompt(s, Write(op)) ==> NeverTwice(Apply(s, Write(op)))
  {
    var s', id := Apply(s, Write(op)), s.drafts[op].id;
    if AheadOfClaims(s', id) {
      WriteKeepsInv(s, op);
      InvMeansNeverTwice(s');
    } else {
      var k :| 0 <= k < |s.log| && s.log[k].id == id && !Later(s'.rows[id].next, s.log[k].at);
      ClaimedAgain(s', id, k);
    }
  }

  lemma WriteKeepsInv(s: State, op: string)
    requires Inv(s) && Enabled(s, Write(op)) && s.drafts[op].id in s.rows
    requires AheadOfClaims(Apply(s, Write(op)), s.drafts[op].id)
    ensures Inv(Apply(s, Write(op)))
  {
    var s' := Apply(s, Write(op));
    forall n | n in s'.txs ensures TxIsSound(s', n) {
      assert TxIsSound(s, n);
      assert forall id :: id in s.txs[n].locked ==> Locked(s, id);
    }
  }

  lemma InvMeansNeverTwice(s: State)
    requires Inv(s)
    ensures NeverTwice(s)
  {
    forall es | Run(s, es) && PromptRun(s, es) ensures LogIsDisjoint(After(s, es).log) {
      RunKeepsInv(s, es);
    }
  }

  lemma {:induction false} LongerThanAll(names: set<string>) returns (n: nat)
    ensures forall t :: t in names ==> |t| < n
  {
    n := 0;
    if names != {} {
      var t :| t in names;
      n := LongerThanAll(names - {t});
      if n <= |t| { n := |t| + 1; }
      assert forall u :: u in names ==> u == t || u in names - {t};
    }
  }

  /** A row due at a moment already claimed is claimed once more by the next scheduler that looks. */
  lemma ClaimedAgain(s: State, id: string, k: nat)
    requires id in s.rows && s.rows[id].enabled && !Locked(s, id)
    requires k < |s.log| && s.log[k].id == id && !Later(s.rows[id].next, s.log[k].at) && s.log[k].at <= s.now
    ensures !NeverTwice(s)
  {
    var length := LongerThanAll(s.txs.Keys);
    var n := seq(length, i => 'n');
    var es := ClaimOne(n, id, s.now + 1, []);
    ClaimOneRuns(s, n, id, s.now + 1, []);
    ClaimOneIsPrompt(s, n, id, s.now + 1);
    var log := After(s, es).log;
    assert log[k] == s.log[k] && log[|s.log|] == Claim(id, s.rows[id].next.value, s.now);
    assert !LogIsDisjoint(log);
  }

  lemma Compose(s: State, e: Event, es: seq<Event>)
    requires Enabled(s, e) && Run(Apply(s, e), es)
    ensures Run(s, [e] + es) && After(s, [e] + es) == After(Apply(s, e), es)
  {
    assert ([e] + es)[1..] == es;
  }

  /** A scheduler's whole claim of one row, and what follows. */
  function ClaimOne(n: string, id: string, next: int, es: seq<Event>): seq<Event> {
    [Begin(n)] + ([Lock(n, {id})] + ([Advance(n, id, Some(next))] + ([Commit(n)] + es)))
  }

  ghost function Claimed(s: State, id: string, next: int): State
    requires id in s.rows && s.rows[id].next.Some?
  {
    s.(rows := s.rows[id := s.rows[id].(next := Some(next))], log := s.log + [Claim(id, s.rows[id].next.value, s.now)])
  }

  /** The same state with one more transaction. */
  function Opened(s: State, n: string, tx: Tx): State {
    s.(txs := s.txs[n := tx])
  }

  lemma CommitOne(s: State, n: string, id: string, next: int)
    requires n !in s.txs && id in s.rows && s.rows[id].next.Some?
    ensures var open := Opened(s, n, Tx(s.now, {id}, map[id := Some(next)]));
            Enabled(open, Commit(n)) && Apply(open, Commit(n)) == Claimed(s, id, next)
  {
    var c := Claim(id, s.rows[id].next.value, s.now);
    var open := Opened(s, n, Tx(s.now, {id}, map[id := Some(next)]));
    assert open.txs[n].moved.Keys == {id};
    assert ClaimsOf(s.rows, {id}, s.now) == {c};
    ListedOne(c);
    assert open.txs - {n} == s.txs;
    assert Moved(s.rows, open.txs[n].moved) == s.rows[id := s.rows[id].(next := Some(next))];
  }

  lemma ListedOne(c: Claim)
    ensures Listed({c}) == [c]
  {
    assert {c} - {c} == {};
    assert Listed({}) == [];
  }

  lemma ClaimSteps(s: State, n: string, id: string, next: int)
    requires n !in s.txs && id in s.rows && Due(s.rows[id], s.now) && !Locked(s, id) && next > s.now
    ensures var a := Opened(s, n, Tx(s.now, {}, map[]));
            var b := Opened(s, n, Tx(s.now, {id}, map[]));
            var c := Opened(s, n, Tx(s.now, {id}, map[id := Some(next)]));
            && Enabled(s, Begin(n)) && Apply(s, Begin(n)) == a
            && Enabled(a, Lock(n, {id})) && Apply(a, Lock(n, {id})) == b
            && Enabled(b, Advance(n, id, Some(next))) && Apply(b, Advance(n, id, Some(next))) == c
  {
    var a := Opened(s, n, Tx(s.now, {}, map[]));
    assert forall m :: m in a.txs && id in a.txs[m].locked ==> m in s.txs && id in s.txs[m].locked;
    assert a.txs[n := Tx(s.now, {id}, map[])] == Opened(s, n, Tx(s.now, {id}, map[])).txs;
  }

  lemma ClaimOneRuns(s: State, n: string, id: string, next: int, es: seq<Event>)
    requires n !in s.txs && id in s.rows && Due(s.rows[id], s.now) && !Locked(s, id) && next > s.now
    requires Run(Claimed(s, id, next), es)
    ensures Run(s, ClaimOne(n, id, next, es))
    ensures After(s, ClaimOne(n, id, next, es)) == After(Claimed(s, id, next), es)
  {
    var a := Opened(s, n, Tx(s.now, {}, map[]));
    var b := Opened(s, n, Tx(s.now, {id}, map[]));
    var c := Opened(s, n, Tx(s.now, {id}, map[id := Some(next)]));
    ClaimSteps(s, n, id, next);
    CommitOne(s, n, id, next);
    Compose(c, Commit(n), es);
    Compose(b, Advance(n, id, Some(next)), [Commit(n)] + es);
    Compose(a, Lock(n, {id}), [Advance(n, id, Some(next))] + ([Commit(n)] + es));
    Compose(s, Begin(n), [Lock(n, {id})] + ([Advance(n, id, Some(next))] + ([Commit(n)] + es)));
  }

  /** A run that writes nothing is prompt. */
  lemma {:induction false} WithoutWritesIsPrompt(s: State, es: seq<Event>)
    requires Run(s, es) && forall e :: e in es ==> !e.Write?
    ensures PromptRun(s, es)
    decreases |es|
  {
    if es != [] {
      assert es[0] in es;
      WithoutWritesIsPrompt(Apply(s, es[0]), es[1..]);
    }
  }

  lemma ClaimOneIsPrompt(s: State, n: string, id: string, next: int)
    requires Run(s, ClaimOne(n, id, next, []))
    ensures PromptRun(s, ClaimOne(n, id, next, []))
  {
    WithoutWritesIsPrompt(s, ClaimOne(n, id, next, []));
  }

  /** A job that is created switched on is claimed when its moment comes, by any scheduler that then looks. */
  lemma CreatedJobIsClaimedWhenDue(s: State, id: string, due: int, n: string, next: int)
    requires n !in s.txs && id !in s.rows && !Locked(s, id) && due > s.now && next > due
    ensures var es := [Create(id, Row(true, Some(due)))] + ([Tick(due - s.now)] + ClaimOne(n, id, next, []));
            Run(s, es) && After(s, es).log == s.log + [Claim(id, due, due)] && After(s, es).rows == s.rows[id := Row(true, Some(next))]
  {
    var e, tick := Create(id, Row(true, Some(due))), Tick(due - s.now);
    var s1 := Apply(s, e);
    var s2 := Apply(s1, tick);
    assert !Locked(s2, id);
    ClaimOneRuns(s2, n, id, next, []);
    assert s2.rows[id := Row(true, Some(next))] == s.rows[id := Row(true, Some(next))];
    Compose(s1, tick, ClaimOne(n, id, next, []));
    Compose(s, e, [tick] + ClaimOne(n, id, next, []));
  }

  /** One job, one manual run under way. */
  function Scene(next: int, drafts: map<string, Draft>, log: seq<Claim>, now: int): State {
    State(map["j" := Row(true, Some(next))], map[], drafts, log, now)
  }

  /** The manual run computes ten at nine and writes it at eleven; a scheduler claims ten in between. */
  function StaleWriteRun(): seq<Event> {
    [Compute("run", Draft("j", None, Some(10)))] + ([Tick(1)] + ClaimOne("n", "j", 20, StaleWrite()))
  }

  /** After that write ten is claimed a second time. */
  lemma StaleWriteClaimsTwice()
    ensures var s := Scene(10, map[], [], 9);
            Run(s, StaleWriteRun()) && After(s, StaleWriteRun()).log == [Claim("j", 10, 10), Claim("j", 10, 11)]
  {
    var d := map["run" := Draft("j", None, Some(10))];
    SecondClaim();
    assert Claimed(Scene(10, d, [], 10), "j", 20) == Scene(20, d, FIRST_CLAIM, 10);
    ClaimOneRuns(Scene(10, d, [], 10), "n", "j", 20, StaleWrite());
    var rest := ClaimOne("n", "j", 20, StaleWrite());
    Compose(Scene(10, d, [], 9), Tick(1), rest);
    assert Apply(Scene(10, map[], [], 9), Compute("run", d["run"])) == Scene(10, d, [], 9);
    Compose(Scene(10, map[], [], 9), Compute("run", d["run"]), [Tick(1)] + rest);
  }

  const FIRST_CLAIM := [Claim("j", 10, 10)]

  function StaleWrite(): seq<Event> {
    [Tick(1)] + ([Write("run")] + ClaimOne("n", "j", 20, []))
  }

  lemma SecondClaim()
    ensures var s := Scene(20, map["run" := Draft("j", None, Some(10))], FIRST_CLAIM, 10);
            Run(s, StaleWrite()) && After(s, StaleWrite()).log == [Claim("j", 10, 10), Claim("j", 10, 11)]
  {
    var d := map["run" := Draft("j", None, Some(10))];
    var second := ClaimOne("n", "j", 20, []);
    ClaimOneRuns(Scene(10, map[], FIRST_CLAIM, 11), "n", "j", 20, []);
    WriteStep(Scene(20, d, FIRST_CLAIM, 11), Scene(10, map[], FIRST_CLAIM, 11));
    Compose(Scene(20, d, FIRST_CLAIM, 11), Write("run"), second);
    Compose(Scene(20, d, FIRST_CLAIM, 10), Tick(1), [Write("run")] + second);
  }

  lemma WriteStep(s: State, t: State)
    requires exists log :: s == Scene(20, map["run" := Draft("j", None, Some(10))], log, 11) && t == Scene(10, map[], log, 11)
    ensures Enabled(s, Write("run")) && Apply(s, Write("run")) == t
  {
    assert s.drafts - {"run"} == map[];
  }

  // ---------- What is not committed ----------

  /** The state as it is without one node's transaction. */
  function Without(s: State, n: string): State {
    s.(txs := s.txs - {n})
  }

  predicate IsOf(e: Event, n: string) {
    (e.Begin? || e.Lock? || e.Advance? || e.Commit? || e.Abort?) && e.node == n
  }

  /** The run without one node's steps. */
  function Others(es: seq<Event>, n: string): seq<Event> {
    if es == [] then [] else (if IsOf(es[0], n) then [] else [es[0]]) + Others(es[1..], n)
  }

  lemma StepOfAnother(s: State, e: Event, n: string)
    requires Enabled(s, e) && !IsOf(e, n)
    ensures Enabled(Without(s, n), e) && Apply(Without(s, n), e) == Without(Apply(s, e), n)
  {
    var t := Without(s, n);
    assert forall id :: Locked(t, id) ==> Locked(s, id);
    assert Apply(t, e).txs == Without(Apply(s, e), n).txs;
  }

  lemma StepOfItsOwn(s: State, e: Event, n: string)
    requires Enabled(s, e) && IsOf(e, n) && !e.Commit?
    ensures Without(Apply(s, e), n) == Without(s, n)
  {
    assert Without(Apply(s, e), n).txs == Without(s, n).txs;
  }

  /** A node that does not commit leaves no trace: whatever it selected, locked and advanced, and wherever it
      stopped, the others' steps are possible without it and end in the same table, the same claims and the same
      transactions. */
  lemma {:induction false} UncommittedWorkIsInvisible(s: State, es: seq<Event>, n: string)
    requires Run(s, es) && Commit(n) !in es
    ensures Run(Without(s, n), Others(es, n)) && After(Without(s, n), Others(es, n)) == Without(After(s, es), n)
    decreases |es|
  {
    if es != [] {
      var e, rest := es[0], es[1..];
      UncommittedWorkIsInvisible(Apply(s, e), rest, n);
      if IsOf(e, n) {
        StepOfItsOwn(s, e, n);
        assert Others(es, n) == Others(rest, n);
      } else {
        StepOfAnother(s, e, n);
        var others := [e] + Others(rest, n);
        assert others[0] == e && others[1..] == Others(rest, n);
      }
    }
  }
}
