/** Refresh-token rotation under concurrency (section 4.14.2 of RFC 9700): any number of callers, each
    SQL statement of `rotate` a separate step, and crashes anywhere in between. */
module SessionProtocol {
  import opened Wrappers
  import opened Sessions

  // ---------- The machine ----------

  /** Where a caller stands inside `rotate` (crates/auth/src/sessions.rs:127-194). */
  datatype Pc =
    | Minting(parent: Hash, session: Session)  // the claim is committed, the insert is not
    | Looking(token: Hash)                     // nothing was claimed; the row is read next
    | Revoking(family: string)                 // a retired row was read; the family is revoked next

  datatype Account = Account(collection: Option<string>, user: string)

  /** The table, the callers inside `rotate`, the clock, and what a recorder would have seen: each
      family's tokens in the order they were issued, the token each was exchanged for, and when each
      stops being accepted. */
  datatype State = State(
    rows: Table, callers: map<nat, Pc>, now: int,
    chains: map<string, seq<Hash>>, parent: map<Hash, Hash>, expiry: map<Hash, int>, owner: map<string, Account>)

  const START := State(map[], map[], 0, map[], map[], map[], map[])

  datatype Event =
    | Login(token: Hash, family: string, account: Account)
    | Claim(caller: nat, token: Hash)
    | Mint(caller: nat, token: Hash)
    | Look(caller: nat)
    | Replay(caller: nat)
    | Crash(caller: nat)
    | LogoutFamily(family: string)
    | LogoutAccount(account: Account)
    | Purge
    | Tick(seconds: nat)

  ghost predicate Issued(s: State, h: Hash) {
    exists f :: f in s.chains && h in s.chains[f]
  }

  /** When an event can happen. Generated tokens and family ids are new. */
  ghost predicate Enabled(s: State, e: Event) {
    match e
    case Login(h, f, a) => !Issued(s, h) && f !in s.chains && a.collection != Some("")
    case Claim(p, h) => p !in s.callers
    case Mint(p, h) => p in s.callers && s.callers[p].Minting? && !Issued(s, h)
    case Look(p) => p in s.callers && s.callers[p].Looking?
    case Replay(p) => p in s.callers && s.callers[p].Revoking?
    case Crash(p) => p in s.callers
    case LogoutFamily(_) => true
    case LogoutAccount(a) => a.collection != Some("")
    case Purge => true
    case Tick(_) => true
  }

  function OrEmpty(c: Option<string>): string {
    match c case Some(t) => t case None => ""
  }

  /** Insert a row and record it. */
  ghost function Insert(s: State, h: Hash, session: Session, chain: seq<Hash>): State {
    s.(rows := s.rows[h := NewRow(session, s.now)],
       chains := s.chains[session.family := chain],
       expiry := s.expiry[h := s.now + REFRESH_TOKEN_TTL])
  }

  ghost function Apply(s: State, e: Event): State
    requires Enabled(s, e)
  {
    match e
    case Login(h, f, a) =>
      Insert(s, h, Session(OrEmpty(a.collection), a.user, f, s.now + REFRESH_TOKEN_TTL, false), [h])
      .(owner := s.owner[f := a])
    case Claim(p, h) =>
      if Claimable(s.rows, h, s.now) then
        var row := s.rows[h].(revokedAt := Some(s.now));
        s.(rows := s.rows[h := row], callers := s.callers[p := Minting(h, FromRow(row))])
      else s.(callers := s.callers[p := Looking(h)])
    case Mint(p, h) =>
      var session := s.callers[p].session;
      var chain := if session.family in s.chains then s.chains[session.family] else [];
      Insert(s, h, session, chain + [h])
      .(callers := s.callers - {p}, parent := s.parent[h := s.callers[p].parent])
    case Look(p) =>
      var h := s.callers[p].token;
      if h in s.rows && s.rows[h].revokedAt.Some? then s.(callers := s.callers[p := Revoking(s.rows[h].family)])
      else s.(callers := s.callers - {p})
    case Replay(p) =>
      s.(rows := RevokeFamilyIn(s.rows, s.callers[p].family, s.now), callers := s.callers - {p})
    case Crash(p) => s.(callers := s.callers - {p})
    case LogoutFamily(f) => s.(rows := RevokeFamilyIn(s.rows, f, s.now))
    case LogoutAccount(a) => s.(rows := RevokeUserIn(s.rows, OrEmpty(a.collection), a.user, s.now))
    case Purge => s.(rows := PurgeIn(s.rows, s.now))
    case Tick(d) => s.(now := s.now + d)
  }

  /** A run: every event enabled where it happens. */
  ghost predicate Run(s: State, es: seq<Event>)
    decreases |es|
  {
    es == [] || (Enabled(s, es[0]) && Run(Apply(s, es[0]), es[1..]))
  }

  ghost function After(s: State, es: seq<Event>): State
    requires Run(s, es)
    decreases |es|
  {
    if es == [] then s else After(Apply(s, es[0]), es[1..])
  }

  // ---------- What every step keeps ----------

  ghost predicate Last(s: State, f: string, h: Hash) {
    f in s.chains && s.chains[f] != [] && h == s.chains[f][|s.chains[f]| - 1]
  }

  /** Only a family's newest token can be unrevoked. */
  ghost predicate RowsAreChained(s: State) {
    forall h :: h in s.rows ==>
      && s.rows[h].family in s.chains && h in s.chains[s.rows[h].family]
      && s.rows[h].family in s.owner && s.owner[s.rows[h].family] == Account(s.rows[h].collection, s.rows[h].user)
      && h in s.expiry && s.rows[h].expires == s.expiry[h]
      && (s.rows[h].revokedAt.None? ==> Last(s, s.rows[h].family, h))
  }

  /** A pending mint holds its family's newest token, which is retired. */
  ghost predicate MintsHoldTheTip(s: State) {
    forall p :: p in s.callers && s.callers[p].Minting? ==>
      var Minting(h, session) := s.callers[p];
      && Last(s, session.family, h) && !Unrevoked(s.rows, h)
      && session.family in s.owner && s.owner[session.family] == Account(NullIfEmpty(session.collection), session.user)
  }

  ghost predicate MintsAreApart(s: State) {
    forall p, q | p in s.callers && q in s.callers && s.callers[p].Minting? && s.callers[q].Minting? ::
      s.callers[p].session.family == s.callers[q].session.family ==> p == q
  }

  ghost predicate RevokersKnowTheirFamily(s: State) {
    forall p :: p in s.callers && s.callers[p].Revoking? ==> s.callers[p].family in s.chains
  }

  /** No token is issued twice, in one family or in two. */
  ghost predicate TokensAreDistinct(s: State) {
    forall f, g, i, j | f in s.chains && g in s.chains && 0 <= i < |s.chains[f]| && 0 <= j < |s.chains[g]| ::
      s.chains[f][i] == s.chains[g][j] ==> f == g && i == j
  }

  /** The exchange recorded for a token is with the one before it. */
  ghost predicate ParentsFollowTheChain(s: State) {
    && (forall f, i :: f in s.chains && 0 < i < |s.chains[f]| ==>
          s.chains[f][i] in s.parent && s.parent[s.chains[f][i]] == s.chains[f][i - 1])
    && (forall h :: h in s.parent ==> exists f, i :: f in s.chains && 0 < i < |s.chains[f]| && s.chains[f][i] == h)
  }

  /** A row is only ever removed after its token stopped being accepted. */
  ghost predicate UnexpiredTokensHaveRows(s: State) {
    forall f, i :: f in s.chains && 0 <= i < |s.chains[f]| ==>
      var h := s.chains[f][i];
      h in s.expiry && (s.expiry[h] >= s.now ==> h in s.rows && s.rows[h].family == f)
  }

  ghost predicate ChainsAreOwned(s: State) {
    forall f :: f in s.chains ==> s.chains[f] != [] && f in s.owner && s.owner[f].collection != Some("")
  }

  ghost predicate Inv(s: State) {
    && RowsAreChained(s) && MintsHoldTheTip(s) && MintsAreApart(s) && RevokersKnowTheirFamily(s)
    && TokensAreDistinct(s) && ParentsFollowTheChain(s) && UnexpiredTokensHaveRows(s) && ChainsAreOwned(s)
  }

  lemma InvInit()
    ensures Inv(START)
  {}

  /** A row goes in for a new token, at the tip of its family's chain. */
  ghost predicate Inserted(s: State, h: Hash, session: Session, s': State) {
    var f := session.family;
    var chain := if f in s.chains then s.chains[f] else [];
    && !Issued(s, h)
    && (forall k :: k in s.rows && s.rows[k].family == f ==> !Unrevoked(s.rows, k))
    && s'.rows == s.rows[h := NewRow(session, s.now)]
    && s'.chains == s.chains[f := chain + [h]]
    && s'.expiry == s.expiry[h := s.now + REFRESH_TOKEN_TTL]
    && s'.owner == s.owner && s'.now == s.now
    && f in s.owner && s.owner[f] == Account(NullIfEmpty(session.collection), session.user) && s.owner[f].collection != Some("")
    && s'.callers.Keys <= s.callers.Keys
    && (forall p :: p in s'.callers ==> s'.callers[p] == s.callers[p])
    && (forall p :: p in s'.callers && s'.callers[p].Minting? ==> s'.callers[p].session.family != f)
    && s'.parent == if chain == [] then s.parent else s.parent[h := chain[|chain| - 1]]
  }

  lemma InsertedTokens(s: State, h: Hash, session: Session, s': State)
    requires Inv(s) && Inserted(s, h, session, s')
    ensures forall f, i :: f in s.chains && 0 <= i < |s.chains[f]| ==> s.chains[f][i] != h
    ensures h !in s.rows
    ensures TokensAreDistinct(s')
  {
    forall f, i | f in s.chains && 0 <= i < |s.chains[f]| ensures s.chains[f][i] != h {}
    forall k | k in s.rows ensures k != h {
      assert s.rows[k].family in s.chains && k in s.chains[s.rows[k].family];
    }
  }

  lemma InsertedParents(s: State, h: Hash, session: Session, s': State)
    requires Inv(s) && Inserted(s, h, session, s')
    ensures ParentsFollowTheChain(s')
  {
    InsertedTokens(s, h, session, s');
    var f := session.family;
    var n := |s'.chains[f]| - 1;
    forall g, i | g in s'.chains && 0 < i < |s'.chains[g]|
      ensures s'.chains[g][i] in s'.parent && s'.parent[s'.chains[g][i]] == s'.chains[g][i - 1]
    {
      if g != f || i < n {
        assert g in s.chains && s'.chains[g][i] == s.chains[g][i] && s.chains[g][i] in s.parent;
      }
    }
    forall k | k in s'.parent ensures exists g, i :: g in s'.chains && 0 < i < |s'.chains[g]| && s'.chains[g][i] == k {
      if k in s.parent {
        var g, i :| g in s.chains && 0 < i < |s.chains[g]| && s.chains[g][i] == k;
        assert s'.chains[g][i] == k;
      } else {
        assert s'.chains[f][n] == k;
      }
    }
  }

  lemma InsertedRows(s: State, h: Hash, session: Session, s': State)
    requires Inv(s) && Inserted(s, h, session, s')
    ensures RowsAreChained(s')
  {
    InsertedTokens(s, h, session, s');
    var f := session.family;
    assert s'.chains[f][|s'.chains[f]| - 1] == h;
    forall k | k in s.rows
      ensures s.rows[k].family in s'.chains && k in s'.chains[s.rows[k].family]
      ensures s.rows[k].revokedAt.None? ==> Last(s', s.rows[k].family, k)
    {
      assert k in s.chains[s.rows[k].family];
      assert s.rows[k].family == f ==> !Unrevoked(s.rows, k);
      assert s.rows[k].revokedAt.None? ==> Last(s, s.rows[k].family, k);
    }
  }

  lemma InsertedMints(s: State, h: Hash, session: Session, s': State)
    requires Inv(s) && Inserted(s, h, session, s')
    ensures MintsHoldTheTip(s')
  {
    InsertedTokens(s, h, session, s');
    forall p | p in s'.callers && s'.callers[p].Minting?
      ensures Last(s', s'.callers[p].session.family, s'.callers[p].parent) && !Unrevoked(s'.rows, s'.callers[p].parent)
    {
      var Minting(tip, held) := s.callers[p];
      assert Last(s, held.family, tip) && held.family != session.family;
      assert tip == s.chains[held.family][|s.chains[held.family]| - 1];
    }
  }

  lemma InsertedExpiry(s: State, h: Hash, session: Session, s': State)
    requires Inv(s) && Inserted(s, h, session, s')
    ensures UnexpiredTokensHaveRows(s')
  {
    InsertedTokens(s, h, session, s');
    var f := session.family;
    var n := |s'.chains[f]| - 1;
    assert s'.chains[f][n] == h;
    forall g, i | g in s'.chains && 0 <= i < |s'.chains[g]| && (g != f || i < n)
      ensures g in s.chains && i < |s.chains[g]| && s'.chains[g][i] == s.chains[g][i]
    {}
  }

  lemma InsertKeepsInv(s: State, h: Hash, session: Session, s': State)
    requires Inv(s) && Inserted(s, h, session, s')
    ensures Inv(s')
  {
    InsertedTokens(s, h, session, s');
    InsertedParents(s, h, session, s');
    InsertedRows(s, h, session, s');
    InsertedMints(s, h, session, s');
    InsertedExpiry(s, h, session, s');
  }

  /** Retiring rows, and nothing else, keeps everything. */
  lemma RevokeKeepsInv(s: State, rows: Table)
    requires Inv(s)
    requires rows.Keys == s.rows.Keys
    requires forall h :: h in rows ==> rows[h] == s.rows[h] || exists t :: rows[h] == s.rows[h].(revokedAt := Some(t))
    ensures Inv(s.(rows := rows))
  {
    var s' := s.(rows := rows);
    forall h | h in rows
      ensures rows[h].family == s.rows[h].family && rows[h].expires == s.rows[h].expires
              && rows[h].collection == s.rows[h].collection && rows[h].user == s.rows[h].user
              && (rows[h].revokedAt.None? ==> s.rows[h].revokedAt.None?)
    {}
    assert RowsAreChained(s') by {
      forall h | h in rows ensures rows[h].revokedAt.None? ==> Last(s', rows[h].family, h) {
        if rows[h].revokedAt.None? { assert Last(s, s.rows[h].family, h); }
      }
    }
    assert MintsHoldTheTip(s') by {
      forall p | p in s.callers && s.callers[p].Minting? ensures !Unrevoked(rows, s.callers[p].parent)
                                                                 && Last(s', s.callers[p].session.family, s.callers[p].parent)
      {
        assert Last(s, s.callers[p].session.family, s.callers[p].parent);
      }
    }
    assert UnexpiredTokensHaveRows(s');
  }

  lemma CallersKeepInv(s: State, callers: map<nat, Pc>)
    requires Inv(s)
    requires forall p :: p in callers ==> (p in s.callers && callers[p] == s.callers[p])
                                          || callers[p].Looking? || (callers[p].Revoking? && callers[p].family in s.chains)
    ensures Inv(s.(callers := callers))
  {
    var s' := s.(callers := callers);
    assert forall f, h :: Last(s', f, h) <==> Last(s, f, h);
  }

  lemma MintKeepsInv(s: State, p: nat, h: Hash)
    requires Inv(s) && Enabled(s, Mint(p, h))
    ensures Inv(Apply(s, Mint(p, h)))
  {
    var session := s.callers[p].session;
    assert Last(s, session.family, s.callers[p].parent);
    forall k | k in s.rows && s.rows[k].family == session.family ensures !Unrevoked(s.rows, k) {
      assert s.rows[k].revokedAt.None? ==> Last(s, session.family, k);
    }
    InsertKeepsInv(s, h, session, Apply(s, Mint(p, h)));
  }

  lemma LoginKeepsInv(s: State, h: Hash, f: string, a: Account)
    requires Inv(s) && Enabled(s, Login(h, f, a))
    ensures Inv(Apply(s, Login(h, f, a)))
  {
    var session := Session(OrEmpty(a.collection), a.user, f, s.now + REFRESH_TOKEN_TTL, false);
    var s1 := s.(owner := s.owner[f := a]);
    LoginOwner(s, f, a);
    forall q | q in s.callers && s.callers[q].Minting? ensures s.callers[q].session.family != f {
      assert Last(s, s.callers[q].session.family, s.callers[q].parent);
    }
    forall k | k in s.rows ensures s.rows[k].family != f {}
    assert Issued(s1, h) <==> Issued(s, h);
    assert [] + [h] == [h];
    InsertKeepsInv(s1, h, session, Apply(s, Login(h, f, a)));
  }

  lemma LoginOwner(s: State, f: string, a: Account)
    requires Inv(s) && f !in s.chains
    ensures Inv(s.(owner := s.owner[f := a]))
  {
    var s' := s.(owner := s.owner[f := a]);
    assert forall g, h :: Last(s', g, h) <==> Last(s, g, h);
    assert RowsAreChained(s') by {
      forall h | h in s.rows ensures s.rows[h].family != f {}
    }
    assert MintsHoldTheTip(s') by {
      forall p | p in s.callers && s.callers[p].Minting? ensures s.callers[p].session.family != f {
        assert Last(s, s.callers[p].session.family, s.callers[p].parent);
      }
    }
  }

  /** A caller that has just retired the tip of a family holds it. */
  lemma HoldTheTip(s: State, p: nat, h: Hash, session: Session)
    requires Inv(s) && Last(s, session.family, h) && !Unrevoked(s.rows, h)
    requires session.family in s.owner && s.owner[session.family] == Account(NullIfEmpty(session.collection), session.user)
    requires forall q :: q in s.callers && s.callers[q].Minting? ==> s.callers[q].session.family != session.family
    ensures Inv(s.(callers := s.callers[p := Minting(h, session)]))
  {
    var s' := s.(callers := s.callers[p := Minting(h, session)]);
    assert forall f, k :: Last(s', f, k) <==> Last(s, f, k);
  }

  lemma ClaimableIsFree(s: State, h: Hash)
    requires Inv(s) && Unrevoked(s.rows, h)
    ensures var row := s.rows[h];
            && Last(s, row.family, h)
            && row.family in s.owner && s.owner[row.family] == Account(row.collection, row.user) && row.collection != Some("")
            && forall q :: q in s.callers && s.callers[q].Minting? ==> s.callers[q].session.family != row.family
  {
    var f := s.rows[h].family;
    assert Last(s, f, h);
    forall q | q in s.callers && s.callers[q].Minting? ensures s.callers[q].session.family != f {
      assert Last(s, s.callers[q].session.family, s.callers[q].parent);
    }
  }

  lemma RetireKeepsInv(s: State, h: Hash)
    requires Inv(s) && Unrevoked(s.rows, h)
    ensures Inv(s.(rows := s.rows[h := s.rows[h].(revokedAt := Some(s.now))]))
  {
    RevokeKeepsInv(s, s.rows[h := s.rows[h].(revokedAt := Some(s.now))]);
  }

  lemma ClaimKeepsInv(s: State, p: nat, h: Hash)
    requires Inv(s) && Enabled(s, Claim(p, h)) && Claimable(s.rows, h, s.now)
    ensures Inv(Apply(s, Claim(p, h)))
  {
    var row := s.rows[h].(revokedAt := Some(s.now));
    var s1 := s.(rows := s.rows[h := row]);
    ClaimableIsFree(s, h);
    RetireKeepsInv(s, h);
    assert Last(s1, row.family, h) && !Unrevoked(s1.rows, h);
    HoldTheTip(s1, p, h, FromRow(row));
    assert Apply(s, Claim(p, h)) == s1.(callers := s1.callers[p := Minting(h, FromRow(row))]);
  }

  lemma TimeKeepsInv(s: State, d: nat)
    requires Inv(s)
    ensures Inv(s.(now := s.now + d))
  {
    var s' := s.(now := s.now + d);
    assert forall f, h :: Last(s', f, h) <==> Last(s, f, h);
    assert UnexpiredTokensHaveRows(s') by {
      forall f, i | f in s.chains && 0 <= i < |s.chains[f]|
        ensures var h := s.chains[f][i]; h in s.expiry && (s.expiry[h] >= s'.now ==> h in s.rows && s.rows[h].family == f)
      {}
    }
  }

  lemma PurgeKeepsInv(s: State)
    requires Inv(s)
    ensures Inv(s.(rows := PurgeIn(s.rows, s.now)))
  {
    var s' := s.(rows := PurgeIn(s.rows, s.now));
    assert forall f, h :: Last(s', f, h) <==> Last(s, f, h);
    assert UnexpiredTokensHaveRows(s') by {
      forall f, i | f in s.chains && 0 <= i < |s.chains[f]| && s.expiry[s.chains[f][i]] >= s.now
        ensures s.chains[f][i] in s'.rows
      {
        assert s.rows[s.chains[f][i]].expires == s.expiry[s.chains[f][i]];
      }
    }
  }

  lemma LookKeepsInv(s: State, p: nat)
    requires Inv(s) && Enabled(s, Look(p))
    ensures Inv(Apply(s, Look(p)))
  {
    CallersKeepInv(s, Apply(s, Look(p)).callers);
  }

  lemma LeaveKeepsInv(s: State, p: nat)
    requires Inv(s)
    ensures Inv(s.(callers := s.callers - {p}))
  {
    CallersKeepInv(s, s.callers - {p});
  }

  lemma ReplayKeepsInv(s: State, p: nat)
    requires Inv(s) && Enabled(s, Replay(p))
    ensures Inv(Apply(s, Replay(p)))
  {
    var s1 := s.(rows := RevokeFamilyIn(s.rows, s.callers[p].family, s.now));
    RevokeKeepsInv(s, s1.rows);
    LeaveKeepsInv(s1, p);
  }

  lemma LogoutKeepsInv(s: State, e: Event)
    requires Inv(s) && Enabled(s, e) && (e.LogoutFamily? || e.LogoutAccount?)
    ensures Inv(Apply(s, e))
  {
    RevokeKeepsInv(s, Apply(s, e).rows);
  }

  lemma MissKeepsInv(s: State, p: nat, h: Hash)
    requires Inv(s) && Enabled(s, Claim(p, h)) && !Claimable(s.rows, h, s.now)
    ensures Inv(Apply(s, Claim(p, h)))
  {
    CallersKeepInv(s, s.callers[p := Looking(h)]);
  }

  lemma StepKeepsInv(s: State, e: Event)
    requires Inv(s) && Enabled(s, e)
    ensures Inv(Apply(s, e))
  {
    match e {
      case Login(h, f, a) => LoginKeepsInv(s, h, f, a);
      case Claim(p, h) => if Claimable(s.rows, h, s.now) { ClaimKeepsInv(s, p, h); } else { MissKeepsInv(s, p, h); }
      case Mint(p, h) => MintKeepsInv(s, p, h);
      case Look(p) => LookKeepsInv(s, p);
      case Replay(p) => ReplayKeepsInv(s, p);
      case Crash(p) => LeaveKeepsInv(s, p);
      case LogoutFamily(_) => LogoutKeepsInv(s, e);
      case LogoutAccount(_) => LogoutKeepsInv(s, e);
      case Purge => PurgeKeepsInv(s);
      case Tick(d) => TimeKeepsInv(s, d);
    }
  }

  lemma {:induction false} RunKeepsInv(s: State, es: seq<Event>)
    requires Inv(s) && Run(s, es)
    ensures Inv(After(s, es))
    decreases |es|
  {
    if es != [] {
      StepKeepsInv(s, es[0]);
      RunKeepsInv(Apply(s, es[0]), es[1..]);
    }
  }

  // ---------- One holder per family, and families are chains ----------

  ghost function UnrevokedRows(s: State, f: string): set<Hash> {
    set h | h in s.rows && s.rows[h].family == f && s.rows[h].revokedAt.None?
  }

  ghost function PendingMints(s: State, f: string): set<nat> {
    set p | p in s.callers && s.callers[p].Minting? && s.callers[p].session.family == f
  }

  lemma SingletonSize<T>(a: set<T>, x: T)
    requires forall y :: y in a ==> y == x
    ensures |a| <= 1
  {
    assert a <= {x};
    if x in a { assert a == {x}; } else { assert a == {}; }
  }

  /** In every run, a family's unrevoked rows and its rotations caught between claim and insert never
      number more than one together: at most one refresh token can be exchanged, or is about to be. */
  lemma AtMostOneHolder(es: seq<Event>, f: string)
    requires Run(START, es)
    ensures |UnrevokedRows(After(START, es), f)| + |PendingMints(After(START, es), f)| <= 1
  {
    InvInit();
    RunKeepsInv(START, es);
    var s := After(START, es);
    var live, mints := UnrevokedRows(s, f), PendingMints(s, f);
    assert forall h :: h in live ==> Last(s, f, h);
    assert forall p :: p in mints ==> Last(s, f, s.callers[p].parent) && s.callers[p].parent !in live;
    if p :| p in mints {
      SingletonSize(mints, p);
      assert forall h :: h in live ==> h == s.callers[p].parent;
      assert live == {};
    } else {
      assert mints == {};
      if h :| h in live {
        SingletonSize(live, h);
      }
    }
  }

  /** A family is a chain: each token was exchanged for at most one other, the exchanges of a family run
      along its tokens in the order they were issued, and never leave it. */
  lemma FamiliesAreChains(es: seq<Event>, a: Hash, b: Hash, f: string, i: int)
    requires Run(START, es)
    ensures var s := After(START, es);
            && (a in s.parent && b in s.parent && s.parent[a] == s.parent[b] ==> a == b)
            && (f in s.chains && 0 <= i < |s.chains[f]| ==>
                  if i == 0 then s.chains[f][i] !in s.parent
                  else s.chains[f][i] in s.parent && s.parent[s.chains[f][i]] == s.chains[f][i - 1])
  {
    InvInit();
    RunKeepsInv(START, es);
    var s := After(START, es);
    if a in s.parent && b in s.parent && s.parent[a] == s.parent[b] {
      var g, j :| g in s.chains && 0 < j < |s.chains[g]| && s.chains[g][j] == a;
      var g', j' :| g' in s.chains && 0 < j' < |s.chains[g']| && s.chains[g'][j'] == b;
      assert s.chains[g][j - 1] == s.chains[g'][j' - 1];
    }
    if f in s.chains && 0 < |s.chains[f]| {
      assert forall g, j :: g in s.chains && 0 < j < |s.chains[g]| ==> s.chains[g][j] != s.chains[f][0];
    }
  }

  // ---------- Replays and logouts ----------

  /** A family nobody can continue: no row to claim and no mint on its way. */
  ghost predicate Dead(s: State, f: string) {
    f in s.chains && UnrevokedRows(s, f) == {} && PendingMints(s, f) == {}
  }

  lemma DeadByInsert(s: State, e: Event, f: string)
    requires Inv(s) && Enabled(s, e) && Dead(s, f) && (e.Login? || e.Mint?)
    ensures Dead(Apply(s, e), f)
  {
    var s' := Apply(s, e);
    if e.Mint? { assert e.caller !in PendingMints(s, f); }
    assert UnrevokedRows(s', f) <= UnrevokedRows(s, f);
    assert PendingMints(s', f) <= PendingMints(s, f);
  }

  lemma DeadByClaim(s: State, p: nat, h: Hash, f: string)
    requires Enabled(s, Claim(p, h)) && Dead(s, f)
    ensures Dead(Apply(s, Claim(p, h)), f)
  {
    var s' := Apply(s, Claim(p, h));
    assert h !in UnrevokedRows(s, f);
    assert UnrevokedRows(s', f) <= UnrevokedRows(s, f);
    assert PendingMints(s', f) <= PendingMints(s, f);
  }

  lemma DeadByRest(s: State, e: Event, f: string)
    requires Enabled(s, e) && Dead(s, f) && !e.Login? && !e.Mint? && !e.Claim?
    ensures Dead(Apply(s, e), f)
  {
    var s' := Apply(s, e);
    assert UnrevokedRows(s', f) <= UnrevokedRows(s, f);
    assert PendingMints(s', f) <= PendingMints(s, f);
  }

  lemma DeadStep(s: State, e: Event, f: string)
    requires Inv(s) && Enabled(s, e) && Dead(s, f)
    ensures Dead(Apply(s, e), f)
  {
    if e.Claim? { DeadByClaim(s, e.caller, e.token, f); }
    else if e.Login? || e.Mint? { DeadByInsert(s, e, f); }
    else { DeadByRest(s, e, f); }
  }

  /** Dead families stay dead, whatever happens. */
  lemma {:induction false} DeadRun(s: State, es: seq<Event>, f: string)
    requires Inv(s) && Run(s, es) && Dead(s, f)
    ensures Dead(After(s, es), f)
    decreases |es|
  {
    if es != [] {
      DeadStep(s, es[0], f);
      StepKeepsInv(s, es[0]);
      DeadRun(Apply(s, es[0]), es[1..], f);
    }
  }

  lemma {:induction false} FiniteSetsMissAString(a: set<string>) returns (n: nat)
    ensures forall t :: t in a ==> |t| < n
  {
    if a == {} {
      n := 0;
    } else {
      var t :| t in a;
      n := FiniteSetsMissAString(a - {t});
      n := if |t| < n then n else |t| + 1;
      assert forall u :: u in a ==> u == t || u in a - {t};
    }
  }

  lemma SomeTokenIsNew(s: State) returns (h: Hash)
    requires Inv(s)
    ensures !Issued(s, h)
  {
    var n := FiniteSetsMissAString(s.expiry.Keys);
    h := seq(n, i => 'x');
    forall f, i | f in s.chains && 0 <= i < |s.chains[f]| ensures s.chains[f][i] != h {
      assert s.chains[f][i] in s.expiry.Keys;
    }
  }

  lemma ReplayLasts(s: State, p: nat)
    requires Inv(s) && Enabled(s, Replay(p)) && PendingMints(s, s.callers[p].family) == {}
    ensures var s' := Apply(s, Replay(p));
            forall es :: Run(s', es) ==> UnrevokedRows(After(s', es), s.callers[p].family) == {}
  {
    var f := s.callers[p].family;
    var s' := Apply(s, Replay(p));
    StepKeepsInv(s, Replay(p));
    assert PendingMints(s', f) <= PendingMints(s, f);
    assert Dead(s', f);
    forall es | Run(s', es) ensures UnrevokedRows(After(s', es), f) == {} {
      DeadRun(s', es, f);
    }
  }

  lemma ReplayUndone(s: State, p: nat)
    requires Inv(s) && Enabled(s, Replay(p)) && PendingMints(s, s.callers[p].family) != {}
    ensures var s' := Apply(s, Replay(p));
            exists es :: Run(s', es) && UnrevokedRows(After(s', es), s.callers[p].family) != {}
  {
    var f := s.callers[p].family;
    var s' := Apply(s, Replay(p));
    StepKeepsInv(s, Replay(p));
    var q :| q in PendingMints(s, f);
    assert q in PendingMints(s', f);
    var h := SomeTokenIsNew(s');
    MintRevives(s', q, f, h);
  }

  /** What a replay buys. Once a rotation has answered "already used", its family never has an unrevoked
      session again, in any continuation, if and only if no other caller stood between claim and insert
      in that family when it was revoked. */
  lemma ReplayEndsTheFamilyUnlessAMintIsPending(before: seq<Event>, p: nat)
    requires Run(START, before) && Enabled(After(START, before), Replay(p))
    ensures var s := After(START, before);
            var f := s.callers[p].family;
            var s' := Apply(s, Replay(p));
            (forall es :: Run(s', es) ==> UnrevokedRows(After(s', es), f) == {}) <==> PendingMints(s, f) == {}
  {
    InvInit();
    RunKeepsInv(START, before);
    var s := After(START, before);
    if PendingMints(s, s.callers[p].family) == {} { ReplayLasts(s, p); } else { ReplayUndone(s, p); }
  }

  /** The same of a logout of one family: it lasts, whatever comes, if and only if no rotation of the family was caught
      between claim and insert. */
  lemma FamilyLogoutLastsUnlessAMintIsPending(before: seq<Event>, f: string)
    requires Run(START, before) && f in After(START, before).chains
    ensures var s := After(START, before);
            var s' := Apply(s, LogoutFamily(f));
            (forall es :: Run(s', es) ==> UnrevokedRows(After(s', es), f) == {}) <==> PendingMints(s, f) == {}
  {
    InvInit();
    RunKeepsInv(START, before);
    var s := After(START, before);
    if PendingMints(s, f) == {} { FamilyLogoutLasts(s, f); } else { FamilyLogoutUndone(s, f); }
  }

  lemma FamilyLogoutLasts(s: State, f: string)
    requires Inv(s) && f in s.chains && PendingMints(s, f) == {}
    ensures var s' := Apply(s, LogoutFamily(f));
            forall es :: Run(s', es) ==> UnrevokedRows(After(s', es), f) == {}
  {
    var s' := Apply(s, LogoutFamily(f));
    StepKeepsInv(s, LogoutFamily(f));
    assert PendingMints(s', f) <= PendingMints(s, f);
    assert Dead(s', f);
    forall es | Run(s', es) ensures UnrevokedRows(After(s', es), f) == {} {
      DeadRun(s', es, f);
    }
  }

  lemma FamilyLogoutUndone(s: State, f: string)
    requires Inv(s) && f in s.chains && PendingMints(s, f) != {}
    ensures var s' := Apply(s, LogoutFamily(f));
            exists es :: Run(s', es) && UnrevokedRows(After(s', es), f) != {}
  {
    var s' := Apply(s, LogoutFamily(f));
    StepKeepsInv(s, LogoutFamily(f));
    var q :| q in PendingMints(s, f);
    assert q in PendingMints(s', f);
    var h := SomeTokenIsNew(s');
    MintRevives(s', q, f, h);
  }

  /** Any account, a superuser or a record, can log in at any time: its new token is live for thirty days and the only one
      of its family. */
  lemma LoginIssuesALiveToken(s: State, h: Hash, f: string, account: Account, next: nat)
    requires Inv(s) && !Issued(s, h) && f !in s.chains && account.collection != Some("") && next < 30 * 24 * 3600
    ensures Run(s, [Login(h, f, account)])
    ensures var s' := After(s, [Login(h, f, account)]);
            && UnrevokedRows(s', f) == {h} && Claimable(s'.rows, h, s'.now + next)
            && s'.rows[h].user == account.user && s'.rows[h].collection == account.collection
  {
    Compose(s, Login(h, f, account), []);
    assert [Login(h, f, account)] + [] == [Login(h, f, account)];
    assert RowsAreChained(s);
  }

  /** A caller can stop anywhere. One that stops between claim and insert takes its login with it: the old token is retired,
      no new one was issued, and the family never has an unrevoked session again. */
  lemma CrashBetweenClaimAndInsertEndsTheFamily(before: seq<Event>, p: nat)
    requires Run(START, before) && p in After(START, before).callers
    ensures var s := After(START, before);
            && Run(s, [Crash(p)]) && p !in After(s, [Crash(p)]).callers && After(s, [Crash(p)]).rows == s.rows
            && (s.callers[p].Minting? ==>
                  forall es :: Run(After(s, [Crash(p)]), es) ==>
                    UnrevokedRows(After(After(s, [Crash(p)]), es), s.callers[p].session.family) == {})
  {
    InvInit();
    RunKeepsInv(START, before);
    var s := After(START, before);
    var s' := Apply(s, Crash(p));
    Compose(s, Crash(p), []);
    assert [Crash(p)] + [] == [Crash(p)];
    assert After(s, [Crash(p)]) == s';
    if s.callers[p].Minting? {
      StepKeepsInv(s, Crash(p));
      LoneMintDies(s, p);
      forall es | Run(s', es) ensures UnrevokedRows(After(s', es), s.callers[p].session.family) == {} {
        DeadRun(s', es, s.callers[p].session.family);
      }
    }
  }

  lemma LoneMintDies(s: State, p: nat)
    requires Inv(s) && p in s.callers && s.callers[p].Minting?
    ensures Dead(Apply(s, Crash(p)), s.callers[p].session.family)
  {
    var f, s' := s.callers[p].session.family, Apply(s, Crash(p));
    var tip := s.callers[p].parent;
    assert MintsHoldTheTip(s) && RowsAreChained(s) && MintsAreApart(s);
    assert Last(s, f, tip) && tip !in UnrevokedRows(s', f);
    assert forall h :: h in UnrevokedRows(s', f) ==> Last(s, f, h) && h == tip;
    assert forall q :: q in PendingMints(s', f) ==> q in s.callers && q == p;
    assert p !in PendingMints(s', f);
  }

  lemma MintRevives(s: State, q: nat, f: string, h: Hash)
    requires q in PendingMints(s, f) && !Issued(s, h)
    ensures Run(s, [Mint(q, h)]) && h in UnrevokedRows(After(s, [Mint(q, h)]), f)
  {
    var es := [Mint(q, h)];
    var s' := Apply(s, Mint(q, h));
    assert es[1..] == [];
    assert Run(s', es[1..]) && After(s', es[1..]) == s';
    assert After(s, es) == s';
    assert h in s'.rows && s'.rows[h] == NewRow(s.callers[q].session, s.now);
  }

  /** A token that was already exchanged is caught when it is presented again if and only if its row is still there:
      then the family is revoked, and otherwise the rotation answers "not recognised" and changes nothing. */
  lemma ReplayIsCaughtExactly(before: seq<Event>, p: nat, f: string, i: int)
    requires Run(START, before)
    requires var s := After(START, before);
             p !in s.callers && f in s.chains && 0 <= i < |s.chains[f]| - 1
    ensures var s := After(START, before);
            var h := s.chains[f][i];
            && (Run(s, [Claim(p, h), Look(p), Replay(p)]) <==> h in s.rows)
            && (h in s.rows ==> UnrevokedRows(After(s, [Claim(p, h), Look(p), Replay(p)]), f) == {})
            && Run(s, [Claim(p, h), Look(p)])
            && (h !in s.rows ==> After(s, [Claim(p, h), Look(p)]) == s)
  {
    InvInit();
    RunKeepsInv(START, before);
    var s := After(START, before);
    var h := s.chains[f][i];
    if h in s.rows {
      assert !Last(s, f, h);
      CaughtReplay(s, p, h, f);
    } else {
      MissedReplay(s, p, h);
    }
    LookedUp(s, p, h);
  }

  lemma LookedUp(s: State, p: nat, h: Hash)
    requires p !in s.callers && !Unrevoked(s.rows, h)
    ensures Run(s, [Claim(p, h), Look(p)])
  {
    var s1 := Apply(s, Claim(p, h));
    Compose(s1, Look(p), []);
    Compose(s, Claim(p, h), [Look(p)]);
    assert [Claim(p, h), Look(p)] == [Claim(p, h)] + [Look(p)];
  }

  lemma MissedReplay(s: State, p: nat, h: Hash)
    requires p !in s.callers && h !in s.rows
    ensures !Run(s, [Claim(p, h), Look(p), Replay(p)])
    ensures Run(s, [Claim(p, h), Look(p)]) && After(s, [Claim(p, h), Look(p)]) == s
  {
    var es := [Claim(p, h), Look(p), Replay(p)];
    var s1 := Apply(s, es[0]);
    var s2 := Apply(s1, Look(p));
    assert s2.callers == s.callers;
    assert es[1..][0] == Look(p) && es[1..][1..][0] == Replay(p);
    assert !Run(s2, es[1..][1..]);
    Compose(s1, Look(p), []);
    Compose(s, Claim(p, h), [Look(p)]);
    assert [Claim(p, h), Look(p)] == [Claim(p, h)] + [Look(p)];
  }

  /** While a token has not expired its row is there, so its replay is caught whatever was purged. */
  lemma UnexpiredReplayIsCaught(before: seq<Event>, p: nat, f: string, i: int)
    requires Run(START, before)
    requires var s := After(START, before);
             p !in s.callers && f in s.chains && 0 <= i < |s.chains[f]| - 1
             && s.chains[f][i] in s.expiry && s.expiry[s.chains[f][i]] >= s.now
    ensures var s := After(START, before);
            var h := s.chains[f][i];
            && h in s.rows && Run(s, [Claim(p, h), Look(p), Replay(p)])
            && UnrevokedRows(After(s, [Claim(p, h), Look(p), Replay(p)]), f) == {}
  {
    InvInit();
    RunKeepsInv(START, before);
    ReplayIsCaughtExactly(before, p, f, i);
  }

  lemma CaughtReplay(s: State, p: nat, h: Hash, f: string)
    requires p !in s.callers && h in s.rows && s.rows[h].family == f && s.rows[h].revokedAt.Some?
    ensures var es := [Claim(p, h), Look(p), Replay(p)];
            Run(s, es) && UnrevokedRows(After(s, es), f) == {}
  {
    var s1 := Apply(s, Claim(p, h));
    var s2 := Apply(s1, Look(p));
    assert s2.callers[p] == Revoking(f);
    Compose(s2, Replay(p), []);
    Compose(s1, Look(p), [Replay(p)]);
    Compose(s, Claim(p, h), [Look(p), Replay(p)]);
    assert [Claim(p, h), Look(p), Replay(p)] == [Claim(p, h)] + [Look(p), Replay(p)];
  }

  /** `a` was exchanged for `b` ten seconds after its login. */
  const EXCHANGED := [Login("a", "f", Account(None, "u")), Tick(10), Claim(0, "a"), Mint(0, "b")]

  /** A purge after `a` expires, and then `a` presented again. */
  const REPLAYED := [Tick(REFRESH_TOKEN_TTL - 5), Purge, Claim(1, "a"), Look(1)]

  ghost function TwoTokens(): State {
    State(map["a" := Row(None, "u", "f", REFRESH_TOKEN_TTL, Some(10)), "b" := Row(None, "u", "f", REFRESH_TOKEN_TTL + 10, None)],
          map[], 10, map["f" := ["a", "b"]], map["b" := "a"], map["a" := REFRESH_TOKEN_TTL, "b" := REFRESH_TOKEN_TTL + 10],
          map["f" := Account(None, "u")])
  }

  lemma ExchangedRun()
    ensures Run(START, EXCHANGED) && After(START, EXCHANGED) == TwoTokens()
  {
    var s1 := Apply(START, EXCHANGED[0]);
    assert s1 == State(map["a" := Row(None, "u", "f", REFRESH_TOKEN_TTL, None)], map[], 0, map["f" := ["a"]], map[],
                       map["a" := REFRESH_TOKEN_TTL], map["f" := Account(None, "u")]);
    var s2 := Apply(s1, EXCHANGED[1]);
    var s3 := Apply(s2, EXCHANGED[2]);
    assert s3.callers == map[0 := Minting("a", Session("", "u", "f", REFRESH_TOKEN_TTL, true))];
    assert !Issued(s3, "b") by { assert s3.chains == map["f" := ["a"]]; }
    var s4 := Apply(s3, EXCHANGED[3]);
    assert ["a"] + ["b"] == ["a", "b"];
    assert s4 == TwoTokens();
    Compose(s3, EXCHANGED[3], []);
    Compose(s2, EXCHANGED[2], [EXCHANGED[3]]);
    Compose(s1, EXCHANGED[1], [EXCHANGED[2], EXCHANGED[3]]);
    Compose(START, EXCHANGED[0], [EXCHANGED[1], EXCHANGED[2], EXCHANGED[3]]);
  }

  lemma ReplayedRun()
    ensures Run(TwoTokens(), REPLAYED)
    ensures After(TwoTokens(), REPLAYED)
            == TwoTokens().(now := REFRESH_TOKEN_TTL + 5, rows := map["b" := Row(None, "u", "f", REFRESH_TOKEN_TTL + 10, None)])
  {
    var e0, e1, e2, e3 := Tick(REFRESH_TOKEN_TTL - 5), Purge, Claim(1, "a"), Look(1);
    var s0 := TwoTokens();
    var s1 := Apply(s0, e0);
    var s2 := Apply(s1, e1);
    assert s2.rows == map["b" := Row(None, "u", "f", REFRESH_TOKEN_TTL + 10, None)];
    var s3 := Apply(s2, e2);
    assert s3 == s2.(callers := map[1 := Looking("a")]);
    var s4 := Apply(s3, e3);
    assert s4.callers == map[];
    assert s4 == s2;
    Compose(s3, e3, []);
    Compose(s2, e2, [e3]);
    Compose(s1, e1, [e2, e3]);
    Compose(s0, e0, [e1, e2, e3]);
    assert REPLAYED == [e0] + [e1, e2, e3];
  }

  /** Expiry bounds that detection. After a purge the same replay is answered "not recognised" and the
      family lives on. */
  lemma PurgedReplayGoesUnnoticed()
    ensures Run(START, EXCHANGED) && Run(After(START, EXCHANGED), REPLAYED)
    ensures var s := After(After(START, EXCHANGED), REPLAYED);
            s.callers == map[] && "b" in UnrevokedRows(s, "f") && Claimable(s.rows, "b", s.now)
  {
    ExchangedRun();
    ReplayedRun();
  }

  lemma Compose(s: State, e: Event, es: seq<Event>)
    requires Enabled(s, e) && Run(Apply(s, e), es)
    ensures Run(s, [e] + es) && After(s, [e] + es) == After(Apply(s, e), es)
  {
    assert ([e] + es)[1..] == es;
  }

  lemma StepsExchange(s: State, p: nat, h: Hash, next: Hash)
    requires p !in s.callers && !Issued(s, next) && next !in s.rows && Claimable(s.rows, h, s.now)
    ensures var es := [Claim(p, h), Mint(p, next)];
            && Run(s, es) && After(s, es).rows == RotateIn(s.rows, h, next, s.now, s.now).0
            && After(s, es).callers == s.callers
  {
    var s1 := Apply(s, Claim(p, h));
    var s2 := Apply(s1, Mint(p, next));
    var retired := s.rows[h := s.rows[h].(revokedAt := Some(s.now))];
    assert s2.rows == retired[next := NewRow(FromRow(retired[h]), s.now)];
    Compose(s1, Mint(p, next), []);
    Compose(s, Claim(p, h), [Mint(p, next)]);
    assert [Claim(p, h), Mint(p, next)] == [Claim(p, h)] + [Mint(p, next)];
  }

  lemma StepsReplay(s: State, p: nat, h: Hash)
    requires p !in s.callers && h in s.rows && s.rows[h].revokedAt.Some?
    ensures var es := [Claim(p, h), Look(p), Replay(p)];
            && Run(s, es) && After(s, es).rows == RevokeFamilyIn(s.rows, s.rows[h].family, s.now)
            && After(s, es).callers == s.callers
  {
    var s1 := Apply(s, Claim(p, h));
    var s2 := Apply(s1, Look(p));
    assert s2.callers[p] == Revoking(s.rows[h].family);
    Compose(s2, Replay(p), []);
    Compose(s1, Look(p), [Replay(p)]);
    Compose(s, Claim(p, h), [Look(p), Replay(p)]);
    assert [Claim(p, h), Look(p), Replay(p)] == [Claim(p, h)] + [Look(p), Replay(p)];
  }

  lemma StepsRefuse(s: State, p: nat, h: Hash)
    requires p !in s.callers && !Claimable(s.rows, h, s.now) && (h in s.rows ==> s.rows[h].revokedAt.None?)
    ensures var es := [Claim(p, h), Look(p)];
            Run(s, es) && After(s, es).rows == s.rows && After(s, es).callers == s.callers
  {
    var s1 := Apply(s, Claim(p, h));
    Compose(s1, Look(p), []);
    Compose(s, Claim(p, h), [Look(p)]);
    assert [Claim(p, h), Look(p)] == [Claim(p, h)] + [Look(p)];
  }

  /** Run without interruption, the steps of a rotation are the `rotate` of the table model. */
  lemma StepsMakeARotation(s: State, p: nat, h: Hash, next: Hash) returns (es: seq<Event>)
    requires p !in s.callers && !Issued(s, next) && next !in s.rows
    ensures Run(s, es)
    ensures After(s, es).rows == RotateIn(s.rows, h, next, s.now, s.now).0
    ensures After(s, es).callers == s.callers
  {
    if Claimable(s.rows, h, s.now) {
      es := [Claim(p, h), Mint(p, next)];
      StepsExchange(s, p, h, next);
    } else if h in s.rows && s.rows[h].revokedAt.Some? {
      es := [Claim(p, h), Look(p), Replay(p)];
      StepsReplay(s, p, h);
    } else {
      es := [Claim(p, h), Look(p)];
      StepsRefuse(s, p, h);
    }
  }

  // ---------- Ending every session of an account ----------

  ghost function AccountRows(s: State, a: Account): set<Hash> {
    set h | h in s.rows && Account(s.rows[h].collection, s.rows[h].user) == a && s.rows[h].revokedAt.None?
  }

  ghost function AccountMints(s: State, a: Account): set<nat> {
    set p | p in s.callers && s.callers[p].Minting?
            && Account(NullIfEmpty(s.callers[p].session.collection), s.callers[p].session.user) == a
  }

  ghost predicate NoLogin(es: seq<Event>, a: Account) {
    forall i :: 0 <= i < |es| && es[i].Login? ==> es[i].account != a
  }

  lemma SignedOutByInsert(s: State, e: Event, a: Account)
    requires Inv(s) && Enabled(s, e) && ((e.Login? && e.account != a) || e.Mint?)
    requires AccountRows(s, a) == {} && AccountMints(s, a) == {}
    ensures AccountRows(Apply(s, e), a) == {} && AccountMints(Apply(s, e), a) == {}
  {
    var s' := Apply(s, e);
    if e.Mint? { assert e.caller !in AccountMints(s, a); }
    else { assert NullIfEmpty(OrEmpty(e.account.collection)) == e.account.collection; }
    assert AccountRows(s', a) <= AccountRows(s, a);
    assert AccountMints(s', a) <= AccountMints(s, a);
  }

  lemma SignedOutByClaim(s: State, p: nat, h: Hash, a: Account)
    requires Inv(s) && Enabled(s, Claim(p, h))
    requires AccountRows(s, a) == {} && AccountMints(s, a) == {}
    ensures AccountRows(Apply(s, Claim(p, h)), a) == {} && AccountMints(Apply(s, Claim(p, h)), a) == {}
  {
    var s' := Apply(s, Claim(p, h));
    assert h !in AccountRows(s, a);
    if Unrevoked(s.rows, h) { ClaimableIsFree(s, h); }
    assert AccountRows(s', a) <= AccountRows(s, a);
    assert AccountMints(s', a) <= AccountMints(s, a);
  }

  lemma SignedOutByRest(s: State, e: Event, a: Account)
    requires Enabled(s, e) && !e.Login? && !e.Mint? && !e.Claim?
    requires AccountRows(s, a) == {} && AccountMints(s, a) == {}
    ensures AccountRows(Apply(s, e), a) == {} && AccountMints(Apply(s, e), a) == {}
  {
    var s' := Apply(s, e);
    assert AccountRows(s', a) <= AccountRows(s, a);
    assert AccountMints(s', a) <= AccountMints(s, a);
  }

  lemma SignedOutStep(s: State, e: Event, a: Account)
    requires Inv(s) && Enabled(s, e) && (e.Login? ==> e.account != a)
    requires AccountRows(s, a) == {} && AccountMints(s, a) == {}
    ensures AccountRows(Apply(s, e), a) == {} && AccountMints(Apply(s, e), a) == {}
  {
    if e.Claim? { SignedOutByClaim(s, e.caller, e.token, a); }
    else if e.Login? || e.Mint? { SignedOutByInsert(s, e, a); }
    else { SignedOutByRest(s, e, a); }
  }

  lemma {:induction false} SignedOutRun(s: State, es: seq<Event>, a: Account)
    requires Inv(s) && Run(s, es) && NoLogin(es, a)
    requires AccountRows(s, a) == {} && AccountMints(s, a) == {}
    ensures AccountRows(After(s, es), a) == {}
    decreases |es|
  {
    if es != [] {
      var e := es[0];
      var s' := Apply(s, e);
      SignedOutStep(s, e, a);
      StepKeepsInv(s, e);
      assert NoLogin(es[1..], a);
      SignedOutRun(s', es[1..], a);
    }
  }

  lemma LogoutLasts(s: State, a: Account)
    requires Inv(s) && a.collection != Some("") && AccountMints(s, a) == {}
    ensures var s' := Apply(s, LogoutAccount(a));
            forall es :: Run(s', es) && NoLogin(es, a) ==> AccountRows(After(s', es), a) == {}
  {
    var s' := Apply(s, LogoutAccount(a));
    StepKeepsInv(s, LogoutAccount(a));
    LogoutSignsOut(s, a);
    forall es | Run(s', es) && NoLogin(es, a) ensures AccountRows(After(s', es), a) == {} {
      SignedOutRun(s', es, a);
    }
  }

  lemma LogoutUndone(s: State, a: Account)
    requires Inv(s) && a.collection != Some("") && AccountMints(s, a) != {}
    ensures var s' := Apply(s, LogoutAccount(a));
            exists es :: Run(s', es) && NoLogin(es, a) && AccountRows(After(s', es), a) != {}
  {
    var s' := Apply(s, LogoutAccount(a));
    StepKeepsInv(s, LogoutAccount(a));
    LogoutSignsOut(s, a);
    var q :| q in AccountMints(s, a);
    var h := SomeTokenIsNew(s');
    AccountMintRevives(s', q, a, h);
  }

  /** Ending an account's sessions (a password change) holds until the account signs in again, exactly
      when no rotation of that account was caught between claim and insert. Superusers, whose collection
      is NULL, are accounts like any other. */
  lemma LogoutLastsUntilLogin(before: seq<Event>, a: Account)
    requires Run(START, before) && a.collection != Some("")
    ensures var s := After(START, before);
            var s' := Apply(s, LogoutAccount(a));
            (forall es :: Run(s', es) && NoLogin(es, a) ==> AccountRows(After(s', es), a) == {}) <==> AccountMints(s, a) == {}
  {
    InvInit();
    RunKeepsInv(START, before);
    var s := After(START, before);
    if AccountMints(s, a) == {} { LogoutLasts(s, a); } else { LogoutUndone(s, a); }
  }

  lemma LogoutSignsOut(s: State, a: Account)
    requires Enabled(s, LogoutAccount(a))
    ensures AccountRows(Apply(s, LogoutAccount(a)), a) == {}
    ensures AccountMints(Apply(s, LogoutAccount(a)), a) == AccountMints(s, a)
  {
    assert NullIfEmpty(OrEmpty(a.collection)) == a.collection;
  }

  lemma AccountMintRevives(s: State, q: nat, a: Account, h: Hash)
    requires q in AccountMints(s, a) && !Issued(s, h)
    ensures Run(s, [Mint(q, h)]) && NoLogin([Mint(q, h)], a) && h in AccountRows(After(s, [Mint(q, h)]), a)
  {
    MintRevives(s, q, s.callers[q].session.family, h);
    var es := [Mint(q, h)];
    var s' := Apply(s, Mint(q, h));
    assert es[1..] == [] && After(s, es) == s';
    assert s'.rows[h] == NewRow(s.callers[q].session, s.now);
  }
}
