/** The `_sessions` table and the operations over it (crates/auth/src/sessions.rs), each SQL statement
    taken as one atomic step, and `AuthService::refresh` (crates/auth/src/service.rs:297-360). */
module Sessions {
  import opened Wrappers

  /** Thirty days, in seconds. */
  const REFRESH_TOKEN_TTL := 30 * 24 * 60 * 60

  /** The collection a superuser session answers to. */
  const SUPERUSERS := "_superusers"

  type Hash = string

  /** A row of `_sessions`, less its id, user agent and address. `None` is SQL's NULL. */
  datatype Row = Row(collection: Option<string>, user: string, family: string, expires: int, revokedAt: Option<int>)

  /** The table, by its unique `token_hash`. */
  type Table = map<Hash, Row>

  /** A row as the service reads it: a NULL collection becomes the empty string. */
  datatype Session = Session(collection: string, user: string, family: string, expires: int, revoked: bool)

  function FromRow(row: Row): Session {
    Session(match row.collection case Some(c) => c case None => "",
            row.user, row.family, row.expires, row.revokedAt.Some?)
  }

  /** `nullif(c, '')`. */
  function NullIfEmpty(c: string): Option<string> {
    if c == "" then None else Some(c)
  }

  predicate Unrevoked(t: Table, h: Hash) {
    h in t && t[h].revokedAt.None?
  }

  /** What the claim's `where` clause accepts. */
  predicate Claimable(t: Table, h: Hash, now: int) {
    Unrevoked(t, h) && t[h].expires > now
  }

  // ---------- One statement each ----------

  function NewRow(s: Session, now: int): Row {
    Row(NullIfEmpty(s.collection), s.user, s.family, now + REFRESH_TOKEN_TTL, None)
  }

  function RevokeWhere(t: Table, now: int, hit: Row -> bool): Table {
    map h | h in t :: if t[h].revokedAt.None? && hit(t[h]) then t[h].(revokedAt := Some(now)) else t[h]
  }

  function RevokeFamilyIn(t: Table, family: string, now: int): Table {
    RevokeWhere(t, now, (row: Row) => row.family == family)
  }

  /** `is not distinct from` equates NULL with NULL, which `=` does not. */
  function RevokeUserIn(t: Table, collection: string, user: string, now: int): Table {
    RevokeWhere(t, now, (row: Row) => row.user == user && row.collection == NullIfEmpty(collection))
  }

  function PurgeIn(t: Table, now: int): Table {
    map h | h in t && !(t[h].expires < now) :: t[h]
  }

  /** What `rotate` answers. */
  datatype Answer = Rotated(session: Session) | Unrecognised | AlreadyUsed(revoked: nat) | Expired | InsertRefused

  /** What `refresh` answers before it signs anything. */
  datatype Refreshed = WrongCollection | NotRecognised | AccountGone | Answered(answer: Answer)

  /** A collection as `refresh` needs it. */
  datatype Collection = Collection(id: string, name: string)

  /** Whether a session may be refreshed at a collection's endpoint. */
  predicate BelongsTo(s: Session, expected: string, collections: seq<Collection>) {
    if s.collection == "" then expected == SUPERUSERS
    else exists i :: 0 <= i < |collections| && collections[i] == Collection(s.collection, expected)
  }

  /** The superusers' endpoint is for sessions without a collection alone; any other is for the collection of its name. */
  predicate AtEndpoint(collection: string, expected: string, collections: seq<Collection>) {
    if collection == "" then expected == "_superusers"
    else exists i :: 0 <= i < |collections| && collections[i].id == collection && collections[i].name == expected
  }

  function Matching(t: Table, hit: Row -> bool): set<Hash> {
    set h | h in t && t[h].revokedAt.None? && hit(t[h])
  }

  /** The whole of `rotate` when nothing comes between its statements. */
  function RotateIn(t: Table, h: Hash, next: Hash, now: int, later: int): (Table, Answer) {
    if Claimable(t, h, now) then
      var retired := t[h := t[h].(revokedAt := Some(now))];
      if next in retired then (retired, InsertRefused)
      else
        var row := NewRow(FromRow(retired[h]), later);
        (retired[next := row], Rotated(FromRow(row)))
    else if h !in t then (t, Unrecognised)
    else if t[h].revokedAt.Some? then
      (RevokeFamilyIn(t, t[h].family, later), AlreadyUsed(|Matching(t, (row: Row) => row.family == t[h].family)|))
    else (t, Expired)
  }

  /** The account of a row, with a NULL and an empty collection as one. */
  function CollectionOf(row: Row): string {
    if row.collection.Some? then row.collection.value else ""
  }

  /** What a rotation leaves behind, answer by answer: a token is spent whenever it was live, the successor carries on the
      same login for another thirty days, a replay leaves nothing alive in the family, and the other refusals touch
      nothing. */
  lemma RotationSpendsExactlyOneToken(t: Table, h: Hash, next: Hash, now: int, later: int)
    requires now <= later
    ensures var (t', answer) := RotateIn(t, h, next, now, later);
            var live := h in t && t[h].revokedAt.None? && t[h].expires > now;
            && (answer == Unrecognised <==> h !in t)
            && (answer.AlreadyUsed? <==> h in t && t[h].revokedAt.Some?)
            && (answer == Expired <==> h in t && t[h].revokedAt.None? && t[h].expires <= now)
            && (answer == InsertRefused <==> live && next in t)
            && (answer.Rotated? <==> live && next !in t)
            && (live ==> h in t' && t'[h] == t[h].(revokedAt := Some(now)))
            && (answer.Rotated? ==>
                  && next in t' && t'[next].family == t[h].family && t'[next].user == t[h].user
                  && CollectionOf(t'[next]) == CollectionOf(t[h]) && t'[next].collection != Some("")
                  && t'[next].expires == later + 30 * 24 * 3600 && t'[next].revokedAt.None?
                  && answer.session == Session(CollectionOf(t[h]), t[h].user, t[h].family, t'[next].expires, false))
            && (live ==> forall k :: k != h && (k != next || next in t) ==> (k in t' <==> k in t) && (k in t ==> t'[k] == t[k]))
            && (answer.AlreadyUsed? ==>
                  && t'.Keys == t.Keys
                  && (forall k :: k in t ==>
                        t'[k] == if t[k].family == t[h].family && t[k].revokedAt.None? then t[k].(revokedAt := Some(later)) else t[k])
                  && answer.revoked == |set k | k in t && t[k].revokedAt.None? && t[k].family == t[h].family|)
            && (answer == Unrecognised || answer == Expired ==> t' == t)
  {
    if h in t && t[h].revokedAt.Some? {
      assert Matching(t, (row: Row) => row.family == t[h].family)
          == set k | k in t && t[k].revokedAt.None? && t[k].family == t[h].family;
    }
  }

  /** The empty collection means NULL, and no row with an empty one is meant. */
  predicate OfAccount(row: Row, collection: string, user: string) {
    row.user == user && if collection == "" then row.collection.None? else row.collection == Some(collection)
  }

  class SessionStore {
    var rows: Table
    /** SHA-256 of a token; the model assumes only that it is a function of the token. */
    const hashOf: string -> Hash

    constructor (hashOf: string -> Hash)
      ensures rows == map[] && this.hashOf == hashOf
    {
      rows := map[];
      this.hashOf := hashOf;
    }

    /** `issue_in_family`: the unique index on `token_hash` refuses a hash that is already there. */
    method IssueInFamily(token: string, s: Session, now: int) returns (issued: Option<Session>)
      modifies this`rows
      ensures issued.Some? <==> hashOf(token) !in old(rows)
      ensures rows == if issued.Some? then old(rows)[hashOf(token) := NewRow(s, now)] else old(rows)
      ensures issued.Some? ==> issued.value == FromRow(NewRow(s, now)) && Claimable(rows, hashOf(token), now)
      ensures issued.Some? ==>
                var row := rows[hashOf(token)];
                && row.collection == (if s.collection == "" then None else Some(s.collection)) && row.user == s.user
                && row.family == s.family && row.expires == now + 30 * 24 * 3600 && row.revokedAt.None?
    {
      var h := hashOf(token);
      if h in rows {
        return None;
      }
      rows := rows[h := NewRow(s, now)];
      issued := Some(FromRow(rows[h]));
    }

    /** `peek`: reads, and so changes nothing. */
    method Peek(token: string) returns (found: Option<Session>)
      ensures found.Some? <==> hashOf(token) in rows
      ensures found.Some? ==>
                var row := rows[hashOf(token)];
                found.value == Session(CollectionOf(row), row.user, row.family, row.expires, row.revokedAt.Some?)
    {
      var h := hashOf(token);
      found := if h in rows then Some(FromRow(rows[h])) else None;
    }

    /** The conditional claim of `rotate`: one statement that both decides and retires. */
    method Claim(token: string, now: int) returns (claimed: Option<Session>)
      modifies this`rows
      ensures claimed.Some? <==> Claimable(old(rows), hashOf(token), now)
      ensures claimed.Some? ==>
                && rows == old(rows)[hashOf(token) := old(rows)[hashOf(token)].(revokedAt := Some(now))]
                && claimed.value == FromRow(rows[hashOf(token)])
      ensures claimed.None? ==> rows == old(rows)
    {
      var h := hashOf(token);
      if h in rows && rows[h].revokedAt.None? && rows[h].expires > now {
        rows := rows[h := rows[h].(revokedAt := Some(now))];
        claimed := Some(FromRow(rows[h]));
      } else {
        claimed := None;
      }
    }

    method RevokeFamily(family: string, now: int) returns (revoked: nat)
      modifies this`rows
      ensures rows == RevokeFamilyIn(old(rows), family, now) && rows.Keys == old(rows).Keys
      ensures forall h :: h in rows ==>
                rows[h] == if old(rows)[h].family == family && old(rows)[h].revokedAt.None?
                           then old(rows)[h].(revokedAt := Some(now)) else old(rows)[h]
      ensures revoked == |set h | h in old(rows) && old(rows)[h].revokedAt.None? && old(rows)[h].family == family|
    {
      assert Matching(rows, (row: Row) => row.family == family)
          == set h | h in rows && rows[h].revokedAt.None? && rows[h].family == family;
      revoked := |Matching(rows, (row: Row) => row.family == family)|;
      rows := RevokeFamilyIn(rows, family, now);
    }

    method RevokeForUser(collection: string, user: string, now: int) returns (revoked: nat)
      modifies this`rows
      ensures rows == RevokeUserIn(old(rows), collection, user, now) && rows.Keys == old(rows).Keys
      ensures forall h :: h in rows ==>
                rows[h] == if OfAccount(old(rows)[h], collection, user) && old(rows)[h].revokedAt.None?
                           then old(rows)[h].(revokedAt := Some(now)) else old(rows)[h]
      ensures revoked == |set h | h in old(rows) && old(rows)[h].revokedAt.None? && OfAccount(old(rows)[h], collection, user)|
    {
      assert Matching(rows, (row: Row) => row.user == user && row.collection == NullIfEmpty(collection))
          == set h | h in rows && rows[h].revokedAt.None? && OfAccount(rows[h], collection, user);
      revoked := |Matching(rows, (row: Row) => row.user == user && row.collection == NullIfEmpty(collection))|;
      rows := RevokeUserIn(rows, collection, user, now);
    }

    method PurgeExpired(now: int) returns (purged: nat)
      modifies this`rows
      ensures rows == PurgeIn(old(rows), now)
      ensures forall h :: h in rows <==> h in old(rows) && old(rows)[h].expires >= now
      ensures forall h :: h in rows ==> rows[h] == old(rows)[h]
      ensures purged == |old(rows).Keys - rows.Keys|
    {
      var kept := PurgeIn(rows, now);
      purged := |rows.Keys - kept.Keys|;
      rows := kept;
    }

    /** `rotate`, run with nothing in between. `next` is the token the generator would return;
        `now` is read by the claim and `later` by the statement that follows it. */
    method Rotate(token: string, next: string, now: int, later: int) returns (answer: Answer)
      modifies this`rows
      ensures (rows, answer) == RotateIn(old(rows), hashOf(token), hashOf(next), now, later)
    {
      var claimed := Claim(token, now);
      if claimed.Some? {
        var issued := IssueInFamily(next, claimed.value, later);
        return if issued.Some? then Rotated(issued.value) else InsertRefused;
      }
      var found := Peek(token);
      if found.None? {
        return Unrecognised;
      }
      if found.value.revoked {
        ghost var family := found.value.family;
        assert Matching(rows, (row: Row) => row.family == family)
            == set h | h in rows && rows[h].revokedAt.None? && rows[h].family == family;
        var revoked := RevokeFamily(found.value.family, later);
        return AlreadyUsed(revoked);
      }
      answer := Expired;
    }

    /** `refresh`: the collection check runs before the rotation, so a token sent to the wrong endpoint is still whole
        afterwards. `accounts` says which accounts still exist. A live token at the right endpoint is answered with its
        successor exactly when its account, and for a record its collection, are still there. */
    method Refresh(token: string, next: string, collections: seq<Collection>, expected: Option<string>,
                   accounts: (string, string) -> bool, now: int, later: int)
      returns (outcome: Refreshed)
      modifies this`rows
      ensures outcome == NotRecognised <==> expected.Some? && hashOf(token) !in old(rows)
      ensures outcome == WrongCollection <==>
                && expected.Some? && hashOf(token) in old(rows)
                && !AtEndpoint(CollectionOf(old(rows)[hashOf(token)]), expected.value, collections)
      ensures outcome == WrongCollection || outcome == NotRecognised ==> rows == old(rows)
      ensures outcome == AccountGone <==>
                && hashOf(token) in old(rows)
                && var row := old(rows)[hashOf(token)];
                   && (expected.Some? ==> AtEndpoint(CollectionOf(row), expected.value, collections))
                   && row.revokedAt.None? && row.expires > now && hashOf(next) !in old(rows)
                   && ((CollectionOf(row) != "" && forall i :: 0 <= i < |collections| ==> collections[i].id != CollectionOf(row))
                       || !accounts(CollectionOf(row), row.user))
      ensures outcome.Answered? || outcome == AccountGone ==>
                rows == RotateIn(old(rows), hashOf(token), hashOf(next), now, later).0
      ensures outcome.Answered? ==> outcome.answer == RotateIn(old(rows), hashOf(token), hashOf(next), now, later).1
    {
      if expected.Some? {
        var found := Peek(token);
        if found.None? {
          return NotRecognised;
        }
        if !BelongsTo(found.value, expected.value, collections) {
          return WrongCollection;
        }
      }
      var answer := Rotate(token, next, now, later);
      if answer.Rotated? {
        var s := answer.session;
        if s.collection != "" && !(exists i :: 0 <= i < |collections| && collections[i].id == s.collection) {
          return AccountGone;
        }
        if !accounts(s.collection, s.user) {
          return AccountGone;
        }
      }
      outcome := Answered(answer);
    }
  }

  /** A superuser's session is the same session whether its collection is NULL or empty: it answers to
      the superuser endpoint alone, and `revoke_for_user` with an empty collection reaches it. */
  lemma NullAndEmptyAreTheSuperuser(row: Row, expected: string, collections: seq<Collection>, t: Table, h: Hash, now: int)
    requires row.collection == None && h in t && t[h] == row && row.revokedAt.None?
    ensures FromRow(row) == FromRow(row.(collection := Some("")))
    ensures BelongsTo(FromRow(row), expected, collections) <==> expected == SUPERUSERS
    ensures !Unrevoked(RevokeUserIn(t, FromRow(row).collection, row.user, now), h)
    ensures forall k :: k in t && t[k].collection.Some? ==> RevokeUserIn(t, "", row.user, now)[k] == t[k]
    ensures NewRow(FromRow(row), now).collection == row.collection
  {}
}
