/** Importing records into one table (crates/db/src/backup.rs:1388-1521): insert or update by id, a record at a time. */
module Records {
  import opened Wrappers
  import opened JsonModel

  /** A row holds one value per column, as JSON writes it. */
  type Row = map<string, Json>

  type Table = map<string, Row>

  /** What the database knows of a table: its columns, their defaults (NULL when there is none), how a JSON value
      becomes a value of a column, and the constraints on one row. */
  datatype Shape = Shape(columns: set<string>, defaults: Row, cast: (string, Json) -> Option<Json>, admits: Row -> bool)

  datatype RecordError = NotAnObject | NoId | Refused

  // ---------- One record ----------

  /** The keys the table has a column for. */
  function Declared(shape: Shape, f: Row): set<string> {
    set c | c in f && c in shape.columns
  }

  /** Every declared value has its column's type, and the id is there. */
  predicate Sendable(shape: Shape, f: Row) {
    && (forall c :: c in Declared(shape, f) ==> shape.cast(c, f[c]).Some?)
    && "id" in Declared(shape, f) && shape.cast("id", f["id"]).value.Str?
  }

  function Sent(shape: Shape, f: Row): Row
    requires Sendable(shape, f)
  {
    map c | c in Declared(shape, f) :: shape.cast(c, f[c]).value
  }

  function Key(shape: Shape, f: Row): string
    requires Sendable(shape, f)
  {
    shape.cast("id", f["id"]).value.text
  }

  function DefaultOf(shape: Shape, c: string): Json {
    if c in shape.defaults then shape.defaults[c] else Null
  }

  /** The row an insert proposes. */
  function Proposed(shape: Shape, f: Row): Row
    requires Sendable(shape, f)
  {
    map c | c in shape.columns :: if c in f then Sent(shape, f)[c] else DefaultOf(shape, c)
  }

  /** The row an update makes of one that is there; the id is never assigned. */
  function Updated(shape: Shape, row: Row, f: Row): Row
    requires Sendable(shape, f)
  {
    map c | c in row :: if c in Declared(shape, f) && c != "id" then Sent(shape, f)[c] else row[c]
  }

  /** `upsert`. `accepts` stands for the constraints across rows, which are looked at after the statement; the row
      proposed must be admissible even when another is there. */
  function Upsert(shape: Shape, accepts: Table -> bool, t: Table, record: Json): Result<Table, RecordError> {
    if !record.Obj? then Err(NotAnObject)
    else if "id" !in record.fields then Err(NoId)
    else if !Sendable(shape, record.fields) || !shape.admits(Proposed(shape, record.fields)) then Err(Refused)
    else
      var f, key := record.fields, Key(shape, record.fields);
      if key !in t then Checked(accepts, t[key := Proposed(shape, f)])
      else if Declared(shape, f) == {"id"} then Ok(t)
      else if !shape.admits(Updated(shape, t[key], f)) then Err(Refused)
      else Checked(accepts, t[key := Updated(shape, t[key], f)])
  }

  function Checked(accepts: Table -> bool, t: Table): Result<Table, RecordError> {
    if accepts(t) then Ok(t) else Err(Refused)
  }

  /** One record after another, up to the first failure. */
  function Applied(shape: Shape, accepts: Table -> bool, t: Table, records: seq<Json>): (Table, Option<RecordError>)
    decreases |records|
  {
    if records == [] then (t, None)
    else
      match Upsert(shape, accepts, t, records[0])
      case Err(e) => (t, Some(e))
      case Ok(t') => Applied(shape, accepts, t', records[1..])
  }

  // ---------- Last write wins ----------

  function KeyOf(shape: Shape, record: Json): Option<string> {
    if record.Obj? && "id" in record.fields && Sendable(shape, record.fields) then Some(Key(shape, record.fields)) else None
  }

  /** What a record writes into a cell. */
  function Writes(shape: Shape, record: Json, id: string, c: string): Option<Json> {
    if KeyOf(shape, record) == Some(id) && c in Declared(shape, record.fields) then Some(Sent(shape, record.fields)[c]) else None
  }

  /** What the last record that carries both the id and the column writes. */
  function LastWrite(shape: Shape, records: seq<Json>, id: string, c: string): Option<Json> {
    if records == [] then None
    else
      var later := LastWrite(shape, records[1..], id, c);
      if later.Some? then later else Writes(shape, records[0], id, c)
  }

  function KeysOf(shape: Shape, records: seq<Json>): set<string> {
    if records == [] then {}
    else (match KeyOf(shape, records[0]) case Some(k) => {k} case None => {}) + KeysOf(shape, records[1..])
  }

  /** A cell, or the column's default where there is no row. */
  function Cell(shape: Shape, t: Table, id: string, c: string): Json {
    if id in t && c in t[id] then t[id][c] else DefaultOf(shape, c)
  }

  predicate WellFormed(shape: Shape, t: Table) {
    forall id :: id in t ==> t[id].Keys == shape.columns && "id" in t[id] && t[id]["id"] == Str(id)
  }

  function Over(written: Option<Json>, before: Json): Json {
    if written.Some? then written.value else before
  }

  /** What one record does to a table, row by row. */
  lemma UpsertRows(shape: Shape, accepts: Table -> bool, t: Table, record: Json)
    requires WellFormed(shape, t) && Upsert(shape, accepts, t, record).Ok?
    ensures var t' := Upsert(shape, accepts, t, record).value;
            && KeyOf(shape, record).Some?
            && var key, f := KeyOf(shape, record).value, record.fields;
               && t' == t[key := if key in t then Updated(shape, t[key], f) else Proposed(shape, f)]
               && t'[key].Keys == shape.columns && t'[key]["id"] == Str(key)
  {
    var key, f := KeyOf(shape, record).value, record.fields;
    if key in t && Declared(shape, f) == {"id"} {
      assert Updated(shape, t[key], f) == t[key];
    }
  }

  lemma UpsertCells(shape: Shape, accepts: Table -> bool, t: Table, record: Json, id: string, c: string)
    requires WellFormed(shape, t) && Upsert(shape, accepts, t, record).Ok?
    requires c in shape.columns
    ensures Cell(shape, Upsert(shape, accepts, t, record).value, id, c)
         == Over(Writes(shape, record, id, c), Cell(shape, t, id, c))
  {
    UpsertRows(shape, accepts, t, record);
  }

  // ---------- When a record applies ----------

  /** A row of the table's columns with what the record declares, and elsewhere the default or NULL. */
  ghost predicate IsInserted(shape: Shape, f: Row, row: Row) {
    && row.Keys == shape.columns
    && forall c :: c in shape.columns ==>
         if c in f then shape.cast(c, f[c]) == Some(row[c])
         else row[c] == if c in shape.defaults then shape.defaults[c] else Null
  }

  /** The row there was, with what the record declares in every column but the id. */
  ghost predicate IsOverwritten(shape: Shape, f: Row, before: Row, row: Row) {
    && row.Keys == shape.columns
    && forall c :: c in shape.columns ==>
         if c in f && c != "id" then shape.cast(c, f[c]) == Some(row[c]) else c in before && row[c] == before[c]
  }

  /** Nothing but the id is declared. */
  ghost predicate OnlyId(shape: Shape, f: Row) {
    forall c :: c in f && c in shape.columns ==> c == "id"
  }

  /** The statement puts `row` under `key`: the row inserted, the one there overwritten, or the one there as it is when the
      record declares nothing but its id. The row it would insert is looked at in every case. */
  ghost predicate Puts(shape: Shape, accepts: Table -> bool, t: Table, f: Row, key: string, inserted: Row, row: Row) {
    && "id" in f && "id" in shape.columns && shape.cast("id", f["id"]) == Some(Str(key))
    && IsInserted(shape, f, inserted) && shape.admits(inserted)
    && if key !in t then row == inserted && accepts(t[key := row])
       else if OnlyId(shape, f) then row == t[key]
       else IsOverwritten(shape, f, t[key], row) && shape.admits(row) && accepts(t[key := row])
  }

  /** The tables a record's statement may leave. */
  ghost predicate Leaves(shape: Shape, accepts: Table -> bool, t: Table, f: Row, t': Table) {
    exists key, inserted, row :: Puts(shape, accepts, t, f, key, inserted, row) && t' == t[key := row]
  }

  lemma SameKeysSameRow(r: Row, s: Row)
    requires r.Keys == s.Keys && forall c :: c in r ==> r[c] == s[c]
    ensures r == s
  {}

  lemma OnlyIdIsDeclared(shape: Shape, f: Row)
    requires "id" in f && "id" in shape.columns
    ensures OnlyId(shape, f) <==> Declared(shape, f) == {"id"}
  {
    assert "id" in Declared(shape, f);
    if OnlyId(shape, f) { assert forall c :: c in Declared(shape, f) ==> c == "id"; }
    if Declared(shape, f) == {"id"} {
      forall c | c in f && c in shape.columns ensures c == "id" { assert c in Declared(shape, f); }
    }
  }

  lemma UpsertLeaves(shape: Shape, accepts: Table -> bool, t: Table, f: Row)
    requires WellFormed(shape, t) && "id" in f && Upsert(shape, accepts, t, Obj(f)).Ok?
    ensures Leaves(shape, accepts, t, f, Upsert(shape, accepts, t, Obj(f)).value)
  {
    var key, inserted := Key(shape, f), Proposed(shape, f);
    OnlyIdIsDeclared(shape, f);
    assert IsInserted(shape, f, inserted);
    var row := if key !in t then inserted else if OnlyId(shape, f) then t[key] else Updated(shape, t[key], f);
    assert key in t && OnlyId(shape, f) ==> t[key := row] == t;
    assert Puts(shape, accepts, t, f, key, inserted, row);
  }

  lemma PutsIsUpsert(shape: Shape, accepts: Table -> bool, t: Table, f: Row, key: string, inserted: Row, row: Row)
    requires WellFormed(shape, t) && Puts(shape, accepts, t, f, key, inserted, row)
    ensures Upsert(shape, accepts, t, Obj(f)) == Ok(t[key := row])
  {
    OnlyIdIsDeclared(shape, f);
    assert Sendable(shape, f) && Key(shape, f) == key;
    SameKeysSameRow(inserted, Proposed(shape, f));
    if key in t {
      if OnlyId(shape, f) {
        assert t[key := row] == t;
      } else {
        SameKeysSameRow(row, Updated(shape, t[key], f));
      }
    }
  }

  /** A record is refused as no object, as having no id, or by the table; and it applies exactly when there is a table its
      statement may leave, and then leaves that one. */
  lemma RecordAppliesExactly(shape: Shape, accepts: Table -> bool, t: Table, record: Json)
    requires WellFormed(shape, t)
    ensures var r := Upsert(shape, accepts, t, record);
            && (r == Err(NotAnObject) <==> !record.Obj?)
            && (r == Err(NoId) <==> record.Obj? && "id" !in record.fields)
            && (r.Ok? <==> record.Obj? && exists t' :: Leaves(shape, accepts, t, record.fields, t'))
            && (record.Obj? ==> forall t' :: Leaves(shape, accepts, t, record.fields, t') ==> r == Ok(t'))
            && (r.Ok? ==> Leaves(shape, accepts, t, record.fields, r.value))
  {
    if record.Obj? {
      var f := record.fields;
      if Upsert(shape, accepts, t, record).Ok? { UpsertLeaves(shape, accepts, t, f); }
      forall t' | Leaves(shape, accepts, t, f, t') ensures Upsert(shape, accepts, t, record) == Ok(t') {
        var key, inserted, row :| Puts(shape, accepts, t, f, key, inserted, row) && t' == t[key := row];
        PutsIsUpsert(shape, accepts, t, f, key, inserted, row);
      }
    }
  }

  /** A record with an id whose values all cast applies whenever no constraint objects, to a row that is there as well as
      to one that is not. */
  lemma UnconstrainedRecordApplies(shape: Shape, accepts: Table -> bool, t: Table, f: Row, key: string)
    requires "id" in f && "id" in shape.columns && shape.cast("id", f["id"]) == Some(Str(key))
    requires forall c :: c in f && c in shape.columns ==> shape.cast(c, f[c]).Some?
    requires (forall row :: shape.admits(row)) && forall u :: accepts(u)
    ensures Upsert(shape, accepts, t, Obj(f)).Ok? && key in Upsert(shape, accepts, t, Obj(f)).value
  {}

  /** Records apply in order up to the first that does not. */
  lemma {:induction false} AppliedStopsAtTheFirstFailure(shape: Shape, accepts: Table -> bool, t: Table, records: seq<Json>)
    returns (k: nat)
    ensures var (t', failed) := Applied(shape, accepts, t, records);
            && k <= |records| && Applied(shape, accepts, t, records[..k]) == (t', None)
            && (failed.None? <==> k == |records|)
            && (k < |records| ==> Upsert(shape, accepts, t', records[k]).Err? && failed == Some(Upsert(shape, accepts, t', records[k]).error))
    decreases |records|
  {
    k := 0;
    if records != [] && Upsert(shape, accepts, t, records[0]).Ok? {
      k := AppliedStopsAtTheFirstFailure(shape, accepts, Upsert(shape, accepts, t, records[0]).value, records[1..]);
      k := k + 1;
      assert records[..k][1..] == records[1..][..k - 1] && records[..k][0] == records[0];
    }
  }

  // ---------- Last write wins over whole imports ----------

  /** Every cell of `t'` is what the records last wrote there over `t`, and just their rows are added. */
  ghost predicate Follows(shape: Shape, t: Table, records: seq<Json>, t': Table) {
    && WellFormed(shape, t') && t'.Keys == t.Keys + KeysOf(shape, records)
    && (forall id, c | c in shape.columns ::
          Cell(shape, t', id, c) == Over(LastWrite(shape, records, id, c), Cell(shape, t, id, c)))
    && (forall id | id in t && id !in KeysOf(shape, records) :: t'[id] == t[id])
  }

  lemma FollowsStep(shape: Shape, accepts: Table -> bool, t: Table, records: seq<Json>, t': Table)
    requires records != [] && WellFormed(shape, t) && Upsert(shape, accepts, t, records[0]).Ok?
    requires Follows(shape, Upsert(shape, accepts, t, records[0]).value, records[1..], t')
    ensures Follows(shape, t, records, t')
  {
    var mid, key := Upsert(shape, accepts, t, records[0]).value, KeyOf(shape, records[0]);
    UpsertRows(shape, accepts, t, records[0]);
    assert mid.Keys == t.Keys + {key.value};
    forall id, c | c in shape.columns
      ensures Cell(shape, t', id, c) == Over(LastWrite(shape, records, id, c), Cell(shape, t, id, c))
    {
      UpsertCells(shape, accepts, t, records[0], id, c);
      assert Cell(shape, t', id, c) == Over(LastWrite(shape, records[1..], id, c), Cell(shape, mid, id, c));
    }
  }

  lemma UpsertKeepsForm(shape: Shape, accepts: Table -> bool, t: Table, record: Json)
    requires WellFormed(shape, t) && Upsert(shape, accepts, t, record).Ok?
    ensures WellFormed(shape, Upsert(shape, accepts, t, record).value)
  {
    UpsertRows(shape, accepts, t, record);
  }

  /** After a successful import every cell holds what the last record carrying its id and column says, else what it
      held, else the column's default; exactly the rows named are added, none is removed, and a row whose id no
      record carries is untouched. */
  lemma {:induction false} LastWriteWins(shape: Shape, accepts: Table -> bool, t: Table, records: seq<Json>)
    requires WellFormed(shape, t) && Applied(shape, accepts, t, records).1.None?
    ensures var t' := Applied(shape, accepts, t, records).0;
            && WellFormed(shape, t') && t'.Keys == t.Keys + KeysOf(shape, records)
            && (forall id, c | c in shape.columns ::
                  Cell(shape, t', id, c) == Over(LastWrite(shape, records, id, c), Cell(shape, t, id, c)))
            && (forall id | id in t && id !in KeysOf(shape, records) :: t'[id] == t[id])
    decreases |records|
  {
    var t' := Applied(shape, accepts, t, records).0;
    if records != [] {
      var mid := Upsert(shape, accepts, t, records[0]).value;
      UpsertKeepsForm(shape, accepts, t, records[0]);
      LastWriteWins(shape, accepts, mid, records[1..]);
      assert Follows(shape, mid, records[1..], t');
      FollowsStep(shape, accepts, t, records, t');
    }
  }

  lemma SameCells(shape: Shape, t: Table, u: Table)
    requires WellFormed(shape, t) && WellFormed(shape, u) && t.Keys == u.Keys
    requires forall id, c | id in t && c in shape.columns :: Cell(shape, t, id, c) == Cell(shape, u, id, c)
    ensures t == u
  {
    forall id | id in t ensures t[id] == u[id] { SameRow(shape, t, u, id); }
  }

  lemma SameRow(shape: Shape, t: Table, u: Table, id: string)
    requires id in t && id in u && t[id].Keys == u[id].Keys == shape.columns
    requires forall c :: c in shape.columns ==> Cell(shape, t, id, c) == Cell(shape, u, id, c)
    ensures t[id] == u[id]
  {}

  /** Applying the same records again changes nothing. */
  lemma ReapplyingChangesNothing(shape: Shape, accepts: Table -> bool, again: Table -> bool, t: Table, records: seq<Json>)
    requires WellFormed(shape, t) && Applied(shape, accepts, t, records).1.None?
    requires Applied(shape, again, Applied(shape, accepts, t, records).0, records).1.None?
    ensures Applied(shape, again, Applied(shape, accepts, t, records).0, records).0 == Applied(shape, accepts, t, records).0
  {
    var t' := Applied(shape, accepts, t, records).0;
    LastWriteWins(shape, accepts, t, records);
    LastWriteWins(shape, again, t', records);
    var t'' := Applied(shape, again, t', records).0;
    forall id, c | id in t'' && c in shape.columns ensures Cell(shape, t'', id, c) == Cell(shape, t', id, c) {
      assert Cell(shape, t', id, c) == Over(LastWrite(shape, records, id, c), Cell(shape, t, id, c));
    }
    SameCells(shape, t'', t');
  }

  // ---------- When the second pass succeeds ----------

  predicate DistinctKeys(shape: Shape, records: seq<Json>) {
    forall i, j :: 0 <= i < j < |records| ==> KeyOf(shape, records[i]) != KeyOf(shape, records[j])
  }

  /** The record was applied and the table still shows it. */
  predicate Reapplies(shape: Shape, accepts: Table -> bool, t: Table, record: Json) {
    Upsert(shape, accepts, t, record) == Ok(t)
  }

  lemma {:induction false} KeysOfMembers(shape: Shape, records: seq<Json>, k: string)
    requires k in KeysOf(shape, records)
    ensures exists i :: 0 <= i < |records| && KeyOf(shape, records[i]) == Some(k)
  {
    if KeyOf(shape, records[0]) != Some(k) {
      KeysOfMembers(shape, records[1..], k);
      var i :| 0 <= i < |records| - 1 && KeyOf(shape, records[1..][i]) == Some(k);
      assert KeyOf(shape, records[i + 1]) == Some(k);
    }
  }

  /** Whether a record, applied to a table that holds its row, is more than its id. */
  predicate Effective(shape: Shape, record: Json) {
    record.Obj? && Declared(shape, record.fields) != {"id"}
  }

  /** A record applies without effect in any later table with the same row. */
  lemma ReappliesAfter(shape: Shape, accepts: Table -> bool, t: Table, record: Json, later: Table)
    requires WellFormed(shape, t) && Upsert(shape, accepts, t, record).Ok?
    requires KeyOf(shape, record).Some? && KeyOf(shape, record).value in later
    requires later[KeyOf(shape, record).value] == Upsert(shape, accepts, t, record).value[KeyOf(shape, record).value]
    requires Effective(shape, record) ==> accepts(later)
    ensures Reapplies(shape, accepts, later, record)
  {
    var f, key := record.fields, KeyOf(shape, record).value;
    var row := later[key];
    if Effective(shape, record) {
      assert shape.admits(row);
      assert Updated(shape, row, f) == row by {
        forall c | c in row ensures Updated(shape, row, f)[c] == row[c] {}
      }
      assert later[key := row] == later;
    }
  }

  lemma {:induction false} AcceptedAtTheEnd(shape: Shape, accepts: Table -> bool, t: Table, records: seq<Json>)
    requires Applied(shape, accepts, t, records).1.None?
    ensures accepts(t) || (exists i :: 0 <= i < |records| && Effective(shape, records[i])) ==>
              accepts(Applied(shape, accepts, t, records).0)
    decreases |records|
  {
    if records != [] {
      var t' := Upsert(shape, accepts, t, records[0]).value;
      AcceptedAtTheEnd(shape, accepts, t', records[1..]);
      assert t' == t || accepts(t');
      if i :| 0 <= i < |records| && Effective(shape, records[i]) {
        if i > 0 { assert Effective(shape, records[1..][i - 1]); } else { assert accepts(t'); }
      }
    }
  }

  /** Whatever was applied, the constraints accepted what it left, unless it left the table as it was. */
  lemma {:induction false} WhatIsLeftIsAccepted(shape: Shape, accepts: Table -> bool, t: Table, records: seq<Json>)
    ensures Applied(shape, accepts, t, records).0 == t || accepts(Applied(shape, accepts, t, records).0)
    decreases |records|
  {
    if records != [] && Upsert(shape, accepts, t, records[0]).Ok? {
      WhatIsLeftIsAccepted(shape, accepts, Upsert(shape, accepts, t, records[0]).value, records[1..]);
    }
  }

  lemma {:induction false} AllReapplyAfter(shape: Shape, accepts: Table -> bool, t: Table, records: seq<Json>, i: nat)
    requires WellFormed(shape, t) && Applied(shape, accepts, t, records).1.None? && DistinctKeys(shape, records)
    requires i < |records|
    ensures Reapplies(shape, accepts, Applied(shape, accepts, t, records).0, records[i])
    decreases |records|
  {
    if i > 0 {
      UpsertKeepsForm(shape, accepts, t, records[0]);
      AllReapplyAfter(shape, accepts, Upsert(shape, accepts, t, records[0]).value, records[1..], i - 1);
    } else {
      FirstReappliesAfter(shape, accepts, t, records);
    }
  }

  lemma FirstReappliesAfter(shape: Shape, accepts: Table -> bool, t: Table, records: seq<Json>)
    requires WellFormed(shape, t) && Applied(shape, accepts, t, records).1.None? && DistinctKeys(shape, records)
    requires records != []
    ensures Reapplies(shape, accepts, Applied(shape, accepts, t, records).0, records[0])
  {
    var mid := Upsert(shape, accepts, t, records[0]).value;
    UpsertRows(shape, accepts, t, records[0]);
    UpsertKeepsForm(shape, accepts, t, records[0]);
    LastWriteWins(shape, accepts, mid, records[1..]);
    FirstKeyIsAlone(shape, records);
    if Effective(shape, records[0]) { AcceptedAtTheEnd(shape, accepts, t, records); }
    ReappliesAfter(shape, accepts, t, records[0], Applied(shape, accepts, t, records).0);
  }

  lemma FirstKeyIsAlone(shape: Shape, records: seq<Json>)
    requires records != [] && DistinctKeys(shape, records) && KeyOf(shape, records[0]).Some?
    ensures KeyOf(shape, records[0]).value !in KeysOf(shape, records[1..])
  {
    forall k | k in KeysOf(shape, records[1..]) ensures Some(k) != KeyOf(shape, records[0]) {
      KeysOfMembers(shape, records[1..], k);
      var j :| 0 <= j < |records| - 1 && KeyOf(shape, records[1..][j]) == Some(k);
      assert KeyOf(shape, records[0]) != KeyOf(shape, records[j + 1]);
    }
  }

  lemma {:induction false} ReappliedTogether(shape: Shape, accepts: Table -> bool, t: Table, records: seq<Json>)
    requires forall i :: 0 <= i < |records| ==> Reapplies(shape, accepts, t, records[i])
    ensures Applied(shape, accepts, t, records) == (t, None)
  {
    if records != [] {
      assert Reapplies(shape, accepts, t, records[0]);
      ReappliedTogether(shape, accepts, t, records[1..]);
    }
  }

  /** An archive without repeated ids that was imported once is imported again without a failure and without a
      change. */
  lemma ImportIsIdempotent(shape: Shape, accepts: Table -> bool, t: Table, records: seq<Json>)
    requires WellFormed(shape, t) && Applied(shape, accepts, t, records).1.None? && DistinctKeys(shape, records)
    ensures var t' := Applied(shape, accepts, t, records).0; Applied(shape, accepts, t', records) == (t', None)
  {
    var t' := Applied(shape, accepts, t, records).0;
    forall i | 0 <= i < |records| ensures Reapplies(shape, accepts, t', records[i]) {
      AllReapplyAfter(shape, accepts, t, records, i);
    }
    ReappliedTogether(shape, accepts, t', records);
  }

  // ---------- Rows as records ----------

  /** `to_jsonb(t)` of some rows, in the order of `ids`. */
  function RowRecords(t: Table, ids: seq<string>): seq<Json>
    requires forall id :: id in ids ==> id in t
  {
    seq(|ids|, i requires 0 <= i < |ids| => Obj(t[ids[i]]))
  }

  /** The table was stored under this shape: every value reads back as itself and every row is admissible. */
  predicate Stored(shape: Shape, t: Table) {
    && WellFormed(shape, t) && "id" in shape.columns
    && forall id :: id in t ==> shape.admits(t[id]) && forall c :: c in t[id] ==> shape.cast(c, t[id][c]) == Some(t[id][c])
  }

  predicate PartOf(part: Table, t: Table) {
    forall id :: id in part ==> id in t && part[id] == t[id]
  }

  /** Constraints that hold of a table hold of any of its rows: uniqueness is one, and foreign keys are none while
      triggers are off. */
  ghost predicate HoldsOfParts(accepts: Table -> bool) {
    forall t: Table, u: Table :: PartOf(t, u) && accepts(u) ==> accepts(t)
  }

  lemma InsertBack(shape: Shape, accepts: Table -> bool, t: Table, id: string, part: Table)
    requires Stored(shape, t) && HoldsOfParts(accepts) && accepts(t) && id in t
    requires PartOf(part, t) && id !in part
    ensures Upsert(shape, accepts, part, Obj(t[id])) == Ok(part[id := t[id]]) && PartOf(part[id := t[id]], t)
  {
    var f := t[id];
    assert Declared(shape, f) == shape.columns;
    assert Sendable(shape, f) && Key(shape, f) == id;
    assert Proposed(shape, f) == f;
    assert PartOf(part[id := f], t);
  }

  /** `part` holds rows of the table, and `ids` are those it still lacks. */
  ghost predicate Lacks(shape: Shape, accepts: Table -> bool, t: Table, ids: seq<string>, part: Table) {
    && Stored(shape, t) && HoldsOfParts(accepts) && accepts(t) && PartOf(part, t)
    && (forall id :: id in ids ==> id in t && id !in part)
    && (forall i, j :: 0 <= i < j < |ids| ==> ids[i] != ids[j])
    && forall id :: id in t ==> id in part || id in ids
  }

  lemma LacksStep(shape: Shape, accepts: Table -> bool, t: Table, ids: seq<string>, part: Table)
    requires Lacks(shape, accepts, t, ids, part) && ids != []
    ensures ids[0] in t && ids[0] !in part && Lacks(shape, accepts, t, ids[1..], part[ids[0] := t[ids[0]]])
  {
    forall i | 0 <= i < |ids| - 1 ensures ids[1..][i] in t && ids[1..][i] !in part[ids[0] := t[ids[0]]] {
      assert ids[0] != ids[i + 1];
    }
  }

  lemma LacksNothing(shape: Shape, accepts: Table -> bool, t: Table, part: Table)
    requires Lacks(shape, accepts, t, [], part)
    ensures part == t
  {}

  lemma RowRecordsFirst(t: Table, ids: seq<string>)
    requires ids != [] && forall id :: id in ids ==> id in t
    ensures RowRecords(t, ids) == [Obj(t[ids[0]])] + RowRecords(t, ids[1..])
  {}

  lemma {:induction false} InsertRest(shape: Shape, accepts: Table -> bool, t: Table, ids: seq<string>, part: Table)
    requires Lacks(shape, accepts, t, ids, part)
    ensures Applied(shape, accepts, part, RowRecords(t, ids)) == (t, None)
    decreases |ids|
  {
    if ids == [] {
      LacksNothing(shape, accepts, t, part);
    } else {
      var more := part[ids[0] := t[ids[0]]];
      LacksStep(shape, accepts, t, ids, part);
      InsertBack(shape, accepts, t, ids[0], part);
      InsertRest(shape, accepts, t, ids[1..], more);
      RowRecordsFirst(t, ids);
      AppliedFirst(shape, accepts, part, Obj(t[ids[0]]), RowRecords(t, ids[1..]), more);
    }
  }

  lemma AppliedFirst(shape: Shape, accepts: Table -> bool, t: Table, record: Json, rest: seq<Json>, next: Table)
    requires Upsert(shape, accepts, t, record) == Ok(next)
    ensures Applied(shape, accepts, t, [record] + rest) == Applied(shape, accepts, next, rest)
  {
    assert ([record] + rest)[1..] == rest;
  }

  /** Rows taken out as records and put into the emptied table are the rows there were. */
  lemma RowsComeBack(shape: Shape, accepts: Table -> bool, t: Table, ids: seq<string>)
    requires Stored(shape, t) && HoldsOfParts(accepts) && accepts(t)
    requires (forall id :: id in ids <==> id in t) && forall i, j :: 0 <= i < j < |ids| ==> ids[i] != ids[j]
    ensures Applied(shape, accepts, map[], RowRecords(t, ids)) == (t, None)
  {
    InsertRest(shape, accepts, t, ids, map[]);
  }
}
