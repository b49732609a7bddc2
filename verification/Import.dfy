/** Importing an archive (crates/db/src/backup.rs:255-306, 991-1192): the plan, the confirmation gate, and the record
    phase in its three modes. What creates and updates a collection's definition, and what drops a collection, is a
    parameter that touches that collection alone. */
module Import {
  import opened Wrappers
  import opened JsonModel
  import opened Payload
  import opened Records

  datatype Relation = Relation(shape: Shape, rows: Table)

  type Tables = map<string, Relation>

  datatype Kind = Base | Auth | View

  datatype Mode = Batch | PerCollection | Continue

  datatype Options = Options(mode: Mode, confirm: bool, threshold: nat, deleteMissing: bool)

  datatype Fault = NoDefinition | BadKind | BadRecord(error: RecordError) | CommitFailed | NotAttempted
                 | DefinitionFailed(name: string) | DropFailed(name: string)

  /** The database's side: the constraints across tables, whether a commit of some collections succeeds, what a
      definition makes of a relation (created when there is none before), and whether a drop succeeds. */
  datatype World = World(accepts: Tables -> bool, commits: (seq<string>, Tables) -> bool,
                         define: (Collection, bool, bool, Option<Relation>) -> Defining, drops: string -> bool)

  /** A definition that is refused, one that leaves a table, and a view's. */
  datatype Defining = Failed | Defined(relation: Relation) | NoRows

  // ---------- The plan ----------

  /** `is_system_collection`. */
  predicate IsSystem(name: string) {
    name != "" && name[0] == '_'
  }

  datatype Action = Create | Update | Skip

  /** The names an import would write, in the archive's order. */
  function Writable(cs: seq<Collection>): seq<string> {
    if cs == [] then []
    else (if IsSystem(cs[0].name) then [] else [cs[0].name]) + Writable(cs[1..])
  }

  function Skipped(cs: seq<Collection>): seq<string> {
    if cs == [] then []
    else (if IsSystem(cs[0].name) then [cs[0].name] else []) + Skipped(cs[1..])
  }

  /** `definition_of`: the first of the name. */
  function DefinitionOf(cs: seq<Collection>, name: string): Option<Collection> {
    if cs == [] then None else if cs[0].name == name then Some(cs[0]) else DefinitionOf(cs[1..], name)
  }

  /** `parse_collection_type`. */
  function KindOf(kind: Option<string>): Option<Kind> {
    var k := if kind.Some? then kind.value else "base";
    if k == "base" then Some(Base) else if k == "auth" then Some(Auth) else if k == "view" then Some(View) else None
  }

  predicate InArchive(cs: seq<Collection>, name: string) {
    exists i :: 0 <= i < |cs| && cs[i].name == name
  }

  /** What is written is exactly what the archive names and is not a system collection. */
  lemma {:induction false} WritableExactly(cs: seq<Collection>, name: string)
    ensures name in Writable(cs) <==> InArchive(cs, name) && !IsSystem(name)
    ensures name in Skipped(cs) <==> InArchive(cs, name) && IsSystem(name)
    ensures InArchive(cs, name) <==> DefinitionOf(cs, name).Some?
  {
    if cs != [] {
      WritableExactly(cs[1..], name);
      if InArchive(cs[1..], name) {
        var i :| 0 <= i < |cs| - 1 && cs[1..][i].name == name;
        assert cs[i + 1].name == name;
      }
      if InArchive(cs, name) && cs[0].name != name {
        var i :| 0 <= i < |cs| && cs[i].name == name;
        assert cs[1..][i - 1].name == name;
      }
      assert cs[0].name == name ==> InArchive(cs, name);
    }
  }

  lemma {:induction false} WritableIsDistinct(cs: seq<Collection>)
    requires DistinctNames(cs)
    ensures Distinct(Writable(cs))
  {
    if cs != [] {
      WritableIsDistinct(cs[1..]);
      WritableExactly(cs[1..], cs[0].name);
      forall i | 0 <= i < |cs| - 1 ensures cs[1..][i].name != cs[0].name {
        assert cs[0].name != cs[i + 1].name;
      }
    }
  }

  predicate Distinct(names: seq<string>) {
    forall i, j :: 0 <= i < j < |names| ==> names[i] != names[j]
  }

  // ---------- The confirmation gate ----------

  function RecordsIn(a: Archive, names: seq<string>): nat {
    if names == [] then 0 else |Lookup(a.data, names[0])| + RecordsIn(a, names[1..])
  }

  predicate RequiresConfirmation(a: Archive, options: Options) {
    RecordsIn(a, Writable(a.schema)) > options.threshold && !options.confirm
  }

  // ---------- One collection's records ----------

  function WithRows(tables: Tables, name: string, rows: Table): Tables
    requires name in tables
  {
    tables[name := tables[name].(rows := rows)]
  }

  /** The constraints as one table's next contents meet them. */
  function Accepting(w: World, tables: Tables, name: string): Table -> bool
    requires name in tables
  {
    rows => w.accepts(WithRows(tables, name, rows))
  }

  /** `apply_records`: a view has none of its own, and a collection without a table refuses any. */
  function ApplyTo(w: World, a: Archive, tables: Tables, name: string): (Tables, Option<Fault>) {
    match DefinitionOf(a.schema, name)
    case None => (tables, Some(NoDefinition))
    case Some(definition) =>
      var kind := KindOf(definition.kind);
      var records := Lookup(a.data, name);
      if kind.None? then (tables, Some(BadKind))
      else if kind.value.View? || records == [] then (tables, None)
      else if name !in tables then (tables, Some(BadRecord(NoTable(records[0]))))
      else
        var (rows, failed) := Applied(tables[name].shape, Accepting(w, tables, name), tables[name].rows, records);
        (WithRows(tables, name, rows), if failed.Some? then Some(BadRecord(failed.value)) else None)
  }

  /** A table that is not there has no columns, and the first statement fails. */
  function NoTable(record: Json): RecordError {
    if !record.Obj? then NotAnObject else if "id" !in record.fields then NoId else Refused
  }

  /** When one collection's records are applied, and what stands in the way when they are not. */
  lemma AppliedExactly(w: World, a: Archive, tables: Tables, name: string)
    ensures var (after, failed) := ApplyTo(w, a, tables, name);
            var definition, records := DefinitionOf(a.schema, name), Lookup(a.data, name);
            && (failed == Some(NoDefinition) <==> definition.None?)
            && (failed == Some(BadKind) <==>
                  definition.Some? && definition.value.kind.Some? && definition.value.kind.value !in {"base", "auth", "view"})
            && (failed.None? <==>
                  && definition.Some? && (definition.value.kind.Some? ==> definition.value.kind.value in {"base", "auth", "view"})
                  && (definition.value.kind == Some("view") || records == []
                      || (name in tables && Applied(tables[name].shape, Accepting(w, tables, name), tables[name].rows, records).1.None?)))
            && (failed.None? && definition.value.kind != Some("view") && records != [] ==>
                  after == WithRows(tables, name, Applied(tables[name].shape, Accepting(w, tables, name), tables[name].rows, records).0))
            && (failed.None? && (definition.value.kind == Some("view") || records == []) ==> after == tables)
  {}

  /** No collection leaves tables that the constraints across them refuse. */
  lemma AppliedTablesAreAccepted(w: World, a: Archive, tables: Tables, name: string)
    ensures var after := ApplyTo(w, a, tables, name).0; after == tables || w.accepts(after)
  {
    if name in tables {
      var r, records := tables[name], Lookup(a.data, name);
      WhatIsLeftIsAccepted(r.shape, Accepting(w, tables, name), r.rows, records);
      var rows := Applied(r.shape, Accepting(w, tables, name), r.rows, records).0;
      assert rows == r.rows ==> WithRows(tables, name, rows) == tables;
    }
  }

  /** The definition of a name is the first of it. */
  lemma {:induction false} DefinitionIsTheFirst(cs: seq<Collection>, i: nat)
    requires i < |cs| && forall j :: 0 <= j < i ==> cs[j].name != cs[i].name
    ensures DefinitionOf(cs, cs[i].name) == Some(cs[i])
  {
    if i > 0 {
      assert cs[0].name != cs[i].name;
      DefinitionIsTheFirst(cs[1..], i - 1);
    }
  }

  /** What is written follows the archive's order. */
  lemma {:induction false} WritableFollowsTheArchive(cs: seq<Collection>, c: Collection)
    ensures Writable(cs + [c]) == if "_" <= c.name then Writable(cs) else Writable(cs) + [c.name]
  {
    if cs == [] {
      assert [c][1..] == [];
    } else {
      WritableFollowsTheArchive(cs[1..], c);
      assert (cs + [c])[0] == cs[0] && (cs + [c])[1..] == cs[1..] + [c];
      Associate(if IsSystem(cs[0].name) then [] else [cs[0].name], Writable(cs[1..]), [c.name]);
    }
  }

  lemma {:induction false} SkippedFollowsTheArchive(cs: seq<Collection>, c: Collection)
    ensures Skipped(cs + [c]) == if "_" <= c.name then Skipped(cs) + [c.name] else Skipped(cs)
  {
    if cs == [] {
      assert [c][1..] == [];
    } else {
      SkippedFollowsTheArchive(cs[1..], c);
      assert (cs + [c])[0] == cs[0] && (cs + [c])[1..] == cs[1..] + [c];
      Associate(if IsSystem(cs[0].name) then [cs[0].name] else [], Skipped(cs[1..]), [c.name]);
    }
  }

  lemma Associate(a: seq<string>, b: seq<string>, c: seq<string>)
    ensures a + (b + c) == a + b + c
  {}

  /** With one data entry per collection and no system collections, the records counted are those there are. */
  lemma {:induction false} RecordsInIsTheCount(a: Archive, data: Data)
    requires forall i :: 0 <= i < |data| ==> Lookup(a.data, data[i].0) == data[i].1
    ensures RecordsIn(a, seq(|data|, i requires 0 <= i < |data| => data[i].0)) == RecordCount(data)
  {
    var names := seq(|data|, i requires 0 <= i < |data| => data[i].0);
    if data != [] {
      RecordsInIsTheCount(a, data[1..]);
      assert names[1..] == seq(|data| - 1, i requires 0 <= i < |data| - 1 => data[1..][i].0);
    }
  }

  // ---------- The record phase ----------

  /** The tables and the report as they grow. */
  datatype Progress = Progress(tables: Tables, imported: seq<Line>, errors: seq<(string, Fault)>)

  function ReportOf(a: Archive, name: string): Line {
    var definition := DefinitionOf(a.schema, name);
    Line(name, if definition.Some? then definition.value.kind else None, |Lookup(a.data, name)|)
  }

  /** One collection in a transaction of its own. */
  function Attempt(w: World, a: Archive, p: Progress, name: string): Progress {
    var (tables, failed) := ApplyTo(w, a, p.tables, name);
    if failed.Some? then p.(errors := p.errors + [(name, failed.value)])
    else if !w.commits([name], tables) then p.(errors := p.errors + [(name, CommitFailed)])
    else p.(tables := tables, imported := p.imported + [ReportOf(a, name)])
  }

  function ImportedNames(p: Progress): seq<string> {
    seq(|p.imported|, i requires 0 <= i < |p.imported| => p.imported[i].name)
  }

  function ErrorNames(p: Progress): seq<string> {
    seq(|p.errors|, i requires 0 <= i < |p.errors| => p.errors[i].0)
  }

  predicate Reported(p: Progress, name: string) {
    name in ImportedNames(p) || name in ErrorNames(p)
  }

  /** What is left over is reported as not attempted. */
  function Abandoned(p: Progress, names: seq<string>): Progress
    decreases |names|
  {
    if names == [] then p
    else Abandoned(if Reported(p, names[0]) then p else p.(errors := p.errors + [(names[0], NotAttempted)]), names[1..])
  }

  /** One transaction per collection. Only a record that cannot be applied stops `per_collection`; a commit that fails
      does not. */
  function Each(w: World, a: Archive, mode: Mode, p: Progress, names: seq<string>, all: seq<string>): Progress
    decreases |names|
  {
    if names == [] then p
    else if mode == PerCollection && ApplyTo(w, a, p.tables, names[0]).1.Some?
    then Abandoned(Attempt(w, a, p, names[0]), all)
    else Each(w, a, mode, Attempt(w, a, p, names[0]), names[1..], all)
  }

  /** All collections in one transaction, up to the first failure. */
  function Through(w: World, a: Archive, tables: Tables, names: seq<string>): (Tables, Option<Fault>)
    decreases |names|
  {
    if names == [] then (tables, None)
    else
      var (next, failed) := ApplyTo(w, a, tables, names[0]);
      if failed.Some? then (next, failed) else Through(w, a, next, names[1..])
  }

  function Reports(a: Archive, names: seq<string>): seq<Line> {
    seq(|names|, i requires 0 <= i < |names| => ReportOf(a, names[i]))
  }

  /** The record phase: what the tables are afterwards, and the report or the failure. */
  function RecordPhase(w: World, a: Archive, mode: Mode, tables: Tables, names: seq<string>): (Tables, Result<Progress, Fault>) {
    if mode == Batch then
      var (next, failed) := Through(w, a, tables, names);
      if failed.Some? then (tables, Err(failed.value))
      else if !w.commits(names, next) then (tables, Err(CommitFailed))
      else (next, Ok(Progress(next, Reports(a, names), [])))
    else
      var p := Each(w, a, mode, Progress(tables, [], []), names, names);
      (p.tables, Ok(p))
  }

  // ---------- What one collection does to the tables ----------

  /** Nothing about a name changed. */
  ghost predicate Same(before: Tables, after: Tables, name: string) {
    (name in before <==> name in after) && (name in before ==> before[name] == after[name])
  }

  predicate SoundTables(tables: Tables) {
    forall name :: name in tables ==> WellFormed(tables[name].shape, tables[name].rows)
  }

  predicate HasRows(a: Archive, name: string) {
    var definition := DefinitionOf(a.schema, name);
    definition.Some? && KindOf(definition.value.kind) != Some(View) && Lookup(a.data, name) != []
  }

  /** The collection's records are all in its table, last write first, over what it held; a view, or a collection
      without records, is as it was. */
  ghost predicate Landed(a: Archive, before: Tables, after: Tables, name: string) {
    if !HasRows(a, name) then Same(before, after, name)
    else
      && name in before && name in after && after[name].shape == before[name].shape
      && Follows(before[name].shape, before[name].rows, Lookup(a.data, name), after[name].rows)
  }

  lemma ApplyToLands(w: World, a: Archive, tables: Tables, name: string)
    requires SoundTables(tables)
    ensures var (after, failed) := ApplyTo(w, a, tables, name);
            && after.Keys == tables.Keys
            && (forall n :: n != name ==> Same(tables, after, n))
            && (failed.None? ==> SoundTables(after) && Landed(a, tables, after, name))
  {
    if HasRows(a, name) && name in tables && KindOf(DefinitionOf(a.schema, name).value.kind).Some? {
      var r, records := tables[name], Lookup(a.data, name);
      if Applied(r.shape, Accepting(w, tables, name), r.rows, records).1.None? {
        LastWriteWins(r.shape, Accepting(w, tables, name), r.rows, records);
      }
    }
  }

  /** Rows of a name not yet attempted are those the phase began with. */
  ghost predicate Accounted(a: Archive, before: Tables, p: Progress, name: string) {
    && (name in ImportedNames(p) ==> Landed(a, before, p.tables, name))
    && (name !in ImportedNames(p) ==> Same(before, p.tables, name))
  }

  ghost predicate Ledger(a: Archive, before: Tables, p: Progress) {
    && SoundTables(p.tables) && p.tables.Keys == before.Keys
    && forall name :: Accounted(a, before, p, name)
  }

  lemma AttemptReports(w: World, a: Archive, p: Progress, name: string)
    ensures var q := Attempt(w, a, p, name);
            || (ImportedNames(q) == ImportedNames(p) + [name] && ErrorNames(q) == ErrorNames(p)
                && q.tables == ApplyTo(w, a, p.tables, name).0 && ApplyTo(w, a, p.tables, name).1.None?)
            || (ImportedNames(q) == ImportedNames(p) && ErrorNames(q) == ErrorNames(p) + [name] && q.tables == p.tables)
  {}

  /** What an attempt adds to the report: the collection's line when its records apply and its transaction commits, and
      otherwise the reason it does not. */
  lemma AttemptSaysWhy(w: World, a: Archive, p: Progress, name: string)
    ensures var (tables, failed) := ApplyTo(w, a, p.tables, name);
            var q := Attempt(w, a, p, name);
            if failed.None? && w.commits([name], tables) then
              && q.errors == p.errors && q.tables == tables && |q.imported| == |p.imported| + 1 && q.imported[..|p.imported|] == p.imported
              && q.imported[|p.imported|].name == name && q.imported[|p.imported|].records == |Lookup(a.data, name)|
              && (DefinitionOf(a.schema, name).Some? ==> q.imported[|p.imported|].kind == DefinitionOf(a.schema, name).value.kind)
            else
              && q.imported == p.imported && q.tables == p.tables && |q.errors| == |p.errors| + 1 && q.errors[..|p.errors|] == p.errors
              && q.errors[|p.errors|] == (name, if failed.Some? then failed.value else CommitFailed)
  {}

  lemma AttemptKeepsLedger(w: World, a: Archive, before: Tables, p: Progress, name: string)
    requires Ledger(a, before, p) && !Reported(p, name)
    ensures Ledger(a, before, Attempt(w, a, p, name))
  {
    var q := Attempt(w, a, p, name);
    AttemptReports(w, a, p, name);
    ApplyToLands(w, a, p.tables, name);
    forall n ensures Accounted(a, before, q, n) {
      assert Accounted(a, before, p, n);
      if q.tables != p.tables || name in ImportedNames(q) {
        assert n != name ==> Same(p.tables, q.tables, n) && (n in ImportedNames(q) <==> n in ImportedNames(p));
      }
    }
  }

  /** The names still to come are distinct and unreported, and every other name of the phase is reported once. */
  ghost predicate Tallied(p: Progress, names: seq<string>, all: seq<string>) {
    multiset(ImportedNames(p)) + multiset(ErrorNames(p)) + multiset(names) == multiset(all)
  }

  lemma FirstIsUnreported(p: Progress, names: seq<string>, all: seq<string>)
    requires Tallied(p, names, all) && Distinct(all) && names != []
    ensures !Reported(p, names[0])
    ensures multiset(names) == multiset{names[0]} + multiset(names[1..])
  {
    var n, imported, failed := names[0], multiset(ImportedNames(p)), multiset(ErrorNames(p));
    DistinctIsSingle(all, n);
    assert names == [n] + names[1..];
    assert n in multiset(names);
    assert multiset(all)[n] == imported[n] + failed[n] + multiset(names)[n];
    assert n !in imported && n !in failed;
  }

  lemma {:induction false} DistinctIsSingle(names: seq<string>, n: string)
    requires Distinct(names)
    ensures multiset(names)[n] <= 1
  {
    if names != [] {
      DistinctIsSingle(names[1..], n);
      assert names == [names[0]] + names[1..];
      forall i | 0 <= i < |names| - 1 ensures names[1..][i] != names[0] {
        assert names[0] != names[i + 1];
      }
      assert names[0] !in multiset(names[1..]);
    }
  }

  lemma AttemptKeepsTally(w: World, a: Archive, p: Progress, names: seq<string>, all: seq<string>)
    requires Tallied(p, names, all) && Distinct(all) && names != []
    ensures Tallied(Attempt(w, a, p, names[0]), names[1..], all)
  {
    FirstIsUnreported(p, names, all);
    AttemptReports(w, a, p, names[0]);
  }

  /** What is abandoned is exactly what was left. */
  ghost predicate AbandonedFrom(p: Progress, q: Progress) {
    && q.tables == p.tables && q.imported == p.imported && |p.errors| <= |q.errors| && q.errors[..|p.errors|] == p.errors
    && forall i :: |p.errors| <= i < |q.errors| ==> q.errors[i].1 == NotAttempted
  }

  lemma {:induction false} AbandonedOnlyAdds(p: Progress, names: seq<string>)
    ensures AbandonedFrom(p, Abandoned(p, names))
    decreases |names|
  {
    if names != [] {
      var next := if Reported(p, names[0]) then p else p.(errors := p.errors + [(names[0], NotAttempted)]);
      AbandonedOnlyAdds(next, names[1..]);
      var q := Abandoned(p, names);
      assert q.errors[..|p.errors|] == q.errors[..|next.errors|][..|p.errors|];
      forall i | |p.errors| <= i < |q.errors| ensures q.errors[i].1 == NotAttempted {
        if i < |next.errors| { assert q.errors[i] == q.errors[..|next.errors|][i]; }
      }
    }
  }

  /** Names once each: those of `names` and those reported. */
  ghost predicate CountedOnce(p: Progress, names: seq<string>, q: Progress) {
    forall n ::
      && multiset(ImportedNames(q))[n] == multiset(ImportedNames(p))[n]
      && multiset(ErrorNames(q))[n] == multiset(ErrorNames(p))[n] + (if n in names && !Reported(p, n) then 1 else 0)
  }

  lemma ReportedNext(p: Progress, next: Progress, name: string)
    requires next == if Reported(p, name) then p else p.(errors := p.errors + [(name, NotAttempted)])
    ensures ImportedNames(next) == ImportedNames(p)
    ensures ErrorNames(next) == if Reported(p, name) then ErrorNames(p) else ErrorNames(p) + [name]
    ensures forall n :: Reported(next, n) == (Reported(p, n) || n == name)
  {}

  lemma {:induction false} AbandonedCounts(p: Progress, names: seq<string>)
    ensures CountedOnce(p, names, Abandoned(p, names))
    decreases |names|
  {
    if names != [] {
      var first := names[0];
      var next := if Reported(p, first) then p else p.(errors := p.errors + [(first, NotAttempted)]);
      AbandonedCounts(next, names[1..]);
      assert names == [first] + names[1..];
      ReportedNext(p, next, first);
    }
  }

  lemma AbandonedTallies(p: Progress, names: seq<string>, all: seq<string>)
    requires Tallied(p, names, all) && Distinct(all)
    ensures Tallied(Abandoned(p, all), [], all)
  {
    var q := Abandoned(p, all);
    AbandonedCounts(p, all);
    forall n ensures (multiset(ImportedNames(q)) + multiset(ErrorNames(q)))[n] == multiset(all)[n] {
      DistinctIsSingle(all, n);
      var i, e := multiset(ImportedNames(p))[n], multiset(ErrorNames(p))[n];
      assert multiset(all)[n] == i + e + multiset(names)[n];
      assert n in all <==> n in multiset(all);
      assert n in ImportedNames(p) <==> n in multiset(ImportedNames(p));
      assert n in ErrorNames(p) <==> n in multiset(ErrorNames(p));
    }
    assert multiset(ImportedNames(q)) + multiset(ErrorNames(q)) == multiset(all);
  }

  lemma {:induction false} EachKeeps(w: World, a: Archive, mode: Mode, before: Tables, p: Progress, names: seq<string>, all: seq<string>)
    requires Ledger(a, before, p) && Tallied(p, names, all) && Distinct(all)
    ensures var q := Each(w, a, mode, p, names, all); Ledger(a, before, q) && Tallied(q, [], all)
    decreases |names|
  {
    if names != [] {
      var next := Attempt(w, a, p, names[0]);
      FirstIsUnreported(p, names, all);
      AttemptKeepsLedger(w, a, before, p, names[0]);
      AttemptKeepsTally(w, a, p, names, all);
      if mode == PerCollection && ApplyTo(w, a, p.tables, names[0]).1.Some? {
        AbandonedTallies(next, names[1..], all);
        AbandonedOnlyAdds(next, all);
        LedgerOfSame(a, before, next, Abandoned(next, all));
      } else {
        EachKeeps(w, a, mode, before, next, names[1..], all);
      }
    }
  }

  lemma LedgerOfSame(a: Archive, before: Tables, p: Progress, q: Progress)
    requires Ledger(a, before, p) && q.tables == p.tables && q.imported == p.imported
    ensures Ledger(a, before, q)
  {
    assert ImportedNames(q) == ImportedNames(p);
    forall n ensures Accounted(a, before, q, n) { assert Accounted(a, before, p, n); }
  }

  /** In `per_collection` and `continue`, whatever fails: every collection of the phase is reported exactly once, as
      imported with all its records in its table or as failed with its table as it was; and no other table changes. */
  lemma EveryCollectionIsSettled(w: World, a: Archive, mode: Mode, tables: Tables, names: seq<string>)
    requires SoundTables(tables) && Distinct(names) && mode != Batch
    ensures var (after, r) := RecordPhase(w, a, mode, tables, names);
            && r.Ok? && after.Keys == tables.Keys
            && multiset(ImportedNames(r.value)) + multiset(ErrorNames(r.value)) == multiset(names)
            && (forall n :: n in ImportedNames(r.value) ==> Landed(a, tables, after, n))
            && (forall n :: n !in ImportedNames(r.value) ==> Same(tables, after, n))
  {
    var p := Progress(tables, [], []);
    forall n ensures Accounted(a, tables, p, n) {}
    EachKeeps(w, a, mode, tables, p, names, names);
    var q := Each(w, a, mode, p, names, names);
    forall n ensures (n in ImportedNames(q) ==> Landed(a, tables, q.tables, n)) && (n !in ImportedNames(q) ==> Same(tables, q.tables, n)) {
      assert Accounted(a, tables, q, n);
    }
  }

  /** `per_collection` is `continue` up to the first collection whose records cannot be applied, and nothing after. */
  lemma {:induction false} PerCollectionStopsAtTheFirstFailure(w: World, a: Archive, p: Progress, names: seq<string>, all: seq<string>)
    returns (k: nat)
    ensures k <= |names|
    ensures k == |names| ==> Each(w, a, PerCollection, p, names, all) == Each(w, a, Continue, p, names, all)
    ensures k < |names| ==>
              && ApplyTo(w, a, Each(w, a, Continue, p, names[..k], all).tables, names[k]).1.Some?
              && Each(w, a, PerCollection, p, names, all) == Abandoned(Each(w, a, Continue, p, names[..k + 1], all), all)
    decreases |names|
  {
    k := 0;
    if names != [] {
      var next := Attempt(w, a, p, names[0]);
      if ApplyTo(w, a, p.tables, names[0]).1.Some? {
        assert names[..1] == [names[0]] && [names[0]][1..] == [];
        assert Each(w, a, Continue, next, [], all) == next;
      } else {
        k := PerCollectionStopsAtTheFirstFailure(w, a, next, names[1..], all);
        k := k + 1;
        if k < |names| {
          assert names[..k][1..] == names[1..][..k - 1] && names[..k][0] == names[0];
          assert names[..k + 1][1..] == names[1..][..k] && names[..k + 1][0] == names[0];
        }
      }
    }
  }

  // ---------- Batch ----------

  /** Every collection of a phase landed, and nothing else changed. */
  ghost predicate AllLanded(a: Archive, before: Tables, after: Tables, names: seq<string>) {
    && (forall n :: n in names ==> Landed(a, before, after, n))
    && (forall n :: n !in names ==> Same(before, after, n))
  }

  lemma OneLanded(a: Archive, before: Tables, mid: Tables, after: Tables, names: seq<string>, n: string)
    requires names != [] && names[0] !in names[1..]
    requires Landed(a, before, mid, names[0]) && (n != names[0] ==> Same(before, mid, n))
    requires if n in names[1..] then Landed(a, mid, after, n) else Same(mid, after, n)
    ensures if n in names then Landed(a, before, after, n) else Same(before, after, n)
  {
    assert names == [names[0]] + names[1..];
    if n == names[0] {
      assert Same(mid, after, n);
    } else {
      assert n in names <==> n in names[1..];
    }
  }

  lemma {:induction false} ThroughLands(w: World, a: Archive, tables: Tables, names: seq<string>)
    requires SoundTables(tables) && Distinct(names) && Through(w, a, tables, names).1.None?
    ensures AllLanded(a, tables, Through(w, a, tables, names).0, names)
    decreases |names|
  {
    if names != [] {
      var next, rest := ApplyTo(w, a, tables, names[0]).0, names[1..];
      ApplyToLands(w, a, tables, names[0]);
      ThroughLands(w, a, next, rest);
      var after := Through(w, a, tables, names).0;
      forall n ensures if n in names then Landed(a, tables, after, n) else Same(tables, after, n) {
        OneLanded(a, tables, next, after, names, n);
      }
    }
  }

  /** One transaction goes through exactly when every collection's records apply, one after the other. */
  lemma {:induction false} ThroughExactly(w: World, a: Archive, tables: Tables, names: seq<string>) returns (k: nat)
    ensures var (after, failed) := Through(w, a, tables, names);
            && k <= |names| && (failed.None? <==> k == |names|)
            && Through(w, a, tables, names[..k]).1.None?
            && (k == |names| ==> Through(w, a, tables, names[..k]).0 == after)
            && (k < |names| ==> ApplyTo(w, a, Through(w, a, tables, names[..k]).0, names[k]) == (after, failed) && failed.Some?)
    decreases |names|
  {
    k := 0;
    if names != [] && ApplyTo(w, a, tables, names[0]).1.None? {
      k := ThroughExactly(w, a, ApplyTo(w, a, tables, names[0]).0, names[1..]);
      k := k + 1;
      assert names[..k][1..] == names[1..][..k - 1] && names[..k][0] == names[0];
    }
  }

  /** Under `batch` the records of every collection land, or nothing does. */
  lemma BatchIsAllOrNothing(w: World, a: Archive, tables: Tables, names: seq<string>)
    requires SoundTables(tables) && Distinct(names)
    ensures var (after, r) := RecordPhase(w, a, Batch, tables, names);
            && (r.Err? ==> after == tables)
            && (r.Ok? <==> Through(w, a, tables, names).1.None? && w.commits(names, Through(w, a, tables, names).0))
            && (r.Ok? ==>
                  && r.value.errors == [] && ImportedNames(r.value) == names
                  && (forall n :: n in names ==> Landed(a, tables, after, n))
                  && (forall n :: n !in names ==> Same(tables, after, n)))
  {
    var (next, failed) := Through(w, a, tables, names);
    if failed.None? {
      ThroughLands(w, a, tables, names);
      if w.commits(names, next) {
        var r := RecordPhase(w, a, Batch, tables, names).1;
        assert ImportedNames(r.value) == names;
      }
    }
  }

  // ---------- What the report says ----------

  /** Every collection's records can be applied and its transaction commits. */
  predicate AllGoThrough(w: World, a: Archive, tables: Tables, names: seq<string>)
    decreases |names|
  {
    names == [] ||
    var (next, failed) := ApplyTo(w, a, tables, names[0]);
    failed.None? && w.commits([names[0]], next) && AllGoThrough(w, a, next, names[1..])
  }

  lemma {:induction false} EachHasErrorsExactly(w: World, a: Archive, mode: Mode, p: Progress, names: seq<string>, all: seq<string>)
    ensures var q := Each(w, a, mode, p, names, all);
            && |p.errors| <= |q.errors|
            && (|q.errors| == |p.errors| <==> AllGoThrough(w, a, p.tables, names))
    decreases |names|
  {
    if names != [] {
      var next := Attempt(w, a, p, names[0]);
      AbandonedOnlyAdds(next, all);
      EachHasErrorsExactly(w, a, mode, next, names[1..], all);
    }
  }

  /** In both modes the report has errors exactly when some collection could not be applied or committed: not under
      `continue` only. */
  lemma ErrorsExactly(w: World, a: Archive, mode: Mode, tables: Tables, names: seq<string>)
    requires mode != Batch
    ensures var r := RecordPhase(w, a, mode, tables, names).1;
            r.Ok? && (r.value.errors == [] <==> AllGoThrough(w, a, tables, names))
  {
    EachHasErrorsExactly(w, a, mode, Progress(tables, [], []), names, names);
  }

  function Definition(name: string, kind: string): Collection {
    Collection(name, Some(kind), [], None, None, [])
  }

  /** Two collections, the first with a record that is no object. */
  function BadThenGood(m: Manifest): Archive {
    Archive(m, [Definition("a", "base"), Definition("b", "base")], [("a", [Null])])
  }

  /** Under `per_collection` it reports both as failed, the second as not attempted; under `continue` only the first. */
  lemma PerCollectionReportsErrors(w: World, m: Manifest, tables: Tables)
    requires "a" in tables && forall t :: w.commits(["b"], t)
    ensures RecordPhase(w, BadThenGood(m), PerCollection, tables, ["a", "b"]).1
            == Ok(Progress(tables, [], [("a", BadRecord(NotAnObject)), ("b", NotAttempted)]))
    ensures RecordPhase(w, BadThenGood(m), Continue, tables, ["a", "b"]).1
            == Ok(Progress(tables, [Line("b", Some("base"), 0)], [("a", BadRecord(NotAnObject))]))
  {
    var a := BadThenGood(m);
    var p := Progress(tables, [], []);
    var bad := [("a", BadRecord(NotAnObject))];
    assert DefinitionOf(a.schema, "a") == Some(a.schema[0]);
    assert a.schema[1..][0] == a.schema[1] && DefinitionOf(a.schema, "b") == Some(a.schema[1]);
    assert Lookup(a.data, "a") == [Null];
    assert a.data[1..] == [] && Lookup(a.data, "b") == [];
    assert ApplyTo(w, a, tables, "a").1 == Some(BadRecord(NotAnObject));
    var q := Attempt(w, a, p, "a");
    assert q == Progress(tables, [], bad) by { assert [] + bad == bad; }
    AbandonedBoth(q);
    assert ["a", "b"][1..] == ["b"] && ["b"][1..] == [];
    assert ApplyTo(w, a, tables, "b") == (tables, None);
    assert Attempt(w, a, q, "b") == Progress(tables, [Line("b", Some("base"), 0)], bad);
    assert Each(w, a, Continue, q, ["b"], ["a", "b"]) == Attempt(w, a, q, "b");
  }

  lemma AbandonedBoth(p: Progress)
    requires p.imported == [] && p.errors == [("a", BadRecord(NotAnObject))]
    ensures Abandoned(p, ["a", "b"]) == p.(errors := [("a", BadRecord(NotAnObject)), ("b", NotAttempted)])
  {
    assert ErrorNames(p) == ["a"] && ImportedNames(p) == [];
    assert ["a", "b"][1..] == ["b"] && ["b"][1..] == [];
    assert p.errors + [("b", NotAttempted)] == [("a", BadRecord(NotAnObject)), ("b", NotAttempted)];
  }

  /** The records an attempt hands to the table. */
  function HandedOver(a: Archive, name: string): seq<Json> {
    if HasRows(a, name) then Lookup(a.data, name) else []
  }

  /** A collection that was applied received exactly those records, and its line in the report counts them exactly when
      it is no view or the archive has no records for it. */
  lemma ReportCountsWhatWasWritten(w: World, a: Archive, tables: Tables, name: string)
    requires ApplyTo(w, a, tables, name).1.None?
    ensures var records := HandedOver(a, name);
            && (records == [] ==> ApplyTo(w, a, tables, name).0 == tables)
            && (records != [] ==>
                  && name in tables
                  && ApplyTo(w, a, tables, name).0 ==
                     WithRows(tables, name, Applied(tables[name].shape, Accepting(w, tables, name), tables[name].rows, records).0))
            && (ReportOf(a, name).records == |records| <==>
                KindOf(DefinitionOf(a.schema, name).value.kind) != Some(View) || Lookup(a.data, name) == [])
  {}

  /** A view with one record. */
  function ViewWithARecord(m: Manifest, record: Json): Archive {
    Archive(m, [Definition("v", "view")], [("v", [record])])
  }

  /** In every mode it is reported as one record imported, and nothing was written. */
  lemma ViewRecordsAreReported(w: World, m: Manifest, record: Json, mode: Mode, tables: Tables)
    requires forall names, t :: w.commits(names, t)
    ensures RecordPhase(w, ViewWithARecord(m, record), mode, tables, ["v"])
            == (tables, Ok(Progress(tables, [Line("v", Some("view"), 1)], [])))
  {
    var a := ViewWithARecord(m, record);
    var p := Progress(tables, [], []);
    assert ["v"][1..] == [];
    assert ApplyTo(w, a, tables, "v") == (tables, None);
    assert Through(w, a, tables, ["v"]) == (tables, None);
    assert ReportOf(a, "v") == Line("v", Some("view"), 1);
    assert Reports(a, ["v"]) == [ReportOf(a, "v")];
    assert Attempt(w, a, p, "v") == Progress(tables, [Line("v", Some("view"), 1)], []);
    assert Each(w, a, mode, p, ["v"], ["v"]) == Attempt(w, a, p, "v");
  }
}
