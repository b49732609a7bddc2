/** A whole import on the database (crates/db/src/backup.rs:944-1192, 1300-1334, 1388-1429): the gate, the definitions,
    the records, the drops; and what it can never touch. */
module ImportRun {
  import opened Wrappers
  import opened Payload
  import opened Records
  import opened Import

  datatype Preflight = Preflight(collections: seq<Line>, skipped: seq<string>, total: nat)

  datatype Report = Report(imported: seq<Line>, skipped: seq<string>, errors: seq<(string, Fault)>, removed: seq<string>)

  datatype Outcome = NeedsConfirmation(preflight: Preflight) | Applied(report: Report)

  /** `preflight`. */
  function Foreseen(a: Archive): Preflight {
    Preflight(Reports(a, Writable(a.schema)), Skipped(a.schema), RecordsIn(a, Writable(a.schema)))
  }

  // ---------- The plan and the preflight as they run ----------

  /** `plan`: one action for each collection of the archive and none for anything else. */
  method Plan(cs: seq<Collection>, existing: seq<string>) returns (actions: seq<(string, Action)>)
    ensures |actions| == |cs|
    ensures forall i :: 0 <= i < |cs| ==>
              && actions[i].0 == cs[i].name
              && (actions[i].1 == Skip <==> IsSystem(cs[i].name))
              && (actions[i].1 == Update <==> !IsSystem(cs[i].name) && cs[i].name in existing)
  {
    actions := [];
    for i := 0 to |cs|
      invariant |actions| == i
      invariant forall k :: 0 <= k < i ==>
                  && actions[k].0 == cs[k].name
                  && (actions[k].1 == Skip <==> IsSystem(cs[k].name))
                  && (actions[k].1 == Update <==> !IsSystem(cs[k].name) && cs[k].name in existing)
    {
      var name := cs[i].name;
      if IsSystem(name) {
        actions := actions + [(name, Skip)];
      } else {
        actions := actions + [(name, if name in existing then Update else Create)];
      }
    }
  }

  /** What is left of a preflight after the first `k` collections. */
  ghost predicate Remaining(a: Archive, k: nat, p: Preflight) {
    && k <= |a.schema|
    && Foreseen(a).collections == p.collections + Reports(a, Writable(a.schema[k..]))
    && Foreseen(a).skipped == p.skipped + Skipped(a.schema[k..])
    && Foreseen(a).total == p.total + RecordsIn(a, Writable(a.schema[k..]))
  }

  lemma RemainingStep(a: Archive, k: nat, p: Preflight)
    requires Remaining(a, k, p) && k < |a.schema|
    ensures var name := a.schema[k].name;
            Remaining(a, k + 1,
                      if IsSystem(name) then p.(skipped := p.skipped + [name])
                      else Preflight(p.collections + [ReportOf(a, name)], p.skipped, p.total + |Lookup(a.data, name)|))
  {
    var cs, name := a.schema[k..], a.schema[k].name;
    assert cs[0] == a.schema[k] && cs[1..] == a.schema[k + 1..];
    if !IsSystem(name) {
      assert Writable(cs) == [name] + Writable(cs[1..]);
      assert Reports(a, Writable(cs)) == [ReportOf(a, name)] + Reports(a, Writable(cs[1..]));
      assert ([name] + Writable(cs[1..]))[1..] == Writable(cs[1..]);
      assert RecordsIn(a, Writable(cs)) == |Lookup(a.data, name)| + RecordsIn(a, Writable(cs[1..]));
    } else {
      assert Writable(cs) == Writable(cs[1..]) && Skipped(cs) == [name] + Skipped(cs[1..]);
    }
  }

  /** `preflight`. */
  method Foresee(a: Archive) returns (p: Preflight)
    ensures p == Foreseen(a)
  {
    p := Preflight([], [], 0);
    assert a.schema[0..] == a.schema;
    for k := 0 to |a.schema|
      invariant Remaining(a, k, p)
    {
      RemainingStep(a, k, p);
      var name := a.schema[k].name;
      if IsSystem(name) {
        p := p.(skipped := p.skipped + [name]);
      } else {
        p := Preflight(p.collections + [ReportOf(a, name)], p.skipped, p.total + |Lookup(a.data, name)|);
      }
    }
  }

  /** What the preflight foresees: a line for each collection that would be written, with its type and its records, and the
      names that would be skipped. */
  lemma PreflightExactly(a: Archive)
    ensures var p, names := Foreseen(a), Writable(a.schema);
            && p.total == RecordsIn(a, names) && p.skipped == Skipped(a.schema) && |p.collections| == |names|
            && forall i :: 0 <= i < |names| ==>
                 && p.collections[i].name == names[i] && p.collections[i].records == |Lookup(a.data, names[i])|
                 && (DefinitionOf(a.schema, names[i]).Some? ==> p.collections[i].kind == DefinitionOf(a.schema, names[i]).value.kind)
  {}

  // ---------- The phases ----------

  /** `create_collection` or `apply_definition` for one name; a view leaves no table. */
  function DefineOne(w: World, a: Archive, o: Options, existing: seq<string>, tables: Tables, name: string): (Tables, Option<Fault>) {
    match DefinitionOf(a.schema, name)
    case None => (tables, Some(NoDefinition))
    case Some(definition) =>
      if KindOf(definition.kind).None? then (tables, Some(BadKind))
      else
        match w.define(definition, name !in existing, o.deleteMissing, if name in tables then Some(tables[name]) else None)
        case Failed => (tables, Some(DefinitionFailed(name)))
        case Defined(r) => (tables[name := r], None)
        case NoRows => (tables - {name}, None)
  }

  function DefineAll(w: World, a: Archive, o: Options, existing: seq<string>, tables: Tables, names: seq<string>): (Tables, Option<Fault>)
    decreases |names|
  {
    if names == [] then (tables, None)
    else
      var (next, failed) := DefineOne(w, a, o, existing, tables, names[0]);
      if failed.Some? then (next, failed) else DefineAll(w, a, o, existing, next, names[1..])
  }

  /** `drop_undeclared_collections`, from the collections there were before the import. */
  function DropAll(w: World, a: Archive, current: seq<string>, tables: Tables, dropped: seq<string>): (Tables, Result<seq<string>, Fault>)
    decreases |current|
  {
    if current == [] then (tables, Ok(dropped))
    else if IsSystem(current[0]) || InArchive(a.schema, current[0]) then DropAll(w, a, current[1..], tables, dropped)
    else if !w.drops(current[0]) then (tables, Err(DropFailed(current[0])))
    else DropAll(w, a, current[1..], tables - {current[0]}, dropped + [current[0]])
  }

  /** What follows the definitions. */
  function Finished(w: World, a: Archive, o: Options, current: seq<string>, tables: Tables): (Tables, Result<Outcome, Fault>) {
    var (after, r) := RecordPhase(w, a, o.mode, tables, Writable(a.schema));
    match r
    case Err(e) => (after, Err(e))
    case Ok(p) =>
      if !o.deleteMissing then (after, Ok(Applied(Report(p.imported, Skipped(a.schema), p.errors, []))))
      else
        var (left, dropped) := DropAll(w, a, current, after, []);
        match dropped
        case Err(e) => (left, Err(e))
        case Ok(names) => (left, Ok(Applied(Report(p.imported, Skipped(a.schema), p.errors, names))))
  }

  /** `import`. */
  function Imported(w: World, a: Archive, o: Options, current: seq<string>, tables: Tables): (Tables, Result<Outcome, Fault>) {
    if RequiresConfirmation(a, o) then (tables, Ok(NeedsConfirmation(Foreseen(a))))
    else
      var (defined, failed) := DefineAll(w, a, o, current, tables, Writable(a.schema));
      if failed.Some? then (defined, Err(failed.value)) else Finished(w, a, o, current, defined)
  }

  // ---------- What an import can never touch ----------

  ghost predicate TouchesOnly(before: Tables, after: Tables, names: seq<string>) {
    forall n :: n !in names ==> Same(before, after, n)
  }

  lemma {:induction false} DefineTouches(w: World, a: Archive, o: Options, existing: seq<string>, tables: Tables, names: seq<string>)
    ensures TouchesOnly(tables, DefineAll(w, a, o, existing, tables, names).0, names)
    decreases |names|
  {
    if names != [] {
      DefineTouches(w, a, o, existing, DefineOne(w, a, o, existing, tables, names[0]).0, names[1..]);
      assert forall n :: n in names[1..] ==> n in names;
    }
  }

  lemma ApplyTouches(w: World, a: Archive, tables: Tables, name: string)
    ensures ApplyTo(w, a, tables, name).0.Keys == tables.Keys && TouchesOnly(tables, ApplyTo(w, a, tables, name).0, [name])
  {}

  lemma {:induction false} EachTouches(w: World, a: Archive, mode: Mode, p: Progress, names: seq<string>, all: seq<string>)
    ensures var q := Each(w, a, mode, p, names, all); q.tables.Keys == p.tables.Keys && TouchesOnly(p.tables, q.tables, names)
    decreases |names|
  {
    if names != [] {
      var next := Attempt(w, a, p, names[0]);
      ApplyTouches(w, a, p.tables, names[0]);
      assert next.tables.Keys == p.tables.Keys && TouchesOnly(p.tables, next.tables, [names[0]]);
      if mode == PerCollection && ApplyTo(w, a, p.tables, names[0]).1.Some? {
        AbandonedOnlyAdds(next, all);
      } else {
        EachTouches(w, a, mode, next, names[1..], all);
        assert forall n :: n in names[1..] ==> n in names;
      }
    }
  }

  lemma {:induction false} ThroughTouches(w: World, a: Archive, tables: Tables, names: seq<string>)
    ensures var after := Through(w, a, tables, names).0; after.Keys == tables.Keys && TouchesOnly(tables, after, names)
    decreases |names|
  {
    if names != [] {
      ApplyTouches(w, a, tables, names[0]);
      ThroughTouches(w, a, ApplyTo(w, a, tables, names[0]).0, names[1..]);
      assert forall n :: n in names[1..] ==> n in names;
    }
  }

  /** A drop takes away a user collection that was there before and that the archive does not name. */
  predicate Droppable(a: Archive, current: seq<string>, name: string) {
    name in current && !IsSystem(name) && !InArchive(a.schema, name)
  }

  lemma {:induction false} DropsOnlyDroppable(w: World, a: Archive, current: seq<string>, tables: Tables, dropped: seq<string>)
    ensures var (after, r) := DropAll(w, a, current, tables, dropped);
            && (forall n :: !Droppable(a, current, n) ==> Same(tables, after, n))
            && (forall n :: n in after ==> n in tables && after[n] == tables[n])
            && (r.Ok? ==> forall n :: n in r.value <==> n in dropped || Droppable(a, current, n))
            && (r.Ok? ==> forall n :: Droppable(a, current, n) ==> n !in after)
    decreases |current|
  {
    if current != [] {
      var c := current[0];
      assert forall n :: n in current <==> n == c || n in current[1..];
      if IsSystem(c) || InArchive(a.schema, c) {
        assert forall n :: Droppable(a, current, n) <==> Droppable(a, current[1..], n);
        DropsOnlyDroppable(w, a, current[1..], tables, dropped);
      } else if w.drops(c) {
        assert forall n :: Droppable(a, current, n) <==> n == c || Droppable(a, current[1..], n);
        DropsOnlyDroppable(w, a, current[1..], tables - {c}, dropped + [c]);
        forall n | !Droppable(a, current, n) ensures Same(tables, DropAll(w, a, current, tables, dropped).0, n) {
          assert Same(tables - {c}, DropAll(w, a, current, tables, dropped).0, n);
        }
      }
    }
  }

  lemma FinishedTouches(w: World, a: Archive, o: Options, current: seq<string>, tables: Tables)
    ensures var (after, r) := Finished(w, a, o, current, tables);
            && (forall n :: n !in Writable(a.schema) && !(o.deleteMissing && Droppable(a, current, n)) ==> Same(tables, after, n))
            && (forall n :: n in tables && n !in after ==> o.deleteMissing && Droppable(a, current, n))
  {
    var names := Writable(a.schema);
    EachTouches(w, a, o.mode, Progress(tables, [], []), names, names);
    ThroughTouches(w, a, tables, names);
    DropsOnlyDroppable(w, a, current, RecordPhase(w, a, o.mode, tables, names).0, []);
  }

  /** Whatever the archive says, in every mode and however far the import came: a system collection is neither written
      nor dropped; a collection the archive does not name is untouched unless the caller asked for what is missing to be
      dropped; and an import waiting for confirmation, which is exactly one that is too large and was not confirmed,
      changes nothing. */
  lemma ImportTouchesOnlyItsOwn(w: World, a: Archive, o: Options, current: seq<string>, tables: Tables)
    ensures var (after, r) := Imported(w, a, o, current, tables);
            && (forall n :: IsSystem(n) ==> Same(tables, after, n))
            && (forall n :: !InArchive(a.schema, n) && !o.deleteMissing ==> Same(tables, after, n))
            && (forall n :: !InArchive(a.schema, n) && n !in current ==> Same(tables, after, n))
            && ((r.Ok? && r.value.NeedsConfirmation?) <==> RecordsIn(a, Writable(a.schema)) > o.threshold && !o.confirm)
            && (RequiresConfirmation(a, o) ==> after == tables && r.value.preflight == Foreseen(a))
  {
    if !RequiresConfirmation(a, o) {
      var names := Writable(a.schema);
      var (defined, failed) := DefineAll(w, a, o, current, tables, names);
      DefineTouches(w, a, o, current, tables, names);
      FinishedTouches(w, a, o, current, defined);
      var after := Imported(w, a, o, current, tables).0;
      forall n | n !in names && !(o.deleteMissing && Droppable(a, current, n)) ensures Same(tables, after, n) {
        assert Same(tables, defined, n);
      }
      forall n | IsSystem(n) || !InArchive(a.schema, n) ensures n !in names { WritableExactly(a.schema, n); }
    }
  }

  /** After an import that was asked to drop what is missing and came to its end, the user collections there were that
      the archive does not name are reported, exactly, and their tables are gone; a table it names is never dropped. */
  lemma DropsExactlyTheUndeclared(w: World, a: Archive, o: Options, current: seq<string>, tables: Tables)
    requires !RequiresConfirmation(a, o) && Imported(w, a, o, current, tables).1.Ok?
    ensures var (after, r) := Imported(w, a, o, current, tables);
            && (forall n :: n in r.value.report.removed <==> o.deleteMissing && Droppable(a, current, n))
            && (forall n :: n in r.value.report.removed ==> n !in after)
            && (forall n :: n in DefineAll(w, a, o, current, tables, Writable(a.schema)).0 && n !in after ==> n in r.value.report.removed)
  {
    var names := Writable(a.schema);
    var defined := DefineAll(w, a, o, current, tables, names).0;
    FinishedTouches(w, a, o, current, defined);
    DropsOnlyDroppable(w, a, current, RecordPhase(w, a, o.mode, defined, names).0, []);
  }

  // ---------- What the definitions become ----------

  /** What `define` is asked for a name: its definition, whether it is new, whether to prune, and the relation there is. */
  function Asked(w: World, a: Archive, o: Options, existing: seq<string>, tables: Tables, name: string): Defining
    requires DefinitionOf(a.schema, name).Some?
  {
    w.define(DefinitionOf(a.schema, name).value, !(name in existing), o.deleteMissing,
             if name in tables then Some(tables[name]) else None)
  }

  predicate KnownType(c: Collection) {
    c.kind.Some? ==> c.kind.value in {"base", "auth", "view"}
  }

  /** The name now stands for exactly what `define` made of it: a table, or none for a view. */
  ghost predicate IsDefined(w: World, a: Archive, o: Options, existing: seq<string>, before: Tables, after: Tables, name: string) {
    && DefinitionOf(a.schema, name).Some? && KnownType(DefinitionOf(a.schema, name).value)
    && match Asked(w, a, o, existing, before, name)
       case Failed => false
       case Defined(r) => name in after && after[name] == r
       case NoRows => name !in after
  }

  /** The name is refused: for its type, or by `define`. */
  ghost predicate IsRefused(w: World, a: Archive, o: Options, existing: seq<string>, before: Tables, name: string, fault: Fault) {
    && DefinitionOf(a.schema, name).Some?
    && if !KnownType(DefinitionOf(a.schema, name).value) then fault == BadKind
       else Asked(w, a, o, existing, before, name) == Failed && fault == DefinitionFailed(name)
  }

  lemma OneIsDefined(w: World, a: Archive, o: Options, existing: seq<string>, tables: Tables, name: string)
    requires DefinitionOf(a.schema, name).Some?
    ensures var (after, failed) := DefineOne(w, a, o, existing, tables, name);
            && TouchesOnly(tables, after, [name])
            && (failed.None? ==> IsDefined(w, a, o, existing, tables, after, name))
            && (failed.Some? ==> after == tables && IsRefused(w, a, o, existing, tables, name, failed.value))
  {}

  /** The definitions are applied in order, up to the first that is refused: every name before it stands for what `define`
      makes of what there was, and from it on nothing is changed. */
  lemma {:induction false} DefinitionsAreApplied(w: World, a: Archive, o: Options, existing: seq<string>, tables: Tables, names: seq<string>)
    returns (k: nat)
    requires Distinct(names) && forall n :: n in names ==> DefinitionOf(a.schema, n).Some?
    ensures var (after, failed) := DefineAll(w, a, o, existing, tables, names);
            && k <= |names| && (failed.None? <==> k == |names|)
            && (forall i :: 0 <= i < k ==> IsDefined(w, a, o, existing, tables, after, names[i]))
            && (forall i :: k <= i < |names| ==> Same(tables, after, names[i]))
            && (k < |names| ==> IsRefused(w, a, o, existing, tables, names[k], failed.value))
    decreases |names|
  {
    k := 0;
    if names != [] {
      var first, rest := names[0], names[1..];
      assert first in names;
      OneIsDefined(w, a, o, existing, tables, first);
      var (next, failed) := DefineOne(w, a, o, existing, tables, first);
      if failed.None? {
        k := DefinitionsAreApplied(w, a, o, existing, next, rest);
        DefineTouches(w, a, o, existing, next, rest);
        FirstStays(w, a, o, existing, tables, next, DefineAll(w, a, o, existing, next, rest).0, names, k);
        k := k + 1;
      }
    }
  }

  lemma FirstStays(w: World, a: Archive, o: Options, existing: seq<string>, before: Tables, mid: Tables, after: Tables,
                   names: seq<string>, k: nat)
    requires names != [] && Distinct(names) && k < |names|
    requires TouchesOnly(before, mid, [names[0]]) && TouchesOnly(mid, after, names[1..])
    requires IsDefined(w, a, o, existing, before, mid, names[0])
    requires forall i :: 0 <= i < k ==> IsDefined(w, a, o, existing, mid, after, names[1..][i])
    requires forall i :: k <= i < |names| - 1 ==> Same(mid, after, names[1..][i])
    ensures forall i :: 0 <= i <= k ==> IsDefined(w, a, o, existing, before, after, names[i])
    ensures forall i :: k < i < |names| ==> Same(before, after, names[i])
    ensures k + 1 < |names| ==> Same(before, mid, names[k + 1])
  {
    assert names[0] !in names[1..];
    assert Same(mid, after, names[0]);
    forall i | 0 < i <= k ensures IsDefined(w, a, o, existing, before, after, names[i]) {
      assert names[i] == names[1..][i - 1] && Same(before, mid, names[i]);
    }
    forall i | k < i < |names| ensures Same(before, after, names[i]) {
      assert names[i] == names[1..][i - 1] && Same(before, mid, names[i]);
    }
  }

  /** A whole import that comes to its end: every name the archive may write was defined, the records of every collection it
      reports as imported are in the table so defined, and the others are as they were defined. */
  lemma ImportDefinesAndFills(w: World, a: Archive, o: Options, current: seq<string>, tables: Tables, defined: Tables)
    requires DistinctNames(a.schema) && !RequiresConfirmation(a, o)
    requires defined == DefineAll(w, a, o, current, tables, Writable(a.schema)).0 && SoundTables(defined)
    requires Imported(w, a, o, current, tables).1.Ok?
    ensures var (after, r) := Imported(w, a, o, current, tables);
            && r.value.Applied? && r.value.report.skipped == Skipped(a.schema)
            && multiset(ListedNames(r.value.report)) + multiset(FailedNames(r.value.report)) == multiset(Writable(a.schema))
            && (forall n :: n in Writable(a.schema) ==> IsDefined(w, a, o, current, tables, defined, n))
            && (forall n :: n in Writable(a.schema) && Listed(r.value.report, n) ==> Landed(a, defined, after, n))
            && (forall n :: n in Writable(a.schema) && !Listed(r.value.report, n) ==> Same(defined, after, n))
  {
    var names := Writable(a.schema);
    WritableIsDistinct(a.schema);
    forall n | n in names ensures DefinitionOf(a.schema, n).Some? && InArchive(a.schema, n) { WritableExactly(a.schema, n); }
    var k := DefinitionsAreApplied(w, a, o, current, tables, names);
    forall n | n in names ensures IsDefined(w, a, o, current, tables, defined, n) {
      var i :| 0 <= i < |names| && names[i] == n;
    }
    PhaseLands(w, a, o.mode, defined, names);
    var (filled, p) := RecordPhase(w, a, o.mode, defined, names);
    assert ListedNames(Imported(w, a, o, current, tables).1.value.report) == ImportedNames(p.value);
    assert FailedNames(Imported(w, a, o, current, tables).1.value.report) == ErrorNames(p.value);
    DropsOnlyDroppable(w, a, current, filled, []);
    var after := Imported(w, a, o, current, tables).0;
    forall n | n in names ensures Same(filled, after, n) {}
  }

  function ListedNames(r: Report): seq<string> {
    seq(|r.imported|, i requires 0 <= i < |r.imported| => r.imported[i].name)
  }

  function FailedNames(r: Report): seq<string> {
    seq(|r.errors|, i requires 0 <= i < |r.errors| => r.errors[i].0)
  }

  predicate Listed(r: Report, name: string) {
    exists i :: 0 <= i < |r.imported| && r.imported[i].name == name
  }

  lemma PhaseLands(w: World, a: Archive, mode: Mode, tables: Tables, names: seq<string>)
    requires SoundTables(tables) && Distinct(names) && RecordPhase(w, a, mode, tables, names).1.Ok?
    ensures var r := RecordPhase(w, a, mode, tables, names).1;
            multiset(ImportedNames(r.value)) + multiset(ErrorNames(r.value)) == multiset(names)
    ensures var (after, r) := RecordPhase(w, a, mode, tables, names);
            forall n :: n in names ==>
              if exists i :: 0 <= i < |r.value.imported| && r.value.imported[i].name == n
              then Landed(a, tables, after, n) else Same(tables, after, n)
  {
    var r := RecordPhase(w, a, mode, tables, names).1;
    if mode == Batch { BatchIsAllOrNothing(w, a, tables, names); } else { EveryCollectionIsSettled(w, a, mode, tables, names); }
    forall n ensures n in ImportedNames(r.value) <==> exists i :: 0 <= i < |r.value.imported| && r.value.imported[i].name == n {
      if i :| 0 <= i < |r.value.imported| && r.value.imported[i].name == n { assert ImportedNames(r.value)[i] == n; }
    }
  }

  // ---------- The import as it runs ----------

  class Database {
    var tables: Tables

    constructor (tables: Tables)
      ensures this.tables == tables
    {
      this.tables := tables;
    }

    /** `apply_records`, record by record. */
    method ApplyRecords(w: World, a: Archive, name: string) returns (failed: Option<Fault>)
      modifies this
      ensures (tables, failed) == ApplyTo(w, a, old(tables), name)
    {
      var definition := DefinitionOf(a.schema, name);
      if definition.None? { return Some(NoDefinition); }
      var kind := KindOf(definition.value.kind);
      if kind.None? { return Some(BadKind); }
      var records := Lookup(a.data, name);
      if kind.value.View? || records == [] { return None; }
      if name !in tables { return Some(BadRecord(NoTable(records[0]))); }
      var shape := tables[name].shape;
      var accepts := Accepting(w, tables, name);
      var rows := tables[name].rows;
      ghost var whole := Records.Applied(shape, accepts, rows, records);
      var k := 0;
      assert records[0..] == records;
      while k < |records|
        invariant 0 <= k <= |records|
        invariant name in tables && tables == WithRows(old(tables), name, rows)
        invariant whole == Records.Applied(shape, accepts, rows, records[k..])
      {
        assert records[k..][0] == records[k] && records[k..][1..] == records[k + 1..];
        var r := Upsert(shape, accepts, rows, records[k]);
        if r.Err? {
          return Some(BadRecord(r.error));
        }
        rows := r.value;
        tables := WithRows(tables, name, rows);
        k := k + 1;
      }
      return None;
    }

    /** The record phase under `batch`. */
    method ApplyBatch(w: World, a: Archive, names: seq<string>) returns (r: Result<Progress, Fault>)
      modifies this
      ensures (tables, r) == RecordPhase(w, a, Batch, old(tables), names)
    {
      var before := tables;
      var imported: seq<Line> := [];
      var k := 0;
      assert names[0..] == names;
      while k < |names|
        invariant 0 <= k <= |names|
        invariant Through(w, a, before, names) == Through(w, a, tables, names[k..])
        invariant imported == Reports(a, names)[..k]
      {
        var failed := ApplyRecords(w, a, names[k]);
        assert names[k..][0] == names[k] && names[k..][1..] == names[k + 1..];
        if failed.Some? {
          tables := before;
          return Err(failed.value);
        }
        imported := imported + [ReportOf(a, names[k])];
        k := k + 1;
      }
      if !w.commits(names, tables) {
        tables := before;
        return Err(CommitFailed);
      }
      assert Reports(a, names)[..|names|] == Reports(a, names);
      return Ok(Progress(tables, imported, []));
    }

    /** What is left over once `per_collection` stops. */
    method Abandon(p: Progress, names: seq<string>) returns (q: Progress)
      ensures q == Abandoned(p, names)
    {
      q := p;
      var k := 0;
      assert names[0..] == names;
      while k < |names|
        invariant 0 <= k <= |names|
        invariant Abandoned(p, names) == Abandoned(q, names[k..])
      {
        assert names[k..][0] == names[k] && names[k..][1..] == names[k + 1..];
        if !Reported(q, names[k]) {
          q := q.(errors := q.errors + [(names[k], NotAttempted)]);
        }
        k := k + 1;
      }
    }

    /** The record phase under `per_collection` and `continue`. */
    method ApplyEach(w: World, a: Archive, mode: Mode, names: seq<string>) returns (p: Progress)
      requires mode != Batch
      modifies this
      ensures p == Each(w, a, mode, Progress(old(tables), [], []), names, names) && tables == p.tables
    {
      p := Progress(tables, [], []);
      ghost var start := p;
      var k := 0;
      assert names[0..] == names;
      while k < |names|
        invariant 0 <= k <= |names| && tables == p.tables
        invariant Each(w, a, mode, start, names, names) == Each(w, a, mode, p, names[k..], names)
      {
        assert names[k..][0] == names[k] && names[k..][1..] == names[k + 1..];
        var before := tables;
        var failed := ApplyRecords(w, a, names[k]);
        if failed.Some? {
          tables := before;
          p := p.(errors := p.errors + [(names[k], failed.value)]);
          if mode == PerCollection {
            AbandonedOnlyAdds(p, names);
            p := Abandon(p, names);
            return p;
          }
        } else if !w.commits([names[k]], tables) {
          tables := before;
          p := p.(errors := p.errors + [(names[k], CommitFailed)]);
        } else {
          p := p.(tables := tables, imported := p.imported + [ReportOf(a, names[k])]);
        }
        k := k + 1;
      }
    }

    /** The definitions, each in a transaction of its own. */
    method Define(w: World, a: Archive, o: Options, current: seq<string>, names: seq<string>) returns (failed: Option<Fault>)
      modifies this
      ensures (tables, failed) == DefineAll(w, a, o, current, old(tables), names)
    {
      var k := 0;
      assert names[0..] == names;
      while k < |names|
        invariant 0 <= k <= |names|
        invariant DefineAll(w, a, o, current, old(tables), names) == DefineAll(w, a, o, current, tables, names[k..])
      {
        assert names[k..][0] == names[k] && names[k..][1..] == names[k + 1..];
        var (next, fault) := DefineOne(w, a, o, current, tables, names[k]);
        tables := next;
        if fault.Some? {
          return fault;
        }
        k := k + 1;
      }
      return None;
    }

    method DropUndeclared(w: World, a: Archive, current: seq<string>) returns (r: Result<seq<string>, Fault>)
      modifies this
      ensures (tables, r) == DropAll(w, a, current, old(tables), [])
    {
      var dropped: seq<string> := [];
      var k := 0;
      assert current[0..] == current;
      while k < |current|
        invariant 0 <= k <= |current|
        invariant DropAll(w, a, current, old(tables), []) == DropAll(w, a, current[k..], tables, dropped)
      {
        assert current[k..][0] == current[k] && current[k..][1..] == current[k + 1..];
        if !IsSystem(current[k]) && !InArchive(a.schema, current[k]) {
          if !w.drops(current[k]) {
            return Err(DropFailed(current[k]));
          }
          tables := tables - {current[k]};
          dropped := dropped + [current[k]];
        }
        k := k + 1;
      }
      return Ok(dropped);
    }

    /** `import`. */
    method Run(w: World, a: Archive, o: Options, current: seq<string>) returns (r: Result<Outcome, Fault>)
      modifies this
      ensures (tables, r) == Imported(w, a, o, current, old(tables))
    {
      var preflight := Foresee(a);
      if preflight.total > o.threshold && !o.confirm {
        return Ok(NeedsConfirmation(preflight));
      }
      var names := Writable(a.schema);
      var failed := Define(w, a, o, current, names);
      if failed.Some? {
        return Err(failed.value);
      }
      var p: Progress;
      if o.mode == Batch {
        var applied := ApplyBatch(w, a, names);
        if applied.Err? {
          return Err(applied.error);
        }
        p := applied.value;
      } else {
        p := ApplyEach(w, a, o.mode, names);
      }
      var removed: seq<string> := [];
      if o.deleteMissing {
        var dropped := DropUndeclared(w, a, current);
        if dropped.Err? {
          return Err(dropped.error);
        }
        removed := dropped.value;
      }
      return Ok(Applied(Report(p.imported, preflight.skipped, p.errors, removed)));
    }
  }
}
