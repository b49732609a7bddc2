/** Export, and the row phase of a destructive restore (crates/db/src/backup.rs:523-685): triggers off, rows out, rows
    in, triggers on, in one transaction. */
module Restore {
  import opened Wrappers
  import opened JsonModel
  import opened Payload
  import opened Records
  import opened Import

  /** The tables, and those whose triggers are off. */
  datatype Live = Live(tables: Tables, off: set<string>)

  // ---------- Export ----------

  predicate IsTable(c: Collection) {
    KindOf(c.kind) != Some(View)
  }

  /** `select to_jsonb(t) … order by id`; `order` is the database's order of ids. */
  function Dumped(tables: Tables, order: Table -> seq<string>, c: Collection): seq<Json>
    requires forall t, id :: id in order(t) ==> id in t
  {
    if IsTable(c) && c.name in tables then RowRecords(tables[c.name].rows, order(tables[c.name].rows)) else []
  }

  function UserCollections(cs: seq<Collection>): seq<Collection> {
    if cs == [] then [] else Kept(cs[0]) + UserCollections(cs[1..])
  }

  function Kept(c: Collection): seq<Collection> {
    if IsSystem(c.name) then [] else [c]
  }

  function DumpedAll(tables: Tables, order: Table -> seq<string>, cs: seq<Collection>): Data
    requires forall t, id :: id in order(t) ==> id in t
  {
    seq(|cs|, i requires 0 <= i < |cs| => (cs[i].name, Dumped(tables, order, cs[i])))
  }

  function Counted(cs: seq<Collection>, data: Data): seq<Line>
    requires |cs| == |data|
  {
    seq(|cs|, i requires 0 <= i < |cs| => Line(cs[i].name, cs[i].kind, |data[i].1|))
  }

  lemma CountedGrows(cs: seq<Collection>, data: Data, c: Collection, d: (string, seq<Json>))
    requires |cs| == |data|
    ensures Counted(cs + [c], data + [d]) == Counted(cs, data) + [Line(c.name, c.kind, |d.1|)]
  {}

  /** What the loop has gathered from some collections. */
  ghost predicate SoFar(tables: Tables, order: Table -> seq<string>, seen: seq<Collection>,
                        lines: seq<Line>, schema: seq<Collection>, data: Data, total: nat)
    requires forall t, id :: id in order(t) ==> id in t
  {
    && schema == UserCollections(seen) && data == DumpedAll(tables, order, schema)
    && lines == Counted(schema, data) && total == RecordCount(data)
  }

  lemma SoFarStep(tables: Tables, order: Table -> seq<string>, seen: seq<Collection>,
                  lines: seq<Line>, schema: seq<Collection>, data: Data, total: nat, c: Collection)
    requires forall t, id :: id in order(t) ==> id in t
    requires SoFar(tables, order, seen, lines, schema, data, total)
    ensures var records := Dumped(tables, order, c);
            if IsSystem(c.name) then SoFar(tables, order, seen + [c], lines, schema, data, total)
            else SoFar(tables, order, seen + [c], lines + [Line(c.name, c.kind, |records|)], schema + [c],
                       data + [(c.name, records)], total + |records|)
  {
    var records := Dumped(tables, order, c);
    UserCollectionsGrow(seen, c);
    RecordCountGrows(data, (c.name, records));
    DumpedAllGrows(tables, order, schema, c);
    CountedGrows(schema, data, c, (c.name, records));
    assert schema + [] == schema;
  }

  lemma DumpedAllGrows(tables: Tables, order: Table -> seq<string>, cs: seq<Collection>, c: Collection)
    requires forall t, id :: id in order(t) ==> id in t
    ensures DumpedAll(tables, order, cs + [c]) == DumpedAll(tables, order, cs) + [(c.name, Dumped(tables, order, c))]
  {}

  /** `export`: every user collection's definition, and the rows of those that are tables. */
  function Exported(tables: Tables, order: Table -> seq<string>, current: seq<Collection>): Archive
    requires forall t, id :: id in order(t) ==> id in t
  {
    var cs := UserCollections(current);
    var data := DumpedAll(tables, order, cs);
    var lines := Counted(cs, data);
    Archive(Manifest(FORMAT, VERSION, lines, |lines|, RecordCount(data)), cs, data)
  }

  // ---------- The row phase ----------

  /** The snapshot's tables among `names`, or nothing when a type is unknown. */
  function DataNames(a: Archive, names: seq<string>): Option<seq<string>> {
    if names == [] then Some([])
    else
      var definition := DefinitionOf(a.schema, names[0]);
      var rest := DataNames(a, names[1..]);
      if definition.None? || KindOf(definition.value.kind).None? || rest.None? then None
      else Some((if IsTable(definition.value) then [names[0]] else []) + rest.value)
  }

  function Cleared(tables: Tables, names: seq<string>): Tables {
    map n | n in tables :: if n in names then tables[n].(rows := map[]) else tables[n]
  }

  predicate AllThere(tables: Tables, names: seq<string>) {
    forall n :: n in names ==> n in tables
  }

  datatype Failure = NoTable | NotATable | Failing(fault: Fault)

  /** What the transaction makes of the state before its commit. Triggers are switched off on the tables and on again on
      every name; switching them on is refused for a view. */
  function InTransaction(w: World, a: Archive, s: Live, names: seq<string>, data: seq<string>): Result<Live, Failure> {
    if !AllThere(s.tables, data) then Err(NoTable)
    else
      var (tables, failed) := Through(w, a, Cleared(s.tables, data), data);
      if failed.Some? then Err(Failing(failed.value))
      else if exists n :: n in names && n !in data then Err(NotATable)
      else Ok(Live(tables, s.off + Members(data) - Members(names)))
  }

  function Members(names: seq<string>): set<string> {
    set n | n in names
  }

  /** The row phase of `restore_snapshot`. */
  function RestoredRows(w: World, a: Archive, s: Live): (Live, Result<seq<Line>, Failure>) {
    var names := Writable(a.schema);
    match DataNames(a, names)
    case None => (s, Err(Failing(BadKind)))
    case Some(data) =>
      match InTransaction(w, a, s, names, data)
      case Err(e) => (s, Err(e))
      case Ok(next) => if w.commits(data, next.tables) then (next, Ok(Reports(a, data))) else (s, Err(Failing(CommitFailed)))
  }

  class Server {
    var tables: Tables
    var off: set<string>

    constructor (tables: Tables)
      ensures this.tables == tables && off == {}
    {
      this.tables := tables;
      off := {};
    }

    /** `export`'s loop over the collections. */
    method Export(order: Table -> seq<string>, current: seq<Collection>) returns (a: Archive)
      requires forall t, id :: id in order(t) ==> id in t
      ensures a == Exported(tables, order, current)
    {
      var lines: seq<Line> := [];
      var schema: seq<Collection> := [];
      var data: Data := [];
      var total: nat := 0;
      for i := 0 to |current|
        invariant SoFar(tables, order, current[..i], lines, schema, data, total)
      {
        var c := current[i];
        SoFarStep(tables, order, current[..i], lines, schema, data, total, c);
        assert current[..i + 1] == current[..i] + [c];
        if !IsSystem(c.name) {
          var records := Dumped(tables, order, c);
          lines := lines + [Line(c.name, c.kind, |records|)];
          schema := schema + [c];
          data := data + [(c.name, records)];
          total := total + |records|;
        }
      }
      assert current[..|current|] == current;
      a := Archive(Manifest(FORMAT, VERSION, lines, |lines|, total), schema, data);
    }

    method DisableTriggers(names: seq<string>)
      modifies this`off
      ensures off == old(off) + Members(names)
    {
      for i := 0 to |names|
        invariant off == old(off) + Members(names[..i])
      {
        assert names[..i + 1] == names[..i] + [names[i]];
        off := off + {names[i]};
      }
      assert names[..|names|] == names;
    }

    method DeleteRows(names: seq<string>)
      requires AllThere(tables, names)
      modifies this`tables
      ensures tables == Cleared(old(tables), names)
    {
      for i := 0 to |names|
        invariant tables == Cleared(old(tables), names[..i])
      {
        assert names[..i + 1] == names[..i] + [names[i]];
        tables := tables[names[i] := tables[names[i]].(rows := map[])];
      }
      assert names[..|names|] == names;
    }

    method InsertRows(w: World, a: Archive, names: seq<string>) returns (r: Result<seq<Line>, Fault>)
      modifies this`tables
      ensures var (next, failed) := Through(w, a, old(tables), names);
              tables == next && r == if failed.Some? then Err(failed.value) else Ok(Reports(a, names))
    {
      var imported: seq<Line> := [];
      assert names[0..] == names;
      for i := 0 to |names|
        invariant Through(w, a, old(tables), names) == Through(w, a, tables, names[i..])
        invariant imported == Reports(a, names)[..i]
      {
        assert names[i..][0] == names[i] && names[i..][1..] == names[i + 1..];
        var (next, failed) := ApplyTo(w, a, tables, names[i]);
        tables := next;
        if failed.Some? {
          return Err(failed.value);
        }
        imported := imported + [ReportOf(a, names[i])];
      }
      assert Reports(a, names)[..|names|] == Reports(a, names);
      return Ok(imported);
    }

    /** Refused for what is not a table. */
    method EnableTriggers(names: seq<string>, data: seq<string>) returns (ok: bool)
      modifies this`off
      ensures ok <==> forall n :: n in names ==> n in data
      ensures ok ==> off == old(off) - Members(names)
    {
      for i := 0 to |names|
        invariant off == old(off) - Members(names[..i])
        invariant forall n :: n in names[..i] ==> n in data
      {
        assert names[..i + 1] == names[..i] + [names[i]];
        if names[i] !in data {
          return false;
        }
        off := off - {names[i]};
      }
      assert names[..|names|] == names;
      return true;
    }

    /** The row phase. Nothing that happened inside the transaction outlives a failure. */
    method RestoreRows(w: World, a: Archive) returns (r: Result<seq<Line>, Failure>)
      modifies this
      ensures (Live(tables, off), r) == RestoredRows(w, a, Live(old(tables), old(off)))
    {
      var names := Writable(a.schema);
      var found := DataNames(a, names);
      if found.None? {
        return Err(Failing(BadKind));
      }
      var data := found.value;
      if !AllThere(tables, data) {
        return Err(NoTable);
      }
      var tablesBefore, offBefore := tables, off;
      DisableTriggers(data);
      DeleteRows(data);
      var inserted := InsertRows(w, a, data);
      if inserted.Err? {
        tables, off := tablesBefore, offBefore;
        return Err(Failing(inserted.error));
      }
      var enabled := EnableTriggers(names, data);
      if !enabled {
        tables, off := tablesBefore, offBefore;
        return Err(NotATable);
      }
      if !w.commits(data, tables) {
        tables, off := tablesBefore, offBefore;
        return Err(Failing(CommitFailed));
      }
      return Ok(inserted.value);
    }
  }

  lemma Associate(x: seq<Collection>, y: seq<Collection>, z: seq<Collection>)
    ensures x + (y + z) == x + y + z
  {}

  lemma {:induction false} UserCollectionsGrow(cs: seq<Collection>, c: Collection)
    ensures UserCollections(cs + [c]) == UserCollections(cs) + Kept(c)
  {
    if cs == [] {
      assert [c][1..] == [];
    } else {
      UserCollectionsGrow(cs[1..], c);
      assert (cs + [c])[0] == cs[0] && (cs + [c])[1..] == cs[1..] + [c];
      Associate(Kept(cs[0]), UserCollections(cs[1..]), Kept(c));
    }
  }

  lemma {:induction false} RecordCountGrows(data: Data, d: (string, seq<Json>))
    ensures RecordCount(data + [d]) == RecordCount(data) + |d.1|
  {
    if data == [] {
      assert [d][1..] == [];
    } else {
      RecordCountGrows(data[1..], d);
      assert (data + [d])[1..] == data[1..] + [d];
    }
  }

  /** What an export holds: for every user collection its definition, and for a table its rows, one record each, for a view
      none; and totals that count them. */
  lemma ExportExactly(tables: Tables, order: Table -> seq<string>, current: seq<Collection>)
    requires Ordering(order)
    ensures var e := Exported(tables, order, current);
            && e.schema == UserCollections(current) && |e.data| == |e.schema| == |e.manifest.collections|
            && e.manifest.format == "lazypock-archive" && e.manifest.version == 1
            && e.manifest.totalCollections == |e.schema| && e.manifest.totalRecords == RecordCount(e.data)
            && forall i :: 0 <= i < |e.schema| ==>
                 && e.data[i] == (e.schema[i].name, Dumped(tables, order, e.schema[i]))
                 && e.manifest.collections[i] == Line(e.schema[i].name, e.schema[i].kind, |e.data[i].1|)
  {}

  lemma RowsAreDumped(tables: Tables, order: Table -> seq<string>, c: Collection)
    requires Ordering(order)
    ensures c.kind != Some("view") && c.name in tables ==>
              Dumped(tables, order, c) == RowRecords(tables[c.name].rows, order(tables[c.name].rows))
    ensures c.kind == Some("view") ==> Dumped(tables, order, c) == []
  {}

  /** No system collection is exported, and every other is, in order. */
  lemma {:induction false} UserCollectionsExactly(cs: seq<Collection>, c: Collection)
    ensures c in UserCollections(cs) <==> c in cs && !("_" <= c.name)
    ensures UserCollections(cs + [c]) == if "_" <= c.name then UserCollections(cs) else UserCollections(cs) + [c]
  {
    UserCollectionsGrow(cs, c);
    assert UserCollections(cs) + [] == UserCollections(cs);
    if cs != [] {
      UserCollectionsExactly(cs[1..], c);
      assert cs == [cs[0]] + cs[1..];
    }
  }

  /** When the row phase fails: for a type that is unknown, a table that is not there, a record that does not apply, a view,
      or a commit; and never with anything changed. */
  lemma RowPhaseFailsExactly(w: World, a: Archive, s: Live, data: seq<string>)
    requires DataNames(a, Writable(a.schema)) == Some(data)
    ensures var (after, r) := RestoredRows(w, a, s);
            var names, filled := Writable(a.schema), Through(w, a, Cleared(s.tables, data), data);
            && (r.Err? ==> after == s)
            && (r == Err(NoTable) <==> exists n :: n in data && n !in s.tables)
            && ((forall n :: n in data ==> n in s.tables) ==>
                  && (filled.1.Some? ==> r == Err(Failing(filled.1.value)))
                  && (filled.1.None? && (exists n :: n in names && n !in data) ==> r == Err(NotATable))
                  && (filled.1.None? && (forall n :: n in names ==> n in data) ==>
                        if w.commits(data, filled.0)
                        then r == Ok(Reports(a, data)) && after.tables == filled.0
                        else r == Err(Failing(CommitFailed))))
  {}

  /** A snapshot with a type that is unknown is refused before anything is done. */
  lemma UnknownTypeIsRefused(w: World, a: Archive, s: Live)
    ensures DataNames(a, Writable(a.schema)).None? <==>
            exists n :: n in Writable(a.schema) && DefinitionOf(a.schema, n).Some? && KindOf(DefinitionOf(a.schema, n).value.kind).None?
    ensures DataNames(a, Writable(a.schema)).None? ==> RestoredRows(w, a, s) == (s, Err(Failing(BadKind)))
  {
    var names := Writable(a.schema);
    forall n | n in names ensures DefinitionOf(a.schema, n).Some? { WritableExactly(a.schema, n); }
    if DataNames(a, names).Some? {
      KindsAreKnown(a, names);
    } else if forall n :: n in names ==> KindOf(DefinitionOf(a.schema, n).value.kind).Some? {
      DataNamesAre(a, names);
    }
  }

  // ---------- Restoring what was exported ----------

  /** With triggers off the constraints that are left are each table's own, and hold of any part of it. */
  ghost predicate TableByTable(w: World, unique: (string, Table) -> bool) {
    && (forall tables: Tables :: w.accepts(tables) <==> forall n :: n in tables ==> unique(n, tables[n].rows))
    && forall n, t: Table, u: Table :: PartOf(t, u) && unique(n, u) ==> unique(n, t)
  }

  /** `order` lists every id of a table once. */
  ghost predicate Ordering(order: Table -> seq<string>) {
    && (forall t: Table, id :: id in order(t) <==> id in t)
    && forall t: Table :: Distinct(order(t))
  }

  /** The snapshot holds these rows for each of the names, all of them tables. */
  ghost predicate Holds(a: Archive, was: Tables, order: Table -> seq<string>, names: seq<string>)
    requires Ordering(order)
  {
    forall n :: n in names ==>
      && n in was && Lookup(a.data, n) == RowRecords(was[n].rows, order(was[n].rows))
      && DefinitionOf(a.schema, n).Some? && KindOf(DefinitionOf(a.schema, n).value.kind).Some?
      && IsTable(DefinitionOf(a.schema, n).value)
  }

  /** The database still has the tables, with the columns they had, and the rows there were were sound. */
  ghost predicate Ready(w: World, unique: (string, Table) -> bool, was: Tables, now: Tables, names: seq<string>) {
    && TableByTable(w, unique) && w.accepts(now)
    && forall n :: n in names ==>
         && n in was && n in now && now[n].shape == was[n].shape
         && Stored(was[n].shape, was[n].rows) && unique(n, was[n].rows)
  }

  lemma OneTableComesBack(w: World, unique: (string, Table) -> bool, a: Archive, was: Tables, now: Tables, order: Table -> seq<string>, n: string)
    requires Ordering(order) && Holds(a, was, order, [n]) && Ready(w, unique, was, now, [n]) && now[n].rows == map[]
    ensures ApplyTo(w, a, now, n) == (now[n := was[n]], None) && w.accepts(now[n := was[n]])
  {
    assert n in [n];
    var rows, accepts := was[n].rows, Accepting(w, now, n);
    forall t: Table ensures accepts(t) <==> unique(n, t) {
      var next := WithRows(now, n, t);
      assert forall m :: m in now ==> unique(m, now[m].rows);
      assert accepts(t) <==> w.accepts(next);
      assert next[n].rows == t;
    }
    assert HoldsOfParts(accepts);
    RowsComeBack(was[n].shape, accepts, rows, order(rows));
    if order(rows) == [] {
      assert rows == map[];
      assert now[n := was[n]] == now;
    } else {
      assert WithRows(now, n, rows) == now[n := was[n]];
    }
    assert accepts(rows);
    assert now[n := was[n]] == WithRows(now, n, rows);
  }

  /** `names` of `now` replaced by what they were. */
  function Replaced(was: Tables, now: Tables, names: seq<string>): Tables {
    map n | n in now :: if n in names && n in was then was[n] else now[n]
  }

  lemma {:induction false} TablesComeBack(w: World, unique: (string, Table) -> bool, a: Archive, was: Tables, now: Tables, order: Table -> seq<string>, names: seq<string>)
    requires Ordering(order) && Holds(a, was, order, names) && Ready(w, unique, was, now, names) && Distinct(names)
    requires forall n :: n in names ==> now[n].rows == map[]
    ensures Through(w, a, now, names) == (Replaced(was, now, names), None)
    decreases |names|
  {
    if names == [] {
      assert Replaced(was, now, names) == now;
    } else {
      var n, rest := names[0], names[1..];
      var next := now[n := was[n]];
      FirstIsReady(w, unique, a, was, now, order, names);
      OneTableComesBack(w, unique, a, was, now, order, n);
      RestIsReady(w, unique, a, was, now, order, names);
      TablesComeBack(w, unique, a, was, next, order, rest);
      ReplacedFirst(was, now, names);
    }
  }

  lemma FirstIsReady(w: World, unique: (string, Table) -> bool, a: Archive, was: Tables, now: Tables, order: Table -> seq<string>, names: seq<string>)
    requires Ordering(order) && Holds(a, was, order, names) && Ready(w, unique, was, now, names) && names != []
    ensures Holds(a, was, order, [names[0]]) && Ready(w, unique, was, now, [names[0]])
  {
    assert forall m :: m in [names[0]] ==> m in names;
  }

  lemma RestIsReady(w: World, unique: (string, Table) -> bool, a: Archive, was: Tables, now: Tables, order: Table -> seq<string>, names: seq<string>)
    requires Ordering(order) && Holds(a, was, order, names) && Ready(w, unique, was, now, names) && Distinct(names) && names != []
    requires names[0] in was && w.accepts(now[names[0] := was[names[0]]])
    ensures names[0] !in names[1..]
    ensures Holds(a, was, order, names[1..]) && Ready(w, unique, was, now[names[0] := was[names[0]]], names[1..])
  {
    assert forall m :: m in names[1..] ==> m in names;
  }

  lemma ReplacedFirst(was: Tables, now: Tables, names: seq<string>)
    requires names != [] && names[0] in was && names[0] in now
    ensures Replaced(was, now[names[0] := was[names[0]]], names[1..]) == Replaced(was, now, names)
  {
    assert names == [names[0]] + names[1..];
  }

  lemma ClearedIsAccepted(w: World, unique: (string, Table) -> bool, tables: Tables, names: seq<string>)
    requires TableByTable(w, unique) && w.accepts(tables)
    ensures w.accepts(Cleared(tables, names))
  {
    var next := Cleared(tables, names);
    forall n | n in next ensures unique(n, next[n].rows) {
      assert unique(n, tables[n].rows);
      assert PartOf(next[n].rows, tables[n].rows);
    }
  }

  /** The names of the snapshot's views. */
  predicate HasView(a: Archive, names: seq<string>) {
    exists n :: n in names && DefinitionOf(a.schema, n).Some? && !IsTable(DefinitionOf(a.schema, n).value)
  }

  lemma {:induction false} DataNamesAre(a: Archive, names: seq<string>)
    requires forall n :: n in names ==> DefinitionOf(a.schema, n).Some? && KindOf(DefinitionOf(a.schema, n).value.kind).Some?
    ensures DataNames(a, names).Some?
    ensures forall n :: n in DataNames(a, names).value <==> n in names && IsTable(DefinitionOf(a.schema, n).value)
    ensures Distinct(names) ==> Distinct(DataNames(a, names).value)
  {
    if names != [] {
      assert names == [names[0]] + names[1..];
      assert forall n :: n in names[1..] ==> n in names;
      DataNamesAre(a, names[1..]);
      if Distinct(names) {
        assert Distinct(names[1..]);
        assert names[0] !in names[1..];
      }
    }
  }

  lemma NoViewNoChange(a: Archive, names: seq<string>)
    requires forall n :: n in names ==> DefinitionOf(a.schema, n).Some? && KindOf(DefinitionOf(a.schema, n).value.kind).Some?
    requires !HasView(a, names)
    ensures DataNames(a, names) == Some(names)
  {
    if names != [] {
      assert forall n :: n in names[1..] ==> n in names;
      NoViewNoChange(a, names[1..]);
      assert names[0] in names;
      assert [names[0]] + names[1..] == names;
    }
  }

  /** The named tables are what they were, the others are as they are, and the named tables' triggers are on. */
  ghost predicate BroughtBack(was: Tables, s: Live, after: Live, names: seq<string>) {
    && after.tables.Keys == s.tables.Keys
    && (forall n :: n in names ==> n in after.tables && Same(was, after.tables, n))
    && (forall n :: n !in names ==> Same(s.tables, after.tables, n))
    && after.off == s.off - Members(names)
  }

  lemma ReplacedIsBack(was: Tables, s: Live, names: seq<string>)
    requires forall n :: n in names ==> n in was && n in s.tables
    ensures BroughtBack(was, s, Live(Replaced(was, Cleared(s.tables, names), names), s.off + Members(names) - Members(names)), names)
  {}

  /** Whatever the tables hold by now: the row phase leaves the tables of the snapshot with exactly the rows it was taken
      with, every other table as it is, and every trigger of the snapshot's tables on. It does so exactly when the
      snapshot has no view; with one it fails and changes nothing. */
  lemma RestoreBringsBack(w: World, unique: (string, Table) -> bool, a: Archive, was: Tables, s: Live, order: Table -> seq<string>, data: seq<string>)
    requires Ordering(order) && DistinctNames(a.schema)
    requires var names := Writable(a.schema);
             && (forall n :: n in names ==> DefinitionOf(a.schema, n).Some? && KindOf(DefinitionOf(a.schema, n).value.kind).Some?)
             && DataNames(a, names) == Some(data) && Holds(a, was, order, data) && Ready(w, unique, was, s.tables, data)
    requires forall tables :: w.commits(data, tables)
    ensures var names := Writable(a.schema);
            var (after, r) := RestoredRows(w, a, s);
            && (r.Ok? <==> !HasView(a, names))
            && (r.Err? ==> after == s)
            && (r.Ok? ==> BroughtBack(was, s, after, names))
  {
    var names := Writable(a.schema);
    WritableIsDistinct(a.schema);
    DataNamesAre(a, names);
    TransactionResult(w, unique, a, was, s, order, names, data);
    assert (exists n :: n in names && n !in data) <==> HasView(a, names);
    if !HasView(a, names) {
      NoViewNoChange(a, names);
      ReplacedIsBack(was, s, names);
    }
  }

  lemma TransactionResult(w: World, unique: (string, Table) -> bool, a: Archive, was: Tables, s: Live, order: Table -> seq<string>,
                          names: seq<string>, data: seq<string>)
    requires Ordering(order) && Distinct(data) && Holds(a, was, order, data) && Ready(w, unique, was, s.tables, data)
    ensures InTransaction(w, a, s, names, data) ==
            if exists n :: n in names && n !in data then Err(NotATable)
            else Ok(Live(Replaced(was, Cleared(s.tables, data), data), s.off + Members(data) - Members(names)))
  {
    ClearedIsAccepted(w, unique, s.tables, data);
    TablesComeBack(w, unique, a, was, Cleared(s.tables, data), order, data);
  }

  // ---------- Through the document ----------

  lemma {:induction false} LookupOfDumped(tables: Tables, order: Table -> seq<string>, cs: seq<Collection>, i: nat)
    requires Ordering(order) && DistinctNames(cs) && i < |cs|
    ensures Lookup(DumpedAll(tables, order, cs), cs[i].name) == Dumped(tables, order, cs[i])
  {
    assert DumpedAll(tables, order, cs)[1..] == DumpedAll(tables, order, cs[1..]);
    if i > 0 {
      assert cs[0].name != cs[i].name;
      LookupOfDumped(tables, order, cs[1..], i - 1);
    }
  }

  lemma {:induction false} DefinitionAt(cs: seq<Collection>, i: nat)
    requires DistinctNames(cs) && i < |cs|
    ensures DefinitionOf(cs, cs[i].name) == Some(cs[i])
  {
    if i > 0 {
      assert cs[0].name != cs[i].name;
      DefinitionAt(cs[1..], i - 1);
    }
  }

  lemma SnapshotIs(tables: Tables, order: Table -> seq<string>, current: seq<Collection>)
    requires Ordering(order) && DistinctNames(UserCollections(current))
    ensures var r, cs := FromPayload(ToPayload(Exported(tables, order, current))), UserCollections(current);
            && r.Ok? && r.value.data == DumpedAll(tables, order, cs)
            && |r.value.schema| == |cs| && forall i :: 0 <= i < |cs| ==> r.value.schema[i] == Payload.Settled(cs[i]).(records := [])
  {
    var e, cs := Exported(tables, order, current), UserCollections(current);
    PayloadRoundTrips(e);
    var data := FromPayload(ToPayload(e)).value.data;
    forall i | 0 <= i < |cs| ensures data[i] == DumpedAll(tables, order, cs)[i] {
      LookupOfDumped(tables, order, cs, i);
    }
    assert data == DumpedAll(tables, order, cs);
  }

  /** The names, kinds and order of definitions survive. */
  predicate SameNames(cs: seq<Collection>, ds: seq<Collection>) {
    |cs| == |ds| && forall i :: 0 <= i < |cs| ==> cs[i].name == ds[i].name && cs[i].kind == ds[i].kind
  }

  lemma SameNamesDistinct(cs: seq<Collection>, ds: seq<Collection>)
    requires SameNames(cs, ds) && DistinctNames(cs)
    ensures DistinctNames(ds)
  {
    forall i, j | 0 <= i < j < |ds| ensures ds[i].name != ds[j].name {
      assert cs[i].name != cs[j].name;
    }
  }

  lemma {:induction false} SameNamesWritable(cs: seq<Collection>, ds: seq<Collection>)
    requires SameNames(cs, ds)
    ensures Writable(cs) == Writable(ds)
  {
    if cs != [] { SameNamesWritable(cs[1..], ds[1..]); }
  }

  /** What a snapshot says of one of its names. */
  lemma SnapshotOf(tables: Tables, order: Table -> seq<string>, cs: seq<Collection>, a: Archive, n: string)
    requires Ordering(order) && DistinctNames(cs) && SameNames(cs, a.schema) && a.data == DumpedAll(tables, order, cs)
    requires n in Writable(a.schema)
    ensures DefinitionOf(a.schema, n).Some? && DefinitionOf(cs, n).Some?
    ensures DefinitionOf(a.schema, n).value.kind == DefinitionOf(cs, n).value.kind
    ensures DefinitionOf(cs, n).value.name == n && Lookup(a.data, n) == Dumped(tables, order, DefinitionOf(cs, n).value)
  {
    WritableExactly(a.schema, n);
    var i :| 0 <= i < |a.schema| && a.schema[i].name == n;
    SameNamesDistinct(cs, a.schema);
    DefinitionAt(a.schema, i);
    DefinitionAt(cs, i);
    LookupOfDumped(tables, order, cs, i);
  }

  /** Export, then the document, then anything at all done to the rows, then the row phase: every table of the snapshot
      has the rows it had at the export. */
  lemma ExportThenRestore(w: World, unique: (string, Table) -> bool, was: Tables, s: Live, order: Table -> seq<string>,
                          current: seq<Collection>, a: Archive, data: seq<string>)
    requires Ordering(order) && DistinctNames(UserCollections(current))
    requires FromPayload(ToPayload(Exported(was, order, current))) == Ok(a)
    requires DataNames(a, Writable(a.schema)) == Some(data) && Ready(w, unique, was, s.tables, data)
    requires forall tables :: w.commits(data, tables)
    ensures var names := Writable(a.schema);
            var (after, r) := RestoredRows(w, a, s);
            && names == Writable(UserCollections(current))
            && (r.Ok? <==> !HasView(a, names))
            && (r.Err? ==> after == s)
            && (r.Ok? ==> BroughtBack(was, s, after, names))
  {
    var cs, names := UserCollections(current), Writable(a.schema);
    SnapshotIs(was, order, current);
    assert SameNames(cs, a.schema);
    SameNamesDistinct(cs, a.schema);
    SameNamesWritable(cs, a.schema);
    KindsAreKnown(a, names);
    DataNamesAre(a, names);
    forall n | n in data
      ensures n in was && Lookup(a.data, n) == RowRecords(was[n].rows, order(was[n].rows)) && IsTable(DefinitionOf(a.schema, n).value)
    {
      SnapshotOf(was, order, cs, a, n);
    }
    RestoreBringsBack(w, unique, a, was, s, order, data);
  }

  lemma {:induction false} KindsAreKnown(a: Archive, names: seq<string>)
    requires DataNames(a, names).Some?
    ensures forall n :: n in names ==> DefinitionOf(a.schema, n).Some? && KindOf(DefinitionOf(a.schema, n).value.kind).Some?
  {
    if names != [] {
      KindsAreKnown(a, names[1..]);
      assert names == [names[0]] + names[1..];
    }
  }
}
