/** The archive's entries (crates/db/src/backup.rs:719-874): one JSON document per line, written in a loop and read
    back in one. The zip container is a list of named texts, and the JSON printer and parser are parameters. */
module Ndjson {
  import opened Wrappers
  import opened JsonModel
  import opened Payload

  datatype Codec = Codec(show: Json -> string, parse: string -> Option<Json>,
                         showManifest: Manifest -> string, parseManifest: string -> Option<Manifest>)

  type Entries = seq<(string, string)>

  const MANIFEST_ENTRY := "manifest.json"
  const SCHEMA_ENTRY := "schema.json"
  const FILES_ENTRY := "files.ndjson"

  function DataEntry(name: string): string {
    "data/" + name + ".ndjson"
  }

  // ---------- Lines ----------

  function FirstBreak(s: string): (k: nat)
    ensures k <= |s| && '\n' !in s[..k] && (k < |s| ==> s[k] == '\n')
  {
    if s == "" || s[0] == '\n' then 0 else 1 + FirstBreak(s[1..])
  }

  function Chomped(line: string): string {
    if line != "" && line[|line| - 1] == '\r' then line[..|line| - 1] else line
  }

  /** `str::lines`: a carriage return goes with the line feed it stands before, and what follows the last line
      feed is a line only when it is not empty. */
  function LinesOf(s: string): seq<string>
    decreases |s|
  {
    if s == "" then []
    else
      var k := FirstBreak(s);
      if k == |s| then [s] else [Chomped(s[..k])] + LinesOf(s[k + 1..])
  }

  /** The characters Unicode calls white space. */
  predicate IsSpace(c: char) {
    var n := c as int;
    9 <= n <= 13 || n == 32 || n == 0x85 || n == 0xA0 || n == 0x1680 || 0x2000 <= n <= 0x200A
    || n == 0x2028 || n == 0x2029 || n == 0x202F || n == 0x205F || n == 0x3000
  }

  /** `line.trim().is_empty()`. */
  predicate Blank(line: string) {
    forall i :: 0 <= i < |line| ==> IsSpace(line[i])
  }

  function TextOfRecords(records: seq<Json>, show: Json -> string): string {
    if records == [] then "" else show(records[0]) + "\n" + TextOfRecords(records[1..], show)
  }

  /** The records of some lines, or the number of the first line that is not JSON. */
  function RecordsOf(lines: seq<string>, number: nat, parse: string -> Option<Json>): Result<seq<Json>, nat> {
    if lines == [] then Ok([])
    else if Blank(lines[0]) then RecordsOf(lines[1..], number + 1, parse)
    else if parse(lines[0]).None? then Err(number)
    else
      match RecordsOf(lines[1..], number + 1, parse)
      case Err(n) => Err(n)
      case Ok(rest) => Ok([parse(lines[0]).value] + rest)
  }

  predicate BadLine(line: string, parse: string -> Option<Json>) {
    !Blank(line) && parse(line).None?
  }

  /** A failure names the first bad line, counting blank ones; without a bad line every line that is not blank
      gives one record. */
  lemma {:induction false} FirstBadLineIsNamed(lines: seq<string>, number: nat, parse: string -> Option<Json>)
    ensures var r := RecordsOf(lines, number, parse);
            && (r.Err? ==> number <= r.error < number + |lines| && BadLine(lines[r.error - number], parse)
                           && forall k :: 0 <= k < r.error - number ==> !BadLine(lines[k], parse))
            && (r.Ok? <==> forall k :: 0 <= k < |lines| ==> !BadLine(lines[k], parse))
            && (r.Ok? ==> |r.value| == NonBlank(lines))
  {
    if lines != [] {
      FirstBadLineIsNamed(lines[1..], number + 1, parse);
      assert forall k :: 1 <= k < |lines| ==> lines[k] == lines[1..][k - 1];
    }
  }

  function NonBlank(lines: seq<string>): nat {
    if lines == [] then 0 else (if Blank(lines[0]) then 0 else 1) + NonBlank(lines[1..])
  }

  /** A line feed ends a line, alone or after a carriage return; what follows the last one is a line when it is not empty. */
  lemma LinesExactly(line: string, rest: string)
    requires '\n' !in line
    ensures LinesOf(line + "\r\n" + rest) == [line] + LinesOf(rest)
    ensures (line == "" || line[|line| - 1] != '\r') ==> LinesOf(line + "\n" + rest) == [line] + LinesOf(rest)
    ensures LinesOf(line) == if line == "" then [] else [line]
  {
    var cr := line + "\r";
    assert Chomped(cr) == line;
    LinesOfFirst(cr, rest);
    assert cr + "\n" + rest == line + "\r\n" + rest;
    LinesOfFirst(line, rest);
    NoBreak(line);
  }

  /** A line of spaces and tabs, or an empty one, gives no record and is counted all the same. */
  lemma BlankLinesAreSkipped(line: string, rest: seq<string>, number: nat, parse: string -> Option<Json>)
    requires forall i :: 0 <= i < |line| ==> line[i] == ' ' || line[i] == '\t' || line[i] == '\r'
    ensures RecordsOf([line] + rest, number, parse) == RecordsOf(rest, number + 1, parse)
  {
    assert ' ' as int == 32 && '\t' as int == 9 && '\r' as int == 13;
    assert forall i :: 0 <= i < |line| ==> IsSpace(line[i]);
    assert ([line] + rest)[1..] == rest;
  }

  lemma {:induction false} NoBreak(line: string)
    requires '\n' !in line
    ensures FirstBreak(line) == |line|
  {
    if line != "" { NoBreak(line[1..]); }
  }

  // ---------- Writing ----------

  function SchemaJson(cs: seq<Collection>): Json {
    Obj(map["collections" := Arr(seq(|cs|, i requires 0 <= i < |cs| => ToJson(cs[i])))])
  }

  function DataEntries(data: Data, show: Json -> string): Entries {
    if data == [] then []
    else [(DataEntry(data[0].0), TextOfRecords(data[0].1, show))] + DataEntries(data[1..], show)
  }

  /** Every entry of an archive, the manifest first. */
  function EntriesOf(a: Archive, codec: Codec): Entries {
    [(MANIFEST_ENTRY, codec.showManifest(a.manifest)), (SCHEMA_ENTRY, codec.show(SchemaJson(a.schema)))]
    + DataEntries(a.data, codec.show) + [(FILES_ENTRY, "")]
  }

  lemma {:induction false} TextGrows(records: seq<Json>, r: Json, show: Json -> string)
    ensures TextOfRecords(records + [r], show) == TextOfRecords(records, show) + show(r) + "\n"
  {
    if records == [] {
      assert [r][1..] == [] && TextOfRecords([], show) == "";
      assert show(r) + "\n" + "" == show(r) + "\n";
    } else {
      TextGrows(records[1..], r, show);
      assert (records + [r])[1..] == records[1..] + [r];
      assert show(records[0]) + "\n" + (TextOfRecords(records[1..], show) + show(r) + "\n")
          == show(records[0]) + "\n" + TextOfRecords(records[1..], show) + show(r) + "\n";
    }
  }

  lemma {:induction false} EntriesGrow(data: Data, d: (string, seq<Json>), show: Json -> string)
    ensures DataEntries(data + [d], show) == DataEntries(data, show) + [(DataEntry(d.0), TextOfRecords(d.1, show))]
  {
    if data == [] {
      assert (data + [d])[1..] == [];
    } else {
      EntriesGrow(data[1..], d, show);
      assert (data + [d])[1..] == data[1..] + [d];
    }
  }

  /** `write`: the records of a collection go out one line at a time. */
  method Write(a: Archive, codec: Codec) returns (entries: Entries)
    ensures entries == EntriesOf(a, codec)
  {
    var head: Entries := [(MANIFEST_ENTRY, codec.showManifest(a.manifest)), (SCHEMA_ENTRY, codec.show(SchemaJson(a.schema)))];
    var body: Entries := [];
    for i := 0 to |a.data|
      invariant body == DataEntries(a.data[..i], codec.show)
    {
      var text := "";
      var records := a.data[i].1;
      for j := 0 to |records|
        invariant text == TextOfRecords(records[..j], codec.show)
      {
        TextGrows(records[..j], records[j], codec.show);
        assert records[..j + 1] == records[..j] + [records[j]];
        text := text + codec.show(records[j]) + "\n";
      }
      assert records[..|records|] == records;
      EntriesGrow(a.data[..i], a.data[i], codec.show);
      assert a.data[..i + 1] == a.data[..i] + [a.data[i]];
      body := body + [(DataEntry(a.data[i].0), text)];
    }
    assert a.data[..|a.data|] == a.data;
    entries := head + body + [(FILES_ENTRY, "")];
  }

  /** The entries an archive is written as: the manifest first, then the schema, one entry per collection of the data
      under its own name, and the empty list of uploads. */
  lemma EntriesExactly(a: Archive, codec: Codec)
    ensures var entries := EntriesOf(a, codec);
            && |entries| == |a.data| + 3
            && entries[0] == ("manifest.json", codec.showManifest(a.manifest))
            && entries[1] == ("schema.json", codec.show(SchemaJson(a.schema)))
            && entries[|entries| - 1] == ("files.ndjson", "")
            && forall i :: 0 <= i < |a.data| ==> entries[i + 2] == ("data/" + a.data[i].0 + ".ndjson", TextOfRecords(a.data[i].1, codec.show))
  {
    DataEntriesExactly(a.data, codec.show);
  }

  lemma {:induction false} DataEntriesExactly(data: Data, show: Json -> string)
    ensures |DataEntries(data, show)| == |data|
    ensures forall i :: 0 <= i < |data| ==> DataEntries(data, show)[i] == ("data/" + data[i].0 + ".ndjson", TextOfRecords(data[i].1, show))
  {
    if data != [] { DataEntriesExactly(data[1..], show); }
  }

  /** One record per line, in order and nothing between. */
  lemma {:induction false} OneRecordPerLine(records: seq<Json>, codec: Codec)
    requires Faithful(codec)
    ensures var lines := LinesOf(TextOfRecords(records, codec.show));
            |lines| == |records| && forall i :: 0 <= i < |records| ==> lines[i] == codec.show(records[i])
  {
    if records != [] {
      OneRecordPerLine(records[1..], codec);
      assert OneLine(codec.show(records[0]));
      LinesOfFirst(codec.show(records[0]), TextOfRecords(records[1..], codec.show));
    }
  }

  // ---------- Reading ----------

  datatype ReadError =
    | Missing(entry: string)
    | Unreadable(entry: string)
    | NotOurs(format: string)
    | Newer(version: nat)
    | NotJson(entry: string, line: nat)

  /** `zip.by_name`. */
  function Find(entries: Entries, name: string): Option<string> {
    if entries == [] then None else if entries[0].0 == name then Some(entries[0].1) else Find(entries[1..], name)
  }

  /** The schema document; a derived struct also reads from an array. */
  function SchemaOf(v: Option<Json>): Option<seq<Collection>> {
    match v
    case Some(Obj(f)) => if "collections" in f && f["collections"].Arr? then FromItems(f["collections"].items) else None
    case Some(Arr(items)) => if |items| == 1 && items[0].Arr? then FromItems(items[0].items) else None
    case _ => None
  }

  /** Which documents are a schema: an object with a list of collections under `collections`, or an array of that list
      alone. */
  lemma SchemaReadsExactly(v: Option<Json>, f: map<string, Json>, items: seq<Json>)
    ensures SchemaOf(Some(Obj(f))) == if "collections" in f && f["collections"].Arr? then FromItems(f["collections"].items) else None
    ensures SchemaOf(Some(Arr([Arr(items)]))) == FromItems(items)
    ensures SchemaOf(v).Some? ==> v.Some? && (v.value.Obj? || (v.value.Arr? && |v.value.items| == 1 && v.value.items[0].Arr?))
  {}

  function ReadRecords(entries: Entries, name: string, parse: string -> Option<Json>): Result<seq<Json>, ReadError> {
    match Find(entries, DataEntry(name))
    case None => Ok([])
    case Some(text) =>
      match RecordsOf(LinesOf(text), 1, parse)
      case Ok(records) => Ok(records)
      case Err(n) => Err(NotJson(DataEntry(name), n))
  }

  function ReadData(entries: Entries, cs: seq<Collection>, parse: string -> Option<Json>): Result<Data, ReadError> {
    if cs == [] then Ok([])
    else
      match ReadRecords(entries, cs[0].name, parse)
      case Err(e) => Err(e)
      case Ok(records) =>
        match ReadData(entries, cs[1..], parse)
        case Err(e) => Err(e)
        case Ok(rest) => Ok([(cs[0].name, records)] + rest)
  }

  function ArchiveOf(entries: Entries, codec: Codec): Result<Archive, ReadError> {
    match Find(entries, MANIFEST_ENTRY)
    case None => Err(Missing(MANIFEST_ENTRY))
    case Some(text) =>
      match codec.parseManifest(text)
      case None => Err(Unreadable(MANIFEST_ENTRY))
      case Some(m) =>
        if m.format != FORMAT then Err(NotOurs(m.format))
        else if m.version > VERSION then Err(Newer(m.version))
        else
          match Find(entries, SCHEMA_ENTRY)
          case None => Err(Missing(SCHEMA_ENTRY))
          case Some(schema) =>
            match SchemaOf(codec.parse(schema))
            case None => Err(Unreadable(SCHEMA_ENTRY))
            case Some(cs) =>
              match ReadData(entries, cs, codec.parse)
              case Err(e) => Err(e)
              case Ok(data) => Ok(Archive(m, cs, data))
  }

  /** The first `k` of the lines were read without a failure. */
  predicate ReadSoFar(lines: seq<string>, k: nat, number: nat, parse: string -> Option<Json>, records: seq<Json>) {
    && k <= |lines|
    && RecordsOf(lines, number, parse) ==
       match RecordsOf(lines[k..], number + k, parse)
       case Err(n) => Err(n)
       case Ok(rest) => Ok(records + rest)
  }

  /** The loop over the lines of one entry. */
  method ReadLines(text: string, parse: string -> Option<Json>) returns (r: Result<seq<Json>, nat>)
    ensures r == RecordsOf(LinesOf(text), 1, parse)
  {
    var lines := LinesOf(text);
    var records: seq<Json> := [];
    var k := 0;
    assert lines[0..] == lines && forall rest: seq<Json> :: records + rest == rest;
    while k < |lines|
      invariant ReadSoFar(lines, k, 1, parse, records)
    {
      var line := lines[k];
      assert lines[k..][0] == line && lines[k..][1..] == lines[k + 1..];
      if !Blank(line) {
        var parsed := parse(line);
        if parsed.None? {
          return Err(k + 1);
        }
        assert forall rest :: records + ([parsed.value] + rest) == records + [parsed.value] + rest;
        records := records + [parsed.value];
      }
      k := k + 1;
    }
    assert records + [] == records;
    return Ok(records);
  }

  predicate DataSoFar(entries: Entries, cs: seq<Collection>, k: nat, parse: string -> Option<Json>, data: Data) {
    && k <= |cs|
    && ReadData(entries, cs, parse) ==
       match ReadData(entries, cs[k..], parse)
       case Err(e) => Err(e)
       case Ok(rest) => Ok(data + rest)
  }

  /** The loop over the collections of the schema. */
  method ReadCollections(entries: Entries, cs: seq<Collection>, parse: string -> Option<Json>) returns (r: Result<Data, ReadError>)
    ensures r == ReadData(entries, cs, parse)
  {
    var data: Data := [];
    var k := 0;
    assert cs[0..] == cs && forall rest: Data :: data + rest == rest;
    while k < |cs|
      invariant DataSoFar(entries, cs, k, parse, data)
    {
      var name := cs[k].name;
      var records := [];
      var text := Find(entries, DataEntry(name));
      if text.Some? {
        var read := ReadLines(text.value, parse);
        if read.Err? {
          return Err(NotJson(DataEntry(name), read.error));
        }
        records := read.value;
      }
      assert ReadRecords(entries, name, parse) == Ok(records);
      assert cs[k..][0] == cs[k] && cs[k..][1..] == cs[k + 1..];
      assert forall rest :: data + ([(name, records)] + rest) == data + [(name, records)] + rest;
      data := data + [(name, records)];
      k := k + 1;
    }
    assert data + [] == data;
    return Ok(data);
  }

  /** `read`. */
  method Read(entries: Entries, codec: Codec) returns (r: Result<Archive, ReadError>)
    ensures r == ArchiveOf(entries, codec)
  {
    var text := Find(entries, MANIFEST_ENTRY);
    if text.None? { return Err(Missing(MANIFEST_ENTRY)); }
    var manifest := codec.parseManifest(text.value);
    if manifest.None? { return Err(Unreadable(MANIFEST_ENTRY)); }
    if manifest.value.format != FORMAT { return Err(NotOurs(manifest.value.format)); }
    if manifest.value.version > VERSION { return Err(Newer(manifest.value.version)); }
    var schema := Find(entries, SCHEMA_ENTRY);
    if schema.None? { return Err(Missing(SCHEMA_ENTRY)); }
    var cs := SchemaOf(codec.parse(schema.value));
    if cs.None? { return Err(Unreadable(SCHEMA_ENTRY)); }
    var data := ReadCollections(entries, cs.value, codec.parse);
    if data.Err? { return Err(data.error); }
    return Ok(Archive(manifest.value, cs.value, data.value));
  }

  // ---------- The round trip ----------

  /** A line that stays one line: no line feed in it, no carriage return at its end, and not blank. */
  predicate OneLine(line: string) {
    '\n' !in line && Chomped(line) == line && !Blank(line)
  }

  /** What is asked of the printer and the parser. */
  ghost predicate Faithful(codec: Codec) {
    && (forall v: Json :: codec.parse(codec.show(v)) == Some(v) && OneLine(codec.show(v)))
    && forall m: Manifest :: codec.parseManifest(codec.showManifest(m)) == Some(m)
  }

  lemma {:induction false} FirstBreakAt(line: string, rest: string)
    requires '\n' !in line
    ensures FirstBreak(line + "\n" + rest) == |line|
  {
    var s := line + "\n" + rest;
    if line != "" {
      FirstBreakAt(line[1..], rest);
      assert s[1..] == line[1..] + "\n" + rest && s[0] == line[0];
    }
  }

  lemma LinesOfFirst(line: string, rest: string)
    requires '\n' !in line
    ensures LinesOf(line + "\n" + rest) == [Chomped(line)] + LinesOf(rest)
  {
    var s := line + "\n" + rest;
    FirstBreakAt(line, rest);
    assert s[..|line|] == line && s[|line| + 1..] == rest;
  }

  /** The lines of the text are the printed records, and reading them gives the records. */
  lemma {:induction false} RecordsRoundTrip(records: seq<Json>, number: nat, codec: Codec)
    requires Faithful(codec)
    ensures RecordsOf(LinesOf(TextOfRecords(records, codec.show)), number, codec.parse) == Ok(records)
  {
    if records != [] {
      var line, rest := codec.show(records[0]), TextOfRecords(records[1..], codec.show);
      RecordsRoundTrip(records[1..], number + 1, codec);
      assert OneLine(line) && codec.parse(line) == Some(records[0]);
      LinesOfFirst(line, rest);
      RecordsOfFirst(line, LinesOf(rest), number, codec.parse, records[1..]);
      assert [records[0]] + records[1..] == records;
    }
  }

  lemma RecordsOfFirst(line: string, rest: seq<string>, number: nat, parse: string -> Option<Json>, records: seq<Json>)
    requires !Blank(line) && parse(line).Some? && RecordsOf(rest, number + 1, parse) == Ok(records)
    ensures RecordsOf([line] + rest, number, parse) == Ok([parse(line).value] + records)
  {
    assert ([line] + rest)[1..] == rest;
  }

  predicate DistinctData(data: Data) {
    forall i, j :: 0 <= i < j < |data| ==> data[i].0 != data[j].0
  }

  lemma DataEntryIsInjective(m: string, n: string)
    requires DataEntry(m) == DataEntry(n)
    ensures m == n
  {
    assert |m| == |n|;
    assert m == DataEntry(m)[5..5 + |m|] && n == DataEntry(n)[5..5 + |n|];
  }

  predicate Names(data: Data, name: string) {
    exists i :: 0 <= i < |data| && data[i].0 == name
  }

  lemma NamesUnfolds(data: Data, name: string)
    requires data != []
    ensures Names(data, name) <==> data[0].0 == name || Names(data[1..], name)
  {
    if Names(data[1..], name) {
      var i :| 0 <= i < |data| - 1 && data[1..][i].0 == name;
      assert data[i + 1].0 == name;
    }
    if Names(data, name) && data[0].0 != name {
      var i :| 0 <= i < |data| && data[i].0 == name;
      assert data[1..][i - 1].0 == name;
    }
  }

  lemma {:induction false} FindInData(data: Data, name: string, show: Json -> string, tail: Entries)
    requires Find(tail, DataEntry(name)) == None
    ensures Find(DataEntries(data, show) + tail, DataEntry(name)) ==
            if Names(data, name) then Some(TextOfRecords(Lookup(data, name), show)) else None
    ensures !Names(data, name) ==> Lookup(data, name) == []
  {
    if data == [] {
      assert DataEntries(data, show) + tail == tail;
    } else {
      var first, rest := (DataEntry(data[0].0), TextOfRecords(data[0].1, show)), DataEntries(data[1..], show);
      FindInData(data[1..], name, show, tail);
      NamesUnfolds(data, name);
      assert [first] + rest + tail == [first] + (rest + tail);
      FindFirst(first, rest + tail, DataEntry(name));
      if data[0].0 != name && DataEntry(data[0].0) == DataEntry(name) { DataEntryIsInjective(data[0].0, name); }
    }
  }

  lemma FindFirst(entry: (string, string), rest: Entries, name: string)
    ensures Find([entry] + rest, name) == if entry.0 == name then Some(entry.1) else Find(rest, name)
  {
    assert ([entry] + rest)[1..] == rest;
  }

  lemma EntryNamesDiffer(name: string)
    ensures DataEntry(name) != MANIFEST_ENTRY && DataEntry(name) != SCHEMA_ENTRY && DataEntry(name) != FILES_ENTRY
  {
    assert DataEntry(name)[0] == 'd' && MANIFEST_ENTRY[0] == 'm' && SCHEMA_ENTRY[0] == 's' && FILES_ENTRY[0] == 'f';
  }

  lemma FindInArchive(a: Archive, name: string, codec: Codec)
    ensures var entries := EntriesOf(a, codec);
            && Find(entries, MANIFEST_ENTRY) == Some(codec.showManifest(a.manifest))
            && Find(entries, SCHEMA_ENTRY) == Some(codec.show(SchemaJson(a.schema)))
            && Find(entries, DataEntry(name)) ==
               if Names(a.data, name) then Some(TextOfRecords(Lookup(a.data, name), codec.show)) else None
    ensures !Names(a.data, name) ==> Lookup(a.data, name) == []
  {
    EntryNamesDiffer(name);
    assert MANIFEST_ENTRY[0] == 'm' && SCHEMA_ENTRY[0] == 's';
    var entries := EntriesOf(a, codec);
    var files: Entries := [(FILES_ENTRY, "")];
    var tail := DataEntries(a.data, codec.show) + files;
    assert files[1..] == [];
    FindInData(a.data, name, codec.show, files);
    assert entries[1..][1..] == tail;
  }

  /** For every definition the records kept under its name. */
  function Recorded(cs: seq<Collection>, data: Data): Data {
    seq(|cs|, i requires 0 <= i < |cs| => (cs[i].name, Lookup(data, cs[i].name)))
  }

  lemma EntryReads(a: Archive, name: string, codec: Codec)
    requires Faithful(codec)
    ensures ReadRecords(EntriesOf(a, codec), name, codec.parse) == Ok(Lookup(a.data, name))
  {
    FindInArchive(a, name, codec);
    RecordsRoundTrip(Lookup(a.data, name), 1, codec);
  }

  lemma {:induction false} DataReads(a: Archive, cs: seq<Collection>, codec: Codec)
    requires Faithful(codec)
    ensures ReadData(EntriesOf(a, codec), cs, codec.parse) == Ok(Recorded(cs, a.data))
  {
    if cs == [] {
      assert Recorded(cs, a.data) == [];
    } else {
      DataReads(a, cs[1..], codec);
      EntryReads(a, cs[0].name, codec);
      ReadDataFirst(EntriesOf(a, codec), cs, codec.parse, Lookup(a.data, cs[0].name), Recorded(cs[1..], a.data));
      RecordedFirst(cs, a.data);
    }
  }

  lemma RecordedFirst(cs: seq<Collection>, data: Data)
    requires cs != []
    ensures Recorded(cs, data) == [(cs[0].name, Lookup(data, cs[0].name))] + Recorded(cs[1..], data)
  {}

  lemma ReadDataFirst(entries: Entries, cs: seq<Collection>, parse: string -> Option<Json>, records: seq<Json>, rest: Data)
    requires cs != [] && ReadRecords(entries, cs[0].name, parse) == Ok(records) && ReadData(entries, cs[1..], parse) == Ok(rest)
    ensures ReadData(entries, cs, parse) == Ok([(cs[0].name, records)] + rest)
  {}

  function AllSettled(cs: seq<Collection>): seq<Collection> {
    seq(|cs|, i requires 0 <= i < |cs| => Settled(cs[i]))
  }

  lemma SchemaReads(cs: seq<Collection>)
    ensures SchemaOf(Some(SchemaJson(cs))) == Some(AllSettled(cs))
  {
    var items := SchemaJson(cs).fields["collections"].items;
    forall i | 0 <= i < |cs| ensures FromJson(items[i]) == Some(AllSettled(cs)[i]) {
      CollectionRoundTrips(cs[i]);
    }
    FromItemsOfList(items, AllSettled(cs));
  }

  /** Reading what was written restores the manifest, every definition, and for every definition the records kept
      under its name, in the schema's order. */
  lemma ArchiveRoundTrips(a: Archive, codec: Codec)
    requires Faithful(codec) && a.manifest.format == FORMAT && a.manifest.version <= VERSION
    ensures ArchiveOf(EntriesOf(a, codec), codec) ==
            Ok(Archive(a.manifest, AllSettled(a.schema), Recorded(a.schema, a.data)))
  {
    FindInArchive(a, "", codec);
    SchemaReads(a.schema);
    DataReads(a, AllSettled(a.schema), codec);
    assert Recorded(AllSettled(a.schema), a.data) == Recorded(a.schema, a.data);
  }

  predicate Aligned(a: Archive) {
    |a.data| == |a.schema| && forall i :: 0 <= i < |a.data| ==> a.data[i].0 == a.schema[i].name
  }

  lemma {:induction false} LookupOfDistinct(data: Data, i: nat)
    requires DistinctData(data) && i < |data|
    ensures Lookup(data, data[i].0) == data[i].1
  {
    if i > 0 {
      assert data[0].0 != data[i].0;
      LookupOfDistinct(data[1..], i - 1);
    }
  }

  /** An archive whose entry names differ comes back unchanged exactly when its definitions are settled and it has
      one data entry per definition, in the same order. */
  lemma RoundTripIsIdentityExactly(a: Archive, codec: Codec)
    requires Faithful(codec) && a.manifest.format == FORMAT && a.manifest.version <= VERSION && DistinctData(a.data)
    ensures ArchiveOf(EntriesOf(a, codec), codec) == Ok(a) <==> AllSettled(a.schema) == a.schema && Aligned(a)
  {
    ArchiveRoundTrips(a, codec);
    var back := ArchiveOf(EntriesOf(a, codec), codec).value;
    if Aligned(a) {
      forall i | 0 <= i < |a.data| ensures back.data[i] == a.data[i] { LookupOfDistinct(a.data, i); }
      assert back.data == a.data;
    }
    if back == a {
      forall i | 0 <= i < |a.data| ensures a.data[i].0 == a.schema[i].name { assert back.data[i].0 == a.schema[i].name; }
    }
  }

  /** Nothing is taken from an archive whose manifest is not one this server understands: the answer is the same refusal
      for every archive with that manifest, whatever else the two hold. */
  lemma ManifestIsCheckedFirst(entries: Entries, others: Entries, codec: Codec)
    requires Find(entries, MANIFEST_ENTRY).Some? && Find(others, MANIFEST_ENTRY) == Find(entries, MANIFEST_ENTRY)
    ensures ArchiveOf(entries, codec).Ok? ==>
              ArchiveOf(entries, codec).value.manifest.format == "lazypock-archive" && ArchiveOf(entries, codec).value.manifest.version <= 1
    ensures var m := codec.parseManifest(Find(entries, MANIFEST_ENTRY).value);
            m.None? || m.value.format != FORMAT || m.value.version > VERSION ==>
              ArchiveOf(others, codec) == ArchiveOf(entries, codec) && ArchiveOf(entries, codec).Err?
  {}

  /** Each refusal, and what it says: the entry that is missing or not readable, the format or version, or the first bad
      line of the first collection that has one. */
  lemma ReadFailsExactly(entries: Entries, codec: Codec)
    ensures var r := ArchiveOf(entries, codec);
            var manifest, schema := Find(entries, "manifest.json"), Find(entries, "schema.json");
            if manifest.None? then r == Err(Missing("manifest.json"))
            else
              var m := codec.parseManifest(manifest.value);
              if m.None? then r == Err(Unreadable("manifest.json"))
              else if m.value.format != "lazypock-archive" then r == Err(NotOurs(m.value.format))
              else if m.value.version > 1 then r == Err(Newer(m.value.version))
              else if schema.None? then r == Err(Missing("schema.json"))
              else
                var cs := SchemaOf(codec.parse(schema.value));
                if cs.None? then r == Err(Unreadable("schema.json"))
                else
                  && (r.Ok? <==> forall i :: 0 <= i < |cs.value| ==> ReadRecords(entries, cs.value[i].name, codec.parse).Ok?)
                  && (r.Err? ==> exists i :: 0 <= i < |cs.value| && FirstUnread(entries, cs.value, i, codec.parse)
                                              && ReadRecords(entries, cs.value[i].name, codec.parse) == Err(r.error))
                  && (r.Ok? ==> r.value.manifest == m.value && r.value.schema == cs.value && |r.value.data| == |cs.value|
                                && forall i :: 0 <= i < |cs.value| ==>
                                     && r.value.data[i].0 == cs.value[i].name
                                     && ReadRecords(entries, cs.value[i].name, codec.parse) == Ok(r.value.data[i].1))
  {
    var schema := Find(entries, SCHEMA_ENTRY);
    if schema.Some? {
      var cs := SchemaOf(codec.parse(schema.value));
      if cs.Some? { DataFailsExactly(entries, cs.value, codec.parse); }
    }
  }

  predicate FirstUnread(entries: Entries, cs: seq<Collection>, i: nat, parse: string -> Option<Json>)
    requires i < |cs|
  {
    ReadRecords(entries, cs[i].name, parse).Err? && forall j :: 0 <= j < i ==> ReadRecords(entries, cs[j].name, parse).Ok?
  }

  lemma {:induction false} DataFailsExactly(entries: Entries, cs: seq<Collection>, parse: string -> Option<Json>)
    ensures var r := ReadData(entries, cs, parse);
            && (r.Ok? <==> forall i :: 0 <= i < |cs| ==> ReadRecords(entries, cs[i].name, parse).Ok?)
            && (r.Err? ==> exists i :: 0 <= i < |cs| && FirstUnread(entries, cs, i, parse) && ReadRecords(entries, cs[i].name, parse) == Err(r.error))
            && (r.Ok? ==> |r.value| == |cs| && forall i :: 0 <= i < |cs| ==>
                            r.value[i].0 == cs[i].name && ReadRecords(entries, cs[i].name, parse) == Ok(r.value[i].1))
  {
    if cs != [] {
      DataFailsExactly(entries, cs[1..], parse);
      var rest := ReadData(entries, cs[1..], parse);
      if ReadRecords(entries, cs[0].name, parse).Err? {
        assert FirstUnread(entries, cs, 0, parse);
      } else if rest.Err? {
        var i :| 0 <= i < |cs| - 1 && FirstUnread(entries, cs[1..], i, parse) && ReadRecords(entries, cs[1..][i].name, parse) == Err(rest.error);
        forall j | 0 <= j < i + 1 ensures ReadRecords(entries, cs[j].name, parse).Ok? {
          if j > 0 { assert cs[j] == cs[1..][j - 1]; }
        }
        assert FirstUnread(entries, cs, i + 1, parse);
      } else {
        assert forall i :: 1 <= i < |cs| ==> cs[i] == cs[1..][i - 1];
      }
    }
  }

  /** A collection's records: none without an entry, and otherwise those of its lines, or its name and the first bad line. */
  lemma RecordsReadExactly(entries: Entries, name: string, parse: string -> Option<Json>)
    ensures var r, text := ReadRecords(entries, name, parse), Find(entries, "data/" + name + ".ndjson");
            if text.None? then r == Ok([])
            else
              match RecordsOf(LinesOf(text.value), 1, parse)
              case Ok(records) => r == Ok(records)
              case Err(n) => r == Err(NotJson("data/" + name + ".ndjson", n))
  {}
}
