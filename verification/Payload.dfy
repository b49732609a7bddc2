/** Archives as one JSON document (crates/db/src/backup.rs:76-171, 283-450): what the server writes, it reads back. */
module Payload {
  import opened Wrappers
  import opened JsonModel

  datatype Collection = Collection(name: string, kind: Option<string>, schema: seq<Json>, rules: Option<Json>,
                                   options: Option<Json>, records: seq<Json>)

  datatype Line = Line(name: string, kind: Option<string>, records: nat)

  /** The version of the server and the time of writing are not part of the model. */
  datatype Manifest = Manifest(format: string, version: nat, collections: seq<Line>, totalCollections: nat, totalRecords: nat)

  type Data = seq<(string, seq<Json>)>

  datatype Archive = Archive(manifest: Manifest, schema: seq<Collection>, data: Data)

  const FORMAT := "lazypock-archive"
  const VERSION := 1

  // ---------- One collection ----------

  function JsonOf(v: Option<Json>): Json {
    if v.Some? then v.value else Null
  }

  /** The derived serializer: every field, an absent one as null. */
  function ToJson(c: Collection): Json {
    Obj(map["name" := Str(c.name), "type" := if c.kind.Some? then Str(c.kind.value) else Null, "schema" := Arr(c.schema),
            "rules" := JsonOf(c.rules), "options" := JsonOf(c.options), "records" := Arr(c.records)])
  }

  /** An optional member: null reads as absent. */
  function Member(f: map<string, Json>, key: string): Option<Json> {
    if key in f && f[key] != Null then Some(f[key]) else None
  }

  predicate IsText(v: Option<Json>) {
    v.Some? ==> v.value.Str?
  }

  predicate IsList(v: Option<Json>) {
    v.Some? ==> v.value.Arr?
  }

  function TextOf(v: Option<Json>): Option<string>
    requires IsText(v)
  {
    if v.Some? then Some(v.value.text) else None
  }

  function ItemsOf(v: Option<Json>): seq<Json>
    requires IsList(v)
  {
    if v.Some? then v.value.items else []
  }

  function OrInsert(f: map<string, Json>, key: string, v: Option<Json>): map<string, Json> {
    if v.Some? && key !in f then f[key := v.value] else f
  }

  /** A view's definition at the top level is folded into the options, where a value already there wins. */
  function FoldedOptions(options: Option<Json>, viewQuery: Option<Json>, viewBuilder: Option<Json>): Json {
    var base := if options.Some? then options.value else Obj(map[]);
    if base.Obj? then Obj(OrInsert(OrInsert(base.fields, "view_query", viewQuery), "view_builder", viewBuilder)) else base
  }

  /** The members that must have the right kind; `records` may be absent and may not be null. */
  predicate Readable(f: map<string, Json>) {
    && "name" in f && f["name"].Str?
    && IsText(Member(f, "type")) && IsText(Member(f, "viewQuery"))
    && IsList(Member(f, "schema")) && IsList(Member(f, "fields"))
    && ("records" in f ==> f["records"].Arr?)
  }

  function FromFields(f: map<string, Json>): Option<Collection> {
    if !Readable(f) then None
    else
      var fields := ItemsOf(Member(f, "fields"));
      Some(Collection(
             f["name"].text, TextOf(Member(f, "type")),
             if fields == [] then ItemsOf(Member(f, "schema")) else fields,
             Member(f, "rules"),
             Some(FoldedOptions(Member(f, "options"), Member(f, "viewQuery"), Member(f, "viewBuilder"))),
             if "records" in f then f["records"].items else []))
  }

  const WIRE_ORDER := ["name", "type", "schema", "fields", "rules", "options", "viewQuery", "viewBuilder", "records"]

  /** The hand-written reader. A derived struct also reads from an array, member by member in order. */
  function FromJson(v: Json): Option<Collection> {
    match v
    case Obj(f) => FromFields(f)
    case Arr(items) =>
      if |items| > |WIRE_ORDER| then None
      else FromFields(map key | key in WIRE_ORDER && PositionOf(key) < |items| :: items[PositionOf(key)])
    case _ => None
  }

  function PositionOf(key: string): (i: nat)
    requires key in WIRE_ORDER
    ensures i < |WIRE_ORDER| && WIRE_ORDER[i] == key
  {
    if key == "name" then 0 else if key == "type" then 1 else if key == "schema" then 2 else if key == "fields" then 3
    else if key == "rules" then 4 else if key == "options" then 5 else if key == "viewQuery" then 6
    else if key == "viewBuilder" then 7 else 8
  }

  /** A collection's document has six members, whatever it lacks: an absent type, rules or options are null. */
  lemma DocumentHasSixMembers(c: Collection)
    ensures var v := ToJson(c);
            && v.Obj? && v.fields.Keys == {"name", "type", "schema", "rules", "options", "records"}
            && (c.kind.None? ==> v.fields["type"] == Null) && (c.rules.None? ==> v.fields["rules"] == Null)
            && (c.options.None? ==> v.fields["options"] == Null)
  {}

  /** What a definition becomes by being written and read: absent options are `{}`, and null rules are absent. */
  function Settled(c: Collection): Collection {
    c.(rules := if c.rules == Some(Null) then None else c.rules,
       options := if c.options.Some? && c.options.value != Null then c.options else Some(Obj(map[])))
  }

  /** A collection survives its own document, and is unchanged exactly when it is settled. */
  lemma CollectionRoundTrips(c: Collection)
    ensures FromJson(ToJson(c)) == Some(Settled(c))
    ensures Settled(Settled(c)) == Settled(c)
  {}

  /** What was read is settled. A populated `fields` is the authority; an empty one leaves it to `schema`. */
  lemma ReadIsSettled(v: Json)
    requires FromJson(v).Some?
    ensures Settled(FromJson(v).value) == FromJson(v).value
    ensures v.Obj? ==>
              var c, fields := FromJson(v).value, Member(v.fields, "fields");
              c.schema == if fields.Some? && fields.value != Arr([]) then fields.value.items
                          else ItemsOf(Member(v.fields, "schema"))
  {}

  /** A member that is there and not null. */
  ghost predicate Given(f: map<string, Json>, key: string) {
    key in f && f[key] != Null
  }

  /** Which objects are collections, and what is read from one, member by member. */
  lemma CollectionReadsExactly(f: map<string, Json>)
    ensures FromJson(Obj(f)).Some? <==>
            && "name" in f && f["name"].Str? && (Given(f, "type") ==> f["type"].Str?) && (Given(f, "viewQuery") ==> f["viewQuery"].Str?)
            && (Given(f, "schema") ==> f["schema"].Arr?) && (Given(f, "fields") ==> f["fields"].Arr?)
            && ("records" in f ==> f["records"].Arr?)
    ensures FromJson(Obj(f)).Some? ==>
            var c := FromJson(Obj(f)).value;
            && Str(c.name) == f["name"]
            && (if Given(f, "type") then c.kind.Some? && Str(c.kind.value) == f["type"] else c.kind.None?)
            && (if Given(f, "rules") then c.rules == Some(f["rules"]) else c.rules.None?)
            && (if "records" in f then Arr(c.records) == f["records"] else c.records == [])
            && c.options == Some(FoldedOptions(if Given(f, "options") then Some(f["options"]) else None,
                                               if Given(f, "viewQuery") then Some(f["viewQuery"]) else None,
                                               if Given(f, "viewBuilder") then Some(f["viewBuilder"]) else None))
  {}

  /** An array is read as its members in their order, the rest absent; and nothing else that is no object is read. */
  lemma PositionalCollectionReads(items: seq<Json>, m: map<string, Json>, v: Json)
    requires var order := ["name", "type", "schema", "fields", "rules", "options", "viewQuery", "viewBuilder", "records"];
             |items| <= |order| ==>
               && (forall i :: 0 <= i < |items| ==> order[i] in m && m[order[i]] == items[i])
               && forall key :: key in m ==> exists i :: 0 <= i < |items| && order[i] == key
    ensures FromJson(Arr(items)) == if |items| <= 9 then FromJson(Obj(m)) else None
    ensures !v.Obj? && !v.Arr? ==> FromJson(v).None?
  {
    if |items| <= 9 {
      var read := map key | key in WIRE_ORDER && PositionOf(key) < |items| :: items[PositionOf(key)];
      assert WIRE_ORDER == ["name", "type", "schema", "fields", "rules", "options", "viewQuery", "viewBuilder", "records"];
      forall i | 0 <= i < |items| ensures PositionOf(WIRE_ORDER[i]) == i {}
      assert read == m;
    }
  }

  /** A top-level view definition never replaces one already in the options, and nothing else in them changes. */
  lemma FoldingKeepsOptions(options: map<string, Json>, q: Option<Json>, b: Option<Json>)
    ensures var folded := FoldedOptions(Some(Obj(options)), q, b);
            && folded.Obj? && (forall k :: k in options ==> k in folded.fields && folded.fields[k] == options[k])
            && folded.fields.Keys - options.Keys <= {"view_query", "view_builder"}
            && ("view_query" in folded.fields <==> "view_query" in options || q.Some?)
            && ("view_builder" in folded.fields <==> "view_builder" in options || b.Some?)
            && (q.Some? && "view_query" !in options ==> folded.fields["view_query"] == q.value)
            && (b.Some? && "view_builder" !in options ==> folded.fields["view_builder"] == b.value)
            && FoldedOptions(None, q, b) == FoldedOptions(Some(Obj(map[])), q, b)
            && forall other: Json :: !other.Obj? ==> FoldedOptions(Some(other), q, b) == other
  {}

  // ---------- The document ----------

  /** The records kept under a name: the first entry's. */
  function Lookup(data: Data, name: string): seq<Json> {
    if data == [] then [] else if data[0].0 == name then data[0].1 else Lookup(data[1..], name)
  }

  function Total(lines: seq<Line>): nat {
    if lines == [] then 0 else lines[0].records + Total(lines[1..])
  }

  function RecordCount(data: Data): nat {
    if data == [] then 0 else |data[0].1| + RecordCount(data[1..])
  }

  function ToPayload(a: Archive): Json {
    Obj(map["collections" := Arr(seq(|a.schema|, i requires 0 <= i < |a.schema| => ToJson(a.schema[i].(records := Lookup(a.data, a.schema[i].name)))))])
  }

  function FromItems(items: seq<Json>): Option<seq<Collection>> {
    if items == [] then Some([]) else Prepended(FromJson(items[0]), FromItems(items[1..]))
  }

  function Prepended(c: Option<Collection>, cs: Option<seq<Collection>>): Option<seq<Collection>> {
    if c.Some? && cs.Some? then Some([c.value] + cs.value) else None
  }

  datatype PayloadError = NotAPayload | NotValid

  /** Records travel with the definitions and are kept beside them. */
  function Taken(cs: seq<Collection>): Data {
    seq(|cs|, i requires 0 <= i < |cs| => (cs[i].name, cs[i].records))
  }

  function Emptied(cs: seq<Collection>): seq<Collection> {
    seq(|cs|, i requires 0 <= i < |cs| => cs[i].(records := []))
  }

  function Lines(cs: seq<Collection>, data: Data): seq<Line> {
    seq(|cs|, i requires 0 <= i < |cs| => Line(cs[i].name, cs[i].kind, |Lookup(data, cs[i].name)|))
  }

  function Assembled(cs: seq<Collection>): Archive {
    var data := Taken(cs);
    var lines := Lines(cs, data);
    Archive(Manifest(FORMAT, VERSION, lines, |cs|, Total(lines)), Emptied(cs), data)
  }

  /** `archive_from_payload`: the envelope, or a bare array of collections. */
  function FromPayload(payload: Json): Result<Archive, PayloadError> {
    match payload
    case Arr(items) => FromList(payload)
    case Obj(f) => if "collections" in f then FromList(f["collections"]) else Err(NotAPayload)
    case _ => Err(NotAPayload)
  }

  function FromList(list: Json): Result<Archive, PayloadError> {
    if !list.Arr? then Err(NotValid)
    else
      match FromItems(list.items)
      case None => Err(NotValid)
      case Some(cs) => Ok(Assembled(cs))
  }

  predicate DistinctNames(cs: seq<Collection>) {
    forall i, j :: 0 <= i < j < |cs| ==> cs[i].name != cs[j].name
  }

  /** The archive's definitions, each with the records kept under its name, as they will be read. */
  function Expected(a: Archive): seq<Collection> {
    seq(|a.schema|, i requires 0 <= i < |a.schema| => Settled(a.schema[i].(records := Lookup(a.data, a.schema[i].name))))
  }

  lemma {:induction false} FromItemsOfList(items: seq<Json>, cs: seq<Collection>)
    requires |items| == |cs| && forall i :: 0 <= i < |cs| ==> FromJson(items[i]) == Some(cs[i])
    ensures FromItems(items) == Some(cs)
  {
    if items != [] {
      FromItemsOfList(items[1..], cs[1..]);
      assert [cs[0]] + cs[1..] == cs;
    }
  }

  lemma PayloadReads(a: Archive)
    ensures FromPayload(ToPayload(a)) == Ok(Assembled(Expected(a)))
  {
    var cs := Expected(a);
    var items := ToPayload(a).fields["collections"].items;
    forall i | 0 <= i < |cs| ensures FromJson(items[i]) == Some(cs[i]) {
      CollectionRoundTrips(a.schema[i].(records := Lookup(a.data, a.schema[i].name)));
    }
    FromItemsOfList(items, cs);
  }

  /** Among distinct names the first entry is the only one. */
  lemma {:induction false} LookupOfTaken(cs: seq<Collection>, i: nat)
    requires i < |cs| && forall j :: 0 <= j < i ==> cs[j].name != cs[i].name
    ensures Lookup(Taken(cs), cs[i].name) == cs[i].records
  {
    assert Taken(cs)[1..] == Taken(cs[1..]);
    if i > 0 {
      assert cs[0].name != cs[i].name;
      LookupOfTaken(cs[1..], i - 1);
    }
  }

  lemma {:induction false} TotalIsCount(lines: seq<Line>, data: Data)
    requires |lines| == |data| && forall i :: 0 <= i < |data| ==> lines[i].records == |data[i].1|
    ensures Total(lines) == RecordCount(data)
  {
    if data != [] { TotalIsCount(lines[1..], data[1..]); }
  }

  /** Writing an archive and reading it restores every definition and its records, under its own name and in the
      same place; with distinct names the manifest counts exactly the records there are. */
  lemma PayloadRoundTrips(a: Archive)
    ensures var r := FromPayload(ToPayload(a));
            && r.Ok? && r.value.manifest.format == "lazypock-archive" && r.value.manifest.version == 1
            && r.value.manifest.totalCollections == |a.schema|
            && |r.value.schema| == |r.value.data| == |r.value.manifest.collections| == |a.schema|
            && (forall i :: 0 <= i < |a.schema| ==>
                  && r.value.schema[i] == Settled(a.schema[i]).(records := [])
                  && r.value.data[i] == (a.schema[i].name, Lookup(a.data, a.schema[i].name))
                  && r.value.manifest.collections[i].name == a.schema[i].name
                  && r.value.manifest.collections[i].kind == a.schema[i].kind)
            && (DistinctNames(a.schema) ==>
                  && r.value.manifest.totalRecords == RecordCount(r.value.data)
                  && forall i :: 0 <= i < |a.schema| ==> r.value.manifest.collections[i].records == |r.value.data[i].1|)
  {
    var cs := Expected(a);
    PayloadReads(a);
    if DistinctNames(a.schema) {
      forall i | 0 <= i < |cs| ensures Lookup(Taken(cs), cs[i].name) == cs[i].records {
        LookupOfTaken(cs, i);
      }
      TotalIsCount(Lines(cs, Taken(cs)), Taken(cs));
    }
  }

  /** Every entry is the first of its name, or holds the same records. */
  predicate FirstsOnly(data: Data) {
    forall i :: 0 <= i < |data| ==> Lookup(data, data[i].0) == data[i].1
  }

  lemma {:induction false} ItemsAreSettled(items: seq<Json>)
    requires FromItems(items).Some?
    ensures forall i :: 0 <= i < |FromItems(items).value| ==> Settled(FromItems(items).value[i]) == FromItems(items).value[i]
  {
    if items != [] {
      ReadIsSettled(items[0]);
      ItemsAreSettled(items[1..]);
    }
  }

  lemma ReadAgain(cs: seq<Collection>)
    requires forall i :: 0 <= i < |cs| ==> Settled(cs[i]) == cs[i]
    ensures FromPayload(ToPayload(Assembled(cs))) == Ok(Assembled(cs)) <==> FirstsOnly(Taken(cs))
  {
    var a := Assembled(cs);
    var again := Expected(a);
    PayloadReads(a);
    assert forall i :: 0 <= i < |cs| ==> again[i] == cs[i].(records := Lookup(a.data, cs[i].name));
    if FirstsOnly(Taken(cs)) {
      forall i | 0 <= i < |cs| ensures again[i] == cs[i] {
        assert Lookup(a.data, a.data[i].0) == a.data[i].1 == cs[i].records;
      }
      assert again == cs;
    }
    if Assembled(again) == a {
      forall i | 0 <= i < |cs| ensures Lookup(a.data, a.data[i].0) == a.data[i].1 {
        assert Assembled(again).data[i] == a.data[i];
      }
    }
  }

  /** Whatever document was read, however it spelled its members: writing what was read and reading it again
      changes nothing, exactly when no repeated name hides records of its own. */
  lemma ReadingIsStableExactly(payload: Json)
    requires FromPayload(payload).Ok?
    ensures var a := FromPayload(payload).value;
            FromPayload(ToPayload(a)) == Ok(a) <==> FirstsOnly(a.data)
  {
    var items := if payload.Arr? then payload.items else payload.fields["collections"].items;
    ItemsAreSettled(items);
    ReadAgain(FromItems(items).value);
  }

  /** Which documents are read: a list of collections, or an object holding one under `collections`; a list alone is read
      as that object. */
  lemma PayloadReadsExactly(payload: Json)
    ensures FromPayload(payload) == Err(NotAPayload) <==>
            !payload.Arr? && !(payload.Obj? && "collections" in payload.fields)
    ensures FromPayload(payload).Ok? <==>
            exists items ::
              && (payload == Arr(items) || (payload.Obj? && "collections" in payload.fields && payload.fields["collections"] == Arr(items)))
              && forall i :: 0 <= i < |items| ==> FromJson(items[i]).Some?
    ensures payload.Arr? ==> FromPayload(payload) == FromPayload(Obj(map["collections" := payload]))
  {
    if payload.Arr? {
      ItemsAllOrNothing(payload.items);
    } else if payload.Obj? && "collections" in payload.fields && payload.fields["collections"].Arr? {
      ItemsAllOrNothing(payload.fields["collections"].items);
    }
  }

  /** Which documents are refused: one that is neither a list nor an envelope, and one holding anything that is
      not a collection. */
  lemma {:induction false} ItemsAllOrNothing(items: seq<Json>)
    ensures FromItems(items).Some? <==> forall i :: 0 <= i < |items| ==> FromJson(items[i]).Some?
    ensures FromItems(items).Some? ==> |FromItems(items).value| == |items|
  {
    if items != [] {
      ItemsAllOrNothing(items[1..]);
      assert forall i :: 1 <= i < |items| ==> items[i] == items[1..][i - 1];
    }
  }
}
