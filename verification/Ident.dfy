/** Delimited identifiers in generated SQL (crates/db/src/ddl.rs:17-44, crates/db/src/backup.rs:1475-1514): what the
    printer writes, read back by the delimited-identifier rule of section 5.2 of ISO/IEC 9075-2. */
module Ident {
  import opened Wrappers

  /** `name.replace('"', "\"\"")`. */
  function Doubled(name: string): string {
    if name == "" then ""
    else (if name[0] == '"' then "\"\"" else [name[0]]) + Doubled(name[1..])
  }

  function QuoteIdent(name: string): string {
    "\"" + Doubled(name) + "\""
  }

  // ---------- The reader ----------

  datatype Token = Name(name: string) | Other(c: char)

  function Before(t: Token, rest: Option<seq<Token>>): Option<seq<Token>> {
    match rest
    case None => None
    case Some(ts) => Some([t] + ts)
  }

  /** Outside a delimited identifier every character is a token of its own; nothing is read from a text that
      leaves an identifier open or holds an empty one. */
  function Lex(s: string): Option<seq<Token>>
    decreases |s|
  {
    if s == "" then Some([])
    else if s[0] == '"' then LexName(s[1..], "")
    else Before(Other(s[0]), Lex(s[1..]))
  }

  /** Inside an identifier of which `sofar` was read: two quotes are one, a single quote ends it. */
  function LexName(s: string, sofar: string): Option<seq<Token>>
    decreases |s|
  {
    if s == "" then None
    else if s[0] != '"' then LexName(s[1..], sofar + [s[0]])
    else if |s| > 1 && s[1] == '"' then LexName(s[2..], sofar + "\"")
    else if sofar == "" then None
    else Before(Name(sofar), Lex(s[1..]))
  }

  // ---------- One name, one list ----------

  /** What follows a name does not begin with a quote. */
  predicate Apart(rest: string) {
    rest == "" || rest[0] != '"'
  }

  lemma {:induction false} LexOfDoubled(name: string, sofar: string, rest: string)
    requires Apart(rest)
    ensures LexName(Doubled(name) + "\"" + rest, sofar) ==
            if sofar + name == "" then None else Before(Name(sofar + name), Lex(rest))
  {
    var s := Doubled(name) + "\"" + rest;
    if name == "" {
      assert s == "\"" + rest && s[1..] == rest && sofar + name == sofar;
    } else {
      var c, tail := [name[0]], Doubled(name[1..]) + "\"" + rest;
      LexOfDoubled(name[1..], sofar + c, rest);
      assert c + name[1..] == name;
      AssociateText(sofar, c, name[1..]);
      if name[0] == '"' {
        assert s == "\"\"" + tail && s[2..] == tail;
      } else {
        assert s == c + tail && s[1..] == tail;
      }
    }
  }

  /** A quoted name is read as that name, and refused exactly when it is empty. */
  lemma LexOfQuoted(name: string, rest: string)
    requires Apart(rest)
    ensures Lex(QuoteIdent(name) + rest) == if name == "" then None else Before(Name(name), Lex(rest))
  {
    var s := QuoteIdent(name) + rest;
    assert s[1..] == Doubled(name) + "\"" + rest;
    LexOfDoubled(name, "", rest);
    assert "" + name == name;
  }

  // ---------- Statements as pieces ----------

  datatype Piece = Quoted(name: string) | Plain(text: string)

  function Render(ps: seq<Piece>): string {
    if ps == [] then ""
    else (match ps[0] case Quoted(n) => QuoteIdent(n) case Plain(t) => t) + Render(ps[1..])
  }

  function Others(text: string): seq<Token> {
    if text == "" then [] else [Other(text[0])] + Others(text[1..])
  }

  function PieceTokens(p: Piece): seq<Token> {
    match p
    case Quoted(n) => [Name(n)]
    case Plain(t) => Others(t)
  }

  function Tokens(ps: seq<Piece>): seq<Token> {
    if ps == [] then [] else PieceTokens(ps[0]) + Tokens(ps[1..])
  }

  /** Names are not empty and never touch; the text between them holds no quote. */
  predicate Sound(ps: seq<Piece>) {
    if ps == [] then true
    else
      && (match ps[0]
          case Quoted(n) => n != "" && (|ps| > 1 ==> ps[1].Plain?)
          case Plain(t) => t != "" && '"' !in t)
      && Sound(ps[1..])
  }

  lemma {:induction false} LexOfPlain(text: string, rest: string)
    requires '"' !in text
    ensures Lex(text + rest) == match Lex(rest) case None => None case Some(ts) => Some(Others(text) + ts)
  {
    if text == "" {
      assert text + rest == rest;
      if Lex(rest).Some? { assert Others(text) + Lex(rest).value == Lex(rest).value; }
    } else {
      LexOfPlain(text[1..], rest);
      assert (text + rest)[1..] == text[1..] + rest;
      if Lex(rest).Some? {
        assert [Other(text[0])] + (Others(text[1..]) + Lex(rest).value) == Others(text) + Lex(rest).value;
      }
    }
  }

  /** A statement is read as the tokens its pieces stand for: no name reaches outside its own quotes. */
  lemma {:induction false} LexOfRender(ps: seq<Piece>)
    requires Sound(ps)
    ensures Lex(Render(ps)) == Some(Tokens(ps))
  {
    if ps != [] {
      var rest := ps[1..];
      LexOfRender(rest);
      match ps[0]
      case Plain(t) => LexOfPlain(t, Render(rest));
      case Quoted(n) =>
        assert Apart(Render(rest)) by { if rest != [] { assert rest[0].Plain?; } }
        LexOfQuoted(n, Render(rest));
    }
  }

  lemma {:induction false} SoundOfJoined(a: seq<Piece>, b: seq<Piece>)
    requires Sound(a) && Sound(b)
    requires a == [] || b == [] || a[|a| - 1].Plain? || b[0].Plain?
    ensures Sound(a + b)
  {
    if a == [] {
      assert a + b == b;
    } else {
      assert (a + b)[1..] == a[1..] + b;
      SoundOfJoined(a[1..], b);
    }
  }

  /** The names among the pieces, in order. */
  function PieceNames(ps: seq<Piece>): seq<string> {
    if ps == [] then [] else OwnName(ps[0]) + PieceNames(ps[1..])
  }

  function OwnName(p: Piece): seq<string> {
    if p.Quoted? then [p.name] else []
  }

  /** The pieces are written as `text` and hold `names`. */
  predicate Writes(ps: seq<Piece>, text: string, names: seq<string>) {
    Render(ps) == text && PieceNames(ps) == names
  }

  lemma {:induction false} WritesJoined(a: seq<Piece>, s: string, m: seq<string>, b: seq<Piece>, t: string, n: seq<string>)
    requires Writes(a, s, m) && Writes(b, t, n)
    ensures Writes(a + b, s + t, m + n)
  {
    if a == [] {
      assert a + b == b && s + t == t && m + n == n;
    } else {
      WritesJoined(a[1..], Render(a[1..]), PieceNames(a[1..]), b, t, n);
      assert (a + b)[1..] == a[1..] + b && (a + b)[0] == a[0];
      AssociateText(if a[0].Quoted? then QuoteIdent(a[0].name) else a[0].text, Render(a[1..]), t);
      AssociateNames(OwnName(a[0]), PieceNames(a[1..]), n);
    }
  }

  lemma AssociateText(a: string, b: string, c: string)
    ensures a + (b + c) == a + b + c
  {}

  lemma AssociateNames(a: seq<string>, b: seq<string>, c: seq<string>)
    ensures a + (b + c) == a + b + c
  {}

  lemma PlainWrites(t: string)
    ensures Writes([Plain(t)], t, [])
    ensures t != "" && '"' !in t ==> Sound([Plain(t)])
  {
    assert [Plain(t)][1..] == [];
    assert Render([]) == "" && t + "" == t;
  }

  lemma NameWrites(n: string)
    ensures Writes([Quoted(n)], QuoteIdent(n), [n])
    ensures n != "" ==> Sound([Quoted(n)])
  {
    assert [Quoted(n)][1..] == [];
    assert Render([]) == "" && QuoteIdent(n) + "" == QuoteIdent(n);
  }

  /** A name between two texts. */
  function Around(pre: string, name: string, post: string): seq<Piece> {
    [Plain(pre)] + [Quoted(name)] + [Plain(post)]
  }

  lemma AroundWrites(pre: string, name: string, post: string)
    ensures Writes(Around(pre, name, post), pre + QuoteIdent(name) + post, [name])
    ensures pre != "" && post != "" && '"' !in pre && '"' !in post && name != "" ==> Sound(Around(pre, name, post))
  {
    PlainWrites(pre);
    NameWrites(name);
    PlainWrites(post);
    WritesJoined([Plain(pre)], pre, [], [Quoted(name)], QuoteIdent(name), [name]);
    assert [] + [name] == [name] && [name] + [] == [name];
    WritesJoined([Plain(pre)] + [Quoted(name)], pre + QuoteIdent(name), [name], [Plain(post)], post, []);
    if Sound([Plain(pre)]) && Sound([Quoted(name)]) && Sound([Plain(post)]) {
      SoundOfJoined([Plain(pre)], [Quoted(name)]);
      SoundOfJoined([Plain(pre)] + [Quoted(name)], [Plain(post)]);
    }
  }

  lemma TextThen(text: string, ps: seq<Piece>, t: string, names: seq<string>)
    requires Writes(ps, t, names)
    ensures Writes([Plain(text)] + ps, text + t, names)
    ensures Sound(ps) && text != "" && '"' !in text ==> Sound([Plain(text)] + ps)
  {
    PlainWrites(text);
    WritesJoined([Plain(text)], text, [], ps, t, names);
    assert [] + names == names;
    if Sound(ps) && text != "" && '"' !in text { SoundOfJoined([Plain(text)], ps); }
  }

  lemma TextBetween(name: string, text: string)
    ensures Writes([Quoted(name)] + [Plain(text)] + [Quoted(name)], QuoteIdent(name) + text + QuoteIdent(name), [name, name])
    ensures name != "" && text != "" && '"' !in text ==> Sound([Quoted(name)] + [Plain(text)] + [Quoted(name)])
  {
    var q, p, n := [Quoted(name)], [Plain(text)], QuoteIdent(name);
    NameWrites(name);
    PlainWrites(text);
    WritesJoined(q, n, [name], p, text, []);
    WritesJoined(q + p, n + text, [name] + [], q, n, [name]);
    assert [name] + [] + [name] == [name, name];
    if name != "" && Sound(p) {
      SoundOfJoined(q, p);
      SoundOfJoined(q + p, q);
    }
  }

  function NamesOf(ts: seq<Token>): seq<string> {
    if ts == [] then []
    else (if ts[0].Name? then [ts[0].name] else []) + NamesOf(ts[1..])
  }

  lemma {:induction false} NamesOfOthers(text: string, rest: seq<Token>)
    ensures NamesOf(Others(text) + rest) == NamesOf(rest)
  {
    if text == "" {
      assert Others(text) + rest == rest;
    } else {
      NamesOfOthers(text[1..], rest);
      OtherIsNoName(text[0], Others(text[1..]) + rest);
      assert Others(text) + rest == [Other(text[0])] + (Others(text[1..]) + rest);
    }
  }

  lemma OtherIsNoName(c: char, rest: seq<Token>)
    ensures NamesOf([Other(c)] + rest) == NamesOf(rest)
  {
    var ts := [Other(c)] + rest;
    assert ts[1..] == rest && [] + NamesOf(rest) == NamesOf(rest);
  }

  lemma {:induction false} NamesOfTokens(ps: seq<Piece>)
    ensures NamesOf(Tokens(ps)) == PieceNames(ps)
  {
    if ps != [] {
      NamesOfTokens(ps[1..]);
      match ps[0]
      case Plain(t) => NamesOfOthers(t, Tokens(ps[1..]));
      case Quoted(n) => assert ([Name(n)] + Tokens(ps[1..]))[1..] == Tokens(ps[1..]);
    }
  }

  // ---------- Comma-joined lists ----------

  function Join(parts: seq<string>): string {
    if parts == [] then ""
    else if |parts| == 1 then parts[0]
    else parts[0] + ", " + Join(parts[1..])
  }

  /** What `upsert` writes for one column in each of its three lists. */
  datatype Entry = Column | Projection | Assignment

  function EntryText(kind: Entry, name: string): string {
    match kind
    case Column => QuoteIdent(name)
    case Projection => "row." + QuoteIdent(name)
    case Assignment => QuoteIdent(name) + " = excluded." + QuoteIdent(name)
  }

  function Listed(kind: Entry, names: seq<string>): string {
    Join(seq(|names|, i requires 0 <= i < |names| => EntryText(kind, names[i])))
  }

  function EntryPieces(kind: Entry, name: string): seq<Piece> {
    match kind
    case Column => [Quoted(name)]
    case Projection => [Plain("row.")] + [Quoted(name)]
    case Assignment => [Quoted(name)] + [Plain(" = excluded.")] + [Quoted(name)]
  }

  function EntryNames(kind: Entry, name: string): seq<string> {
    if kind.Assignment? then [name, name] else [name]
  }

  function ListPieces(kind: Entry, names: seq<string>): seq<Piece> {
    if names == [] then []
    else if |names| == 1 then EntryPieces(kind, names[0])
    else EntryPieces(kind, names[0]) + [Plain(", ")] + ListPieces(kind, names[1..])
  }

  /** Every name, and in the assignments every name twice. */
  function ListNames(kind: Entry, names: seq<string>): seq<string> {
    if names == [] then [] else EntryNames(kind, names[0]) + ListNames(kind, names[1..])
  }

  predicate NoneEmpty(names: seq<string>) {
    forall i :: 0 <= i < |names| ==> names[i] != ""
  }

  lemma EntryWrites(kind: Entry, name: string)
    ensures Writes(EntryPieces(kind, name), EntryText(kind, name), EntryNames(kind, name))
    ensures name != "" ==> Sound(EntryPieces(kind, name))
  {
    NameWrites(name);
    match kind
    case Column =>
    case Projection => TextThen("row.", [Quoted(name)], QuoteIdent(name), [name]);
    case Assignment => TextBetween(name, " = excluded.");
  }

  lemma {:induction false} ListWrites(kind: Entry, names: seq<string>)
    ensures Writes(ListPieces(kind, names), Listed(kind, names), ListNames(kind, names))
  {
    if names != [] {
      var head, rest := names[0], names[1..];
      EntryWrites(kind, head);
      if rest == [] {
        assert EntryNames(kind, head) + [] == EntryNames(kind, head);
      } else {
        ListWrites(kind, rest);
        PlainWrites(", ");
        WritesJoined(EntryPieces(kind, head), EntryText(kind, head), EntryNames(kind, head), [Plain(", ")], ", ", []);
        assert EntryNames(kind, head) + [] == EntryNames(kind, head);
        WritesJoined(EntryPieces(kind, head) + [Plain(", ")], EntryText(kind, head) + ", ", EntryNames(kind, head),
                     ListPieces(kind, rest), Listed(kind, rest), ListNames(kind, rest));
        ListedUnfolds(kind, names);
      }
    }
  }

  lemma ListedUnfolds(kind: Entry, names: seq<string>)
    requires |names| > 1
    ensures Listed(kind, names) == EntryText(kind, names[0]) + ", " + Listed(kind, names[1..])
  {
    var all := seq(|names|, i requires 0 <= i < |names| => EntryText(kind, names[i]));
    var rest := names[1..];
    assert all[1..] == seq(|rest|, i requires 0 <= i < |rest| => EntryText(kind, rest[i]));
  }

  lemma {:induction false} ListIsSound(kind: Entry, names: seq<string>)
    requires NoneEmpty(names)
    ensures Sound(ListPieces(kind, names))
    ensures names != [] && kind.Projection? ==> ListPieces(kind, names) != [] && ListPieces(kind, names)[0].Plain?
  {
    if names != [] {
      EntryWrites(kind, names[0]);
      if |names| > 1 {
        ListIsSound(kind, names[1..]);
        PlainWrites(", ");
        SoundOfJoined(EntryPieces(kind, names[0]), [Plain(", ")]);
        SoundOfJoined(EntryPieces(kind, names[0]) + [Plain(", ")], ListPieces(kind, names[1..]));
      }
    }
  }

  lemma {:induction false} ColumnNames(kind: Entry, names: seq<string>)
    requires !kind.Assignment?
    ensures ListNames(kind, names) == names
  {
    if names != [] { ColumnNames(kind, names[1..]); }
  }

  /** A comma-joined list of quoted names is read as those names, whatever they contain. */
  lemma ListRoundTrips(names: seq<string>)
    requires NoneEmpty(names)
    ensures Lex(Listed(Column, names)).Some? && NamesOf(Lex(Listed(Column, names)).value) == names
  {
    ListWrites(Column, names);
    ListIsSound(Column, names);
    LexOfRender(ListPieces(Column, names));
    NamesOfTokens(ListPieces(Column, names));
    ColumnNames(Column, names);
  }

  /** So no two lists are written alike. */
  lemma ListsAreInjective(a: seq<string>, b: seq<string>)
    requires NoneEmpty(a) && NoneEmpty(b) && Listed(Column, a) == Listed(Column, b)
    ensures a == b
  {
    ListRoundTrips(a);
    ListRoundTrips(b);
  }

  // ---------- The upsert statement ----------

  function WithoutId(declared: seq<string>): seq<string> {
    if declared == [] then []
    else (if declared[0] == "id" then [] else [declared[0]]) + WithoutId(declared[1..])
  }

  const FROM_TEXT := " from jsonb_populate_record(null::"
  const CONFLICT_TEXT := ", $1::jsonb) as row on conflict ("

  function TargetText(table: string): string {
    "insert into " + QuoteIdent(table) + " ("
  }

  function SourceText(table: string): string {
    FROM_TEXT + QuoteIdent(table) + CONFLICT_TEXT
  }

  function ActionText(names: seq<string>): string {
    var assignments := Listed(Assignment, names);
    if assignments == "" then "nothing" else "update set " + assignments
  }

  /** The text `upsert` builds for a table and the columns the record declares. */
  function UpsertSql(table: string, declared: seq<string>): string {
    TargetText(table) + Listed(Column, declared) + ") select " + Listed(Projection, declared)
    + SourceText(table) + "\"id\"" + ") do " + ActionText(WithoutId(declared))
  }

  function ActionPieces(names: seq<string>): seq<Piece> {
    if names == [] then [Plain("nothing")] else [Plain("update set ")] + ListPieces(Assignment, names)
  }

  function Target(table: string): seq<Piece> {
    Around("insert into ", table, " (")
  }

  function Source(table: string): seq<Piece> {
    Around(FROM_TEXT, table, CONFLICT_TEXT)
  }

  function UpToProjection(table: string, declared: seq<string>): seq<Piece> {
    Target(table) + ListPieces(Column, declared) + [Plain(") select ")] + ListPieces(Projection, declared)
  }

  /** The statement as the SQL grammar sees it. */
  function UpsertPieces(table: string, declared: seq<string>): seq<Piece> {
    UpToProjection(table, declared) + Source(table) + [Quoted("id")] + [Plain(") do ")] + ActionPieces(WithoutId(declared))
  }

  lemma IdIsItself()
    ensures QuoteIdent("id") == "\"id\""
  {
    assert Doubled("id") == "i" + Doubled("d");
    assert Doubled("d") == "d" + Doubled("");
  }

  lemma ActionWrites(names: seq<string>)
    ensures Writes(ActionPieces(names), ActionText(names), ListNames(Assignment, names))
    ensures NoneEmpty(names) ==> Sound(ActionPieces(names))
  {
    if names == [] {
      PlainWrites("nothing");
      assert Listed(Assignment, names) == "";
    } else {
      UpdateWrites(names);
      ListNotBlank(names);
    }
  }

  lemma UpdateWrites(names: seq<string>)
    requires names != []
    ensures Writes(ActionPieces(names), "update set " + Listed(Assignment, names), ListNames(Assignment, names))
    ensures NoneEmpty(names) ==> Sound(ActionPieces(names))
  {
    ListWrites(Assignment, names);
    TextThen("update set ", ListPieces(Assignment, names), Listed(Assignment, names), ListNames(Assignment, names));
    if NoneEmpty(names) { ListIsSound(Assignment, names); }
  }

  lemma ListNotBlank(names: seq<string>)
    requires names != []
    ensures Listed(Assignment, names) != ""
  {
    if |names| > 1 { ListedUnfolds(Assignment, names); }
  }

  lemma {:induction false} WithoutIdNoneEmpty(declared: seq<string>)
    requires NoneEmpty(declared)
    ensures NoneEmpty(WithoutId(declared))
  {
    if declared != [] {
      WithoutIdNoneEmpty(declared[1..]);
    }
  }

  lemma TargetWrites(table: string)
    ensures Writes(Target(table), TargetText(table), [table])
    ensures table != "" ==> Sound(Target(table))
  {
    AroundWrites("insert into ", table, " (");
  }

  lemma FixedTexts()
    ensures FROM_TEXT != "" && CONFLICT_TEXT != "" && '"' !in FROM_TEXT && '"' !in CONFLICT_TEXT
  {}

  /** The key is never assigned, and every other column is, in order. */
  lemma {:induction false} AllButTheKeyAreAssigned(declared: seq<string>, c: string)
    ensures WithoutId(declared + [c]) == if c == "id" then WithoutId(declared) else WithoutId(declared) + [c]
    ensures WithoutId([]) == []
  {
    if declared == [] {
      assert [c][1..] == [];
    } else {
      AllButTheKeyAreAssigned(declared[1..], c);
      assert (declared + [c])[0] == declared[0] && (declared + [c])[1..] == declared[1..] + [c];
      AssociateNames(if declared[0] == "id" then [] else [declared[0]], WithoutId(declared[1..]), [c]);
    }
  }

  /** The words around the names: what a conflict does when only the key is declared and otherwise, and where the rows come
      from. */
  lemma StatementIsSpelled(table: string, names: seq<string>)
    ensures FROM_TEXT == " from jsonb_populate_record(null::" && CONFLICT_TEXT == ", $1::jsonb) as row on conflict ("
    ensures names == [] ==> ActionText(names) == "nothing"
    ensures names != [] ==> ActionText(names) == "update set " + Listed(Assignment, names)
  {
    if names != [] { ListNotBlank(names); }
  }

  lemma SourceWrites(table: string)
    ensures Writes(Source(table), SourceText(table), [table])
    ensures table != "" ==> Sound(Source(table))
  {
    AroundWrites(FROM_TEXT, table, CONFLICT_TEXT);
    FixedTexts();
  }

  lemma UpToProjectionWrites(table: string, declared: seq<string>)
    ensures Writes(UpToProjection(table, declared),
                   TargetText(table) + Listed(Column, declared) + ") select " + Listed(Projection, declared),
                   [table] + declared + [] + declared)
  {
    TargetWrites(table);
    ListWrites(Column, declared);
    ListWrites(Projection, declared);
    ColumnNames(Column, declared);
    ColumnNames(Projection, declared);
    PlainWrites(") select ");
    var a, s := Target(table) + ListPieces(Column, declared), TargetText(table) + Listed(Column, declared);
    WritesJoined(Target(table), TargetText(table), [table], ListPieces(Column, declared), Listed(Column, declared), declared);
    WritesJoined(a, s, [table] + declared, [Plain(") select ")], ") select ", []);
    WritesJoined(a + [Plain(") select ")], s + ") select ", [table] + declared + [],
                 ListPieces(Projection, declared), Listed(Projection, declared), declared);
  }

  lemma UpToProjectionIsSound(table: string, declared: seq<string>)
    requires table != "" && NoneEmpty(declared)
    ensures Sound(UpToProjection(table, declared))
  {
    TargetWrites(table);
    ListIsSound(Column, declared);
    ListIsSound(Projection, declared);
    PlainWrites(") select ");
    var a := Target(table) + ListPieces(Column, declared);
    SoundOfJoined(Target(table), ListPieces(Column, declared));
    SoundOfJoined(a, [Plain(") select ")]);
    SoundOfJoined(a + [Plain(") select ")], ListPieces(Projection, declared));
  }

  /** The text is the rendering of the pieces, with these names in it. */
  lemma UpsertWrites(table: string, declared: seq<string>)
    ensures Writes(UpsertPieces(table, declared), UpsertSql(table, declared),
                   [table] + declared + [] + declared + [table] + ["id"] + [] + ListNames(Assignment, WithoutId(declared)))
  {
    var a := UpToProjection(table, declared);
    var s := TargetText(table) + Listed(Column, declared) + ") select " + Listed(Projection, declared);
    var m := [table] + declared + [] + declared;
    var names := WithoutId(declared);
    UpToProjectionWrites(table, declared);
    SourceWrites(table);
    IdIsItself();
    NameWrites("id");
    PlainWrites(") do ");
    ActionWrites(names);
    WritesJoined(a, s, m, Source(table), SourceText(table), [table]);
    WritesJoined(a + Source(table), s + SourceText(table), m + [table], [Quoted("id")], "\"id\"", ["id"]);
    WritesJoined(a + Source(table) + [Quoted("id")], s + SourceText(table) + "\"id\"", m + [table] + ["id"], [Plain(") do ")], ") do ", []);
    WritesJoined(a + Source(table) + [Quoted("id")] + [Plain(") do ")], s + SourceText(table) + "\"id\"" + ") do ", m + [table] + ["id"] + [],
                 ActionPieces(names), ActionText(names), ListNames(Assignment, names));
  }

  lemma UpsertIsSound(table: string, declared: seq<string>)
    requires table != "" && NoneEmpty(declared)
    ensures Sound(UpsertPieces(table, declared))
  {
    var a, names := UpToProjection(table, declared), WithoutId(declared);
    UpToProjectionIsSound(table, declared);
    SourceWrites(table);
    NameWrites("id");
    PlainWrites(") do ");
    WithoutIdNoneEmpty(declared);
    ActionWrites(names);
    SoundOfJoined(a, Source(table));
    SoundOfJoined(a + Source(table), [Quoted("id")]);
    SoundOfJoined(a + Source(table) + [Quoted("id")], [Plain(") do ")]);
    SoundOfJoined(a + Source(table) + [Quoted("id")] + [Plain(") do ")], ActionPieces(names));
  }

  /** Whatever the table and its columns are called, the statement is read as the tokens of its pieces, and the
      names found in it are exactly the table, the columns twice, the table and the key, and every column but the
      key twice. */
  lemma UpsertReadsAsIntended(table: string, declared: seq<string>)
    requires table != "" && NoneEmpty(declared)
    ensures Lex(UpsertSql(table, declared)) == Some(Tokens(UpsertPieces(table, declared)))
    ensures NamesOf(Tokens(UpsertPieces(table, declared))) ==
            [table] + declared + declared + [table, "id"] + ListNames(Assignment, WithoutId(declared))
  {
    UpsertWrites(table, declared);
    UpsertIsSound(table, declared);
    LexOfRender(UpsertPieces(table, declared));
    NamesOfTokens(UpsertPieces(table, declared));
    NamesTidied([table] + declared, declared, [table], ["id"], ListNames(Assignment, WithoutId(declared)));
    assert [table] + ["id"] == [table, "id"];
  }

  lemma NamesTidied(a: seq<string>, b: seq<string>, c: seq<string>, d: seq<string>, e: seq<string>)
    ensures a + [] + b + c + d + [] + e == a + b + (c + d) + e
  {}

  // ---------- The statement without its names ----------

  function Blank(t: Token): Token {
    if t.Name? then Name("") else t
  }

  /** The tokens with every name blotted out. */
  function Skeleton(ts: seq<Token>): seq<Token> {
    seq(|ts|, i requires 0 <= i < |ts| => Blank(ts[i]))
  }

  function BlankPiece(p: Piece): Piece {
    if p.Quoted? then Quoted("") else p
  }

  predicate SameShape(a: seq<Piece>, b: seq<Piece>) {
    |a| == |b| && forall i :: 0 <= i < |a| ==> BlankPiece(a[i]) == BlankPiece(b[i])
  }

  lemma {:induction false} SameShapeSameSkeleton(a: seq<Piece>, b: seq<Piece>)
    requires SameShape(a, b)
    ensures Skeleton(Tokens(a)) == Skeleton(Tokens(b))
  {
    if a != [] {
      SameShapeSameSkeleton(a[1..], b[1..]);
      assert BlankPiece(a[0]) == BlankPiece(b[0]);
      SkeletonOfJoined(PieceTokens(a[0]), Tokens(a[1..]));
      SkeletonOfJoined(PieceTokens(b[0]), Tokens(b[1..]));
      assert Skeleton(PieceTokens(a[0])) == Skeleton(PieceTokens(b[0]));
    }
  }

  lemma SkeletonOfJoined(x: seq<Token>, y: seq<Token>)
    ensures Skeleton(x + y) == Skeleton(x) + Skeleton(y)
  {}

  lemma SameShapeJoined(a: seq<Piece>, b: seq<Piece>, c: seq<Piece>, d: seq<Piece>)
    requires SameShape(a, b) && SameShape(c, d)
    ensures SameShape(a + c, b + d)
  {}

  lemma {:induction false} ListShape(kind: Entry, a: seq<string>, b: seq<string>)
    requires |a| == |b|
    ensures SameShape(ListPieces(kind, a), ListPieces(kind, b))
  {
    if |a| > 1 {
      ListShape(kind, a[1..], b[1..]);
      SameShapeJoined(EntryPieces(kind, a[0]), EntryPieces(kind, b[0]), [Plain(", ")], [Plain(", ")]);
      SameShapeJoined(EntryPieces(kind, a[0]) + [Plain(", ")], EntryPieces(kind, b[0]) + [Plain(", ")],
                      ListPieces(kind, a[1..]), ListPieces(kind, b[1..]));
    }
  }

  /** The names decide nothing but themselves: read back, two statements over as many columns, as many of them keys,
      have the same skeleton. */
  lemma NamesNeverEscape(s: string, a: seq<string>, t: string, b: seq<string>)
    requires s != "" && t != "" && NoneEmpty(a) && NoneEmpty(b)
    requires |a| == |b| && |WithoutId(a)| == |WithoutId(b)|
    ensures Lex(UpsertSql(s, a)).Some? && Lex(UpsertSql(t, b)).Some?
    ensures Skeleton(Lex(UpsertSql(s, a)).value) == Skeleton(Lex(UpsertSql(t, b)).value)
  {
    UpsertReadsAsIntended(s, a);
    UpsertReadsAsIntended(t, b);
    UpsertShape(s, a, t, b);
    SameShapeSameSkeleton(UpsertPieces(s, a), UpsertPieces(t, b));
  }

  lemma UpsertShape(s: string, a: seq<string>, t: string, b: seq<string>)
    requires |a| == |b| && |WithoutId(a)| == |WithoutId(b)|
    ensures SameShape(UpsertPieces(s, a), UpsertPieces(t, b))
  {
    var m, n := WithoutId(a), WithoutId(b);
    var x, y := UpToProjection(s, a), UpToProjection(t, b);
    UpToProjectionShape(s, a, t, b);
    ListShape(Assignment, m, n);
    if m != [] { SameShapeJoined([Plain("update set ")], [Plain("update set ")], ListPieces(Assignment, m), ListPieces(Assignment, n)); }
    SameShapeJoined(x, y, Source(s), Source(t));
    SameShapeJoined(x + Source(s), y + Source(t), [Quoted("id")], [Quoted("id")]);
    SameShapeJoined(x + Source(s) + [Quoted("id")], y + Source(t) + [Quoted("id")], [Plain(") do ")], [Plain(") do ")]);
    SameShapeJoined(x + Source(s) + [Quoted("id")] + [Plain(") do ")], y + Source(t) + [Quoted("id")] + [Plain(") do ")],
                    ActionPieces(m), ActionPieces(n));
  }

  lemma UpToProjectionShape(s: string, a: seq<string>, t: string, b: seq<string>)
    requires |a| == |b|
    ensures SameShape(UpToProjection(s, a), UpToProjection(t, b))
  {
    ListShape(Column, a, b);
    ListShape(Projection, a, b);
    SameShapeJoined(Target(s), Target(t), ListPieces(Column, a), ListPieces(Column, b));
    var x, y := Target(s) + ListPieces(Column, a), Target(t) + ListPieces(Column, b);
    SameShapeJoined(x, y, [Plain(") select ")], [Plain(") select ")]);
    SameShapeJoined(x + [Plain(") select ")], y + [Plain(") select ")], ListPieces(Projection, a), ListPieces(Projection, b));
  }

  // ---------- Index names ----------

  /** The uncut name of an index. */
  function IndexBase(table: string, column: string): string {
    "idx_" + table + "_" + column
  }

  /** `index_name`; `digest` is the first eight hexadecimal digits of the hash. */
  function IndexName(table: string, column: string, digest: string -> string): string {
    var base := IndexBase(table, column);
    if |base| <= 63 then base else base[..54] + "_" + digest(base)
  }

  predicate Uncut(table: string, column: string) {
    |IndexBase(table, column)| <= 63
  }

  /** An uncut name is spelled from the table and the column. */
  lemma UncutNameIsSpelled(table: string, column: string, digest: string -> string)
    requires |table| + |column| <= 58
    ensures IndexName(table, column, digest) == "idx_" + table + "_" + column
  {}

  /** The longer table begins with the shorter one and an underscore, and what it has in between is moved from the
      column: `a`, `b_c` and `a_b`, `c`. */
  ghost predicate Shifted(s: string, c: string, t: string, d: string) {
    exists m :: t == s + "_" + m && c == m + "_" + d
  }

  lemma JoinedAlike(s: string, c: string, t: string, d: string)
    requires |s| <= |t|
    ensures s + "_" + c == t + "_" + d <==> (s == t && c == d) || Shifted(s, c, t, d)
  {
    var x, y := s + "_" + c, t + "_" + d;
    assert x[..|s|] == s && x[|s|] == '_' && x[|s| + 1..] == c;
    assert y[..|t|] == t && y[|t|] == '_' && y[|t| + 1..] == d;
    if x == y {
      if |s| < |t| {
        var m := t[|s| + 1..];
        assert t == t[..|s|] + [t[|s|]] + m && t[..|s|] == x[..|s|] && t[|s|] == x[|s|];
        assert c == x[|s| + 1..|t|] + [x[|t|]] + x[|t| + 1..] && x[|s| + 1..|t|] == m;
        assert Shifted(s, c, t, d);
      } else {
        assert s == x[..|s|] == y[..|t|] == t;
      }
    }
    forall m | t == s + "_" + m && c == m + "_" + d ensures x == y {
      assert s + "_" + (m + "_" + d) == (s + "_" + m) + "_" + d;
    }
  }

  /** Two names that are not cut agree exactly for one index, or for tables and columns shifted at an underscore. */
  lemma IndexNamesAgreeExactly(s: string, c: string, t: string, d: string, digest: string -> string)
    requires |s| <= |t| && Uncut(s, c) && Uncut(t, d)
    ensures IndexName(s, c, digest) == IndexName(t, d, digest) <==> (s == t && c == d) || Shifted(s, c, t, d)
  {
    JoinedAlike(s, c, t, d);
    assert IndexBase(s, c)[4..] == s + "_" + c && IndexBase(t, d)[4..] == t + "_" + d;
    if s + "_" + c == t + "_" + d {
      assert IndexBase(s, c) == "idx_" + (s + "_" + c) && IndexBase(t, d) == "idx_" + (t + "_" + d);
    }
  }

  /** So within one table they never collide, and neither do those of tables without an underscore. */
  lemma IndexNamesDifferWithinATable(s: string, c: string, t: string, d: string, digest: string -> string)
    requires Uncut(s, c) && Uncut(t, d) && IndexName(s, c, digest) == IndexName(t, d, digest)
    requires s == t || ('_' !in s && '_' !in t)
    ensures s == t && c == d
  {
    if |s| <= |t| {
      IndexNamesAgreeExactly(s, c, t, d, digest);
      NotShifted(s, c, t, d);
    } else {
      IndexNamesAgreeExactly(t, d, s, c, digest);
      NotShifted(t, d, s, c);
    }
  }

  lemma NotShifted(s: string, c: string, t: string, d: string)
    requires s == t || '_' !in t
    ensures !Shifted(s, c, t, d)
  {
    forall m ensures t != s + "_" + m {
      assert (s + "_" + m)[|s|] == '_' && |s + "_" + m| > |s|;
    }
  }

  /** Every index name fits. Two cut names agree exactly when the first 54 characters and the digests do, and a cut one
      is also an uncut one only when that is 63 characters long and spells the same cut and digest. */
  lemma CutIndexNamesAgreeExactly(s: string, c: string, t: string, d: string, digest: string -> string)
    requires !Uncut(s, c) && forall x :: |digest(x)| == 8
    ensures |IndexName(s, c, digest)| == 63 && |IndexName(t, d, digest)| <= 63
    ensures !Uncut(t, d) ==>
              (IndexName(s, c, digest) == IndexName(t, d, digest) <==>
               IndexBase(s, c)[..54] == IndexBase(t, d)[..54] && digest(IndexBase(s, c)) == digest(IndexBase(t, d)))
    ensures Uncut(t, d) ==>
              (IndexName(s, c, digest) == IndexName(t, d, digest) <==>
               && |IndexBase(t, d)| == 63 && IndexBase(t, d)[..54] == IndexBase(s, c)[..54]
               && IndexBase(t, d)[54] == '_' && IndexBase(t, d)[55..] == digest(IndexBase(s, c)))
  {
    var x, y := IndexBase(s, c), IndexBase(t, d);
    CutParts(x[..54], digest(x));
    if !Uncut(t, d) {
      CutParts(y[..54], digest(y));
    } else if |y| == 63 {
      CutParts(y[..54], y[55..]);
      assert y[54] == '_' ==> y == y[..54] + "_" + y[55..];
    }
  }

  lemma CutParts(head: string, tail: string)
    requires |head| == 54
    ensures var name := head + "_" + tail;
            |name| == 55 + |tail| && name[..54] == head && name[54] == '_' && name[55..] == tail
  {}

  /** The names are not collision-resistant across tables: column `b_c` of `a` and column `c` of `a_b`. */
  lemma IndexNamesCollide(digest: string -> string)
    ensures IndexName("a", "b_c", digest) == IndexName("a_b", "c", digest) == "idx_a_b_c"
  {}
}
