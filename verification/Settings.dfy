/** Exporting settings without their credentials and importing them back (crates/api/src/settings.rs). */
module Settings {
  import opened Wrappers
  import opened JsonModel

  const EXPORT_VERSION := 1

  // ---------- Which values are credentials ----------

  function Lower(s: string): string {
    seq(|s|, i requires 0 <= i < |s| => if 'A' <= s[i] <= 'Z' then (s[i] as int + 32) as char else s[i])
  }

  predicate StartsWith(s: string, start: string) {
    start <= s
  }

  predicate EndsWith(s: string, end: string) {
    |end| <= |s| && s[|s| - |end|..] == end
  }

  predicate Contains(s: string, part: string) {
    exists i :: 0 <= i <= |s| && part <= s[i..]
  }

  predicate IsSecretName(name: string) {
    var key := Lower(name);
    Contains(key, "password") || Contains(key, "secret") || EndsWith(key, "token") || EndsWith(key, "api_key")
    || EndsWith(key, "signing_key") || key == "private_key"
  }

  predicate IsEncryptedEnvelope(text: string) {
    StartsWith(text, "v1:")
  }

  /** Lazypock's own settings. */
  predicate IsInternal(key: string) {
    StartsWith(key, "auth.")
  }

  /** The last dot-separated part of a path. */
  function Leaf(path: string): string {
    if path == "" then ""
    else if path[|path| - 1] == '.' then ""
    else Leaf(path[..|path| - 1]) + [path[|path| - 1]]
  }

  /** The path of a field. */
  function Child(path: string, key: string): string {
    path + "." + key
  }

  /** A field is judged by its own key, or by the key's last part when the key has a dot in it: nothing
      above it in the path counts. */
  lemma {:induction false} LeafOfChild(path: string, key: string)
    ensures Leaf(Child(path, key)) == Leaf(key)
    ensures (forall i :: 0 <= i < |key| ==> key[i] != '.') ==> Leaf(Child(path, key)) == key
  {
    var whole := Child(path, key);
    if key != "" {
      var n := |key| - 1;
      assert whole[..|whole| - 1] == Child(path, key[..n]);
      LeafOfChild(path, key[..n]);
      assert key == key[..n] + [key[n]];
    }
  }

  // ---------- Redaction ----------

  /** Whether a value that is neither an object nor an array is replaced. */
  predicate IsCredential(v: Json, path: string) {
    (v.Str? && IsEncryptedEnvelope(v.text)) || IsSecretName(Leaf(path))
  }

  /** `redact`, as a value. */
  function Redacted(v: Json, path: string): Json
    decreases v
  {
    match v
    case Obj(fields) => Obj(map k | k in fields :: Redacted(fields[k], Child(path, k)))
    case Arr(items) => Arr(seq(|items|, i requires 0 <= i < |items| => Redacted(items[i], path)))
    case _ => if IsCredential(v, path) then Null else v
  }

  /** The paths `redact` records. */
  function Recorded(v: Json, path: string): set<string>
    decreases v
  {
    match v
    case Obj(fields) => set k, p | k in fields && p in Recorded(fields[k], Child(path, k)) :: p
    case Arr(items) => set i, p | 0 <= i < |items| && p in Recorded(items[i], path) :: p
    case _ => if IsCredential(v, path) then {path} else {}
  }

  /** Whether a value holds a credential by the rule of `redact`: an envelope, or something but null right under a name
      whose last part is secret. */
  predicate HasSecret(v: Json, path: string)
    decreases v
  {
    match v
    case Obj(fields) => exists k :: k in fields && HasSecret(fields[k], Child(path, k))
    case Arr(items) => exists i :: 0 <= i < |items| && HasSecret(items[i], path)
    case _ => v != Null && IsCredential(v, path)
  }

  /** Whether some array of a value holds one. */
  predicate SecretInArray(v: Json, path: string)
    decreases v
  {
    match v
    case Obj(fields) => exists k :: k in fields && SecretInArray(fields[k], Child(path, k))
    case Arr(_) => HasSecret(v, path)
    case _ => false
  }

  function Elements(log: seq<string>): set<string> {
    set p | p in log
  }

  function RecordedFields(fields: map<string, Json>, keys: set<string>, path: string): set<string>
    requires keys <= fields.Keys
  {
    set k, p | k in keys && p in Recorded(fields[k], Child(path, k)) :: p
  }

  function RecordedItems(items: seq<Json>, n: nat, path: string): set<string>
    requires n <= |items|
  {
    set i, p | 0 <= i < n && p in Recorded(items[i], path) :: p
  }

  /** `redact`: the value, and the record it grows on the way. */
  method Redact(value: Json, path: string, redacted: seq<string>) returns (out: Json, record: seq<string>)
    ensures out == Redacted(value, path)
    ensures redacted <= record && Elements(record) == Elements(redacted) + Recorded(value, path)
    decreases value, 1
  {
    match value {
      case Obj(fields) =>
        out, record := RedactFields(value, path, redacted);
        assert RecordedFields(fields, fields.Keys, path) == Recorded(value, path);
      case Arr(items) =>
        out, record := RedactItems(value, path, redacted);
        assert RecordedItems(items, |items|, path) == Recorded(value, path);
      case _ =>
        if IsCredential(value, path) {
          out, record := Null, redacted + [path];
          assert Elements(record) == Elements(redacted) + {path};
        } else {
          out, record := value, redacted;
        }
    }
  }

  method RedactFields(value: Json, path: string, redacted: seq<string>) returns (out: Json, record: seq<string>)
    requires value.Obj?
    ensures out == Redacted(value, path)
    ensures redacted <= record
    ensures Elements(record) == Elements(redacted) + RecordedFields(value.fields, value.fields.Keys, path)
    decreases value, 0
  {
    var fields := value.fields;
    var done: map<string, Json> := map[];
    var rest := fields.Keys;
    record := redacted;
    while rest != {}
      invariant rest <= fields.Keys && done.Keys == fields.Keys - rest
      invariant forall k :: k in done ==> done[k] == Redacted(fields[k], Child(path, k))
      invariant redacted <= record
      invariant Elements(record) == Elements(redacted) + RecordedFields(fields, fields.Keys - rest, path)
      decreases rest
    {
      var key :| key in rest;
      var v;
      ghost var seen := fields.Keys - rest;
      v, record := Redact(fields[key], Child(path, key), record);
      done, rest := done[key := v], rest - {key};
      assert fields.Keys - rest == seen + {key};
      assert RecordedFields(fields, seen + {key}, path) == RecordedFields(fields, seen, path) + Recorded(fields[key], Child(path, key));
    }
    assert fields.Keys - rest == fields.Keys;
    out := Obj(done);
  }

  method RedactItems(value: Json, path: string, redacted: seq<string>) returns (out: Json, record: seq<string>)
    requires value.Arr?
    ensures out == Redacted(value, path)
    ensures redacted <= record
    ensures Elements(record) == Elements(redacted) + RecordedItems(value.items, |value.items|, path)
    decreases value, 0
  {
    var items := value.items;
    var done := [];
    record := redacted;
    for i := 0 to |items|
      invariant |done| == i && forall j :: 0 <= j < i ==> done[j] == Redacted(items[j], path)
      invariant redacted <= record
      invariant Elements(record) == Elements(redacted) + RecordedItems(items, i, path)
    {
      var v;
      v, record := Redact(items[i], path, record);
      done := done + [v];
      assert RecordedItems(items, i + 1, path) == RecordedItems(items, i, path) + Recorded(items[i], path);
    }
    out := Arr(done);
  }

  /** What redaction keeps holds no credential by that rule: no encrypted envelope anywhere, and no scalar or array
      of scalars but null right under a name whose last part is secret. An object there is another matter. */
  lemma {:induction false} NoSecretSurvives(v: Json, path: string)
    ensures !HasSecret(Redacted(v, path), path)
    decreases v
  {
    match v {
      case Obj(fields) =>
        forall k | k in fields ensures !HasSecret(Redacted(fields[k], Child(path, k)), Child(path, k)) {
          NoSecretSurvives(fields[k], Child(path, k));
        }
      case Arr(items) =>
        forall i | 0 <= i < |items| ensures !HasSecret(Redacted(items[i], path), path) {
          NoSecretSurvives(items[i], path);
        }
      case _ =>
    }
  }

  /** Every string inside a value. */
  predicate HoldsEnvelope(v: Json)
    decreases v
  {
    match v
    case Obj(fields) => exists k :: k in fields && HoldsEnvelope(fields[k])
    case Arr(items) => exists i :: 0 <= i < |items| && HoldsEnvelope(items[i])
    case Str(text) => IsEncryptedEnvelope(text)
    case _ => false
  }

  /** No stored-secret envelope comes out of an export, at whatever depth and under whatever names. */
  lemma {:induction false} NoEnvelopeSurvives(v: Json, path: string)
    ensures !HoldsEnvelope(Redacted(v, path))
    decreases v
  {
    match v {
      case Obj(fields) =>
        forall k | k in fields ensures !HoldsEnvelope(Redacted(fields[k], Child(path, k))) {
          NoEnvelopeSurvives(fields[k], Child(path, k));
        }
      case Arr(items) =>
        forall i | 0 <= i < |items| ensures !HoldsEnvelope(Redacted(items[i], path)) {
          NoEnvelopeSurvives(items[i], path);
        }
      case _ =>
    }
  }

  /** Redaction changes a value exactly when there is a credential in it, and then says so. */
  lemma {:induction false} RedactionChangesOnlySecrets(v: Json, path: string)
    ensures Redacted(v, path) == v <==> !HasSecret(v, path)
    ensures HasSecret(v, path) ==> Recorded(v, path) != {}
    decreases v
  {
    match v {
      case Obj(fields) =>
        var out := Redacted(v, path).fields;
        forall k | k in fields
          ensures out[k] == fields[k] <==> !HasSecret(fields[k], Child(path, k))
          ensures HasSecret(fields[k], Child(path, k)) ==> Recorded(fields[k], Child(path, k)) != {}
        {
          RedactionChangesOnlySecrets(fields[k], Child(path, k));
        }
        if k :| k in fields && HasSecret(fields[k], Child(path, k)) {
          var p :| p in Recorded(fields[k], Child(path, k));
          assert p in Recorded(v, path);
        } else {
          assert out == fields;
        }
      case Arr(items) =>
        var out := Redacted(v, path).items;
        forall i | 0 <= i < |items|
          ensures out[i] == items[i] <==> !HasSecret(items[i], path)
          ensures HasSecret(items[i], path) ==> Recorded(items[i], path) != {}
        {
          RedactionChangesOnlySecrets(items[i], path);
        }
        if i :| 0 <= i < |items| && HasSecret(items[i], path) {
          var p :| p in Recorded(items[i], path);
          assert p in Recorded(v, path);
        } else {
          assert out == items;
        }
      case _ =>
    }
  }

  // ---------- Names and prefixes ----------

  /** A name is secret exactly when, in lower case, it has `password` or `secret` in it, ends as a token or key does, or is
      `private_key`. */
  lemma SecretNamesExactly(name: string)
    ensures IsSecretName(name) <==>
            var n := Lower(name);
            || (exists a, b :: n == a + "password" + b) || (exists a, b :: n == a + "secret" + b)
            || (exists a :: n == a + "token") || (exists a :: n == a + "api_key") || (exists a :: n == a + "signing_key")
            || n == "private_key"
  {
    var n := Lower(name);
    ContainsExactly(n, "password");
    ContainsExactly(n, "secret");
    EndsWithExactly(n, "token");
    EndsWithExactly(n, "api_key");
    EndsWithExactly(n, "signing_key");
  }

  lemma ContainsExactly(s: string, part: string)
    ensures Contains(s, part) <==> exists a, b :: s == a + part + b
  {
    if i :| 0 <= i <= |s| && part <= s[i..] {
      assert s == s[..i] + part + s[i..][|part|..];
    }
    forall a, b | s == a + part + b ensures Contains(s, part) {
      assert s[|a|..] == part + b;
    }
  }

  lemma EndsWithExactly(s: string, end: string)
    ensures EndsWith(s, end) <==> exists a :: s == a + end
  {
    if EndsWith(s, end) { assert s == s[..|s| - |end|] + end; }
    forall a | s == a + end ensures EndsWith(s, end) { assert s[|a|..] == end; }
  }

  /** Two spellings of a character that differ at most in ASCII case. */
  predicate SameLetter(c: char, d: char) {
    c == d || ('A' <= c <= 'Z' && d as int == c as int + 32) || ('A' <= d <= 'Z' && c as int == d as int + 32)
  }

  /** ASCII case makes no difference to a name, and lower case is what is compared. */
  lemma CaseIsIgnored(s: string, t: string)
    requires |s| == |t| && forall i :: 0 <= i < |s| ==> SameLetter(s[i], t[i])
    ensures IsSecretName(s) == IsSecretName(t)
    ensures |Lower(s)| == |s| && forall i :: 0 <= i < |s| ==> SameLetter(Lower(s)[i], s[i]) && !('A' <= Lower(s)[i] <= 'Z')
  {
    assert Lower(s) == Lower(t);
  }

  lemma PrefixesExactly(text: string, key: string)
    ensures IsEncryptedEnvelope(text) <==> exists rest :: text == "v1:" + rest
    ensures IsInternal(key) <==> exists rest :: key == "auth." + rest
  {
    if IsEncryptedEnvelope(text) { assert text == "v1:" + text[3..]; }
    if IsInternal(key) { assert key == "auth." + key[5..]; }
  }

  // ---------- What redaction does, place by place ----------

  datatype Step = Key(key: string) | Index(index: nat)

  /** The value at a place, through objects and arrays. */
  function At(v: Json, steps: seq<Step>): Option<Json> {
    if steps == [] then Some(v)
    else
      match steps[0]
      case Key(k) => if v.Obj? && k in v.fields then At(v.fields[k], steps[1..]) else None
      case Index(i) => if v.Arr? && i < |v.items| then At(v.items[i], steps[1..]) else None
  }

  /** The path `redact` has in hand at a place: keys are appended, and indices leave it as it is. */
  function PathAt(path: string, steps: seq<Step>): string
    decreases |steps|
  {
    if steps == [] then path else PathAt(if steps[0].Key? then path + "." + steps[0].key else path, steps[1..])
  }

  predicate IsScalar(v: Json) {
    !v.Obj? && !v.Arr?
  }

  /** What is taken out at a path. */
  predicate TakenOut(v: Json, path: string) {
    IsScalar(v) && ((v.Str? && "v1:" <= v.text) || IsSecretName(Leaf(path)))
  }

  /** Redaction keeps every object with its keys, every array with its length and every other scalar, and puts null exactly
      where there is an envelope or a scalar whose path ends in a secret name. */
  lemma {:induction false} RedactedAt(v: Json, path: string, steps: seq<Step>)
    ensures var x, y := At(v, steps), At(Redacted(v, path), steps);
            && (x.None? <==> y.None?)
            && (x.Some? ==>
                  && (x.value.Obj? ==> y.value.Obj? && y.value.fields.Keys == x.value.fields.Keys)
                  && (x.value.Arr? ==> y.value.Arr? && |y.value.items| == |x.value.items|)
                  && (IsScalar(x.value) ==> y.value == if TakenOut(x.value, PathAt(path, steps)) then Null else x.value))
    decreases |steps|
  {
    if steps != [] {
      match steps[0] {
        case Key(k) => if v.Obj? && k in v.fields { RedactedAt(v.fields[k], Child(path, k), steps[1..]); }
        case Index(i) => if v.Arr? && i < |v.items| { RedactedAt(v.items[i], path, steps[1..]); }
      }
    }
  }

  /** And the paths on record are exactly those of the places it put null. */
  lemma {:induction false} RecordedAt(v: Json, path: string, p: string)
    ensures p in Recorded(v, path) <==> exists steps: seq<Step> :: TakenAt(v, path, steps) && PathAt(path, steps) == p
    decreases v
  {
    match v {
      case Obj(fields) =>
        if p in Recorded(v, path) {
          var k :| k in fields && p in Recorded(fields[k], Child(path, k));
          RecordedAt(fields[k], Child(path, k), p);
          var steps: seq<Step> :| TakenAt(fields[k], Child(path, k), steps) && PathAt(Child(path, k), steps) == p;
          assert TakenAt(v, path, [Key(k)] + steps) by { assert ([Key(k)] + steps)[1..] == steps; }
        }
        forall steps: seq<Step> | TakenAt(v, path, steps) && PathAt(path, steps) == p ensures p in Recorded(v, path) {
          var k := steps[0].key;
          RecordedAt(fields[k], Child(path, k), p);
          assert TakenAt(fields[k], Child(path, k), steps[1..]);
        }
      case Arr(items) =>
        if p in Recorded(v, path) {
          var i :| 0 <= i < |items| && p in Recorded(items[i], path);
          RecordedAt(items[i], path, p);
          var steps: seq<Step> :| TakenAt(items[i], path, steps) && PathAt(path, steps) == p;
          assert TakenAt(v, path, [Index(i)] + steps) by { assert ([Index(i)] + steps)[1..] == steps; }
        }
        forall steps: seq<Step> | TakenAt(v, path, steps) && PathAt(path, steps) == p ensures p in Recorded(v, path) {
          var i := steps[0].index;
          RecordedAt(items[i], path, p);
          assert TakenAt(items[i], path, steps[1..]);
        }
      case _ =>
        if p in Recorded(v, path) { assert TakenAt(v, path, []); }
    }
  }

  predicate TakenAt(v: Json, path: string, steps: seq<Step>) {
    At(v, steps).Some? && TakenOut(At(v, steps).value, PathAt(path, steps))
  }

  // ---------- What redaction misses ----------

  /** Whether some value but null stands anywhere below a key whose whole name is secret; `under` says that such a key
      is above already. */
  predicate Exposed(v: Json, under: bool)
    decreases v
  {
    match v
    case Obj(fields) => exists k :: k in fields && Exposed(fields[k], under || IsSecretName(k))
    case Arr(items) => exists i :: 0 <= i < |items| && Exposed(items[i], under)
    case _ => under && v != Null
  }

  /** Whether such a value is neither an envelope nor right under a key with a secret last part; `name` is the last part
      of the nearest key. */
  predicate Escapes(v: Json, name: string, under: bool)
    decreases v
  {
    match v
    case Obj(fields) => exists k :: k in fields && Escapes(fields[k], Leaf(k), under || IsSecretName(k))
    case Arr(items) => exists i :: 0 <= i < |items| && Escapes(items[i], name, under)
    case _ => under && v != Null && !(v.Str? && IsEncryptedEnvelope(v.text)) && !IsSecretName(name)
  }

  /** A secret key leaves something in clear after redaction exactly when a value below it stands right under a key with
      an innocent last part. */
  lemma {:induction false} ExposedExactly(v: Json, path: string, under: bool)
    ensures Exposed(Redacted(v, path), under) <==> Escapes(v, Leaf(path), under)
    decreases v
  {
    match v {
      case Obj(fields) =>
        var out := Redacted(v, path).fields;
        forall k | k in fields
          ensures Exposed(out[k], under || IsSecretName(k)) <==> Escapes(fields[k], Leaf(k), under || IsSecretName(k))
        {
          ExposedExactly(fields[k], Child(path, k), under || IsSecretName(k));
          LeafOfChild(path, k);
        }
      case Arr(items) =>
        var out := Redacted(v, path).items;
        forall i | 0 <= i < |items| ensures Exposed(out[i], under) <==> Escapes(items[i], Leaf(path), under) {
          ExposedExactly(items[i], path, under);
        }
      case _ =>
    }
  }

  /** No object stands below a secret key, and no key has a dot. */
  predicate Flat(v: Json, under: bool)
    decreases v
  {
    match v
    case Obj(fields) => !under && forall k :: k in fields ==> '.' !in k && Flat(fields[k], IsSecretName(k))
    case Arr(items) => forall i :: 0 <= i < |items| ==> Flat(items[i], under)
    case _ => true
  }

  /** Settings of that form are safe: nothing below a secret key survives. */
  lemma FlatSettingsAreSafe(v: Json, key: string)
    requires Flat(v, IsSecretName(key)) && '.' !in key
    ensures !Exposed(Redacted(v, key), IsSecretName(key))
  {
    LeafWithoutDot(key);
    NothingEscapesFlat(v, key, IsSecretName(key));
    ExposedExactly(v, key, IsSecretName(key));
  }

  lemma {:induction false} LeafWithoutDot(key: string)
    requires '.' !in key
    ensures Leaf(key) == key
  {
    if key != "" { LeafWithoutDot(key[..|key| - 1]); }
  }

  lemma {:induction false} NothingEscapesFlat(v: Json, name: string, under: bool)
    requires Flat(v, under) && (under ==> IsSecretName(name))
    ensures !Escapes(v, name, under)
    decreases v
  {
    match v {
      case Obj(fields) =>
        forall k | k in fields ensures !Escapes(fields[k], Leaf(k), IsSecretName(k)) {
          LeafWithoutDot(k);
          NothingEscapesFlat(fields[k], Leaf(k), IsSecretName(k));
        }
      case Arr(items) =>
        forall i | 0 <= i < |items| ensures !Escapes(items[i], name, under) { NothingEscapesFlat(items[i], name, under); }
      case _ =>
    }
  }

  function One(key: string, v: Json): Json {
    Obj(map[key := v])
  }

  lemma OneRedacted(key: string, v: Json, path: string)
    requires Redacted(v, Child(path, key)) == v
    ensures Redacted(One(key, v), path) == One(key, v)
  {
    assert Redacted(One(key, v), path).fields == map[key := v];
  }

  lemma OneExposed(key: string, v: Json, under: bool)
    requires Exposed(v, under || IsSecretName(key))
    ensures Exposed(One(key, v), under)
  {
    assert key in One(key, v).fields && One(key, v).fields[key] == v;
  }

  /** `mail` as `{"password": {"value": "hunter2"}}`. */
  function NestedPassword(): Json {
    One("password", One("value", Str("hunter2")))
  }

  /** `mail` as `{"client_secret.v1": "hunter2"}`. */
  function DottedSecret(): Json {
    One("client_secret.v1", Str("hunter2"))
  }

  /** An object under a secret key is exported in clear. */
  lemma NestedSecretIsExported()
    ensures Redacted(NestedPassword(), "mail") == NestedPassword() && Exposed(NestedPassword(), IsSecretName("mail"))
  {
    ShortIsInnocent("value");
    LeafWithoutDot("value");
    KeptInClear("value", Child("mail", "password"));
    OneRedacted("value", Str("hunter2"), Child("mail", "password"));
    OneRedacted("password", One("value", Str("hunter2")), "mail");
    PasswordIsSecret();
    OneExposed("value", Str("hunter2"), true);
    OneExposed("password", One("value", Str("hunter2")), IsSecretName("mail"));
  }

  /** So is a value under a secret key with a dotted tail. */
  lemma DottedSecretIsExported()
    ensures Redacted(DottedSecret(), "mail") == DottedSecret() && Exposed(DottedSecret(), IsSecretName("mail"))
  {
    ShortIsInnocent("v1");
    DottedTail("client_secret", "v1");
    assert "client_secret" + "." + "v1" == "client_secret.v1";
    KeptInClear("client_secret.v1", "mail");
    OneRedacted("client_secret.v1", Str("hunter2"), "mail");
    ClientSecretIsSecret();
    OneExposed("client_secret.v1", Str("hunter2"), IsSecretName("mail"));
  }

  lemma KeptInClear(key: string, path: string)
    requires !IsSecretName(Leaf(key))
    ensures Redacted(Str("hunter2"), Child(path, key)) == Str("hunter2")
  {
    LeafOfChild(path, key);
    assert "hunter2"[0] != "v1:"[0];
  }

  lemma PasswordIsSecret()
    ensures IsSecretName("password")
  {
    LowerIsSame("password");
    assert "password" <= Lower("password")[0..];
  }

  lemma ClientSecretIsSecret()
    ensures IsSecretName("client_secret.v1")
  {
    LowerIsSame("client_secret.v1");
    assert "secret" <= Lower("client_secret.v1")[7..];
  }

  lemma LowerIsSame(s: string)
    requires forall i :: 0 <= i < |s| ==> !('A' <= s[i] <= 'Z')
    ensures Lower(s) == s
  {}

  lemma ShortIsInnocent(name: string)
    requires |name| < 5 || (|name| == 5 && name[0] == 'v')
    ensures !IsSecretName(name)
  {
    if |name| == 5 {
      assert Lower(name)[0] == 'v';
      assert Lower(name)[|name| - 5..][0] == 'v' && "token"[0] == 't';
    }
  }

  lemma DottedTail(front: string, tail: string)
    requires '.' !in tail
    ensures Leaf(front + "." + tail) == tail
  {
    LeafOfChild(front, tail);
    LeafWithoutDot(tail);
  }

  // ---------- Merging ----------

  /** `merge_keep`: objects merge field by field, null keeps what is stored, and anything else replaces it,
      an array included. */
  function MergeKeep(stored: Json, imported: Json): Json
    decreases imported
  {
    match (stored, imported)
    case (Obj(s), Obj(i)) =>
      Obj(map k | k in s.Keys + i.Keys ::
        if k !in i then s[k] else if k in s then MergeKeep(s[k], i[k]) else i[k])
    case (_, Null) => stored
    case _ => imported
  }

  /** `merge_keep` as the code runs it: a copy of the stored fields, overwritten one key at a time. */
  method Merge(stored: Json, imported: Json) returns (merged: Json)
    ensures merged == MergeKeep(stored, imported)
    decreases imported
  {
    if stored.Obj? && imported.Obj? {
      var fields := stored.fields;
      var rest := imported.fields.Keys;
      while rest != {}
        invariant rest <= imported.fields.Keys
        invariant fields.Keys == stored.fields.Keys + (imported.fields.Keys - rest)
        invariant forall k :: k in stored.fields && (k in rest || k !in imported.fields) ==> fields[k] == stored.fields[k]
        invariant forall k :: k in imported.fields && k !in rest ==> fields[k] == MergeKeep(stored, imported).fields[k]
        decreases rest
      {
        var key :| key in rest;
        var next := imported.fields[key];
        if key in fields {
          next := Merge(fields[key], imported.fields[key]);
        }
        fields, rest := fields[key := next], rest - {key};
      }
      merged := Obj(fields);
    } else if imported.Null? {
      merged := stored;
    } else {
      merged := imported;
    }
  }

  lemma {:induction false} MergeSelf(v: Json)
    ensures MergeKeep(v, v) == v
    decreases v
  {
    if v.Obj? {
      forall k | k in v.fields ensures MergeKeep(v.fields[k], v.fields[k]) == v.fields[k] {
        MergeSelf(v.fields[k]);
      }
    }
  }

  /** Importing the same document twice is importing it once. */
  lemma {:induction false} MergeIsIdempotent(stored: Json, imported: Json)
    ensures MergeKeep(MergeKeep(stored, imported), imported) == MergeKeep(stored, imported)
    decreases imported
  {
    match (stored, imported) {
      case (Obj(s), Obj(i)) =>
        var once := MergeKeep(stored, imported).fields;
        var twice := MergeKeep(MergeKeep(stored, imported), imported).fields;
        forall k | k in once ensures twice[k] == once[k] {
          if k in i {
            if k in s { MergeIsIdempotent(s[k], i[k]); } else { MergeSelf(i[k]); }
          }
        }
        assert twice.Keys == once.Keys;
      case (_, Obj(i)) => MergeSelf(imported);
      case _ =>
    }
  }

  // ---------- What a merge holds, field by field ----------

  /** The value at a path of keys, through objects alone. */
  function Field(v: Json, keys: seq<string>): Option<Json> {
    if keys == [] then Some(v)
    else if v.Obj? && keys[0] in v.fields then Field(v.fields[keys[0]], keys[1..])
    else None
  }

  /** A scalar or an array: what replaces. */
  predicate Replaces(v: Json) {
    !v.Obj? && !v.Null?
  }

  /** Somewhere on the way to a field the file carries a scalar or an array. */
  predicate CutOff(imported: Json, keys: seq<string>) {
    exists n :: 0 <= n < |keys| && Field(imported, keys[..n]).Some? && Replaces(Field(imported, keys[..n]).value)
  }

  lemma FieldStep(v: Json, keys: seq<string>, n: nat)
    requires 0 < n <= |keys|
    ensures Field(v, keys[..n]) == if v.Obj? && keys[0] in v.fields then Field(v.fields[keys[0]], keys[1..][..n - 1]) else None
  {
    assert keys[..n][1..] == keys[1..][..n - 1];
  }

  lemma CutOffStep(v: Json, keys: seq<string>)
    requires keys != []
    ensures CutOff(v, keys) <==> Replaces(v) || (v.Obj? && keys[0] in v.fields && CutOff(v.fields[keys[0]], keys[1..]))
  {
    assert Field(v, keys[..0]) == Some(v);
    if v.Obj? && keys[0] in v.fields {
      forall n | 0 < n < |keys| ensures Field(v, keys[..n]) == Field(v.fields[keys[0]], keys[1..][..n - 1]) { FieldStep(v, keys, n); }
      if CutOff(v.fields[keys[0]], keys[1..]) {
        var n :| 0 <= n < |keys| - 1 && Field(v.fields[keys[0]], keys[1..][..n]).Some? && Replaces(Field(v.fields[keys[0]], keys[1..][..n]).value);
        assert keys[1..][..n + 1 - 1] == keys[1..][..n];
        assert Field(v, keys[..n + 1]).Some?;
      }
    } else {
      forall n | 0 < n < |keys| ensures Field(v, keys[..n]) == None { FieldStep(v, keys, n); }
    }
  }

  /** The whole law of a merge, for every field at any depth. Where the file carries a scalar or an array, the result has
      it. Where the file carries an object, the result has one. Where it carries null or nothing, the stored value stays,
      unless a scalar or an array of the file stands in the way, and then there is nothing; a null for a field that was not
      stored is carried as it is. */
  lemma {:induction false} MergedField(stored: Json, imported: Json, keys: seq<string>)
    ensures var s, i, m := Field(stored, keys), Field(imported, keys), Field(MergeKeep(stored, imported), keys);
            && (i.Some? && Replaces(i.value) ==> m == i)
            && (i.Some? && i.value.Obj? ==> m.Some? && m.value.Obj?)
            && (i.Some? && i.value.Null? ==> m == if s.Some? then s else i)
            && (i.None? ==> m == if CutOff(imported, keys) then None else s)
    decreases |keys|
  {
    if keys != [] {
      var k, rest := keys[0], keys[1..];
      CutOffStep(imported, keys);
      if stored.Obj? && imported.Obj? && k in stored.fields && k in imported.fields {
        MergedField(stored.fields[k], imported.fields[k], rest);
      } else if imported.Obj? && k in imported.fields {
        NotCutOff(imported.fields[k], rest);
      }
    }
  }

  /** A field that is there is not cut off. */
  lemma {:induction false} NotCutOff(v: Json, keys: seq<string>)
    ensures CutOff(v, keys) ==> Field(v, keys).None?
    decreases |keys|
  {
    if keys != [] {
      CutOffStep(v, keys);
      if v.Obj? && keys[0] in v.fields { NotCutOff(v.fields[keys[0]], keys[1..]); }
    }
  }

  // ---------- The round trip ----------

  /** A value whose arrays, and nothing else, have been redacted. */
  function ArraysRedacted(v: Json, path: string): Json
    decreases v
  {
    match v
    case Obj(fields) => Obj(map k | k in fields :: ArraysRedacted(fields[k], Child(path, k)))
    case Arr(_) => Redacted(v, path)
    case _ => v
  }

  /** Exactly what comes back from an export merged over the value it was taken from: every credential
      outside arrays, and none inside. */
  lemma {:induction false} RoundTripRedactsArrays(v: Json, path: string)
    ensures MergeKeep(v, Redacted(v, path)) == ArraysRedacted(v, path)
    decreases v
  {
    if v.Obj? {
      forall k | k in v.fields
        ensures MergeKeep(v.fields[k], Redacted(v.fields[k], Child(path, k))) == ArraysRedacted(v.fields[k], Child(path, k))
      {
        RoundTripRedactsArrays(v.fields[k], Child(path, k));
      }
      var merged := MergeKeep(v, Redacted(v, path)).fields;
      assert merged.Keys == v.fields.Keys;
      assert merged == ArraysRedacted(v, path).fields;
    }
  }

  lemma {:induction false} ArraysRedactedIsIdentity(v: Json, path: string)
    ensures ArraysRedacted(v, path) == v <==> !SecretInArray(v, path)
    decreases v
  {
    match v {
      case Obj(fields) =>
        var out := ArraysRedacted(v, path).fields;
        forall k | k in fields ensures out[k] == fields[k] <==> !SecretInArray(fields[k], Child(path, k)) {
          ArraysRedactedIsIdentity(fields[k], Child(path, k));
        }
        if forall k :: k in fields ==> !SecretInArray(fields[k], Child(path, k)) {
          assert out == fields;
        }
      case Arr(_) => RedactionChangesOnlySecrets(v, path);
      case _ =>
    }
  }

  /** The documented round trip, "cannot delete a secret", holds exactly for the values with no credential
      inside an array. */
  lemma RoundTripIsIdentityUnlessAnArrayHoldsASecret(v: Json, path: string)
    ensures MergeKeep(v, Redacted(v, path)) == v <==> !SecretInArray(v, path)
  {
    RoundTripRedactsArrays(v, path);
    ArraysRedactedIsIdentity(v, path);
  }

  /** An OAuth2 provider's secret is such a value: it is null after the round trip. */
  lemma ProviderSecretIsLost()
    ensures var stored := Obj(map["providers" := Arr([Obj(map["client_secret" := Str("v1:aa:bb")])])]);
            MergeKeep(stored, Redacted(stored, "oauth2"))
            == Obj(map["providers" := Arr([Obj(map["client_secret" := Null])])])
  {
    var secret := Str("v1:aa:bb");
    var provider := Obj(map["client_secret" := secret]);
    var path := Child("oauth2", "providers");
    assert IsEncryptedEnvelope(secret.text);
    assert Redacted(secret, Child(path, "client_secret")) == Null;
    assert Redacted(provider, path) == Obj(map["client_secret" := Null]);
    assert Redacted(Arr([provider]), path) == Arr([Obj(map["client_secret" := Null])]);
    RoundTripRedactsArrays(Obj(map["providers" := Arr([provider])]), "oauth2");
  }

  // ---------- The settings table ----------

  type Rows = map<string, Json>

  /** The document an export writes. */
  function Exported(rows: Rows): Rows {
    map k | k in rows && !IsInternal(k) :: Redacted(rows[k], k)
  }

  function StoredOr(rows: Rows, key: string): Json {
    if key in rows then rows[key] else Null
  }

  predicate Refused(version: nat, document: Rows) {
    version != EXPORT_VERSION || exists k :: k in document && IsInternal(k)
  }

  function Merged(rows: Rows, document: Rows, key: string): Json
    requires key in document
  {
    MergeKeep(StoredOr(rows, key), document[key])
  }

  /** The keys an import writes among some of its document's. */
  function Written(rows: Rows, document: Rows, keys: set<string>): set<string>
    requires keys <= document.Keys
  {
    set k | k in keys && Merged(rows, document, k) != Null
  }

  /** The table an import leaves, once it is not refused: a merge that comes to null is not written. */
  function Imported(rows: Rows, document: Rows): Rows {
    var written := Written(rows, document, document.Keys);
    map k | k in rows.Keys + written :: if k in written then Merged(rows, document, k) else rows[k]
  }

  class SettingsStore {
    var rows: Rows

    constructor (rows: Rows)
      ensures this.rows == rows
    {
      this.rows := rows;
    }

    method Export() returns (settings: Rows, secrets: seq<string>)
      ensures settings == Exported(rows)
      ensures forall k :: k in settings <==> k in rows && !("auth." <= k)
      ensures forall k :: k in settings ==> settings[k] == Redacted(rows[k], k)
      ensures Elements(secrets) == set k, p | k in rows && !IsInternal(k) && p in Recorded(rows[k], k) :: p
    {
      settings, secrets := map[], [];
      var rest := rows.Keys;
      while rest != {}
        invariant rest <= rows.Keys
        invariant settings.Keys == set k | k in rows.Keys - rest && !IsInternal(k)
        invariant forall k :: k in settings ==> settings[k] == Redacted(rows[k], k)
        invariant Elements(secrets) == set k, p | k in settings && p in Recorded(rows[k], k) :: p
        decreases rest
      {
        var key :| key in rest;
        rest := rest - {key};
        if !IsInternal(key) {
          var value;
          value, secrets := Redact(rows[key], key, secrets);
          settings := settings[key := value];
        }
      }
    }

    /** One transaction: an internal key met on the way refuses the document, and nothing is written. */
    method Import(version: nat, document: Rows) returns (result: Result<(set<string>, set<string>), string>)
      modifies this
      ensures result.Err? <==> version != 1 || exists k :: k in document && "auth." <= k
      ensures result.Err? ==> rows == old(rows)
      ensures result.Ok? ==>
                && rows == Imported(old(rows), document)
                && result.value.0 == Written(old(rows), document, document.Keys)
                && (forall k :: k in result.value.0 <==>
                      k in document && (document[k] != Null || (k in old(rows) && old(rows)[k] != Null)))
                && result.value.1 == document.Keys - result.value.0
    {
      if version != EXPORT_VERSION {
        return Err("an unknown version");
      }
      var draft := rows;
      var imported, skipped := {}, {};
      var rest := document.Keys;
      while rest != {}
        invariant rest <= document.Keys && rows == old(rows)
        invariant forall k :: k in document && k !in rest ==> !IsInternal(k)
        invariant imported == Written(rows, document, document.Keys - rest)
        invariant skipped == document.Keys - rest - imported
        invariant draft.Keys == rows.Keys + imported
        invariant forall k :: k in draft ==>
          draft[k] == if k in imported then Merged(rows, document, k) else rows[k]
        decreases rest
      {
        var key :| key in rest;
        ghost var seen := document.Keys - rest;
        rest := rest - {key};
        assert document.Keys - rest == seen + {key};
        if IsInternal(key) {
          return Err("lazypock's own setting");
        }
        var merged := Merge(StoredOr(rows, key), document[key]);
        if merged == Null {
          skipped := skipped + {key};
        } else {
          draft, imported := draft[key := merged], imported + {key};
        }
      }
      assert document.Keys - rest == document.Keys;
      rows := draft;
      result := Ok((imported, skipped));
    }
  }

  /** An export never carries lazypock's own settings, an envelope, or a credential by the rule of `redact`; what it does
      carry below a secret key is exactly what escapes that rule; and every import leaves the internal settings as they
      are. */
  lemma ExportsAreSafe(rows: Rows, document: Rows, k: string)
    ensures k in Exported(rows) ==> k in rows && !IsInternal(k) && !HasSecret(Exported(rows)[k], k)
                                    && !HoldsEnvelope(Exported(rows)[k])
    ensures k in Exported(rows) ==>
              (Exposed(Exported(rows)[k], IsSecretName(k)) <==> Escapes(rows[k], Leaf(k), IsSecretName(k)))
    ensures !Refused(EXPORT_VERSION, Exported(rows))
    ensures k in rows ==> k in Imported(rows, document)
    ensures !Refused(EXPORT_VERSION, document) && k in rows && IsInternal(k) ==> Imported(rows, document)[k] == rows[k]
  {
    if k in rows {
      NoSecretSurvives(rows[k], k);
      NoEnvelopeSurvives(rows[k], k);
      ExposedExactly(rows[k], k, IsSecretName(k));
    }
  }

  /** What an import makes of every field of every setting: a setting the document does not name is as it was, and one it
      names is merged field by field over what was stored, or over nothing. */
  lemma ImportedField(rows: Rows, document: Rows, key: string, keys: seq<string>)
    ensures key !in document ==> (key in rows <==> key in Imported(rows, document))
                                 && (key in rows ==> Imported(rows, document)[key] == rows[key])
    ensures key in document ==>
              var s := if key in rows then Field(rows[key], keys) else Field(Null, keys);
              var i := Field(document[key], keys);
              && (key in Imported(rows, document) <==> key in rows || document[key] != Null)
              && (key in Imported(rows, document) ==>
                    var m := Field(Imported(rows, document)[key], keys);
                    && (i.Some? && Replaces(i.value) ==> m == i)
                    && (i.Some? && i.value.Obj? ==> m.Some? && m.value.Obj?)
                    && (i.Some? && i.value.Null? ==> m == if s.Some? then s else i)
                    && (i.None? ==> m == if CutOff(document[key], keys) then None else s))
  {
    if key in document {
      MergedField(StoredOr(rows, key), document[key], keys);
      MergedNull(StoredOr(rows, key), document[key]);
    }
  }

  /** Exporting and importing back over the same table leaves it as it was exactly when no application
      setting has a credential inside an array. */
  lemma StoreRoundTrip(rows: Rows)
    ensures Imported(rows, Exported(rows)) == rows
            <==> forall k :: k in rows && !IsInternal(k) ==> !SecretInArray(rows[k], k)
  {
    var after := Imported(rows, Exported(rows));
    assert after.Keys == rows.Keys;
    forall k | k in rows ensures after[k] == rows[k] <==> IsInternal(k) || !SecretInArray(rows[k], k) {
      if !IsInternal(k) {
        RoundTripIsIdentityUnlessAnArrayHoldsASecret(rows[k], k);
        MergedNull(rows[k], Redacted(rows[k], k));
      }
    }
    if forall k :: k in rows && !IsInternal(k) ==> !SecretInArray(rows[k], k) {
      assert after == rows;
    }
  }

  /** A merge only comes to null when there was nothing on either side. */
  lemma MergedNull(stored: Json, imported: Json)
    ensures MergeKeep(stored, imported) == Null <==> stored == Null && imported == Null
  {}

  /** Importing a document twice leaves what importing it once left. */
  lemma ImportIsIdempotent(rows: Rows, document: Rows)
    ensures Imported(Imported(rows, document), document) == Imported(rows, document)
  {
    var once := Imported(rows, document);
    var twice := Imported(once, document);
    forall k | k in document
      ensures MergeKeep(StoredOr(once, k), document[k]) == Null <==> MergeKeep(StoredOr(rows, k), document[k]) == Null
      ensures k in once ==> twice[k] == once[k]
    {
      MergedNull(StoredOr(rows, k), document[k]);
      MergedNull(StoredOr(once, k), document[k]);
      MergeIsIdempotent(StoredOr(rows, k), document[k]);
    }
    assert twice.Keys == once.Keys;
  }
}
