/** A transaction dictionary on its way into a scenario: its bytes become text, the rest must be JSON
    (algod.py:318), and then missing entries get default values (scenario.py:71-156). Every exception
    is None. Entries are kept in insertion order: their sorting is not observable, for scenarios are
    written with sorted keys. */
module TxnJson {
  import opened Common
  import opened Characters
  import opened PyBase64
  import opened Algorand
  import opened TxnByteFields

  // ----- dictionaries -----

  function Get(d: seq<Field>, key: string): Option<Value> {
    if d == [] then None
    else if d[0].key == key then Some(d[0].value)
    else Get(d[1..], key)
  }

  /** Python's `name in v`, and None where Python raises. */
  predicate Contains(v: Value, name: string) {
    match v
    case Dict(fields) => Get(fields, name).Some?
    case List(items) => Str(name) in items
    case Str(s) => exists i :: 0 <= i <= |s| && StartsAt(s, i, name)
    case _ => false
  }

  predicate StartsAt(s: string, i: nat, name: string) {
    i + |name| <= |s| && s[i..i + |name|] == name
  }

  /** For a text it is a part of the text, for a list one of its items, for a dictionary a key. */
  lemma ContainsIs(v: Value, name: string)
    ensures v.Str? ==> (Contains(v, name) <==> exists i :: 0 <= i <= |v.s| && name <= v.s[i..])
    ensures v.List? ==> (Contains(v, name) <==> exists i :: 0 <= i < |v.items| && v.items[i] == Str(name))
    ensures v.Dict? ==> (Contains(v, name) <==> exists i :: 0 <= i < |v.fields| && v.fields[i].key == name)
    ensures !v.Str? && !v.List? && !v.Dict? ==> !Contains(v, name)
  {
    if v.Dict? { GetSome(v.fields, name); }
    if v.Str? {
      forall i | 0 <= i <= |v.s| ensures StartsAt(v.s, i, name) <==> name <= v.s[i..] {
        if i + |name| <= |v.s| { assert v.s[i..i + |name|] == v.s[i..][..|name|]; }
      }
    }
  }

  lemma {:induction false} GetSome(d: seq<Field>, key: string)
    ensures Get(d, key).Some? <==> exists i :: 0 <= i < |d| && d[i].key == key
  {
    if d != [] && d[0].key != key {
      GetSome(d[1..], key);
      if exists i :: 0 <= i < |d| && d[i].key == key {
        var i :| 0 <= i < |d| && d[i].key == key;
        assert d[1..][i - 1].key == key;
      }
    }
  }

  /** `if not name in v: v[name] = value`. Only a dictionary takes the assignment. */
  function Insert(v: Value, name: string, value: Value): Option<Value> {
    if Contains(v, name) then Some(v)
    else if v.Dict? then Some(Dict(v.fields + [Field(name, value)]))
    else None
  }

  function FillIn(d: seq<Field>, defaults: seq<Field>): seq<Field>
    decreases defaults
  {
    if defaults == [] then d
    else FillIn(if Get(d, defaults[0].key).Some? then d else d + [defaults[0]], defaults[1..])
  }

  function Replace(d: seq<Field>, key: string, value: Value): seq<Field> {
    seq(|d|, i requires 0 <= i < |d| => if d[i].key == key then Field(key, value) else d[i])
  }

  // ----- JSON -----

  /** What `json.dumps` takes: no bytes anywhere. */
  predicate IsJson(v: Value) {
    match v
    case Bytes(_) => false
    case List(items) => forall i :: 0 <= i < |items| ==> IsJson(items[i])
    case Dict(fields) => forall i :: 0 <= i < |fields| ==> IsJson(fields[i].value)
    case _ => true
  }

  predicate AllJson(d: seq<Field>) {
    forall i :: 0 <= i < |d| ==> IsJson(d[i].value)
  }

  function JsonFields(hash: Hash, d: seq<Field>): Option<seq<Field>> {
    match Sanitized(hash, d)
    case None => None
    case Some(s) => if AllJson(s) then Some(s) else None
  }

  // ----- default values -----

  const SCHEMA := Dict([Field("nbs", Number(0)), Field("nui", Number(0))])

  const HEADER := [
    Field("fv", Number(1)), Field("lv", Number(1001)), Field("gen", Str("kteal")), Field("gh", Str("kteal")),
    Field("fee", Number(1000)), Field("grp", Str("dummy_grp")), Field("note", Str("")),
    Field("rekey", Str(ZERO_ADDRESS))]

  const APPL := [
    Field("apaa", List([])), Field("apid", Number(0)), Field("apan", Number(0)), Field("apat", List([])),
    Field("apfa", List([])), Field("apas", List([])), Field("apgs", SCHEMA), Field("apls", SCHEMA),
    Field("apep", Number(0)), Field("apbx", List([]))]

  const ACFG := [Field("caid", Number(0))]

  const AXFER := [
    Field("xaid", Number(0)), Field("aamt", Number(0)), Field("asnd", Null), Field("arcv", Null),
    Field("aclose", Null)]

  /** The manager of an asset is its clawback address unless it is given. */
  function InsertManager(params: Value): Option<Value> {
    if Contains(params, "m") then Some(params)
    else if params.Dict? && Get(params.fields, "c").Some? then
      Some(Dict(params.fields + [Field("m", Get(params.fields, "c").value)]))
    else None
  }

  function FillParams(params: Value): Option<Value> {
    match Insert(params, "am", Str(""))
    case None => None
    case Some(p) =>
      match Insert(p, "df", Bool(false))
      case None => None
      case Some(q) => InsertManager(q)
  }

  function FillSchema(schema: Value): Option<Value> {
    match Insert(schema, "nbs", Number(0))
    case None => None
    case Some(s) => Insert(s, "nui", Number(0))
  }

  /** The entry under `key`, which must be there, after `r` was computed from it. */
  function Updated(d: seq<Field>, key: string, r: Option<Value>): Option<seq<Field>> {
    if r.Some? then Some(Replace(d, key, r.value)) else None
  }

  function FillAppl(d: seq<Field>): Option<seq<Field>> {
    var a := FillIn(d, APPL);
    var b := if Get(a, "apan") == Some(Null) then Replace(a, "apan", Number(0)) else a;
    match Get(b, "apgs")
    case None => None
    case Some(schema) => Updated(b, "apgs", FillSchema(schema))
  }

  function FillAcfg(d: seq<Field>): Option<seq<Field>> {
    var a := FillIn(d, ACFG);
    match Get(a, "apar")
    case None => None
    case Some(params) => Updated(a, "apar", FillParams(params))
  }

  /** `_insert_defaults`. The programs of an application call are kept apart from this dictionary. */
  function Defaults(d: seq<Field>): Option<seq<Field>> {
    var h := FillIn(d, HEADER);
    match Get(h, "type")
    case None => None
    case Some(t) =>
      if t == Str("appl") then FillAppl(h)
      else if t == Str("acfg") then FillAcfg(h)
      else if t == Str("axfer") then Some(FillIn(h, AXFER))
      else Some(h)
  }

  // ----- when all of this succeeds -----

  /** A value as it is in a sanitized dictionary under an ordinary key. */
  function AsText(v: Value): Value {
    if v.Bytes? then Str(B64EncodePadded(v.b)) else v
  }

  predicate ParamsComplete(params: Value) {
    if params.Dict? then Contains(params, "m") || Contains(params, "c")
    else Contains(params, "am") && Contains(params, "df") && Contains(params, "m")
  }

  predicate SchemaComplete(schema: Value) {
    schema.Dict? || (Contains(schema, "nbs") && Contains(schema, "nui"))
  }

  /** The type is given; an asset configuration has parameters, with a manager or a clawback address;
      the global schema of an application call is a dictionary if it is given. */
  predicate Complete(d: seq<Field>) {
    match Get(d, "type")
    case None => false
    case Some(t) =>
      && (AsText(t) == Str("acfg") ==> Get(d, "apar").Some? && ParamsComplete(Get(d, "apar").value))
      && (AsText(t) == Str("appl") ==> Get(d, "apgs").Some? ==> SchemaComplete(AsText(Get(d, "apgs").value)))
  }

  predicate AddressJson(v: Value) {
    if v.Bytes? then |v.b| == 32 else Falsy(v)
  }

  /** An entry whose bytes all become text: bytes on the top level, application arguments and the
      three known addresses in asset parameters. */
  predicate Jsonable(key: string, v: Value) {
    if key == "apar" then
      && v.Dict?
      && forall i :: 0 <= i < |v.fields| ==>
        if IsParamAddressKey(v.fields[i].key) then AddressJson(v.fields[i].value) else IsJson(v.fields[i].value)
    else if key == "apaa" then
      if v.List? then forall i :: 0 <= i < |v.items| ==> v.items[i].Bytes?
      else Falsy(v) && (v.Bytes? || v.Str? || v.Dict?)
    else if v.Bytes? then IsAddressKey(key) ==> |v.b| == 32
    else IsJson(v)
  }

  predicate Sendable(d: seq<Field>) {
    && (forall i :: 0 <= i < |d| ==> Jsonable(d[i].key, d[i].value))
    && Complete(d)
  }

  lemma {:induction false} GetAppend(d: seq<Field>, f: Field, key: string)
    ensures Get(d + [f], key) == if Get(d, key).Some? || f.key != key then Get(d, key) else Some(f.value)
  {
    if d == [] {
      assert d + [f] == [f];
    } else {
      assert (d + [f])[1..] == d[1..] + [f];
      GetAppend(d[1..], f, key);
    }
  }

  /** Filling in keeps every entry, and adds exactly the defaults of missing ones. */
  lemma {:induction false} FillInGet(d: seq<Field>, defaults: seq<Field>, key: string)
    ensures Get(FillIn(d, defaults), key) == if Get(d, key).Some? then Get(d, key) else Get(defaults, key)
    decreases defaults
  {
    if defaults != [] {
      GetAppend(d, defaults[0], key);
      FillInGet(if Get(d, defaults[0].key).Some? then d else d + [defaults[0]], defaults[1..], key);
    }
  }

  lemma {:induction false} ReplaceGet(d: seq<Field>, key: string, value: Value, k: string)
    ensures Get(Replace(d, key, value), k) == if k == key && Get(d, k).Some? then Some(value) else Get(d, k)
  {
    if d != [] {
      assert Replace(d, key, value)[1..] == Replace(d[1..], key, value);
      ReplaceGet(d[1..], key, value, k);
    }
  }

  lemma FillParamsIff(params: Value)
    ensures FillParams(params).Some? <==> ParamsComplete(params)
  {
    hide Get;
    if params.Dict? {
      var p := Insert(params, "am", Str("")).value;
      GetAppend(params.fields, Field("am", Str("")), "m");
      GetAppend(params.fields, Field("am", Str("")), "c");
      GetAppend(p.fields, Field("df", Bool(false)), "m");
      GetAppend(p.fields, Field("df", Bool(false)), "c");
    }
  }

  lemma FillSchemaIff(schema: Value)
    ensures FillSchema(schema).Some? <==> SchemaComplete(schema)
  {
  }

  /** Inserting the default values fails exactly when the dictionary is not complete. */
  lemma DefaultsIff(d: seq<Field>)
    requires AllJson(d)
    ensures Defaults(d).Some? <==> Complete(d)
  {
    hide Get, FillIn, Replace, IsJson, FillParams, FillSchema, ParamsComplete, SchemaComplete;
    var h := FillIn(d, HEADER);
    HeaderHas();
    FillInGet(d, HEADER, "type");
    FillInGet(d, HEADER, "apar");
    FillInGet(d, HEADER, "apgs");
    FillInGet(h, ACFG, "apar");
    var a := FillIn(h, APPL);
    FillInGet(h, APPL, "apgs");
    ReplaceGet(a, "apan", Number(0), "apgs");
    if Get(d, "type").Some? { NoBytes(d, "type"); }
    if Get(d, "apgs").Some? { NoBytes(d, "apgs"); }
    FillSchemaIff(Get(a, "apgs").value);
    if Get(d, "apar").Some? { FillParamsIff(Get(d, "apar").value); }
    SchemaCompleteDefault();
  }

  lemma NoBytes(d: seq<Field>, key: string)
    requires AllJson(d) && Get(d, key).Some?
    ensures AsText(Get(d, key).value) == Get(d, key).value
  {
  }

  lemma HeaderHas()
    ensures Get(HEADER, "type").None? && Get(HEADER, "apar").None? && Get(HEADER, "apgs").None?
    ensures Get(ACFG, "apar").None? && Get(APPL, "apgs") == Some(SCHEMA)
  {
    hide Get;
    GetFirst(HEADER, |HEADER|, "type");
    GetFirst(HEADER, |HEADER|, "apar");
    GetFirst(HEADER, |HEADER|, "apgs");
    GetFirst(ACFG, |ACFG|, "apar");
    GetFirst(APPL, 6, "apgs");
  }

  lemma {:induction false} GetFirst(d: seq<Field>, i: nat, key: string)
    requires i <= |d| && forall j :: 0 <= j < i ==> d[j].key != key
    requires i < |d| ==> d[i].key == key
    ensures Get(d, key) == if i < |d| then Some(d[i].value) else None
  {
    if i != 0 {
      GetFirst(d[1..], i - 1, key);
    }
  }

  lemma SchemaCompleteDefault()
    ensures SchemaComplete(SCHEMA)
  {
  }

  // ----- from the original dictionary -----

  lemma FieldJsonable(hash: Hash, key: string, v: Value)
    ensures SanitizeValue(hash, key, v).Some? && IsJson(SanitizeValue(hash, key, v).value) <==> Jsonable(key, v)
  {
    hide AddressOf, B64EncodePadded, IsAddressKey, IsParamAddressKey;
    if key == "apar" {
      if v.Dict? { ParamsJsonable(hash, v.fields); }
    } else if key == "apaa" {
      ArgsJsonable(hash, v);
    }
  }

  lemma ArgsJsonable(hash: Hash, v: Value)
    ensures SanitizeValue(hash, "apaa", v).Some? && IsJson(SanitizeValue(hash, "apaa", v).value)
       <==> Jsonable("apaa", v)
  {
    hide AddressOf, B64EncodePadded, IsParamAddressKey;
    if v.Bytes? { EncodedEmpty(v.b); }
    if v.Dict? && v.fields != [] {
      assert ItemsOf(v)[0] == Str(v.fields[0].key);
    }
    if v.List? && EncodeItems(v.items).Some? {
      assert forall i :: 0 <= i < |v.items| ==> EncodeItems(v.items).value[i].Str?;
    }
  }

  lemma AddressJsonable(hash: Hash, v: Value)
    ensures EncodeAddress(hash, v).Some? && IsJson(EncodeAddress(hash, v).value) <==> AddressJson(v)
  {
  }

  lemma ParamsJsonable(hash: Hash, params: seq<Field>)
    ensures ParamsEncode(hash, params).Some? && AllJson(ParamsEncode(hash, params).value)
       <==> Jsonable("apar", Dict(params))
  {
    hide EncodeAddress, AddressJson, IsJson, IsParamAddressKey;
    forall i | 0 <= i < |params|
      ensures EncodeAddress(hash, params[i].value).Some? && IsJson(EncodeAddress(hash, params[i].value).value)
         <==> AddressJson(params[i].value)
    {
      AddressJsonable(hash, params[i].value);
    }
    if ParamsEncode(hash, params).Some? {
      assert forall i :: 0 <= i < |params| ==>
        ParamsEncode(hash, params).value[i].value == ParamEncode(hash, params[i]).value;
    }
  }

  lemma {:induction false} SanitizedGet(hash: Hash, d: seq<Field>, key: string)
    requires Sanitized(hash, d).Some?
    ensures var s := Sanitized(hash, d).value;
      match Get(d, key)
      case None => Get(s, key).None?
      case Some(v) => SanitizeValue(hash, key, v).Some? && Get(s, key) == SanitizeValue(hash, key, v)
  {
    hide SanitizeValue;
    if d != [] && d[0].key != key {
      assert Sanitized(hash, d[1..]).Some?;
      assert Sanitized(hash, d).value[1..] == Sanitized(hash, d[1..]).value;
      SanitizedGet(hash, d[1..], key);
    }
  }

  lemma {:induction false} ParamsKeys(hash: Hash, params: seq<Field>, key: string)
    requires ParamsEncode(hash, params).Some?
    ensures Get(ParamsEncode(hash, params).value, key).Some? <==> Get(params, key).Some?
  {
    hide ParamEncode;
    if params != [] && params[0].key != key {
      assert ParamsEncode(hash, params[1..]).Some?;
      assert ParamsEncode(hash, params).value[1..] == ParamsEncode(hash, params[1..]).value;
      ParamsKeys(hash, params[1..], key);
    }
  }

  lemma OrdinaryText(hash: Hash, v: Value)
    ensures SanitizeValue(hash, "type", v) == Some(AsText(v)) && SanitizeValue(hash, "apgs", v) == Some(AsText(v))
    ensures AsText(AsText(v)) == AsText(v)
  {
  }

  lemma CompleteKept(hash: Hash, d: seq<Field>)
    requires Sanitized(hash, d).Some?
    ensures Complete(Sanitized(hash, d).value) <==> Complete(d)
  {
    hide Get, Sanitized, AsText, SchemaComplete;
    SanitizedGet(hash, d, "type");
    SanitizedGet(hash, d, "apgs");
    SanitizedGet(hash, d, "apar");
    if Get(d, "type").Some? { OrdinaryText(hash, Get(d, "type").value); }
    if Get(d, "apgs").Some? { OrdinaryText(hash, Get(d, "apgs").value); }
    if Get(d, "apar").Some? {
      var params := Get(d, "apar").value.fields;
      ParamsKeys(hash, params, "m");
      ParamsKeys(hash, params, "c");
    }
  }

  /** A transaction dictionary becomes JSON with all its default values exactly when it is sendable. */
  lemma SendableIff(hash: Hash, d: seq<Field>)
    ensures JsonFields(hash, d).Some? && Defaults(JsonFields(hash, d).value).Some? <==> Sendable(d)
  {
    hide SanitizeValue, IsJson, Jsonable, Complete, Defaults;
    forall i | 0 <= i < |d|
      ensures var w := SanitizeValue(hash, d[i].key, d[i].value);
        w.Some? && IsJson(w.value) <==> Jsonable(d[i].key, d[i].value)
    {
      FieldJsonable(hash, d[i].key, d[i].value);
    }
    if Sanitized(hash, d).Some? {
      var s := Sanitized(hash, d).value;
      assert forall i :: 0 <= i < |d| ==> s[i].value == SanitizeValue(hash, d[i].key, d[i].value).value;
      CompleteKept(hash, d);
      if AllJson(s) { DefaultsIff(s); }
    }
  }

  // ----- what is inserted -----

  function Or<T>(a: Option<T>, b: Option<T>): Option<T> {
    if a.Some? then a else b
  }

  function TypeDefaults(t: Value): seq<Field> {
    if t == Str("appl") then APPL else if t == Str("acfg") then ACFG else if t == Str("axfer") then AXFER else []
  }

  /** Every entry that was there stays, and a missing one gets the default of its header or type; only
      a null completion and the two nested dictionaries are changed. */
  lemma DefaultsAre(d: seq<Field>, key: string)
    requires Defaults(d).Some?
    requires key != "apan" && key != "apgs" && key != "apar"
    ensures Get(d, "type").Some?
    ensures Get(Defaults(d).value, key)
         == Or(Get(d, key), Or(Get(HEADER, key), Get(TypeDefaults(Get(d, "type").value), key)))
  {
    hide Get, FillIn, Replace, FillParams, FillSchema;
    var h := FillIn(d, HEADER);
    HeaderHas();
    FillInGet(d, HEADER, "type");
    FillInGet(d, HEADER, key);
    var t := Get(d, "type").value;
    FillInGet(h, TypeDefaults(t), key);
    var a := FillIn(h, TypeDefaults(t));
    if t == Str("appl") {
      ReplaceGet(a, "apan", Number(0), key);
      var b := if Get(a, "apan") == Some(Null) then Replace(a, "apan", Number(0)) else a;
      ReplaceGet(b, "apgs", FillSchema(Get(b, "apgs").value).value, key);
    } else if t == Str("acfg") {
      ReplaceGet(a, "apar", FillParams(Get(a, "apar").value).value, key);
    } else if t != Str("axfer") {
      assert Get([], key).None? by { GetFirst([], 0, key); }
    }
  }

  /** An asset without a manager is managed by its clawback address; it has no metadata hash and is not
      frozen unless that is given. All other parameters stay. */
  lemma ManagerIs(d: seq<Field>, params: seq<Field>, key: string)
    requires Get(d, "type") == Some(Str("acfg")) && Get(d, "apar") == Some(Dict(params))
    requires Defaults(d).Some?
    ensures var after := Get(Defaults(d).value, "apar");
      && after.Some? && after.value.Dict?
      && Get(after.value.fields, key) ==
           if Get(params, key).Some? then Get(params, key)
           else if key == "am" then Some(Str(""))
           else if key == "df" then Some(Bool(false))
           else if key == "m" then Get(params, "c")
           else None
  {
    hide Get, FillIn, Replace;
    var h := FillIn(d, HEADER);
    var a := FillIn(h, ACFG);
    HeaderHas();
    FillInGet(d, HEADER, "type");
    FillInGet(d, HEADER, "apar");
    FillInGet(h, ACFG, "apar");
    ParamsFilled(params, key);
    ReplaceGet(a, "apar", FillParams(Dict(params)).value, "apar");
  }

  lemma ParamsFilled(params: seq<Field>, key: string)
    requires FillParams(Dict(params)).Some?
    ensures var after := FillParams(Dict(params)).value;
      && after.Dict?
      && Get(after.fields, key) ==
           if Get(params, key).Some? then Get(params, key)
           else if key == "am" then Some(Str(""))
           else if key == "df" then Some(Bool(false))
           else if key == "m" then Get(params, "c")
           else None
  {
    hide Get;
    var p := Insert(Dict(params), "am", Str("")).value;
    var q := Insert(p, "df", Bool(false)).value;
    ParamAppended(params, Field("am", Str("")), key);
    ParamAppended(p.fields, Field("df", Bool(false)), key);
    if Get(q.fields, "c").Some? { GetAppend(q.fields, Field("m", Get(q.fields, "c").value), key); }
  }

  lemma ParamAppended(params: seq<Field>, f: Field, key: string)
    ensures forall k :: k in ["m", "c", "df", key] ==>
      Get(params + [f], k) == if Get(params, k).Some? || f.key != k then Get(params, k) else Some(f.value)
  {
    hide Get;
    GetAppend(params, f, "m");
    GetAppend(params, f, "c");
    GetAppend(params, f, "df");
    GetAppend(params, f, key);
  }

  /** Nothing of an application call changes but these two: a null completion is the default one, and a
      global schema that is a dictionary gets the counts it lacks. */
  lemma CompletionAndSchema(d: seq<Field>)
    requires Get(d, "type") == Some(Str("appl")) && Defaults(d).Some?
    ensures var after := Defaults(d).value;
      && Get(after, "apan") == (if Get(d, "apan") in {None, Some(Null)} then Some(Number(0)) else Get(d, "apan"))
      && Get(after, "apgs").Some?
      && (Get(d, "apgs").None? ==> Get(after, "apgs") == Some(Dict([Field("nbs", Number(0)), Field("nui", Number(0))])))
      && (Get(d, "apgs").Some? && Get(d, "apgs").value.Dict? ==>
            && Get(after, "apgs").value.Dict?
            && forall key :: Get(Get(after, "apgs").value.fields, key)
                 == if Get(Get(d, "apgs").value.fields, key).Some? then Get(Get(d, "apgs").value.fields, key)
                    else if key == "nbs" || key == "nui" then Some(Number(0)) else None)
  {
    hide Get, FillIn, Replace;
    var h := FillIn(d, HEADER);
    HeaderHas();
    FillInGet(d, HEADER, "type");
    ApplHas();
    FillInGet(d, HEADER, "apan");
    FillInGet(d, HEADER, "apgs");
    var a := FillIn(h, APPL);
    FillInGet(h, APPL, "apan");
    FillInGet(h, APPL, "apgs");
    ReplaceGet(a, "apan", Number(0), "apan");
    ReplaceGet(a, "apan", Number(0), "apgs");
    var b := if Get(a, "apan") == Some(Null) then Replace(a, "apan", Number(0)) else a;
    var schema := Get(b, "apgs").value;
    ReplaceGet(b, "apgs", FillSchema(schema).value, "apan");
    ReplaceGet(b, "apgs", FillSchema(schema).value, "apgs");
    SchemaFilled(schema);
  }

  lemma SchemaFilled(schema: Value)
    requires FillSchema(schema).Some?
    ensures schema == SCHEMA ==> FillSchema(schema) == Some(SCHEMA)
    ensures schema.Dict? ==> FillSchema(schema).value.Dict? && forall key ::
      Get(FillSchema(schema).value.fields, key)
        == if Get(schema.fields, key).Some? then Get(schema.fields, key)
           else if key == "nbs" || key == "nui" then Some(Number(0)) else None
  {
    hide Get;
    if schema == SCHEMA {
      GetFirst(SCHEMA.fields, 0, "nbs");
      GetFirst(SCHEMA.fields, 1, "nui");
    }
    if schema.Dict? {
      var s := Insert(schema, "nbs", Number(0)).value;
      forall key ensures Get(FillSchema(schema).value.fields, key)
        == if Get(schema.fields, key).Some? then Get(schema.fields, key)
           else if key == "nbs" || key == "nui" then Some(Number(0)) else None
      {
        GetAppend(schema.fields, Field("nbs", Number(0)), key);
        GetAppend(schema.fields, Field("nbs", Number(0)), "nui");
        GetAppend(s.fields, Field("nui", Number(0)), key);
      }
    }
  }

  lemma ApplHas()
    ensures Get(HEADER, "apan").None? && Get(APPL, "apan") == Some(Number(0))
  {
    hide Get;
    GetFirst(HEADER, |HEADER|, "apan");
    GetFirst(APPL, 2, "apan");
  }

  /** The default values, written out for a dictionary with nothing but its type. */
  lemma DefaultValues(t: string, key: string)
    requires t == "pay" || t == "axfer" || t == "appl"
    requires key in {"fv", "lv", "gen", "gh", "fee", "grp", "note", "rekey"}
    ensures Defaults([Field("type", Str(t))]).Some?
    ensures Get(Defaults([Field("type", Str(t))]).value, key) == Some(
      if key == "fv" then Number(1) else if key == "lv" then Number(1001)
      else if key == "fee" then Number(1000) else if key == "gen" || key == "gh" then Str("kteal")
      else if key == "grp" then Str("dummy_grp") else if key == "note" then Str("")
      else Str(ZERO_ADDRESS))
  {
    hide Get, Defaults, Complete;
    var d := [Field("type", Str(t))];
    GetFirst(d, 0, "type");
    GetFirst(d, 1, key);
    GetFirst(d, 1, "apgs");
    DefaultsIff(d);
    assert Complete(d) by { TypeOnlyComplete(d, t); }
    DefaultsAre(d, key);
    GetFirst(HEADER, if key == "fv" then 0 else if key == "lv" then 1 else if key == "gen" then 2
      else if key == "gh" then 3 else if key == "fee" then 4 else if key == "grp" then 5
      else if key == "note" then 6 else 7, key);
  }

  lemma TypeOnlyComplete(d: seq<Field>, t: string)
    requires t == "pay" || t == "axfer" || t == "appl"
    requires Get(d, "type") == Some(Str(t)) && Get(d, "apgs").None?
    ensures Complete(d)
  {
  }

  lemma TypeDefaultValues(key: string)
    ensures key in {"apaa", "apat", "apfa", "apas", "apbx"} ==> Get(APPL, key) == Some(List([]))
    ensures key in {"apid", "apan", "apep"} ==> Get(APPL, key) == Some(Number(0))
    ensures key in {"apgs", "apls"} ==>
      Get(APPL, key) == Some(Dict([Field("nbs", Number(0)), Field("nui", Number(0))]))
    ensures key in {"xaid", "aamt"} ==> Get(AXFER, key) == Some(Number(0))
    ensures key in {"asnd", "arcv", "aclose"} ==> Get(AXFER, key) == Some(Null)
    ensures key == "caid" ==> Get(ACFG, key) == Some(Number(0))
  {
    hide Get;
    if key in {"apaa", "apat", "apfa", "apas", "apbx", "apid", "apan", "apep", "apgs", "apls"} {
      GetFirst(APPL, if key == "apaa" then 0 else if key == "apid" then 1 else if key == "apan" then 2
        else if key == "apat" then 3 else if key == "apfa" then 4 else if key == "apas" then 5
        else if key == "apgs" then 6 else if key == "apls" then 7 else if key == "apep" then 8 else 9, key);
    }
    if key in {"xaid", "aamt", "asnd", "arcv", "aclose"} {
      GetFirst(AXFER, if key == "xaid" then 0 else if key == "aamt" then 1 else if key == "asnd" then 2
        else if key == "arcv" then 3 else 4, key);
    }
    if key == "caid" { GetFirst(ACFG, 0, key); }
  }

  // ----- bytes inside a value -----

  /** `w` is `v` or somewhere inside it. */
  ghost predicate Within(w: Value, v: Value) {
    w == v || match v
      case List(items) => exists i :: 0 <= i < |items| && Within(w, items[i])
      case Dict(fields) => exists i :: 0 <= i < |fields| && Within(w, fields[i].value)
      case _ => false
  }

  /** A value is JSON exactly when there are no bytes anywhere inside it. */
  lemma {:induction false} JsonHasNoBytes(v: Value)
    ensures IsJson(v) <==> forall w :: Within(w, v) ==> !w.Bytes?
  {
    match v {
      case List(items) =>
        forall i | 0 <= i < |items| ensures IsJson(items[i]) <==> forall w :: Within(w, items[i]) ==> !w.Bytes? {
          JsonHasNoBytes(items[i]);
        }
      case Dict(fields) =>
        forall i | 0 <= i < |fields|
          ensures IsJson(fields[i].value) <==> forall w :: Within(w, fields[i].value) ==> !w.Bytes?
        {
          JsonHasNoBytes(fields[i].value);
        }
      case _ => assert Within(v, v);
    }
  }
}
