/** Byte fields of a transaction dictionary as text and back (adaptors/algod_transaction.py:92-129).
    Every exception of the two conversions is None. */
module TxnByteFields {
  import opened Common
  import opened Characters
  import opened Base
  import opened PyBase64
  import opened Algorand

  datatype Value = Bytes(b: seq<Byte>) | Str(s: string) | List(items: seq<Value>) | Dict(fields: seq<Field>)
                 | Number(n: int) | Bool(on: bool) | Null

  datatype Field = Field(key: string, value: Value)

  predicate IsAddressKey(key: string) {
    key == "snd" || key == "rcv" || key == "close" || key == "asnd" || key == "arcv" || key == "aclose"
  }

  predicate IsParamAddressKey(key: string) { key == "c" || key == "f" || key == "r" }

  /** Python's `not v`. */
  predicate Falsy(v: Value) {
    match v
    case Bytes(b) => b == []
    case Str(s) => s == ""
    case List(items) => items == []
    case Dict(fields) => fields == []
    case Number(n) => n == 0
    case Bool(on) => !on
    case Null => true
  }

  // ----- the SDK's address conversions -----

  function EncodeAddress(hash: Hash, v: Value): Option<Value> {
    if Falsy(v) then Some(v)
    else if v.Bytes? && |v.b| == 32 then Some(Str(AddressOf(hash, v.b)))
    else None
  }

  ghost function DecodeAddress(hash: Hash, v: Value): Option<Value> {
    if Falsy(v) then Some(v)
    else if v.Str? && Valid(hash, v.s) then
      ValidIsConstructible(hash, v.s);
      Some(Bytes(KeyOf(v.s)))
    else None
  }

  method DecodeAddressOf(hash: Hash, v: Value) returns (r: Option<Value>)
    ensures r == DecodeAddress(hash, v)
  {
    hide Decode, Valid, KeyOf;
    if Falsy(v) { return Some(v); }
    if !v.Str? { return None; }
    var ascii := Ascii(v.s);
    ValidIsAscii(hash, v.s);
    if !ascii { return None; }
    var valid := IsValid(hash, v.s);
    if !valid { return None; }
    ValidIsConstructible(hash, v.s);
    var a := new Address.FromString(v.s);
    r := Some(Bytes(a.publicKey));
  }

  lemma ValidIsAscii(hash: Hash, s: string)
    ensures Valid(hash, s) ==> Ascii(s)
  {
    hide Valid;
    if Valid(hash, s) {
      ValidIsConstructible(hash, s);
    }
  }

  // ----- one field -----

  function EncodeItems(items: seq<Value>): (r: Option<seq<Value>>)
    ensures r.Some? ==> |r.value| == |items|
  {
    if forall i :: 0 <= i < |items| ==> items[i].Bytes? then
      Some(seq(|items|, i requires 0 <= i < |items| => Str(B64EncodePadded(items[i].b))))
    else None
  }

  /** `b64decode` takes ASCII text or bytes. */
  function DecodeItem(v: Value): Option<Value> {
    if v.Str? && Ascii(v.s) && B64DecodePy(v.s).Some? then Some(Bytes(B64DecodePy(v.s).value))
    else if v.Bytes? && B64DecodePy(Chars(v.b)).Some? then Some(Bytes(B64DecodePy(Chars(v.b)).value))
    else None
  }

  function DecodeItems(items: seq<Value>): Option<seq<Value>> {
    if forall i :: 0 <= i < |items| ==> DecodeItem(items[i]).Some? then
      Some(seq(|items|, i requires 0 <= i < |items| => DecodeItem(items[i]).value))
    else None
  }

  /** A field that is not a byte string, or is one under an ordinary key, after sanitizing. */
  function SanitizeBytes(hash: Hash, key: string, v: Value): Option<Value> {
    if !v.Bytes? then Some(v)
    else if IsAddressKey(key) then EncodeAddress(hash, v)
    else Some(Str(B64EncodePadded(v.b)))
  }

  /** A comprehension over a list, over the keys of a dictionary, or over something else that is
      empty: single characters and numbers are no argument of either conversion. */
  function OverItems(v: Value, r: Option<seq<Value>>): Option<Value> {
    if v.List? || v.Dict? then if r.Some? then Some(List(r.value)) else None
    else if Falsy(v) && (v.Bytes? || v.Str?) then Some(List([]))
    else None
  }

  function ItemsOf(v: Value): seq<Value> {
    if v.List? then v.items
    else if v.Dict? then seq(|v.fields|, i requires 0 <= i < |v.fields| => Str(v.fields[i].key))
    else []
  }

  function SanitizeValue(hash: Hash, key: string, v: Value): Option<Value> {
    if key == "apar" then
      if v.Dict? && ParamsEncode(hash, v.fields).Some? then Some(Dict(ParamsEncode(hash, v.fields).value)) else None
    else if key == "apaa" then
      match SanitizeBytes(hash, key, v)
      case None => None
      case Some(w) => OverItems(w, EncodeItems(ItemsOf(w)))
    else SanitizeBytes(hash, key, v)
  }

  function ParamEncode(hash: Hash, f: Field): Option<Value> {
    if IsParamAddressKey(f.key) then EncodeAddress(hash, f.value) else Some(f.value)
  }

  function ParamsEncode(hash: Hash, fields: seq<Field>): Option<seq<Field>> {
    if forall i :: 0 <= i < |fields| ==> ParamEncode(hash, fields[i]).Some? then
      Some(seq(|fields|, i requires 0 <= i < |fields| => Field(fields[i].key, ParamEncode(hash, fields[i]).value)))
    else None
  }

  ghost function ParamDecode(hash: Hash, f: Field): Option<Value> {
    if IsParamAddressKey(f.key) then DecodeAddress(hash, f.value) else Some(f.value)
  }

  ghost function ParamsDecode(hash: Hash, fields: seq<Field>): Option<seq<Field>> {
    if forall i :: 0 <= i < |fields| ==> ParamDecode(hash, fields[i]).Some? then
      Some(seq(|fields|, i requires 0 <= i < |fields| => Field(fields[i].key, ParamDecode(hash, fields[i]).value)))
    else None
  }

  /** Text under an ordinary key: base64, or failing that its own characters. */
  function DecodeText(s: string): Option<Value> {
    if !Ascii(s) then None
    else match B64DecodePy(s)
      case Some(b) => Some(Bytes(b))
      case None => Some(Bytes(Codes(s)))
  }

  ghost function DesanitizeText(hash: Hash, key: string, v: Value): Option<Value> {
    if !v.Str? then Some(v)
    else if IsAddressKey(key) || key == "rekey" then DecodeAddress(hash, v)
    else if key == "type" then Some(v)
    else DecodeText(v.s)
  }

  ghost function DesanitizeValue(hash: Hash, key: string, v: Value): Option<Value> {
    if key == "apar" then
      if v.Dict? && ParamsDecode(hash, v.fields).Some? then Some(Dict(ParamsDecode(hash, v.fields).value)) else None
    else if key == "apaa" then
      match DesanitizeText(hash, key, v)
      case None => None
      case Some(w) => OverItems(w, DecodeItems(ItemsOf(w)))
    else DesanitizeText(hash, key, v)
  }

  // ----- whole dictionaries -----

  function Sanitized(hash: Hash, fields: seq<Field>): Option<seq<Field>> {
    if forall i :: 0 <= i < |fields| ==> SanitizeValue(hash, fields[i].key, fields[i].value).Some? then
      Some(seq(|fields|, i requires 0 <= i < |fields| =>
        Field(fields[i].key, SanitizeValue(hash, fields[i].key, fields[i].value).value)))
    else None
  }

  ghost function Desanitized(hash: Hash, fields: seq<Field>): Option<seq<Field>> {
    if forall i :: 0 <= i < |fields| ==> DesanitizeValue(hash, fields[i].key, fields[i].value).Some? then
      Some(seq(|fields|, i requires 0 <= i < |fields| =>
        Field(fields[i].key, DesanitizeValue(hash, fields[i].key, fields[i].value).value)))
    else None
  }

  /** A transaction dictionary: its entries in insertion order, overwritten in place. */
  class TxnDict {
    var fields: seq<Field>

    constructor (fields: seq<Field>)
      ensures this.fields == fields
    {
      this.fields := fields;
    }

    method SanitizeByteFields(hash: Hash) returns (ok: bool)
      modifies this
      ensures ok <==> Sanitized(hash, old(fields)).Some?
      ensures ok ==> fields == Sanitized(hash, old(fields)).value
    {
      hide SanitizeBytes, OverItems, EncodeItems, ItemsOf, ParamEncode, IsAddressKey;
      for i := 0 to |fields|
        invariant |fields| == |old(fields)| && fields[i..] == old(fields)[i..]
        invariant forall j :: 0 <= j < i ==>
          var r := SanitizeValue(hash, old(fields)[j].key, old(fields)[j].value);
          r.Some? && fields[j] == Field(old(fields)[j].key, r.value)
      {
        var k, v := fields[i].key, fields[i].value;
        if k == "apar" {
          if !v.Dict? { return false; }
          var params := v.fields;
          for p := 0 to |v.fields|
            invariant |params| == |v.fields| && params[p..] == v.fields[p..]
            invariant forall q :: 0 <= q < p ==>
              ParamEncode(hash, v.fields[q]).Some?
              && params[q] == Field(v.fields[q].key, ParamEncode(hash, v.fields[q]).value)
          {
            var encoded := ParamEncode(hash, params[p]);
            if encoded.None? { return false; }
            params := params[p := Field(params[p].key, encoded.value)];
          }
          assert params == ParamsEncode(hash, v.fields).value;
          fields := fields[i := Field(k, Dict(params))];
        } else {
          var w := SanitizeBytes(hash, k, v);
          if w.None? { return false; }
          fields := fields[i := Field(k, w.value)];
          if k == "apaa" {
            var encoded := OverItems(fields[i].value, EncodeItems(ItemsOf(fields[i].value)));
            if encoded.None? { return false; }
            fields := fields[i := Field(k, encoded.value)];
          }
        }
      }
      return true;
    }

    method DesanitizeByteFields(hash: Hash) returns (ok: bool)
      modifies this
      ensures ok <==> Desanitized(hash, old(fields)).Some?
      ensures ok ==> fields == Desanitized(hash, old(fields)).value
    {
      hide DesanitizeText, OverItems, DecodeItems, ItemsOf, ParamDecode, IsAddressKey;
      for i := 0 to |fields|
        invariant |fields| == |old(fields)| && fields[i..] == old(fields)[i..]
        invariant forall j :: 0 <= j < i ==>
          var r := DesanitizeValue(hash, old(fields)[j].key, old(fields)[j].value);
          r.Some? && fields[j] == Field(old(fields)[j].key, r.value)
      {
        var k, v := fields[i].key, fields[i].value;
        if k == "apar" {
          if !v.Dict? { return false; }
          var params := v.fields;
          ghost var before := fields;
          for p := 0 to |v.fields|
            invariant fields == before
            invariant |params| == |v.fields| && params[p..] == v.fields[p..]
            invariant forall q :: 0 <= q < p ==>
              ParamDecode(hash, v.fields[q]).Some?
              && params[q] == Field(v.fields[q].key, ParamDecode(hash, v.fields[q]).value)
          {
            var decoded := ParamDecodeOf(hash, params[p]);
            if decoded.None? { return false; }
            params := params[p := Field(params[p].key, decoded.value)];
          }
          assert params == ParamsDecode(hash, v.fields).value;
          fields := fields[i := Field(k, Dict(params))];
        } else {
          var w := DesanitizeTextOf(hash, k, v);
          if w.None? { return false; }
          fields := fields[i := Field(k, w.value)];
          if k == "apaa" {
            var decoded := OverItems(fields[i].value, DecodeItems(ItemsOf(fields[i].value)));
            if decoded.None? { return false; }
            fields := fields[i := Field(k, decoded.value)];
          }
        }
      }
      return true;
    }
  }

  method ParamDecodeOf(hash: Hash, f: Field) returns (r: Option<Value>)
    ensures r == ParamDecode(hash, f)
  {
    hide DecodeAddress;
    if IsParamAddressKey(f.key) {
      r := DecodeAddressOf(hash, f.value);
    } else {
      r := Some(f.value);
    }
  }

  method DesanitizeTextOf(hash: Hash, key: string, v: Value) returns (r: Option<Value>)
    ensures r == DesanitizeText(hash, key, v)
  {
    hide DecodeAddress, DecodeText;
    if !v.Str? { return Some(v); }
    if IsAddressKey(key) || key == "rekey" {
      r := DecodeAddressOf(hash, v);
    } else if key != "type" {
      r := DecodeText(v.s);
    } else {
      r := Some(v);
    }
  }

  // ----- the round trip -----

  /** An address value survives when it is empty in Python's sense or a 32-byte key. */
  predicate AddressPreserved(v: Value) {
    Falsy(v) || (v.Bytes? && |v.b| == 32)
  }

  /** The fields that come back as they were. */
  predicate Preserved(key: string, v: Value) {
    if key == "apar" then
      && v.Dict?
      && forall i ::
        0 <= i < |v.fields| && IsParamAddressKey(v.fields[i].key) ==> AddressPreserved(v.fields[i].value)
    else if key == "apaa" then
      v.List? && forall i :: 0 <= i < |v.items| ==> v.items[i].Bytes?
    else match v
      case Bytes(b) => if IsAddressKey(key) then AddressPreserved(v) else key != "rekey" && key != "type"
      case Str(s) => key == "type" || (s == "" && (IsAddressKey(key) || key == "rekey"))
      case _ => true
  }

  ghost predicate ComesBack(hash: Hash, key: string, v: Value) {
    var w := SanitizeValue(hash, key, v);
    w.Some? && DesanitizeValue(hash, key, w.value) == Some(v)
  }

  lemma AddressBack(hash: Hash, v: Value)
    ensures EncodeAddress(hash, v).Some? <==> AddressPreserved(v)
    ensures AddressPreserved(v) ==> DecodeAddress(hash, EncodeAddress(hash, v).value) == Some(v)
    ensures EncodeAddress(hash, v).Some? && v.Bytes? && v.b != [] ==> EncodeAddress(hash, v).value.Str?
  {
    hide AddressOf, Valid, KeyOf, Decode;
    if v.Bytes? && |v.b| == 32 {
      AddressRoundTrip(hash, v.b);
    }
  }

  lemma EncodedTextBack(b: seq<Byte>)
    ensures Ascii(B64EncodePadded(b)) && B64DecodePy(B64EncodePadded(b)) == Some(b)
    ensures DecodeText(B64EncodePadded(b)) == Some(Bytes(b))
    ensures DecodeItem(Str(B64EncodePadded(b))) == Some(Bytes(b))
    ensures |B64EncodePadded(b)| != 58
    ensures B64EncodePadded(b) == "" <==> b == []
  {
    hide B64EncodePadded, B64DecodePy;
    PyRoundTrip(b);
    EncodedEmpty(b);
    forall i | 0 <= i < |B64EncodePadded(b)| ensures (B64EncodePadded(b)[i] as int) < 128 {
      EncodedCharacters(b, i);
    }
  }

  lemma ParamsBack(hash: Hash, v: Value)
    ensures ComesBack(hash, "apar", v) <==> Preserved("apar", v)
  {
    hide EncodeAddress, DecodeAddress, AddressPreserved, IsParamAddressKey;
    if v.Dict? {
      forall i | 0 <= i < |v.fields|
        ensures var f := v.fields[i];
          && (ParamEncode(hash, f).Some? <==> (IsParamAddressKey(f.key) ==> AddressPreserved(f.value)))
          && (ParamEncode(hash, f).Some? ==>
               ParamDecode(hash, Field(f.key, ParamEncode(hash, f).value)) == Some(f.value))
      {
        AddressBack(hash, v.fields[i].value);
      }
      if ParamsEncode(hash, v.fields).Some? {
        var encoded := ParamsEncode(hash, v.fields).value;
        assert ParamsDecode(hash, encoded).Some?;
        assert ParamsDecode(hash, encoded).value == v.fields;
      }
    }
  }

  lemma ArgsBack(hash: Hash, v: Value)
    ensures ComesBack(hash, "apaa", v) <==> Preserved("apaa", v)
  {
    hide B64EncodePadded, B64DecodePy, DecodeText, DecodeItem, EncodeAddress, DecodeAddress;
    if v.List? && forall i :: 0 <= i < |v.items| ==> v.items[i].Bytes? {
      var encoded := EncodeItems(v.items).value;
      forall i | 0 <= i < |v.items| ensures DecodeItem(encoded[i]) == Some(v.items[i]) {
        EncodedTextBack(v.items[i].b);
      }
      assert DecodeItems(encoded).value == v.items;
    }
  }

  lemma OrdinaryBack(hash: Hash, key: string, v: Value)
    requires key != "apar" && key != "apaa"
    ensures ComesBack(hash, key, v) <==> Preserved(key, v)
  {
    hide B64EncodePadded, B64DecodePy, EncodeAddress, Valid, KeyOf, Decode, IsAddressKey, AddressOf;
    AddressBack(hash, v);
    match v {
      case Bytes(b) =>
        EncodedTextBack(b);
        TypeIsNoAddress();
        NoAddressOfWrongLength(hash, B64EncodePadded(b));
        if Falsy(v) { EmptyBack(hash, v); }
      case Str(s) => TextBack(hash, key, s);
      case _ =>
    }
  }

  lemma TextBack(hash: Hash, key: string, s: string)
    requires key != "apar" && key != "apaa"
    ensures DesanitizeValue(hash, key, Str(s)) == Some(Str(s))
       <==> key == "type" || (s == "" && (IsAddressKey(key) || key == "rekey"))
  {
  }

  lemma TypeIsNoAddress()
    ensures !IsAddressKey("type") && !IsAddressKey("rekey")
  {
  }

  lemma NoAddressOfWrongLength(hash: Hash, s: string)
    requires |s| != 58
    ensures !Valid(hash, s)
  {
  }

  lemma EmptyBack(hash: Hash, v: Value)
    requires Falsy(v)
    ensures EncodeAddress(hash, v) == Some(v)
  {
  }

  /** A field survives both conversions exactly when it is preserved in this sense. */
  lemma FieldComesBack(hash: Hash, key: string, v: Value)
    ensures ComesBack(hash, key, v) <==> Preserved(key, v)
  {
    hide ComesBack, Preserved;
    if key == "apar" {
      ParamsBack(hash, v);
    } else if key == "apaa" {
      ArgsBack(hash, v);
    } else {
      OrdinaryBack(hash, key, v);
    }
  }

  /** Desanitizing undoes sanitizing exactly on the dictionaries all of whose fields are preserved. */
  lemma DesanitizeUndoesSanitize(hash: Hash, fields: seq<Field>)
    ensures (Sanitized(hash, fields).Some? && Desanitized(hash, Sanitized(hash, fields).value) == Some(fields))
       <==> forall i :: 0 <= i < |fields| ==> Preserved(fields[i].key, fields[i].value)
  {
    hide SanitizeValue, DesanitizeValue, Preserved;
    forall i | 0 <= i < |fields|
      ensures ComesBack(hash, fields[i].key, fields[i].value) <==> Preserved(fields[i].key, fields[i].value)
    {
      FieldComesBack(hash, fields[i].key, fields[i].value);
    }
    if Sanitized(hash, fields).Some? {
      var s := Sanitized(hash, fields).value;
      forall i | 0 <= i < |fields| ensures s[i].key == fields[i].key {
      }
      if forall i :: 0 <= i < |fields| ==> ComesBack(hash, fields[i].key, fields[i].value) {
        assert Desanitized(hash, s).value == fields;
      }
      if Desanitized(hash, s) == Some(fields) {
        forall i | 0 <= i < |fields| ensures ComesBack(hash, fields[i].key, fields[i].value) {
          assert Desanitized(hash, s).value[i] == fields[i];
        }
      }
    }
  }

  // ----- what each field becomes -----

  lemma FalsyIs(v: Value)
    ensures Falsy(v) <==>
      v in {Bytes([]), Str(""), List([]), Dict([]), Number(0), Bool(false), Null}
  {
  }

  /** Bytes become an address under the six address keys and base64 under any other; everything else
      stays, but for application arguments and asset parameters. */
  lemma FieldText(hash: Hash, key: string, v: Value)
    requires key != "apar" && key != "apaa"
    ensures v.Bytes? && key in {"snd", "rcv", "close", "asnd", "arcv", "aclose"} && |v.b| == 32 ==>
      SanitizeValue(hash, key, v) == Some(Str(AddressOf(hash, v.b)))
    ensures v.Bytes? && key in {"snd", "rcv", "close", "asnd", "arcv", "aclose"} && |v.b| != 32 ==>
      SanitizeValue(hash, key, v) == if v.b == [] then Some(v) else None
    ensures v.Bytes? && key !in {"snd", "rcv", "close", "asnd", "arcv", "aclose"} ==>
      SanitizeValue(hash, key, v) == Some(Str(B64EncodePadded(v.b)))
    ensures !v.Bytes? ==> SanitizeValue(hash, key, v) == Some(v)
  {
    hide AddressOf, B64EncodePadded;
  }

  lemma ArgumentsText(hash: Hash, args: seq<Value>)
    requires forall i :: 0 <= i < |args| ==> args[i].Bytes?
    ensures var r := SanitizeValue(hash, "apaa", List(args));
      && r.Some? && r.value.List? && |r.value.items| == |args|
      && forall i :: 0 <= i < |args| ==> r.value.items[i] == Str(B64EncodePadded(args[i].b))
  {
    hide B64EncodePadded;
  }

  /** Arguments that are no list: an empty text, byte string or dictionary gives an empty list, anything
      else fails. Parameters must be a dictionary. */
  lemma NoListNoDict(hash: Hash, v: Value)
    ensures v in {Bytes([]), Str(""), Dict([])} ==> SanitizeValue(hash, "apaa", v) == Some(List([]))
    ensures !v.List? && v !in {Bytes([]), Str(""), Dict([])} ==> SanitizeValue(hash, "apaa", v).None?
    ensures v.List? && (exists i :: 0 <= i < |v.items| && !v.items[i].Bytes?) ==>
      SanitizeValue(hash, "apaa", v).None?
    ensures !v.Dict? ==> SanitizeValue(hash, "apar", v).None? && DesanitizeValue(hash, "apar", v).None?
  {
    hide B64EncodePadded;
    if v.Bytes? { EncodedEmpty(v.b); }
    if v.Dict? && v.fields != [] { assert ItemsOf(v)[0] == Str(v.fields[0].key); }
  }

  /** In asset parameters only clawback, freeze and reserve become addresses. */
  lemma ParamsText(hash: Hash, params: seq<Field>, i: nat)
    requires i < |params| && SanitizeValue(hash, "apar", Dict(params)).Some?
    ensures var r, f := SanitizeValue(hash, "apar", Dict(params)).value, params[i];
      && r.Dict? && |r.fields| == |params| && r.fields[i].key == f.key
      && (f.key in {"c", "f", "r"} && f.value.Bytes? && |f.value.b| == 32 ==>
            r.fields[i].value == Str(AddressOf(hash, f.value.b)))
      && (f.key !in {"c", "f", "r"} ==> r.fields[i].value == f.value)
  {
    hide AddressOf;
  }

  /** Text becomes the key of its address under the six address keys and `rekey`, stays under `type`,
      and is base64, or else its own characters, under any other. */
  lemma FieldBytes(hash: Hash, key: string, v: Value)
    requires key != "apar" && key != "apaa"
    ensures v.Str? && key in {"snd", "rcv", "close", "asnd", "arcv", "aclose", "rekey"} ==>
      DesanitizeValue(hash, key, v) ==
        if v.s == "" then Some(v)
        else if Valid(hash, v.s) then Some(Bytes(Decode(BASE32, v.s)[..32]))
        else None
    ensures v.Str? && key == "type" ==> DesanitizeValue(hash, key, v) == Some(v)
    ensures v.Str? && Ascii(v.s) && key !in {"snd", "rcv", "close", "asnd", "arcv", "aclose", "rekey", "type"} ==>
      DesanitizeValue(hash, key, v) ==
        if B64DecodePy(v.s).Some? then Some(Bytes(B64DecodePy(v.s).value)) else Some(Bytes(Codes(v.s)))
    ensures v.Str? && !Ascii(v.s) && key !in {"snd", "rcv", "close", "asnd", "arcv", "aclose", "rekey", "type"} ==>
      DesanitizeValue(hash, key, v).None?
    ensures !v.Str? ==> DesanitizeValue(hash, key, v) == Some(v)
  {
    hide B64DecodePy, Decode, ValidChecksummed, AllDigits;
    if v.Str? && Valid(hash, v.s) { ValidIsConstructible(hash, v.s); }
  }

  lemma ParamsBytes(hash: Hash, params: seq<Field>, i: nat)
    requires i < |params| && DesanitizeValue(hash, "apar", Dict(params)).Some?
    ensures var r, f := DesanitizeValue(hash, "apar", Dict(params)).value, params[i];
      && r.Dict? && |r.fields| == |params| && r.fields[i].key == f.key
      && (f.key in {"c", "f", "r"} && f.value.Str? && f.value.s != "" ==>
            Valid(hash, f.value.s) && 32 <= |Decode(BASE32, f.value.s)|
            && r.fields[i].value == Bytes(Decode(BASE32, f.value.s)[..32]))
      && (f.key !in {"c", "f", "r"} ==> r.fields[i].value == f.value)
  {
    hide Decode, Valid;
    if params[i].value.Str? && Valid(hash, params[i].value.s) { ValidIsConstructible(hash, params[i].value.s); }
  }

  lemma ArgumentsBytes(hash: Hash, args: seq<Value>, i: nat)
    requires i < |args| && DesanitizeValue(hash, "apaa", List(args)).Some?
    ensures var r := DesanitizeValue(hash, "apaa", List(args)).value;
      && r.List? && |r.items| == |args|
      && r.items[i].Bytes? && (args[i].Str? || args[i].Bytes?)
      && B64DecodePy(if args[i].Str? then args[i].s else Chars(args[i].b)) == Some(r.items[i].b)
  {
    hide B64DecodePy;
  }

  /** The fields of a dictionary keep their keys and their order, and each is converted by itself. */
  lemma FieldByField(hash: Hash, fields: seq<Field>, i: nat)
    requires i < |fields|
    ensures Sanitized(hash, fields).Some? ==>
      var s := Sanitized(hash, fields).value;
      && |s| == |fields| && s[i].key == fields[i].key
      && SanitizeValue(hash, s[i].key, fields[i].value) == Some(s[i].value)
    ensures Desanitized(hash, fields).Some? ==>
      var s := Desanitized(hash, fields).value;
      && |s| == |fields| && s[i].key == fields[i].key
      && DesanitizeValue(hash, s[i].key, fields[i].value) == Some(s[i].value)
  {
    hide SanitizeValue, DesanitizeValue;
  }
}
